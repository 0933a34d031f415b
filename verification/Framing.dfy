/** Length-prefixed messages: str_utils.c, and the sender and receiver of
    lan_chat-v1.c. */
module Framing {
  import opened CText
  import opened Stream

  /** "%04x", cut to four characters. */
  function Hex4(num: nat): (h: string)
    ensures |h| == 4 && AllHex(h)
  {
    var t := HexText(num);
    if |t| < 4 then ZeroPad(4 - |t|) + t
    else t[..4]
  }

  /** Losing digits on the right makes a numeral smaller. */
  lemma {:induction false} CutIsSmaller(num: nat, k: nat)
    requires 0 < k < |HexText(num)|
    ensures HexVal(HexText(num)[..k]) < num
  {
    var t, u := HexText(num), HexText(num / 16);
    assert num >= 16 && t == u + [DigitChar(num % 16)];
    if k < |u| {
      CutIsSmaller(num / 16, k);
      assert t[..k] == u[..k];
    } else {
      assert t[..k] == u;
      HexTextValue(num / 16);
    }
  }

  lemma OneDigitMore(num: nat)
    requires num >= 0x10
    ensures |HexText(num)| == |HexText(num / 0x10)| + 1
  {
  }

  lemma HexTextLong(num: nat)
    ensures num >= 0x1_0000 ==> |HexText(num)| > 4
  {
    hide HexText;
    if num >= 0x1_0000 {
      OneDigitMore(num);
      OneDigitMore(num / 0x10);
      OneDigitMore(num / 0x10 / 0x10);
      OneDigitMore(num / 0x10 / 0x10 / 0x10);
    }
  }

  /** The four characters carry the number exactly when it fits them. */
  lemma Hex4Carries(num: nat)
    ensures HexVal(Hex4(num)) == num <==> num <= 0xffff
    ensures num > 0xffff ==> HexVal(Hex4(num)) < num
  {
    HexTextValue(num);
    var t := HexText(num);
    HexTextLong(num);
    if |t| < 4 {
      PadKeepsValue(4 - |t|, t);
    } else if num > 0xffff {
      CutIsSmaller(num, 4);
    } else {
      assert t[..4] == t;
    }
  }

  function Pow16(k: nat): (p: nat)
    ensures p > 0
  {
    if k == 0 then 1 else 16 * Pow16(k - 1)
  }

  lemma LongerKeepsFour(num: nat)
    requires num > 0xffff
    ensures num / 16 > 0xffff ==> Hex4(num) == Hex4(num / 16)
    ensures num / 16 <= 0xffff ==> HexVal(Hex4(num)) == num / 16 >= 0x1000
  {
    var less := num / 16;
    assert HexText(num) == HexText(less) + [DigitChar(num % 16)];
    HexTextValue(less);
    HexTextLong(less);
    if less <= 0xffff {
      FourDigitsLong(less);
    }
    hide HexText, HexVal;
  }

  lemma SixteenTimes(v: nat, p: nat, num: nat)
    requires v * p <= num / 16 < (v + 1) * p
    ensures v * (16 * p) <= num < (v + 1) * (16 * p)
  {
    var x, y := v * p, (v + 1) * p;
    assert v * (16 * p) == 16 * x && (v + 1) * (16 * p) == 16 * y;
    assert num < 16 * (num / 16) + 16 <= 16 * y;
  }

  /** Of a larger number they carry the first four digits. */
  lemma {:induction false} FirstFourDigits(num: nat) returns (k: nat)
    requires num > 0xffff
    ensures var v := HexVal(Hex4(num));
      0x1000 <= v <= 0xffff && v * Pow16(k) <= num < (v + 1) * Pow16(k)
  {
    LongerKeepsFour(num);
    hide Hex4, HexVal;
    if num / 16 > 0xffff {
      k := FirstFourDigits(num / 16);
      SixteenTimes(HexVal(Hex4(num)), Pow16(k), num);
      k := k + 1;
    } else {
      k := 1;
      assert Pow16(1) == 16 * Pow16(0) == 16;
    }
  }

  lemma FourDigitsLong(num: nat)
    requires 0x1000 <= num <= 0xffff
    ensures |HexText(num)| == 4
  {
    OneDigitMore(num);
    OneDigitMore(num / 0x10);
    OneDigitMore(num / 0x10 / 0x10);
    HexTextValue(num);
  }

  /** The characters strcspn stops at: the two of a line end, and the terminator. */
  predicate LineEnd(c: char) {
    c == '\r' || c == '\n' || c == '\0'
  }

  /** The text before the first of them. */
  function Chomp(s: string): (c: string)
    ensures c <= s && forall i :: 0 <= i < |c| ==> !LineEnd(c[i])
    ensures |c| < |s| ==> LineEnd(s[|c|])
  {
    if s == "" || LineEnd(s[0]) then "" else [s[0]] + Chomp(s[1..])
  }

  lemma {:induction false} ChompIs(s: string, n: nat)
    requires n <= |s| && (forall i :: 0 <= i < n ==> !LineEnd(s[i])) && (n < |s| ==> LineEnd(s[n]))
    ensures Chomp(s) == s[..n]
    decreases n
  {
    if n > 0 {
      ChompIs(s[1..], n - 1);
      assert s[..n] == [s[0]] + s[1..][..n - 1];
    }
  }

  /** chomp: strcspn, then a terminator over the character found. */
  method ChompInPlace(str: array<char>, len: nat) returns (newLen: nat)
    requires len < str.Length && str[len] == '\0'
    modifies str
    ensures newLen <= len && old(str[..newLen]) == Chomp(old(str[..len])) && str[newLen] == '\0'
    ensures str[..] == old(str[..])[newLen := '\0']
  {
    newLen := 0;
    while str[newLen] != '\r' && str[newLen] != '\n' && str[newLen] != '\0'
      invariant newLen <= len
      invariant forall i :: 0 <= i < newLen ==> !LineEnd(str[i])
      decreases len - newLen
    {
      newLen := newLen + 1;
    }
    ChompIs(str[..len], newLen);
    assert str[..len][..newLen] == str[..newLen];
    str[newLen] := '\0';
  }

  // ----- frames

  function Payload(user: string, message: string): string {
    CString(user) + ": " + Chomp(message)
  }

  /** The length field counts itself, the payload and the terminator. */
  function FrameLength(payload: string): nat {
    4 + |payload| + 1
  }

  /** What create_send_msg and create_send_msg_static put on the wire. */
  function Frame(payload: string): string {
    Hex4(FrameLength(payload)) + payload
  }

  /** Taking one frame off a stream: the length field less five is the payload. */
  function TakeFrame(s: string): Option<(string, string)> {
    if |s| < 4 || !AllHex(s[..4]) then None
    else
      var n := HexVal(s[..4]);
      if n < 5 || |s| - 4 < n - 5 then None else Some((s[4..4 + n - 5], s[4 + n - 5..]))
  }

  /** A frame comes off the stream whole, and leaves it at the next frame,
      exactly when its length fits four hex digits. */
  lemma FrameRoundTrip(payload: string, rest: string)
    ensures TakeFrame(Frame(payload) + rest) == Some((payload, rest)) <==> FrameLength(payload) <= 0xffff
  {
    var s := Frame(payload) + rest;
    Hex4Carries(FrameLength(payload));
    assert s[..4] == Hex4(FrameLength(payload));
    assert s[4..] == payload + rest;
    if FrameLength(payload) <= 0xffff {
      assert s[4..4 + |payload|] == payload && s[4 + |payload|..] == rest;
    } else if TakeFrame(s).Some? {
      assert |TakeFrame(s).value.0| < |payload|;
    }
  }

  function Frames(payloads: seq<string>): string {
    if payloads == [] then "" else Frame(payloads[0]) + Frames(payloads[1..])
  }

  predicate Framable(payloads: seq<string>) {
    forall i :: 0 <= i < |payloads| ==> FrameLength(payloads[i]) <= 0xffff
  }

  // ----- the sender

  const END_SIGNAL := "am-end"

  predicate IsEnd(line: string) {
    END_SIGNAL <= line
  }

  /** The payloads of the lines typed before the end signal. */
  function Sent(user: string, lines: seq<string>): seq<string> {
    if lines == [] || IsEnd(lines[0]) then [] else [Payload(user, lines[0])] + Sent(user, lines[1..])
  }

  lemma {:induction false} FramesConcat(a: seq<string>, b: seq<string>)
    ensures Frames(a + b) == Frames(a) + Frames(b)
  {
    if a == [] {
      assert a + b == b;
    } else {
      assert (a + b)[1..] == a[1..] + b;
      FramesConcat(a[1..], b);
    }
  }

  lemma FramesOne(p: string)
    ensures Frames([p]) == Frame(p)
  {
    assert [p][1..] == [] && Frame(p) + "" == Frame(p);
  }

  /** What a line says: all of it before the first carriage return, newline or
      terminator. */
  predicate IsText(text: string, line: string) {
    && text <= line
    && (forall i :: 0 <= i < |text| ==> text[i] != '\r' && text[i] != '\n' && text[i] != '\0')
    && (|text| < |line| ==> line[|text|] == '\r' || line[|text|] == '\n' || line[|text|] == '\0')
  }

  /** `shown` is a user's line as a receiver sees it: the user, a colon and a space,
      and what the line says. */
  predicate Said(user: string, line: string, shown: string) {
    var k := |user|;
    k + 2 <= |shown| && shown[..k] == user && shown[k..k + 2] == ": " && IsText(shown[k + 2..], line)
  }

  /** That is one text for each line. */
  lemma SaidIsPayload(user: string, line: string, shown: string)
    ensures Said(CString(user), line, shown) <==> shown == Payload(user, line)
  {
    var name := CString(user);
    hide CString;
    if Said(name, line, shown) {
      var text := shown[|name| + 2..];
      ChompIs(line, |text|);
      assert text == line[..|text|];
      assert shown == name + ": " + text;
    } else if shown == Payload(user, line) {
      PayloadParts(name, Chomp(line));
    }
    hide Chomp;
  }

  lemma PayloadParts(name: string, text: string)
    ensures var p, k := name + ": " + text, |name|;
      p[..k] == name && p[k..k + 2] == ": " && p[k + 2..] == text
  {
  }

  /** A text typed with a line end, or with none, is shown as it is. */
  lemma TypedText(user: string, text: string, end: string, shown: string)
    requires '\0' !in user && end in {"", "\n", "\r\n"}
    requires '\r' !in text && '\n' !in text && '\0' !in text
    ensures Said(user, text + end, shown) <==> shown == user + ": " + text
  {
    WithoutNul(user);
    SaidIsPayload(user, text + end, shown);
    assert (text + end)[..|text|] == text;
    ChompIs(text + end, |text|);
  }

  /** create_send_msg, for a message without its line end: four digits that count
      themselves, the rest and the terminator left behind, then what is shown. */
  method CreateSendMsg(message: string, user: string) returns (toSend: string)
    ensures toSend == Frame(Payload(user, message))
    ensures |toSend| >= 4 && AllHex(toSend[..4]) && Said(CString(user), message, toSend[4..])
    ensures HexVal(toSend[..4]) == |toSend| + 1 <==> |toSend| + 1 <= 0xffff
  {
    var buf := new char[|message| + 1](i requires 0 <= i <= |message| => if i < |message| then message[i] else '\0');
    assert buf[..|message|] == message;
    var n := ChompInPlace(buf, |message|);
    assert buf[..n] == Chomp(message);
    var name := CString(user);
    var toSendLen := 4 + |name| + 2 + n + 1;
    toSend := Hex4(toSendLen) + name + ": " + buf[..n];
    assert toSend == Hex4(toSendLen) + Payload(user, message);
    assert toSend[..4] == Hex4(toSendLen) && toSend[4..] == Payload(user, message);
    Hex4Carries(toSendLen);
    SaidIsPayload(user, message, toSend[4..]);
    hide Said, IsText, HexVal, Hex4;
  }

  lemma OneMoreSent(user: string, lines: seq<string>, i: nat, done: seq<string>)
    requires i < |lines| && !IsEnd(lines[i])
    ensures var more := done + [Payload(user, lines[i])];
      && more + Sent(user, lines[i + 1..]) == done + Sent(user, lines[i..])
      && Frames(more) == Frames(done) + Frame(Payload(user, lines[i]))
  {
    hide Frame, Payload, Frames;
    var p := Payload(user, lines[i]);
    assert lines[i..][0] == lines[i] && lines[i..][1..] == lines[i + 1..];
    assert Sent(user, lines[i..]) == [p] + Sent(user, lines[i + 1..]);
    FramesConcat(done, [p]);
    FramesOne(p);
  }

  /** message_loop: one frame for each line, until the end signal. */
  method MessageLoop(sock: Sink, user: string, lines: seq<string>) returns (ok: bool)
    modifies sock
    ensures Sound(old(sock.plan)) ==> ok
    ensures ok ==> sock.written == old(sock.written) + Frames(Sent(user, lines))
  {
    hide Frame, Payload, Sound, Said, CString, HexVal, AllHex;
    var i := 0;
    ghost var done: seq<string> := [];
    assert Frames(done) == "";
    hide Frames;
    assert lines[0..] == lines && [] + Sent(user, lines) == Sent(user, lines);
    while i < |lines| && !IsEnd(lines[i])
      invariant 0 <= i <= |lines|
      invariant done + Sent(user, lines[i..]) == Sent(user, lines)
      invariant sock.written == old(sock.written) + Frames(done)
      invariant Sound(old(sock.plan)) ==> Sound(sock.plan)
    {
      var toSend := CreateSendMsg(lines[i], user);
      var n := Writen(sock, toSend);
      if n == -1 {
        return false;
      }
      OneMoreSent(user, lines, i, done);
      done := done + [Payload(user, lines[i])];
      i := i + 1;
    }
    assert i < |lines| ==> lines[i..][0] == lines[i];
    assert Sent(user, lines[i..]) == [];
    assert done == Sent(user, lines);
    return true;
  }

  // ----- the receiver

  /** How the receiving loop ends: nothing more to read, a header read that was
      interrupted or failed, or readn failing. */
  datatype RecvEnd = Eof | Stopped | SysError

  /** What sscanf makes of the four characters of a header. Any function will do
      that reads four hex digits as their number. */
  type Scan = string -> nat

  ghost predicate Scans(scan: Scan) {
    forall h :: |h| == 4 && AllHex(h) ==> scan(h) == HexVal(h)
  }

  /** The length of the payload, in 32 bits without a sign. */
  function PayloadLength(field: nat): nat {
    (field - 5) % 0x1_0000_0000
  }

  /** The part of a payload that the data did not fill: whatever malloc gave. */
  function Unfilled(junk: nat -> char, from: nat, to: nat): (t: string)
    requires from <= to
    ensures |t| == to - from
  {
    seq(to - from, i requires 0 <= i < to - from => junk(from + i))
  }

  /** One turn of the receiving loop: a text with the stream, the plan and the
      header buffer that are left, or how the loop ends. */
  datatype Turn = Got(text: string, unread: string, plan: seq<Event>, header: string) | End(end: RecvEnd)

  /** A short read of a header leaves the rest of the buffer as it was. */
  function TurnOf(s: string, plan: seq<Event>, header: string, scan: Scan, junk: nat -> char): Turn
    requires |header| == 4
  {
    var k := Portion(plan, Min(4, |s|));
    if plan != [] && !plan[0].Move? then End(Stopped)
    else if k == 0 then End(Eof)
    else
      var h := s[..k] + header[k..];
      var n := PayloadLength(scan(h));
      match ReadRun(Rest(plan), n, |s| - k)
      case None => End(SysError)
      case Some(left) =>
        var m := Min(n, |s| - k);
        Got(s[k..][..m] + Unfilled(junk, m, n), s[k..][m..], left, h)
  }

  /** What the loop prints on a stream, each text up to its first NUL, and how it
      ends. */
  function Received(s: string, plan: seq<Event>, header: string, scan: Scan, junk: nat -> char): (seq<string>, RecvEnd)
    requires |header| == 4
    decreases |s|
  {
    var t := TurnOf(s, plan, header, scan, junk);
    TurnShrinks(s, plan, header, scan, junk);
    match t
    case End(e) => ([], e)
    case Got(text, rest, left, h) =>
      var (texts, e) := Received(rest, left, h, scan, junk);
      ([CString(text)] + texts, e)
  }

  lemma ReceivedGot(s: string, plan: seq<Event>, header: string, scan: Scan, junk: nat -> char)
    requires |header| == 4 && TurnOf(s, plan, header, scan, junk).Got?
    ensures var t := TurnOf(s, plan, header, scan, junk);
      && |t.header| == 4
      && Received(s, plan, header, scan, junk).0
        == [CString(t.text)] + Received(t.unread, t.plan, t.header, scan, junk).0
  {
    TurnShrinks(s, plan, header, scan, junk);
    hide TurnOf;
  }

  /** A turn takes at most four characters more than it prints. */
  lemma TurnShrinks(s: string, plan: seq<Event>, header: string, scan: Scan, junk: nat -> char)
    requires |header| == 4
    ensures var t := TurnOf(s, plan, header, scan, junk);
      t.Got? ==> |t.header| == 4 && |t.unread| < |s| <= |t.unread| + 4 + |t.text|
  {
    hide ReadRun, PayloadLength;
  }

  /** On a stream without NULs, that goes for what is shown of the text as well. */
  lemma TurnShows(s: string, plan: seq<Event>, header: string, scan: Scan, junk: nat -> char)
    requires |header| == 4 && '\0' !in s
    ensures var t := TurnOf(s, plan, header, scan, junk);
      t.Got? ==>
        && '\0' !in t.unread && |s| <= |t.unread| + 4 + |CString(t.text)|
        && |s| <= |t.unread| + Portion(plan, Min(4, |s|)) + |CString(t.text)|
  {
    var t := TurnOf(s, plan, header, scan, junk);
    if t.Got? {
      var k := Portion(plan, Min(4, |s|));
      var n := PayloadLength(scan(t.header));
      var m := Min(n, |s| - k);
      hide ReadRun, PayloadLength, Portion, CString;
      ShownAtLeast(s[k..][..m], Unfilled(junk, m, n));
    }
  }

  lemma ShownAtLeast(a: string, b: string)
    requires '\0' !in a
    ensures |CString(a + b)| >= |a|
  {
    assert forall i :: 0 <= i < |a| ==> (a + b)[i] == a[i];
    hide CString;
  }

  /** The frames a stream starts with, and what follows them. */
  function Taken(s: string): (seq<string>, string)
    decreases |s|
  {
    match TakeFrame(s)
    case None => ([], s)
    case Some((p, rest)) => var (ps, left) := Taken(rest); ([p] + ps, left)
  }

  /** The room that frames with these payloads take. */
  function Size(texts: seq<string>): nat {
    if texts == [] then 0 else 4 + |texts[0]| + Size(texts[1..])
  }

  lemma FrameSize(s: string)
    requires TakeFrame(s).Some?
    ensures var (p, rest) := TakeFrame(s).value;
      |s| == 4 + |p| + |rest| && s[4..] == p + rest
  {
    hide HexVal, AllHex;
  }

  lemma {:induction false} TakenSize(s: string)
    ensures |s| == Size(Taken(s).0) + |Taken(s).1|
    decreases |s|
  {
    if TakeFrame(s).Some? {
      FrameSize(s);
      TakenSize(TakeFrame(s).value.1);
      assert Taken(s).0[1..] == Taken(TakeFrame(s).value.1).0;
      hide TakeFrame;
    }
  }

  /** Frames that fit are taken off a stream just as they were put on it. */
  lemma {:induction false} TakenFrames(payloads: seq<string>)
    requires Framable(payloads)
    ensures Taken(Frames(payloads)) == (payloads, "")
  {
    if payloads != [] {
      hide Frame;
      FrameRoundTrip(payloads[0], Frames(payloads[1..]));
      TakenFrames(payloads[1..]);
      assert payloads == [payloads[0]] + payloads[1..];
    }
  }

  /** The read of a header is not interrupted and gives four characters. */
  predicate HeaderWhole(plan: seq<Event>) {
    plan == [] || (plan[0].Move? && plan[0].n >= 4)
  }

  /** The plan lets every header come whole. The reads of the payloads may be cut
      up and interrupted in any way, and the last read, at the end of the stream,
      may give anything. */
  predicate HeadersWhole(plan: seq<Event>, payloads: seq<string>)
    decreases |payloads|
  {
    if payloads == [] then plan == [] || plan[0].Move?
    else
      && HeaderWhole(plan)
      && var left := ReadRun(Rest(plan), |payloads[0]|, |payloads[0]|);
      && left.Some? && HeadersWhole(left.value, payloads[1..])
  }

  /** When a frame stands at the front of the stream and its header comes whole,
      the turn takes the frame, whatever was in the header buffer. */
  lemma WholeTurn(s: string, plan: seq<Event>, header: string, scan: Scan, junk: nat -> char)
    requires |header| == 4 && Scans(scan) && TakeFrame(s).Some? && HeaderWhole(plan)
    ensures var (p, rest) := TakeFrame(s).value;
      var left := ReadRun(Rest(plan), |p|, |p|);
      TurnOf(s, plan, header, scan, junk) ==
        if left.None? then End(SysError) else Got(p, rest, left.value, s[..4])
  {
    var p := TakeFrame(s).value.0;
    FrameSize(s);
    HeaderField(s, scan);
    ReadRunEnough(Rest(plan), |p|, |s| - 4);
    hide HexVal, AllHex, ReadRun, PayloadLength, Scans;
    assert s[..4] + header[4..] == s[..4];
    assert s[4..][..|p|] + Unfilled(junk, |p|, |p|) == p;
  }

  lemma HeaderField(s: string, scan: Scan)
    requires Scans(scan) && TakeFrame(s).Some?
    ensures PayloadLength(scan(s[..4])) == |TakeFrame(s).value.0|
  {
    FourDigits(s[..4]);
    hide HexVal;
  }

  lemma LastDigit(h: string)
    requires h != "" && AllHex(h)
    ensures AllHex(h[..|h| - 1]) && HexVal(h) <= 16 * HexVal(h[..|h| - 1]) + 15
  {
  }

  lemma FourDigits(h: string)
    requires |h| == 4 && AllHex(h)
    ensures HexVal(h) <= 0xffff
  {
    assert HexVal("") == 0;
    hide HexVal, AllHex;
    assert h[..3][..2] == h[..2] && h[..2][..1] == h[..1] && h[..1][..0] == "";
    LastDigit(h);
    LastDigit(h[..3]);
    LastDigit(h[..2]);
    LastDigit(h[..1]);
  }

  /** And then the payload is printed. */
  lemma FirstReceived(s: string, plan: seq<Event>, header: string, scan: Scan, junk: nat -> char)
    requires |header| == 4 && Scans(scan) && TakeFrame(s).Some? && HeaderWhole(plan)
    requires '\0' !in TakeFrame(s).value.0
    requires var p := TakeFrame(s).value.0; ReadRun(Rest(plan), |p|, |p|).Some?
    ensures var (p, rest) := TakeFrame(s).value;
      var left := ReadRun(Rest(plan), |p|, |p|).value;
      && |s| >= 4
      && Received(s, plan, header, scan, junk).0 == [p] + Received(rest, left, s[..4], scan, junk).0
  {
    FrameSize(s);
    hide *;
    WholeTurn(s, plan, header, scan, junk);
    ReceivedGot(s, plan, header, scan, junk);
    WithoutNul(TakeFrame(s).value.0);
  }

  /** A loop that came to the end of a stream without NULs has accounted for every
      character of it: four for a header, and what it showed. */
  lemma {:induction false} EndAccounts(s: string, plan: seq<Event>, header: string, scan: Scan, junk: nat -> char)
    requires |header| == 4 && '\0' !in s
    ensures var (printed, end) := Received(s, plan, header, scan, junk);
      end == Eof ==> |s| <= Size(printed)
    decreases |s|
  {
    var t := TurnOf(s, plan, header, scan, junk);
    TurnShrinks(s, plan, header, scan, junk);
    if t.Got? {
      TurnShows(s, plan, header, scan, junk);
      EndAccounts(t.unread, t.plan, t.header, scan, junk);
      var (texts, e) := Received(t.unread, t.plan, t.header, scan, junk);
      assert ([CString(t.text)] + texts)[1..] == texts;
    } else {
      EndAtEnd(s, plan, header, scan, junk);
    }
    hide TurnOf, CString;
  }

  lemma EndAtEnd(s: string, plan: seq<Event>, header: string, scan: Scan, junk: nat -> char)
    requires |header| == 4
    ensures TurnOf(s, plan, header, scan, junk) == End(Eof) <==> s == "" && (plan == [] || plan[0].Move?)
  {
    hide ReadRun, PayloadLength;
  }

  /** A turn that shows as many characters as the frame at the front has, and
      leaves no more behind than the frame, read its header whole. */
  lemma FullTurnWasWhole(s: string, plan: seq<Event>, header: string, scan: Scan, junk: nat -> char)
    requires |header| == 4 && '\0' !in s && TakeFrame(s).Some?
    requires var t := TurnOf(s, plan, header, scan, junk);
      && t.Got? && |CString(t.text)| == |TakeFrame(s).value.0| && |t.unread| <= |TakeFrame(s).value.1|
    ensures HeaderWhole(plan)
  {
    FrameSize(s);
    TurnShows(s, plan, header, scan, junk);
    hide ReadRun, PayloadLength, TakeFrame, CString;
  }

  /** On a stream that is frames throughout, without NULs, the loop prints every
      payload and comes to the end exactly when every header comes whole, whatever
      the header buffer held, whatever sscanf makes of other texts than four hex
      digits, and whatever an unfilled payload shows. */
  lemma {:induction false} DeliveredExactly(s: string, plan: seq<Event>, header: string, scan: Scan, junk: nat -> char)
    requires |header| == 4 && Scans(scan) && Taken(s).1 == "" && '\0' !in s
    ensures Received(s, plan, header, scan, junk) == (Taken(s).0, Eof) <==> HeadersWhole(plan, Taken(s).0)
    decreases |s|
  {
    var t := TurnOf(s, plan, header, scan, junk);
    TurnShrinks(s, plan, header, scan, junk);
    EndAtEnd(s, plan, header, scan, junk);
    if s == "" {
      hide TurnOf, Scans;
    } else {
      NotEmpty(s);
      var (p, rest) := TakeFrame(s).value;
      assert Taken(s).0 == [p] + Taken(rest).0 && Taken(s).0[1..] == Taken(rest).0;
      if HeaderWhole(plan) {
        WholeTurn(s, plan, header, scan, junk);
        FrameSize(s);
        FrameFree(s);
        WithoutNul(p);
        if t.Got? {
          DeliveredExactly(rest, t.plan, t.header, scan, junk);
        }
      } else if t.Got? {
        NotDelivered(s, plan, header, scan, junk);
      }
      hide TurnOf, TakeFrame, Scans, HeaderWhole, ReadRun, CString;
    }
  }

  lemma FrameFree(s: string)
    requires TakeFrame(s).Some? && '\0' !in s
    ensures '\0' !in TakeFrame(s).value.0 && '\0' !in TakeFrame(s).value.1
  {
    hide HexVal, AllHex;
  }

  lemma NotEmpty(s: string)
    requires s != "" && Taken(s).1 == ""
    ensures TakeFrame(s).Some?
  {
    hide TakeFrame;
  }

  /** A short header leaves too little for the rest. */
  lemma NotDelivered(s: string, plan: seq<Event>, header: string, scan: Scan, junk: nat -> char)
    requires |header| == 4 && Taken(s).1 == "" && '\0' !in s && TakeFrame(s).Some? && !HeaderWhole(plan)
    ensures Received(s, plan, header, scan, junk) != (Taken(s).0, Eof)
  {
    var (p, rest) := TakeFrame(s).value;
    assert Taken(s).0 == [p] + Taken(rest).0;
    var t := TurnOf(s, plan, header, scan, junk);
    TurnShrinks(s, plan, header, scan, junk);
    if t.Got? && Received(s, plan, header, scan, junk) == (Taken(s).0, Eof) {
      var (texts, e) := Received(t.unread, t.plan, t.header, scan, junk);
      var shown := CString(t.text);
      assert [shown] + texts == [p] + Taken(rest).0;
      assert shown == p && texts == Taken(rest).0 by {
        assert ([shown] + texts)[0] == shown && ([shown] + texts)[1..] == texts;
        assert ([p] + Taken(rest).0)[0] == p && ([p] + Taken(rest).0)[1..] == Taken(rest).0;
      }
      TurnShows(s, plan, header, scan, junk);
      EndAccounts(t.unread, t.plan, t.header, scan, junk);
      TakenSize(rest);
      FullTurnWasWhole(s, plan, header, scan, junk);
    }
  }

  /** Texts as C strings are. */
  predicate NulFree(texts: seq<string>) {
    forall i :: 0 <= i < |texts| ==> '\0' !in texts[i]
  }

  lemma {:induction false} FramesFree(payloads: seq<string>)
    requires NulFree(payloads)
    ensures '\0' !in Frames(payloads)
  {
    if payloads != [] {
      FramesFree(payloads[1..]);
      assert forall i :: 0 <= i < 4 ==> Hex4(FrameLength(payloads[0]))[i] != '\0';
      hide Hex4;
    }
  }

  /** So a receiver prints every payload that was framed, and comes to the end of
      the stream, exactly when its headers come whole. */
  lemma {:induction false} EveryPayloadReceived(payloads: seq<string>, plan: seq<Event>, header: string, scan: Scan,
                                                junk: nat -> char)
    requires Framable(payloads) && NulFree(payloads) && |header| == 4 && Scans(scan)
    ensures Received(Frames(payloads), plan, header, scan, junk) == (payloads, Eof) <==> HeadersWhole(plan, payloads)
  {
    TakenFrames(payloads);
    FramesFree(payloads);
    DeliveredExactly(Frames(payloads), plan, header, scan, junk);
  }

  /** How many payloads come before the first header that does not come whole. */
  function WholeOnes(plan: seq<Event>, payloads: seq<string>): (n: nat)
    ensures n <= |payloads|
    decreases |payloads|
  {
    if payloads == [] || !HeaderWhole(plan) then 0
    else
      var left := ReadRun(Rest(plan), |payloads[0]|, |payloads[0]|);
      if left.None? then 0 else 1 + WholeOnes(left.value, payloads[1..])
  }

  /** Whatever comes later, these payloads are printed first, and in order. */
  lemma {:induction false} WholeOnesReceived(payloads: seq<string>, plan: seq<Event>, header: string, scan: Scan,
                                             junk: nat -> char)
    requires Framable(payloads) && NulFree(payloads) && |header| == 4 && Scans(scan)
    ensures payloads[..WholeOnes(plan, payloads)] <= Received(Frames(payloads), plan, header, scan, junk).0
    decreases |payloads|
  {
    hide TurnOf, TakeFrame, Frame, Scans, HeaderWhole, Received, ReadRun, CString;
    if payloads != [] && HeaderWhole(plan) {
      var s, p, rest := Frames(payloads), payloads[0], payloads[1..];
      FrameRoundTrip(p, Frames(rest));
      var left := ReadRun(Rest(plan), |p|, |p|);
      if left.Some? {
        FirstReceived(s, plan, header, scan, junk);
        WholeOnesReceived(rest, left.value, s[..4], scan, junk);
        var n := WholeOnes(left.value, rest);
        assert payloads[..n + 1] == [p] + rest[..n];
      }
    }
  }

  /** Reads of four characters or more, none interrupted, always will do. */
  lemma {:induction false} WideIsWhole(plan: seq<Event>, payloads: seq<string>)
    requires forall i :: 0 <= i < |plan| ==> plan[i].Move? && plan[i].n >= 4
    ensures HeadersWhole(plan, payloads)
    decreases |payloads|
  {
    if payloads != [] {
      var n := |payloads[0]|;
      WideRun(Rest(plan), n, n);
      WideIsWhole(ReadRun(Rest(plan), n, n).value, payloads[1..]);
    }
  }

  lemma {:induction false} WideRun(plan: seq<Event>, n: nat, there: nat)
    requires forall i :: 0 <= i < |plan| ==> plan[i].Move? && plan[i].n >= 4
    ensures var left := ReadRun(plan, n, there);
      left.Some? && forall i :: 0 <= i < |left.value| ==> left.value[i].Move? && left.value[i].n >= 4
    decreases |plan|
  {
    if n > 0 && plan != [] {
      var k := Portion(plan, Min(n, there));
      if k > 0 {
        WideRun(plan[1..], n - k, there - k);
      }
    }
  }

  /** A signal in the read of a header loses the rest of the chat. */
  lemma InterruptedHeaderLosesAll(s: string, plan: seq<Event>, header: string, scan: Scan, junk: nat -> char)
    requires |header| == 4
    ensures Received(s, [Interrupt] + plan, header, scan, junk) == ([], Stopped)
  {
  }

  /** A header that says less than five wraps round: nearly four gigabytes are asked
      for, all that is left is swallowed, and what is printed goes on behind it. */
  lemma SmallFieldSwallowsAll(s: string, header: string, scan: Scan, junk: nat -> char)
    requires |header| == 4 && Scans(scan) && |s| >= 4 && AllHex(s[..4]) && HexVal(s[..4]) < 5 && |s| < 0xffff_ffff
    ensures var t := TurnOf(s, [], header, scan, junk);
      t.Got? && t.unread == "" && |t.text| == 4294967291 + HexVal(s[..4]) && s[4..] <= t.text
  {
    var n := PayloadLength(scan(s[..4]));
    assert n == 4294967291 + HexVal(s[..4]);
    assert s[..4] + header[4..] == s[..4];
    assert s[4..][..|s| - 4] == s[4..];
    hide HexVal, Scans, PayloadLength;
  }

  /** A turn that reads only `j` characters of a header. */
  lemma ShortTurn(s: string, j: nat, plan: seq<Event>, header: string, scan: Scan, junk: nat -> char, h: string, n: nat)
    requires |header| == 4 && 0 < j < 4 <= |s| && h == s[..j] + header[j..]
    requires n == PayloadLength(scan(h)) && j + n <= |s| && ReadRun(plan, n, n).Some?
    ensures TurnOf(s, [Move(j)] + plan, header, scan, junk)
      == Got(s[j..][..n], s[j..][n..], ReadRun(plan, n, n).value, h)
  {
    ReadRunEnough(plan, n, |s| - j);
    assert Rest([Move(j)] + plan) == plan;
    hide ReadRun, PayloadLength;
    assert s[j..][..n] + Unfilled(junk, n, n) == s[j..][..n];
  }

  /** What such a turn takes when the header before was the same. */
  lemma StaleText(h: string, q: string, more: string, j: nat)
    requires |h| == 4 && j < 4
    ensures var s, shown := h + q + more, h[j..] + q + more;
      && s[..j] + h[j..] == h && |shown| >= |q| && |s| >= j + |q|
      && s[j..] == shown
  {
    assert (h + q + more)[j..] == h[j..] + q + more;
  }

  /** A short read of a header takes the missing characters from the header before.
      After a message of the same length, what is missing stays in the stream and
      is printed in front of a message that is cut short by as much. */
  lemma StaleHeader(q: string, more: string, j: nat, plan: seq<Event>, scan: Scan, junk: nat -> char)
    requires FrameLength(q) <= 0xffff && 0 < j < 4 && Scans(scan) && ReadRun(plan, |q|, |q|).Some?
    ensures var h := Hex4(FrameLength(q));
      var shown := h[j..] + q + more;
      && |shown| >= |q|
      && TurnOf(Frame(q) + more, [Move(j)] + plan, h, scan, junk)
        == Got(shown[..|q|], shown[|q|..], ReadRun(plan, |q|, |q|).value, h)
  {
    hide *;
    var h := Hex4(FrameLength(q));
    FrameHead(q, more);
    assert FrameLength(q) == |q| + 5 by {
      LengthOf(q);
    }
    LengthRead(h, |q|, scan);
    StaleText(h, q, more, j);
    ShortTurn(h + q + more, j, plan, h, scan, junk, h, |q|);
  }

  lemma LengthOf(q: string)
    ensures FrameLength(q) == |q| + 5
  {
  }

  lemma LengthRead(h: string, n: nat, scan: Scan)
    requires |h| == 4 && AllHex(h) && HexVal(h) == n + 5 <= 0xffff && Scans(scan)
    ensures PayloadLength(scan(h)) == n
  {
    hide HexVal;
  }

  lemma FrameHead(p: string, rest: string)
    requires FrameLength(p) <= 0xffff
    ensures var s := Frame(p) + rest;
      && s == Hex4(FrameLength(p)) + p + rest && |s| >= 4 && s[..4] == Hex4(FrameLength(p))
      && AllHex(s[..4]) && HexVal(s[..4]) == FrameLength(p) && s[4..] == p + rest
  {
    Hex4Carries(FrameLength(p));
    hide Hex4, HexVal;
    assert (Frame(p) + rest)[..4] == Hex4(FrameLength(p));
  }

  /** Two messages "u: hi", and two characters of the second header: what is
      printed second was never sent. */
  lemma GarbledMessage(header: string, plan: seq<Event>, scan: Scan, junk: nat -> char)
    requires |header| == 4 && Scans(scan) && Sound(plan)
    ensures var texts := Received(Frames(["u: hi", "u: hi"]), [Move(4), Move(5), Move(2)] + plan, header, scan, junk).0;
      |texts| >= 2 && texts[0] == "u: hi" && texts[1] == "0au: "
  {
    hide *;
    var p, after := "u: hi", [Move(5), Move(2)] + plan;
    TwoHellos();
    FirstHeard(plan);
    SecondMessage(plan, scan, junk);
    assert [Move(4)] + after == [Move(4), Move(5), Move(2)] + plan;
    FirstReceived(Frames([p, p]), [Move(4)] + after, header, scan, junk);
  }

  lemma TwoHellos()
    ensures var p := "u: hi";
      var s := Frames([p, p]);
      && TakeFrame(s) == Some((p, Frame(p))) && |s| >= 4 && s[..4] == "000a" && '\0' !in p
  {
    var p := "u: hi";
    TwoFrames(p);
    FrameRoundTrip(p, Frame(p));
    FrameHead(p, Frame(p));
    assert FrameLength(p) == 10;
    TenInHex();
    hide *;
  }

  lemma SecondMessage(plan: seq<Event>, scan: Scan, junk: nat -> char)
    requires Scans(scan) && Sound(plan)
    ensures var texts := Received(Frame("u: hi"), [Move(2)] + plan, "000a", scan, junk).0;
      |texts| >= 1 && texts[0] == "0au: "
  {
    var p := "u: hi";
    TenInHex();
    assert FrameLength(p) == 10;
    assert Frame(p) + "" == Frame(p);
    hide *;
    StaleHeader(p, "", 2, plan, scan, junk);
    ReceivedGot(Frame(p), [Move(2)] + plan, "000a", scan, junk);
    ShownText();
    WithoutNul("0au: ");
  }

  lemma ShownText()
    ensures ("000a"[2..] + "u: hi" + "")[..5] == "0au: "
  {
    assert "000a"[2..] + "u: hi" + "" == "0au: hi" && "0au: hi"[..5] == "0au: ";
  }

  lemma TwoFrames(p: string)
    ensures Frames([p, p]) == Frame(p) + Frame(p)
  {
    assert [p, p][1..] == [p];
    FramesOne(p);
  }

  lemma FirstHeard(plan: seq<Event>)
    requires Sound(plan)
    ensures var after := [Move(5), Move(2)] + plan;
      && Rest([Move(4)] + after) == after && HeaderWhole([Move(4)] + after)
      && ReadRun(after, 5, 5) == Some([Move(2)] + plan) && ReadRun(plan, 5, 5).Some?
  {
    var after := [Move(5), Move(2)] + plan;
    assert after[1..] == [Move(2)] + plan && Portion(after, 5) == 5;
    assert ReadRun(after[1..], 0, 0) == Some(after[1..]);
  }

  lemma TenInHex()
    ensures Hex4(10) == "000a"
  {
    assert HexText(10) == "a";
  }

  /** malloc and readn of a payload: what the data gave, and behind it what was
      in the memory. */
  method ReadPayload(conn: Source, n: nat, junk: nat -> char) returns (ok: bool, text: string)
    modifies conn
    ensures ok <==> ReadRun(old(conn.plan), n, |old(conn.unread)|).Some?
    ensures ok ==>
      var m := Min(n, |old(conn.unread)|);
      && text == old(conn.unread)[..m] + Unfilled(junk, m, n)
      && conn.unread == old(conn.unread)[m..]
      && Some(conn.plan) == ReadRun(old(conn.plan), n, |old(conn.unread)|)
  {
    hide ReadRun;
    var message := new char[n](i requires 0 <= i => junk(i));
    var got := Readn(conn, message, n);
    if got == -1 {
      return false, "";
    }
    assert message[..] == message[..got] + message[got..];
    assert message[got..] == Unfilled(junk, got, n);
    return true, message[..];
  }

  /** One turn of the loop of listener_task, over its header buffer. */
  method ReceiveOne(conn: Source, header: array<char>, scan: Scan, junk: nat -> char) returns (turn: Turn)
    requires header.Length == 4
    modifies conn, header
    ensures turn == TurnOf(old(conn.unread), old(conn.plan), old(header[..]), scan, junk)
    ensures turn.Got? ==> turn.unread == conn.unread && turn.plan == conn.plan && turn.header == header[..]
    ensures turn == End(Eof) || turn == End(Stopped) ==> conn.unread == old(conn.unread)
  {
    hide HexVal, ReadRun, Portion, PayloadLength, Unfilled;
    ghost var s, was := conn.unread, header[..];
    var r := conn.Read(header, 0, 4);
    if !r.Count? {
      return End(Stopped);
    }
    if r.n == 0 {
      return End(Eof);
    }
    ghost var k := r.n;
    assert header[..] == s[..k] + was[k..];
    var msgLen := PayloadLength(scan(header[..]));
    var ok, text := ReadPayload(conn, msgLen, junk);
    if !ok {
      return End(SysError);
    }
    return Got(text, conn.unread, conn.plan, header[..]);
  }

  /** The loop of listener_task over one connection. */
  method ReceiveFrames(conn: Source, header: array<char>, scan: Scan, junk: nat -> char)
    returns (printed: seq<string>, end: RecvEnd)
    requires header.Length == 4
    modifies conn, header
    ensures (printed, end) == Received(old(conn.unread), old(conn.plan), old(header[..]), scan, junk)
  {
    hide TurnOf, CString;
    printed := [];
    ghost var all := Received(conn.unread, conn.plan, header[..], scan, junk);
    assert [] + all.0 == all.0;
    while true
      invariant var (texts, e) := Received(conn.unread, conn.plan, header[..], scan, junk);
        all == (printed + texts, e)
      decreases |conn.unread|
    {
      ghost var s, plan, was := conn.unread, conn.plan, header[..];
      var turn := ReceiveOne(conn, header, scan, junk);
      TurnShrinks(s, plan, was, scan, junk);
      match turn {
        case End(e) =>
          assert printed + [] == printed;
          return printed, e;
        case Got(text, _, _, _) =>
          ghost var texts := Received(conn.unread, conn.plan, header[..], scan, junk).0;
          var shown := CString(text);
          assert printed + ([shown] + texts) == printed + [shown] + texts;
          printed := printed + [shown];
      }
    }
  }

  // ----- both ends

  /** Lines as fgets delivers them into 1024 characters, and a user name as main
      admits it, always make frames whose length fits. */
  lemma {:induction false} ChatIsFramable(user: string, lines: seq<string>)
    requires |user| <= 10 && forall i :: 0 <= i < |lines| ==> |lines[i]| <= 1023
    ensures Framable(Sent(user, lines))
  {
    if lines != [] && !IsEnd(lines[0]) {
      ChatIsFramable(user, lines[1..]);
      var ps := Sent(user, lines);
      forall i | 0 <= i < |ps| ensures FrameLength(ps[i]) <= 0xffff {
        if i > 0 {
          assert ps[i] == Sent(user, lines[1..])[i - 1];
        }
      }
    }
  }

  lemma {:induction false} SentIsFree(user: string, lines: seq<string>)
    ensures NulFree(Sent(user, lines))
  {
    if lines != [] && !IsEnd(lines[0]) {
      SentIsFree(user, lines[1..]);
      PayloadIsFree(user, lines[0]);
      hide Payload;
    }
  }

  lemma PayloadIsFree(user: string, message: string)
    ensures '\0' !in Payload(user, message)
  {
    var c := Chomp(message);
    assert forall i :: 0 <= i < |c| ==> !LineEnd(c[i]);
    hide Chomp, CString;
  }

  /** What a chat over these lines shows when nothing is lost: each line before the
      first that starts with "am-end", as its user said it. */
  predicate ChatShown(user: string, lines: seq<string>, shown: seq<string>) {
    && |shown| <= |lines|
    && (forall i :: 0 <= i < |shown| ==> !("am-end" <= lines[i]) && Said(user, lines[i], shown[i]))
    && (|shown| < |lines| ==> "am-end" <= lines[|shown|])
  }

  lemma {:induction false} ChatShownIsSent(user: string, lines: seq<string>, shown: seq<string>)
    ensures ChatShown(CString(user), lines, shown) <==> shown == Sent(user, lines)
    decreases |lines|
  {
    hide Said, Payload, CString;
    if lines != [] && !IsEnd(lines[0]) {
      SaidIsPayload(user, lines[0], if shown == [] then "" else shown[0]);
      if shown != [] {
        ChatShownIsSent(user, lines[1..], shown[1..]);
        assert shown == [shown[0]] + shown[1..];
        ChatShownStep(CString(user), lines, shown);
      }
    }
  }

  lemma ChatShownStep(user: string, lines: seq<string>, shown: seq<string>)
    requires lines != [] && shown != []
    ensures ChatShown(user, lines, shown) <==>
      !("am-end" <= lines[0]) && Said(user, lines[0], shown[0]) && ChatShown(user, lines[1..], shown[1..])
  {
    hide Said;
    var ls, ts := lines[1..], shown[1..];
    assert forall i :: 0 <= i < |ts| ==> ts[i] == shown[i + 1];
    assert forall i :: 0 <= i < |ls| ==> ls[i] == lines[i + 1];
    if ChatShown(user, ls, ts) && !("am-end" <= lines[0]) && Said(user, lines[0], shown[0]) {
      forall i | 0 <= i < |shown| ensures !("am-end" <= lines[i]) && Said(user, lines[i], shown[i]) {
        assert i > 0 ==> !("am-end" <= ls[i - 1]) && Said(user, ls[i - 1], ts[i - 1]);
      }
    }
  }

  /** A whole chat, whatever the chunking on either side: the receiver prints, in
      order, the user and the text of every line before the end signal, and comes
      to the end, exactly when its headers come whole; and in any case it starts
      with the messages before the first header that does not. */
  method Chat(user: string, lines: seq<string>, outgoing: seq<Event>, incoming: seq<Event>, scan: Scan,
              junk: nat -> char)
    returns (sent: bool, printed: seq<string>, end: RecvEnd)
    requires |user| <= 10 && forall i :: 0 <= i < |lines| ==> |lines[i]| <= 1023
    requires Scans(scan)
    ensures Sound(outgoing) ==> sent
    ensures sent ==>
      (ChatShown(CString(user), lines, printed) && end == Eof <==> HeadersWhole(incoming, Sent(user, lines)))
    ensures sent ==>
      var n := WholeOnes(incoming, Sent(user, lines));
      && n <= |printed| && n <= |lines|
      && forall i :: 0 <= i < n ==> Said(CString(user), lines[i], printed[i])
  {
    var sock := new Sink(outgoing);
    sent := MessageLoop(sock, user, lines);
    printed, end := [], Stopped;
    if sent {
      ghost var payloads := Sent(user, lines);
      ChatIsFramable(user, lines);
      assert "" + Frames(payloads) == Frames(payloads);
      var conn := new Source(sock.written, incoming);
      var header := new char[4];
      ghost var was := header[..];
      printed, end := ReceiveFrames(conn, header, scan, junk);
      SentIsFree(user, lines);
      EveryPayloadReceived(payloads, incoming, was, scan, junk);
      WholeOnesReceived(payloads, incoming, was, scan, junk);
      ChatShownIsSent(user, lines, printed);
      ChatShownIsSent(user, lines, payloads);
      hide Said, CString, HeadersWhole, WholeOnes, Scans;
    }
  }
}
