/** The IPv6 parser of inet_pton.c, and exactly which texts it accepts. */
module Inet6Parse {
  import opened CText
  import opened DottedQuad
  import opened Inet6Text

  /** The final layout: the bytes from `colon` on move to the end of the
      address. With nothing missing the moved bytes are overwritten by zeros. */
  function Spread(out: seq<Byte>, colon: nat): (a: seq<Byte>)
    requires colon <= |out| <= 16
    ensures |a| == 16
  {
    if |out| < 16 then out[..colon] + Zeros(16 - |out|) + out[colon..]
    else out[..colon] + Zeros(16 - colon)
  }

  function Fill(out: seq<Byte>, colon: Option<nat>): (r: Option<seq<Byte>>)
    requires |out| <= 16 && (colon.Some? ==> colon.value <= |out|)
    ensures r.Some? ==> |r.value| == 16
  {
    match colon
    case Some(c) => Some(Spread(out, c))
    case None => if |out| == 16 then Some(out) else None
  }

  function Close(out: seq<Byte>, colon: Option<nat>, tok: string): (r: Option<seq<Byte>>)
    requires |out| <= 16 && (colon.Some? ==> colon.value <= |out|)
    requires tok == "" || IsGroup(tok)
  {
    if tok == "" then Fill(out, colon)
    else if |out| + 2 <= 16 then Fill(out + WordBytes(HexVal(tok)), colon)
    else None
  }

  /** One left-to-right pass: `out` is written, `colon` is where a "::" stood,
      `tok` the digits since the last colon, `rest` the unread text. */
  function Scan(out: seq<Byte>, colon: Option<nat>, tok: string, rest: string): (r: Option<seq<Byte>>)
    requires |out| <= 16 && (colon.Some? ==> colon.value <= |out|)
    requires tok == "" || IsGroup(tok)
    ensures r.Some? ==> |r.value| == 16
    decreases |rest|
  {
    if rest == "" then Close(out, colon, tok)
    else if IsHex(rest[0]) then
      if IsGroup(tok + [rest[0]]) then Scan(out, colon, tok + [rest[0]], rest[1..]) else None
    else if rest[0] == ':' then
      if tok == "" then
        if colon.Some? then None else Scan(out, Some(|out|), "", rest[1..])
      else if |out| + 2 <= 16 then Scan(out + WordBytes(HexVal(tok)), colon, "", rest[1..])
      else None
    else if rest[0] == '.' && |out| + 4 <= 16 && QuadOf(tok + rest).Some? then
      Fill(out + QuadOf(tok + rest).value, colon)
    else None
  }

  /** The address `src` is read as. The first of two leading colons is skipped. */
  function ParseAddr6(src: string): (r: Option<seq<Byte>>)
    ensures r.Some? ==> |r.value| == 16
  {
    if src != "" && src[0] == ':' then
      if |src| > 1 && src[1] == ':' then Scan([], None, "", src[1..]) else None
    else Scan([], None, "", src)
  }

  // ----- which texts are accepted

  /** One stray colon may follow a last group. */
  predicate MayTrail(fs: seq<string>) {
    fs != [] && IsGroup(fs[|fs| - 1])
  }

  function Trail(trailing: bool): string {
    if trailing then ":" else ""
  }

  /** The texts the parser takes: any number of leading zeros in a group, one
      trailing colon, and a "::" even when all eight groups are written. */
  predicate Accepted(t: Addr6Text, trailing: bool) {
    && WellFormed(t)
    && match t
       case Plain(fs) => |Written(t)| == 16 && (trailing ==> MayTrail(fs))
       case Gapped(before, after) => |Written(t)| <= 16 && (trailing ==> MayTrail(after))
  }

  /** What an accepted text is read as. */
  function Reading(t: Addr6Text): seq<Byte>
    requires WellFormed(t) && |Written(t)| <= 16
  {
    match t
    case Plain(fs) => Bytes(fs)
    case Gapped(before, after) => Spread(Bytes(before) + Bytes(after), |Bytes(before)|)
  }

  lemma {:induction false} ScanDigits(out: seq<Byte>, colon: Option<nat>, tok: string, g: string, rest: string)
    requires |out| <= 16 && (colon.Some? ==> colon.value <= |out|)
    requires tok == "" || IsGroup(tok)
    requires tok + g == "" || IsGroup(tok + g)
    ensures Scan(out, colon, tok, g + rest) == Scan(out, colon, tok + g, rest)
    decreases |g|
  {
    if g == "" {
      assert g + rest == rest && tok + g == tok;
    } else {
      var c := g[0];
      assert tok + g == (tok + [c]) + g[1..];
      assert (tok + g)[|tok|] == c;
      HexValGrows(tok + [c], g[1..]);
      assert (g + rest)[1..] == g[1..] + rest;
      ScanDigits(out, colon, tok + [c], g[1..], rest);
    }
  }

  lemma {:induction false} ScanGroup(out: seq<Byte>, colon: Option<nat>, g: string, rest: string)
    requires |out| + 2 <= 16 && (colon.Some? ==> colon.value <= |out|) && IsGroup(g)
    ensures Scan(out, colon, "", g + ":" + rest) == Scan(out + WordBytes(HexVal(g)), colon, "", rest)
  {
    assert "" + g == g && g + ":" + rest == g + (":" + rest);
    ScanDigits(out, colon, "", g, ":" + rest);
    assert (":" + rest)[1..] == rest;
  }

  lemma ScanQuadTail(out: seq<Byte>, colon: Option<nat>, q: string)
    requires |out| + 4 <= 16 && (colon.Some? ==> colon.value <= |out|) && QuadOf(q).Some?
    ensures Scan(out, colon, "", q) == Fill(out + QuadOf(q).value, colon)
  {
    QuadShape(q);
    var f := Split(q, '.')[0];
    var rest := q[|f|..];
    assert q == f + rest && rest[0] == '.' && "" + f == f;
    ScanDigits(out, colon, "", f, rest);
  }

  lemma {:induction false} ScanLastField(out: seq<Byte>, colon: Option<nat>, f: string, trailing: bool)
    requires |out| <= 16 && (colon.Some? ==> colon.value <= |out|)
    requires IsField(f) && |out| + |FieldBytes(f)| <= 16 && (trailing ==> IsGroup(f))
    ensures Scan(out, colon, "", f + Trail(trailing)) == Fill(out + FieldBytes(f), colon)
  {
    if !IsGroup(f) {
      assert f + "" == f;
      ScanQuadTail(out, colon, f);
    } else if trailing {
      assert f + ":" == f + ":" + "";
      ScanGroup(out, colon, f, "");
    } else {
      assert "" + f == f;
      ScanDigits(out, colon, "", f, "");
    }
  }

  lemma {:induction false} ScanFirstField(out: seq<Byte>, colon: Option<nat>, fs: seq<string>, trailing: bool)
    requires |out| + 2 <= 16 && (colon.Some? ==> colon.value <= |out|)
    requires |fs| > 1 && IsGroup(fs[0])
    ensures Scan(out, colon, "", Join(fs, ':') + Trail(trailing))
      == Scan(out + WordBytes(HexVal(fs[0])), colon, "", Join(fs[1..], ':') + Trail(trailing))
  {
    var tail := Join(fs[1..], ':') + Trail(trailing);
    assert Join(fs, ':') + Trail(trailing) == fs[0] + ":" + tail;
    ScanGroup(out, colon, fs[0], tail);
  }

  lemma ScanNothing(out: seq<Byte>, colon: Option<nat>)
    requires |out| <= 16 && (colon.Some? ==> colon.value <= |out|)
    ensures Scan(out, colon, "", "") == Fill(out, colon)
  {
  }

  lemma {:induction false} ScanFields(out: seq<Byte>, colon: Option<nat>, fs: seq<string>, trailing: bool)
    requires |out| <= 16 && (colon.Some? ==> colon.value <= |out|)
    requires Fields(fs) && |out| + |Bytes(fs)| <= 16 && (trailing ==> MayTrail(fs))
    ensures Scan(out, colon, "", Join(fs, ':') + Trail(trailing)) == Fill(out + Bytes(fs), colon)
    decreases |fs|
  {
    hide Scan, QuadOf, HexVal, Fill;
    ScanNothing(out, colon);
    if fs == [] {
      assert out + Bytes(fs) == out && Join(fs, ':') + Trail(trailing) == "";
    } else if |fs| == 1 {
      assert fs == [fs[0]];
      BytesOne(fs[0]);
      ScanLastField(out, colon, fs[0], trailing);
    } else {
      var w := WordBytes(HexVal(fs[0]));
      assert Bytes(fs) == w + Bytes(fs[1..]);
      ScanFirstField(out, colon, fs, trailing);
      assert out + w + Bytes(fs[1..]) == out + Bytes(fs);
      ScanFields(out + w, colon, fs[1..], trailing);
    }
  }

  lemma {:induction false} ScanLastBefore(out: seq<Byte>, g: string, rest: string)
    requires |out| + 2 <= 16 && IsGroup(g)
    ensures Scan(out, None, "", g + "::" + rest)
      == Scan(out + WordBytes(HexVal(g)), Some(|out| + 2), "", rest)
  {
    assert g + "::" + rest == g + ":" + (":" + rest);
    ScanGroup(out, None, g, ":" + rest);
    assert (":" + rest)[1..] == rest;
  }

  lemma {:induction false} ScanFirstBefore(out: seq<Byte>, before: seq<string>, rest: string)
    requires |before| > 1 && |out| + 2 <= 16 && IsGroup(before[0])
    ensures Scan(out, None, "", Join(before, ':') + "::" + rest)
      == Scan(out + WordBytes(HexVal(before[0])), None, "", Join(before[1..], ':') + "::" + rest)
  {
    var tail := Join(before[1..], ':') + "::" + rest;
    assert Join(before, ':') + "::" + rest == before[0] + ":" + tail;
    ScanGroup(out, None, before[0], tail);
  }

  lemma FirstBytes(out: seq<Byte>, fs: seq<string>)
    requires fs != [] && Fields(fs)
    ensures out + Bytes(fs) == out + FieldBytes(fs[0]) + Bytes(fs[1..])
  {
  }

  lemma {:induction false} ScanBefore(out: seq<Byte>, before: seq<string>, rest: string, all: seq<Byte>)
    requires before != [] && Groups(before) && all == out + Bytes(before) && |all| <= 16
    ensures Scan(out, None, "", Join(before, ':') + "::" + rest) == Scan(all, Some(|all|), "", rest)
    decreases |before|
  {
    hide Scan, HexVal, QuadOf;
    FirstBytes(out, before);
    var next := out + WordBytes(HexVal(before[0]));
    if |before| == 1 {
      assert before == [before[0]] && all == next;
      ScanLastBefore(out, before[0], rest);
    } else {
      ScanFirstBefore(out, before, rest);
      ScanBefore(next, before[1..], rest, all);
    }
  }

  lemma {:induction false} JoinStartsWithDigit(fs: seq<string>)
    requires fs != [] && IsField(fs[0])
    ensures Join(fs, ':') != "" && IsHex(Join(fs, ':')[0])
  {
    if !IsGroup(fs[0]) {
      QuadShape(fs[0]);
    }
  }

  lemma PlainIsRead(fs: seq<string>, trailing: bool)
    requires Accepted(Plain(fs), trailing)
    ensures ParseAddr6(Join(fs, ':') + Trail(trailing)) == Some(Bytes(fs))
  {
    JoinStartsWithDigit(fs);
    ScanFields([], None, fs, trailing);
    assert [] + Bytes(fs) == Bytes(fs);
  }

  lemma GappedIsRead(before: seq<string>, after: seq<string>, trailing: bool)
    requires Accepted(Gapped(before, after), trailing)
    ensures ParseAddr6(Join(before, ':') + "::" + (Join(after, ':') + Trail(trailing)))
      == Some(Reading(Gapped(before, after)))
  {
    var tail := Join(after, ':') + Trail(trailing);
    var src := Join(before, ':') + "::" + tail;
    if before == [] {
      assert src == "::" + tail && src[1..] == ":" + tail && (":" + tail)[1..] == tail;
    } else {
      JoinStartsWithDigit(before);
      assert [] + Bytes(before) == Bytes(before);
      ScanBefore([], before, tail, Bytes(before));
    }
    assert ParseAddr6(src) == Scan(Bytes(before), Some(|Bytes(before)|), "", tail);
    ScanFields(Bytes(before), Some(|Bytes(before)|), after, trailing);
  }

  /** Every accepted text is read as the address it stands for. */
  lemma AcceptedIsRead(t: Addr6Text, trailing: bool)
    requires Accepted(t, trailing)
    ensures ParseAddr6(Show(t) + Trail(trailing)) == Some(Reading(t))
  {
    hide ParseAddr6, QuadOf;
    match t
    case Plain(fs) => PlainIsRead(fs, trailing);
    case Gapped(before, after) =>
      GappedIsRead(before, after, trailing);
      assert Show(t) + Trail(trailing) == Join(before, ':') + "::" + (Join(after, ':') + Trail(trailing));
  }

  lemma LastToken(tok: string) returns (fs: seq<string>, trailing: bool)
    requires tok == "" || IsGroup(tok)
    ensures Fields(fs) && (trailing ==> MayTrail(fs)) && tok + "" == Join(fs, ':') + Trail(trailing)
    ensures Bytes(fs) == if tok == "" then [] else WordBytes(HexVal(tok))
  {
    fs, trailing := [], false;
    if tok != "" {
      BytesOne(tok);
      fs := [tok];
    }
  }

  /** The rest of a text after its gap (or of one that has none): fields. */
  lemma {:induction false} ScanSound(out: seq<Byte>, colon: Option<nat>, tok: string, rest: string)
    returns (fs: seq<string>, trailing: bool)
    requires |out| <= 16 && colon.Some? && colon.value <= |out|
    requires tok == "" || IsGroup(tok)
    requires Scan(out, colon, tok, rest).Some?
    ensures Fields(fs) && |out| + |Bytes(fs)| <= 16 && (trailing ==> MayTrail(fs))
    ensures tok + rest == Join(fs, ':') + Trail(trailing)
    decreases |rest|
  {
    hide HexVal, Fill, QuadOf, WordBytes;
    if rest == "" {
      fs, trailing := LastToken(tok);
    } else if IsHex(rest[0]) {
      assert tok + rest == (tok + [rest[0]]) + rest[1..];
      fs, trailing := ScanSound(out, colon, tok + [rest[0]], rest[1..]);
    } else if rest[0] == ':' {
      var gs, tr := ScanSound(out + WordBytes(HexVal(tok)), colon, "", rest[1..]);
      assert tok + rest == tok + ":" + ("" + rest[1..]);
      fs, trailing := PrependGroup(tok, gs, tr);
    } else {
      QuadShape(tok + rest);
      BytesOne(tok + rest);
      fs, trailing := [tok + rest], false;
    }
  }

  lemma PrependGroup(g: string, gs: seq<string>, tr: bool) returns (fs: seq<string>, trailing: bool)
    requires IsGroup(g) && Fields(gs) && (tr ==> MayTrail(gs))
    ensures Fields(fs) && Bytes(fs) == WordBytes(HexVal(g)) + Bytes(gs) && (trailing ==> MayTrail(fs))
    ensures Join(fs, ':') + Trail(trailing) == g + ":" + (Join(gs, ':') + Trail(tr))
    ensures fs == [g] + gs
  {
    fs, trailing := [g] + gs, gs == [] || tr;
    assert fs[1..] == gs;
  }

  /** A gapped text as it reads once its first colon may have been consumed. */
  function Onward(t: Addr6Text, trailing: bool): string
    requires t.Gapped?
  {
    (if t.before == [] then Show(t)[1..] else Show(t)) + Trail(trailing)
  }

  lemma ShowPrepended(g: string, before: seq<string>, after: seq<string>, trailing: bool)
    ensures Onward(Gapped([g] + before, after), trailing) == g + ":" + Onward(Gapped(before, after), trailing)
  {
    assert ([g] + before)[1..] == before;
    var t := Gapped(before, after);
    assert Show(Gapped([g] + before, after)) == g + ":" + (if before == [] then Show(t)[1..] else Show(t));
  }

  /** `text` reads on from a place where `size` bytes have been written and no
      gap has been seen; a gap that comes at once has lost its first colon. */
  ghost predicate Explains(t: Addr6Text, trailing: bool, size: nat, text: string) {
    && WellFormed(t)
    && size + |Written(t)| <= 16
    && match t
       case Plain(fs) =>
         size + |Written(t)| == 16 && (trailing ==> MayTrail(fs)) && text == Show(t) + Trail(trailing)
       case Gapped(_, after) =>
         (trailing ==> MayTrail(after)) && text == Onward(t, trailing)
  }

  lemma ExplainGap(size: nat, after: seq<string>, trailing: bool)
    requires Fields(after) && size + |Bytes(after)| <= 16 && (trailing ==> MayTrail(after))
    ensures Explains(Gapped([], after), trailing, size, ":" + (Join(after, ':') + Trail(trailing)))
  {
    hide QuadOf, HexVal, Join, IsGroup;
    assert Bytes([]) + Bytes(after) == Bytes(after);
    ShowGapFirst(after);
    assert ":" + Join(after, ':') + Trail(trailing) == ":" + (Join(after, ':') + Trail(trailing));
  }

  lemma ExplainGroup(g: string, u: Addr6Text, tr: bool, size: nat, text: string)
    returns (t: Addr6Text, trailing: bool)
    requires IsGroup(g) && Explains(u, tr, size + 2, text)
    ensures Explains(t, trailing, size, g + ":" + text)
  {
    match u {
      case Plain(gs) =>
        var fs;
        fs, trailing := PrependGroup(g, gs, tr);
        t := Plain(fs);
      case Gapped(before, after) =>
        t, trailing := Gapped([g] + before, after), tr;
        assert t.before[1..] == before;
        ShowPrepended(g, before, after, tr);
    }
  }

  lemma ExplainQuad(q: string, size: nat)
    requires QuadOf(q).Some? && size == 12
    ensures Explains(Plain([q]), false, size, q)
  {
    QuadShape(q);
    BytesOne(q);
  }

  lemma ExplainLast(tok: string, size: nat) returns (t: Addr6Text, trailing: bool)
    requires if tok == "" then size == 16 else IsGroup(tok) && size == 14
    ensures Explains(t, trailing, size, tok)
  {
    var fs;
    fs, trailing := LastToken(tok);
    t := Plain(fs);
    assert tok + "" == tok;
  }

  /** A text accepted while no gap has been seen is plain or gapped. */
  lemma {:induction false} ScanPlainSound(out: seq<Byte>, tok: string, rest: string)
    returns (t: Addr6Text, trailing: bool)
    requires |out| <= 16
    requires tok == "" || IsGroup(tok)
    requires Scan(out, None, tok, rest).Some?
    ensures Explains(t, trailing, |out|, tok + rest)
    decreases |rest|
  {
    hide Explains, QuadOf, HexVal;
    if rest == "" {
      t, trailing := ExplainLast(tok, |out|);
      assert tok + rest == tok;
    } else if IsHex(rest[0]) {
      assert tok + rest == (tok + [rest[0]]) + rest[1..];
      t, trailing := ScanPlainSound(out, tok + [rest[0]], rest[1..]);
    } else if rest[0] == ':' && tok == "" {
      var after;
      after, trailing := ScanSound(out, Some(|out|), "", rest[1..]);
      t := Gapped([], after);
      ExplainGap(|out|, after, trailing);
      assert tok + rest == ":" + ("" + rest[1..]);
    } else if rest[0] == ':' {
      var u, tr := ScanPlainSound(out + WordBytes(HexVal(tok)), "", rest[1..]);
      assert tok + rest == tok + ":" + ("" + rest[1..]);
      t, trailing := ExplainGroup(tok, u, tr, |out|, "" + rest[1..]);
    } else {
      ExplainQuad(tok + rest, |out|);
      t, trailing := Plain([tok + rest]), false;
    }
  }

  lemma StartsWithDigit(t: Addr6Text, trailing: bool, text: string)
    requires Explains(t, trailing, 0, text)
    ensures text != ""
    ensures text[0] == ':' <==> t.Gapped? && t.before == []
  {
    match t
    case Plain(fs) => JoinStartsWithDigit(fs);
    case Gapped(before, after) =>
      if before == [] {
        assert Show(t)[1..][0] == ':';
      } else {
        JoinStartsWithDigit(before);
      }
  }

  /** Nothing else is accepted. */
  lemma ReadIsAccepted(src: string) returns (t: Addr6Text, trailing: bool)
    requires ParseAddr6(src).Some?
    ensures Accepted(t, trailing) && src == Show(t) + Trail(trailing)
  {
    hide *;
    AcceptedNotEmpty(src);
    var text := if src[0] == ':' then src[1..] else src;
    t, trailing := ScanPlainSound([], "", text);
    assert "" + text == text;
    ExplainedIsAccepted(src, t, trailing);
  }

  lemma AcceptedNotEmpty(src: string)
    requires ParseAddr6(src).Some?
    ensures src != "" && (src[0] == ':' ==> |src| > 1 && src[1] == ':')
    ensures ParseAddr6(src) == Scan([], None, "", if src[0] == ':' then src[1..] else src)
  {
  }

  lemma ExplainedIsAccepted(src: string, t: Addr6Text, trailing: bool)
    requires src != "" && (src[0] == ':' ==> |src| > 1 && src[1] == ':')
    requires Explains(t, trailing, 0, if src[0] == ':' then src[1..] else src)
    ensures Accepted(t, trailing) && src == Show(t) + Trail(trailing)
  {
    hide QuadOf, HexVal;
    var text := if src[0] == ':' then src[1..] else src;
    StartsWithDigit(t, trailing, text);
    if src[0] == ':' {
      assert src == ":" + text && Show(t) == ":" + Show(t)[1..];
    }
  }

  /** The parser accepts exactly the accepted texts, and reads each as the
      address it stands for. */
  lemma AcceptsExactly(src: string, a: seq<Byte>)
    ensures ParseAddr6(src) == Some(a) <==>
      exists t, trailing :: Accepted(t, trailing) && src == Show(t) + Trail(trailing) && Reading(t) == a
  {
    hide ParseAddr6, QuadOf;
    if ParseAddr6(src) == Some(a) {
      var t, trailing := ReadIsAccepted(src);
      AcceptedIsRead(t, trailing);
      assert Accepted(t, trailing) && src == Show(t) + Trail(trailing) && Reading(t) == a;
    }
    forall t, trailing | Accepted(t, trailing) && src == Show(t) + Trail(trailing)
      ensures ParseAddr6(src) == Some(Reading(t))
    {
      AcceptedIsRead(t, trailing);
    }
  }

  lemma SpreadFillsGap(b: seq<Byte>, a: seq<Byte>)
    requires |b| + |a| < 16
    ensures Spread(b + a, |b|) == b + Zeros(16 - |b| - |a|) + a
  {
    assert (b + a)[..|b|] == b && (b + a)[|b|..] == a;
  }

  lemma StandardIsAccepted(t: Addr6Text)
    requires Standard(t)
    ensures Accepted(t, false) && Reading(t) == Denote(t)
  {
    hide QuadOf, HexVal;
    if t.Gapped? {
      SpreadFillsGap(Bytes(t.before), Bytes(t.after));
    }
  }

  lemma NoTrail(s: string)
    ensures s + Trail(false) == s
  {
  }

  /** Every text of the standard is accepted and yields the address it denotes. */
  lemma StandardIsRead(t: Addr6Text)
    requires Standard(t)
    ensures ParseAddr6(Show(t)) == Some(Denote(t))
  {
    hide *;
    StandardIsAccepted(t);
    AcceptedIsRead(t, false);
    NoTrail(Show(t));
  }

  /** inet_pton.c promises that a "::" in a full address is ignored. That holds
      exactly when every byte written after it is zero. */
  lemma FullGapIgnoredExactly(before: seq<string>, after: seq<string>)
    requires var t := Gapped(before, after); WellFormed(t) && |Written(t)| == 16
    ensures var t := Gapped(before, after);
      ParseAddr6(Show(t)) == Some(Written(t)) <==> Bytes(after) == Zeros(|Bytes(after)|)
  {
    hide ParseAddr6, QuadOf;
    var t := Gapped(before, after);
    AcceptedIsRead(t, false);
    assert Show(t) + Trail(false) == Show(t);
    var b, a := Bytes(before), Bytes(after);
    assert (b + a)[..|b|] == b && (b + a)[|b|..] == a;
    assert Reading(t) == b + Zeros(|a|);
    assert (b + Zeros(|a|))[|b|..] == Zeros(|a|);
  }

  /** An address for which the promise fails: the text 1:2:3:4:5:6:7::8. */
  lemma FullGapNotIgnored() returns (t: Addr6Text)
    ensures t == Gapped(["1", "2", "3", "4", "5", "6", "7"], ["8"])
    ensures WellFormed(t) && |Written(t)| == 16 && ParseAddr6(Show(t)) != Some(Written(t))
  {
    var before, after := ["1", "2", "3", "4", "5", "6", "7"], ["8"];
    forall i | 0 <= i < 7 ensures IsGroup(before[i]) {
      OneDigit(before[i]);
    }
    OneDigit("8");
    t := Gapped(before, after);
    GroupsAreTwoBytes(before);
    BytesOne("8");
    assert Bytes(after)[1] == 8;
    FullGapIgnoredExactly(before, after);
  }

  lemma OneDigit(f: string)
    requires |f| == 1 && IsHex(f[0])
    ensures IsGroup(f) && HexVal(f) == DigitOf(f[0])
  {
    assert f[..0] == "";
  }

  // ----- what is rejected

  lemma {:induction false} NoGapAfterGap(out: seq<Byte>, colon: nat, tok: string, rest: string, j: nat)
    requires colon <= |out| <= 16
    requires tok == "" || IsGroup(tok)
    requires j + 1 < |rest| && rest[j] == ':' && rest[j + 1] == ':'
    ensures Scan(out, Some(colon), tok, rest) == None
    decreases |rest|
  {
    hide QuadOf, HexVal;
    if IsHex(rest[0]) {
      if IsGroup(tok + [rest[0]]) {
        NoGapAfterGap(out, colon, tok + [rest[0]], rest[1..], j - 1);
      }
    } else if rest[0] == ':' {
      if tok != "" && |out| + 2 <= 16 && j > 0 {
        NoGapAfterGap(out + WordBytes(HexVal(tok)), colon, "", rest[1..], j - 1);
      }
    } else if QuadOf(tok + rest).Some? {
      assert (tok + rest)[|tok| + j] == ':';
      QuadShape(tok + rest);
    }
  }

  lemma ThreeColons(out: seq<Byte>, rest: string)
    requires |out| <= 16 && |rest| >= 2 && rest[0] == ':' && rest[1] == ':'
    ensures Scan(out, None, "", rest) == None
  {
    assert rest[1..][0] == ':';
    assert Scan(out, Some(|out|), "", rest[1..]) == None;
  }

  lemma {:induction false} NoTwoGaps(out: seq<Byte>, tok: string, rest: string, i: nat, j: nat)
    requires |out| <= 16
    requires tok == "" || IsGroup(tok)
    requires i < j && j + 1 < |rest|
    requires rest[i] == ':' && rest[i + 1] == ':' && rest[j] == ':' && rest[j + 1] == ':'
    ensures Scan(out, None, tok, rest) == None
    decreases |rest|
  {
    if IsHex(rest[0]) {
      if IsGroup(tok + [rest[0]]) {
        NoTwoGaps(out, tok + [rest[0]], rest[1..], i - 1, j - 1);
      }
    } else if rest[0] == ':' && tok == "" {
      NoGapAfterGap(out, |out|, "", rest[1..], j - 1);
    } else if rest[0] == ':' && |out| + 2 <= 16 {
      var next := out + WordBytes(HexVal(tok));
      if i > 0 {
        NoTwoGaps(next, "", rest[1..], i - 1, j - 1);
      } else if j > 1 {
        assert rest[1..][0] == ':' && rest[1..][1..] == rest[2..];
        NoGapAfterGap(next, |next|, "", rest[2..], j - 2);
      } else {
        ThreeColons(next, rest[1..]);
      }
    } else if QuadOf(tok + rest).Some? {
      assert (tok + rest)[|tok| + j] == ':';
      QuadShape(tok + rest);
    }
  }

  /** A second "::" is always rejected, overlapping ones (":::") included. */
  lemma SecondGapRejected(src: string, i: nat, j: nat)
    requires i < j && j + 1 < |src|
    requires src[i] == ':' && src[i + 1] == ':' && src[j] == ':' && src[j + 1] == ':'
    ensures ParseAddr6(src) == None
  {
    if src[0] != ':' {
      NoTwoGaps([], "", src, i, j);
    } else if src[1] == ':' {
      var rest := src[1..];
      if j > 1 {
        assert rest[1..] == src[2..];
        NoGapAfterGap([], 0, "", src[2..], j - 2);
      } else {
        ThreeColons([], rest);
      }
    }
  }

  /** What an accepted text looks like from outside: it starts with a digit or
      a colon and has a colon somewhere. */
  lemma AcceptedHasColon(src: string)
    requires ParseAddr6(src).Some?
    ensures src != "" && (IsHex(src[0]) || src[0] == ':') && ':' in src
  {
    var t, trailing := ReadIsAccepted(src);
    match t
    case Gapped(before, after) =>
      assert src[|Join(before, ':')|] == ':';
      if before != [] {
        JoinStartsWithDigit(before);
      }
    case Plain(fs) =>
      JoinStartsWithDigit(fs);
      if |fs| == 1 {
        assert fs == [fs[0]];
        BytesOne(fs[0]);
        assert false;
      }
      assert Join(fs, ':')[|fs[0]|] == ':';
  }

  /** No text is both an IPv4 and an IPv6 address. */
  lemma NoTextIsBoth(src: string)
    ensures !(QuadOf(src).Some? && ParseAddr6(src).Some?)
  {
    if QuadOf(src).Some? && ParseAddr6(src).Some? {
      QuadShape(src);
      AcceptedHasColon(src);
    }
  }

  // ----- the parser itself

  lemma SpreadBytes(tmp: seq<Byte>, out: seq<Byte>, colonp: nat)
    requires |tmp| == 16 && colonp <= |out| <= 16
    requires forall k :: 0 <= k < colonp ==> tmp[k] == out[k]
    requires forall k :: colonp <= k < colonp + 16 - |out| ==> tmp[k] == 0
    requires forall k :: colonp + 16 - |out| <= k < 16 ==>
      tmp[k] == if |out| < 16 then out[k - (16 - |out|)] else 0
    ensures tmp == Spread(out, colonp)
  {
  }

  /** The overlapping shift: the bytes from `colonp` to `tp` move to the end of
      the buffer, last byte first, each leaving a zero behind. */
  method ShiftToEnd(tmp: array<Byte>, colonp: nat, tp: nat)
    requires tmp.Length == 16 && colonp <= tp <= 16
    requires forall k :: tp <= k < 16 ==> tmp[k] == 0
    modifies tmp
    ensures tmp[..] == Spread(old(tmp[..tp]), colonp)
  {
    hide Spread;
    var n := tp - colonp;
    var gap := 16 - tp;
    for i := 1 to n + 1
      invariant forall k :: 0 <= k < tp - (i - 1) ==> tmp[k] == old(tmp[k])
      invariant forall k :: tp - (i - 1) <= k < 16 - (i - 1) ==> tmp[k] == 0
      invariant forall k :: 16 - (i - 1) <= k < 16 ==> tmp[k] == if gap > 0 then old(tmp[k - gap]) else 0
    {
      tmp[16 - i] := tmp[colonp + n - i];
      tmp[colonp + n - i] := 0;
    }
    SpreadBytes(tmp[..], old(tmp[..tp]), colonp);
  }

  /** What the variables of the pass stand for: the bytes written, where the gap
      was, and the digits read since the last colon. */
  ghost predicate Passing(src: string, tmp: seq<Byte>, tp: nat, colonp: int, curtok: nat, p: nat,
                          sawXdigit: bool, val: nat) {
    && |tmp| == 16 && tp <= 16 && -1 <= colonp <= tp && curtok <= p <= |src|
    && tmp[tp..] == Zeros(16 - tp)
    && (src[curtok..p] == "" || IsGroup(src[curtok..p]))
    && (sawXdigit <==> src[curtok..p] != "") && val == HexVal(src[curtok..p])
    && Scan(tmp[..tp], ColonAt(colonp), src[curtok..p], src[p..]) == ParseAddr6(src)
  }

  function ColonAt(colonp: int): Option<nat> {
    if colonp < 0 then None else Some(colonp)
  }

  lemma PassStart(src: string, tmp: seq<Byte>, p: nat)
    requires tmp == Zeros(16) && p <= |src| && ParseAddr6(src) == Scan([], None, "", src[p..])
    ensures Passing(src, tmp, 0, -1, p, p, false, 0)
  {
    assert tmp[..0] == [] && tmp[0..] == tmp && src[p..p] == "";
  }

  lemma PassDigit(src: string, tmp: seq<Byte>, tp: nat, colonp: int, curtok: nat, p: nat,
                  sawXdigit: bool, val: nat)
    requires Passing(src, tmp, tp, colonp, curtok, p, sawXdigit, val) && p < |src| && IsHex(src[p])
    ensures var v := val * 16 + DigitOf(src[p]);
      if v > 0xffff then ParseAddr6(src) == None
      else Passing(src, tmp, tp, colonp, curtok, p + 1, true, v)
  {
    var tok := src[curtok..p];
    assert src[curtok..p + 1] == tok + [src[p]] && (tok + [src[p]])[..|tok|] == tok;
    assert src[p..][0] == src[p] && src[p..][1..] == src[p + 1..];
  }

  lemma PassGap(src: string, tmp: seq<Byte>, tp: nat, colonp: int, curtok: nat, p: nat, val: nat)
    requires Passing(src, tmp, tp, colonp, curtok, p, false, val) && p < |src| && src[p] == ':'
    ensures if colonp >= 0 then ParseAddr6(src) == None
            else Passing(src, tmp, tp, tp, p + 1, p + 1, false, val)
  {
    assert src[p..][0] == src[p] && src[p..][1..] == src[p + 1..] && src[p + 1..p + 1] == "";
  }

  lemma PassWord(src: string, tmp: seq<Byte>, tp: nat, colonp: int, curtok: nat, p: nat, val: nat)
    requires Passing(src, tmp, tp, colonp, curtok, p, true, val) && p < |src| && src[p] == ':'
    ensures if tp + 2 > 16 then ParseAddr6(src) == None
            else Passing(src, tmp[..tp] + WordBytes(val) + tmp[tp + 2..], tp + 2, colonp, p + 1, p + 1, false, 0)
  {
    assert src[p..][0] == src[p] && src[p..][1..] == src[p + 1..] && src[p + 1..p + 1] == "";
    if tp + 2 <= 16 {
      var next := tmp[..tp] + WordBytes(val) + tmp[tp + 2..];
      assert next[..tp + 2] == tmp[..tp] + WordBytes(val);
      assert next[tp + 2..] == tmp[tp..][2..] == Zeros(14 - tp);
    }
  }

  lemma PassOther(src: string, tmp: seq<Byte>, tp: nat, colonp: int, curtok: nat, p: nat,
                  sawXdigit: bool, val: nat)
    requires Passing(src, tmp, tp, colonp, curtok, p, sawXdigit, val)
    requires p < |src| && !IsHex(src[p]) && src[p] != ':'
    ensures ParseAddr6(src) ==
      if src[p] == '.' && tp + 4 <= 16 && QuadOf(src[curtok..]).Some?
      then Fill(tmp[..tp] + QuadOf(src[curtok..]).value, ColonAt(colonp)) else None
  {
    assert src[p..][0] == src[p];
    assert src[curtok..p] + src[p..] == src[curtok..];
  }

  lemma PassEnd(src: string, tmp: seq<Byte>, tp: nat, colonp: int, curtok: nat, sawXdigit: bool, val: nat)
    requires Passing(src, tmp, tp, colonp, curtok, |src|, sawXdigit, val)
    ensures ParseAddr6(src) ==
      if !sawXdigit then Fill(tmp[..tp], ColonAt(colonp))
      else if tp + 2 <= 16 then Fill(tmp[..tp] + WordBytes(val), ColonAt(colonp)) else None
  {
    assert src[|src|..] == "";
  }

  /** `len` bytes are written; what remains is the final layout. */
  ghost predicate Ready(src: string, tmp: seq<Byte>, len: nat, colonp: int) {
    && |tmp| == 16 && len <= 16 && -1 <= colonp <= len && tmp[len..] == Zeros(16 - len)
    && Fill(tmp[..len], ColonAt(colonp)) == ParseAddr6(src)
  }

  lemma ReadyAfter(src: string, was: seq<Byte>, tmp: seq<Byte>, tp: nat, b: seq<Byte>, colonp: int)
    requires |was| == 16 && tp + |b| <= 16 && -1 <= colonp <= tp && was[tp..] == Zeros(16 - tp)
    requires tmp == was[..tp] + b + was[tp + |b|..]
    requires ParseAddr6(src) == Fill(was[..tp] + b, ColonAt(colonp))
    ensures Ready(src, tmp, tp + |b|, colonp)
  {
    assert tmp[..tp + |b|] == was[..tp] + b;
    assert tmp[tp + |b|..] == was[tp..][|b|..];
  }

  /** Two bytes of `val`, most significant first. */
  method PutWord(tmp: array<Byte>, tp: nat, val: nat)
    requires tp + 2 <= tmp.Length && val <= 0xffff
    modifies tmp
    ensures tmp[..] == old(tmp[..tp]) + WordBytes(val) + old(tmp[tp + 2..])
  {
    tmp[tp] := val / 256;
    tmp[tp + 1] := val % 256;
  }

  /** The pass over the text, up to the final layout. */
  method PassOver(src: string, tmp: array<Byte>) returns (ok: bool, tp: nat, colonp: int)
    requires tmp.Length == 16 && tmp[..] == Zeros(16)
    modifies tmp
    ensures !ok ==> ParseAddr6(src) == None
    ensures ok ==> Ready(src, tmp[..], tp, colonp)
  {
    hide Scan, QuadOf, Fill;
    tp, colonp := 0, -1;
    var p: nat := 0;
    if src != "" && src[0] == ':' {
      p := 1;
      if p == |src| || src[p] != ':' {
        return false, tp, colonp;
      }
    }
    var curtok: nat, sawXdigit, val: nat := p, false, 0;
    assert src[0..] == src;
    PassStart(src, tmp[..], p);
    while p < |src|
      invariant Passing(src, tmp[..], tp, colonp, curtok, p, sawXdigit, val)
    {
      var ch := src[p];
      ghost var was := tmp[..];
      if IsHex(ch) {
        PassDigit(src, was, tp, colonp, curtok, p, sawXdigit, val);
        val := val * 16 + DigitOf(ch);
        if val > 0xffff {
          return false, tp, colonp;
        }
        sawXdigit := true;
      } else if ch == ':' && !sawXdigit {
        PassGap(src, was, tp, colonp, curtok, p, val);
        curtok := p + 1;
        if colonp >= 0 {
          return false, tp, colonp;
        }
        colonp := tp;
      } else if ch == ':' {
        PassWord(src, was, tp, colonp, curtok, p, val);
        curtok := p + 1;
        if tp + 2 > 16 {
          return false, tp, colonp;
        }
        PutWord(tmp, tp, val);
        tp := tp + 2;
        sawXdigit, val := false, 0;
      } else {
        PassOther(src, was, tp, colonp, curtok, p, sawXdigit, val);
        if ch == '.' && tp + 4 <= 16 {
          ok := InetPton4(src[curtok..], tmp, tp);
          if ok {
            ReadyAfter(src, was, tmp[..], tp, QuadOf(src[curtok..]).value, colonp);
            return true, tp + 4, colonp;
          }
        }
        return false, tp, colonp;
      }
      p := p + 1;
    }
    ghost var was := tmp[..];
    PassEnd(src, was, tp, colonp, curtok, sawXdigit, val);
    if sawXdigit {
      if tp + 2 > 16 {
        return false, tp, colonp;
      }
      PutWord(tmp, tp, val);
      ReadyAfter(src, was, tmp[..], tp, WordBytes(val), colonp);
      tp := tp + 2;
    }
    return true, tp, colonp;
  }

  /** inet_pton6. `dst` is untouched unless the text is an address. */
  method InetPton6(src: string, dst: array<Byte>) returns (ok: bool)
    requires dst.Length == 16
    modifies dst
    ensures ok <==> ParseAddr6(src).Some?
    ensures dst[..] == if ok then ParseAddr6(src).value else old(dst[..])
  {
    var tmp := new Byte[16](_ => 0);
    assert tmp[..] == Zeros(16);
    var tp, colonp;
    ok, tp, colonp := PassOver(src, tmp);
    if !ok {
      return;
    }
    if colonp >= 0 {
      assert forall k :: tp <= k < 16 ==> tmp[k] == tmp[..][tp..][k - tp];
      assert tmp[..tp] == tmp[..][..tp];
      ShiftToEnd(tmp, colonp, tp);
      tp := 16;
    }
    if tp != 16 {
      return false;
    }
    assert tmp[..][..16] == tmp[..];
    forall k | 0 <= k < 16 {
      dst[k] := tmp[k];
    }
  }
}
