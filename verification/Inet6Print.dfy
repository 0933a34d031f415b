/** The IPv6 printer of inet_ntop.c: the choice of the zero run, the compressed
    text, and that parsing undoes printing. */
module Inet6Print {
  import opened CText
  import opened DottedQuad
  import opened Inet6Text
  import opened Inet6Parse

  type Addr6 = a: seq<Byte> | |a| == 16 witness Zeros(16)

  predicate IsWords(ws: seq<nat>) {
    |ws| == 8 && forall i :: 0 <= i < 8 ==> ws[i] <= 0xffff
  }

  function WordAt(a: Addr6, i: nat): (w: nat)
    requires i < 8
    ensures w <= 0xffff && w / 256 == a[2 * i] && w % 256 == a[2 * i + 1]
  {
    var hi: int := a[2 * i];
    hi * 256 + a[2 * i + 1]
  }

  /** The eight 16-bit words of an address. */
  function WordsOf(a: Addr6): (ws: seq<nat>)
    ensures IsWords(ws)
  {
    seq(8, i requires 0 <= i < 8 => WordAt(a, i))
  }

  // ----- the run that "::" replaces

  datatype Run = Run(base: nat, len: nat)

  predicate IsZeroRun(ws: seq<nat>, r: Run) {
    r.base + r.len <= |ws| && forall i :: r.base <= i < r.base + r.len ==> ws[i] == 0
  }

  /** Sections 4.2.2 and 4.2.3 of RFC 5952: the longest run of zero words, the
      leftmost of the longest, and none when no run has two words. */
  ghost predicate IsChosen(ws: seq<nat>, best: Option<Run>) {
    match best
    case None => forall r :: IsZeroRun(ws, r) ==> r.len < 2
    case Some(b) =>
      && b.len >= 2 && IsZeroRun(ws, b)
      && forall r :: IsZeroRun(ws, r) ==> r.len < b.len || (r.len == b.len && b.base <= r.base)
  }

  function ZerosFrom(ws: seq<nat>, i: nat): (n: nat)
    requires i <= |ws|
    ensures IsZeroRun(ws, Run(i, n)) && (i + n < |ws| ==> ws[i + n] != 0)
    decreases |ws| - i
  {
    if i < |ws| && ws[i] == 0 then 1 + ZerosFrom(ws, i + 1) else 0
  }

  lemma {:induction false} RunBound(ws: seq<nat>, q: Run)
    requires IsZeroRun(ws, q)
    ensures q.len <= ZerosFrom(ws, q.base)
    decreases q.len
  {
    if q.len > 0 {
      RunBound(ws, Run(q.base + 1, q.len - 1));
    }
  }

  /** The leftmost longest zero run that starts at or after `i`. */
  function LongestFrom(ws: seq<nat>, i: nat): (r: Run)
    requires i <= |ws|
    ensures IsZeroRun(ws, r) && i <= r.base
    ensures forall q :: IsZeroRun(ws, q) && i <= q.base ==>
      q.len < r.len || (q.len == r.len && (r.base <= q.base || r.len == 0))
    decreases |ws| - i
  {
    if i == |ws| then Run(i, 0)
    else
      var r := LongestFrom(ws, i + 1);
      var n := ZerosFrom(ws, i);
      assert forall q :: IsZeroRun(ws, q) && q.base == i ==> q.len <= n by {
        forall q | IsZeroRun(ws, q) && q.base == i ensures q.len <= n { RunBound(ws, q); }
      }
      if n >= r.len then Run(i, n) else r
  }

  function ChosenRun(ws: seq<nat>): (best: Option<Run>)
    ensures IsChosen(ws, best)
  {
    var r := LongestFrom(ws, 0);
    if r.len < 2 then None else Some(r)
  }

  lemma ChosenIsUnique(ws: seq<nat>, b: Option<Run>, c: Option<Run>)
    requires IsChosen(ws, b) && IsChosen(ws, c)
    ensures b == c
  {
  }

  // ----- the text

  function HexFields(ws: seq<nat>): (fs: seq<string>)
    ensures |fs| == |ws|
  {
    seq(|ws|, i requires 0 <= i < |ws| => HexText(ws[i]))
  }

  /** An IPv4-mapped or IPv4-compatible address keeps its last four bytes dotted. */
  predicate Encapsulates(ws: seq<nat>, best: Option<Run>)
    requires IsWords(ws)
  {
    best.Some? && best.value.base == 0 && (best.value.len == 6 || (best.value.len == 5 && ws[5] == 0xffff))
  }

  /** The text the printer is to produce, as a text of RFC 4291. */
  function TextOf(a: Addr6): Addr6Text {
    var ws := WordsOf(a);
    match ChosenRun(ws)
    case None => Plain(HexFields(ws))
    case Some(b) =>
      if Encapsulates(ws, Some(b)) then Gapped([], HexFields(ws[b.len..6]) + [QuadText(a[12..])])
      else Gapped(HexFields(ws[..b.base]), HexFields(ws[b.base + b.len..]))
  }

  function PrintAddr6(a: Addr6): string {
    Show(TextOf(a))
  }

  /** The fields of a stretch of words denote the bytes of the address there. */
  lemma {:induction false} StretchBytes(a: Addr6, lo: nat, hi: nat)
    requires lo <= hi <= 8
    ensures var fs := HexFields(WordsOf(a)[lo..hi]);
      Groups(fs) && ShortGroups(fs) && Bytes(fs) == a[2 * lo..2 * hi]
    decreases hi - lo
  {
    if lo < hi {
      var w := WordAt(a, lo);
      StretchBytes(a, lo + 1, hi);
      FirstWord(w, HexFields(WordsOf(a)[lo + 1..hi]));
      FirstField(a, lo, hi);
      hide Groups, ShortGroups, Bytes, HexText, IsGroup, HexFields, WordsOf;
      assert a[2 * lo..2 * hi] == WordBytes(w) + a[2 * (lo + 1)..2 * hi];
    }
  }

  lemma FirstField(a: Addr6, lo: nat, hi: nat)
    requires lo < hi <= 8
    ensures HexFields(WordsOf(a)[lo..hi]) == [HexText(WordAt(a, lo))] + HexFields(WordsOf(a)[lo + 1..hi])
  {
    hide HexText, WordAt;
  }

  /** A printed word in front of other groups. */
  lemma FirstWord(w: nat, gs: seq<string>)
    requires w <= 0xffff && Groups(gs) && ShortGroups(gs)
    ensures var fs := [HexText(w)] + gs;
      Groups(fs) && ShortGroups(fs) && Bytes(fs) == WordBytes(w) + Bytes(gs)
  {
    HexTextValue(w);
    assert ([HexText(w)] + gs)[1..] == gs;
  }

  lemma ZeroStretch(a: Addr6, b: Run)
    requires IsZeroRun(WordsOf(a), b)
    ensures a[2 * b.base..2 * (b.base + b.len)] == Zeros(2 * b.len)
  {
    forall k | 2 * b.base <= k < 2 * (b.base + b.len) ensures a[k] == 0 {
      assert WordsOf(a)[k / 2] == WordAt(a, k / 2) == 0;
    }
  }

  lemma {:induction false} DenoteGapped(before: seq<string>, after: seq<string>)
    requires Groups(before) && Fields(after) && ShortGroups(before) && ShortGroups(after)
    requires |Bytes(before)| + |Bytes(after)| <= 14
    ensures Standard(Gapped(before, after))
    ensures Denote(Gapped(before, after))
      == Bytes(before) + Zeros(16 - |Bytes(before)| - |Bytes(after)|) + Bytes(after)
  {
    hide Bytes, IsGroup, QuadOf, Zeros, ShortGroups, Groups, Fields;
  }

  lemma PlainText(a: Addr6)
    requires ChosenRun(WordsOf(a)).None?
    ensures Standard(TextOf(a)) && Denote(TextOf(a)) == a
  {
    var ws := WordsOf(a);
    assert ws[0..8] == ws && a[0..16] == a;
    StretchBytes(a, 0, 8);
  }

  lemma GappedText(a: Addr6, b: Run)
    requires b.len >= 2 && IsZeroRun(WordsOf(a), b)
    ensures var t := Gapped(HexFields(WordsOf(a)[0..b.base]), HexFields(WordsOf(a)[b.base + b.len..8]));
      Standard(t) && Denote(t) == a
  {
    hide HexFields, QuadOf, HexVal, Standard, Denote;
    StretchBytes(a, 0, b.base);
    StretchBytes(a, b.base + b.len, 8);
    ZeroStretch(a, b);
    DenoteGapped(HexFields(WordsOf(a)[0..b.base]), HexFields(WordsOf(a)[b.base + b.len..8]));
    assert a == a[0..2 * b.base] + a[2 * b.base..2 * (b.base + b.len)] + a[2 * (b.base + b.len)..16];
  }

  lemma QuadTailText(a: Addr6, b: Run)
    requires 2 <= b.len <= 6 && b.base == 0 && IsZeroRun(WordsOf(a), b)
    ensures var t := Gapped([], HexFields(WordsOf(a)[b.len..6]) + [QuadText(a[12..])]);
      Standard(t) && Denote(t) == a
  {
    var q, fs := QuadText(a[12..]), HexFields(WordsOf(a)[b.len..6]);
    QuadRoundTrip(a[12..]);
    QuadShape(q);
    BytesOne(q);
    StretchBytes(a, b.len, 6);
    BytesConcat(fs, [q]);
    ZeroStretch(a, b);
    DenoteGapped([], fs + [q]);
    SplitAddress(a, b.len);
  }

  lemma SplitAddress(a: Addr6, n: nat)
    requires n <= 6
    ensures a == [] + a[0..2 * n] + (a[2 * n..12] + a[12..])
  {
  }

  lemma TextWithRun(a: Addr6, b: Run)
    requires ChosenRun(WordsOf(a)) == Some(b)
    ensures b.len >= 2 && IsZeroRun(WordsOf(a), b)
    ensures TextOf(a) ==
      if Encapsulates(WordsOf(a), Some(b)) then Gapped([], HexFields(WordsOf(a)[b.len..6]) + [QuadText(a[12..])])
      else Gapped(HexFields(WordsOf(a)[0..b.base]), HexFields(WordsOf(a)[b.base + b.len..8]))
  {
    hide HexFields, QuadText, WordAt;
    var ws := WordsOf(a);
    assert ws[0..b.base] == ws[..b.base] && ws[b.base + b.len..8] == ws[b.base + b.len..];
  }

  /** What is printed is a text of the standard that denotes the address. */
  lemma PrintsStandardText(a: Addr6)
    ensures Standard(TextOf(a)) && Denote(TextOf(a)) == a
  {
    hide TextOf, WordsOf, IsZeroRun, ChosenRun, Standard, Denote, HexFields, QuadText;
    var best := ChosenRun(WordsOf(a));
    if best.None? {
      PlainText(a);
    } else {
      TextWithRun(a, best.value);
      if Encapsulates(WordsOf(a), best) {
        QuadTailText(a, best.value);
      } else {
        GappedText(a, best.value);
      }
    }
  }

  /** Parsing undoes printing, for every IPv6 address. */
  lemma RoundTrip(a: Addr6)
    ensures ParseAddr6(PrintAddr6(a)) == Some(a)
  {
    PrintsStandardText(a);
    StandardIsRead(TextOf(a));
  }

  /** So no two addresses print alike. */
  lemma PrintIsInjective(a: Addr6, b: Addr6)
    requires PrintAddr6(a) == PrintAddr6(b)
    ensures a == b
  {
    RoundTrip(a);
    RoundTrip(b);
  }

  // ----- the loop that writes the text

  predicate InRun(best: Option<Run>, i: nat) {
    best.Some? && best.value.base <= i < best.value.base + best.value.len
  }

  /** What one turn of the formatting loop appends for word `k`. */
  function Piece(ws: seq<nat>, best: Option<Run>, k: nat): string
    requires k < |ws|
  {
    if InRun(best, k) then (if k == best.value.base then ":" else "")
    else (if k != 0 then ":" else "") + HexText(ws[k])
  }

  /** What the first `i` turns of the formatting loop append. */
  function Emitted(ws: seq<nat>, best: Option<Run>, i: nat): string
    requires i <= |ws|
  {
    if i == 0 then "" else Emitted(ws, best, i - 1) + Piece(ws, best, i - 1)
  }

  lemma NothingEmitted(ws: seq<nat>, best: Option<Run>)
    ensures Emitted(ws, best, 0) == "" == HexJoin(ws[..0])
  {
    HexJoinIs(ws[..0]);
  }

  lemma {:induction false} EmittedPlain(ws: seq<nat>, best: Option<Run>, i: nat)
    requires i <= |ws| && (best.Some? ==> i <= best.value.base)
    ensures Emitted(ws, best, i) == HexJoin(ws[..i])
  {
    hide HexJoin, HexText, Emitted;
    NothingEmitted(ws, best);
    if i > 0 {
      var w, before := HexText(ws[i - 1]), HexJoin(ws[..i - 1]);
      EmittedPlain(ws, best, i - 1);
      PieceOutsideRun(ws, best, i);
      HexJoinSnoc(ws, 0, i);
      assert ws[0..i] == ws[..i] && ws[0..i - 1] == ws[..i - 1];
      if i == 1 {
        assert "" + ("" + w) == w;
      } else {
        assert before + (":" + w) == before + ":" + w;
      }
    }
  }

  lemma {:induction false} EmittedInRun(ws: seq<nat>, b: Run, i: nat)
    requires b.base < i <= b.base + b.len <= |ws|
    ensures Emitted(ws, Some(b), i) == HexJoin(ws[..b.base]) + ":"
  {
    if i == b.base + 1 {
      EmittedPlain(ws, Some(b), b.base);
    } else {
      EmittedInRun(ws, b, i - 1);
    }
  }

  lemma PieceOutsideRun(ws: seq<nat>, best: Option<Run>, i: nat)
    requires 0 < i <= |ws| && !InRun(best, i - 1)
    ensures Emitted(ws, best, i) == Emitted(ws, best, i - 1) + ((if i > 1 then ":" else "") + HexText(ws[i - 1]))
  {
  }

  lemma Reassociate(x: string, y: string, w: string)
    ensures x + y + (":" + w) == x + (y + ":" + w)
    ensures x + ":" + (":" + w) == x + "::" + w
  {
  }

  lemma FieldsSnoc(ws: seq<nat>, lo: nat, i: nat)
    requires lo < i <= |ws|
    ensures HexFields(ws[lo..i]) == HexFields(ws[lo..i - 1]) + [HexText(ws[i - 1])]
  {
  }

  function HexJoin(ws: seq<nat>): string {
    Join(HexFields(ws), ':')
  }

  lemma HexJoinSnoc(ws: seq<nat>, lo: nat, i: nat)
    requires lo < i <= |ws|
    ensures HexJoin(ws[lo..i]) ==
      if lo == i - 1 then HexText(ws[i - 1]) else HexJoin(ws[lo..i - 1]) + ":" + HexText(ws[i - 1])
  {
    FieldsSnoc(ws, lo, i);
    JoinSnoc(HexFields(ws[lo..i - 1]), HexText(ws[i - 1]), ':');
  }

  lemma {:induction false} EmittedAfterRun(ws: seq<nat>, b: Run, i: nat)
    requires b.len > 0 && b.base + b.len < i <= |ws|
    ensures Emitted(ws, Some(b), i) == HexJoin(ws[..b.base]) + "::" + HexJoin(ws[b.base + b.len..i])
  {
    hide Emitted, HexJoin, HexText;
    var e, w := b.base + b.len, HexText(ws[i - 1]);
    PieceOutsideRun(ws, Some(b), i);
    HexJoinSnoc(ws, e, i);
    if i == e + 1 {
      EmittedInRun(ws, b, e);
      Reassociate(HexJoin(ws[..b.base]), "", w);
    } else {
      EmittedAfterRun(ws, b, i - 1);
      Reassociate(HexJoin(ws[..b.base]) + "::", HexJoin(ws[e..i - 1]), w);
    }
  }

  /** What remains to be appended after `i` turns: the dotted quad with its
      colon, or the second colon of a trailing run. */
  function Ending(a: Addr6, best: Option<Run>): string {
    if Encapsulates(WordsOf(a), best) then ":" + QuadText(a[12..])
    else if best.Some? && best.value.base + best.value.len == 8 then ":" else ""
  }

  lemma EmittedIsPrinted(a: Addr6)
    ensures var ws, best := WordsOf(a), ChosenRun(WordsOf(a));
      PrintAddr6(a) == Emitted(ws, best, if Encapsulates(ws, best) then 6 else 8) + Ending(a, best)
  {
    var ws, best := WordsOf(a), ChosenRun(WordsOf(a));
    if best.None? {
      EmittedPlain(ws, best, 8);
      assert ws[..8] == ws;
    } else if Encapsulates(ws, best) {
      if best.value.len == 6 {
        QuadAfterSix(ws, best.value, QuadText(a[12..]));
      } else {
        QuadAfterFive(ws, best.value, QuadText(a[12..]));
      }
    } else {
      RunEmitted(ws, best.value);
    }
  }

  lemma RunEmitted(ws: seq<nat>, b: Run)
    requires |ws| == 8 && b.len > 0 && b.base + b.len <= 8
    ensures Show(Gapped(HexFields(ws[..b.base]), HexFields(ws[b.base + b.len..])))
      == Emitted(ws, Some(b), 8) + (if b.base + b.len == 8 then ":" else "")
  {
    hide Emitted, HexFields, Join;
    HexJoinIs(ws[..b.base]);
    HexJoinIs(ws[b.base + b.len..]);
    if b.base + b.len == 8 {
      EmittedInRun(ws, b, 8);
    } else {
      EmittedAfterRun(ws, b, 8);
      assert ws[b.base + b.len..8] == ws[b.base + b.len..];
    }
  }

  lemma QuadAfterSix(ws: seq<nat>, b: Run, q: string)
    requires |ws| == 8 && b.base == 0 && b.len == 6
    ensures Show(Gapped([], HexFields(ws[6..6]) + [q])) == Emitted(ws, Some(b), 6) + (":" + q)
  {
    assert HexFields(ws[6..6]) + [q] == [q];
    ShowGapFirst([q]);
    EmittedInRun(ws, b, 6);
    assert HexJoin(ws[..0]) == "";
  }

  lemma HexJoinIs(ws: seq<nat>)
    ensures HexJoin(ws) == Join(HexFields(ws), ':') && |HexFields(ws)| == |ws|
    ensures ws == [] ==> HexJoin(ws) == ""
  {
  }

  lemma QuadAfterFive(ws: seq<nat>, b: Run, q: string)
    requires |ws| == 8 && b.base == 0 && b.len == 5
    ensures Show(Gapped([], HexFields(ws[5..6]) + [q])) == Emitted(ws, Some(b), 6) + (":" + q)
  {
    hide *;
    var fs, j := HexFields(ws[5..6]), HexJoin(ws[5..6]);
    HexJoinIs(ws[5..6]);
    HexJoinIs(ws[..0]);
    ShowGapFirst(fs + [q]);
    JoinSnoc(fs, q, ':');
    EmittedAfterRun(ws, b, 6);
    QuadBehind(j, q);
  }

  lemma QuadBehind(j: string, q: string)
    ensures "::" + (j + [':'] + q) == "" + "::" + j + (":" + q)
  {
  }

  lemma {:induction false} EmittedLength(ws: seq<nat>, best: Option<Run>, i: nat)
    requires IsWords(ws) && i <= 8
    requires best.Some? ==> best.value.len >= 2 && best.value.base + best.value.len <= 8
    ensures i > 0 ==> |Emitted(ws, best, i)| <= 5 * i - 1
    ensures best.Some? && i >= best.value.base + best.value.len ==> |Emitted(ws, best, i)| <= 5 * i - 6
  {
    if i > 0 {
      EmittedLength(ws, best, i - 1);
      HexTextValue(ws[i - 1]);
      if best.Some? && best.value.base < i {
        if i <= best.value.base + best.value.len {
          EmittedInRun(ws, best.value, i);
          EmittedPlain(ws, best, best.value.base);
          EmittedLength(ws, best, best.value.base);
        }
      }
    }
  }

  lemma EndingLength(a: Addr6)
    ensures |Ending(a, ChosenRun(WordsOf(a)))| <=
      if Encapsulates(WordsOf(a), ChosenRun(WordsOf(a))) then 16 else 1
  {
    QuadRoundTrip(a[12..]);
  }

  /** No printed address is longer than 39 characters. */
  lemma PrintedLength(a: Addr6)
    ensures |PrintAddr6(a)| <= 39
  {
    var ws, best := WordsOf(a), ChosenRun(WordsOf(a));
    EmittedIsPrinted(a);
    EndingLength(a);
    if Encapsulates(ws, best) {
      QuadEmittedLength(ws, best.value);
    } else {
      EmittedLength(ws, best, 8);
    }
  }

  lemma QuadEmittedLength(ws: seq<nat>, b: Run)
    requires IsWords(ws) && 5 <= b.len <= 6 && b.base == 0
    ensures |Emitted(ws, Some(b), 6)| <= 6
  {
    EmittedInRun(ws, b, 5);
    HexTextValue(ws[5]);
    assert Join(HexFields(ws[..0]), ':') == "";
  }

  // ----- the printer itself

  /** The bits of either number. */
  function Or(a: nat, b: nat): nat
    decreases a + b
  {
    if a == 0 && b == 0 then 0
    else 2 * Or(a / 2, b / 2) + if a % 2 == 1 || b % 2 == 1 then 1 else 0
  }

  lemma {:induction false} OrNothing(a: nat)
    ensures Or(a, 0) == a && Or(0, a) == a
  {
    if a > 0 {
      OrNothing(a / 2);
    }
  }

  /** Numbers without a common bit add up. */
  lemma {:induction false} OrApart(h: nat, l: nat, k: nat)
    requires l < Pow2(k)
    ensures Or(h * Pow2(k), l) == h * Pow2(k) + l
  {
    if k == 0 {
      OrNothing(h);
    } else {
      var p := h * Pow2(k - 1);
      assert h * Pow2(k) == 2 * p;
      OrApart(h, l / 2, k - 1);
    }
  }

  lemma OrOfBytes(a: Byte, b: Byte)
    ensures Or(a as int * 256, b) == a as int * 256 + b
  {
    assert Pow2(4) == 16 && Pow2(8) == 256;
    OrApart(a, b, 8);
  }

  /** The bytewise address becomes eight words: each byte is shifted to its half
      of the word and or-ed into it. */
  method PackWords(src: Addr6, words: array<nat>)
    requires words.Length == 8
    modifies words
    ensures words[..] == WordsOf(src)
  {
    hide Or;
    forall k | 0 <= k < 8 {
      words[k] := 0;
    }
    for i := 0 to 16
      invariant forall k :: 0 <= k < i / 2 ==> words[k] == WordAt(src, k)
      invariant i % 2 == 1 ==> words[i / 2] == src[i - 1] as int * 256
      invariant forall k :: (i + 1) / 2 <= k < 8 ==> words[k] == 0
    {
      if i % 2 == 0 {
        OrNothing(src[i] as int * 256);
      } else {
        OrOfBytes(src[i - 1], src[i]);
      }
      words[i / 2] := Or(words[i / 2], if i % 2 == 0 then src[i] as int * 256 else src[i]);
    }
  }

  /** `base` and `len` describe the leftmost longest of the nonempty zero runs
      that end at or before `end`; `base` is -1 when there is none. */
  ghost predicate BestBefore(ws: seq<nat>, end: nat, base: int, len: nat) {
    if base < 0 then forall r :: IsZeroRun(ws, r) && r.base + r.len <= end ==> r.len == 0
    else
      && len > 0 && IsZeroRun(ws, Run(base, len)) && base + len <= end
      && forall r :: IsZeroRun(ws, r) && r.base + r.len <= end ==>
        r.len < len || (r.len == len && base <= r.base)
  }

  /** The run that is still open at `i`, if `base` is not -1. */
  ghost predicate OpenRun(ws: seq<nat>, i: nat, base: int, len: nat)
    requires i <= |ws|
  {
    if base < 0 then i == 0 || ws[i - 1] != 0
    else
      && base + len == i && len > 0 && IsZeroRun(ws, Run(base, len))
      && (base == 0 || ws[base - 1] != 0)
  }

  lemma ZeroInRun(ws: seq<nat>, r: Run, k: int)
    requires IsZeroRun(ws, r) && r.base <= k < r.base + r.len
    ensures ws[k] == 0
  {
  }

  lemma CloseRun(ws: seq<nat>, i: nat, bestBase: int, bestLen: nat, base: nat, len: nat)
    requires i <= |ws| && (i < |ws| ==> ws[i] != 0)
    requires OpenRun(ws, i, base, len) && BestBefore(ws, base, bestBase, bestLen)
    ensures var take := bestBase < 0 || len > bestLen;
      BestBefore(ws, if i < |ws| then i + 1 else i, if take then base else bestBase, if take then len else bestLen)
  {
    var end := if i < |ws| then i + 1 else i;
    forall r | IsZeroRun(ws, r) && r.base + r.len <= end && r.len > 0
      ensures r.base + r.len <= base || (base <= r.base && r.base + r.len <= i)
    {
      if r.base <= i < r.base + r.len {
        ZeroInRun(ws, r, i);
      }
      if r.base < base < r.base + r.len {
        ZeroInRun(ws, r, base - 1);
      }
    }
  }

  lemma NoRunAt(ws: seq<nat>, i: nat, base: int, len: nat)
    requires i < |ws| && ws[i] != 0 && BestBefore(ws, i, base, len)
    ensures BestBefore(ws, i + 1, base, len)
  {
    forall r | IsZeroRun(ws, r) && r.base + r.len <= i + 1 && r.len > 0
      ensures r.base + r.len <= i
    {
      if r.base + r.len == i + 1 {
        ZeroInRun(ws, r, i);
      }
    }
  }

  /** The one-pass search for the run to compress. */
  method FindRun(words: array<nat>) returns (base: int, len: nat)
    requires words.Length == 8
    ensures base >= -1
    ensures ChosenRun(words[..]) == if base == -1 then None else Some(Run(base, len))
  {
    ghost var ws := words[..];
    base, len := -1, 0;
    var curBase: int, curLen: nat := -1, 0;
    for i := 0 to 8
      invariant base >= -1 && curBase >= -1
      invariant OpenRun(ws, i, curBase, curLen)
      invariant BestBefore(ws, if curBase < 0 then i else curBase, base, len)
    {
      if words[i] == 0 {
        if curBase == -1 {
          curBase, curLen := i, 1;
        } else {
          curLen := curLen + 1;
        }
      } else if curBase != -1 {
        CloseRun(ws, i, base, len, curBase, curLen);
        if base == -1 || curLen > len {
          base, len := curBase, curLen;
        }
        curBase := -1;
      } else {
        NoRunAt(ws, i, base, len);
      }
    }
    if curBase != -1 {
      CloseRun(ws, 8, base, len, curBase, curLen);
      if base == -1 || curLen > len {
        base, len := curBase, curLen;
      }
    }
    if base != -1 && len < 2 {
      base := -1;
    }
    ChosenIsUnique(ws, ChosenRun(ws), if base == -1 then None else Some(Run(base, len)));
  }

  /** sprintf at `tp`: the text and its terminator. */
  method PutText(tmp: array<char>, tp: nat, s: string) returns (next: nat)
    requires tp + |s| < tmp.Length
    modifies tmp
    ensures next == tp + |s|
    ensures tmp[..next] == old(tmp[..tp]) + s && tmp[next] == '\0'
  {
    forall k | 0 <= k < |s| {
      tmp[tp + k] := s[k];
    }
    next := tp + |s|;
    tmp[next] := '\0';
  }

  /** The colon of word `i`, unless it is the first, and then its digits. */
  method FormatWord(tmp: array<char>, tp: nat, i: nat, w: nat) returns (next: nat)
    requires tmp.Length == 46 && tp <= 40 && w <= 0xffff
    modifies tmp
    ensures var piece := (if i != 0 then ":" else "") + HexText(w);
      next == tp + |piece| <= 45 && tmp[..next] == old(tmp[..tp]) + piece
  {
    HexTextValue(w);
    next := tp;
    if i != 0 {
      next := PutText(tmp, next, ":");
    }
    next := PutText(tmp, next, HexText(w));
  }

  method FormatQuad(tmp: array<char>, tp: nat, quad: seq<Byte>) returns (next: nat)
    requires tmp.Length == 46 && tp <= 29 && |quad| == 4
    modifies tmp
    ensures next == tp + |":" + QuadText(quad)| <= 45 && tmp[..next] == old(tmp[..tp]) + (":" + QuadText(quad))
  {
    QuadRoundTrip(quad);
    var at := PutText(tmp, tp, ":");
    ghost var was := tmp[..];
    var ok, past := InetNtop4(quad, tmp, at, 46 - at);
    next := at + |QuadText(quad)|;
    assert tmp[..next] == was[..at] + QuadText(quad);
  }

  /** What the formatting loop maintains. */
  ghost predicate Formatting(ws: seq<nat>, best: Option<Run>, i: nat, tp: nat, text: string) {
    && IsWords(ws) && i <= 8 && tp <= 40
    && (best.Some? ==> best.value.len >= 2 && best.value.base + best.value.len <= 8)
    && text == Emitted(ws, best, i) && tp == |text|
  }

  lemma FormatStep(ws: seq<nat>, best: Option<Run>, i: nat, tp: nat, text: string)
    requires Formatting(ws, best, i, tp, text) && i < 8
    ensures tp <= 35 && (i == 6 && best.Some? ==> tp <= 29)
    ensures var piece := Piece(ws, best, i); Formatting(ws, best, i + 1, tp + |piece|, text + piece)
  {
    EmittedLength(ws, best, i);
    EmittedLength(ws, best, i + 1);
  }

  lemma FormatStart(ws: seq<nat>, best: Option<Run>)
    requires IsWords(ws) && (best.Some? ==> best.value.len >= 2 && best.value.base + best.value.len <= 8)
    ensures Formatting(ws, best, 0, 0, "")
  {
  }

  lemma FormatKnown(ws: seq<nat>, best: Option<Run>, i: nat, tp: nat, text: string)
    requires Formatting(ws, best, i, tp, text)
    ensures i <= 8 == |ws| && text == Emitted(ws, best, i) && tp == |text| <= 40
  {
  }

  /** One turn of the formatting loop, for a word in the run or written out. */
  method FormatTurn(words: array<nat>, base: int, len: nat, i: nat, tmp: array<char>, tp: nat)
    returns (next: nat)
    requires words.Length == 8 && IsWords(words[..]) && base >= -1 && i < 8
    requires tmp.Length == 46 && tp <= 35
    modifies tmp
    ensures var piece := Piece(words[..], if base == -1 then None else Some(Run(base, len)), i);
      next == tp + |piece| <= 45 && tmp[..next] == old(tmp[..tp]) + piece
  {
    next := tp;
    if base != -1 && i >= base && i < base + len {
      if i == base {
        next := PutText(tmp, tp, ":");
      }
    } else {
      next := FormatWord(tmp, tp, i, words[i]);
    }
  }

  /** The formatting loop, into the 46-character temporary. */
  method FormatAddr6(src: Addr6, words: array<nat>, base: int, len: nat, tmp: array<char>) returns (tp: nat)
    requires words.Length == 8 && words[..] == WordsOf(src) && base >= -1
    requires ChosenRun(WordsOf(src)) == if base == -1 then None else Some(Run(base, len))
    requires tmp.Length == 46
    modifies tmp
    ensures tp == |PrintAddr6(src)| && tp <= 39
    ensures tmp[..tp] == PrintAddr6(src)
  {
    hide WordsOf, ChosenRun, PrintAddr6, Emitted, Formatting, HexText, QuadText;
    ghost var ws, best := words[..], if base == -1 then None else Some(Run(base, len));
    EmittedIsPrinted(src);
    PrintedLength(src);
    FormatStart(ws, best);
    tp := 0;
    var i := 0;
    while i < 8
      invariant 0 <= i <= 8 && tp <= 40
      invariant Formatting(ws, best, i, tp, tmp[..tp])
      invariant Encapsulates(ws, best) ==> i <= 6
    {
      FormatStep(ws, best, i, tp, tmp[..tp]);
      FormatKnown(ws, best, i, tp, tmp[..tp]);
      if i == 6 && base == 0 && (len == 6 || (len == 5 && words[5] == 0xffff)) {
        tp := FormatQuad(tmp, tp, src[12..]);
        return;
      }
      tp := FormatTurn(words, base, len, i, tmp, tp);
      i := i + 1;
    }
    FormatKnown(ws, best, 8, tp, tmp[..tp]);
    if base != -1 && base + len == 8 {
      tp := PutText(tmp, tp, ":");
    }
  }

  /** inet_ntop6: the text and its terminator, or nothing when they do not fit. */
  method InetNtop6(src: Addr6, dst: array<char>, size: nat) returns (ok: bool)
    requires size <= dst.Length
    modifies dst
    ensures ok <==> |PrintAddr6(src)| + 1 <= size
    ensures ok ==> dst[..] == PrintAddr6(src) + ['\0'] + old(dst[|PrintAddr6(src)| + 1..])
    ensures !ok ==> dst[..] == old(dst[..])
  {
    hide PrintAddr6, WordsOf, ChosenRun;
    var words := new nat[8];
    PackWords(src, words);
    var base, len := FindRun(words);
    var tmp := new char[46];
    var tp := FormatAddr6(src, words, base, len, tmp);
    tmp[tp] := '\0';
    if tp + 1 > size {
      return false;
    }
    assert tmp[..tp + 1] == PrintAddr6(src) + ['\0'];
    forall k | 0 <= k < tp + 1 {
      dst[k] := tmp[..tp + 1][k];
    }
    return true;
  }
}
