/** The textual form of an IPv6 address, section 2.2 of RFC 4291: groups of hex
    digits between colons, at most one "::" standing for zero groups, and an
    optional dotted quad as the last field. */
module Inet6Text {
  import opened CText
  import opened DottedQuad

  /** A group of hex digits whose value fits 16 bits; leading zeros are free. */
  predicate IsGroup(f: string) {
    f != "" && AllHex(f) && HexVal(f) <= 0xffff
  }

  predicate IsField(f: string) {
    IsGroup(f) || QuadOf(f).Some?
  }

  function WordBytes(v: nat): (w: seq<Byte>)
    requires v <= 0xffff
    ensures |w| == 2
  {
    [v / 256, v % 256]
  }

  /** The two or four bytes a field denotes. */
  function FieldBytes(f: string): seq<Byte>
    requires IsField(f)
  {
    if IsGroup(f) then WordBytes(HexVal(f)) else QuadOf(f).value
  }

  predicate Groups(fs: seq<string>) {
    forall i :: 0 <= i < |fs| ==> IsGroup(fs[i])
  }

  /** Groups, the last of which may be a dotted quad instead. */
  predicate Fields(fs: seq<string>) {
    forall i :: 0 <= i < |fs| ==> if i < |fs| - 1 then IsGroup(fs[i]) else IsField(fs[i])
  }

  function Bytes(fs: seq<string>): seq<Byte>
    requires Fields(fs)
  {
    if fs == [] then [] else FieldBytes(fs[0]) + Bytes(fs[1..])
  }

  datatype Addr6Text =
    | Plain(fields: seq<string>)
    | Gapped(before: seq<string>, after: seq<string>)

  function Show(t: Addr6Text): string {
    match t
    case Plain(fs) => Join(fs, ':')
    case Gapped(before, after) => Join(before, ':') + "::" + Join(after, ':')
  }

  predicate WellFormed(t: Addr6Text) {
    match t
    case Plain(fs) => Fields(fs)
    case Gapped(before, after) => Groups(before) && Fields(after)
  }

  /** The bytes that are written out, on both sides of the gap. */
  function Written(t: Addr6Text): seq<Byte>
    requires WellFormed(t)
  {
    match t
    case Plain(fs) => Bytes(fs)
    case Gapped(before, after) => Bytes(before) + Bytes(after)
  }

  /** The address a text denotes: the gap is as many zero bytes as are missing. */
  function Denote(t: Addr6Text): seq<Byte>
    requires WellFormed(t)
  {
    match t
    case Plain(fs) => Bytes(fs)
    case Gapped(before, after) =>
      var missing := 16 - |Bytes(before)| - |Bytes(after)|;
      Bytes(before) + Zeros(if missing < 0 then 0 else missing) + Bytes(after)
  }

  predicate ShortGroups(fs: seq<string>) {
    forall i :: 0 <= i < |fs| && IsGroup(fs[i]) ==> |fs[i]| <= 4
  }

  /** The texts the standard allows: groups of one to four digits, and a "::"
      that stands for at least one group of zeros. */
  predicate Standard(t: Addr6Text) {
    && WellFormed(t)
    && match t
       case Plain(fs) => ShortGroups(fs) && |Written(t)| == 16
       case Gapped(before, after) => ShortGroups(before) && ShortGroups(after) && |Written(t)| <= 14
  }

  lemma {:induction false} BytesConcat(fs: seq<string>, gs: seq<string>)
    requires Groups(fs) && Fields(gs)
    ensures Fields(fs + gs) && Bytes(fs + gs) == Bytes(fs) + Bytes(gs)
  {
    hide IsGroup, QuadOf, FieldBytes;
    if fs == [] {
      assert fs + gs == gs;
    } else {
      BytesConcat(fs[1..], gs);
      assert (fs + gs)[1..] == fs[1..] + gs;
      assert FieldBytes(fs[0]) + Bytes(fs[1..]) + Bytes(gs) == FieldBytes(fs[0]) + (Bytes(fs[1..]) + Bytes(gs));
    }
  }

  /** Every field is two or four bytes, so what is written has even length. */
  lemma {:induction false} BytesEven(fs: seq<string>)
    requires Fields(fs)
    ensures |Bytes(fs)| % 2 == 0
  {
    hide QuadOf, HexVal;
    if fs != [] {
      BytesEven(fs[1..]);
    }
  }

  lemma {:induction false} GroupsAreTwoBytes(fs: seq<string>)
    requires Groups(fs)
    ensures |Bytes(fs)| == 2 * |fs|
  {
    if fs != [] {
      GroupsAreTwoBytes(fs[1..]);
    }
  }

  lemma BytesOne(f: string)
    requires IsField(f)
    ensures Fields([f]) && Bytes([f]) == FieldBytes(f)
  {
    assert [f][1..] == [];
  }

  /** When all fields are digits, the text is digits and dots. */
  lemma {:induction false} DigitsAndDots(s: string)
    requires forall k :: 0 <= k < |Split(s, '.')| ==> AllDec(Split(s, '.')[k])
    ensures forall i :: 0 <= i < |s| ==> s[i] == '.' || IsDec(s[i])
  {
    if s != "" {
      var r, c := s[..|s| - 1], s[|s| - 1];
      var fs, gs := Split(r, '.'), Split(s, '.');
      assert s == r + [c];
      SplitStep(r, c, '.');
      hide Split;
      if c != '.' {
        var f := fs[|fs| - 1];
        assert gs[|fs| - 1] == f + [c] && (f + [c])[|f|] == c;
        assert forall i :: 0 <= i < |f| ==> f[i] == (f + [c])[i];
      }
      assert forall k :: 0 <= k < |fs| - 1 ==> fs[k] == gs[k];
      assert c == '.' ==> gs[|fs| - 1] == fs[|fs| - 1];
      DigitsAndDots(r);
    }
  }

  /** A dotted quad starts with an octet and its dot, and holds no colon. */
  lemma QuadShape(q: string)
    requires QuadOf(q).Some?
    ensures var f := Split(q, '.')[0];
      IsOctet(f) && f + "." <= q && IsGroup(f)
    ensures !AllHex(q) && ':' !in q
  {
    var fs := Split(q, '.');
    JoinSplit(q, '.');
    assert q == fs[0] + "." + Join(fs[1..], '.');
    DecReadAsHex(fs[0]);
    assert !IsHex(q[|fs[0]|]);
    assert IsOctet(fs[0]) && IsOctet(fs[1]) && IsOctet(fs[2]) && IsOctet(fs[3]);
    DigitsAndDots(q);
  }

  lemma ShowGapFirst(fs: seq<string>)
    ensures Show(Gapped([], fs)) == "::" + Join(fs, ':')
    ensures Show(Gapped([], fs))[1..] == ":" + Join(fs, ':')
  {
  }
}
