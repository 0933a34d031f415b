/** Which texts are read as a number, a dotted quad or a short address, said with
    what is printed for them. */
module Numerals {
  import opened CText
  import opened DottedQuad
  import opened InetAton

  // ----- decimal

  lemma {:induction false} PadKeepsDecimal(n: nat, t: string)
    requires AllDec(t)
    ensures AllDec(ZeroPad(n) + t) && DecVal(ZeroPad(n) + t) == DecVal(t)
    decreases |t|, n
  {
    var p := ZeroPad(n) + t;
    if t != "" {
      assert p[..|p| - 1] == ZeroPad(n) + t[..|t| - 1];
      PadKeepsDecimal(n, t[..|t| - 1]);
    } else if n > 0 {
      assert p[..|p| - 1] == ZeroPad(n - 1) + "";
      PadKeepsDecimal(n - 1, "");
    }
  }

  lemma OneMoreZero(n: nat, t: string)
    ensures ZeroPad(n) + "0" + t == ZeroPad(n + 1) + t
  {
  }

  lemma NoZeros(t: string)
    ensures ZeroPad(0) + t == t
  {
  }

  lemma LastDecimal(front: string, c: char)
    requires AllDec(front + [c])
    ensures AllDec(front) && IsDec(c) && DecVal(front + [c]) == DecVal(front) * 10 + DigitOf(c)
    ensures front == "" ==> DecVal(front) == 0
  {
    assert (front + [c])[..|front|] == front && (front + [c])[|front|] == c;
    assert forall i :: 0 <= i < |front| ==> (front + [c])[i] == front[i];
  }

  lemma LastPrinted(v: nat, c: char)
    requires IsDec(c)
    ensures DecText(v * 10 + DigitOf(c)) == if v == 0 then [c] else DecText(v) + [c]
  {
    assert [DigitChar(DigitOf(c))] == [c];
    assert v > 0 ==> (v * 10 + DigitOf(c)) / 10 == v && (v * 10 + DigitOf(c)) % 10 == DigitOf(c);
  }

  lemma ZeroPrinted()
    ensures DecText(0) == "0" && HexText(0) == "0"
  {
  }

  /** Every digit string is what is printed for its value, after some zeros. */
  lemma {:induction false} ZerosThenPrinted(f: string) returns (n: nat)
    requires f != "" && AllDec(f)
    ensures f == ZeroPad(n) + DecText(DecVal(f))
    decreases |f|
  {
    hide *;
    var front, c := f[..|f| - 1], f[|f| - 1];
    assert f == front + [c];
    LastDecimal(front, c);
    var v := DecVal(front);
    LastPrinted(v, c);
    if front == "" {
      NoZeros([c]);
      n := 0;
    } else {
      n := ZerosThenPrinted(front);
      if v == 0 {
        ZeroPrinted();
        OneMoreZero(n, [c]);
        n := n + 1;
      }
    }
  }

  /** So a digit string has the value `v` exactly when it is zeros and then what
      is printed for `v`. */
  lemma DecimalExactly(f: string, v: nat)
    ensures f != "" && AllDec(f) && DecVal(f) == v <==> exists n :: f == ZeroPad(n) + DecText(v)
  {
    if f != "" && AllDec(f) && DecVal(f) == v {
      var n := ZerosThenPrinted(f);
    }
    forall n | f == ZeroPad(n) + DecText(v) ensures f != "" && AllDec(f) && DecVal(f) == v {
      DecTextValue(v);
      PadKeepsDecimal(n, DecText(v));
    }
  }

  // ----- hexadecimal

  function LowerChar(c: char): char {
    if 'A' <= c <= 'F' then c - 'A' + 'a' else c
  }

  function Lower(f: string): (g: string)
    ensures |g| == |f| && forall i :: 0 <= i < |f| ==> g[i] == LowerChar(f[i])
  {
    seq(|f|, i requires 0 <= i < |f| => LowerChar(f[i]))
  }

  lemma DigitLower(c: char)
    requires IsHex(c)
    ensures DigitChar(DigitOf(c)) == LowerChar(c)
  {
  }

  lemma {:induction false} LowerKeepsValue(f: string)
    requires AllHex(f)
    ensures AllHex(Lower(f)) && HexVal(Lower(f)) == HexVal(f)
  {
    if f != "" {
      LowerKeepsValue(f[..|f| - 1]);
      assert Lower(f)[..|f| - 1] == Lower(f[..|f| - 1]);
    }
  }

  lemma LastHex(front: string, c: char)
    requires AllHex(front + [c])
    ensures AllHex(front) && IsHex(c) && HexVal(front + [c]) == HexVal(front) * 16 + DigitOf(c)
    ensures front == "" ==> HexVal(front) == 0
    ensures Lower(front + [c]) == Lower(front) + [LowerChar(c)]
  {
    assert (front + [c])[..|front|] == front && (front + [c])[|front|] == c;
    assert forall i :: 0 <= i < |front| ==> (front + [c])[i] == front[i];
  }

  lemma LastHexPrinted(v: nat, c: char)
    requires IsHex(c)
    ensures HexText(v * 16 + DigitOf(c)) == if v == 0 then [LowerChar(c)] else HexText(v) + [LowerChar(c)]
  {
    DigitLower(c);
    assert v > 0 ==> (v * 16 + DigitOf(c)) / 16 == v && (v * 16 + DigitOf(c)) % 16 == DigitOf(c);
  }

  lemma {:induction false} ZerosThenHex(f: string) returns (n: nat)
    requires f != "" && AllHex(f)
    ensures Lower(f) == ZeroPad(n) + HexText(HexVal(f))
    decreases |f|
  {
    hide *;
    var front, c := f[..|f| - 1], f[|f| - 1];
    assert f == front + [c];
    LastHex(front, c);
    var v := HexVal(front);
    LastHexPrinted(v, c);
    if front == "" {
      LowerOne(c);
      NoZeros([LowerChar(c)]);
      n := 0;
    } else {
      n := ZerosThenHex(front);
      if v == 0 {
        ZeroPrinted();
        OneMoreZero(n, [LowerChar(c)]);
        n := n + 1;
      }
    }
  }

  lemma LowerOne(c: char)
    ensures Lower("" + [c]) == [LowerChar(c)]
  {
  }

  /** A hexadecimal field has the value `v` exactly when in lower case it is zeros
      and then what is printed for `v`. */
  lemma HexExactly(f: string, v: nat)
    ensures f != "" && AllHex(f) && HexVal(f) == v <==> exists n :: Lower(f) == ZeroPad(n) + HexText(v)
  {
    if f != "" && AllHex(f) && HexVal(f) == v {
      var n := ZerosThenHex(f);
    }
    forall n | Lower(f) == ZeroPad(n) + HexText(v) ensures f != "" && AllHex(f) && HexVal(f) == v {
      HexTextValue(v);
      PadKeepsValue(n, HexText(v));
      assert AllHex(Lower(f));
      assert forall i :: 0 <= i < |f| ==> IsHex(Lower(f)[i]);
      LowerKeepsValue(f);
    }
  }

  // ----- dotted quads

  /** The printed quad with zeros in front of each number. */
  function PaddedQuad(zs: seq<nat>, a: seq<Byte>): string
    requires |zs| == 4 && |a| == 4
  {
    ZeroPad(zs[0]) + DecText(a[0]) + "." + (ZeroPad(zs[1]) + DecText(a[1])) + "."
    + (ZeroPad(zs[2]) + DecText(a[2])) + "." + (ZeroPad(zs[3]) + DecText(a[3]))
  }

  lemma PaddedOctet(n: nat, b: Byte)
    ensures var f := ZeroPad(n) + DecText(b);
      IsOctet(f) && DecVal(f) == b && Free(f, '.')
  {
    DecimalExactly(ZeroPad(n) + DecText(b), b);
  }

  lemma PaddedIsRead(zs: seq<nat>, a: seq<Byte>)
    requires |zs| == 4 && |a| == 4
    ensures QuadOf(PaddedQuad(zs, a)) == Some(a)
  {
    hide ZeroPad, DecText, Split, IsOctet, DecVal, Free;
    PaddedOctet(zs[0], a[0]);
    PaddedOctet(zs[1], a[1]);
    PaddedOctet(zs[2], a[2]);
    PaddedOctet(zs[3], a[3]);
    FourFields(ZeroPad(zs[0]) + DecText(a[0]), ZeroPad(zs[1]) + DecText(a[1]), ZeroPad(zs[2]) + DecText(a[2]),
               ZeroPad(zs[3]) + DecText(a[3]));
    assert a == [a[0], a[1], a[2], a[3]];
  }

  lemma JoinFour(fs: seq<string>)
    requires |fs| == 4
    ensures Join(fs, '.') == fs[0] + "." + fs[1] + "." + fs[2] + "." + fs[3]
  {
    assert fs[1..][1..] == fs[2..] && fs[2..][1..] == [fs[3]];
    assert Join(fs[2..], '.') == fs[2] + "." + fs[3];
    assert Join(fs[1..], '.') == fs[1] + "." + (fs[2] + "." + fs[3]);
  }

  lemma ReadIsPadded(s: string) returns (zs: seq<nat>)
    requires QuadOf(s).Some?
    ensures |zs| == 4 && s == PaddedQuad(zs, QuadOf(s).value)
  {
    var fs := Split(s, '.');
    JoinSplit(s, '.');
    JoinFour(fs);
    hide Join, Split, DecText, ZeroPad, DecVal;
    var k := ZerosThenPrinted(fs[0]);
    var l := ZerosThenPrinted(fs[1]);
    var m := ZerosThenPrinted(fs[2]);
    var n := ZerosThenPrinted(fs[3]);
    zs := [k, l, m, n];
  }

  /** The strict parser reads exactly the printed quads, with any zeros in front of
      a number. */
  lemma QuadExactly(s: string, a: seq<Byte>)
    requires |a| == 4
    ensures QuadOf(s) == Some(a) <==> exists zs: seq<nat> :: |zs| == 4 && s == PaddedQuad(zs, a)
  {
    hide QuadOf, PaddedQuad;
    if QuadOf(s) == Some(a) {
      var zs := ReadIsPadded(s);
    }
    forall zs: seq<nat> | |zs| == 4 && s == PaddedQuad(zs, a) ensures QuadOf(s) == Some(a) {
      PaddedIsRead(zs, a);
    }
  }

  // ----- short addresses

  /** A field that writes one byte of a lenient address: the number, with any zeros
      in front, or nothing at all for a zero. */
  ghost predicate WritesByte(f: string, b: Byte) {
    (f == "" && b == 0) || exists n :: f == ZeroPad(n) + DecText(b)
  }

  lemma WrittenPasses(f: string, b: Byte, ulong: nat)
    requires Width(ulong) && WritesByte(f, b)
    ensures FieldPasses(f, ulong) && Accumulated(f, ulong) == b && Free(f, '.')
  {
    if f != "" {
      DecimalExactly(f, b);
      hide WritesByte, DecVal;
      AccumulatedIsWrapped(f, ulong);
    }
  }

  /** One to four such fields are read as their bytes, and zeros after them. */
  lemma ShortAddress(fs: seq<string>, q: seq<Byte>, ulong: nat)
    requires Width(ulong) && 1 <= |fs| == |q| <= 4 && forall k :: 0 <= k < |fs| ==> WritesByte(fs[k], q[k])
    ensures AtonOf(Join(fs, '.'), ulong) == Some(q + Zeros(4 - |q|))
  {
    hide WritesByte, Join, Split, Free;
    forall k | 0 <= k < |fs|
      ensures FieldPasses(fs[k], ulong) && Accumulated(fs[k], ulong) == q[k] && Free(fs[k], '.')
    {
      WrittenPasses(fs[k], q[k], ulong);
    }
    hide FieldPasses, Accumulated;
    SplitJoin(fs, '.');
    assert FieldValues(fs, ulong) == q;
  }
}
