/** The lenient dotted-decimal parser of inet_aton.c. Empty fields read as zero,
    missing fields are zeros on the right, and a field is accumulated in an
    unsigned long, so it wraps: `ulong` is one more than the largest value. */
module InetAton {
  import opened CText
  import opened DottedQuad

  /** The widths an unsigned long has. */
  predicate Width(ulong: nat) {
    ulong == 0x1_0000_0000 || ulong == 0x1_0000_0000_0000_0000
  }

  /** The value a field leaves in the accumulator, digit by digit. */
  function Accumulated(f: string, ulong: nat): (acc: nat)
    requires Width(ulong) && AllDec(f)
    ensures acc < ulong
  {
    if f == "" then 0 else Wrap(Accumulated(f[..|f| - 1], ulong) * 10 + DigitOf(f[|f| - 1]), ulong)
  }

  function Wrap(x: nat, ulong: nat): (r: nat)
    requires Width(ulong)
    ensures r < ulong && (x < ulong ==> r == x)
  {
    if ulong == 0x1_0000_0000 then x % 0x1_0000_0000 else x % 0x1_0000_0000_0000_0000
  }

  /** Wrapping at every digit is wrapping once at the end. */
  lemma {:induction false} AccumulatedIsWrapped(f: string, ulong: nat)
    requires Width(ulong) && AllDec(f)
    ensures Accumulated(f, ulong) == Wrap(DecVal(f), ulong)
  {
    if f != "" {
      AccumulatedIsWrapped(f[..|f| - 1], ulong);
      WrapStep(DecVal(f[..|f| - 1]), DigitOf(f[|f| - 1]), ulong);
    }
  }

  lemma WrapStep(x: nat, d: nat, ulong: nat)
    requires Width(ulong)
    ensures Wrap(Wrap(x, ulong) * 10 + d, ulong) == Wrap(x * 10 + d, ulong)
  {
    var r := Wrap(x, ulong);
    var t := r * 10 + d;
    if ulong == 0x1_0000_0000 {
      var q, u := x / 0x1_0000_0000, t / 0x1_0000_0000;
      Remainder32(x * 10 + d, 10 * q + u, t % 0x1_0000_0000);
    } else {
      var q, u := x / 0x1_0000_0000_0000_0000, t / 0x1_0000_0000_0000_0000;
      Remainder64(x * 10 + d, 10 * q + u, t % 0x1_0000_0000_0000_0000);
    }
  }

  lemma Remainder32(x: nat, q: nat, r: nat)
    requires x == 0x1_0000_0000 * q + r && r < 0x1_0000_0000
    ensures x % 0x1_0000_0000 == r
  {
  }

  lemma Remainder64(x: nat, q: nat, r: nat)
    requires x == 0x1_0000_0000_0000_0000 * q + r && r < 0x1_0000_0000_0000_0000
    ensures x % 0x1_0000_0000_0000_0000 == r
  {
  }

  /** A field whose accumulated value passes the 255 test. */
  predicate FieldPasses(f: string, ulong: nat)
    requires Width(ulong)
  {
    AllDec(f) && Accumulated(f, ulong) <= 255
  }

  predicate AllPass(fs: seq<string>, ulong: nat)
    requires Width(ulong)
  {
    forall k :: 0 <= k < |fs| ==> FieldPasses(fs[k], ulong)
  }

  function FieldValues(fs: seq<string>, ulong: nat): (q: seq<Byte>)
    requires Width(ulong) && AllPass(fs, ulong)
    ensures |q| == |fs|
    ensures forall k :: 0 <= k < |fs| ==> q[k] == Accumulated(fs[k], ulong)
  {
    seq(|fs|, k requires 0 <= k < |fs| => Accumulated(fs[k], ulong) as Byte)
  }

  function PadRight(q: seq<Byte>): (a: seq<Byte>)
    requires |q| <= 4
    ensures |a| == 4
  {
    q + Zeros(4 - |q|)
  }

  /** The address inet_aton reads: one to four passing fields. */
  function AtonOf(s: string, ulong: nat): (r: Option<seq<Byte>>)
    requires Width(ulong)
    ensures r.Some? ==> |r.value| == 4
  {
    var fs := Split(s, '.');
    if |fs| <= 4 && AllPass(fs, ulong) then Some(PadRight(FieldValues(fs, ulong))) else None
  }

  /** The number whose bytes, most significant first, are `q`. */
  function BigEndian(q: seq<Byte>): nat {
    if q == [] then 0 else BigEndian(q[..|q| - 1]) * 256 + q[|q| - 1]
  }

  lemma BigEndianSnoc(q: seq<Byte>, b: Byte)
    ensures BigEndian(q + [b]) == BigEndian(q) * 256 + b
  {
    assert (q + [b])[..|q|] == q;
  }

  /** Shifting the short address left is padding it with zero bytes. */
  lemma {:induction false} ShiftPads(q: seq<Byte>)
    requires |q| <= 4
    ensures BigEndian(PadRight(q)) ==
      BigEndian(q) * (if |q| == 4 then 1 else if |q| == 3 then 0x100 else if |q| == 2 then 0x1_0000
                      else if |q| == 1 then 0x100_0000 else 0x1_0000_0000)
    decreases 4 - |q|
  {
    if |q| == 4 {
      assert PadRight(q) == q;
    } else {
      BigEndianSnoc(q, 0);
      assert PadRight(q + [0]) == PadRight(q);
      ShiftPads(q + [0]);
    }
  }

  /** The bytes htonl leaves in memory. */
  function NetworkOrder(v: nat): (a: seq<Byte>)
    ensures |a| == 4
  {
    var w := v / 0x100;
    var x := w / 0x100;
    [x / 0x100 % 0x100, x % 0x100, w % 0x100, v % 0x100]
  }

  lemma NetworkOrderOf(a: seq<Byte>)
    requires |a| == 4
    ensures NetworkOrder(BigEndian(a)) == a
  {
    assert BigEndian([]) == 0;
    hide BigEndian, NetworkOrder;
    assert a == [] + [a[0]] + [a[1]] + [a[2]] + [a[3]];
    BigEndianSnoc([], a[0]);
    BigEndianSnoc([] + [a[0]], a[1]);
    BigEndianSnoc([] + [a[0]] + [a[1]], a[2]);
    BigEndianSnoc([] + [a[0]] + [a[1]] + [a[2]], a[3]);
    BytesOf(a[0], a[1], a[2], a[3]);
  }

  lemma BytesOf(a: int, b: int, c: int, d: int)
    requires 0 <= a < 256 && 0 <= b < 256 && 0 <= c < 256 && 0 <= d < 256
    ensures NetworkOrder(((a * 256 + b) * 256 + c) * 256 + d) == [a, b, c, d]
  {
    var w := (a * 256 + b) * 256 + c;
    assert (w * 256 + d) / 256 == w && (w * 256 + d) % 256 == d;
    var x := a * 256 + b;
    assert (x * 256 + c) / 256 == x && (x * 256 + c) % 256 == c;
  }

  lemma DoomedAton(s: string, t: string, ulong: nat)
    requires Width(ulong)
    requires var fs := Split(s, '.');
      |fs| > 4 || !AllDec(fs[|fs| - 1]) || !AllPass(fs[..|fs| - 1], ulong)
    ensures AtonOf(s + t, ulong) == None
  {
    var fs, gs := Split(s, '.'), Split(s + t, '.');
    SplitExtends(s, t, '.');
    var k := |fs| - 1;
    if !AllDec(fs[k]) {
      var j :| 0 <= j < |fs[k]| && !IsDec(fs[k][j]);
      assert fs[k][j] == gs[k][j];
      assert !FieldPasses(gs[k], ulong);
    } else if !AllPass(fs[..k], ulong) {
      var j :| 0 <= j < k && !FieldPasses(fs[..k][j], ulong);
      assert fs[..k][j] == gs[..k][j] == gs[j];
    }
  }

  /** The finished fields of cp[..i] and the open one, as the parser holds them. */
  ghost predicate Accumulating(cp: string, i: nat, ulong: nat, dots: nat, acc: nat, addr: nat)
    requires Width(ulong) && i <= |cp|
  {
    var fs := Split(cp[..i], '.');
    && |fs| == dots + 1 <= 4
    && AllPass(fs[..dots], ulong)
    && addr == BigEndian(FieldValues(fs[..dots], ulong))
    && AllDec(fs[dots]) && acc == Accumulated(fs[dots], ulong)
  }

  lemma AccumulateDigit(cp: string, i: nat, ulong: nat, dots: nat, acc: nat, addr: nat)
    requires Width(ulong) && i < |cp| && Accumulating(cp, i, ulong, dots, acc, addr) && IsDec(cp[i])
    ensures Accumulating(cp, i + 1, ulong, dots, Wrap(acc * 10 + DigitOf(cp[i]), ulong), addr)
  {
    hide Split, Accumulated, AllPass, BigEndian, FieldValues, Wrap, AllDec, IsDec, DigitOf;
    var fs, c := Split(cp[..i], '.'), cp[i];
    assert cp[..i + 1] == cp[..i] + [c];
    SplitStep(cp[..i], c, '.');
    assert c != '.' by {
      DotIsNoDigit(c);
    }
    DigitJoins(fs, Split(cp[..i + 1], '.'), c, ulong);
  }

  lemma DotIsNoDigit(c: char)
    requires IsDec(c)
    ensures c != '.'
  {
  }

  /** A digit makes the open field longer and leaves the others alone. */
  lemma DigitJoins(fs: seq<string>, gs: seq<string>, c: char, ulong: nat)
    requires Width(ulong) && fs != [] && AllDec(fs[|fs| - 1]) && IsDec(c)
    requires gs == fs[..|fs| - 1] + [fs[|fs| - 1] + [c]]
    ensures var dots := |fs| - 1;
      && |gs| == |fs| && gs[..dots] == fs[..dots] && AllDec(gs[dots])
      && Accumulated(gs[dots], ulong) == Wrap(Accumulated(fs[dots], ulong) * 10 + DigitOf(c), ulong)
  {
    hide Accumulated, Wrap, AllDec, IsDec, DigitOf;
    AccumulatedMore(fs[|fs| - 1], c, ulong);
  }

  lemma AccumulatedMore(f: string, c: char, ulong: nat)
    requires Width(ulong) && AllDec(f) && IsDec(c)
    ensures AllDec(f + [c]) && Accumulated(f + [c], ulong) == Wrap(Accumulated(f, ulong) * 10 + DigitOf(c), ulong)
  {
    assert (f + [c])[..|f|] == f;
  }

  lemma FinishField(fs: seq<string>, f: string, ulong: nat)
    requires Width(ulong) && AllPass(fs, ulong) && FieldPasses(f, ulong)
    ensures AllPass(fs + [f], ulong)
    ensures BigEndian(FieldValues(fs + [f], ulong)) == BigEndian(FieldValues(fs, ulong)) * 256 + Accumulated(f, ulong)
  {
    assert FieldValues(fs + [f], ulong) == FieldValues(fs, ulong) + [Accumulated(f, ulong) as Byte];
    BigEndianSnoc(FieldValues(fs, ulong), Accumulated(f, ulong));
  }

  lemma AccumulateDot(cp: string, i: nat, ulong: nat, dots: nat, acc: nat, addr: nat)
    requires Width(ulong) && i < |cp| && Accumulating(cp, i, ulong, dots, acc, addr) && cp[i] == '.'
    ensures if dots == 3 || acc > 255 then AtonOf(cp, ulong) == None
            else Accumulating(cp, i + 1, ulong, dots + 1, 0, addr * 256 + acc)
  {
    assert cp[..i + 1][..i] == cp[..i] && cp[..i + 1] + cp[i + 1..] == cp;
    var fs, gs := Split(cp[..i], '.'), Split(cp[..i + 1], '.');
    assert gs == fs + [""] && gs[..|gs| - 1] == fs && fs == fs[..dots] + [fs[dots]];
    if dots == 3 || acc > 255 {
      if acc > 255 {
        assert !FieldPasses(fs[dots], ulong);
      }
      DoomedAton(cp[..i + 1], cp[i + 1..], ulong);
    } else {
      FinishField(fs[..dots], fs[dots], ulong);
    }
  }

  lemma AccumulateOther(cp: string, i: nat, ulong: nat, dots: nat, acc: nat, addr: nat)
    requires Width(ulong) && i < |cp| && Accumulating(cp, i, ulong, dots, acc, addr)
    requires cp[i] != '.' && !IsDec(cp[i])
    ensures AtonOf(cp, ulong) == None
  {
    assert cp[..i + 1][..i] == cp[..i] && cp[..i + 1] + cp[i + 1..] == cp;
    var f := Split(cp[..i], '.')[dots];
    assert (f + [cp[i]])[|f|] == cp[i];
    DoomedAton(cp[..i + 1], cp[i + 1..], ulong);
  }

  lemma AccumulateEnd(cp: string, ulong: nat, dots: nat, acc: nat, addr: nat)
    requires Width(ulong) && Accumulating(cp, |cp|, ulong, dots, acc, addr)
    ensures if acc > 255 then AtonOf(cp, ulong) == None
            else (var fs := Split(cp, '.');
              |fs| == dots + 1 && AllPass(fs, ulong) && addr * 256 + acc == BigEndian(FieldValues(fs, ulong)))
  {
    assert cp[..|cp|] == cp;
    var fs := Split(cp, '.');
    assert fs == fs[..dots] + [fs[dots]];
    if acc > 255 {
      assert !FieldPasses(fs[dots], ulong);
    } else {
      FinishField(fs[..dots], fs[dots], ulong);
    }
  }

  lemma AccumulateStart(cp: string, ulong: nat)
    requires Width(ulong)
    ensures Accumulating(cp, 0, ulong, 0, 0, 0)
  {
  }

  /** The scanning loop: the number of dots and the octets read, packed. */
  method ScanAton(cp: string, ulong: nat) returns (ok: bool, dots: nat, addr: nat)
    requires Width(ulong)
    ensures ok <==> AtonOf(cp, ulong).Some?
    ensures ok ==> |Split(cp, '.')| == dots + 1 && AllPass(Split(cp, '.'), ulong)
    ensures ok ==> addr == BigEndian(FieldValues(Split(cp, '.'), ulong))
  {
    var acc: nat := 0;
    dots, addr := 0, 0;
    var i := 0;
    AccumulateStart(cp, ulong);
    hide Accumulating, AtonOf, Split, AllPass, BigEndian, FieldValues, Wrap;
    while i < |cp|
      invariant 0 <= i <= |cp|
      invariant Accumulating(cp, i, ulong, dots, acc, addr)
    {
      var cc := cp[i];
      if IsDec(cc) {
        AccumulateDigit(cp, i, ulong, dots, acc, addr);
        acc := Wrap(acc * 10 + DigitOf(cc), ulong);
      } else if cc == '.' {
        AccumulateDot(cp, i, ulong, dots, acc, addr);
        dots := dots + 1;
        if dots > 3 || acc > 255 {
          return false, dots, addr;
        }
        addr := addr * 256 + acc;
        acc := 0;
      } else {
        AccumulateOther(cp, i, ulong, dots, acc, addr);
        return false, dots, addr;
      }
      i := i + 1;
    }
    // the terminator closes the last field
    AccumulateEnd(cp, ulong, dots, acc, addr);
    ok := acc <= 255;
    addr := addr * 256 + acc;
  }

  /** inet_aton. The result is stored only when the caller passes a place. */
  method Aton(cp: string, ap: array?<Byte>, ulong: nat) returns (ok: bool)
    requires Width(ulong)
    requires ap != null ==> ap.Length == 4
    modifies if ap == null then {} else {ap}
    ensures ok <==> AtonOf(cp, ulong).Some?
    ensures ap != null ==> ap[..] == if ok then AtonOf(cp, ulong).value else old(ap[..])
  {
    var dots, addr;
    ok, dots, addr := ScanAton(cp, ulong);
    if !ok {
      return;
    }
    ghost var q := FieldValues(Split(cp, '.'), ulong);
    ShiftPads(q);
    NetworkOrderOf(PadRight(q));
    if dots == 2 {
      addr := addr * 0x100;
    } else if dots == 1 {
      addr := addr * 0x1_0000;
    } else if dots == 0 {
      addr := addr * 0x100_0000;
    }
    if ap != null {
      var bytes := NetworkOrder(addr);
      forall k | 0 <= k < 4 {
        ap[k] := bytes[k];
      }
      assert ap[..] == bytes;
    }
  }

  lemma OctetPasses(f: string, ulong: nat)
    requires Width(ulong)
    ensures IsOctet(f) ==> FieldPasses(f, ulong) && Accumulated(f, ulong) == DecVal(f) < ulong
    ensures IsOctet(f) <==> FieldPasses(f, ulong) && f != "" && DecVal(f) < ulong
  {
    if AllDec(f) {
      AccumulatedIsWrapped(f, ulong);
    }
  }

  lemma OctetsPass(fs: seq<string>, ulong: nat)
    requires Width(ulong)
    ensures (forall k :: 0 <= k < |fs| ==> IsOctet(fs[k])) <==>
      && AllPass(fs, ulong)
      && (forall k :: 0 <= k < |fs| ==> fs[k] != "")
      && (forall k :: 0 <= k < |fs| ==> AllDec(fs[k]) && DecVal(fs[k]) < ulong)
    ensures (forall k :: 0 <= k < |fs| ==> IsOctet(fs[k])) ==>
      forall k :: 0 <= k < |fs| ==> Accumulated(fs[k], ulong) == DecVal(fs[k])
  {
    forall k | 0 <= k < |fs|
      ensures IsOctet(fs[k]) ==> FieldPasses(fs[k], ulong) && Accumulated(fs[k], ulong) == DecVal(fs[k]) < ulong
      ensures IsOctet(fs[k]) <==> FieldPasses(fs[k], ulong) && fs[k] != "" && DecVal(fs[k]) < ulong
    {
      OctetPasses(fs[k], ulong);
    }
  }

  /** The two parsers agree wherever the strict one accepts, and the strict one
      accepts exactly when the lenient one does on four fields none of which
      is empty or wraps. */
  lemma StrictIsAtonOnFourFields(s: string, ulong: nat)
    requires Width(ulong)
    ensures QuadOf(s).Some? ==> AtonOf(s, ulong) == QuadOf(s)
    ensures QuadOf(s).Some? <==>
      (var fs := Split(s, '.');
      && AtonOf(s, ulong).Some? && |fs| == 4
      && forall k :: 0 <= k < 4 ==> fs[k] != "" && AllDec(fs[k]) && DecVal(fs[k]) < ulong)
  {
    var fs := Split(s, '.');
    OctetsPass(fs, ulong);
    if QuadOf(s).Some? {
      assert forall k :: 0 <= k < |fs| ==> IsOctet(fs[k]);
      assert PadRight(FieldValues(fs, ulong)) == QuadOf(s).value;
    } else if |fs| == 4 {
      assert exists k :: 0 <= k < 4 && !IsOctet(fs[k]);
    }
  }
}
