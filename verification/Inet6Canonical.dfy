/** The text of inet_ntop6 told from the bytes of the address, as sections 4 and 5
    of RFC 5952 recommend it. */
module Inet6Canonical {
  import opened CText
  import opened DottedQuad
  import opened Inet6Text
  import opened Inet6Parse
  import opened Inet6Print

  /** Sections 4.1 and 4.3: lower case, and no leading zero. */
  predicate Shortest(f: string, v: nat) {
    && f != "" && (|f| > 1 ==> f[0] != '0')
    && (forall i :: 0 <= i < |f| ==> '0' <= f[i] <= '9' || 'a' <= f[i] <= 'f')
    && HexVal(f) == v
  }

  lemma {:induction false} HexTextIsShortest(n: nat)
    ensures Shortest(HexText(n), n) && (n > 0 ==> HexText(n)[0] != '0')
  {
    HexTextValue(n);
    if n >= 16 {
      HexTextIsShortest(n / 16);
    }
  }

  /** There is one such numeral. */
  lemma {:induction false} ShortestIsHexText(f: string, v: nat)
    requires Shortest(f, v)
    ensures f == HexText(v)
    decreases |f|
  {
    var g, c := f[..|f| - 1], f[|f| - 1];
    assert f == g + [c] && DigitChar(DigitOf(c)) == c;
    assert HexVal(f) == HexVal(g) * 16 + DigitOf(c) && HexVal("") == 0;
    hide HexVal;
    if g != "" {
      assert g[0] == f[0];
      LeadingDigitCounts(g);
      ShortestIsHexText(g, HexVal(g));
      assert v / 16 == HexVal(g) && v % 16 == DigitOf(c);
    }
  }

  lemma {:induction false} LeadingDigitCounts(g: string)
    requires AllHex(g) && g != "" && g[0] != '0'
    ensures HexVal(g) > 0
  {
    if |g| == 1 {
      assert g[..0] == "";
    } else {
      LeadingDigitCounts(g[..|g| - 1]);
    }
  }

  /** Words `lo` to `hi` of the address are zero. */
  predicate ZeroWords(a: Addr6, lo: nat, hi: nat) {
    lo <= hi <= 8 && forall k :: 2 * lo <= k < 2 * hi ==> a[k] == 0
  }

  predicate TwoZeroWords(a: Addr6, lo: nat) {
    ZeroWords(a, lo, lo + 2)
  }

  lemma ZeroWordsAreRun(a: Addr6, lo: nat, hi: nat)
    requires lo <= hi
    ensures ZeroWords(a, lo, hi) <==> IsZeroRun(WordsOf(a), Run(lo, hi - lo))
  {
    var ws := WordsOf(a);
    if ZeroWords(a, lo, hi) {
      forall i | lo <= i < hi ensures ws[i] == 0 {
        assert a[2 * i] == 0 && a[2 * i + 1] == 0;
      }
    }
    if IsZeroRun(ws, Run(lo, hi - lo)) {
      forall k | 2 * lo <= k < 2 * hi ensures a[k] == 0 {
        assert ws[k / 2] == WordAt(a, k / 2) == 0;
      }
    }
  }

  /** Words `lo` to `hi` of the address, each as its shortest numeral. */
  predicate GroupsOf(fs: seq<string>, a: Addr6, lo: nat, hi: nat)
    requires lo <= hi <= 8
  {
    && |fs| == hi - lo
    && forall i :: 0 <= i < |fs| ==>
      Shortest(fs[i], 256 * (a[2 * (lo + i)] as int) + a[2 * (lo + i) + 1] as int)
  }

  lemma StretchIsGroups(a: Addr6, lo: nat, hi: nat)
    requires lo <= hi <= 8
    ensures GroupsOf(HexFields(WordsOf(a)[lo..hi]), a, lo, hi)
  {
    var ws, fs := WordsOf(a), HexFields(WordsOf(a)[lo..hi]);
    forall i | 0 <= i < |fs|
      ensures Shortest(fs[i], 256 * (a[2 * (lo + i)] as int) + a[2 * (lo + i) + 1] as int)
    {
      assert ws[lo..hi][i] == ws[lo + i] == WordAt(a, lo + i);
      HexTextIsShortest(ws[lo + i]);
    }
  }

  /** An IPv4-mapped address. */
  predicate Mapped(a: Addr6) {
    a[..12] == Zeros(10) + [0xff, 0xff]
  }

  /** An IPv4-compatible address, of more than 16 bits. */
  predicate Compatible(a: Addr6) {
    a[..12] == Zeros(12) && (a[12] != 0 || a[13] != 0)
  }

  lemma CompatibleRun(a: Addr6)
    ensures Compatible(a) <==> ChosenRun(WordsOf(a)) == Some(Run(0, 6))
  {
    var ws := WordsOf(a);
    ZeroWordsAreRun(a, 0, 6);
    ZeroWordsAreRun(a, 0, 7);
    assert ZeroWords(a, 0, 6) ==> a[..12] == Zeros(12);
    assert ws[6] == WordAt(a, 6) && (ZeroWords(a, 0, 6) && ws[6] == 0 ==> ZeroWords(a, 0, 7));
    if Compatible(a) {
      assert forall k :: 0 <= k < 12 ==> a[k] == a[..12][k];
      assert forall r :: IsZeroRun(ws, r) ==> r.base + r.len <= 6 || r.base > 6 || r.len == 0;
      ChosenIsUnique(ws, ChosenRun(ws), Some(Run(0, 6)));
    }
  }

  lemma MappedRun(a: Addr6)
    ensures Mapped(a) <==> ChosenRun(WordsOf(a)) == Some(Run(0, 5)) && WordsOf(a)[5] == 0xffff
  {
    var ws := WordsOf(a);
    ZeroWordsAreRun(a, 0, 5);
    assert ws[5] == WordAt(a, 5) && (ws[5] == 0xffff <==> a[10] == 0xff && a[11] == 0xff);
    assert ZeroWords(a, 0, 5) && ws[5] == 0xffff ==> a[..12] == Zeros(10) + [0xff, 0xff];
    if Mapped(a) {
      assert forall k :: 0 <= k < 12 ==> a[k] == a[..12][k];
      assert forall r :: IsZeroRun(ws, r) ==> r.base + r.len <= 5 || r.base > 5 || r.len == 0;
      ChosenIsUnique(ws, ChosenRun(ws), Some(Run(0, 5)));
    }
  }

  lemma DottedForms(a: Addr6)
    ensures Encapsulates(WordsOf(a), ChosenRun(WordsOf(a))) <==> Mapped(a) || Compatible(a)
  {
    CompatibleRun(a);
    MappedRun(a);
    hide Mapped, Compatible, ChosenRun, WordsOf;
    var best := ChosenRun(WordsOf(a));
    if best.Some? {
      assert best.value == Run(best.value.base, best.value.len);
    }
  }

  /** An IPv4-mapped address is "::ffff:" and its dotted quad. */
  lemma MappedText(a: Addr6)
    requires Mapped(a)
    ensures PrintAddr6(a) == "::ffff:" + QuadText(a[12..])
  {
    MappedRun(a);
    var q, ws := QuadText(a[12..]), WordsOf(a);
    TextWithRun(a, Run(0, 5));
    AllOnes();
    assert ws[5..6] == [0xffff];
    assert HexFields([0xffff]) == ["ffff"];
    ShowGapFirst(["ffff"] + [q]);
    JoinSnoc(["ffff"], q, ':');
    assert Join(["ffff"], ':') == "ffff";
    hide Join, QuadText, ChosenRun, WordsOf;
    assert "::" + ("ffff" + ":" + q) == "::ffff:" + q;
  }

  lemma AllOnes()
    ensures HexText(0xffff) == "ffff"
  {
    assert HexText(0xf) == "f" && HexText(0xff) == "ff" && HexText(0xfff) == "fff";
  }

  /** An IPv4-compatible one is "::" and its dotted quad. */
  lemma CompatibleText(a: Addr6)
    requires Compatible(a)
    ensures PrintAddr6(a) == "::" + QuadText(a[12..])
  {
    CompatibleRun(a);
    var q, ws := QuadText(a[12..]), WordsOf(a);
    TextWithRun(a, Run(0, 6));
    assert HexFields(ws[6..6]) + [q] == [q];
    ShowGapFirst([q]);
    assert Join([q], ':') == q;
    hide Join, QuadText, ChosenRun, WordsOf, HexFields;
  }

  lemma RunHasTwo(a: Addr6)
    ensures ChosenRun(WordsOf(a)).Some? <==> exists lo: nat :: TwoZeroWords(a, lo)
  {
    var ws := WordsOf(a);
    if ChosenRun(ws).Some? {
      var b := ChosenRun(ws).value;
      ZeroWordsAreRun(a, b.base, b.base + 2);
      assert TwoZeroWords(a, b.base);
    }
    if lo: nat :| TwoZeroWords(a, lo) {
      ZeroWordsAreRun(a, lo, lo + 2);
      assert IsZeroRun(ws, Run(lo, 2));
    }
  }

  /** Section 4.2: without two zero words in a row nothing is left out. */
  lemma PlainCanonical(a: Addr6) returns (fs: seq<string>)
    requires forall lo: nat :: !TwoZeroWords(a, lo)
    ensures GroupsOf(fs, a, 0, 8) && PrintAddr6(a) == Join(fs, ':')
  {
    var ws := WordsOf(a);
    RunHasTwo(a);
    assert ws[0..8] == ws;
    fs := HexFields(ws);
    StretchIsGroups(a, 0, 8);
  }

  /** Otherwise "::" stands for the longest run of zero words, the first of them
      if there are several, and for all of it. */
  lemma GappedCanonical(a: Addr6, lo: nat) returns (b: nat, n: nat, before: seq<string>, after: seq<string>)
    requires TwoZeroWords(a, lo) && !Mapped(a) && !Compatible(a)
    ensures n >= 2 && ZeroWords(a, b, b + n)
    ensures forall i: nat, j: nat :: ZeroWords(a, i, j) ==> j - i < n || (j - i == n && b <= i)
    ensures GroupsOf(before, a, 0, b) && GroupsOf(after, a, b + n, 8)
    ensures PrintAddr6(a) == Join(before, ':') + "::" + Join(after, ':')
  {
    var ws := WordsOf(a);
    RunHasTwo(a);
    var r := ChosenRun(ws).value;
    b, n := r.base, r.len;
    ZeroWordsAreRun(a, b, b + n);
    forall i: nat, j: nat | ZeroWords(a, i, j) ensures j - i < n || (j - i == n && b <= i) {
      ZeroWordsAreRun(a, i, j);
      assert IsZeroRun(ws, Run(i, j - i));
    }
    DottedForms(a);
    TextWithRun(a, r);
    before, after := HexFields(ws[0..b]), HexFields(ws[b + n..8]);
    StretchIsGroups(a, 0, b);
    StretchIsGroups(a, b + n, 8);
  }

  lemma {:induction false} JoinWithout(fs: seq<string>, sep: char, c: char)
    requires c != sep && forall i :: 0 <= i < |fs| ==> c !in fs[i]
    ensures c !in Join(fs, sep)
  {
    if |fs| > 1 {
      JoinWithout(fs[1..], sep, c);
    }
  }

  lemma NoDotInGroups(fs: seq<string>, a: Addr6, lo: nat, hi: nat)
    requires lo <= hi <= 8 && GroupsOf(fs, a, lo, hi)
    ensures '.' !in Join(fs, ':')
  {
    JoinWithout(fs, ':', '.');
  }

  lemma DotInQuad(q: seq<Byte>)
    requires |q| == 4
    ensures '.' in QuadText(q)
  {
    var f := DecText(q[0]);
    assert QuadText(q)[|f|] == '.';
  }

  /** Section 5: the dotted form is for IPv4-mapped and IPv4-compatible addresses,
      and for no others. */
  lemma DottedExactly(a: Addr6)
    ensures '.' in PrintAddr6(a) <==> Mapped(a) || Compatible(a)
  {
    DotInQuad(a[12..]);
    if Mapped(a) {
      MappedText(a);
    } else if Compatible(a) {
      CompatibleText(a);
    } else if lo: nat :| TwoZeroWords(a, lo) {
      var b, n, before, after := GappedCanonical(a, lo);
      NoDotInGroups(before, a, 0, b);
      NoDotInGroups(after, a, b + n, 8);
    } else {
      var fs := PlainCanonical(a);
      NoDotInGroups(fs, a, 0, 8);
    }
  }
}
