/** Digits, numerals and separated fields: the text shared by the address
    parsers, the address printers and the length-prefixed frames.
    A C string is the sequence of its characters; its terminator is the end
    of the sequence. */
module CText {

  type Byte = b: int | 0 <= b < 0x100

  datatype Option<+T> = None | Some(value: T)

  /** What C takes for the string in a buffer: the characters before the first NUL. */
  function CString(s: string): (t: string)
    ensures t <= s && '\0' !in t && (|t| < |s| ==> s[|t|] == '\0')
  {
    if s == "" || s[0] == '\0' then "" else [s[0]] + CString(s[1..])
  }

  lemma {:induction false} CStringIs(s: string, n: nat)
    requires n <= |s| && '\0' !in s[..n] && (n < |s| ==> s[n] == '\0')
    ensures CString(s) == s[..n]
  {
    if n > 0 {
      assert s[0] == s[..n][0] && s[1..][..n - 1] == s[..n][1..];
      CStringIs(s[1..], n - 1);
    }
  }

  lemma WithoutNul(s: string)
    requires '\0' !in s
    ensures CString(s) == s
  {
    assert s[..|s|] == s;
    CStringIs(s, |s|);
  }

  function Zeros(n: nat): (z: seq<Byte>)
    ensures |z| == n && forall i :: 0 <= i < n ==> z[i] == 0
  {
    seq(n, _ => 0)
  }

  function Pow2(i: nat): (p: nat)
    ensures p > 0
  {
    if i == 0 then 1 else 2 * Pow2(i - 1)
  }

  predicate IsDec(c: char) {
    '0' <= c <= '9'
  }

  predicate IsHex(c: char) {
    '0' <= c <= '9' || 'a' <= c <= 'f' || 'A' <= c <= 'F'
  }

  predicate AllDec(s: string) {
    forall i :: 0 <= i < |s| ==> IsDec(s[i])
  }

  predicate AllHex(s: string) {
    forall i :: 0 <= i < |s| ==> IsHex(s[i])
  }

  /** The position of `c` in the digit tables, lower case or upper case. */
  function DigitOf(c: char): (d: nat)
    requires IsHex(c)
    ensures d < 16 && (IsDec(c) <==> d < 10)
  {
    if c <= '9' then (c - '0') as nat
    else if c <= 'F' then (c - 'A') as nat + 10
    else (c - 'a') as nat + 10
  }

  /** The lower-case digit printf uses for `d`. */
  function DigitChar(d: nat): (c: char)
    requires d < 16
    ensures IsHex(c) && DigitOf(c) == d && !('A' <= c <= 'F')
  {
    if d < 10 then '0' + d as char else 'a' + (d - 10) as char
  }

  function HexVal(s: string): nat
    requires AllHex(s)
  {
    if s == "" then 0 else HexVal(s[..|s| - 1]) * 16 + DigitOf(s[|s| - 1])
  }

  function DecVal(s: string): nat
    requires AllDec(s)
  {
    if s == "" then 0 else DecVal(s[..|s| - 1]) * 10 + DigitOf(s[|s| - 1])
  }

  /** What "%x" prints. */
  function HexText(n: nat): (s: string)
    ensures s != "" && AllHex(s)
    decreases n
  {
    if n < 16 then [DigitChar(n)] else HexText(n / 16) + [DigitChar(n % 16)]
  }

  /** What "%u" and "%d" print for a number that is not negative. */
  function DecText(n: nat): (s: string)
    ensures s != "" && AllDec(s)
    decreases n
  {
    if n < 10 then [DigitChar(n)] else DecText(n / 10) + [DigitChar(n % 10)]
  }

  lemma {:induction false} HexTextValue(n: nat)
    ensures HexVal(HexText(n)) == n
    ensures n < 0x10 ==> |HexText(n)| == 1
    ensures n < 0x100 ==> |HexText(n)| <= 2
    ensures n < 0x1000 ==> |HexText(n)| <= 3
    ensures n < 0x10000 ==> |HexText(n)| <= 4
  {
    if n >= 16 {
      HexTextValue(n / 16);
      assert HexText(n)[..|HexText(n)| - 1] == HexText(n / 16);
    } else {
      assert HexText(n)[..0] == "";
    }
  }

  lemma {:induction false} DecTextValue(n: nat)
    ensures DecVal(DecText(n)) == n
    ensures n < 10 ==> |DecText(n)| == 1
    ensures n < 100 ==> |DecText(n)| <= 2
    ensures n < 1000 ==> |DecText(n)| <= 3
  {
    if n >= 10 {
      DecTextValue(n / 10);
      assert DecText(n)[..|DecText(n)| - 1] == DecText(n / 10);
    } else {
      assert DecText(n)[..0] == "";
    }
  }

  /** Reading more digits never makes a number smaller. */
  lemma {:induction false} DecValGrows(s: string, t: string)
    requires AllDec(s + t)
    ensures AllDec(s) && AllDec(t) && DecVal(s) <= DecVal(s + t)
  {
    assert forall i :: 0 <= i < |s| ==> (s + t)[i] == s[i];
    assert forall i :: 0 <= i < |t| ==> (s + t)[|s| + i] == t[i];
    if t == "" {
      assert s + t == s;
    } else {
      var u := t[..|t| - 1];
      assert (s + t)[..|s + t| - 1] == s + u;
      DecValGrows(s, u);
    }
  }

  lemma {:induction false} HexValGrows(s: string, t: string)
    requires AllHex(s + t)
    ensures AllHex(s) && AllHex(t) && HexVal(s) <= HexVal(s + t)
  {
    assert forall i :: 0 <= i < |s| ==> (s + t)[i] == s[i];
    assert forall i :: 0 <= i < |t| ==> (s + t)[|s| + i] == t[i];
    if t == "" {
      assert s + t == s;
    } else {
      var u := t[..|t| - 1];
      assert (s + t)[..|s + t| - 1] == s + u;
      HexValGrows(s, u);
    }
  }

  function ZeroPad(n: nat): (z: string)
    ensures |z| == n && AllHex(z) && AllDec(z)
  {
    seq(n, _ => '0')
  }

  /** Zeros in front of a hexadecimal numeral do not change it. */
  lemma {:induction false} PadKeepsValue(n: nat, t: string)
    requires AllHex(t)
    ensures AllHex(ZeroPad(n) + t) && HexVal(ZeroPad(n) + t) == HexVal(t)
    decreases |t|, n
  {
    var p := ZeroPad(n) + t;
    if t != "" {
      assert p[..|p| - 1] == ZeroPad(n) + t[..|t| - 1];
      PadKeepsValue(n, t[..|t| - 1]);
    } else if n > 0 {
      assert p[..|p| - 1] == ZeroPad(n - 1) + "";
      PadKeepsValue(n - 1, "");
    }
  }

  /** A decimal numeral read as hexadecimal keeps its digits, so a value below
      1000 stays at most 0x999 however many zeros lead it. */
  lemma {:induction false} DecReadAsHex(s: string)
    requires AllDec(s)
    ensures AllHex(s)
    ensures DecVal(s) < 10 ==> HexVal(s) == DecVal(s)
    ensures DecVal(s) < 100 ==> HexVal(s) <= 0x99
    ensures DecVal(s) < 1000 ==> HexVal(s) <= 0x999
  {
    if s != "" {
      DecReadAsHex(s[..|s| - 1]);
    }
  }

  /** The fields of `s` between separators; there is always at least one. */
  function Split(s: string, sep: char): (fs: seq<string>)
    ensures |fs| >= 1
  {
    if s == "" then [""]
    else
      var fs := Split(s[..|s| - 1], sep);
      var c := s[|s| - 1];
      if c == sep then fs + [""] else fs[..|fs| - 1] + [fs[|fs| - 1] + [c]]
  }

  function Join(fs: seq<string>, sep: char): string {
    if |fs| == 0 then ""
    else if |fs| == 1 then fs[0]
    else fs[0] + [sep] + Join(fs[1..], sep)
  }

  /** One more character opens a field or joins the last. */
  lemma SplitStep(s: string, c: char, sep: char)
    ensures var fs := Split(s, sep);
      Split(s + [c], sep) == if c == sep then fs + [""] else fs[..|fs| - 1] + [fs[|fs| - 1] + [c]]
  {
    assert (s + [c])[..|s|] == s;
  }

  /** `b` goes on where `a` stops: only its last field may be longer. */
  predicate Extends(a: seq<string>, b: seq<string>)
    requires a != []
  {
    |a| <= |b| && a[..|a| - 1] == b[..|a| - 1] && a[|a| - 1] <= b[|a| - 1]
  }

  lemma ExtendsMore(a: seq<string>, b: seq<string>, c: char, b': seq<string>)
    requires a != [] && b != [] && Extends(a, b)
    requires b' == b + [""] || b' == b[..|b| - 1] + [b[|b| - 1] + [c]]
    ensures Extends(a, b')
  {
    assert b'[..|a| - 1] == b[..|a| - 1];
  }

  /** What has been split stays split: more text only extends the last field. */
  lemma {:induction false} SplitExtends(s: string, t: string, sep: char)
    ensures Extends(Split(s, sep), Split(s + t, sep))
  {
    hide Split, Extends;
    if t == "" {
      assert s + t == s;
      ExtendsItself(Split(s, sep));
    } else {
      var u, c := t[..|t| - 1], t[|t| - 1];
      assert s + t == s + u + [c];
      SplitExtends(s, u, sep);
      SplitStep(s + u, c, sep);
      ExtendsMore(Split(s, sep), Split(s + u, sep), c, Split(s + t, sep));
    }
  }

  lemma ExtendsItself(a: seq<string>)
    requires a != []
    ensures Extends(a, a)
  {
  }

  lemma {:induction false} JoinSnoc(fs: seq<string>, f: string, sep: char)
    ensures Join(fs + [f], sep) == if fs == [] then f else Join(fs, sep) + [sep] + f
  {
    if |fs| > 0 {
      assert (fs + [f])[1..] == fs[1..] + [f];
      JoinSnoc(fs[1..], f, sep);
    }
  }

  predicate Free(f: string, sep: char) {
    sep !in f
  }

  lemma {:induction false} SplitSnoc(s: string, f: string, sep: char)
    requires Free(f, sep)
    ensures Split(s + [sep] + f, sep) == Split(s, sep) + [f]
    decreases |f|
  {
    if f == "" {
      assert (s + [sep] + f)[..|s|] == s;
    } else {
      var g := f[..|f| - 1];
      assert (s + [sep] + f)[..|s + [sep] + f| - 1] == s + [sep] + g;
      SplitSnoc(s, g, sep);
      assert g + [f[|f| - 1]] == f;
    }
  }

  lemma {:induction false} SplitFree(f: string, sep: char)
    requires Free(f, sep)
    ensures Split(f, sep) == [f]
  {
    if f != "" {
      SplitFree(f[..|f| - 1], sep);
      assert f[..|f| - 1] + [f[|f| - 1]] == f;
    }
  }

  /** Splitting undoes joining when no field holds the separator. */
  lemma {:induction false} SplitJoin(fs: seq<string>, sep: char)
    requires |fs| > 0 && forall i :: 0 <= i < |fs| ==> Free(fs[i], sep)
    ensures Split(Join(fs, sep), sep) == fs
  {
    var init, f := fs[..|fs| - 1], fs[|fs| - 1];
    assert fs == init + [f];
    JoinSnoc(init, f, sep);
    if init == [] {
      SplitFree(f, sep);
    } else {
      SplitJoin(init, sep);
      SplitSnoc(Join(init, sep), f, sep);
    }
  }

  /** A longer last field makes the text longer by as much. */
  lemma JoinLast(fs: seq<string>, c: char, sep: char)
    requires fs != []
    ensures Join(fs[..|fs| - 1] + [fs[|fs| - 1] + [c]], sep) == Join(fs, sep) + [c]
  {
    var init, last := fs[..|fs| - 1], fs[|fs| - 1];
    JoinSnoc(init, last, sep);
    JoinSnoc(init, last + [c], sep);
    hide Join;
    assert fs == init + [last];
    if init != [] {
      assert Join(init, sep) + [sep] + (last + [c]) == Join(init, sep) + [sep] + last + [c];
    }
  }

  /** Joining undoes splitting. */
  lemma {:induction false} JoinSplit(s: string, sep: char)
    ensures Join(Split(s, sep), sep) == s
  {
    if s == "" {
      assert Join([""], sep) == "";
    } else {
      hide Split, Join;
      var r, c := s[..|s| - 1], s[|s| - 1];
      assert s == r + [c];
      JoinSplit(r, sep);
      SplitStep(r, c, sep);
      if c == sep {
        JoinSnoc(Split(r, sep), "", sep);
        assert r + [c] + "" == s;
      } else {
        JoinLast(Split(r, sep), c, sep);
      }
    }
  }

  lemma {:induction false} SplitFieldsFree(s: string, sep: char)
    ensures forall i :: 0 <= i < |Split(s, sep)| ==> Free(Split(s, sep)[i], sep)
  {
    if s != "" {
      SplitFieldsFree(s[..|s| - 1], sep);
    }
  }
}
