/** Dotted-decimal IPv4 text: the strict parser of inet_pton.c and the printer of
    inet_ntop.c. */
module DottedQuad {
  import opened CText

  /** One octet of a dotted quad: at least one digit, any leading zeros. */
  predicate IsOctet(f: string) {
    f != "" && AllDec(f) && DecVal(f) <= 255
  }

  /** The address a dotted quad denotes: exactly four octets between dots. */
  function QuadOf(s: string): (r: Option<seq<Byte>>)
    ensures r.Some? ==> |r.value| == 4
  {
    var fs := Split(s, '.');
    if |fs| == 4 && IsOctet(fs[0]) && IsOctet(fs[1]) && IsOctet(fs[2]) && IsOctet(fs[3])
    then Some([DecVal(fs[0]), DecVal(fs[1]), DecVal(fs[2]), DecVal(fs[3])])
    else None
  }

  /** What "%u.%u.%u.%u" prints for the four bytes of `a`. */
  function QuadText(a: seq<Byte>): string
    requires |a| == 4
  {
    DecText(a[0]) + "." + DecText(a[1]) + "." + DecText(a[2]) + "." + DecText(a[3])
  }

  lemma {:induction false} FourFields(f: string, g: string, h: string, i: string)
    requires Free(f, '.') && Free(g, '.') && Free(h, '.') && Free(i, '.')
    ensures Split(f + "." + g + "." + h + "." + i, '.') == [f, g, h, i]
  {
    SplitFree(f, '.');
    SplitSnoc(f, g, '.');
    SplitSnoc(f + "." + g, h, '.');
    SplitSnoc(f + "." + g + "." + h, i, '.');
  }

  lemma DigitsAreFree(n: nat)
    ensures Free(DecText(n), '.')
  {
    assert AllDec(DecText(n));
  }

  lemma QuadTextFields(a: seq<Byte>)
    requires |a| == 4
    ensures Split(QuadText(a), '.') == [DecText(a[0]), DecText(a[1]), DecText(a[2]), DecText(a[3])]
  {
    DigitsAreFree(a[0]);
    DigitsAreFree(a[1]);
    DigitsAreFree(a[2]);
    DigitsAreFree(a[3]);
    FourFields(DecText(a[0]), DecText(a[1]), DecText(a[2]), DecText(a[3]));
  }

  /** Parsing undoes printing for every IPv4 address. */
  lemma QuadRoundTrip(a: seq<Byte>)
    requires |a| == 4
    ensures QuadOf(QuadText(a)) == Some(a)
    ensures 7 <= |QuadText(a)| <= 15
  {
    QuadTextFields(a);
    DecTextValue(a[0]);
    DecTextValue(a[1]);
    DecTextValue(a[2]);
    DecTextValue(a[3]);
    assert a == [a[0], a[1], a[2], a[3]];
  }

  /** A field that is no octet and that no further text can turn into one. */
  predicate Spoilt(f: string) {
    !AllDec(f) || DecVal(f) > 255
  }

  lemma SpoiltStays(f: string, more: string)
    requires Spoilt(f)
    ensures !IsOctet(f + more)
  {
    if AllDec(f + more) {
      DecValGrows(f, more);
    }
  }

  /** Once a prefix holds a finished field that is no octet, no continuation is
      a dotted quad. */
  lemma DoomedByField(s: string, t: string, k: nat)
    requires k < |Split(s, '.')| - 1 && !IsOctet(Split(s, '.')[k])
    ensures QuadOf(s + t) == None
  {
    var fs, gs := Split(s, '.'), Split(s + t, '.');
    SplitExtends(s, t, '.');
    assert gs[k] == gs[..|fs| - 1][k] == fs[..|fs| - 1][k] == fs[k];
  }

  /** Nor does any once its open field is spoilt. */
  lemma DoomedByTail(s: string, t: string)
    requires var fs := Split(s, '.'); Spoilt(fs[|fs| - 1])
    ensures QuadOf(s + t) == None
  {
    var fs, gs := Split(s, '.'), Split(s + t, '.');
    SplitExtends(s, t, '.');
    var k := |fs| - 1;
    var more := gs[k][|fs[k]|..];
    assert gs[k] == fs[k] + more;
    SpoiltStays(fs[k], more);
  }

  /** Nor does any once there are five fields. */
  lemma DoomedByCount(s: string, t: string)
    requires |Split(s, '.')| > 4
    ensures QuadOf(s + t) == None
  {
    SplitExtends(s, t, '.');
  }

  /** The fields of src[..i], as the parser's variables hold them. */
  ghost predicate Reading(src: string, i: nat, tmp: seq<Byte>, tp: nat, sawDigit: bool)
    requires i <= |src|
  {
    var fs := Split(src[..i], '.');
    && |fs| == tp + 1 <= 4 == |tmp|
    && (forall k :: 0 <= k < tp ==> IsOctet(fs[k]) && tmp[k] == DecVal(fs[k]))
    && AllDec(fs[tp]) && tmp[tp] == DecVal(fs[tp])
    && (sawDigit <==> fs[tp] != "")
  }

  lemma ReadDigit(src: string, i: nat, tmp: seq<Byte>, tp: nat, sawDigit: bool)
    requires i < |src| && Reading(src, i, tmp, tp, sawDigit) && IsDec(src[i])
    ensures var v := tmp[tp] * 10 + DigitOf(src[i]);
      if v > 255 then QuadOf(src) == None else Reading(src, i + 1, tmp[tp := v], tp, true)
  {
    assert src[..i + 1][..i] == src[..i] && src[..i + 1] + src[i + 1..] == src;
    var f := Split(src[..i], '.')[tp];
    assert (f + [src[i]])[..|f|] == f;
    if tmp[tp] * 10 + DigitOf(src[i]) > 255 {
      DoomedByTail(src[..i + 1], src[i + 1..]);
    }
  }

  lemma ReadDot(src: string, i: nat, tmp: seq<Byte>, tp: nat, sawDigit: bool)
    requires i < |src| && Reading(src, i, tmp, tp, sawDigit) && src[i] == '.'
    ensures if !sawDigit || tp == 3 then QuadOf(src) == None
            else Reading(src, i + 1, tmp[tp + 1 := 0], tp + 1, false)
  {
    assert src[..i + 1][..i] == src[..i] && src[..i + 1] + src[i + 1..] == src;
    if !sawDigit {
      DoomedByField(src[..i + 1], src[i + 1..], tp);
    } else if tp == 3 {
      DoomedByCount(src[..i + 1], src[i + 1..]);
    }
  }

  lemma ReadOther(src: string, i: nat, tmp: seq<Byte>, tp: nat, sawDigit: bool)
    requires i < |src| && Reading(src, i, tmp, tp, sawDigit) && src[i] != '.' && !IsDec(src[i])
    ensures QuadOf(src) == None
  {
    assert src[..i + 1][..i] == src[..i] && src[..i + 1] + src[i + 1..] == src;
    var f := Split(src[..i], '.')[tp];
    assert (f + [src[i]])[|f|] == src[i];
    DoomedByTail(src[..i + 1], src[i + 1..]);
  }

  lemma ReadAll(src: string, tmp: seq<Byte>, tp: nat, sawDigit: bool)
    requires Reading(src, |src|, tmp, tp, sawDigit)
    ensures QuadOf(src) == if tp == 3 && sawDigit then Some(tmp) else None
  {
    assert src[..|src|] == src;
    if tp == 3 && sawDigit {
      assert tmp == [tmp[0], tmp[1], tmp[2], tmp[3]];
    }
  }

  /** The scanning loop of the strict parser, over its own four-byte buffer. */
  method ScanQuad(src: string, tmp: array<Byte>) returns (ok: bool)
    requires tmp.Length == 4
    modifies tmp
    ensures ok <==> QuadOf(src).Some?
    ensures ok ==> tmp[..] == QuadOf(src).value
  {
    var sawDigit := false;
    var octets := 0;
    var tp := 0;
    tmp[tp] := 0;
    var i := 0;
    while i < |src|
      invariant 0 <= i <= |src| && 0 <= tp < 4
      invariant Reading(src, i, tmp[..], tp, sawDigit)
      invariant octets == if sawDigit then tp + 1 else tp
    {
      var ch := src[i];
      ghost var was := tmp[..];
      if IsDec(ch) {
        ReadDigit(src, i, was, tp, sawDigit);
        var newVal := tmp[tp] * 10 + DigitOf(ch);
        if newVal > 255 {
          return false;
        }
        tmp[tp] := newVal;
        assert tmp[..] == was[tp := tmp[tp]];
        if !sawDigit {
          octets := octets + 1;
          if octets > 4 {
            assert false;  // the dot before a fifth octet has been rejected
          }
          sawDigit := true;
        }
      } else if ch == '.' && sawDigit {
        ReadDot(src, i, was, tp, sawDigit);
        if octets == 4 {
          return false;
        }
        tp := tp + 1;
        tmp[tp] := 0;
        assert tmp[..] == was[tp := 0];
        sawDigit := false;
      } else {
        if ch == '.' {
          ReadDot(src, i, was, tp, sawDigit);
        } else {
          ReadOther(src, i, was, tp, sawDigit);
        }
        return false;
      }
      i := i + 1;
    }
    ReadAll(src, tmp[..], tp, sawDigit);
    return octets == 4;
  }

  /** The strict dotted-quad parser, called on the text at `src` and, from the
      IPv6 parser, with a destination inside its own buffer. */
  method InetPton4(src: string, dst: array<Byte>, at: nat) returns (ok: bool)
    requires at + 4 <= dst.Length
    modifies dst
    ensures ok <==> QuadOf(src).Some?
    ensures ok ==> dst[..] == old(dst[..at]) + QuadOf(src).value + old(dst[at + 4..])
    ensures !ok ==> dst[..] == old(dst[..])
  {
    var tmp := new Byte[4];
    ok := ScanQuad(src, tmp);
    if !ok {
      return;
    }
    forall k | 0 <= k < 4 {
      dst[at + k] := tmp[k];
    }
  }

  /** How many places inet_ntop4 writes: none when it fails, else the text and its
      terminator. */
  function Ntop4Writes(src: seq<Byte>, size: nat): nat
    requires |src| == 4
  {
    if |QuadText(src)| > size then 0 else |QuadText(src)| + 1
  }

  /** The test lets a text of exactly `size` characters through: the call stays
      within the caller's `size` places exactly when the text is not that long. */
  lemma StaysWithinExactly(src: seq<Byte>, size: nat)
    requires |src| == 4
    ensures Ntop4Writes(src, size) <= size <==> |QuadText(src)| != size
    ensures Ntop4Writes(src, size) <= size + 1
  {
    QuadRoundTrip(src);
  }

  /** A call that writes past its buffer: 255.255.255.255 into 15 places. */
  lemma TerminatorPastTheEnd()
    ensures var a := [255, 255, 255, 255];
      |QuadText(a)| == 15 && Ntop4Writes(a, 15) == 16
  {
    assert DecText(255) == "255" by {
      assert DecText(2) == "2" && DecText(25) == "25";
    }
    assert QuadText([255, 255, 255, 255]) == "255.255.255.255";
  }

  /** The IPv4 printer, into the `size` places of the caller that start at `at`.
      `past` says that the terminator belongs behind the last of them, where the
      C function writes it all the same; the model stops short of that write. */
  method InetNtop4(src: seq<Byte>, dst: array<char>, at: nat, size: nat) returns (ok: bool, past: bool)
    requires |src| == 4 && at + size <= dst.Length
    modifies dst
    ensures ok <==> |QuadText(src)| <= size
    ensures past <==> Ntop4Writes(src, size) > size
    ensures ok && !past ==>
      dst[..] == old(dst[..at]) + QuadText(src) + ['\0'] + old(dst[at + |QuadText(src)| + 1..])
    ensures past ==> ok && dst[..] == old(dst[..at]) + QuadText(src) + old(dst[at + size..])
    ensures !ok ==> dst[..] == old(dst[..])
  {
    var tmp := QuadText(src);
    if |tmp| > size {
      return false, false;
    }
    forall k | 0 <= k < |tmp| {
      dst[at + k] := tmp[k];
    }
    past := |tmp| == size;
    if !past {
      dst[at + |tmp|] := '\0';
    }
    ok := true;
  }
}
