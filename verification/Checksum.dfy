/** in_cksum.c: the Internet checksum, RFC 1071. The 16-bit words are read in the
    byte order of the host; the sum is a 32-bit unsigned integer. */
module Checksum {
  import opened CText

  /** The order in which the host puts the two bytes of a word. */
  datatype Host = BigEnd | LittleEnd

  function WordOf(host: Host, a: Byte, b: Byte): (w: nat)
    ensures w <= 0xffff
  {
    if host == BigEnd then a * 256 + b else b * 256 + a
  }

  /** The words of a buffer; an odd last byte is followed by a zero byte. */
  function Sum(host: Host, data: seq<Byte>): nat {
    if |data| == 0 then 0
    else if |data| == 1 then WordOf(host, data[0], 0)
    else WordOf(host, data[0], data[1]) + Sum(host, data[2..])
  }

  /** The ones-complement sum of RFC 1071: the residue modulo 65535 in which a
      nonzero multiple is 65535 and only zero is 0. */
  function OnesSum(x: nat): (r: nat)
    ensures r <= 0xffff && (r == 0 <==> x == 0)
  {
    if x == 0 then 0 else (x - 1) % 0xffff + 1
  }

  /** There is only one such residue. */
  lemma OnesSumIs(x: nat, r: nat, k: int)
    requires r <= 0xffff && x == r + 0xffff * k && (r == 0 <==> x == 0)
    ensures OnesSum(x) == r
  {
    if x > 0 {
      assert x - 1 == (r - 1) + 0xffff * k;
    }
  }

  lemma OnesSumQuotient(x: nat) returns (k: nat)
    ensures x == OnesSum(x) + 0xffff * k
  {
    k := if x == 0 then 0 else (x - 1) / 0xffff;
  }

  /** Two folds bring a 32-bit sum to its ones-complement sum. */
  function Folded(sum: nat): nat {
    var once := sum / 0x1_0000 + sum % 0x1_0000;
    (once + once / 0x1_0000) % 0x1_0000
  }

  lemma TwoFoldsSuffice(sum: nat)
    requires sum < 0x1_0000_0000
    ensures Folded(sum) == OnesSum(sum)
  {
    var h, l := sum / 0x1_0000, sum % 0x1_0000;
    var once := h + l;
    if once < 0x1_0000 {
      OnesSumIs(sum, once, h);
    } else {
      OnesSumIs(sum, once - 0xffff, h + 1);
    }
  }

  lemma {:induction false} SumBound(host: Host, data: seq<Byte>)
    ensures Sum(host, data) <= 0xffff * ((|data| + 1) / 2)
  {
    if |data| > 1 {
      SumBound(host, data[2..]);
    }
  }

  /** Up to 131074 bytes the sum fits 32 bits. */
  lemma NoWrap(host: Host, data: seq<Byte>)
    requires |data| <= 131074
    ensures Sum(host, data) < 0x1_0000_0000
  {
    SumBound(host, data);
  }

  lemma {:induction false} SumEven(host: Host, a: seq<Byte>, b: seq<Byte>)
    requires |a| % 2 == 0
    ensures Sum(host, a + b) == Sum(host, a) + Sum(host, b)
  {
    if a == [] {
      assert a + b == b;
    } else {
      SumEven(host, a[2..], b);
      assert (a + b)[2..] == a[2..] + b;
    }
  }

  /** What in_cksum returns for a buffer. */
  function Cksum(host: Host, data: seq<Byte>): (c: nat)
    ensures c <= 0xffff
  {
    0xffff - Folded(Sum(host, data) % 0x1_0000_0000)
  }

  lemma SumOneWord(host: Host, data: seq<Byte>, w: nat)
    requires w % 2 == 0 && w < |data|
    ensures w + 1 < |data| ==> Sum(host, data[..w + 2]) == Sum(host, data[..w]) + WordOf(host, data[w], data[w + 1])
    ensures w + 1 == |data| ==> Sum(host, data) == Sum(host, data[..w]) + WordOf(host, data[w], 0)
  {
    if w + 1 < |data| {
      var pair := [data[w], data[w + 1]];
      assert data[..w + 2] == data[..w] + pair && pair[2..] == [];
      SumEven(host, data[..w], pair);
    } else {
      assert data == data[..w] + [data[w]];
      SumEven(host, data[..w], [data[w]]);
    }
  }

  /** The bytes by themselves: those in even places are the high ones of their
      words on a big-endian host, the low ones on the other. */
  function ByteSum(host: Host, data: seq<Byte>): nat {
    if data == [] then 0
    else
      var i := |data| - 1;
      ByteSum(host, data[..i]) + if (i % 2 == 0) == (host == BigEnd) then 256 * data[i] as int else data[i]
  }

  /** So the words are the bytes, an odd last one included. */
  lemma {:induction false} SumOfBytes(host: Host, data: seq<Byte>)
    ensures Sum(host, data) == ByteSum(host, data)
    decreases |data|
  {
    var n := |data|;
    if n % 2 == 1 {
      SumOfBytes(host, data[..n - 1]);
      SumOneWord(host, data, n - 1);
    } else if n > 0 {
      SumOfBytes(host, data[..n - 2]);
      SumOneWord(host, data, n - 2);
      assert data[..n - 2 + 2] == data && data[..n - 1][..n - 2] == data[..n - 2];
    }
  }

  lemma WrapsAlong(x: nat, y: nat)
    ensures (x % 0x1_0000_0000 + y) % 0x1_0000_0000 == (x + y) % 0x1_0000_0000
  {
  }

  /** The accumulating loop and the odd byte; the sum wraps at 32 bits. */
  method AddWords(host: Host, addr: array<Byte>, len: nat) returns (sum: nat)
    requires len <= addr.Length
    ensures sum == Sum(host, addr[..len]) % 0x1_0000_0000
  {
    ghost var data := addr[..len];
    assert data[..0] == [] && Sum(host, []) == 0;
    hide Sum, WordOf;
    var nleft, w := len, 0;
    sum := 0;
    while nleft > 1
      invariant 0 <= nleft && 0 <= w && w + nleft == len && w % 2 == 0
      invariant sum == Sum(host, data[..w]) % 0x1_0000_0000
    {
      SumOneWord(host, data, w);
      WrapsAlong(Sum(host, data[..w]), WordOf(host, addr[w], addr[w + 1]));
      sum := (sum + WordOf(host, addr[w], addr[w + 1])) % 0x1_0000_0000;
      w := w + 2;
      nleft := nleft - 2;
    }
    if nleft == 1 {
      SumOneWord(host, data, w);
      WrapsAlong(Sum(host, data[..w]), WordOf(host, addr[w], 0));
      sum := (sum + WordOf(host, addr[w], 0)) % 0x1_0000_0000;
    } else {
      assert data[..w] == data;
    }
  }

  /** in_cksum. */
  method InCksum(host: Host, addr: array<Byte>, len: nat) returns (answer: nat)
    requires len <= addr.Length
    ensures answer == Cksum(host, addr[..len])
    ensures len <= 131074 ==> answer == 0xffff - OnesSum(Sum(host, addr[..len]))
  {
    hide Sum, OnesSum;
    var sum := AddWords(host, addr, len);
    if len <= 131074 {
      NoWrap(host, addr[..len]);
      TwoFoldsSuffice(sum);
    }
    sum := sum / 0x1_0000 + sum % 0x1_0000;
    sum := sum + sum / 0x1_0000;
    answer := 0xffff - sum % 0x1_0000;
  }

  /** The 32-bit sum gives the ones-complement sum exactly when it does not wrap,
      for every length an int can hold. */
  lemma {:induction false} RightExactlyWithoutWrap(host: Host, data: seq<Byte>)
    requires |data| < 0x8000_0000
    ensures Cksum(host, data) == 0xffff - OnesSum(Sum(host, data)) <==> Sum(host, data) < 0x1_0000_0000
  {
    var s := Sum(host, data);
    SumBound(host, data);
    var q, r := s / 0x1_0000_0000, s % 0x1_0000_0000;
    TwoFoldsSuffice(r);
    if OnesSum(r) == OnesSum(s) {
      var j := OnesSumQuotient(r);
      var k := OnesSumQuotient(s);
      assert s == r + (0xffff * 0x1_0001 + 1) * q;
      assert q == 0xffff * (k - j - 0x1_0001 * q);
      assert q < 0xffff;
    }
  }

  lemma {:induction false} AllOnesSum(host: Host, n: nat)
    ensures Sum(host, seq(2 * n, _ => 0xff as Byte)) == 0xffff * n
  {
    if n > 0 {
      var data: seq<Byte> := seq(2 * n, _ => 0xff as Byte);
      assert data[2..] == seq(2 * (n - 1), _ => 0xff as Byte);
      AllOnesSum(host, n - 1);
    }
  }

  lemma OneByteMore(host: Host)
    ensures Sum(host, [0xff]) >= 0xff
  {
  }

  /** The length bound is tight: one more byte, all ones, and the result is wrong. */
  lemma BoundIsTight(host: Host)
    ensures var data := seq(131075, _ => 0xff as Byte);
      |data| == 131074 + 1 && Cksum(host, data) != 0xffff - OnesSum(Sum(host, data))
  {
    AllOnesSum(host, 65537);
    var data: seq<Byte> := seq(131075, _ => 0xff as Byte);
    var even: seq<Byte> := seq(2 * 65537, _ => 0xff as Byte);
    assert data == even + [0xff];
    SumEven(host, even, [0xff]);
    OneByteMore(host);
    hide Sum, Cksum, OnesSum;
    RightExactlyWithoutWrap(host, data);
  }

  /** The example of section 3 of RFC 1071. */
  lemma ExampleSum()
    ensures var data := [0x00, 0x01, 0xf2, 0x03, 0xf4, 0xf5, 0xf6, 0xf7];
      Sum(BigEnd, data) == 0x2ddf0 && OnesSum(Sum(BigEnd, data)) == 0xddf2 && Cksum(BigEnd, data) == 0x220d
  {
    var data: seq<Byte> := [0x00, 0x01, 0xf2, 0x03, 0xf4, 0xf5, 0xf6, 0xf7];
    assert data[2..] == [0xf2, 0x03, 0xf4, 0xf5, 0xf6, 0xf7] && data[2..][2..] == [0xf4, 0xf5, 0xf6, 0xf7];
    assert data[2..][2..][2..] == [0xf6, 0xf7] && data[2..][2..][2..][2..] == [];
    assert Sum(BigEnd, data) == 0x2ddf0;
    OnesSumIs(0x2ddf0, 0xddf2, 2);
    TwoFoldsSuffice(0x2ddf0);
    hide Sum, OnesSum, Folded;
  }

  // ----- byte order

  function Swap(w: nat): (s: nat)
    requires w <= 0xffff
    ensures s <= 0xffff && (s == 0 <==> w == 0)
  {
    w % 256 * 256 + w / 256
  }

  /** Reading every word the other way round multiplies the sum by 256, up to
      multiples of 65535. */
  lemma {:induction false} OtherOrder(data: seq<Byte>) returns (k: nat)
    ensures 256 * Sum(BigEnd, data) == Sum(LittleEnd, data) + 0xffff * k
    ensures Sum(BigEnd, data) == 0 <==> Sum(LittleEnd, data) == 0
  {
    if |data| == 0 {
      k := 0;
    } else if |data| == 1 {
      k := data[0];
    } else {
      var j := OtherOrder(data[2..]);
      k := j + data[0];
    }
  }

  lemma SwapOnes(b: nat, l: nat, k: nat)
    requires 256 * b == l + 0xffff * k && (b == 0 <==> l == 0)
    ensures OnesSum(l) == Swap(OnesSum(b))
  {
    var j := OnesSumQuotient(b);
    hide OnesSum;
    var r := OnesSum(b);
    assert 256 * r == Swap(r) + 0xffff * (r / 256);
    assert l == Swap(r) + 0xffff * (r / 256 + 256 * j - k);
    OnesSumIs(l, Swap(r), r / 256 + 256 * j - k);
  }

  /** Section 2(B) of RFC 1071: on a host of the other byte order the checksum is
      the same two bytes, for every buffer within the bound, odd ones included. */
  lemma ByteOrderIndependent(data: seq<Byte>)
    requires |data| <= 131074
    ensures Cksum(LittleEnd, data) == Swap(Cksum(BigEnd, data))
  {
    hide Sum, OnesSum, Folded, Swap;
    NoWrap(BigEnd, data);
    NoWrap(LittleEnd, data);
    TwoFoldsSuffice(Sum(BigEnd, data));
    TwoFoldsSuffice(Sum(LittleEnd, data));
    var k := OtherOrder(data);
    SwapOnes(Sum(BigEnd, data), Sum(LittleEnd, data), k);
    SwapComplement(OnesSum(Sum(BigEnd, data)));
  }

  lemma SwapComplement(r: nat)
    requires r <= 0xffff
    ensures Swap(0xffff - r) == 0xffff - Swap(r)
  {
    var h, l := r / 256, r % 256;
    assert 0xffff - r == 256 * (255 - h) + (255 - l);
    assert (0xffff - r) / 256 == 255 - h && (0xffff - r) % 256 == 255 - l;
  }

  // ----- verification

  /** The two bytes of a word as the host stores it. */
  function Stored(host: Host, w: nat): (b: seq<Byte>)
    requires w <= 0xffff
    ensures |b| == 2 && WordOf(host, b[0], b[1]) == w
  {
    if host == BigEnd then [w / 256, w % 256] else [w % 256, w / 256]
  }

  lemma ComplementCancels(s: nat)
    ensures OnesSum(s + (0xffff - OnesSum(s))) == 0xffff
  {
    var k := OnesSumQuotient(s);
    OnesSumIs(s + (0xffff - OnesSum(s)), 0xffff, k);
  }

  /** Storing the checksum of a packet in its zeroed checksum field makes the
      checksum of the packet zero. */
  lemma StoredChecksumVerifies(host: Host, data: seq<Byte>, at: nat)
    requires |data| <= 131074 && at % 2 == 0 && at + 2 <= |data|
    requires data[at] == 0 && data[at + 1] == 0
    ensures Cksum(host, data[..at] + Stored(host, Cksum(host, data)) + data[at + 2..]) == 0
  {
    hide Sum, OnesSum, Folded, Stored;
    var c := Cksum(host, data);
    var filled := data[..at] + Stored(host, c) + data[at + 2..];
    assert data == data[..at] + [0, 0] + data[at + 2..];
    SumThreeParts(host, data[..at], [0, 0], data[at + 2..]);
    SumThreeParts(host, data[..at], Stored(host, c), data[at + 2..]);
    NoWrap(host, data);
    NoWrap(host, filled);
    TwoFoldsSuffice(Sum(host, data));
    TwoFoldsSuffice(Sum(host, filled));
    ComplementCancels(Sum(host, data));
  }

  lemma SumThreeParts(host: Host, a: seq<Byte>, w: seq<Byte>, b: seq<Byte>)
    requires |a| % 2 == 0 && |w| == 2
    ensures Sum(host, a + w + b) == Sum(host, a) + WordOf(host, w[0], w[1]) + Sum(host, b)
  {
    SumEven(host, a + w, b);
    SumEven(host, a, w);
    assert w[2..] == [];
  }
}
