/** if_nameindex.c and get_rtaddrs.c: the table of interface names, built in one
    block whose structures grow up from its start and whose names grow down from
    its end. */
module IfTable {
  import opened CText

  const RTAX_MAX := 8
  const RTAX_IFP := 4
  const RTM_IFINFO := 14
  const AF_LINK := 18

  // ----- the addresses of a routing message

  /** ROUNDUP to the size of a long. */
  function RoundUp(a: nat): (r: nat)
    ensures a <= r < a + 8 && r % 8 == 0
  {
    if a % 8 != 0 then 1 + (a - a % 8 + 7) else a
  }

  /** The distance from one packed address to the next. */
  function Stride(saLen: Byte): (n: nat)
    ensures n >= 8 && n % 8 == 0
  {
    if saLen != 0 then RoundUp(saLen) else 8
  }

  predicate Bit(addrs: nat, i: nat) {
    addrs / Pow2(i) % 2 == 1
  }

  /** Where the walk stands before address `i`: past every address present
      before it. Nothing when a present address starts outside the area. */
  function OffsetOf(addrs: nat, area: seq<Byte>, i: nat): Option<nat> {
    if i == 0 then Some(0)
    else
      var before := OffsetOf(addrs, area, i - 1);
      if before.None? then None
      else if !Bit(addrs, i - 1) then before
      else if before.value < |area| then Some(before.value + Stride(area[before.value]))
      else None
  }

  /** Every present address starts inside the area. */
  predicate Packed(addrs: nat, area: seq<Byte>) {
    OffsetOf(addrs, area, RTAX_MAX).Some?
  }

  lemma {:induction false} PackedBefore(addrs: nat, area: seq<Byte>, i: nat, j: nat)
    requires i <= j && OffsetOf(addrs, area, j).Some?
    ensures OffsetOf(addrs, area, i).Some?
    decreases j
  {
    if i < j {
      PackedBefore(addrs, area, i, j - 1);
    }
  }

  lemma NextPlace(addrs: nat, area: seq<Byte>, i: nat, sa: nat)
    requires Packed(addrs, area) && i < RTAX_MAX && OffsetOf(addrs, area, i) == Some(sa)
    ensures Bit(addrs, i) ==> sa < |area| && OffsetOf(addrs, area, i + 1) == Some(sa + Stride(area[sa]))
    ensures !Bit(addrs, i) ==> OffsetOf(addrs, area, i + 1) == Some(sa)
  {
    PackedBefore(addrs, area, i + 1, RTAX_MAX);
  }

  /** get_rtaddrs: the place of each present address, nothing for the others. */
  method GetRtaddrs(addrs: nat, area: seq<Byte>) returns (rtiInfo: seq<Option<nat>>)
    requires Packed(addrs, area)
    ensures |rtiInfo| == RTAX_MAX
    ensures forall i :: 0 <= i < RTAX_MAX ==>
      rtiInfo[i] == if Bit(addrs, i) then OffsetOf(addrs, area, i) else None
    ensures forall i :: 0 <= i < RTAX_MAX && rtiInfo[i].Some? ==> rtiInfo[i].value < |area|
  {
    hide Stride, Bit;
    rtiInfo := [];
    var sa := 0;
    for i := 0 to RTAX_MAX
      invariant |rtiInfo| == i && OffsetOf(addrs, area, i) == Some(sa)
      invariant forall k :: 0 <= k < i ==>
        rtiInfo[k] == if Bit(addrs, k) then OffsetOf(addrs, area, k) else None
      invariant forall k :: 0 <= k < i && rtiInfo[k].Some? ==> rtiInfo[k].value < |area|
    {
      NextPlace(addrs, area, i, sa);
      if Bit(addrs, i) {
        rtiInfo := rtiInfo + [Some(sa)];
        sa := sa + Stride(area[sa]);
      } else {
        rtiInfo := rtiInfo + [None];
      }
    }
  }

  // ----- addresses as they are laid out

  /** A socket address starts with its length; one that says zero takes eight
      bytes. */
  predicate SelfSized(a: seq<Byte>) {
    a != [] && if a[0] == 0 then |a| == 8 else a[0] == |a|
  }

  /** Filled up with zeros to the next multiple of eight. */
  function FilledUp(a: seq<Byte>): (f: seq<Byte>)
    ensures a <= f
  {
    a + Zeros((8 - |a| % 8) % 8)
  }

  /** The addresses that are present, one behind the other. */
  function LaidOut(sas: seq<Option<seq<Byte>>>): seq<Byte> {
    if sas == [] then []
    else
      var sa := sas[|sas| - 1];
      LaidOut(sas[..|sas| - 1]) + if sa.Some? then FilledUp(sa.value) else []
  }

  predicate AllSelfSized(sas: seq<Option<seq<Byte>>>) {
    forall i :: 0 <= i < |sas| && sas[i].Some? ==> SelfSized(sas[i].value)
  }

  lemma {:induction false} LaidPrefix(sas: seq<Option<seq<Byte>>>, i: nat)
    requires i <= |sas|
    ensures LaidOut(sas[..i]) <= LaidOut(sas)
    decreases |sas|
  {
    if i < |sas| {
      LaidPrefix(sas[..|sas| - 1], i);
      assert sas[..|sas| - 1][..i] == sas[..i];
    } else {
      assert sas[..i] == sas;
    }
  }

  lemma LaidStep(sas: seq<Option<seq<Byte>>>, i: nat)
    requires i < |sas|
    ensures LaidOut(sas[..i + 1]) == LaidOut(sas[..i]) + if sas[i].Some? then FilledUp(sas[i].value) else []
  {
    assert sas[..i + 1][..i] == sas[..i];
  }

  lemma StrideFills(a: seq<Byte>)
    requires SelfSized(a)
    ensures |FilledUp(a)| == Stride(a[0]) && FilledUp(a)[0] == a[0]
  {
  }

  /** Where address `i` stands, and that it stands there whole. */
  lemma LaidAt(sas: seq<Option<seq<Byte>>>, i: nat)
    requires i < |sas| && sas[i].Some? && SelfSized(sas[i].value)
    ensures var at, a, area := |LaidOut(sas[..i])|, sas[i].value, LaidOut(sas);
      at + |a| <= |area| && area[at..at + |a|] == a && area[at] == a[0]
  {
    hide LaidOut, FilledUp;
    var before, a, area := LaidOut(sas[..i]), sas[i].value, LaidOut(sas);
    LaidStep(sas, i);
    LaidPrefix(sas, i + 1);
    Within(before, FilledUp(a), a, area);
  }

  lemma Within(before: seq<Byte>, filled: seq<Byte>, a: seq<Byte>, area: seq<Byte>)
    requires a <= filled && before + filled <= area && a != []
    ensures |before| + |a| <= |area| && area[|before|..|before| + |a|] == a && area[|before|] == a[0]
  {
    assert forall k :: 0 <= k < |a| ==> area[|before| + k] == (before + filled)[|before| + k] == a[k];
    assert area[|before| + 0] == a[0];
  }

  /** The walk over addresses that are laid out in this way, with a bit for each
      that is present, comes to each of them. */
  lemma {:induction false} WalkFindsThem(addrs: nat, sas: seq<Option<seq<Byte>>>, i: nat)
    requires i <= |sas| && AllSelfSized(sas)
    requires forall k :: 0 <= k < |sas| ==> (Bit(addrs, k) <==> sas[k].Some?)
    ensures OffsetOf(addrs, LaidOut(sas), i) == Some(|LaidOut(sas[..i])|)
  {
    hide Bit, SelfSized, FilledUp, LaidOut, Stride;
    if i == 0 {
      NothingLaid();
      assert sas[..0] == [];
    } else {
      WalkFindsThem(addrs, sas, i - 1);
      LaidStep(sas, i - 1);
      if sas[i - 1].Some? {
        LaidAt(sas, i - 1);
        StrideFills(sas[i - 1].value);
        NotEmpty(sas[i - 1].value);
      }
    }
  }

  lemma NothingLaid()
    ensures LaidOut([]) == []
  {
  }

  lemma NotEmpty(a: seq<Byte>)
    requires SelfSized(a)
    ensures a != []
  {
  }

  // ----- messages and the interfaces they name

  /** A routing message: its type, which addresses it has, and their bytes. */
  datatype Msg = Msg(kind: nat, addrs: nat, area: seq<Byte>)

  /** An interface: its index, and the name field of its link-level address. */
  datatype Link = Link(index: nat, name: seq<Byte>)

  /** A message as the kernel builds it: each present address starts inside, and
      a link-level address is there with its whole name. */
  predicate Valid(m: Msg) {
    && Packed(m.addrs, m.area)
    && var ifp := OffsetOf(m.addrs, m.area, RTAX_IFP);
    && ifp.Some?
    && (Bit(m.addrs, RTAX_IFP) ==>
      && ifp.value + 8 <= |m.area|
      && (m.area[ifp.value + 1] == AF_LINK ==> ifp.value + 8 + m.area[ifp.value + 5] <= |m.area|))
  }

  predicate AllValid(ms: seq<Msg>) {
    forall i :: 0 <= i < |ms| ==> Valid(ms[i])
  }

  /** What a message says of an interface: the address of family AF_LINK in place
      RTAX_IFP. Its bytes are length, family, index (two, low first), type, name
      length, two more lengths, then the name. */
  function LinkOf(m: Msg): (l: Option<Link>)
    requires Valid(m)
    ensures l.Some? ==> 8 + |l.value.name| <= |m.area| && l.value.index < 0x1_0000
  {
    if m.kind != RTM_IFINFO || !Bit(m.addrs, RTAX_IFP) then None
    else
      var at := OffsetOf(m.addrs, m.area, RTAX_IFP).value;
      if m.area[at + 1] != AF_LINK then None
      else Some(Link(m.area[at + 2] as int + 256 * m.area[at + 3] as int, m.area[at + 8..at + 8 + m.area[at + 5]]))
  }

  /** The interfaces, in message order. */
  function Links(ms: seq<Msg>): seq<Link>
    requires AllValid(ms)
  {
    if ms == [] then []
    else
      var l := LinkOf(ms[|ms| - 1]);
      Links(ms[..|ms| - 1]) + if l.Some? then [l.value] else []
  }

  /** The length of a message whose header takes `hdr` bytes. */
  function MsgLen(hdr: nat, m: Msg): nat {
    hdr + |m.area|
  }

  /** The length of the whole list, which is the length of the block. */
  function TotalLen(hdr: nat, ms: seq<Msg>): nat {
    if ms == [] then 0 else TotalLen(hdr, ms[..|ms| - 1]) + MsgLen(hdr, ms[|ms| - 1])
  }

  lemma {:induction false} TotalGrows(hdr: nat, ms: seq<Msg>, i: nat)
    requires i < |ms|
    ensures TotalLen(hdr, ms[..i]) + MsgLen(hdr, ms[i]) <= TotalLen(hdr, ms)
    decreases |ms|
  {
    if i < |ms| - 1 {
      TotalGrows(hdr, ms[..|ms| - 1], i);
      assert ms[..|ms| - 1][..i] == ms[..i];
    }
  }

  /** What the names take, each with its NUL. */
  function NamesLen(ls: seq<Link>): nat {
    if ls == [] then 0 else NamesLen(ls[..|ls| - 1]) + |ls[|ls| - 1].name| + 1
  }


  /** The room the table takes: its entries, the one that ends it, the names. */
  function Needed(ls: seq<Link>): nat {
    16 * (|ls| + 1) + NamesLen(ls)
  }

  /** The last message adds its interface, and the names grow by its name. */
  lemma LastLink(ms: seq<Msg>)
    requires |ms| > 0 && AllValid(ms)
    ensures var before, l := Links(ms[..|ms| - 1]), LinkOf(ms[|ms| - 1]);
      && Links(ms) == (if l.Some? then before + [l.value] else before)
      && NamesLen(Links(ms)) == NamesLen(before) + if l.Some? then |l.value.name| + 1 else 0
  {
    var before, l := Links(ms[..|ms| - 1]), LinkOf(ms[|ms| - 1]);
    if l.Some? {
      assert (before + [l.value])[..|before|] == before;
    } else {
      assert Links(ms) == before;
    }
  }

  /** A header of 25 bytes pays for a message's entry and NUL, and the first
      message's for the entry that ends the table as well. */
  lemma {:induction false} MessagesPay(hdr: nat, ms: seq<Msg>)
    requires hdr >= 25 && AllValid(ms) && |ms| > 0
    ensures Needed(Links(ms)) <= TotalLen(hdr, ms)
    decreases |ms|
  {
    var front, last := ms[..|ms| - 1], ms[|ms| - 1];
    var l := LinkOf(last);
    LastLink(ms);
    if front == [] {
      assert TotalLen(hdr, front) == 0 && Links(front) == [] && NamesLen([]) == 0;
    } else {
      MessagesPay(hdr, front);
    }
  }

  /** The block holds the table exactly when there is at least one message. */
  lemma RoomExactlyWithAMessage(hdr: nat, ms: seq<Msg>)
    requires hdr >= 25 && AllValid(ms)
    ensures Needed(Links(ms)) <= TotalLen(hdr, ms) <==> |ms| > 0
  {
    if |ms| > 0 {
      MessagesPay(hdr, ms);
    }
  }

  /** A link-level address: length, family, index (two bytes, low first), type,
      name length, two more lengths, the name, and whatever follows. */
  function LinkAddress(index: nat, kind: Byte, name: seq<Byte>, lens: (Byte, Byte), more: seq<Byte>): seq<Byte>
    requires index < 0x1_0000 && |name| + |more| < 248
  {
    [8 + |name| + |more|, 18, index % 256, index / 256, kind, |name|, lens.0, lens.1] + name + more
  }

  lemma LinkAddressParts(index: nat, kind: Byte, name: seq<Byte>, lens: (Byte, Byte), more: seq<Byte>)
    requires index < 0x1_0000 && |name| + |more| < 248
    ensures var a := LinkAddress(index, kind, name, lens, more);
      && SelfSized(a) && |a| == 8 + |name| + |more|
      && a[1] == 18 && a[5] == |name| && a[2] as int + 256 * a[3] as int == index && a[8..8 + |name|] == name
  {
  }

  /** So a message about an interface, as it is laid out, names the interface with
      that index and that name, and no other kind of message names any. */
  lemma LinkAsLaidOut(kind: nat, addrs: nat, sas: seq<Option<seq<Byte>>>, index: nat, type': Byte, name: seq<Byte>,
                      lens: (Byte, Byte), more: seq<Byte>)
    requires |sas| == 8 && AllSelfSized(sas) && index < 0x1_0000 && |name| + |more| < 248
    requires forall k :: 0 <= k < |sas| ==> (Bit(addrs, k) <==> sas[k].Some?)
    requires sas[4] == Some(LinkAddress(index, type', name, lens, more))
    ensures var m := Msg(kind, addrs, LaidOut(sas));
      Valid(m) && LinkOf(m) == if kind == 14 then Some(Link(index, name)) else None
  {
    hide Bit, SelfSized, LaidOut, OffsetOf;
    var area, a, at := LaidOut(sas), sas[4].value, |LaidOut(sas[..4])|;
    WalkFindsThem(addrs, sas, 4);
    WalkFindsThem(addrs, sas, 8);
    LaidAt(sas, 4);
    LinkAddressParts(index, type', name, lens, more);
    hide LinkAddress;
    SliceParts(area, at, a, |name|);
  }

  /** And a message with another address in that place, or with none, names none. */
  lemma OtherAsLaidOut(kind: nat, addrs: nat, sas: seq<Option<seq<Byte>>>)
    requires |sas| == 8 && AllSelfSized(sas)
    requires forall k :: 0 <= k < |sas| ==> (Bit(addrs, k) <==> sas[k].Some?)
    requires sas[4].Some? ==> |sas[4].value| >= 8 && sas[4].value[1] != 18
    ensures var m := Msg(kind, addrs, LaidOut(sas));
      Valid(m) && LinkOf(m) == None
  {
    hide Bit, SelfSized, LaidOut, OffsetOf;
    WalkFindsThem(addrs, sas, 4);
    WalkFindsThem(addrs, sas, 8);
    if sas[4].Some? {
      LaidAt(sas, 4);
      SliceParts(LaidOut(sas), |LaidOut(sas[..4])|, sas[4].value, 0);
    }
  }

  lemma SliceParts(area: seq<Byte>, at: nat, a: seq<Byte>, n: nat)
    requires at + |a| <= |area| && area[at..at + |a|] == a && |a| >= 8 + n
    ensures area[at + 1] == a[1] && area[at + 2] == a[2] && area[at + 3] == a[3] && area[at + 5] == a[5]
    ensures area[at + 8..at + 8 + n] == a[8..8 + n]
  {
    var s := area[at..at + |a|];
    assert s[1] == area[at + 1] && s[2] == area[at + 2] && s[3] == area[at + 3] && s[5] == area[at + 5];
    assert forall k :: 8 <= k < 8 + n ==> s[k] == area[at + k];
    assert s[8..8 + n] == area[at + 8..at + 8 + n];
  }

  /** One byte less in the header is not enough: a single message that holds
      nothing but its link-level address overflows the block. */
  lemma {:induction false} HeaderBoundIsTight(hdr: nat, index: Byte, name: seq<Byte>) returns (m: Msg)
    requires hdr < 25 && |name| < 200
    ensures Valid(m) && Links([m]) == [Link(index, name)]
    ensures TotalLen(hdr, [m]) < Needed(Links([m]))
  {
    var area: seq<Byte> := [8 + |name|, AF_LINK, index, 0, 6, |name|, 0, 0] + name;
    m := Msg(RTM_IFINFO, 16, area);
    OnlyTheFifth(area);
    assert area[8..8 + |name|] == name;
    assert Links([m][..0]) == [];
    assert Links([m]) == [Link(index, name)];
    assert TotalLen(hdr, [m][..0]) == 0;
    assert NamesLen([Link(index, name)][..0]) == 0;
  }

  lemma OnlyTheFifth(area: seq<Byte>)
    requires |area| > 0
    ensures Packed(16, area) && Bit(16, RTAX_IFP) && OffsetOf(16, area, RTAX_IFP) == Some(0)
  {
    assert Pow2(0) == 1 && Pow2(1) == 2 && Pow2(2) == 4 && Pow2(3) == 8 && Pow2(4) == 16;
    assert Pow2(5) == 32 && Pow2(6) == 64 && Pow2(7) == 128;
    assert !Bit(16, 0) && !Bit(16, 1) && !Bit(16, 2) && !Bit(16, 3);
    assert !Bit(16, 5) && !Bit(16, 6) && !Bit(16, 7);
    assert OffsetOf(16, area, 0) == OffsetOf(16, area, 1) == OffsetOf(16, area, 2) == Some(0);
    assert OffsetOf(16, area, 3) == OffsetOf(16, area, 4) == Some(0);
    assert OffsetOf(16, area, 5) == OffsetOf(16, area, 6) == OffsetOf(16, area, 7);
  }

  // ----- the table in the block

  /** The low `k` bytes of a number, lowest first. */
  function Le(v: nat, k: nat): (s: seq<Byte>)
    ensures |s| == k
  {
    if k == 0 then [] else [v % 256] + Le(v / 256, k - 1)
  }

  function FromLe(s: seq<Byte>): nat {
    if s == [] then 0 else s[0] as int + 256 * FromLe(s[1..])
  }

  predicate FitsIn(v: nat, k: nat) {
    if k == 0 then v == 0 else FitsIn(v / 256, k - 1)
  }

  /** A number that fits is read back as stored. */
  lemma {:induction false} StoredIsRead(v: nat, k: nat)
    requires FitsIn(v, k)
    ensures FromLe(Le(v, k)) == v
  {
    if k > 0 {
      StoredIsRead(v / 256, k - 1);
      assert Le(v, k)[1..] == Le(v / 256, k - 1);
    }
  }

  /** What strncpy leaves in a field of the length of its source: the bytes up
      to a NUL, then NULs. */
  function Padded(src: seq<Byte>): (d: seq<Byte>)
    ensures |d| == |src|
  {
    if src == [] then []
    else if src[0] == 0 then Zeros(|src|)
    else [src[0]] + Padded(src[1..])
  }

  /** A name without a NUL is copied as it is. */
  lemma {:induction false} NulFreeIsCopied(src: seq<Byte>)
    requires 0 !in src
    ensures Padded(src) == src
  {
    if src != [] {
      assert src[0] != 0;
      NulFreeIsCopied(src[1..]);
      assert src == [src[0]] + src[1..];
    }
  }

  /** Of any other name, what follows its first NUL is lost. */
  lemma {:induction false} CutAtNul(src: seq<Byte>, n: nat)
    requires n < |src| && 0 !in src[..n] && src[n] == 0
    ensures Padded(src) == src[..n] + Zeros(|src| - n)
  {
    if n > 0 {
      assert src[0] == src[..n][0] && src[1..][..n - 1] == src[..n][1..];
      CutAtNul(src[1..], n - 1);
    }
  }

  /** Where name `j` starts in a block of `total` bytes. */
  function NameAt(total: nat, ls: seq<Link>, j: nat): int
    requires j < |ls|
  {
    total - NamesLen(ls[..j + 1])
  }

  /** The bytes `b` stand at `at`. */
  predicate Holds(s: seq<Byte>, at: int, b: seq<Byte>) {
    && 0 <= at && at + |b| <= |s|
    && forall k :: 0 <= k < |b| ==> s[at + k] == b[k]
  }

  /** Entry `j`: the index, a pointer to the name, and the name with its NUL. */
  predicate Entry(s: seq<Byte>, base: nat, j: nat, l: Link, off: int) {
    && off >= 0
    && Holds(s, 16 * j, Le(l.index, 4))
    && Holds(s, 16 * j + 8, Le(base + off, 8))
    && Holds(s, off, Padded(l.name))
    && Holds(s, off + |l.name|, [0])
  }

  /** The entries made so far: entries from the start, names from the end, and
      nothing of one inside the other. */
  predicate Table(s: seq<Byte>, base: nat, ls: seq<Link>) {
    && 16 * |ls| + NamesLen(ls) <= |s|
    && forall j :: 0 <= j < |ls| ==> Entry(s, base, j, ls[j], NameAt(|s|, ls, j))
  }

  /** The finished table: one entry more, with no name and index zero, still
      short of the names. */
  predicate Complete(s: seq<Byte>, base: nat, ls: seq<Link>) {
    && Table(s, base, ls) && Needed(ls) <= |s|
    && Holds(s, 16 * |ls|, Le(0, 4))
    && Holds(s, 16 * |ls| + 8, Le(0, 8))
  }

  lemma {:induction false} NamesGrow(ls: seq<Link>, i: nat, j: nat)
    requires i <= j <= |ls|
    ensures NamesLen(ls[..i]) <= NamesLen(ls[..j])
    decreases j
  {
    if i < j {
      assert ls[..j][..j - 1] == ls[..j - 1];
      NamesGrow(ls, i, j - 1);
    }
  }

  /** The names are apart: a later name ends where, or before, an earlier starts,
      and every name starts after the entry that ends the table. */
  lemma NamesAreApart(total: nat, ls: seq<Link>, i: nat, j: nat)
    requires i < j < |ls| && Needed(ls) <= total
    ensures 16 * (|ls| + 1) <= NameAt(total, ls, j)
    ensures NameAt(total, ls, j) + |ls[j].name| + 1 <= NameAt(total, ls, i)
    ensures NameAt(total, ls, i) + |ls[i].name| + 1 <= total
  {
    assert ls[..|ls|] == ls;
    NamesGrow(ls, j + 1, |ls|);
    NamesGrow(ls, i + 1, j);
    assert ls[..j + 1][..j] == ls[..j] && ls[..i + 1][..i] == ls[..i];
  }

  /** The block after a write of `b` at `at`. */
  function Put(s: seq<Byte>, at: nat, b: seq<Byte>): (t: seq<Byte>)
    requires at + |b| <= |s|
    ensures |t| == |s|
  {
    s[..at] + b + s[at + |b|..]
  }

  lemma PutByte(s: seq<Byte>, at: nat, v: Byte)
    requires at < |s|
    ensures Put(s, at, [v]) == s[at := v]
  {
  }

  lemma PutHolds(s: seq<Byte>, at: nat, b: seq<Byte>)
    requires at + |b| <= |s|
    ensures Holds(Put(s, at, b), at, b)
  {
  }

  lemma PutKeeps(s: seq<Byte>, at: nat, b: seq<Byte>, at': int, b': seq<Byte>)
    requires at + |b| <= |s| && Holds(s, at', b')
    requires at' + |b'| <= at || at + |b| <= at'
    ensures Holds(Put(s, at, b), at', b')
  {
  }

  /** A write between the two regions leaves the table as it is. */
  lemma TableKept(s: seq<Byte>, at: nat, b: seq<Byte>, base: nat, ls: seq<Link>)
    requires Table(s, base, ls)
    requires 16 * |ls| <= at && at + |b| <= |s| - NamesLen(ls)
    ensures Table(Put(s, at, b), base, ls)
  {
    hide Le, Padded, NamesLen, Holds, Put, NameAt;
    var t := Put(s, at, b);
    forall j | 0 <= j < |ls| ensures Entry(t, base, j, ls[j], NameAt(|t|, ls, j)) {
      var off := NameAt(|s|, ls, j);
      assert Entry(s, base, j, ls[j], off);
      NameIsHigh(|s|, ls, j);
      PutKeeps(s, at, b, 16 * j, Le(ls[j].index, 4));
      PutKeeps(s, at, b, 16 * j + 8, Le(base + off, 8));
      PutKeeps(s, at, b, off, Padded(ls[j].name));
      PutKeeps(s, at, b, off + |ls[j].name|, [0]);
    }
  }

  lemma {:induction false} NameIsHigh(total: nat, ls: seq<Link>, j: nat)
    requires j < |ls|
    ensures total - NamesLen(ls) <= NameAt(total, ls, j)
  {
    assert ls[..|ls|] == ls;
    NamesGrow(ls, j + 1, |ls|);
  }

  lemma GrownEntry(s: seq<Byte>, base: nat, ls: seq<Link>, l: Link, j: nat)
    requires j <= |ls| && Table(s, base, ls)
    requires Entry(s, base, |ls|, l, |s| - NamesLen(ls) - |l.name| - 1)
    ensures Entry(s, base, j, (ls + [l])[j], NameAt(|s|, ls + [l], j))
  {
    hide NamesLen, Entry, NameAt, Holds, Le, Padded;
    NameStays(|s|, ls, l);
  }

  lemma TableGrows(s: seq<Byte>, base: nat, ls: seq<Link>, l: Link)
    requires Table(s, base, ls)
    requires 16 * (|ls| + 1) + NamesLen(ls) + |l.name| + 1 <= |s|
    requires Entry(s, base, |ls|, l, |s| - NamesLen(ls) - |l.name| - 1)
    ensures Table(s, base, ls + [l])
  {
    hide NamesLen, Entry, NameAt, Holds, Le, Padded;
    forall j | 0 <= j <= |ls| ensures Entry(s, base, j, (ls + [l])[j], NameAt(|s|, ls + [l], j)) {
      GrownEntry(s, base, ls, l, j);
    }
    NameStays(|s|, ls, l);
  }

  lemma NameStays(total: nat, ls: seq<Link>, l: Link)
    ensures forall j :: 0 <= j < |ls| ==> NameAt(total, ls + [l], j) == NameAt(total, ls, j)
    ensures NamesLen(ls + [l]) == NamesLen(ls) + |l.name| + 1
    ensures NameAt(total, ls + [l], |ls|) == total - NamesLen(ls) - |l.name| - 1
  {
    var more := ls + [l];
    assert more[..|ls|] == ls && more[..|ls| + 1] == more;
    forall j | 0 <= j < |ls| ensures NameAt(total, more, j) == NameAt(total, ls, j) {
      assert more[..j + 1] == ls[..j + 1];
    }
  }

  /** The four writes that make an entry: the name, its NUL, the pointer, the
      index. */
  function Added(s: seq<Byte>, base: nat, at: nat, off: nat, l: Link): (t: seq<Byte>)
    requires at + 16 <= off && off + |l.name| + 1 <= |s|
    ensures |t| == |s|
  {
    var named := Put(Put(s, off, Padded(l.name)), off + |l.name|, [0]);
    Put(Put(named, at + 8, Le(base + off, 8)), at, Le(l.index, 4))
  }

  lemma AddedIsEntered(s: seq<Byte>, base: nat, ls: seq<Link>, l: Link)
    requires Table(s, base, ls)
    requires 16 * (|ls| + 1) + NamesLen(ls) + |l.name| + 1 <= |s|
    ensures Table(Added(s, base, 16 * |ls|, |s| - NamesLen(ls) - |l.name| - 1, l), base, ls + [l])
  {
    hide Le, Padded, NamesLen, NameAt, Holds, Table, Put;
    var at, off := 16 * |ls|, |s| - NamesLen(ls) - |l.name| - 1;
    var s1 := Put(s, off, Padded(l.name));
    TableKept(s, off, Padded(l.name), base, ls);
    var s2 := Put(s1, off + |l.name|, [0]);
    TableKept(s1, off + |l.name|, [0], base, ls);
    var s3 := Put(s2, at + 8, Le(base + off, 8));
    TableKept(s2, at + 8, Le(base + off, 8), base, ls);
    TableKept(s3, at, Le(l.index, 4), base, ls);
    AddedHolds(s, base, |ls|, off, l);
    TableGrows(Put(s3, at, Le(l.index, 4)), base, ls, l);
  }

  /** No write of the four undoes an earlier one. */
  lemma AddedHolds(s: seq<Byte>, base: nat, j: nat, off: nat, l: Link)
    requires 16 * (j + 1) <= off && off + |l.name| + 1 <= |s|
    ensures Entry(Added(s, base, 16 * j, off, l), base, j, l, off)
  {
    hide Le, Padded, Holds, Put;
    var at, name, pointer, index := 16 * j, Padded(l.name), Le(base + off, 8), Le(l.index, 4);
    var s1 := Put(s, off, name);
    PutHolds(s, off, name);
    var s2 := Put(s1, off + |l.name|, [0]);
    PutHolds(s1, off + |l.name|, [0]);
    PutKeeps(s1, off + |l.name|, [0], off, name);
    var s3 := Put(s2, at + 8, pointer);
    PutHolds(s2, at + 8, pointer);
    PutKeeps(s2, at + 8, pointer, off, name);
    PutKeeps(s2, at + 8, pointer, off + |l.name|, [0]);
    PutHolds(s3, at, index);
    PutKeeps(s3, at, index, off, name);
    PutKeeps(s3, at, index, off + |l.name|, [0]);
    PutKeeps(s3, at, index, at + 8, pointer);
  }

  lemma HoldsIsSlice(s: seq<Byte>, at: nat, b: seq<Byte>)
    requires Holds(s, at, b)
    ensures at + |b| <= |s| && s[at..at + |b|] == b
  {
  }

  /** Reading the table back, for addresses that eight bytes hold: entry `j` has
      the j-th index and points at the j-th name, and the first null pointer is
      the one in the last entry. */
  lemma TableReads(s: seq<Byte>, base: nat, ls: seq<Link>, j: nat)
    requires Complete(s, base, ls) && j <= |ls|
    requires forall i :: 0 <= i < |ls| ==> FitsIn(ls[i].index, 4) && FitsIn(base + NameAt(|s|, ls, i), 8)
    ensures FromLe(s[16 * j + 8..16 * j + 16]) == 0 <==> j == |ls|
    ensures j < |ls| ==>
      var off := NameAt(|s|, ls, j);
      && FromLe(s[16 * j..16 * j + 4]) == ls[j].index
      && FromLe(s[16 * j + 8..16 * j + 16]) == base + off
      && s[off..off + |ls[j].name| + 1] == Padded(ls[j].name) + [0]
  {
    hide Le, Padded, NamesLen, NameAt, Holds, FitsIn, FromLe;
    if j == |ls| {
      HoldsIsSlice(s, 16 * j + 8, Le(0, 8));
      ZeroFits(8);
      StoredIsRead(0, 8);
    } else {
      var l, off := ls[j], NameAt(|s|, ls, j);
      assert Entry(s, base, j, l, off);
      HoldsIsSlice(s, 16 * j, Le(l.index, 4));
      StoredIsRead(l.index, 4);
      HoldsIsSlice(s, 16 * j + 8, Le(base + off, 8));
      StoredIsRead(base + off, 8);
      HoldsIsSlice(s, off, Padded(l.name));
      HoldsIsSlice(s, off + |l.name|, [0]);
      assert s[off..off + |l.name| + 1] == s[off..off + |l.name|] + s[off + |l.name|..off + |l.name| + 1];
      NameIsHigh(|s|, ls, j);
    }
  }

  lemma ZeroFits(k: nat)
    ensures FitsIn(0, k)
  {
  }

  // ----- building it

  lemma LeUnfolds(v: nat, k: nat)
    requires k > 0
    ensures Le(v, k)[0] == v % 256 && Le(v, k)[1..] == Le(v / 256, k - 1)
  {
  }

  /** What is still to come from place `i` on, and after one more byte. */
  lemma PaddedStep(src: seq<Byte>, all: seq<Byte>, i: nat, ended: bool)
    requires i < |src| == |all|
    requires all[i..] == if ended then Zeros(|src| - i) else Padded(src[i..])
    ensures var e := ended || src[i] == 0;
      && all[i] == (if e then 0 else src[i])
      && all[i + 1..] == if e then Zeros(|src| - (i + 1)) else Padded(src[i + 1..])
  {
    assert all[i] == all[i..][0] && all[i + 1..] == all[i..][1..];
    assert src[i..][1..] == src[i + 1..];
  }

  /** One more byte of `b` written at `at`. */
  lemma OneMore(was: seq<Byte>, at: nat, b: seq<Byte>, i: nat, s: seq<Byte>)
    requires at + |b| <= |was| && i < |b| && s == was[..at] + b[..i] + was[at + i..]
    ensures s[at + i := b[i]] == was[..at] + b[..i + 1] + was[at + i + 1..]
  {
  }

  /** A store of `k` bytes at an address. */
  method StoreWord(a: array<Byte>, at: nat, v: nat, k: nat)
    requires at + k <= a.Length
    modifies a
    ensures a[..] == Put(old(a[..]), at, Le(v, k))
  {
    hide Le;
    ghost var was, word := a[..], Le(v, k);
    var rest := v;
    for i := 0 to k
      invariant word[i..] == Le(rest, k - i)
      invariant a[..] == was[..at] + word[..i] + was[at + i..]
    {
      LeUnfolds(rest, k - i);
      OneMore(was, at, word, i, a[..]);
      assert word[i] == word[i..][0] && word[i + 1..] == word[i..][1..];
      a[at + i] := rest % 256;
      rest := rest / 256;
    }
    assert word[..k] == word;
  }

  /** strncpy of a whole source. */
  method Strncpy(a: array<Byte>, at: nat, src: seq<Byte>)
    requires at + |src| <= a.Length
    modifies a
    ensures a[..] == Put(old(a[..]), at, Padded(src))
  {
    hide Padded, Zeros;
    ghost var was, all := a[..], Padded(src);
    var ended := false;
    for i := 0 to |src|
      invariant all[i..] == if ended then Zeros(|src| - i) else Padded(src[i..])
      invariant a[..] == was[..at] + all[..i] + was[at + i..]
    {
      OneMore(was, at, all, i, a[..]);
      PaddedStep(src, all, i, ended);
      ended := ended || src[i] == 0;
      a[at + i] := if ended then 0 else src[i];
    }
    assert all[..|src|] == all;
  }

  /** One interface: its name below the names, its entry above the entries. */
  method AddEntry(a: array<Byte>, base: nat, ghost ls: seq<Link>, ifptr: nat, namptr: nat, l: Link)
    returns (ifptr': nat, namptr': nat)
    requires Table(a[..], base, ls)
    requires ifptr == 16 * |ls| && namptr == a.Length - NamesLen(ls)
    requires 16 * (|ls| + 1) + NamesLen(ls) + |l.name| + 1 <= a.Length
    modifies a
    ensures Table(a[..], base, ls + [l])
    ensures ifptr' == ifptr + 16 && namptr' == namptr - |l.name| - 1
  {
    hide Le, Padded, NamesLen, NameAt, Table, Holds, Entry, Put;
    ghost var was := a[..];
    var n := |l.name|;
    namptr' := namptr - (n + 1);
    Strncpy(a, namptr', l.name);
    ghost var named := a[..];
    a[namptr' + n] := 0;
    PutByte(named, namptr' + n, 0);
    assert a[..] == named[namptr' + n := 0];
    StoreWord(a, ifptr + 8, base + namptr', 8);
    StoreWord(a, ifptr, l.index, 4);
    ifptr' := ifptr + 16;
    assert a[..] == Added(was, base, ifptr, namptr', l);
    AddedIsEntered(was, base, ls, l);
  }

  /** The entry that ends the table. */
  method Terminate(a: array<Byte>, base: nat, ghost ls: seq<Link>, ifptr: nat)
    requires Table(a[..], base, ls) && Needed(ls) <= a.Length && ifptr == 16 * |ls|
    modifies a
    ensures Complete(a[..], base, ls)
  {
    hide Le, NamesLen, Table, Holds;
    ghost var was := a[..];
    StoreWord(a, ifptr + 8, 0, 8);
    ghost var half := a[..];
    StoreWord(a, ifptr, 0, 4);
    TableKept(was, ifptr + 8, Le(0, 8), base, ls);
    TableKept(half, ifptr, Le(0, 4), base, ls);
    PutHolds(was, ifptr + 8, Le(0, 8));
    PutHolds(half, ifptr, Le(0, 4));
    PutKeeps(half, ifptr, Le(0, 4), ifptr + 8, Le(0, 8));
  }

  /** What the loop takes from one message, by get_rtaddrs. */
  method ReadLink(m: Msg) returns (l: Option<Link>)
    requires Valid(m)
    ensures l == LinkOf(m)
  {
    l := None;
    if m.kind == RTM_IFINFO {
      var rtiInfo := GetRtaddrs(m.addrs, m.area);
      var sa := rtiInfo[RTAX_IFP];
      if sa.Some? && m.area[sa.value + 1] == AF_LINK {
        var at := sa.value;
        l := Some(Link(m.area[at + 2] as int + 256 * m.area[at + 3] as int, m.area[at + 8..at + 8 + m.area[at + 5]]));
      }
    }
  }

  /** if_nameindex, on the list of messages that the kernel gave. The block is a
      fresh one at address `base`, as long as the list; `granted` says whether
      malloc found it. `past` says that there is no room for the last entry, which
      the C function writes all the same; the model stops short of that write. It
      happens exactly when the list is empty. */
  method IfNameindex(hdr: nat, ms: seq<Msg>, base: nat, granted: bool) returns (result: array?<Byte>, past: bool)
    requires hdr >= 25 && AllValid(ms)
    ensures result == null <==> !granted
    ensures granted ==> fresh(result) && result.Length == TotalLen(hdr, ms)
    ensures past <==> granted && ms == []
    ensures granted && !past ==> Complete(result[..], base, Links(ms))
  {
    if !granted {
      return null, false;
    }
    hide Le, Padded, NamesLen, Table, Holds, Entry, LinkOf, Links, Valid, TotalLen, Needed, Complete, AllValid;
    var len := TotalLen(hdr, ms);
    var block := new Byte[len];
    var ifptr, namptr := 0, len;
    for i := 0 to |ms|
      invariant Table(block[..], base, Links(ms[..i]))
      invariant ifptr == 16 * |Links(ms[..i])| && namptr == len - NamesLen(Links(ms[..i]))
    {
      NextLink(hdr, ms, i);
      ValidAt(ms, i);
      var l := ReadLink(ms[i]);
      if l.Some? {
        ifptr, namptr := AddEntry(block, base, Links(ms[..i]), ifptr, namptr, l.value);
      }
    }
    assert ms[..|ms|] == ms;
    RoomForLast(hdr, ms, ifptr, namptr);
    past := ifptr + 16 > namptr;
    if !past {
      Terminate(block, base, Links(ms), ifptr);
    }
    result := block;
  }

  lemma ValidAt(ms: seq<Msg>, i: nat)
    requires AllValid(ms) && i < |ms|
    ensures Valid(ms[i]) && AllValid(ms[..i]) && AllValid(ms[..i + 1])
  {
  }

  lemma RoomForLast(hdr: nat, ms: seq<Msg>, ifptr: nat, namptr: nat)
    requires hdr >= 25 && AllValid(ms)
    requires ifptr == 16 * |Links(ms)| && namptr == TotalLen(hdr, ms) - NamesLen(Links(ms))
    ensures if ms == [] then ifptr + 16 > namptr else ifptr + 16 <= namptr && Needed(Links(ms)) <= TotalLen(hdr, ms)
  {
    RoomExactlyWithAMessage(hdr, ms);
  }

  /** The next message adds its interface, and there is room for it. */
  lemma NextLink(hdr: nat, ms: seq<Msg>, i: nat)
    requires hdr >= 25 && AllValid(ms) && i < |ms|
    ensures var ls, l := Links(ms[..i]), LinkOf(ms[i]);
      if l.None? then Links(ms[..i + 1]) == ls
      else
        && Links(ms[..i + 1]) == ls + [l.value]
        && NamesLen(ls + [l.value]) == NamesLen(ls) + |l.value.name| + 1
        && 16 * (|ls| + 1) + NamesLen(ls) + |l.value.name| + 1 <= TotalLen(hdr, ms)
  {
    assert ms[..i + 1][..i] == ms[..i];
    LastLink(ms[..i + 1]);
    MessagesPay(hdr, ms[..i + 1]);
    TotalGrows(hdr, ms, i);
  }
}
