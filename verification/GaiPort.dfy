/** Ports and socket types: ga_port.c walks the list while inserting into it,
    and ga_serv.c decides which rounds it makes. */
module GaiPort {
  import opened CText
  import opened GaiList

  // ----- what one round does, on the values of the list

  /** The entry with its socket type and port set. */
  function Stamp(e: Entry, socktype: int, port: nat): Entry {
    e.(socktype := socktype, sock := match e.sock case Some(v) => Some(v.(port := port)) case None => None)
  }

  /** An entry that gets the port: AI_CLONE entries always do. */
  predicate Wanted(e: Entry, socktype: int) {
    e.clone || e.socktype == socktype
  }

  /** An AI_CLONE entry that is in use already. */
  predicate NeedsCopy(e: Entry) {
    e.clone && e.socktype != 0
  }

  /** What becomes of one entry: an AI_CLONE entry takes the type at first use
      and is copied afterwards; any other entry has to match. */
  function PortEntry(e: Entry, socktype: int, port: nat): seq<Entry> {
    if NeedsCopy(e) then [e, Stamp(e.(clone := false), socktype, port)]
    else if Wanted(e, socktype) then [Stamp(e, socktype, port)]
    else [e]
  }

  function PortList(es: seq<Entry>, socktype: int, port: nat): seq<Entry> {
    if es == [] then []
    else PortList(es[..|es| - 1], socktype, port) + PortEntry(es[|es| - 1], socktype, port)
  }

  /** The number of entries that get the port. */
  function Touched(es: seq<Entry>, socktype: int): nat {
    if es == [] then 0
    else Touched(es[..|es| - 1], socktype) + if Wanted(es[|es| - 1], socktype) then 1 else 0
  }

  /** The number of copies a round makes. */
  function Copies(es: seq<Entry>): nat {
    if es == [] then 0
    else Copies(es[..|es| - 1]) + if NeedsCopy(es[|es| - 1]) then 1 else 0
  }

  predicate Complete(es: seq<Entry>) {
    forall i :: 0 <= i < |es| ==> es[i].sock.Some?
  }

  lemma PortListSnoc(es: seq<Entry>, e: Entry, socktype: int, port: nat)
    ensures PortList(es + [e], socktype, port) == PortList(es, socktype, port) + PortEntry(e, socktype, port)
    ensures Touched(es + [e], socktype) == Touched(es, socktype) + if Wanted(e, socktype) then 1 else 0
    ensures Copies(es + [e]) == Copies(es) + if NeedsCopy(e) then 1 else 0
  {
    assert (es + [e])[..|es|] == es;
  }

  lemma {:induction false} PortListConcat(a: seq<Entry>, b: seq<Entry>, socktype: int, port: nat)
    ensures PortList(a + b, socktype, port) == PortList(a, socktype, port) + PortList(b, socktype, port)
    ensures Touched(a + b, socktype) == Touched(a, socktype) + Touched(b, socktype)
    ensures Copies(a + b) == Copies(a) + Copies(b)
  {
    if b == [] {
      assert a + b == a;
    } else {
      var c, e := b[..|b| - 1], b[|b| - 1];
      assert b == c + [e] && a + b == a + c + [e];
      PortListConcat(a, c, socktype, port);
      PortListSnoc(c, e, socktype, port);
      PortListSnoc(a + c, e, socktype, port);
      hide PortList, Touched, Copies, PortEntry, Wanted, NeedsCopy;
      assert PortList(a, socktype, port) + (PortList(c, socktype, port) + PortEntry(e, socktype, port))
        == PortList(a, socktype, port) + PortList(c, socktype, port) + PortEntry(e, socktype, port);
    }
  }

  lemma {:induction false} PortListComplete(es: seq<Entry>, socktype: int, port: nat)
    requires Complete(es)
    ensures Complete(PortList(es, socktype, port))
  {
    if es != [] {
      PortListComplete(es[..|es| - 1], socktype, port);
    }
  }

  // ----- the walk

  /** The list in the middle of a walk: `i` entries of the original list `es`
      have been dealt with and `done` is the number of nodes they now take. */
  ghost predicate Midway(view: seq<Entry>, es: seq<Entry>, i: nat, done: nat, socktype: int, port: nat) {
    && i <= |es|
    && view == PortList(es[..i], socktype, port) + es[i..]
    && done == |PortList(es[..i], socktype, port)|
  }

  /** `view` with entry `k` replaced by what becomes of it. */
  function Dealt(view: seq<Entry>, k: nat, socktype: int, port: nat): seq<Entry>
    requires k < |view|
  {
    view[..k] + PortEntry(view[k], socktype, port) + view[k + 1..]
  }

  /** ... and what has been counted so far. */
  ghost predicate Walk(view: seq<Entry>, es: seq<Entry>, i: nat, done: nat, nfound: nat, used: nat, socktype: int,
                       port: nat) {
    && Midway(view, es, i, done, socktype, port)
    && nfound == Touched(es[..i], socktype) && used == Copies(es[..i])
  }

  lemma WalkNext(view: seq<Entry>, es: seq<Entry>, i: nat, done: nat, nfound: nat, used: nat, socktype: int, port: nat)
    requires Walk(view, es, i, done, nfound, used, socktype, port) && i < |es|
    ensures done < |view| && view[done] == es[i]
    ensures var hit, copied := if Wanted(es[i], socktype) then 1 else 0, if NeedsCopy(es[i]) then 1 else 0;
      && Walk(Dealt(view, done, socktype, port), es, i + 1, done + |PortEntry(es[i], socktype, port)|,
              nfound + hit, used + copied, socktype, port)
      && used + copied <= Copies(es)
  {
    assert es[..i + 1][..i] == es[..i];
    assert view[..done] == PortList(es[..i], socktype, port);
    assert view[done + 1..] == es[i + 1..];
    CopiesGrow(es, i + 1);
  }

  lemma WalkStarts(es: seq<Entry>, socktype: int, port: nat)
    ensures Walk(es, es, 0, 0, 0, 0, socktype, port)
  {
    assert es[..0] == [];
  }

  lemma WalkEnds(view: seq<Entry>, es: seq<Entry>, i: nat, done: nat, nfound: nat, used: nat, socktype: int, port: nat)
    requires Walk(view, es, i, done, nfound, used, socktype, port)
    ensures i <= |es| && (done >= |view| <==> i == |es|)
    ensures i == |es| ==>
      view == PortList(es, socktype, port) && nfound == Touched(es, socktype) && used == Copies(es)
  {
    if i == |es| {
      assert es[..i] == es && es[i..] == [];
    }
  }

  lemma CopiesGrow(es: seq<Entry>, i: nat)
    requires i <= |es|
    ensures Copies(es[..i]) <= Copies(es)
  {
    assert es[..i] + es[i..] == es;
    PortListConcat(es[..i], es[i..], 0, 0);
  }

  /** Socket type and port of node `k`. */
  method StampNode(l: AddrList, mem: Memory, ai: AddrInfo, ghost k: nat, socktype: int, port: nat,
                   ghost others: set<object>)
    requires l.Valid() && Accounted(l, mem, others)
    requires k < |l.nodes| && ai == l.nodes[k] && l.view[k].sock.Some?
    modifies l`view, ai, ai.addr
    ensures Grows(l, mem, others)
    ensures l.nodes == old(l.nodes) && l.socks == old(l.socks)
    ensures l.view == old(l.view)[k := Stamp(old(l.view)[k], socktype, port)]
  {
    hide AddrList.Valid, NodeOk, Cells;
    SameLengths(l);
    SetSocktype(l, ai, k, socktype);
    NodeAt(l, k);
    SetPort(l, ai, k, port);
  }

  /** An AI_CLONE node that is in use already: its copy gets type and port. */
  method CopyStep(l: AddrList, mem: Memory, ai: AddrInfo, ghost k: nat, socktype: int, port: nat,
                  ghost others: set<object>)
    returns (last: AddrInfo?)
    requires l.Valid() && Accounted(l, mem, others)
    requires k < |l.nodes| && ai == l.nodes[k] && l.view[k].sock.Some? && NeedsCopy(l.view[k])
    modifies l, ai`next, mem
    ensures Grows(l, mem, others)
    ensures last == null <==> old(mem.avail) < 2
    ensures last != null ==> mem.avail == old(mem.avail) - 2
    ensures last != null ==> l.view == Dealt(old(l.view), k, socktype, port)
    ensures last != null ==> k + 1 < |l.nodes| && last == l.nodes[k + 1]
  {
    CopyIsDealt(l.view, k, socktype, port);
    hide Dealt, Splice, AddrList.Valid, AddrList.Owned, Stamp;
    SameLengths(l);
    last := GaClone(l, mem, ai, k, others);
    if last == null {
      return;
    }
    StampNode(l, mem, last, k + 1, socktype, port, others);
  }

  lemma CopyIsDealt(was: seq<Entry>, k: nat, socktype: int, port: nat)
    requires k < |was| && NeedsCopy(was[k])
    ensures var twin := was[k].(clone := false);
      Splice(was, k, twin)[k + 1] == twin &&
      Splice(was, k, twin)[k + 1 := Stamp(twin, socktype, port)] == Dealt(was, k, socktype, port)
  {
  }

  /** One turn of the walk, on node `k`; `last` is the node it ends on. */
  method PortStep(l: AddrList, mem: Memory, ai: AddrInfo, ghost k: nat, socktype: int, port: nat,
                  ghost others: set<object>)
    returns (last: AddrInfo?, hit: bool)
    requires l.Valid() && Accounted(l, mem, others)
    requires k < |l.nodes| && ai == l.nodes[k] && l.view[k].sock.Some?
    modifies l, ai, ai.addr, mem
    ensures Grows(l, mem, others)
    ensures last == null <==> NeedsCopy(old(l.view)[k]) && old(mem.avail) < 2
    ensures last != null ==> mem.avail == old(mem.avail) - if NeedsCopy(old(l.view)[k]) then 2 else 0
    ensures last != null ==> l.view == Dealt(old(l.view), k, socktype, port)
    ensures last != null ==> (hit <==> Wanted(old(l.view)[k], socktype))
    ensures last != null ==> last.next == At(l.nodes, k + |PortEntry(old(l.view)[k], socktype, port)|)
  {
    hide AddrList.Valid, AddrList.Owned, Dealt;
    SameLengths(l);
    NodeFacts(l, k);
    last, hit := ai, true;
    if ai.clone && ai.socktype != 0 {
      last := CopyStep(l, mem, ai, k, socktype, port, others);
      if last == null {
        return;
      }
      NodeFacts(l, k + 1);
      return;
    }
    if ai.clone || ai.socktype == socktype {
      StampNode(l, mem, ai, k, socktype, port, others);
      NodeFacts(l, k);
    } else {
      hit := false;
    }
    DealtInPlace(old(l.view), l.view, k, socktype, port);
  }

  lemma DealtInPlace(was: seq<Entry>, now: seq<Entry>, k: nat, socktype: int, port: nat)
    requires k < |was| && !NeedsCopy(was[k])
    requires now == if Wanted(was[k], socktype) then was[k := Stamp(was[k], socktype, port)] else was
    ensures now == Dealt(was, k, socktype, port) && |PortEntry(was[k], socktype, port)| == 1
  {
  }

  /** What a valid list says about its node `k`. */
  lemma NodeFacts(l: AddrList, k: nat)
    requires l.Valid() && k < |l.nodes|
    ensures l.nodes[k] in l.Owned() && (l.nodes[k].addr != null ==> l.nodes[k].addr in l.Owned())
    ensures l.nodes[k].next == At(l.nodes, k + 1)
    ensures l.nodes[k].Head() == l.view[k].(sock := None) && (l.nodes[k].addr == null <==> l.view[k].sock.None?)
  {
    assert NodeOk(l.nodes[k], At(l.nodes, k + 1), l.socks[k], if k == 0 then l.name else null, l.view[k]);
    CellsMembers(l.nodes, l.socks, l.name, l.nodes[k]);
    if l.nodes[k].addr != null {
      CellsMembers(l.nodes, l.socks, l.name, l.nodes[k].addr);
    }
  }

  lemma ListEnds(l: AddrList, i: nat)
    requires l.Valid()
    ensures l.head == At(l.nodes, 0) && |l.nodes| == |l.view|
    ensures i < |l.view| ==> At(l.nodes, i) == l.nodes[i]
    ensures At(l.nodes, i) == null <==> i >= |l.view|
  {
  }

  lemma CompleteAt(es: seq<Entry>, i: nat)
    requires Complete(es) && i < |es|
    ensures es[i].sock.Some?
  {
  }

  /** ga_port: -1 when memory runs out, else the number of entries that got the
      port. The walk ends although the list grows under it. */
  method GaPort(l: AddrList, mem: Memory, port: nat, socktype: int, ghost others: set<object>) returns (rc: int)
    requires l.Valid() && Accounted(l, mem, others) && Complete(l.view)
    modifies l, l.Owned(), mem
    ensures Grows(l, mem, others)
    ensures rc == -1 <==> old(mem.avail) < 2 * Copies(old(l.view))
    ensures rc != -1 ==> rc == Touched(old(l.view), socktype)
    ensures rc != -1 ==> l.view == PortList(old(l.view), socktype, port)
    ensures rc != -1 ==> mem.avail == old(mem.avail) - 2 * Copies(old(l.view))
  {
    hide Walk, Dealt, PortEntry, Wanted, NeedsCopy, PortList, Touched, Copies, Complete, At, NodeOk;
    hide AddrList.Valid, AddrList.Owned, AddrList.TailOk;
    ghost var es := l.view;
    WalkStarts(es, socktype, port);
    ListEnds(l, 0);
    ghost var i: nat, done: nat, used: nat := 0, 0, 0;
    var nfound: nat := 0;
    var ai := l.head;
    while ai != null
      invariant Grows(l, mem, others)
      invariant ai == At(l.nodes, done)
      invariant Walk(l.view, es, i, done, nfound, used, socktype, port)
      invariant mem.avail == old(mem.avail) - 2 * used
      decreases |es| - i
    {
      ListEnds(l, done);
      WalkEnds(l.view, es, i, done, nfound, used, socktype, port);
      CompleteAt(es, i);
      WalkNext(l.view, es, i, done, nfound, used, socktype, port);
      NodeFacts(l, done);
      ghost var before, e := l.view, es[i];
      assert before[done] == e;
      var last, hit := PortStep(l, mem, ai, done, socktype, port, others);
      if last == null {
        return -1;
      }
      if hit {
        nfound := nfound + 1;
      }
      assert l.view == Dealt(before, done, socktype, port);
      ai := last.next;
      done := done + |PortEntry(e, socktype, port)|;
      used := used + if NeedsCopy(e) then 1 else 0;
      i := i + 1;
    }
    ListEnds(l, done);
    WalkEnds(l.view, es, i, done, nfound, used, socktype, port);
    return nfound;
  }

  // ----- several rounds: every address with every socket type

  /** A round: a socket type and the port of the service for that type. */
  datatype Round = Round(socktype: int, port: nat)

  function Rounds(es: seq<Entry>, rs: seq<Round>): seq<Entry> {
    if rs == [] then es
    else
      var r := rs[|rs| - 1];
      PortList(Rounds(es, rs[..|rs| - 1]), r.socktype, r.port)
  }

  /** How many entries got a port, over all rounds. */
  function Found(es: seq<Entry>, rs: seq<Round>): nat {
    if rs == [] then 0
    else
      var before := rs[..|rs| - 1];
      Found(es, before) + Touched(Rounds(es, before), rs[|rs| - 1].socktype)
  }

  /** How many copies were made, over all rounds. */
  function Copied(es: seq<Entry>, rs: seq<Round>): nat {
    if rs == [] then 0
    else
      var before := rs[..|rs| - 1];
      Copied(es, before) + Copies(Rounds(es, before))
  }

  /** Distinct nonzero socket types. */
  predicate DistinctTypes(rs: seq<Round>) {
    && (forall i :: 0 <= i < |rs| ==> rs[i].socktype != 0)
    && (forall i, j :: 0 <= i < j < |rs| ==> rs[i].socktype != rs[j].socktype)
  }

  /** An address entry as the host search leaves it when no type was asked for. */
  predicate Unused(e: Entry) {
    e.clone && e.socktype == 0
  }

  /** The copy of `e` made for round `r`. */
  function CopyFor(e: Entry, r: Round): Entry {
    Stamp(e.(clone := false), r.socktype, r.port)
  }

  /** What one address becomes: the original with the first type, then the
      copies, the latest first. */
  function Block(e: Entry, rs: seq<Round>): (b: seq<Entry>)
    requires rs != []
    ensures |b| == |rs|
  {
    seq(|rs|, k requires 0 <= k < |rs| =>
      if k == 0 then Stamp(e, rs[0].socktype, rs[0].port) else CopyFor(e, rs[|rs| - k]))
  }

  function Blocks(es: seq<Entry>, rs: seq<Round>): seq<Entry>
    requires rs != []
  {
    if es == [] then [] else Blocks(es[..|es| - 1], rs) + Block(es[|es| - 1], rs)
  }

  lemma {:induction false} IgnoredByRound(es: seq<Entry>, r: Round)
    requires forall i :: 0 <= i < |es| ==> !es[i].clone && es[i].socktype != r.socktype
    ensures PortList(es, r.socktype, r.port) == es && Touched(es, r.socktype) == 0
  {
    if es != [] {
      IgnoredByRound(es[..|es| - 1], r);
      assert es == es[..|es| - 1] + [es[|es| - 1]];
    }
  }

  lemma PortListOne(e: Entry, socktype: int, port: nat)
    ensures PortList([e], socktype, port) == PortEntry(e, socktype, port)
    ensures Touched([e], socktype) == if Wanted(e, socktype) then 1 else 0
  {
    assert [e][..0] == [];
  }

  /** A later stamp wins, so copying a used original is copying the address. */
  lemma StampAgain(e: Entry, r: Round, q: Round)
    ensures CopyFor(Stamp(e, r.socktype, r.port), q) == CopyFor(e, q)
  {
  }

  lemma CopiesIgnored(e: Entry, rs: seq<Round>, r: Round)
    requires rs != [] && DistinctTypes(rs + [r])
    ensures var b := Block(e, rs);
      PortList(b[1..], r.socktype, r.port) == b[1..] && Touched(b[1..], r.socktype) == 0
  {
    var b := Block(e, rs);
    forall i | 0 <= i < |b[1..]| ensures !b[1..][i].clone && b[1..][i].socktype != r.socktype {
      var q := rs[|rs| - (i + 1)];
      assert b[1..][i] == b[i + 1] == CopyFor(e, q);
      assert (rs + [r])[|rs| - (i + 1)] == q && (rs + [r])[|rs|] == r;
    }
    IgnoredByRound(b[1..], r);
  }

  /** One more type extends every block by one copy and touches it once. */
  lemma BlockGrows(e: Entry, rs: seq<Round>, r: Round)
    requires Unused(e) && rs != [] && DistinctTypes(rs + [r])
    ensures PortList(Block(e, rs), r.socktype, r.port) == Block(e, rs + [r])
    ensures Touched(Block(e, rs), r.socktype) == 1
  {
    var b := Block(e, rs);
    CopiesIgnored(e, rs, r);
    StampAgain(e, rs[0], r);
    assert (rs + [r])[0] == rs[0];
    assert PortEntry(b[0], r.socktype, r.port) == [b[0], CopyFor(e, r)];
    assert b == [b[0]] + b[1..];
    PortListConcat([b[0]], b[1..], r.socktype, r.port);
    PortListOne(b[0], r.socktype, r.port);
    BlockSnoc(e, rs, r);
  }

  lemma BlockSnoc(e: Entry, rs: seq<Round>, r: Round)
    requires rs != []
    ensures Block(e, rs + [r]) == [Block(e, rs)[0], CopyFor(e, r)] + Block(e, rs)[1..]
  {
    var all := rs + [r];
    assert all[0] == rs[0] && all[|rs|] == r;
    forall k | 2 <= k < |all| ensures Block(e, all)[k] == Block(e, rs)[1..][k - 2] {
      assert all[|all| - k] == rs[|rs| - (k - 1)];
    }
  }

  lemma {:induction false} BlocksGrow(es: seq<Entry>, rs: seq<Round>, r: Round)
    requires (forall i :: 0 <= i < |es| ==> Unused(es[i])) && rs != [] && DistinctTypes(rs + [r])
    ensures PortList(Blocks(es, rs), r.socktype, r.port) == Blocks(es, rs + [r])
    ensures Touched(Blocks(es, rs), r.socktype) == |es|
  {
    if es != [] {
      var k := |es| - 1;
      BlocksGrow(es[..k], rs, r);
      BlockGrows(es[k], rs, r);
      PortListConcat(Blocks(es[..k], rs), Block(es[k], rs), r.socktype, r.port);
    }
  }

  lemma {:induction false} FirstRound(es: seq<Entry>, r: Round)
    requires forall i :: 0 <= i < |es| ==> Unused(es[i])
    ensures PortList(es, r.socktype, r.port) == Blocks(es, [r]) && Touched(es, r.socktype) == |es|
  {
    if es != [] {
      var k := |es| - 1;
      FirstRound(es[..k], r);
      assert Block(es[k], [r]) == PortEntry(es[k], r.socktype, r.port);
    }
  }

  lemma PrefixDistinct(rs: seq<Round>)
    requires rs != [] && DistinctTypes(rs)
    ensures DistinctTypes(rs[..|rs| - 1])
  {
  }

  /** Any number of rounds with distinct types leaves every address with every
      type, block by block, and every round touches each address once. */
  lemma {:induction false} RoundsMakeBlocks(es: seq<Entry>, rs: seq<Round>)
    requires (forall i :: 0 <= i < |es| ==> Unused(es[i])) && rs != [] && DistinctTypes(rs)
    ensures Rounds(es, rs) == Blocks(es, rs)
    ensures Touched(Rounds(es, rs[..|rs| - 1]), rs[|rs| - 1].socktype) == |es|
    decreases |rs|
  {
    hide PortList, Touched, Blocks;
    var before, r := rs[..|rs| - 1], rs[|rs| - 1];
    assert rs == before + [r];
    if before == [] {
      FirstRound(es, r);
    } else {
      PrefixDistinct(rs);
      RoundsMakeBlocks(es, before);
      BlocksGrow(es, before, r);
    }
  }

  /** So each of the k rounds returns n, n*k in all. */
  lemma {:induction false} FoundIsProduct(es: seq<Entry>, rs: seq<Round>)
    requires (forall i :: 0 <= i < |es| ==> Unused(es[i])) && DistinctTypes(rs)
    ensures Found(es, rs) == |es| * |rs|
    decreases |rs|
  {
    if rs != [] {
      PrefixDistinct(rs);
      FoundIsProduct(es, rs[..|rs| - 1]);
      RoundsMakeBlocks(es, rs);
      assert |es| * |rs| == |es| * (|rs| - 1) + |es|;
    }
  }

  lemma {:induction false} BlocksIndexed(es: seq<Entry>, rs: seq<Round>, i: nat, k: nat)
    requires rs != [] && i < |es| && k < |rs|
    ensures |Blocks(es, rs)| == |es| * |rs|
    ensures 0 <= i * |rs| + k < |es| * |rs|
    ensures Blocks(es, rs)[i * |rs| + k] == Block(es[i], rs)[k]
    decreases |es|
  {
    var last := |es| - 1;
    BlocksLength(es[..last], rs);
    BlocksLength(es, rs);
    assert |es| * |rs| == last * |rs| + |rs|;
    if i < last {
      BlocksIndexed(es[..last], rs, i, k);
    }
  }

  lemma {:induction false} BlocksLength(es: seq<Entry>, rs: seq<Round>)
    requires rs != []
    ensures |Blocks(es, rs)| == |es| * |rs|
  {
    if es != [] {
      BlocksLength(es[..|es| - 1], rs);
      assert |es| * |rs| == (|es| - 1) * |rs| + |rs|;
    }
  }

  /** n addresses and k distinct types make exactly n*k entries: the original of
      address `i` sits at i*k with the first type and port, and its copy for
      round `j` at i*k + k - j, with the same address and that round's type and
      port. */
  lemma {:induction false} EveryAddressEveryType(es: seq<Entry>, rs: seq<Round>, i: nat, j: nat)
    requires (forall m :: 0 <= m < |es| ==> Unused(es[m]) && es[m].sock.Some?)
    requires DistinctTypes(rs) && i < |es| && j < |rs|
    ensures |Rounds(es, rs)| == |es| * |rs|
    ensures var place := i * |rs| + if j == 0 then 0 else |rs| - j;
      && 0 <= place < |Rounds(es, rs)|
      && var got := Rounds(es, rs)[place];
         && got.socktype == rs[j].socktype
         && got.sock == Some(es[i].sock.value.(port := rs[j].port))
         && got.family == es[i].family && got.protocol == es[i].protocol
         && (got.clone <==> j == 0)
  {
    hide Rounds, Blocks;
    RoundsMakeBlocks(es, rs);
    var k: nat := if j == 0 then 0 else |rs| - j;
    BlocksIndexed(es, rs, i, k);
    assert Block(es[i], rs)[k] ==
      if j == 0 then Stamp(es[i], rs[0].socktype, rs[0].port) else CopyFor(es[i], rs[j]);
  }

  lemma TwoInBlock(e: Entry, r: Round, q: Round)
    ensures Block(e, [r, q])[0] == Stamp(e, r.socktype, r.port) && Block(e, [r, q])[1] == CopyFor(e, q)
  {
  }

  /** Two types: every original is followed by its copy. */
  lemma TwoRounds(es: seq<Entry>, r: Round, q: Round, i: nat)
    requires (forall m :: 0 <= m < |es| ==> Unused(es[m])) && i < |es|
    requires r.socktype != 0 && q.socktype != 0 && r.socktype != q.socktype
    ensures |Rounds(es, [r, q])| == 2 * |es| && Found(es, [r, q]) == 2 * |es|
    ensures Rounds(es, [r, q])[2 * i] == Stamp(es[i], r.socktype, r.port)
    ensures Rounds(es, [r, q])[2 * i + 1] == CopyFor(es[i], q)
  {
    var rs := [r, q];
    assert DistinctTypes(rs);
    TwoInBlock(es[i], r, q);
    hide Rounds, Blocks, Found, Block, DistinctTypes, Unused, Stamp, CopyFor;
    FoundIsProduct(es, rs);
    RoundsMakeBlocks(es, rs);
    var k: nat := 1;
    BlocksIndexed(es, rs, i, k - 1);
    BlocksIndexed(es, rs, i, k);
  }

  // ----- the service

  datatype Transport = Tcp | Udp

  const SOCK_STREAM := 1
  const SOCK_DGRAM := 2

  function LeadingDigits(s: string): (d: string)
    ensures AllDec(d) && d <= s && (|d| < |s| ==> !IsDec(s[|d|]))
  {
    if s != "" && IsDec(s[0]) then [s[0]] + LeadingDigits(s[1..]) else ""
  }

  /** The port a numeric service names: atoi, cut to 16 bits. */
  function NumericPort(serv: string): nat {
    DecVal(LeadingDigits(serv)) % 0x1_0000
  }

  /** `serv` starts with the decimal digits `d`, all of them, and `port` is the
      number they make, in 16 bits. */
  predicate PortNumber(serv: string, d: string, port: nat) {
    && d != "" && AllDec(d) && d <= serv && (|d| < |serv| ==> !IsDec(serv[|d|]))
    && port == DecVal(d) % 0x1_0000
  }

  lemma {:induction false} AllLeadingDigits(serv: string, d: string)
    requires AllDec(d) && d <= serv && (|d| < |serv| ==> !IsDec(serv[|d|]))
    ensures LeadingDigits(serv) == d
  {
    var e := LeadingDigits(serv);
    assert forall k :: 0 <= k < |d| ==> serv[k] == d[k];
    assert forall k :: 0 <= k < |e| ==> serv[k] == e[k];
    assert d == serv[..|d|] && e == serv[..|e|];
  }

  /** That is the port the service names. */
  lemma NumericPortIs(serv: string, d: string, port: nat)
    requires PortNumber(serv, d, port)
    ensures NumericPort(serv) == port && serv != "" && IsDec(serv[0])
  {
    AllLeadingDigits(serv, d);
    assert serv[0] == d[0];
    hide DecVal;
  }

  /** A port written in decimal, whatever follows its digits, is that port; a
      larger number loses its high bits. */
  lemma PortAsPrinted(n: nat, t: string)
    requires t == "" || !IsDec(t[0])
    ensures NumericPort(DecText(n) + t) == n % 0x1_0000
    ensures n <= 0xffff ==> NumericPort(DecText(n) + t) == n
  {
    var d := DecText(n);
    DecTextValue(n);
    hide DecVal, DecText;
    assert (d + t)[..|d|] == d && (t != "" ==> (d + t)[|d|] == t[0]);
    NumericPortIs(d + t, d, n % 0x1_0000);
  }

  type Services = (string, Transport) -> Option<nat>

  /** The rounds ga_serv makes for a service. */
  function ServiceRounds(socktype: int, serv: string, services: Services): seq<Round> {
    if serv != "" && IsDec(serv[0]) then
      if socktype != 0 then [Round(socktype, NumericPort(serv))]
      else [Round(SOCK_STREAM, NumericPort(serv)), Round(SOCK_DGRAM, NumericPort(serv))]
    else NamedRounds(socktype, services(serv, Tcp), services(serv, Udp))
  }

  predicate WantsType(socktype: int, offered: int) {
    socktype == 0 || socktype == offered
  }

  function NamedRounds(socktype: int, tcp: Option<nat>, udp: Option<nat>): seq<Round> {
    (if WantsType(socktype, SOCK_STREAM) && tcp.Some? then [Round(SOCK_STREAM, tcp.value)] else []) +
    (if WantsType(socktype, SOCK_DGRAM) && udp.Some? then [Round(SOCK_DGRAM, udp.value)] else [])
  }

  /** The result when memory suffices. */
  function ServiceRc(es: seq<Entry>, socktype: int, rs: seq<Round>): Rc {
    if Found(es, rs) > 0 then Ok else if socktype == 0 then NoName else Service
  }

  /** An entry as the host search leaves it, for the type that was asked for. */
  predicate AsSearched(e: Entry, socktype: int) {
    (e.clone <==> socktype == 0) && e.socktype == socktype
  }

  /** Entries of the round's own type all get its port, and none is copied. */
  lemma {:induction false} TypedRound(es: seq<Entry>, r: Round)
    requires r.socktype != 0 && forall i :: 0 <= i < |es| ==> AsSearched(es[i], r.socktype)
    ensures |PortList(es, r.socktype, r.port)| == |es| == Touched(es, r.socktype) && Copies(es) == 0
    ensures forall i :: 0 <= i < |es| ==>
      PortList(es, r.socktype, r.port)[i] == Stamp(es[i], r.socktype, r.port)
  {
    if es != [] {
      var front, e := es[..|es| - 1], es[|es| - 1];
      assert es == front + [e];
      TypedRound(front, r);
      PortListSnoc(front, e, r.socktype, r.port);
      assert PortEntry(e, r.socktype, r.port) == [Stamp(e, r.socktype, r.port)];
      hide PortList, Touched, Copies, PortEntry, Stamp;
    }
  }

  lemma OneRoundOnly(es: seq<Entry>, r: Round)
    ensures Rounds(es, [r]) == PortList(es, r.socktype, r.port)
    ensures Found(es, [r]) == Touched(es, r.socktype) && Copied(es, [r]) == Copies(es)
  {
    RoundsNone(es);
    RoundsSnoc(es, [], r);
    assert [] + [r] == [r];
  }

  lemma AtMostOne(socktype: int, serv: string, services: Services)
    requires socktype != 0
    ensures var rs := ServiceRounds(socktype, serv, services);
      |rs| <= 1 && (rs != [] ==> rs[0].socktype == socktype)
  {
  }

  /** A caller that gives the socket type gets the addresses once, in their order,
      with the port; at most one round is made, and nothing is copied. */
  lemma TypedService(es: seq<Entry>, socktype: int, serv: string, services: Services)
    requires socktype != 0 && forall i :: 0 <= i < |es| ==> AsSearched(es[i], socktype)
    ensures var rs := ServiceRounds(socktype, serv, services);
      && |rs| <= 1 && |Rounds(es, rs)| == |es| && Copied(es, rs) == 0
      && Found(es, rs) == |es| * |rs|
      && forall i :: 0 <= i < |es| ==>
        Rounds(es, rs)[i] == if rs == [] then es[i] else Stamp(es[i], socktype, rs[0].port)
  {
    var rs := ServiceRounds(socktype, serv, services);
    AtMostOne(socktype, serv, services);
    hide ServiceRounds, Rounds, Found, Copied, PortList, Touched, Copies, Stamp;
    RoundsNone(es);
    if rs != [] {
      assert rs == [rs[0]];
      TypedRound(es, rs[0]);
      OneRoundOnly(es, rs[0]);
    }
  }

  /** The databases offer the service for a type the caller wants, or it is a port
      number. */
  predicate Offered(socktype: int, serv: string, services: Services) {
    || (serv != "" && IsDec(serv[0]))
    || (WantsType(socktype, SOCK_STREAM) && services(serv, Tcp).Some?)
    || (WantsType(socktype, SOCK_DGRAM) && services(serv, Udp).Some?)
  }

  lemma OfferedRounds(socktype: int, serv: string, services: Services)
    ensures ServiceRounds(socktype, serv, services) != [] <==> Offered(socktype, serv, services)
  {
  }

  /** For the addresses of a host search, the service is found exactly when it is
      offered; if not, the code tells whether the caller gave a type. */
  lemma ServiceFoundExactly(es: seq<Entry>, socktype: int, serv: string, services: Services)
    requires es != [] && forall i :: 0 <= i < |es| ==> AsSearched(es[i], socktype)
    ensures ServiceRc(es, socktype, ServiceRounds(socktype, serv, services)) ==
      if Offered(socktype, serv, services) then Ok else if socktype == 0 then NoName else Service
  {
    hide ServiceRounds, Offered, Found, Rounds, Copied, DistinctTypes, Stamp;
    var rs := ServiceRounds(socktype, serv, services);
    OfferedRounds(socktype, serv, services);
    if socktype != 0 {
      TypedService(es, socktype, serv, services);
    } else {
      RoundsAreDistinct(serv, services);
      FoundIsProduct(es, rs);
    }
    assert Found(es, rs) == |es| * |rs|;
    Positive(|es|, |rs|);
  }

  /** An address entry with nothing but its first use ahead of it. */
  predicate Fresh(e: Entry) {
    e.clone && e.socktype == 0 && e.sock.Some?
  }

  /** A name that the database has for both transports, and no type given: each
      address as a stream with the TCP port and next to it as a datagram with the
      UDP port. */
  lemma NamedForBoth(es: seq<Entry>, serv: string, services: Services, tcp: nat, udp: nat, i: nat)
    requires (forall m :: 0 <= m < |es| ==> Fresh(es[m])) && i < |es| && es[i].sock.Some?
    requires !(serv != "" && IsDec(serv[0]))
    requires services(serv, Tcp) == Some(tcp) && services(serv, Udp) == Some(udp)
    ensures var got, e, v := Rounds(es, ServiceRounds(0, serv, services)), es[i], es[i].sock.value;
      && |got| == 2 * |es|
      && got[2 * i] == Entry(true, e.family, SOCK_STREAM, e.protocol, Some(SockVal(v.family, tcp, v.bytes)))
      && got[2 * i + 1] == Entry(false, e.family, SOCK_DGRAM, e.protocol, Some(SockVal(v.family, udp, v.bytes)))
  {
    var r, q := Round(SOCK_STREAM, tcp), Round(SOCK_DGRAM, udp);
    assert ServiceRounds(0, serv, services) == [r, q];
    TwoRounds(es, r, q, i);
    hide Rounds, ServiceRounds;
  }

  /** A name that it has for one transport only: each address once. */
  lemma NamedForOne(es: seq<Entry>, serv: string, services: Services, i: nat)
    requires (forall m :: 0 <= m < |es| ==> Fresh(es[m])) && i < |es| && es[i].sock.Some?
    requires !(serv != "" && IsDec(serv[0]))
    ensures var got, e, v := Rounds(es, ServiceRounds(0, serv, services)), es[i], es[i].sock.value;
      && (services(serv, Tcp).Some? && services(serv, Udp).None? ==>
          && |got| == |es|
          && got[i] == Entry(true, e.family, SOCK_STREAM, e.protocol,
                             Some(SockVal(v.family, services(serv, Tcp).value, v.bytes))))
      && (services(serv, Tcp).None? && services(serv, Udp).Some? ==>
          && |got| == |es|
          && got[i] == Entry(true, e.family, SOCK_DGRAM, e.protocol,
                             Some(SockVal(v.family, services(serv, Udp).value, v.bytes))))
  {
    var tcp, udp := services(serv, Tcp), services(serv, Udp);
    if tcp.Some? && udp.None? {
      var r := Round(SOCK_STREAM, tcp.value);
      assert ServiceRounds(0, serv, services) == [r];
      OnlyRound(es, r, i);
    } else if tcp.None? && udp.Some? {
      var r := Round(SOCK_DGRAM, udp.value);
      assert ServiceRounds(0, serv, services) == [r];
      OnlyRound(es, r, i);
    }
    hide Rounds, ServiceRounds;
  }

  lemma OnlyRound(es: seq<Entry>, r: Round, i: nat)
    requires (forall m :: 0 <= m < |es| ==> Fresh(es[m])) && i < |es| && es[i].sock.Some? && r.socktype != 0
    ensures var got, e, v := Rounds(es, [r]), es[i], es[i].sock.value;
      |got| == |es| && got[i] == Entry(true, e.family, r.socktype, e.protocol, Some(SockVal(v.family, r.port, v.bytes)))
  {
    EveryAddressEveryType(es, [r], i, 0);
    hide Rounds;
  }

  /** A type that is given takes the port of its own transport, or the number; and
      a name is not looked up for a type that is neither. */
  lemma PortForType(es: seq<Entry>, socktype: int, serv: string, services: Services, i: nat)
    requires socktype != 0 && i < |es| && es[i].sock.Some?
    requires forall m :: 0 <= m < |es| ==> AsSearched(es[m], socktype)
    ensures var got, e, v := Rounds(es, ServiceRounds(socktype, serv, services)), es[i], es[i].sock.value;
      && |got| == |es|
      && (forall d, port :: PortNumber(serv, d, port) ==>
          got[i] == Entry(false, e.family, socktype, e.protocol, Some(SockVal(v.family, port, v.bytes))))
      && (!(serv != "" && IsDec(serv[0])) ==>
          var found := if socktype == SOCK_STREAM then services(serv, Tcp)
                       else if socktype == SOCK_DGRAM then services(serv, Udp) else None;
          got[i] == if found.None? then e
                    else Entry(false, e.family, socktype, e.protocol, Some(SockVal(v.family, found.value, v.bytes))))
  {
    hide Rounds, PortNumber, NumericPort, ServiceRounds, Found, Copied;
    TypedService(es, socktype, serv, services);
    TypedRounds(socktype, serv, services);
    forall d, port | PortNumber(serv, d, port) ensures NumericPort(serv) == port && serv != "" && IsDec(serv[0]) {
      NumericPortIs(serv, d, port);
    }
  }

  lemma TypedRounds(socktype: int, serv: string, services: Services)
    requires socktype != 0
    ensures var found := if socktype == SOCK_STREAM then services(serv, Tcp)
                         else if socktype == SOCK_DGRAM then services(serv, Udp) else None;
      ServiceRounds(socktype, serv, services) ==
        if serv != "" && IsDec(serv[0]) then [Round(socktype, NumericPort(serv))]
        else if found.None? then [] else [Round(socktype, found.value)]
  {
    hide NumericPort;
  }

  /** `got` is the address of `e` with the round's type and port. */
  predicate Serves(got: Entry, e: Entry, r: Round) {
    && e.sock.Some? && got.socktype == r.socktype
    && got.sock == Some(e.sock.value.(port := r.port))
    && got.family == e.family && got.protocol == e.protocol
  }

  /** Where the entry of address `i` for round `j` of `k` stands. */
  function Place(i: nat, j: nat, k: nat): nat
    requires j < k
  {
    i * k + if j == 0 then 0 else k - j
  }

  lemma RoundsAreDistinct(serv: string, services: Services)
    ensures DistinctTypes(ServiceRounds(0, serv, services))
  {
  }

  /** A caller that leaves the type open gets each address with every type the
      service is offered for. */
  lemma {:induction false} OpenTypeService(es: seq<Entry>, serv: string, services: Services, i: nat, j: nat)
    requires Complete(es) && forall m :: 0 <= m < |es| ==> AsSearched(es[m], 0)
    requires i < |es| && j < |ServiceRounds(0, serv, services)|
    ensures var rs := ServiceRounds(0, serv, services);
      && |Rounds(es, rs)| == |es| * |rs| && Place(i, j, |rs|) < |Rounds(es, rs)|
      && Serves(Rounds(es, rs)[Place(i, j, |rs|)], es[i], rs[j])
  {
    var rs := ServiceRounds(0, serv, services);
    RoundsAreDistinct(serv, services);
    hide ServiceRounds, DistinctTypes, Rounds;
    EveryAddressEveryType(es, rs, i, j);
  }

  lemma Positive(a: nat, b: nat)
    requires a > 0
    ensures a * b > 0 <==> b > 0
  {
  }

  lemma {:induction false} RoundsComplete(es: seq<Entry>, rs: seq<Round>)
    requires Complete(es)
    ensures Complete(Rounds(es, rs))
  {
    if rs != [] {
      RoundsComplete(es, rs[..|rs| - 1]);
      PortListComplete(Rounds(es, rs[..|rs| - 1]), rs[|rs| - 1].socktype, rs[|rs| - 1].port);
    }
  }

  lemma RoundsSnoc(es: seq<Entry>, rs: seq<Round>, r: Round)
    ensures Rounds(es, rs + [r]) == PortList(Rounds(es, rs), r.socktype, r.port)
    ensures Found(es, rs + [r]) == Found(es, rs) + Touched(Rounds(es, rs), r.socktype)
    ensures Copied(es, rs + [r]) == Copied(es, rs) + Copies(Rounds(es, rs))
  {
    assert (rs + [r])[..|rs|] == rs;
  }

  lemma {:induction false} CopiedGrows(es: seq<Entry>, rs: seq<Round>, more: seq<Round>)
    ensures Copied(es, rs) <= Copied(es, rs + more)
  {
    if more == [] {
      assert rs + more == rs;
    } else {
      var last := more[|more| - 1];
      assert rs + more == (rs + more[..|more| - 1]) + [last];
      CopiedGrows(es, rs, more[..|more| - 1]);
      RoundsSnoc(es, rs + more[..|more| - 1], last);
    }
  }

  /** `nfound` entries have been counted in the rounds `rs` made so far. */
  twostate predicate Served(l: AddrList, mem: Memory, es: seq<Entry>, rs: seq<Round>, nfound: int, others: set<object>)
    reads l, l.nodes, l.socks, mem
  {
    && Grows(l, mem, others)
    && l.view == Rounds(es, rs) && nfound == Found(es, rs)
    && mem.avail == old(mem.avail) - 2 * Copied(es, rs)
  }

  /** One guarded call of ga_port inside ga_serv. */
  method OneRound(l: AddrList, mem: Memory, r: Round, ghost es: seq<Entry>, ghost rs: seq<Round>,
                  ghost others: set<object>)
    returns (rc: int)
    requires l.Valid() && Accounted(l, mem, others) && Complete(es) && l.view == Rounds(es, rs)
    modifies l, l.Owned(), mem
    ensures Grows(l, mem, others)
    ensures rc == -1 <==> old(mem.avail) + 2 * Copied(es, rs) < 2 * Copied(es, rs + [r])
    ensures rc != -1 ==> rc >= 0 && Found(es, rs) + rc == Found(es, rs + [r])
    ensures rc != -1 ==> l.view == Rounds(es, rs + [r])
    ensures rc != -1 ==> mem.avail + 2 * Copied(es, rs + [r]) == old(mem.avail) + 2 * Copied(es, rs)
  {
    RoundsComplete(es, rs);
    RoundsSnoc(es, rs, r);
    rc := GaPort(l, mem, r.port, r.socktype, others);
  }

  /** The numeric branch of ga_serv. */
  method NumericService(l: AddrList, mem: Memory, socktype: int, port: nat, ghost es: seq<Entry>,
                        ghost others: set<object>)
    returns (nfound: int, ghost rs: seq<Round>)
    requires l.Valid() && Accounted(l, mem, others) && Complete(es) && l.view == es
    modifies l, l.Owned(), mem
    ensures Grows(l, mem, others)
    ensures rs == if socktype != 0 then [Round(socktype, port)] else [Round(SOCK_STREAM, port), Round(SOCK_DGRAM, port)]
    ensures nfound == -1 <==> old(mem.avail) < 2 * Copied(es, rs)
    ensures nfound != -1 ==> Served(l, mem, es, rs, nfound, others)
  {
    hide Rounds, Found, Copied, Complete, AddrList.Valid, AddrList.Owned;
    RoundsNone(es);
    if socktype != 0 {
      rs := [] + [Round(socktype, port)];
      nfound := OneRound(l, mem, Round(socktype, port), es, [], others);
      return;
    }
    rs := [] + [Round(SOCK_STREAM, port)] + [Round(SOCK_DGRAM, port)];
    CopiedGrows(es, [] + [Round(SOCK_STREAM, port)], [Round(SOCK_DGRAM, port)]);
    var n := OneRound(l, mem, Round(SOCK_STREAM, port), es, [], others);
    if n < 0 {
      return -1, rs;
    }
    nfound := n;
    n := OneRound(l, mem, Round(SOCK_DGRAM, port), es, [] + [Round(SOCK_STREAM, port)], others);
    if n < 0 {
      return -1, rs;
    }
    nfound := nfound + n;
  }

  lemma RoundsNone(es: seq<Entry>)
    ensures Rounds(es, []) == es && Found(es, []) == 0 && Copied(es, []) == 0
  {
  }

  /** The branch of ga_serv for a service name: TCP, then UDP. */
  method NamedService(l: AddrList, mem: Memory, socktype: int, tcp: Option<nat>, udp: Option<nat>,
                      ghost es: seq<Entry>, ghost others: set<object>)
    returns (nfound: int, ghost rs: seq<Round>)
    requires l.Valid() && Accounted(l, mem, others) && Complete(es) && l.view == es
    modifies l, l.Owned(), mem
    ensures Grows(l, mem, others)
    ensures rs == NamedRounds(socktype, tcp, udp)
    ensures nfound == -1 <==> old(mem.avail) < 2 * Copied(es, rs)
    ensures nfound != -1 ==> Served(l, mem, es, rs, nfound, others)
  {
    hide Rounds, Found, Copied, Complete, AddrList.Valid, AddrList.Owned;
    RoundsNone(es);
    rs := [];
    nfound := 0;
    ghost var second := if WantsType(socktype, SOCK_DGRAM) && udp.Some? then [Round(SOCK_DGRAM, udp.value)] else [];
    if (socktype == 0 || socktype == SOCK_STREAM) && tcp.Some? {
      CopiedGrows(es, [] + [Round(SOCK_STREAM, tcp.value)], second);
      var n := OneRound(l, mem, Round(SOCK_STREAM, tcp.value), es, rs, others);
      rs := [] + [Round(SOCK_STREAM, tcp.value)];
      if n < 0 {
        return -1, rs + second;
      }
      nfound := n;
    }
    if (socktype == 0 || socktype == SOCK_DGRAM) && udp.Some? {
      var n := OneRound(l, mem, Round(SOCK_DGRAM, udp.value), es, rs, others);
      rs := rs + [Round(SOCK_DGRAM, udp.value)];
      if n < 0 {
        return -1, rs;
      }
      nfound := nfound + n;
    }
    assert rs == NamedRounds(socktype, tcp, udp);
  }

  /** ga_serv: the rounds the service calls for, and then whether anything was
      found. It fails for lack of memory exactly when the copies do not fit. */
  method GaServ(l: AddrList, mem: Memory, socktype: int, serv: string, services: Services, ghost others: set<object>)
    returns (rc: Rc)
    requires l.Valid() && Accounted(l, mem, others) && Complete(l.view)
    modifies l, l.Owned(), mem
    ensures Grows(l, mem, others)
    ensures var rs := ServiceRounds(socktype, serv, services);
      && (rc == NoMemory <==> old(mem.avail) < 2 * Copied(old(l.view), rs))
      && (rc != NoMemory ==> l.view == Rounds(old(l.view), rs) && rc == ServiceRc(old(l.view), socktype, rs))
  {
    hide Rounds, Found, Copied, Complete, AddrList.Valid, AddrList.Owned;
    var nfound;
    ghost var rs;
    if serv != "" && IsDec(serv[0]) {
      nfound, rs := NumericService(l, mem, socktype, NumericPort(serv), l.view, others);
    } else {
      nfound, rs := NamedService(l, mem, socktype, services(serv, Tcp), services(serv, Udp), l.view, others);
    }
    assert rs == ServiceRounds(socktype, serv, services);
    if nfound == -1 {
      return NoMemory;
    }
    if nfound == 0 {
      rc := if socktype == 0 then NoName else Service;
    } else {
      rc := Ok;
    }
  }
}
