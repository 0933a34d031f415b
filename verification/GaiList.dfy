/** The linked list of addrinfo structures: ga_aistruct.c, ga_clone.c and
    freeaddrinfo.c. Memory is explicit: `avail` allocations still succeed, and
    `live` holds what has been allocated and not freed. */
module GaiList {
  import opened CText

  datatype Family = Inet | Inet6

  /** A socket address structure: everything but the port is set at creation. */
  datatype SockVal = SockVal(family: Family, port: nat, bytes: seq<Byte>)

  /** The value of one addrinfo and of the socket address it points to. */
  datatype Entry = Entry(clone: bool, family: Family, socktype: int, protocol: int, sock: Option<SockVal>)

  datatype Rc = Ok | AddrFamily | Again | BadFlags | Fail | BadFamily | NoMemory | NoData | NoName
    | Service | SockType | Quit

  class Memory {
    var avail: nat
    ghost var live: set<object>

    constructor (n: nat)
      ensures avail == n && live == {}
    {
      avail := n;
      live := {};
    }

    /** calloc, malloc or strdup: does this one succeed? */
    method Allocate() returns (ok: bool)
      modifies this`avail
      ensures ok <==> old(avail) > 0
      ensures avail == if ok then old(avail) - 1 else old(avail)
    {
      ok := avail > 0;
      if ok {
        avail := avail - 1;
      }
    }

    /** free: only what is live may be freed. */
    method Free(o: object)
      requires o in live
      modifies this`live
      ensures live == old(live) - {o}
    {
      live := live - {o};
    }
  }

  class Sockaddr {
    var val: SockVal

    constructor (v: SockVal)
      ensures val == v
    {
      val := v;
    }
  }

  class CanonName {
    const text: string

    constructor (t: string)
      ensures text == t
    {
      text := t;
    }
  }

  class AddrInfo {
    var clone: bool
    var family: Family
    var socktype: int
    var protocol: int
    var canon: CanonName?
    var addr: Sockaddr?
    var next: AddrInfo?

    constructor (clone: bool, family: Family, socktype: int, protocol: int)
      ensures Head() == Entry(clone, family, socktype, protocol, None)
      ensures canon == null && addr == null && next == null
    {
      this.clone, this.family, this.socktype, this.protocol := clone, family, socktype, protocol;
      canon, addr, next := null, null, null;
    }

    /** The node's own fields; the socket address hangs off `addr`. */
    ghost function Head(): Entry
      reads this
    {
      Entry(clone, family, socktype, protocol, None)
    }
  }

  /** ai_family: unspecified, one of the two, AF_LOCAL, or a number that is none. */
  datatype FamilyHint = Unspec | Only(family: Family) | Local | Unknown

  datatype Hints = Hints(flags: int, family: FamilyHint, socktype: int, protocol: int)

  function At(ns: seq<AddrInfo>, i: nat): AddrInfo? {
    if i < |ns| then ns[i] else null
  }

  /** The fields of one node, and of the socket address it points to. */
  ghost predicate NodeOk(n: AddrInfo, next: AddrInfo?, sock: Sockaddr?, name: CanonName?, e: Entry)
    reads n, sock
  {
    && n.next == next && n.addr == sock && n.canon == name
    && n.Head() == e.(sock := None)
    && e.sock == if sock == null then None else Some(sock.val)
  }

  /** `s` with `x` put in after place `k`. */
  function Splice<T>(s: seq<T>, k: nat, x: T): (r: seq<T>)
    requires k < |s|
    ensures |r| == |s| + 1 && r[k + 1] == x
    ensures forall i :: 0 <= i <= k ==> r[i] == s[i]
    ensures forall i :: k + 1 < i < |r| ==> r[i] == s[i - 1]
  {
    s[..k + 1] + [x] + s[k + 1..]
  }

  predicate Distinct(ns: seq<AddrInfo>) {
    forall i, j :: 0 <= i < j < |ns| ==> ns[i] != ns[j]
  }

  predicate DistinctSocks(ss: seq<Sockaddr?>) {
    forall i, j :: 0 <= i < j < |ss| && ss[i] != null ==> ss[i] != ss[j]
  }

  lemma SpliceDistinct(ns: seq<AddrInfo>, k: nat, n: AddrInfo)
    requires k < |ns| && n !in ns && Distinct(ns)
    ensures Distinct(Splice(ns, k, n))
  {
  }

  lemma AppendDistinct(ns: seq<AddrInfo>, ss: seq<Sockaddr?>, n: AddrInfo)
    requires Distinct(ns) && DistinctSocks(ss) && n !in ns
    ensures Distinct(ns + [n]) && DistinctSocks(ss + [null])
  {
  }

  lemma SpliceDistinctSocks(ss: seq<Sockaddr?>, k: nat)
    requires k < |ss| && DistinctSocks(ss)
    ensures DistinctSocks(Splice(ss, k, null))
  {
  }

  ghost function Just(o: object?): set<object> {
    if o == null then {} else {o}
  }

  /** The objects a list is made of. */
  ghost function Cells(ns: seq<AddrInfo>, ss: seq<Sockaddr?>, name: CanonName?): set<object>
    requires |ns| == |ss|
  {
    if ns == [] then Just(name)
    else
      var k := |ns| - 1;
      Cells(ns[..k], ss[..k], name) + {ns[k]} + Just(ss[k])
  }

  lemma {:induction false} CellsMembers(ns: seq<AddrInfo>, ss: seq<Sockaddr?>, name: CanonName?, o: object)
    requires |ns| == |ss|
    ensures o in Cells(ns, ss, name) <==>
      || o == name
      || exists i :: 0 <= i < |ns| && (o == ns[i] || o == ss[i])
  {
    if ns != [] {
      var k := |ns| - 1;
      CellsMembers(ns[..k], ss[..k], name, o);
      assert forall i :: 0 <= i < k ==> ns[..k][i] == ns[i] && ss[..k][i] == ss[i];
      if o == ns[k] || o == ss[k] {
        assert o in Cells(ns, ss, name);
      }
    }
  }

  lemma CellsLast(ns: seq<AddrInfo>, ss: seq<Sockaddr?>, name: CanonName?)
    requires |ns| == |ss| > 0
    ensures var k := |ns| - 1;
      Cells(ns, ss, name) == Cells(ns[..k], ss[..k], name) + {ns[k]} + Just(ss[k])
  {
  }

  lemma CellsSnoc(ns: seq<AddrInfo>, ss: seq<Sockaddr?>, name: CanonName?, n: AddrInfo)
    requires |ns| == |ss|
    ensures Cells(ns + [n], ss + [null], name) == Cells(ns, ss, name) + {n}
  {
    assert (ns + [n])[..|ns|] == ns && (ss + [null])[..|ss|] == ss;
  }

  lemma {:induction false} CellsSplice(ns: seq<AddrInfo>, ss: seq<Sockaddr?>, name: CanonName?, k: nat, n: AddrInfo)
    requires k < |ns| == |ss|
    ensures Cells(Splice(ns, k, n), Splice(ss, k, null), name) == Cells(ns, ss, name) + {n}
  {
    hide Cells;
    var last, more, mores := |ns| - 1, Splice(ns, k, n), Splice(ss, k, null);
    if k == last {
      CellsSnoc(ns, ss, name, n);
      assert more == ns + [n] && mores == ss + [null];
    } else {
      assert more[..last + 1] == Splice(ns[..last], k, n);
      assert mores[..last + 1] == Splice(ss[..last], k, null);
      CellsSplice(ns[..last], ss[..last], name, k, n);
      CellsLast(ns, ss, name);
      CellsLast(more, mores, name);
    }
  }

  lemma {:induction false} CellsSock(ns: seq<AddrInfo>, ss: seq<Sockaddr?>, name: CanonName?, k: nat, sa: Sockaddr)
    requires k < |ns| == |ss| && ss[k] == null
    ensures Cells(ns, ss[k := sa], name) == Cells(ns, ss, name) + {sa}
  {
    var last := |ns| - 1;
    if k == last {
      assert ss[k := sa][..last] == ss[..last];
    } else {
      assert ss[k := sa][..last] == ss[..last][k := sa];
      CellsSock(ns[..last], ss[..last], name, k, sa);
    }
  }

  /** The list under construction: the variables aihead and aipnext of the
      caller. `tail` is the node whose ai_next aipnext points to, null while it
      points to aihead itself. The ghost fields say what the list is made of
      and what it means. */
  class AddrList {
    var head: AddrInfo?
    var tail: AddrInfo?
    ghost var nodes: seq<AddrInfo>
    ghost var socks: seq<Sockaddr?>
    ghost var name: CanonName?
    ghost var view: seq<Entry>

    constructor ()
      ensures Valid() && TailOk() && view == [] && Owned() == {}
    {
      head, tail, name := null, null, null;
      nodes, socks, view := [], [], [];
    }

    /** Everything the list keeps alive. */
    ghost function Owned(): set<object>
      reads this
    {
      if |nodes| == |socks| then Cells(nodes, socks, name) else {}
    }

    /** One acyclic chain whose nodes share no socket address. */
    ghost predicate Valid()
      reads this, nodes, socks
    {
      && |nodes| == |socks| == |view|
      && head == At(nodes, 0)
      && Distinct(nodes) && DistinctSocks(socks)
      && (nodes == [] ==> name == null)
      && forall i :: 0 <= i < |nodes| ==>
        NodeOk(nodes[i], At(nodes, i + 1), socks[i], if i == 0 then name else null, view[i])
    }

    ghost predicate TailOk()
      reads this
    {
      tail == if nodes == [] then null else nodes[|nodes| - 1]
    }
  }

  /** Node `i` of a stretch that leads to `last` and has the name at its start. */
  ghost predicate NodeIs(ns: seq<AddrInfo>, ss: seq<Sockaddr?>, name: CanonName?, es: seq<Entry>, last: AddrInfo?,
                         i: nat)
    requires i < |ns| == |ss| == |es|
    reads ns, ss
  {
    NodeOk(ns[i], if i + 1 < |ns| then ns[i + 1] else last, ss[i], if i == 0 then name else null, es[i])
  }

  /** A stretch of a list: its nodes, their socket addresses, the name at its first
      node, what it means, and the node it leads to. */
  ghost predicate Chain(ns: seq<AddrInfo>, ss: seq<Sockaddr?>, name: CanonName?, es: seq<Entry>, last: AddrInfo?)
    reads ns, ss
  {
    && |ns| == |ss| == |es|
    && forall i :: 0 <= i < |ns| ==> NodeIs(ns, ss, name, es, last, i)
  }

  lemma ChainIsValid(l: AddrList)
    ensures l.Valid() <==>
      && l.head == At(l.nodes, 0) && Distinct(l.nodes) && DistinctSocks(l.socks) && (l.nodes == [] ==> l.name == null)
      && Chain(l.nodes, l.socks, l.name, l.view, null)
  {
    hide NodeOk, Distinct, DistinctSocks;
    var ns, ss, name, es := l.nodes, l.socks, l.name, l.view;
    if |ns| == |ss| == |es| {
      forall i | 0 <= i < |ns|
        ensures NodeIs(ns, ss, name, es, null, i) ==
          NodeOk(ns[i], At(ns, i + 1), ss[i], if i == 0 then name else null, es[i])
      {
      }
    }
  }

  lemma ChainSplit(ns: seq<AddrInfo>, ss: seq<Sockaddr?>, name: CanonName?, es: seq<Entry>, last: AddrInfo?, m: nat)
    requires Chain(ns, ss, name, es, last) && m <= |ns|
    ensures Chain(ns[..m], ss[..m], name, es[..m], if m < |ns| then ns[m] else last)
    ensures Chain(ns[m..], ss[m..], if m == 0 then name else null, es[m..], last)
  {
    hide NodeOk;
    var mid, rear := if m < |ns| then ns[m] else last, if m == 0 then name else null;
    forall i | 0 <= i < m ensures NodeIs(ns[..m], ss[..m], name, es[..m], mid, i) {
      assert NodeIs(ns, ss, name, es, last, i);
    }
    forall i | 0 <= i < |ns| - m ensures NodeIs(ns[m..], ss[m..], rear, es[m..], last, i) {
      assert NodeIs(ns, ss, name, es, last, m + i);
    }
  }

  lemma ChainJoin(ns: seq<AddrInfo>, ss: seq<Sockaddr?>, name: CanonName?, es: seq<Entry>, last: AddrInfo?, m: nat)
    requires m <= |ns| == |ss| == |es|
    requires Chain(ns[..m], ss[..m], name, es[..m], if m < |ns| then ns[m] else last)
    requires Chain(ns[m..], ss[m..], if m == 0 then name else null, es[m..], last)
    ensures Chain(ns, ss, name, es, last)
  {
    hide NodeOk;
    var mid, rear := if m < |ns| then ns[m] else last, if m == 0 then name else null;
    forall i | 0 <= i < |ns| ensures NodeIs(ns, ss, name, es, last, i) {
      if i < m {
        assert NodeIs(ns[..m], ss[..m], name, es[..m], mid, i);
      } else {
        assert NodeIs(ns[m..], ss[m..], rear, es[m..], last, i - m);
      }
    }
  }

  /** What a valid list says about its node `i`. */
  lemma NodeAt(l: AddrList, i: nat)
    requires l.Valid() && i < |l.nodes|
    ensures NodeOk(l.nodes[i], At(l.nodes, i + 1), l.socks[i], if i == 0 then l.name else null, l.view[i])
    ensures l.nodes[i].next == At(l.nodes, i + 1) && l.nodes[i].Head() == l.view[i].(sock := None)
    ensures l.view[i].sock == if l.nodes[i].addr == null then None else Some(l.nodes[i].addr.val)
  {
  }

  /** No leak and no dangling pointer: besides `others`, the live memory is
      exactly what the list owns. */
  ghost predicate Accounted(l: AddrList, mem: Memory, others: set<object>)
    reads l, mem
  {
    && mem.live == others + l.Owned() && others !! l.Owned()
    && l !in mem.live && mem !in mem.live
  }

  /** The list before node `k`, the node, and the list after it. */
  lemma CutAround(ns: seq<AddrInfo>, ss: seq<Sockaddr?>, name: CanonName?, es: seq<Entry>, k: nat)
    requires Chain(ns, ss, name, es, null) && k < |ns| && Distinct(ns)
    ensures Chain(ns[..k], ss[..k], name, es[..k], ns[k])
    ensures NodeOk(ns[k], if k + 1 < |ns| then ns[k + 1] else null, ss[k], if k == 0 then name else null, es[k])
    ensures Chain(ns[k + 1..], ss[k + 1..], null, es[k + 1..], null)
    ensures ns[k] !in ns[..k] && ns[k] !in ns[k + 1..]
  {
    ChainSplit(ns, ss, name, es, null, k);
    ChainSplit(ns, ss, name, es, null, k + 1);
    assert NodeIs(ns, ss, name, es, null, k);
    hide NodeOk;
  }

  lemma OneNode(n: AddrInfo, next: AddrInfo?, sock: Sockaddr?, name: CanonName?, e: Entry)
    requires NodeOk(n, next, sock, name, e)
    ensures Chain([n], [sock], name, [e], next)
  {
  }

  lemma JoinAround(ns: seq<AddrInfo>, ss: seq<Sockaddr?>, name: CanonName?, es: seq<Entry>, k: nat, ai: AddrInfo,
                   e: Entry)
    requires k < |ns| == |ss| == |es|
    requires Chain(ns[..k], ss[..k], name, es[..k], ns[k])
    requires Chain([ns[k]], [ss[k]], if k == 0 then name else null, [es[k]], ai)
    requires Chain([ai], [null], null, [e], if k + 1 < |ns| then ns[k + 1] else null)
    requires Chain(ns[k + 1..], ss[k + 1..], null, es[k + 1..], null)
    ensures Chain(Splice(ns, k, ai), Splice(ss, k, null), name, Splice(es, k, e), null)
  {
    var n, s, v := Splice(ns, k, ai), Splice(ss, k, null), Splice(es, k, e);
    assert n[..k] == ns[..k] && s[..k] == ss[..k] && v[..k] == es[..k];
    assert n[k + 2..] == ns[k + 1..] && s[k + 2..] == ss[k + 1..] && v[k + 2..] == es[k + 1..];
    hide Chain, Splice;
    assert n[k + 1..][..1] == [ai] && s[k + 1..][..1] == [null] && v[k + 1..][..1] == [e];
    assert n[k + 1..][1..] == n[k + 2..] && s[k + 1..][1..] == s[k + 2..] && v[k + 1..][1..] == v[k + 2..];
    ChainJoin(n[k + 1..], s[k + 1..], null, v[k + 1..], null, 1);
    assert n[k..][..1] == [ns[k]] && s[k..][..1] == [ss[k]] && v[k..][..1] == [es[k]];
    assert n[k..][1..] == n[k + 1..] && s[k..][1..] == s[k + 1..] && v[k..][1..] == v[k + 1..];
    ChainJoin(n[k..], s[k..], if k == 0 then name else null, v[k..], null, 1);
    ChainJoin(n, s, name, v, null, k);
  }

  /** Appending a fresh node through the pointer to the last link. */
  method LinkLast(l: AddrList, ai: AddrInfo)
    requires l.Valid() && l.TailOk() && ai !in l.nodes
    requires ai.next == null && ai.addr == null && ai.canon == null
    modifies l, l.tail
    ensures l.Valid() && l.TailOk() && l.nodes == old(l.nodes) + [ai] && l.socks == old(l.socks) + [null]
    ensures l.view == old(l.view) + [old(ai.Head())] && l.name == old(l.name)
  {
    hide Chain, Distinct, DistinctSocks, AddrList.Valid;
    ghost var ns, ss, es, name := l.nodes, l.socks, l.view, l.name;
    SameLengths(l);
    ChainIsValid(l);
    AppendDistinct(ns, ss, ai);
    if l.tail == null {
      l.head := ai;
    } else {
      CutAround(ns, ss, name, es, |ns| - 1);
      l.tail.next := ai;
    }
    ghost var prev := l.tail;
    l.tail := ai;
    l.nodes := l.nodes + [ai];
    l.socks := l.socks + [null];
    l.view := l.view + [ai.Head()];
    if prev == null {
      assert name == null && ns + [ai] == [ai] && ss + [null] == [null] && es + [ai.Head()] == [ai.Head()];
      OneNode(ai, null, null, null, ai.Head());
    } else {
      ghost var k := |ns| - 1;
      OneNode(prev, ai, ss[k], if k == 0 then name else null, es[k]);
      OneNode(ai, null, null, null, ai.Head());
      JoinAround(ns, ss, name, es, k, ai, ai.Head());
      assert Splice(ns, k, ai) == ns + [ai] && Splice(ss, k, null) == ss + [null];
      assert Splice(es, k, ai.Head()) == es + [ai.Head()];
    }
    ChainIsValid(l);
  }

  /** Splicing a fresh node in after node `k`. */
  method LinkAfter(l: AddrList, prev: AddrInfo, ghost k: nat, ai: AddrInfo)
    requires l.Valid() && k < |l.nodes| && prev == l.nodes[k] && ai !in l.nodes
    requires ai.addr == null && ai.canon == null
    modifies l`nodes, l`socks, l`view, prev`next, ai`next
    ensures l.Valid() && l.nodes == Splice(old(l.nodes), k, ai)
    ensures l.socks == Splice(old(l.socks), k, null)
    ensures l.view == Splice(old(l.view), k, old(ai.Head()))
  {
    hide Chain, Splice, Distinct, DistinctSocks, AddrList.Valid;
    ghost var ns, ss, es, name := l.nodes, l.socks, l.view, l.name;
    SameLengths(l);
    ChainIsValid(l);
    SpliceDistinct(ns, k, ai);
    SpliceDistinctSocks(ss, k);
    CutAround(ns, ss, name, es, k);
    ai.next := prev.next;
    prev.next := ai;
    l.nodes := Splice(l.nodes, k, ai);
    l.socks := Splice(l.socks, k, null);
    l.view := Splice(l.view, k, ai.Head());
    OneNode(prev, ai, ss[k], if k == 0 then name else null, es[k]);
    OneNode(ai, if k + 1 < |ns| then ns[k + 1] else null, null, null, ai.Head());
    JoinAround(ns, ss, name, es, k, ai, ai.Head());
    ChainIsValid(l);
  }

  /** Setting the socket type of node `k`. */
  method SetSocktype(l: AddrList, ai: AddrInfo, ghost k: nat, socktype: int)
    requires l.Valid() && k < |l.nodes| && ai == l.nodes[k]
    modifies l`view, ai`socktype
    ensures l.Valid() && l.view == old(l.view)[k := old(l.view)[k].(socktype := socktype)]
  {
    ai.socktype := socktype;
    l.view := l.view[k := l.view[k].(socktype := socktype)];
    forall i | 0 <= i < |l.nodes|
      ensures NodeOk(l.nodes[i], At(l.nodes, i + 1), l.socks[i], if i == 0 then l.name else null, l.view[i])
    {
      assert old(NodeOk(l.nodes[i], At(l.nodes, i + 1), l.socks[i], if i == 0 then l.name else null, l.view[i]));
      if i != k { assert l.nodes[i] != ai; }
    }
  }

  /** Hanging a fresh socket address off node `k`. */
  method AttachSock(l: AddrList, ai: AddrInfo, ghost k: nat, sa: Sockaddr)
    requires l.Valid() && k < |l.nodes| && ai == l.nodes[k] && l.socks[k] == null && sa !in l.socks
    modifies l`view, l`socks, ai`addr
    ensures l.Valid() && l.socks == old(l.socks)[k := sa]
    ensures l.view == old(l.view)[k := old(l.view)[k].(sock := Some(sa.val))]
  {
    ai.addr := sa;
    l.socks := l.socks[k := sa];
    l.view := l.view[k := l.view[k].(sock := Some(sa.val))];
    forall i | 0 <= i < |l.nodes|
      ensures NodeOk(l.nodes[i], At(l.nodes, i + 1), l.socks[i], if i == 0 then l.name else null, l.view[i])
    {
      assert old(NodeOk(l.nodes[i], At(l.nodes, i + 1), l.socks[i], if i == 0 then l.name else null, l.view[i]));
      if i != k { assert l.nodes[i] != ai; }
    }
  }

  /** Setting the port of node `k`. */
  method SetPort(l: AddrList, ai: AddrInfo, ghost k: nat, port: nat)
    requires l.Valid() && k < |l.nodes| && ai == l.nodes[k] && ai.addr != null
    modifies l`view, ai.addr
    ensures l.Valid()
    ensures old(l.view)[k].sock.Some? && l.view ==
      old(l.view)[k := old(l.view)[k].(sock := Some(old(l.view)[k].sock.value.(port := port)))]
  {
    ai.addr.val := ai.addr.val.(port := port);
    l.view := l.view[k := l.view[k].(sock := Some(ai.addr.val))];
    forall i | 0 <= i < |l.nodes|
      ensures NodeOk(l.nodes[i], At(l.nodes, i + 1), l.socks[i], if i == 0 then l.name else null, l.view[i])
    {
      assert old(NodeOk(l.nodes[i], At(l.nodes, i + 1), l.socks[i], if i == 0 then l.name else null, l.view[i]));
      if i != k { assert l.socks[i] != ai.addr; }
    }
  }

  /** The entry an address becomes: still to be cloned when no socket type was
      asked for. */
  function NewEntry(hints: Hints, family: Family, bytes: seq<Byte>): Entry {
    Entry(hints.socktype == 0, family, hints.socktype, hints.protocol, Some(SockVal(family, 0, bytes)))
  }

  /** What a builder step keeps besides the meaning of the list: it stays one
      chain, owns exactly the live memory, and grows only by fresh objects. */
  twostate predicate Grows(l: AddrList, mem: Memory, others: set<object>)
    reads l, l.nodes, l.socks, mem
  {
    && l.Valid() && Accounted(l, mem, others)
    && fresh(l.Owned() - old(l.Owned()))
    && l.name == old(l.name)
  }

  /** calloc of one addrinfo, with its own fields set. */
  method NewNode(mem: Memory, clone: bool, family: Family, socktype: int, protocol: int) returns (ai: AddrInfo?)
    modifies mem
    ensures ai == null <==> old(mem.avail) == 0
    ensures ai == null ==> mem.live == old(mem.live)
    ensures ai != null ==> fresh(ai) && mem.live == old(mem.live) + {ai} && mem.avail == old(mem.avail) - 1
    ensures ai != null ==> ai.Head() == Entry(clone, family, socktype, protocol, None)
    ensures ai != null ==> ai.next == null && ai.addr == null && ai.canon == null
  {
    var ok := mem.Allocate();
    if !ok {
      return null;
    }
    ai := new AddrInfo(clone, family, socktype, protocol);
    mem.live := mem.live + {ai};
  }

  /** One object more in the list and in memory. */
  lemma OneMoreOwned(live: set<object>, owned: set<object>, others: set<object>, o: object)
    requires live == others + owned && others !! owned && o !in live
    ensures live + {o} == others + (owned + {o}) && others !! owned + {o} && owned + {o} - owned == {o}
  {
  }

  lemma OwnedIs(l: AddrList)
    requires |l.nodes| == |l.socks|
    ensures l.Owned() == Cells(l.nodes, l.socks, l.name)
  {
  }

  /** The first allocation of ga_aistruct: a node at the end of the list. */
  method AppendNode(l: AddrList, mem: Memory, hints: Hints, family: Family, ghost others: set<object>)
    returns (ai: AddrInfo?)
    requires l.Valid() && l.TailOk() && Accounted(l, mem, others)
    modifies l, l.tail, mem
    ensures Grows(l, mem, others) && l.TailOk()
    ensures ai == null <==> old(mem.avail) == 0
    ensures ai == null ==> l.nodes == old(l.nodes) && l.view == old(l.view) && l.socks == old(l.socks)
    ensures ai != null ==> mem.avail == old(mem.avail) - 1 && fresh(ai)
    ensures ai != null ==> l.nodes == old(l.nodes) + [ai] && l.socks == old(l.socks) + [null]
    ensures ai != null ==>
      l.view == old(l.view) + [Entry(hints.socktype == 0, family, hints.socktype, hints.protocol, None)]
  {
    hide AddrList.Valid, AddrList.Owned, Cells;
    ai := NewNode(mem, hints.socktype == 0, family, hints.socktype, hints.protocol);
    if ai == null {
      return;
    }
    SameLengths(l);
    OwnedIs(l);
    CellsSnoc(l.nodes, l.socks, l.name, ai);
    LinkLast(l, ai);
    OwnedIs(l);
    OneMoreOwned(old(mem.live), old(l.Owned()), others, ai);
  }

  /** calloc or malloc of one socket address, filled in. */
  method NewSock(mem: Memory, val: SockVal) returns (sa: Sockaddr?)
    modifies mem
    ensures sa == null <==> old(mem.avail) == 0
    ensures sa == null ==> mem.live == old(mem.live)
    ensures sa != null ==> fresh(sa) && mem.live == old(mem.live) + {sa} && mem.avail == old(mem.avail) - 1
    ensures sa != null ==> sa.val == val
  {
    var ok := mem.Allocate();
    if !ok {
      return null;
    }
    sa := new Sockaddr(val);
    mem.live := mem.live + {sa};
  }

  /** The second allocation of ga_aistruct and of ga_clone: a socket address. */
  method AllocateSock(l: AddrList, mem: Memory, ai: AddrInfo, ghost k: nat, val: SockVal, ghost others: set<object>)
    returns (ok: bool)
    requires l.Valid() && Accounted(l, mem, others)
    requires k < |l.nodes| && ai == l.nodes[k] && l.socks[k] == null
    modifies l`view, l`socks, ai`addr, mem
    ensures Grows(l, mem, others)
    ensures ok <==> old(mem.avail) > 0
    ensures !ok ==> l.view == old(l.view) && l.socks == old(l.socks)
    ensures ok ==> mem.avail == old(mem.avail) - 1 && ai.addr != null && fresh(ai.addr)
    ensures ok ==> l.view == old(l.view)[k := old(l.view)[k].(sock := Some(val))]
  {
    var sa := NewSock(mem, val);
    ok := sa != null;
    if ok {
      CellsSock(l.nodes, l.socks, l.name, k, sa);
      AttachSock(l, ai, k, sa);
    }
  }

  /** ga_aistruct. When the second allocation fails the node is in the list
      already, without a socket address. */
  method GaAistruct(l: AddrList, mem: Memory, hints: Hints, bytes: seq<Byte>, family: Family, ghost others: set<object>)
    returns (rc: Rc)
    requires l.Valid() && l.TailOk() && Accounted(l, mem, others)
    modifies l, l.tail, mem
    ensures Grows(l, mem, others) && l.TailOk()
    ensures rc == if old(mem.avail) >= 2 then Ok else NoMemory
    ensures rc == Ok ==> l.view == old(l.view) + [NewEntry(hints, family, bytes)] && mem.avail == old(mem.avail) - 2
  {
    hide AddrList.Valid, AddrList.Owned;
    var ai := AppendNode(l, mem, hints, family, others);
    if ai == null {
      return NoMemory;
    }
    ghost var k := |old(l.nodes)|;
    SameLengths(l);
    AppendFilled(old(l.view), hints, family, bytes);
    var ok := AllocateSock(l, mem, ai, k, SockVal(family, 0, bytes), others);
    rc := if ok then Ok else NoMemory;
  }

  lemma SameLengths(l: AddrList)
    requires l.Valid()
    ensures |l.nodes| == |l.socks| == |l.view|
  {
  }

  lemma AppendFilled(es: seq<Entry>, hints: Hints, family: Family, bytes: seq<Byte>)
    ensures var bare := Entry(hints.socktype == 0, family, hints.socktype, hints.protocol, None);
      (es + [bare])[|es|] == bare &&
      (es + [bare])[|es| := bare.(sock := Some(SockVal(family, 0, bytes)))] == es + [NewEntry(hints, family, bytes)]
  {
  }

  /** The first allocation of ga_clone: a node spliced in after `ai`. */
  method SpliceNode(l: AddrList, mem: Memory, ai: AddrInfo, ghost k: nat, ghost others: set<object>)
    returns (twin: AddrInfo?)
    requires l.Valid() && Accounted(l, mem, others) && k < |l.nodes| && ai == l.nodes[k]
    modifies l`nodes, l`socks, l`view, ai`next, mem
    ensures Grows(l, mem, others)
    ensures twin == null <==> old(mem.avail) == 0
    ensures twin == null ==> l.nodes == old(l.nodes) && l.view == old(l.view) && l.socks == old(l.socks)
    ensures twin != null ==> mem.avail == old(mem.avail) - 1 && fresh(twin)
    ensures twin != null ==> l.nodes == Splice(old(l.nodes), k, twin) && l.socks == Splice(old(l.socks), k, null)
    ensures twin != null ==>
      l.view == Splice(old(l.view), k, old(l.view)[k].(clone := false, sock := None))
  {
    hide AddrList.Valid, AddrList.Owned, Cells, NodeOk, Splice;
    SameLengths(l);
    NodeAt(l, k);
    twin := NewNode(mem, false, ai.family, ai.socktype, ai.protocol);
    if twin == null {
      return;
    }
    OwnedIs(l);
    CellsSplice(l.nodes, l.socks, l.name, k, twin);
    LinkAfter(l, ai, k, twin);
    SpliceLengths(old(l.nodes), old(l.socks), k, twin);
    OwnedIs(l);
    OneMoreOwned(old(mem.live), old(l.Owned()), others, twin);
  }

  lemma SpliceLengths(ns: seq<AddrInfo>, ss: seq<Sockaddr?>, k: nat, n: AddrInfo)
    requires k < |ns| == |ss|
    ensures |Splice(ns, k, n)| == |Splice(ss, k, null)|
  {
  }

  lemma SpliceFilled(es: seq<Entry>, k: nat, e: Entry)
    requires k < |es|
    ensures var bare := e.(clone := false, sock := None);
      Splice(es, k, bare)[k + 1] == bare &&
      Splice(es, k, bare)[k + 1 := bare.(sock := e.sock)] == Splice(es, k, e.(clone := false))
  {
  }

  /** ga_clone: a deep copy of node `k`, without its AI_CLONE flag, right after
      it. The copy gets a socket address of its own. */
  method GaClone(l: AddrList, mem: Memory, ai: AddrInfo, ghost k: nat, ghost others: set<object>)
    returns (twin: AddrInfo?)
    requires l.Valid() && Accounted(l, mem, others) && k < |l.nodes| && ai == l.nodes[k] && l.view[k].sock.Some?
    modifies l`nodes, l`socks, l`view, ai`next, mem
    ensures Grows(l, mem, others)
    ensures twin == null <==> old(mem.avail) < 2
    ensures twin != null ==> mem.avail == old(mem.avail) - 2
    ensures twin != null ==> fresh(twin) && twin.addr != null && fresh(twin.addr)
    ensures twin != null ==> l.nodes == Splice(old(l.nodes), k, twin)
    ensures twin != null ==> l.view == Splice(old(l.view), k, old(l.view)[k].(clone := false))
  {
    hide Splice, AddrList.Valid, AddrList.Owned, NodeOk;
    SameLengths(l);
    NodeAt(l, k);
    var val := ai.addr.val;
    twin := SpliceNode(l, mem, ai, k, others);
    if twin == null {
      return;
    }
    ghost var e := old(l.view)[k];
    SpliceFilled(old(l.view), k, e);
    var ok := AllocateSock(l, mem, twin, k + 1, val, others);
    if !ok {
      return null;
    }
  }

  lemma {:induction false} CellsFirst(ns: seq<AddrInfo>, ss: seq<Sockaddr?>, name: CanonName?)
    requires |ns| == |ss| > 0
    ensures Cells(ns, ss, name) == Just(name) + {ns[0]} + Just(ss[0]) + Cells(ns[1..], ss[1..], null)
  {
    var k := |ns| - 1;
    if k > 0 {
      CellsFirst(ns[..k], ss[..k], name);
      assert ns[..k][1..] == ns[1..][..k - 1] && ss[..k][1..] == ss[1..][..k - 1];
    }
  }

  lemma {:induction false} NoNameInside(ns: seq<AddrInfo>, ss: seq<Sockaddr?>, c: CanonName)
    requires |ns| == |ss|
    ensures c !in Cells(ns, ss, null)
  {
    if ns != [] {
      var k := |ns| - 1;
      NoNameInside(ns[..k], ss[..k], c);
      var n: AddrInfo, s: Sockaddr? := ns[k], ss[k];
      assert c as object != n && c as object? != s;
    }
  }

  lemma CellsFirstApart(ns: seq<AddrInfo>, ss: seq<Sockaddr?>, name: CanonName?)
    requires |ns| == |ss| > 0 && Distinct(ns) && DistinctSocks(ss)
    ensures Distinct(ns[1..]) && DistinctSocks(ss[1..])
    ensures ns[0] !in Cells(ns[1..], ss[1..], null)
    ensures ss[0] != null ==> ss[0] !in Cells(ns[1..], ss[1..], null)
    ensures name != null ==> name !in Cells(ns[1..], ss[1..], null)
  {
    CellsMembers(ns[1..], ss[1..], null, ns[0]);
    if ss[0] != null {
      CellsMembers(ns[1..], ss[1..], null, ss[0]);
    }
    if name != null {
      NoNameInside(ns[1..], ss[1..], name);
    }
  }

  /** Freeing the first node and its parts leaves exactly the rest. */
  lemma {:induction false} FirstFreed(ns: seq<AddrInfo>, ss: seq<Sockaddr?>, name: CanonName?, live: set<object>,
                                      others: set<object>)
    requires |ns| == |ss| > 0 && Distinct(ns) && DistinctSocks(ss)
    requires live == others + Cells(ns, ss, name) && others !! Cells(ns, ss, name)
    ensures var parts := {ns[0]} + Just(ss[0]) + Just(name);
      parts <= live && live - parts == others + Cells(ns[1..], ss[1..], null)
    ensures others !! Cells(ns[1..], ss[1..], null)
    ensures Distinct(ns[1..]) && DistinctSocks(ss[1..])
  {
    CellsFirst(ns, ss, name);
    CellsFirstApart(ns, ss, name);
  }

  /** One turn of the loop of freeaddrinfo. */
  method FreeNode(ai: AddrInfo, mem: Memory) returns (next: AddrInfo?)
    requires {ai} + Just(ai.addr) + Just(ai.canon) <= mem.live
    modifies mem`live
    ensures mem.live == old(mem.live) - ({ai} + Just(ai.addr) + Just(ai.canon)) && next == ai.next
  {
    if ai.addr != null {
      mem.Free(ai.addr);
    }
    if ai.canon != null {
      mem.Free(ai.canon);
    }
    next := ai.next;
    mem.Free(ai);
  }

  /** What is still to be freed when `i` nodes have been. */
  ghost predicate Freeing(l: AddrList, live: set<object>, i: nat, others: set<object>)
    reads l
  {
    && i <= |l.nodes| == |l.socks|
    && Distinct(l.nodes[i..]) && DistinctSocks(l.socks[i..])
    && live == others + Cells(l.nodes[i..], l.socks[i..], if i == 0 then l.name else null)
    && others !! Cells(l.nodes[i..], l.socks[i..], if i == 0 then l.name else null)
  }

  lemma FreeingNext(l: AddrList, live: set<object>, i: nat, others: set<object>)
    requires Freeing(l, live, i, others) && i < |l.nodes|
    ensures var parts := {l.nodes[i]} + Just(l.socks[i]) + Just(if i == 0 then l.name else null);
      parts <= live && Freeing(l, live - parts, i + 1, others)
  {
    FirstFreed(l.nodes[i..], l.socks[i..], if i == 0 then l.name else null, live, others);
    assert l.nodes[i..][1..] == l.nodes[i + 1..] && l.socks[i..][1..] == l.socks[i + 1..];
  }

  /** freeaddrinfo: everything the list owns is freed, each object while it is
      still live, and nothing else. */
  method Freeaddrinfo(l: AddrList, mem: Memory, ghost others: set<object>)
    requires l.Valid() && Accounted(l, mem, others)
    modifies mem`live
    ensures mem.live == others
  {
    var ai := l.head;
    ghost var i: nat := 0;
    assert l.nodes[0..] == l.nodes && l.socks[0..] == l.socks;
    while ai != null
      invariant i <= |l.nodes| && ai == At(l.nodes, i)
      invariant Freeing(l, mem.live, i, others)
      decreases |l.nodes| - i
    {
      assert NodeOk(ai, At(l.nodes, i + 1), l.socks[i], if i == 0 then l.name else null, l.view[i]);
      FreeingNext(l, mem.live, i, others);
      ai := FreeNode(ai, mem);
      i := i + 1;
    }
  }

  lemma {:induction false} CellsName(ns: seq<AddrInfo>, ss: seq<Sockaddr?>, c: CanonName)
    requires |ns| == |ss|
    ensures Cells(ns, ss, c) == Cells(ns, ss, null) + {c}
  {
    if ns != [] {
      CellsName(ns[..|ns| - 1], ss[..|ns| - 1], c);
    }
  }

  /** Handing the canonical name over to the first node. */
  method AttachName(l: AddrList, mem: Memory, c: CanonName, ghost others: set<object>)
    requires l.Valid() && l.nodes != [] && l.name == null
    requires c !in others && Accounted(l, mem, others + {c})
    modifies l`name, l.head`canon
    ensures l.Valid() && l.name == c && Accounted(l, mem, others)
    ensures l.view == old(l.view) && l.Owned() == old(l.Owned()) + {c}
  {
    CellsName(l.nodes, l.socks, c);
    l.head.canon := c;
    l.name := c;
    forall i | 0 <= i < |l.nodes|
      ensures NodeOk(l.nodes[i], At(l.nodes, i + 1), l.socks[i], if i == 0 then l.name else null, l.view[i])
    {
      assert old(NodeOk(l.nodes[i], At(l.nodes, i + 1), l.socks[i], if i == 0 then l.name else null, l.view[i]));
      if i > 0 { assert l.nodes[i] != l.nodes[0]; }
    }
  }

  /** strdup. */
  method NewName(mem: Memory, text: string) returns (c: CanonName?)
    modifies mem
    ensures c == null <==> old(mem.avail) == 0
    ensures c == null ==> mem.live == old(mem.live)
    ensures c != null ==>
      fresh(c) && c.text == text && mem.live == old(mem.live) + {c} && mem.avail == old(mem.avail) - 1
  {
    var ok := mem.Allocate();
    if !ok {
      return null;
    }
    c := new CanonName(text);
    mem.live := mem.live + {c};
  }
}
