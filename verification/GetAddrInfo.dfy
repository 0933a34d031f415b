/** getaddrinfo.c with ga_echeck.c and ga_nsearch.c: from a host and a service to
    a list of addresses. The resolver and the services database are arbitrary
    functions. */
module GetAddrInfo {
  import opened CText
  import opened DottedQuad
  import opened Inet6Text
  import opened Inet6Parse
  import opened GaiList
  import opened GaiPort

  /** What the resolver says about a host: its canonical name and addresses. */
  datatype HostEnt =
    | HostFound(name: string, family: Family, addrs: seq<seq<Byte>>)
    | HostMissing(reason: Rc)

  /** gethostbyname2 when there are two searches, gethostbyname when there is one. */
  type Resolver = (string, Family, bool) -> HostEnt

  datatype Search = Search(host: string, family: Family)

  predicate Given(s: Option<string>) {
    s.Some? && s.value != ""
  }

  predicate Passive(hints: Hints) {
    hints.flags % 2 == 1
  }

  predicate WantsCanon(host: Option<string>, hints: Hints) {
    Given(host) && hints.flags / 2 % 2 == 1
  }

  const SOCK_RAW := 3

  /** ga_echeck: flags beyond AI_PASSIVE and AI_CANONNAME, neither host nor
      service, a socket type the family does not have, an unknown family. */
  function ErrorCheck(host: Option<string>, serv: Option<string>, hints: Hints): Rc {
    if !(0 <= hints.flags <= 3) then BadFlags
    else if !Given(host) && !Given(serv) then NoName
    else match hints.family
      case Unspec => Ok
      case Only(_) => if 0 <= hints.socktype <= 3 then Ok else SockType
      case Local => if 0 <= hints.socktype <= 2 then Ok else SockType
      case Unknown => BadFamily
  }

  /** The host to look up when none is given. */
  function DefaultHost(passive: bool, family: Family): string {
    if passive then (if family == Inet then "0.0.0.0" else "0::0")
    else (if family == Inet then "localhost" else "0::1")
  }

  function HostFor(host: Option<string>, passive: bool, family: Family): string {
    if Given(host) then host.value else DefaultHost(passive, family)
  }

  /** IPv6 before IPv4 when the family is open; nothing for AF_LOCAL. */
  function Searches(host: Option<string>, passive: bool, family: FamilyHint): seq<Search> {
    match family
    case Only(f) => [Search(HostFor(host, passive, f), f)]
    case Unspec => [Search(HostFor(host, passive, Inet6), Inet6), Search(HostFor(host, passive, Inet), Inet)]
    case _ => []
  }

  /** The address a host text is by itself, without the resolver. */
  function Literal(host: string): Option<(Family, seq<Byte>)> {
    if host != "" && IsDec(host[0]) && QuadOf(host).Some? then Some((Inet, QuadOf(host).value))
    else if host != "" && (IsHex(host[0]) || host[0] == ':') && ':' in host && ParseAddr6(host).Some? then
      Some((Inet6, ParseAddr6(host).value))
    else None
  }

  /** What one search contributes, or the error it ends with. */
  datatype Item = Item(rc: Rc, entries: seq<Entry>, canon: Option<string>)

  function NewEntries(hints: Hints, family: Family, addrs: seq<seq<Byte>>): (es: seq<Entry>)
    ensures |es| == |addrs|
  {
    seq(|addrs|, i requires 0 <= i < |addrs| => NewEntry(hints, family, addrs[i]))
  }

  function SearchItem(s: Search, hints: Hints, many: bool, resolver: Resolver): Item {
    match Literal(s.host)
    case Some((family, bytes)) =>
      if hints.family.Only? && hints.family.family != family then Item(AddrFamily, [], None)
      else if s.family != family then Item(Ok, [], None)
      else Item(Ok, [NewEntry(hints, family, bytes)], None)
    case None =>
      match resolver(s.host, s.family, many)
      case HostMissing(reason) => if many then Item(Ok, [], None) else Item(ResolverRc(reason), [], None)
      case HostFound(name, family, addrs) =>
        if hints.family.Only? && hints.family.family != family then Item(AddrFamily, [], None)
        else Item(Ok, NewEntries(hints, family, addrs), Some(name))
  }

  /** h_errno has four meanings; anything else is no name. */
  function ResolverRc(reason: Rc): Rc {
    match reason
    case Again => Again
    case Fail => Fail
    case NoData => NoData
    case _ => NoName
  }

  /** The searches done so far: the first canonical name is kept when one is
      wanted, and an error stops the rest. */
  function Gathered(ss: seq<Search>, hints: Hints, wants: bool, many: bool, resolver: Resolver): Item {
    if ss == [] then Item(Ok, [], None)
    else
      var before := Gathered(ss[..|ss| - 1], hints, wants, many, resolver);
      if before.rc != Ok then before
      else Extend(before, SearchItem(ss[|ss| - 1], hints, many, resolver), wants)
  }

  function Extend(before: Item, item: Item, wants: bool): Item {
    Item(item.rc, before.entries + item.entries,
         if before.canon.Some? || !wants then before.canon else item.canon)
  }

  /** What getaddrinfo is to return: a code, and with Ok the entries and the
      canonical name of the first. */
  datatype Outcome = Outcome(rc: Rc, entries: seq<Entry>, canon: Option<string>)

  function Outcome0(rc: Rc): Outcome {
    Outcome(rc, [], None)
  }

  function Answer(host: Option<string>, serv: Option<string>, hints: Hints, resolver: Resolver,
                  services: Services): Outcome {
    var checked := ErrorCheck(host, serv, hints);
    var ss := Searches(host, Passive(hints), hints.family);
    var wants := WantsCanon(host, hints);
    var base := Gathered(ss, hints, wants, |ss| == 2, resolver);
    if checked != Ok then Outcome0(checked)
    else if ss == [] then Outcome0(Quit)
    else if base.rc != Ok then Outcome0(base.rc)
    else if base.entries == [] then Outcome0(NoName)
    else
      var canon := if !wants then None else if base.canon.Some? then base.canon else Some(ss[0].host);
      if !Given(serv) then Outcome(Ok, base.entries, canon)
      else
        var rs := ServiceRounds(hints.socktype, serv.value, services);
        var rc := ServiceRc(base.entries, hints.socktype, rs);
        if rc != Ok then Outcome0(rc) else Outcome(Ok, Rounds(base.entries, rs), canon)
  }

  // ----- literal hosts, wildcard hosts, numeric services

  lemma LiteralQuad(host: string)
    requires QuadOf(host).Some?
    ensures Literal(host) == Some((Inet, QuadOf(host).value))
  {
    QuadShape(host);
    var f := Split(host, '.')[0];
    assert host[0] == (f + ".")[0] == f[0];
  }

  /** Every text the IPv6 parser accepts passes the guard in front of it. */
  lemma Literal6(host: string)
    requires ParseAddr6(host).Some?
    ensures Literal(host) == Some((Inet6, ParseAddr6(host).value))
  {
    AcceptedHasColon(host);
    NoTextIsBoth(host);
  }

  lemma GatherTwo(s: Search, t: Search, hints: Hints, wants: bool, resolver: Resolver)
    ensures Gathered([s], hints, wants, true, resolver)
      == Extend(Item(Ok, [], None), SearchItem(s, hints, true, resolver), wants)
    ensures var first := Gathered([s], hints, wants, true, resolver);
      Gathered([s, t], hints, wants, true, resolver)
      == if first.rc != Ok then first else Extend(first, SearchItem(t, hints, true, resolver), wants)
  {
    assert [s, t][..1] == [s] && [s][..0] == [];
  }

  /** A literal host with an open family gives one base entry, of the literal's
      own family and with its bytes; no resolver has a say in it. */
  lemma LiteralHostOneEntry(host: string, hints: Hints, resolver: Resolver, family: Family, bytes: seq<Byte>)
    requires Literal(host) == Some((family, bytes)) && hints.family == Unspec
    ensures var ss := Searches(Some(host), Passive(hints), Unspec);
      Gathered(ss, hints, WantsCanon(Some(host), hints), |ss| == 2, resolver)
      == Item(Ok, [Entry(hints.socktype == 0, family, hints.socktype, hints.protocol,
                         Some(SockVal(family, 0, bytes)))], None)
  {
    GatherTwo(Search(host, Inet6), Search(host, Inet), hints, WantsCanon(Some(host), hints), resolver);
    assert [] + [NewEntry(hints, family, bytes)] == [NewEntry(hints, family, bytes)];
    assert [NewEntry(hints, family, bytes)] + [] == [NewEntry(hints, family, bytes)];
  }

  lemma ZeroGapZero()
    ensures var t := Gapped(["0"], ["0"]);
      Standard(t) && Show(t) == "0::0" && Denote(t) == Zeros(16)
  {
    OneDigit("0");
    BytesOne("0");
  }

  lemma AnyAddress6()
    ensures Literal("0::0") == Some((Inet6, Zeros(16)))
  {
    ZeroGapZero();
    StandardIsRead(Gapped(["0"], ["0"]));
    Literal6("0::0");
  }

  lemma FourZeros()
    ensures QuadText(Zeros(4)) == "0.0.0.0"
  {
  }

  lemma AnyAddress4()
    ensures Literal("0.0.0.0") == Some((Inet, Zeros(4)))
  {
    FourZeros();
    QuadRoundTrip(Zeros(4));
    LiteralQuad("0.0.0.0");
  }

  /** An address as the host search leaves it. */
  lemma NewEntryIs(hints: Hints, family: Family, bytes: seq<Byte>)
    ensures NewEntry(hints, family, bytes)
      == Entry(hints.socktype == 0, family, hints.socktype, hints.protocol, Some(SockVal(family, 0, bytes)))
  {
  }

  /** And all the addresses of a host, in the order in which they were found. */
  lemma NewEntriesAre(hints: Hints, family: Family, addrs: seq<seq<Byte>>, i: nat)
    requires i < |addrs|
    ensures |NewEntries(hints, family, addrs)| == |addrs|
    ensures NewEntries(hints, family, addrs)[i]
      == Entry(hints.socktype == 0, family, hints.socktype, hints.protocol, Some(SockVal(family, 0, addrs[i])))
  {
    NewEntryIs(hints, family, addrs[i]);
  }

  /** The flag bits: 1 is AI_PASSIVE and 2 is AI_CANONNAME. */
  lemma FlagBits(host: Option<string>, hints: Hints)
    requires 0 <= hints.flags <= 3
    ensures Passive(hints) <==> hints.flags in {1, 3}
    ensures WantsCanon(host, hints) <==> host.Some? && host.value != "" && hints.flags in {2, 3}
  {
  }

  /** No host and AI_PASSIVE with an open family: the IPv6 wildcard, then the
      IPv4 wildcard. */
  lemma PassiveIsAny(hints: Hints, resolver: Resolver)
    requires hints.family == Unspec && hints.flags in {1, 3}
    ensures Gathered(Searches(None, Passive(hints), Unspec), hints, false, true, resolver)
      == Item(Ok, [NewEntry(hints, Inet6, Zeros(16)), NewEntry(hints, Inet, Zeros(4))], None)
  {
    AnyAddress6();
    AnyAddress4();
    FlagBits(None, hints);
    hide Literal, NewEntry;
    GatherTwo(Search("0::0", Inet6), Search("0.0.0.0", Inet), hints, false, resolver);
    var a, b := NewEntry(hints, Inet6, Zeros(16)), NewEntry(hints, Inet, Zeros(4));
    assert [] + [a] + [b] == [a, b];
  }

  lemma Loopback6()
    ensures Literal("0::1") == Some((Inet6, Zeros(15) + [1]))
  {
    OneDigit("0");
    OneDigit("1");
    BytesOne("0");
    BytesOne("1");
    var t := Gapped(["0"], ["1"]);
    assert Show(t) == "0::1";
    StandardIsRead(t);
    assert Bytes(["0"]) == [0, 0] && Bytes(["1"]) == [0, 1];
    assert Denote(t) == Zeros(15) + [1];
    Literal6("0::1");
  }

  lemma LocalhostIsNoLiteral()
    ensures Literal("localhost") == None
  {
  }

  /** No host and not AI_PASSIVE, with an open family: the IPv6 loopback address,
      then whatever the resolver has for "localhost" in IPv4. */
  lemma ActiveIsLoopback(hints: Hints, resolver: Resolver)
    requires hints.family == Unspec && hints.flags in {0, 2}
    ensures var base := Gathered(Searches(None, Passive(hints), Unspec), hints, false, true, resolver);
      base.rc == Ok && base.entries ==
        [NewEntry(hints, Inet6, Zeros(15) + [1])] + Resolved("localhost", Inet, hints, resolver)
  {
    Loopback6();
    LocalhostIsNoLiteral();
    FlagBits(None, hints);
    hide Literal, NewEntry;
    GatherTwo(Search("0::1", Inet6), Search("localhost", Inet), hints, false, resolver);
    var a := NewEntry(hints, Inet6, Zeros(15) + [1]);
    assert [] + [a] == [a];
  }

  /** The same for a single family: a wildcard when passive, else the loopback
      address of IPv6, or the resolver's "localhost" of IPv4. */
  lemma OneFamilyWithoutHost(hints: Hints, resolver: Resolver, family: Family)
    requires hints.family == Only(family) && 0 <= hints.flags <= 3
    ensures var base := Gathered(Searches(None, Passive(hints), hints.family), hints, false, false, resolver);
      && (hints.flags in {1, 3} ==>
          base == Item(Ok, [NewEntry(hints, family, Zeros(if family == Inet6 then 16 else 4))], None))
      && (hints.flags in {0, 2} && family == Inet6 ==>
          base == Item(Ok, [NewEntry(hints, Inet6, Zeros(15) + [1])], None))
      && (hints.flags in {0, 2} && family == Inet ==>
          var found := resolver("localhost", Inet, false);
          base == if found.HostMissing? then
                    Item(if found.reason in {Again, Fail, NoData} then found.reason else NoName, [], None)
                  else if found.family != Inet then Item(AddrFamily, [], None)
                  else Item(Ok, NewEntries(hints, Inet, found.addrs), None))
  {
    FlagBits(None, hints);
    var h := DefaultHost(Passive(hints), family);
    assert Searches(None, Passive(hints), hints.family) == [Search(h, family)];
    if hints.flags in {1, 3} {
      AnyAddress6();
      AnyAddress4();
      LiteralAlone(h, family, Zeros(if family == Inet6 then 16 else 4), hints, resolver);
    } else if family == Inet6 {
      Loopback6();
      LiteralAlone(h, family, Zeros(15) + [1], hints, resolver);
    } else {
      LocalhostIsNoLiteral();
      NameAlone(h, family, hints, resolver);
    }
    hide *;
  }

  lemma LiteralAlone(h: string, family: Family, bytes: seq<Byte>, hints: Hints, resolver: Resolver)
    requires Literal(h) == Some((family, bytes)) && hints.family == Only(family)
    ensures Gathered([Search(h, family)], hints, false, false, resolver)
      == Item(Ok, [NewEntry(hints, family, bytes)], None)
  {
    hide Literal, NewEntry, Zeros;
    GatherOne(Search(h, family), hints, false, resolver);
    var e := NewEntry(hints, family, bytes);
    assert [] + [e] == [e];
  }

  lemma NameAlone(h: string, family: Family, hints: Hints, resolver: Resolver)
    requires Literal(h) == None && hints.family == Only(family)
    ensures var found := resolver(h, family, false);
      Gathered([Search(h, family)], hints, false, false, resolver)
      == if found.HostMissing? then
           Item(if found.reason in {Again, Fail, NoData} then found.reason else NoName, [], None)
         else if found.family != family then Item(AddrFamily, [], None)
         else Item(Ok, NewEntries(hints, family, found.addrs), None)
  {
    hide Literal, NewEntries;
    GatherOne(Search(h, family), hints, false, resolver);
    var item := SearchItem(Search(h, family), hints, false, resolver);
    assert [] + item.entries == item.entries;
  }

  lemma GatherOne(s: Search, hints: Hints, wants: bool, resolver: Resolver)
    ensures Gathered([s], hints, wants, false, resolver)
      == Extend(Item(Ok, [], None), SearchItem(s, hints, false, resolver), wants)
  {
    assert [s][..0] == [];
  }

  /** What the resolver gives for one family of a host. */
  function Resolved(host: string, family: Family, hints: Hints, resolver: Resolver): seq<Entry> {
    match resolver(host, family, true)
    case HostMissing(_) => []
    case HostFound(_, found, addrs) => NewEntries(hints, found, addrs)
  }

  /** With no socket type, a numeric service gives each base entry twice: as
      STREAM, and next to it as DGRAM, both with the port its digits make. */
  lemma NumericServiceTwice(es: seq<Entry>, serv: string, services: Services, i: nat, d: string, port: nat)
    requires (forall m :: 0 <= m < |es| ==> Unused(es[m])) && i < |es| && es[i].sock.Some?
    requires PortNumber(serv, d, port)
    ensures var rs, e, v := ServiceRounds(0, serv, services), es[i], es[i].sock.value;
      && ServiceRc(es, 0, rs) == Ok
      && |Rounds(es, rs)| == 2 * |es|
      && Rounds(es, rs)[2 * i] == Entry(true, e.family, SOCK_STREAM, e.protocol, Some(SockVal(v.family, port, v.bytes)))
      && Rounds(es, rs)[2 * i + 1]
        == Entry(false, e.family, SOCK_DGRAM, e.protocol, Some(SockVal(v.family, port, v.bytes)))
  {
    NumericPortIs(serv, d, port);
    TwoRounds(es, Round(SOCK_STREAM, port), Round(SOCK_DGRAM, port), i);
    hide Rounds, PortNumber, NumericPort;
  }

  /** The whole answer for a literal host and a numeric service, family and type
      open: the address as STREAM and as DGRAM, whatever the databases hold. */
  lemma LiteralAndNumericService(host: string, serv: string, hints: Hints, resolver: Resolver, services: Services,
                                 family: Family, bytes: seq<Byte>, d: string, port: nat)
    requires Literal(host) == Some((family, bytes)) && PortNumber(serv, d, port)
    requires hints.family == Unspec && hints.socktype == 0 && 0 <= hints.flags <= 3
    ensures Answer(Some(host), Some(serv), hints, resolver, services)
      == Outcome(Ok, [Entry(true, family, SOCK_STREAM, hints.protocol, Some(SockVal(family, port, bytes))),
                      Entry(false, family, SOCK_DGRAM, hints.protocol, Some(SockVal(family, port, bytes)))],
                 if hints.flags in {2, 3} then Some(host) else None)
  {
    assert host != "";
    NumericPortIs(serv, d, port);
    LiteralHostOneEntry(host, hints, resolver, family, bytes);
    FlagBits(Some(host), hints);
    TwoEntries(NewEntry(hints, family, bytes), serv, services, d, port);
    hide Literal, Gathered, Rounds, ServiceRounds, ServiceRc, NumericPort, PortNumber;
  }

  lemma TwoEntries(e: Entry, serv: string, services: Services, d: string, port: nat)
    requires Unused(e) && e.sock.Some? && PortNumber(serv, d, port)
    ensures var rs, v := ServiceRounds(0, serv, services), e.sock.value;
      && ServiceRc([e], 0, rs) == Ok
      && Rounds([e], rs) == [Entry(true, e.family, SOCK_STREAM, e.protocol, Some(SockVal(v.family, port, v.bytes))),
                             Entry(false, e.family, SOCK_DGRAM, e.protocol, Some(SockVal(v.family, port, v.bytes)))]
  {
    hide Rounds, ServiceRounds, ServiceRc, NumericPort, Unused, PortNumber;
    NumericServiceTwice([e], serv, services, 0, d, port);
    var got := Rounds([e], ServiceRounds(0, serv, services));
    assert got == [got[0], got[1]];
  }

  /** ga_echeck, case by case. */
  lemma ErrorCheckExactly(host: Option<string>, serv: Option<string>, hints: Hints)
    ensures var rc := ErrorCheck(host, serv, hints);
      var flags, named := hints.flags in {0, 1, 2, 3}, host !in {None, Some("")} || serv !in {None, Some("")};
      var typed := match hints.family
        case Unspec => true
        case Only(_) => hints.socktype in {0, SOCK_STREAM, SOCK_DGRAM, SOCK_RAW}
        case Local => hints.socktype in {0, SOCK_STREAM, SOCK_DGRAM}
        case Unknown => false;
      && (rc == BadFlags <==> !flags)
      && (rc == NoName <==> flags && !named)
      && (rc == BadFamily <==> flags && named && hints.family == Unknown)
      && (rc == SockType <==> flags && named && hints.family != Unknown && !typed)
      && (rc == Ok <==> flags && named && typed)
  {
  }

  // ----- the function itself

  /** ga_nsearch, for a build with both families. */
  method GaNsearch(host: Option<string>, hints: Hints) returns (search: seq<Search>)
    ensures search == Searches(host, Passive(hints), hints.family)
  {
    search := [];
    if host.None? || host.value == "" {
      if hints.flags % 2 == 1 {
        match hints.family {
          case Only(Inet) => search := search + [Search("0.0.0.0", Inet)];
          case Only(Inet6) => search := search + [Search("0::0", Inet6)];
          case Unspec =>
            search := search + [Search("0::0", Inet6)];
            search := search + [Search("0.0.0.0", Inet)];
          case _ =>
        }
      } else {
        match hints.family {
          case Only(Inet) => search := search + [Search("localhost", Inet)];
          case Only(Inet6) => search := search + [Search("0::1", Inet6)];
          case Unspec =>
            search := search + [Search("0::1", Inet6)];
            search := search + [Search("localhost", Inet)];
          case _ =>
        }
      }
    } else {
      match hints.family {
        case Only(f) => search := search + [Search(host.value, f)];
        case Unspec =>
          search := search + [Search(host.value, Inet6)];
          search := search + [Search(host.value, Inet)];
        case _ =>
      }
    }
  }

  /** The two literal tests in front of the resolver. */
  method ReadLiteral(host: string) returns (lit: Option<(Family, seq<Byte>)>)
    ensures lit == Literal(host)
  {
    if host != "" && IsDec(host[0]) {
      var inaddr := new Byte[4];
      var ok := InetPton4(host, inaddr, 0);
      if ok {
        assert inaddr[..] == QuadOf(host).value;
        return Some((Inet, inaddr[..]));
      }
    }
    if host != "" && (IsHex(host[0]) || host[0] == ':') && ':' in host {
      var in6addr := new Byte[16];
      var ok := InetPton6(host, in6addr);
      if ok {
        return Some((Inet6, in6addr[..]));
      }
    }
    return None;
  }

  /** One addrinfo for each address of a host. */
  method AddAddresses(l: AddrList, mem: Memory, hints: Hints, family: Family, addrs: seq<seq<Byte>>,
                      ghost others: set<object>)
    returns (rc: Rc)
    requires l.Valid() && l.TailOk() && Accounted(l, mem, others)
    modifies l, l.Owned(), mem
    ensures Grows(l, mem, others) && l.TailOk()
    ensures rc == if old(mem.avail) >= 2 * |addrs| then Ok else NoMemory
    ensures rc == Ok ==> l.view == old(l.view) + NewEntries(hints, family, addrs)
    ensures rc == Ok ==> mem.avail == old(mem.avail) - 2 * |addrs|
  {
    hide AddrList.Valid, AddrList.Owned, NewEntry;
    rc := Ok;
    for i := 0 to |addrs|
      invariant Grows(l, mem, others) && l.TailOk() && rc == Ok
      invariant l.view == old(l.view) + NewEntries(hints, family, addrs[..i])
      invariant mem.avail == old(mem.avail) - 2 * i
    {
      TailOwned(l);
      rc := GaAistruct(l, mem, hints, addrs[i], family, others);
      if rc != Ok {
        return;
      }
      assert NewEntries(hints, family, addrs[..i + 1])
        == NewEntries(hints, family, addrs[..i]) + [NewEntry(hints, family, addrs[i])];
    }
    assert addrs[..|addrs|] == addrs;
  }

  lemma TailOwned(l: AddrList)
    requires l.Valid() && l.TailOk()
    ensures l.tail != null ==> l.tail in l.Owned()
  {
    if l.tail != null {
      NodeFacts(l, |l.nodes| - 1);
    }
  }

  function Cost(canon: Option<string>): nat {
    if canon.Some? then 1 else 0
  }

  ghost predicate NameIs(c: CanonName?, canon: Option<string>) {
    (c == null <==> canon.None?) && (c != null ==> c.text == canon.value)
  }

  /** One turn of the search loop. */
  method AddItem(l: AddrList, mem: Memory, s: Search, hints: Hints, many: bool, wants: bool, resolver: Resolver,
                 canon: CanonName?, ghost before: Item, ghost others: set<object>)
    returns (rc: Rc, name: CanonName?)
    requires l.Valid() && l.TailOk() && Accounted(l, mem, others + Just(canon)) && canon !in others
    requires NameIs(canon, before.canon) && l.view == before.entries && l.name == null
    modifies l, l.Owned(), mem
    ensures l.Valid() && l.TailOk() && Accounted(l, mem, others + Just(name)) && l.name == null
    ensures fresh(l.Owned() - old(l.Owned())) && (name != canon ==> name != null && fresh(name) && wants)
    ensures var now := Extend(before, SearchItem(s, hints, many, resolver), wants);
      var need := 2 * (|now.entries| - |before.entries|) + Cost(now.canon) - Cost(before.canon);
      && rc == (if old(mem.avail) < need then NoMemory else now.rc)
      && (rc != NoMemory ==> mem.avail == old(mem.avail) - need && l.view == now.entries && NameIs(name, now.canon))
      && (name != null <==> canon != null || (now.canon.Some? && old(mem.avail) > 0))
      && (name != null ==> NameIs(name, now.canon))
  {
    hide AddrList.Valid, AddrList.Owned, Literal, NewEntry;
    name := canon;
    var lit := ReadLiteral(s.host);
    if lit.Some? {
      var (family, bytes) := lit.value;
      if hints.family.Only? && hints.family.family != family {
        return AddrFamily, name;
      }
      if s.family != family {
        return Ok, name;
      }
      assert NewEntries(hints, family, [bytes]) == [NewEntry(hints, family, bytes)];
      rc := AddAddresses(l, mem, hints, family, [bytes], others + Just(canon));
      return;
    }
    var hptr := resolver(s.host, s.family, many);
    if hptr.HostMissing? {
      return if many then Ok else ResolverRc(hptr.reason), name;
    }
    if hints.family.Only? && hints.family.family != hptr.family {
      return AddrFamily, name;
    }
    if wants && canon == null {
      name := NewName(mem, hptr.name);
      if name == null {
        return NoMemory, name;
      }
      assert others + Just(canon) + {name} == others + Just(name);
    }
    rc := AddAddresses(l, mem, hints, hptr.family, hptr.addrs, others + Just(name));
  }

  /** What the host search allocates. */
  function GatherCost(base: Item): nat {
    2 * |base.entries| + Cost(base.canon)
  }

  /** What the host search allocates up to and with the canonical name: the
      entries of the searches before the one that gives it, and the name. */
  function NameCost(ss: seq<Search>, hints: Hints, wants: bool, many: bool, resolver: Resolver): nat {
    if ss == [] then 0
    else
      var before := Gathered(ss[..|ss| - 1], hints, wants, many, resolver);
      if before.canon.Some? then NameCost(ss[..|ss| - 1], hints, wants, many, resolver)
      else 2 * |before.entries| + 1
  }

  /** A name that a prefix of the searches gives is the one all of them give; a
      later one costs more than the prefix. */
  lemma {:induction false} NamePrefix(ss: seq<Search>, i: nat, hints: Hints, wants: bool, many: bool,
                                      resolver: Resolver)
    requires i <= |ss|
    ensures var base, all := Gathered(ss[..i], hints, wants, many, resolver),
        Gathered(ss, hints, wants, many, resolver);
      var cost := NameCost(ss, hints, wants, many, resolver);
      && (base.canon.Some? ==> all.canon == base.canon && cost <= GatherCost(base))
      && (base.canon.Some? ==> cost == NameCost(ss[..i], hints, wants, many, resolver))
      && (base.canon.None? && all.canon.Some? ==> cost > GatherCost(base))
    decreases |ss|
  {
    if i == |ss| {
      assert ss[..i] == ss;
      if ss != [] {
        NamePrefix(ss[..|ss| - 1], |ss| - 1, hints, wants, many, resolver);
        assert ss[..|ss| - 1][..|ss| - 1] == ss[..|ss| - 1];
      }
    } else {
      assert ss[..|ss| - 1][..i] == ss[..i];
      NamePrefix(ss[..|ss| - 1], i, hints, wants, many, resolver);
      GatheredPrefix(ss[..|ss| - 1], i, hints, wants, many, resolver);
    }
  }

  /** An error, or the end, of a prefix of the searches. */
  lemma {:induction false} GatheredPrefix(ss: seq<Search>, i: nat, hints: Hints, wants: bool, many: bool,
                                          resolver: Resolver)
    requires i <= |ss|
    ensures var base, all := Gathered(ss[..i], hints, wants, many, resolver),
        Gathered(ss, hints, wants, many, resolver);
      GatherCost(base) <= GatherCost(all) && (base.rc != Ok ==> base == all)
    decreases |ss|
  {
    if i == |ss| {
      assert ss[..i] == ss;
    } else {
      assert ss[..|ss| - 1][..i] == ss[..i];
      GatheredPrefix(ss[..|ss| - 1], i, hints, wants, many, resolver);
    }
  }

  lemma GatheredStep(ss: seq<Search>, i: nat, hints: Hints, wants: bool, many: bool, resolver: Resolver)
    requires i < |ss| && Gathered(ss[..i], hints, wants, many, resolver).rc == Ok
    ensures Gathered(ss[..i + 1], hints, wants, many, resolver)
      == Extend(Gathered(ss[..i], hints, wants, many, resolver), SearchItem(ss[i], hints, many, resolver), wants)
  {
    assert ss[..i + 1][..i] == ss[..i];
  }

  /** The search loop of getaddrinfo. */
  method Gather(l: AddrList, mem: Memory, ss: seq<Search>, hints: Hints, wants: bool, resolver: Resolver,
                ghost others: set<object>)
    returns (rc: Rc, canon: CanonName?)
    requires l.Valid() && l.TailOk() && l.view == [] && l.name == null && Accounted(l, mem, others)
    modifies l, l.Owned(), mem
    ensures l.Valid() && Accounted(l, mem, others + Just(canon)) && l.name == null
    ensures fresh(l.Owned() - old(l.Owned())) && (canon != null ==> fresh(canon) && wants)
    ensures var all := Gathered(ss, hints, wants, |ss| == 2, resolver);
      && rc == (if old(mem.avail) < GatherCost(all) then NoMemory else all.rc)
      && (rc != NoMemory ==>
        mem.avail == old(mem.avail) - GatherCost(all) && l.view == all.entries && NameIs(canon, all.canon))
      && (canon != null <==>
        all.canon.Some? && old(mem.avail) >= NameCost(ss, hints, wants, |ss| == 2, resolver))
      && (canon != null ==> NameIs(canon, all.canon))
  {
    hide AddrList.Valid, AddrList.Owned, SearchItem, Gathered, NameCost;
    canon := null;
    ghost var base := Item(Ok, [], None);
    GatheredNone(hints, wants, |ss| == 2, resolver);
    assert ss[..0] == [] && others + Just(null) == others;
    for i := 0 to |ss|
      invariant l.Valid() && l.TailOk() && Accounted(l, mem, others + Just(canon)) && l.name == null
      invariant fresh(l.Owned() - old(l.Owned())) && (canon != null ==> fresh(canon) && wants) && canon !in others
      invariant base == Gathered(ss[..i], hints, wants, |ss| == 2, resolver) && base.rc == Ok
      invariant l.view == base.entries && NameIs(canon, base.canon)
      invariant mem.avail == old(mem.avail) - GatherCost(base)
    {
      GatheredStep(ss, i, hints, wants, |ss| == 2, resolver);
      GatheredPrefix(ss, i + 1, hints, wants, |ss| == 2, resolver);
      NameFound(ss, i, hints, wants, |ss| == 2, resolver);
      rc, canon := AddItem(l, mem, ss[i], hints, |ss| == 2, wants, resolver, canon, base, others);
      base := Extend(base, SearchItem(ss[i], hints, |ss| == 2, resolver), wants);
      if rc != Ok {
        return;
      }
    }
    assert ss[..|ss|] == ss;
    NamePrefix(ss, |ss|, hints, wants, |ss| == 2, resolver);
    rc := Ok;
  }

  /** One search more: what it costs when it gives the name, and when it does
      not. */
  lemma NameFound(ss: seq<Search>, i: nat, hints: Hints, wants: bool, many: bool, resolver: Resolver)
    requires i < |ss|
    ensures var base, now := Gathered(ss[..i], hints, wants, many, resolver),
        Gathered(ss[..i + 1], hints, wants, many, resolver);
      var all, cost := Gathered(ss, hints, wants, many, resolver), NameCost(ss, hints, wants, many, resolver);
      && (base.canon.Some? ==> all.canon == now.canon == base.canon && cost <= GatherCost(base))
      && (base.canon.None? && now.canon.Some? ==> all.canon == now.canon && cost == GatherCost(base) + 1)
      && (now.canon.None? && all.canon.Some? ==> cost > GatherCost(now))
  {
    NamePrefix(ss, i, hints, wants, many, resolver);
    NamePrefix(ss, i + 1, hints, wants, many, resolver);
    assert ss[..i + 1][..i] == ss[..i];
    NamePrefix(ss[..i + 1], i, hints, wants, many, resolver);
  }

  lemma GatheredNone(hints: Hints, wants: bool, many: bool, resolver: Resolver)
    ensures Gathered([], hints, wants, many, resolver) == Item(Ok, [], None)
  {
  }

  lemma {:induction false} GatheredComplete(ss: seq<Search>, hints: Hints, wants: bool, many: bool, resolver: Resolver)
    ensures var es := Gathered(ss, hints, wants, many, resolver).entries;
      Complete(es) && forall i :: 0 <= i < |es| ==> AsSearched(es[i], hints.socktype)
    ensures !wants ==> Gathered(ss, hints, wants, many, resolver).canon == None
  {
    if ss != [] {
      GatheredComplete(ss[..|ss| - 1], hints, wants, many, resolver);
    }
  }

  /** All that the answer allocates: the host search, the name when the resolver
      gave none, and the copies for the socket types. */
  function Needed(host: Option<string>, serv: Option<string>, hints: Hints, resolver: Resolver,
                  services: Services): nat {
    var ss := Searches(host, Passive(hints), hints.family);
    var wants := WantsCanon(host, hints);
    var base := Gathered(ss, hints, wants, |ss| == 2, resolver);
    if ErrorCheck(host, serv, hints) != Ok || ss == [] then 0
    else if base.rc != Ok || base.entries == [] then GatherCost(base)
    else
      GatherCost(base) + (if wants && base.canon.None? then 1 else 0) +
      if Given(serv) then 2 * Copied(base.entries, ServiceRounds(hints.socktype, serv.value, services)) else 0
  }

  /** The canonical name, when one is wanted, goes to the first node. */
  method NameFirst(l: AddrList, mem: Memory, wants: bool, canon: CanonName?, first: string, ghost others: set<object>)
    returns (ok: bool)
    requires l.Valid() && l.view != [] && l.name == null
    requires canon !in others && Accounted(l, mem, others + Just(canon)) && (canon != null ==> wants)
    modifies l`name, l.head`canon, mem
    ensures l.Valid() && Accounted(l, mem, others) && l.view == old(l.view)
    ensures fresh(l.Owned() - old(l.Owned()) - Just(canon))
    ensures var cost := if wants && canon == null then 1 else 0;
      && (ok <==> old(mem.avail) >= cost)
      && (ok ==> mem.avail == old(mem.avail) - cost)
    ensures ok ==>
      NameIs(l.name, if !wants then None else if canon != null then Some(canon.text) else Some(first))
  {
    hide AddrList.Owned, Complete;
    assert others + Just(null) == others;
    ok := true;
    if wants {
      var name := canon;
      if name == null {
        name := NewName(mem, first);
        if name == null {
          return false;
        }
      }
      assert others + Just(name) == others + {name};
      ListEnds(l, 0);
      AttachName(l, mem, name, others);
    }
  }

  /** The tail of getaddrinfo, once the list holds the base entries: the
      canonical name, then the service. */
  method NameAndServe(l: AddrList, mem: Memory, wants: bool, canon: CanonName?, first: string, serv: Option<string>,
                      socktype: int, services: Services, ghost others: set<object>)
    returns (rc: Rc)
    requires l.Valid() && l.view != [] && l.name == null && Complete(l.view)
    requires canon !in others && Accounted(l, mem, others + Just(canon)) && (canon != null ==> wants)
    modifies l, l.Owned(), Just(canon), mem
    ensures l.Valid() && Accounted(l, mem, others)
    ensures fresh(l.Owned() - old(l.Owned()) - Just(canon))
    ensures var named := if wants && canon == null then 1 else 0;
      var rs := if Given(serv) then ServiceRounds(socktype, serv.value, services) else [];
      && (rc == NoMemory <==> old(mem.avail) < named + 2 * Copied(old(l.view), rs))
      && (rc != NoMemory ==> rc == if Given(serv) then ServiceRc(old(l.view), socktype, rs) else Ok)
      && (rc != NoMemory ==> l.view == Rounds(old(l.view), rs))
      && (rc != NoMemory ==> NameIs(l.name,
            if !wants then None else if canon != null then Some(canon.text) else Some(first)))
  {
    hide AddrList.Owned, Rounds, Copied, ServiceRounds, ServiceRc, Complete;
    hide AddrList.Valid;
    RoundsNone(l.view);
    ListEnds(l, 0);
    NodeFacts(l, 0);
    var named := NameFirst(l, mem, wants, canon, first, others);
    if !named {
      return NoMemory;
    }
    rc := Ok;
    if serv.Some? && serv.value != "" {
      rc := GaServ(l, mem, socktype, serv.value, services, others);
    }
  }

  /** A search that ends in an error has no canonical name to lose. */
  lemma ErrorHasNoName(host: Option<string>, hints: Hints, wants: bool, resolver: Resolver)
    ensures var ss := Searches(host, Passive(hints), hints.family);
      var base := Gathered(ss, hints, wants, |ss| == 2, resolver);
      base.rc != Ok ==> base.canon == None
  {
    var ss := Searches(host, Passive(hints), hints.family);
    if |ss| == 2 {
      GatherTwo(ss[0], ss[1], hints, wants, resolver);
      assert ss == [ss[0], ss[1]];
    } else if |ss| == 1 {
      assert ss[..0] == [];
    }
  }

  /** The answer and its cost, once the arguments are in order. */
  lemma AnswerFromBase(host: Option<string>, serv: Option<string>, hints: Hints, resolver: Resolver,
                       services: Services, base: Item)
    requires ErrorCheck(host, serv, hints) == Ok
    requires var ss := Searches(host, Passive(hints), hints.family);
      ss != [] && base == Gathered(ss, hints, WantsCanon(host, hints), |ss| == 2, resolver)
    ensures var ss, wants := Searches(host, Passive(hints), hints.family), WantsCanon(host, hints);
      var answer := Answer(host, serv, hints, resolver, services);
      var needed := Needed(host, serv, hints, resolver, services);
      if base.rc != Ok || base.entries == [] then
        answer.rc == (if base.rc != Ok then base.rc else NoName) && needed == GatherCost(base)
      else
        var rs := if Given(serv) then ServiceRounds(hints.socktype, serv.value, services) else [];
        && answer.rc == (if Given(serv) then ServiceRc(base.entries, hints.socktype, rs) else Ok)
        && (answer.rc == Ok ==> answer.entries == Rounds(base.entries, rs))
        && (answer.rc == Ok ==>
          answer.canon == if !wants then None else if base.canon.Some? then base.canon else Some(ss[0].host))
        && needed == GatherCost(base) + (if wants && base.canon.None? then 1 else 0) + 2 * Copied(base.entries, rs)
  {
    RoundsNone(base.entries);
  }

  lemma AnswerUnchecked(host: Option<string>, serv: Option<string>, hints: Hints, resolver: Resolver,
                        services: Services)
    ensures var answer := Answer(host, serv, hints, resolver, services);
      && (ErrorCheck(host, serv, hints) != Ok ==> answer.rc == ErrorCheck(host, serv, hints))
      && (ErrorCheck(host, serv, hints) == Ok && Searches(host, Passive(hints), hints.family) == [] ==>
        answer.rc == Quit)
    ensures ErrorCheck(host, serv, hints) != Ok || Searches(host, Passive(hints), hints.family) == [] ==>
      Needed(host, serv, hints, resolver, services) == 0
  {
  }

  // ----- whole answers

  lemma AnswerIsBare(host: Option<string>, serv: Option<string>, hints: Hints, resolver: Resolver, services: Services)
    requires !WantsCanon(host, hints)
    ensures Answer(host, serv, hints, resolver, services).canon == None
  {
  }

  /** No host, AI_PASSIVE and a port number, family and type open: both wildcards,
      each as STREAM and as DGRAM. */
  lemma PassiveAndNumericService(host: Option<string>, serv: string, hints: Hints, resolver: Resolver,
                                 services: Services, d: string, port: nat)
    requires host in {None, Some("")} && PortNumber(serv, d, port)
    requires hints.family == Unspec && hints.socktype == 0 && hints.flags in {1, 3}
    ensures var p := hints.protocol;
      var any6, any4 := Some(SockVal(Inet6, port, Zeros(16))), Some(SockVal(Inet, port, Zeros(4)));
      Answer(host, Some(serv), hints, resolver, services)
      == Outcome(Ok, [Entry(true, Inet6, SOCK_STREAM, p, any6), Entry(false, Inet6, SOCK_DGRAM, p, any6),
                      Entry(true, Inet, SOCK_STREAM, p, any4), Entry(false, Inet, SOCK_DGRAM, p, any4)], None)
  {
    var a, b := NewEntry(hints, Inet6, Zeros(16)), NewEntry(hints, Inet, Zeros(4));
    assert Searches(host, Passive(hints), Unspec) == Searches(None, Passive(hints), Unspec);
    NumericPortIs(serv, d, port);
    PassiveIsAny(hints, resolver);
    AnswerFromBase(host, Some(serv), hints, resolver, services, Item(Ok, [a, b], None));
    AnswerIsBare(host, Some(serv), hints, resolver, services);
    FourEntries(a, b, serv, services, d, port);
    NewEntryIs(hints, Inet6, Zeros(16));
    NewEntryIs(hints, Inet, Zeros(4));
    hide *;
  }

  lemma FourEntries(a: Entry, b: Entry, serv: string, services: Services, d: string, port: nat)
    requires Unused(a) && Unused(b) && a.sock.Some? && b.sock.Some? && PortNumber(serv, d, port)
    ensures var rs, v, w := ServiceRounds(0, serv, services), a.sock.value, b.sock.value;
      var x, y := Some(SockVal(v.family, port, v.bytes)), Some(SockVal(w.family, port, w.bytes));
      && ServiceRc([a, b], 0, rs) == Ok
      && Rounds([a, b], rs) == [Entry(true, a.family, SOCK_STREAM, a.protocol, x),
                                Entry(false, a.family, SOCK_DGRAM, a.protocol, x),
                                Entry(true, b.family, SOCK_STREAM, b.protocol, y),
                                Entry(false, b.family, SOCK_DGRAM, b.protocol, y)]
  {
    hide Rounds, ServiceRounds, ServiceRc, NumericPort, Unused, PortNumber;
    NumericServiceTwice([a, b], serv, services, 0, d, port);
    NumericServiceTwice([a, b], serv, services, 1, d, port);
    var got := Rounds([a, b], ServiceRounds(0, serv, services));
    assert got == [got[0], got[1], got[2], got[3]];
  }

  /** The name in the first of two results that has one. */
  function FirstName(a: HostEnt, b: HostEnt): Option<string> {
    if a.HostFound? then Some(a.name) else if b.HostFound? then Some(b.name) else None
  }

  /** A host that is no literal, with an open family: the addresses of its IPv6
      search and then those of its IPv4 search. */
  lemma ResolverHost(host: string, hints: Hints, resolver: Resolver)
    requires host != "" && Literal(host).None? && hints.family == Unspec
    ensures var ss := Searches(Some(host), Passive(hints), Unspec);
      var base := Gathered(ss, hints, WantsCanon(Some(host), hints), true, resolver);
      && base.rc == Ok
      && base.entries == Resolved(host, Inet6, hints, resolver) + Resolved(host, Inet, hints, resolver)
      && (0 <= hints.flags <= 3 ==>
          base.canon == if hints.flags in {2, 3} then FirstName(resolver(host, Inet6, true), resolver(host, Inet, true))
                        else None)
  {
    hide Literal;
    GatherTwo(Search(host, Inet6), Search(host, Inet), hints, WantsCanon(Some(host), hints), resolver);
    var a := Resolved(host, Inet6, hints, resolver);
    assert [] + a == a;
  }

  /** The service is found exactly when it is offered. */
  lemma ServiceAnswer(host: Option<string>, serv: string, hints: Hints, resolver: Resolver, services: Services,
                      base: Item)
    requires ErrorCheck(host, Some(serv), hints) == Ok && serv != ""
    requires var ss := Searches(host, Passive(hints), hints.family);
      ss != [] && base == Gathered(ss, hints, WantsCanon(host, hints), |ss| == 2, resolver)
    requires base.rc == Ok && base.entries != []
    ensures Answer(host, Some(serv), hints, resolver, services).rc ==
      if Offered(hints.socktype, serv, services) then Ok else if hints.socktype == 0 then NoName else Service
  {
    var ss := Searches(host, Passive(hints), hints.family);
    GatheredComplete(ss, hints, WantsCanon(host, hints), |ss| == 2, resolver);
    ServiceFoundExactly(base.entries, hints.socktype, serv, services);
    AnswerFromBase(host, Some(serv), hints, resolver, services, base);
  }

  /** Whatever the host search gave, for a caller that leaves the type open: each
      address with every type the service is offered for, and an error exactly
      when it is not offered at all. */
  lemma OpenTypeAnswer(host: Option<string>, serv: string, hints: Hints, resolver: Resolver, services: Services,
                       base: Item, i: nat, j: nat)
    requires ErrorCheck(host, Some(serv), hints) == Ok && hints.socktype == 0 && serv != ""
    requires var ss := Searches(host, Passive(hints), hints.family);
      ss != [] && base == Gathered(ss, hints, WantsCanon(host, hints), |ss| == 2, resolver)
    requires base.rc == Ok && i < |base.entries| && j < |ServiceRounds(0, serv, services)|
    ensures var rs, answer := ServiceRounds(0, serv, services), Answer(host, Some(serv), hints, resolver, services);
      && answer.rc == Ok && |answer.entries| == |base.entries| * |rs|
      && Place(i, j, |rs|) < |answer.entries|
      && Serves(answer.entries[Place(i, j, |rs|)], base.entries[i], rs[j])
  {
    var ss, rs := Searches(host, Passive(hints), hints.family), ServiceRounds(0, serv, services);
    GatheredComplete(ss, hints, WantsCanon(host, hints), |ss| == 2, resolver);
    OpenTypeService(base.entries, serv, services, i, j);
    ServiceAnswer(host, serv, hints, resolver, services, base);
    OfferedRounds(0, serv, services);
    AnswerFromBase(host, Some(serv), hints, resolver, services, base);
    hide Gathered, Searches, ErrorCheck, ServiceRounds, ServiceRc, Rounds, Copied, Answer, Needed, Offered, Complete;
    hide AsSearched, Serves, Place;
  }

  /** For a caller that gives the type: each address once, with the port. */
  lemma GivenTypeAnswer(host: Option<string>, serv: string, hints: Hints, resolver: Resolver, services: Services,
                        base: Item, i: nat)
    requires ErrorCheck(host, Some(serv), hints) == Ok && hints.socktype != 0 && serv != ""
    requires var ss := Searches(host, Passive(hints), hints.family);
      ss != [] && base == Gathered(ss, hints, WantsCanon(host, hints), |ss| == 2, resolver)
    requires base.rc == Ok && i < |base.entries| && Offered(hints.socktype, serv, services)
    ensures var rs, answer := ServiceRounds(hints.socktype, serv, services),
        Answer(host, Some(serv), hints, resolver, services);
      && answer.rc == Ok && |rs| == 1 && |answer.entries| == |base.entries|
      && answer.entries[i] == Stamp(base.entries[i], hints.socktype, rs[0].port)
  {
    var ss := Searches(host, Passive(hints), hints.family);
    GatheredComplete(ss, hints, WantsCanon(host, hints), |ss| == 2, resolver);
    TypedService(base.entries, hints.socktype, serv, services);
    ServiceFoundExactly(base.entries, hints.socktype, serv, services);
    AnswerFromBase(host, Some(serv), hints, resolver, services, base);
    OfferedRounds(hints.socktype, serv, services);
  }

  /** What one search that asked the resolver for a family can end with. */
  predicate NoHostRc(found: HostEnt, family: Family, rc: Rc) {
    && (found.HostFound? && found.family != family ==> rc == AddrFamily)
    && (found.HostFound? && found.family == family && found.addrs == [] ==> rc == NoName)
    && (found.HostMissing? ==> rc == if found.reason in {Again, Fail, NoData} then found.reason else NoName)
  }

  /** The answers that are errors of the host search: a literal, or a resolver's
      host, of another family than the one asked for; a host the resolver does not
      have, in one family or in both. */
  lemma HostErrors(host: string, serv: Option<string>, hints: Hints, resolver: Resolver, services: Services)
    requires host != "" && ErrorCheck(Some(host), serv, hints) == Ok
    ensures var rc := Answer(Some(host), serv, hints, resolver, services).rc;
      && (hints.family.Only? && Literal(host).Some? && Literal(host).value.0 != hints.family.family ==>
          rc == AddrFamily)
      && (hints.family.Only? && Literal(host).None? ==>
          NoHostRc(resolver(host, hints.family.family, false), hints.family.family, rc))
      && (hints.family == Unspec && Literal(host).None?
          && resolver(host, Inet6, true).HostMissing? && resolver(host, Inet, true).HostMissing? ==>
          rc == NoName)
  {
    hide Literal, Rounds, ServiceRounds, ServiceRc;
    if hints.family.Only? {
      GatherOne(Search(host, hints.family.family), hints, WantsCanon(Some(host), hints), resolver);
    } else if hints.family == Unspec && Literal(host).None? {
      ResolverHost(host, hints, resolver);
    }
  }

  // ----- what a failed call leaves behind

  /** When a failed call leaves the canonical name behind: the resolver gave one
      and there was memory for it, and then either no address came with it or the
      memory ran out before the search was over. */
  predicate Leaks(avail: nat, host: Option<string>, serv: Option<string>, hints: Hints, resolver: Resolver) {
    var ss, wants := Searches(host, Passive(hints), hints.family), WantsCanon(host, hints);
    var base := Gathered(ss, hints, wants, |ss| == 2, resolver);
    && ErrorCheck(host, serv, hints) == Ok && base.canon.Some?
    && if avail < GatherCost(base) then NameCost(ss, hints, wants, |ss| == 2, resolver) <= avail
       else base.entries == []
  }

  /** A call that leaks: a host with a name and no address, in one family, with
      the canonical name asked for. */
  lemma NameWithoutAddressLeaks(name: string, avail: nat, services: Services)
    requires avail > 0
    ensures var hints, resolver := Hints(2, Only(Inet), 0, 0), (h, f, many) => HostFound(name, Inet, []);
      && Leaks(avail, Some("host"), None, hints, resolver)
      && Answer(Some("host"), None, hints, resolver, services).rc == NoName
  {
    var hints, resolver := Hints(2, Only(Inet), 0, 0), (h: string, f: Family, many: bool) => HostFound(name, Inet, []);
    var s := Search("host", Inet);
    assert Literal("host") == None;
    assert SearchItem(s, hints, false, resolver) == Item(Ok, [], Some(name));
    assert [s][..0] == [];
    assert Gathered([s], hints, true, false, resolver) == Item(Ok, [], Some(name));
  }

  /** And one that is likelier: the host has an address, but there is memory only
      for the name. */
  lemma NameWithoutMemoryLeaks(name: string, addr: seq<Byte>, services: Services)
    ensures var hints, resolver := Hints(2, Only(Inet), 0, 0), (h, f, many) => HostFound(name, Inet, [addr]);
      && Leaks(1, Some("host"), None, hints, resolver)
      && Leaks(2, Some("host"), None, hints, resolver) && !Leaks(3, Some("host"), None, hints, resolver)
      && Needed(Some("host"), None, hints, resolver, services) == 3
  {
    var hints := Hints(2, Only(Inet), 0, 0);
    var resolver := (h: string, f: Family, many: bool) => HostFound(name, Inet, [addr]);
    var s, es := Search("host", Inet), NewEntries(hints, Inet, [addr]);
    assert Literal("host") == None;
    assert SearchItem(s, hints, false, resolver) == Item(Ok, es, Some(name));
    assert [s][..0] == [] && [] + es == es;
    assert Gathered([s], hints, true, false, resolver) == Item(Ok, es, Some(name));
  }

  /** getaddrinfo. The answer depends only on the arguments and the databases,
      unless memory runs out, which happens exactly when less is available than
      the answer needs. On success the live memory grows by exactly the list; on
      failure by nothing, unless the call leaks the canonical name, which is
      exactly when it fails between copying the name and handing it over. */
  method GetAddrInfo(mem: Memory, host: Option<string>, serv: Option<string>, hintsp: Option<Hints>,
                     resolver: Resolver, services: Services)
    returns (rc: Rc, l: AddrList, ghost leaked: CanonName?)
    requires mem !in mem.live
    modifies mem
    ensures fresh(l) && (leaked != null ==> fresh(leaked))
    ensures var hints := if hintsp.Some? then hintsp.value else Hints(0, Unspec, 0, 0);
      var answer := Answer(host, serv, hints, resolver, services);
      && rc == (if old(mem.avail) < Needed(host, serv, hints, resolver, services) then NoMemory else answer.rc)
      && (rc == Ok ==> l.Valid() && l.view == answer.entries && NameIs(l.name, answer.canon))
      && (leaked != null <==> Leaks(old(mem.avail), host, serv, hints, resolver))
    ensures rc == Ok ==> leaked == null && mem.live == old(mem.live) + l.Owned() && fresh(l.Owned())
    ensures rc != Ok ==> mem.live == old(mem.live) + Just(leaked)
  {
    hide AddrList.Owned, AddrList.Valid, Gathered, Rounds, Copied, Complete, ServiceRc, ServiceRounds, SearchItem,
      Found;
    hide Answer, Needed, NameCost, ErrorCheck;
    ghost var others := mem.live;
    leaked := null;
    l := new AddrList();
    OwnsNothing(l);
    assert others + Just(null) == others;
    var hints := if hintsp.Some? then hintsp.value else Hints(0, Unspec, 0, 0);
    AnswerUnchecked(host, serv, hints, resolver, services);
    rc := ErrorCheck(host, serv, hints);
    if rc != Ok {
      return;
    }
    var search := GaNsearch(host, hints);
    if |search| < 1 || |search| > 2 {
      GatheredNone(hints, WantsCanon(host, hints), |search| == 2, resolver);
      return Quit, l, null;
    }
    var wants := WantsCanon(host, hints);
    GatheredComplete(search, hints, wants, |search| == 2, resolver);
    ErrorHasNoName(host, hints, wants, resolver);
    AnswerFromBase(host, serv, hints, resolver, services, Gathered(search, hints, wants, |search| == 2, resolver));
    var canon;
    rc, canon := Gather(l, mem, search, hints, wants, resolver, others);
    ListEnds(l, 0);
    if rc == Ok && l.head == null {
      rc := NoName;
    }
    if rc != Ok {
      Freeaddrinfo(l, mem, others + Just(canon));
      leaked := canon;
      return;
    }
    rc := NameAndServe(l, mem, wants, canon, search[0].host, serv, hints.socktype, services, others);
    if rc != Ok {
      Freeaddrinfo(l, mem, others);
    }
  }

  lemma OwnsNothing(l: AddrList)
    requires l.Valid() && l.view == [] && l.name == null
    ensures l.Owned() == {}
  {
  }
}
