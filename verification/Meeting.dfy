/** Runs of lan_chat-v4.c in which nodes do find each other: what a request, its
    offer and the alarm leave at both ends, and the whole group that comes of it. */
module Meeting {
  import opened CText
  import opened DottedQuad
  import opened Framing
  import opened Discovery

  // ----- the frames

  lemma FramesAsSent()
    ensures Frame(AUTH_CAN) == "000eauth: CAN" && Frame(AUTH_OFC) == "000eauth: OFC"
  {
    assert HexText(14) == "e";
    assert ZeroPad(3) == "000";
    assert Hex4(14) == "000e";
  }

  /** The request frame of `me` for the node at `to`. */
  function Asking(me: Ip, c: Config, to: Ip): Datagram {
    Datagram(Addr(me, c.findPort), Addr(to, 11001), "000eauth: CAN")
  }

  /** The offer frame of `me`, for the find socket of the node at `to`. */
  function Offering(me: Ip, c: Config, to: Ip): Datagram {
    Datagram(Addr(me, 11001), Addr(to, c.findPort), "000eauth: OFC")
  }

  lemma AskingIs(me: Ip, c: Config, to: Ip)
    ensures Request(me, c, to) == Asking(me, c, to) && Reply(me, Addr(to, c.findPort)) == Offering(me, c, to)
  {
    FramesAsSent();
  }

  /** A broadcast puts one request on its way to every host it reaches, from the
      find socket to the chat port, and nothing else. */
  lemma BroadcastReaches(me: Ip, c: Config, audience: set<Ip>)
    ensures forall b :: b in audience ==> Broadcast(me, c, audience)[Asking(me, c, b)] == 1
    ensures forall d :: d in Broadcast(me, c, audience) ==> d.dst.ip in audience && d == Asking(me, c, d.dst.ip)
  {
    FramesAsSent();
    hide Frame;
    forall b | b in audience ensures Broadcast(me, c, audience)[Asking(me, c, b)] == 1 {
      assert Request(me, c, b) in set x | x in audience :: Request(me, c, x);
    }
  }

  /** The address as a text: the port follows when there is one. */
  lemma NtopWithPort(a: Addr)
    ensures a.port > 0 ==> SockNtop(a) == QuadText(a.ip) + ":" + DecText(a.port)
    ensures a.port == 0 ==> SockNtop(a) == QuadText(a.ip)
  {
    if a.port > 0 {
      Associate(QuadText(a.ip), ":", DecText(a.port));
    } else {
      assert QuadText(a.ip) + "" == QuadText(a.ip);
    }
  }

  // ----- one meeting

  /** `b` chats, and does not take the find socket of `a` for itself. */
  predicate Hears(s: State, b: Ip, a: Ip)
    requires WellFormed(s) && a in s.config
  {
    b in s.node && s.node[b].phase == Chatting && !LooksLikeSelf(s.config[b].bind, Addr(a, s.config[a].findPort))
  }

  /** The state after `b` has answered `a` and `a` has received the offer. */
  function Met(s: State, a: Ip, b: Ip): (t: State)
    requires WellFormed(s) && a in s.node && b in s.node && a != b
    ensures WellFormed(t) && t.config == s.config
  {
    var n, m := s.node[a], s.node[b];
    var more := s.node[b := m.(peers := m.peers + [Addr(a, 11001)])];
    State(s.config,
          more[a := NodeState(if n.phase == Confirming then Chatting else n.phase, n.peers + [Addr(b, 11001)])],
          s.net - multiset{Asking(a, s.config[a], b)})
  }

  function Meeting(config: map<Ip, Config>, a: Ip, b: Ip): seq<Event>
    requires a in config
  {
    [ListenReceive(b, Asking(a, config[a], b)), FindReceive(a, Offering(b, config[a], a))]
  }

  lemma RunTwo(s: State, e: Event, f: Event)
    requires WellFormed(s) && Enabled(s, e) && Enabled(Step(s, e), f)
    ensures Run(s, [e, f]) == Step(Step(s, e), f)
  {
    hide Step, Enabled;
    assert Run(s, []) == s;
    assert [e, f][..1] == [e] && [e][..0] == [];
  }

  lemma Answered(s: State, a: Ip, b: Ip)
    requires WellFormed(s) && a in s.node && Hears(s, b, a) && Asking(a, s.config[a], b) in s.net
    ensures var c := s.config[a];
      var e := ListenReceive(b, Asking(a, c, b));
      && Enabled(s, e)
      && Step(s, e) == s.(
        node := s.node[b := s.node[b].(peers := s.node[b].peers + [Addr(a, 11001)])],
        net := s.net - multiset{Asking(a, c, b)} + multiset{Offering(b, c, a)})
  {
    var c := s.config[a];
    FrameContent(AUTH_CAN);
    AskingIs(a, c, b);
    AskingIs(b, c, a);
    hide Frame, LooksLikeSelf, Content;
    assert multiset([Offering(b, c, a)]) == multiset{Offering(b, c, a)};
  }

  lemma Confirmed(s: State, a: Ip, b: Ip)
    requires WellFormed(s) && a in s.node && s.node[a].phase in {Finding, Confirming}
    requires Offering(b, s.config[a], a) in s.net
    ensures var d, n := Offering(b, s.config[a], a), s.node[a];
      && Enabled(s, FindReceive(a, d))
      && Step(s, FindReceive(a, d)) == s.(
        node := s.node[a := NodeState(if n.phase == Confirming then Chatting else n.phase,
                                      n.peers + [Addr(b, 11001)])],
        net := s.net - multiset{d})
  {
    FrameContent(AUTH_OFC);
    AskingIs(b, s.config[a], a);
    hide Frame, Content;
  }

  /** A request that is under way, to a node that hears it: both ends come to know
      each other, with their chat ports. */
  lemma Meets(s: State, a: Ip, b: Ip)
    requires WellFormed(s) && a in s.node && s.node[a].phase in {Finding, Confirming} && a != b && Hears(s, b, a)
    requires Asking(a, s.config[a], b) in s.net
    ensures Run(s, Meeting(s.config, a, b)) == Met(s, a, b)
  {
    hide LooksLikeSelf, Enabled, Step, Run;
    var c := s.config[a];
    var e, f := ListenReceive(b, Asking(a, c, b)), FindReceive(a, Offering(b, c, a));
    Answered(s, a, b);
    var u := Step(s, e);
    assert u.node[a] == s.node[a];
    Confirmed(u, a, b);
    RunTwo(s, e, f);
    assert Step(u, f).net == Met(s, a, b).net;
    assert Step(u, f).node == Met(s, a, b).node;
  }

  lemma {:induction false} RunConcat(s: State, es: seq<Event>, fs: seq<Event>)
    requires WellFormed(s)
    ensures Run(s, es + fs) == Run(Run(s, es), fs)
    decreases |fs|
  {
    hide Step, Enabled;
    var all := es + fs;
    if fs == [] {
      assert all == es;
    } else {
      RunConcat(s, es, fs[..|fs| - 1]);
      assert all[..|all| - 1] == es + fs[..|fs| - 1] && all[|all| - 1] == fs[|fs| - 1];
    }
  }

  lemma RunOne(s: State, e: Event)
    requires WellFormed(s) && Enabled(s, e)
    ensures Run(s, [e]) == Step(s, e)
  {
    hide Step, Enabled;
    assert Run(s, []) == s && [e][..0] == [];
  }

  /** After am-find one offer is enough: both ends have one entry more, and the
      node chats again. */
  lemma FoundAgain(s: State, a: Ip, b: Ip)
    requires WellFormed(s) && a in s.node && s.node[a].phase == Chatting && a != b && Hears(s, b, a)
    ensures var t := Run(s, [FindAgain(a, {b})] + Meeting(s.config, a, b));
      && t.node[a] == NodeState(Chatting, s.node[a].peers + [Addr(b, 11001)])
      && t.node[b] == NodeState(Chatting, s.node[b].peers + [Addr(a, 11001)])
      && (forall x :: x in s.node && x != a && x != b ==> t.node[x] == s.node[x])
      && t.net == s.net
  {
    hide LooksLikeSelf, Broadcast, Run;
    var e := FindAgain(a, {b});
    var u := Step(s, e);
    OneAsked(a, s.config[a], b);
    RunConcat(s, [e], Meeting(s.config, a, b));
    RunOne(s, e);
    Meets(u, a, b);
    assert s.net + multiset{Asking(a, s.config[a], b)} - multiset{Asking(a, s.config[a], b)} == s.net;
  }

  lemma OneAsked(me: Ip, c: Config, b: Ip)
    ensures Broadcast(me, c, {b}) == multiset{Asking(me, c, b)}
  {
    AskingIs(me, c, b);
    hide Frame;
    assert (set x | x in {b} :: Request(me, c, x)) == {Request(me, c, b)};
  }

  // ----- joining a group

  function Chats(names: seq<Ip>): (peers: seq<Addr>)
    ensures |peers| == |names| && forall i :: 0 <= i < |names| ==> peers[i] == Addr(names[i], 11001)
  {
    seq(|names|, i requires 0 <= i < |names| => Addr(names[i], 11001))
  }

  predicate Distinct(names: seq<Ip>) {
    forall i, j :: 0 <= i < j < |names| ==> names[i] != names[j]
  }

  function Asked(me: Ip, c: Config, names: seq<Ip>): multiset<Datagram> {
    if names == [] then multiset{}
    else Asked(me, c, names[..|names| - 1]) + multiset{Asking(me, c, names[|names| - 1])}
  }

  function Meetings(config: map<Ip, Config>, a: Ip, names: seq<Ip>): seq<Event>
    requires a in config
  {
    if names == [] then []
    else Meetings(config, a, names[..|names| - 1]) + Meeting(config, a, names[|names| - 1])
  }

  /** Each of `names` has one entry more, for `a`, and no other node has changed. */
  ghost predicate MetNodes(s: State, a: Ip, names: seq<Ip>, t: State)
    requires s.node.Keys == t.node.Keys
  {
    && (forall x :: x in s.node && x in names ==>
        t.node[x] == s.node[x].(peers := s.node[x].peers + [Addr(a, 11001)]))
    && (forall x :: x in s.node && x != a && x !in names ==> t.node[x] == s.node[x])
  }

  /** `t` is `s` after `a` has met all of `names` while it was finding. */
  ghost predicate MetAll(s: State, a: Ip, names: seq<Ip>, t: State)
    requires WellFormed(s) && a in s.config
  {
    && t.config == s.config && t.node.Keys == s.node.Keys
    && t.node[a] == NodeState(Finding, s.node[a].peers + Chats(names))
    && MetNodes(s, a, names, t)
    && t.net == s.net - Asked(a, s.config[a], names)
  }

  /** All of `names` are other nodes, and hear `a`. */
  predicate AllHear(s: State, names: seq<Ip>, a: Ip)
    requires WellFormed(s) && a in s.config
  {
    Distinct(names) && a !in names && forall i :: 0 <= i < |names| ==> Hears(s, names[i], a)
  }

  lemma RunNone(s: State)
    requires WellFormed(s)
    ensures Run(s, []) == s
  {
  }

  lemma ChatsSnoc(names: seq<Ip>, b: Ip)
    ensures Chats(names + [b]) == Chats(names) + [Addr(b, 11001)]
  {
  }

  lemma AskedSnoc(me: Ip, c: Config, names: seq<Ip>, b: Ip)
    ensures Asked(me, c, names + [b]) == Asked(me, c, names) + multiset{Asking(me, c, b)}
  {
    assert (names + [b])[..|names|] == names;
  }

  lemma MetAllSnoc(s: State, a: Ip, names: seq<Ip>, b: Ip, u: State)
    requires WellFormed(s) && WellFormed(u) && a in s.node && b in s.node && a != b && b !in names && a !in names
    requires MetAll(s, a, names, u)
    ensures MetAll(s, a, names + [b], Met(u, a, b))
  {
    ChatsSnoc(names, b);
    AskedSnoc(a, s.config[a], names, b);
    hide *;
    var more, asking, t := names + [b], Asking(a, s.config[a], b), Met(u, a, b);
    MetParts(u, a, b);
    MetAllParts(s, a, names, u);
    NodesMet(s, u, t, a, names, b);
    Without(s.net, Asked(a, s.config[a], names), asking);
    MetAllIs(s, a, more, t);
  }

  lemma Without(net: multiset<Datagram>, some: multiset<Datagram>, d: Datagram)
    ensures net - some - multiset{d} == net - (some + multiset{d})
  {
  }

  lemma MetParts(u: State, a: Ip, b: Ip)
    requires WellFormed(u) && a in u.node && b in u.node && a != b
    ensures var t := Met(u, a, b);
      && WellFormed(t) && t.config == u.config && t.node.Keys == u.node.Keys
      && (u.node[a].phase == Finding ==> t.node[a] == NodeState(Finding, u.node[a].peers + [Addr(b, 11001)]))
      && t.node[b] == u.node[b].(peers := u.node[b].peers + [Addr(a, 11001)])
      && (forall x :: x in u.node && x != a && x != b ==> t.node[x] == u.node[x])
      && t.net == u.net - multiset{Asking(a, u.config[a], b)}
  {
  }

  lemma MetAllParts(s: State, a: Ip, names: seq<Ip>, u: State)
    requires WellFormed(s) && a in s.node && WellFormed(u) && MetAll(s, a, names, u)
    ensures u.config == s.config && u.node.Keys == s.node.Keys == s.config.Keys
    ensures u.node[a] == NodeState(Finding, s.node[a].peers + Chats(names))
    ensures MetNodes(s, a, names, u) && u.net == s.net - Asked(a, s.config[a], names)
  {
  }

  lemma MetAllIs(s: State, a: Ip, names: seq<Ip>, u: State)
    requires WellFormed(s) && a in s.node && WellFormed(u)
    requires u.config == s.config && u.node.Keys == s.node.Keys && MetNodes(s, a, names, u)
    requires u.node[a] == NodeState(Finding, s.node[a].peers + Chats(names))
    requires u.net == s.net - Asked(a, s.config[a], names)
    ensures MetAll(s, a, names, u)
  {
  }

  lemma NodesMet(s: State, u: State, t: State, a: Ip, names: seq<Ip>, b: Ip)
    requires s.node.Keys == u.node.Keys == t.node.Keys && a in s.node && b in s.node && b !in names
    requires t.node[b] == u.node[b].(peers := u.node[b].peers + [Addr(a, 11001)])
    requires forall x :: x in u.node && x != a && x != b ==> t.node[x] == u.node[x]
    requires MetNodes(s, a, names, u) && a != b && a !in names
    ensures MetNodes(s, a, names + [b], t)
  {
    assert forall x :: x in names + [b] <==> x in names || x == b;
  }

  lemma MeetingsEnd(config: map<Ip, Config>, a: Ip, names: seq<Ip>, b: Ip)
    requires a in config
    ensures Meetings(config, a, names + [b]) == Meetings(config, a, names) + Meeting(config, a, b)
  {
    assert (names + [b])[..|names|] == names;
  }

  lemma MetNobody(s: State, a: Ip)
    requires WellFormed(s) && a in s.node && s.node[a].phase == Finding
    ensures Meetings(s.config, a, []) == [] && MetAll(s, a, [], s)
  {
    assert s.node[a].peers + Chats([]) == s.node[a].peers;
  }

  lemma FrontHears(s: State, names: seq<Ip>, b: Ip, a: Ip)
    requires WellFormed(s) && a in s.config && AllHear(s, names + [b], a)
    ensures AllHear(s, names, a) && Hears(s, b, a) && b !in names && a !in names && a != b && b in s.node
  {
    hide Hears;
    var all := names + [b];
    assert forall i :: 0 <= i < |names| ==> names[i] == all[i];
    assert all[|names|] == b && Hears(s, all[|names|], a);
    HearerIsNode(s, b, a);
  }

  lemma HearerIsNode(s: State, b: Ip, a: Ip)
    requires WellFormed(s) && a in s.config && Hears(s, b, a)
    ensures b in s.node
  {
  }

  /** After the first meetings the next one can still take place. */
  lemma StillHears(s: State, a: Ip, names: seq<Ip>, b: Ip, u: State)
    requires WellFormed(s) && WellFormed(u) && a in s.node && MetAll(s, a, names, u)
    requires Hears(s, b, a) && b !in names && a != b && Asked(a, s.config[a], names + [b]) <= s.net
    ensures a in u.node && u.node[a].phase == Finding && Hears(u, b, a) && Asking(a, u.config[a], b) in u.net
  {
    hide LooksLikeSelf, Chats, Asked, Asking;
    AskedSnoc(a, s.config[a], names, b);
  }

  lemma {:induction false} MeetsAll(s: State, a: Ip, names: seq<Ip>)
    requires WellFormed(s) && a in s.node && s.node[a].phase == Finding && AllHear(s, names, a)
    requires Asked(a, s.config[a], names) <= s.net
    ensures MetAll(s, a, names, Run(s, Meetings(s.config, a, names)))
  {
    hide *;
    SameNodes(s, a);
    if names == [] {
      MetNobody(s, a);
      RunNone(s);
    } else {
      var front, b := names[..|names| - 1], names[|names| - 1];
      assert names == front + [b];
      FrontHears(s, front, b, a);
      AskedSnoc(a, s.config[a], front, b);
      MeetsAll(s, a, front);
      MeetingsEnd(s.config, a, front, b);
      RunConcat(s, Meetings(s.config, a, front), Meeting(s.config, a, b));
      var u := Run(s, Meetings(s.config, a, front));
      StillHears(s, a, front, b, u);
      Meets(u, a, b);
      MetAllSnoc(s, a, front, b, u);
    }
  }

  function Members(names: seq<Ip>): set<Ip> {
    set x | x in names
  }

  lemma {:induction false} AskedIsBroadcast(me: Ip, c: Config, names: seq<Ip>)
    requires Distinct(names)
    ensures Broadcast(me, c, Members(names)) == Asked(me, c, names)
  {
    if names != [] {
      var front, b := names[..|names| - 1], names[|names| - 1];
      AskedIsBroadcast(me, c, front);
      AskedSnoc(me, c, front, b);
      assert names == front + [b];
      assert b !in front;
      assert Members(names) == Members(front) + {b};
      hide Broadcast, Asked, Members, Asking;
      OneMoreAsked(me, c, Members(front), b);
    }
  }

  lemma OneMoreAsked(me: Ip, c: Config, audience: set<Ip>, b: Ip)
    requires b !in audience
    ensures Broadcast(me, c, audience + {b}) == Broadcast(me, c, audience) + multiset{Asking(me, c, b)}
  {
    AskingIs(me, c, b);
    hide Frame;
    var some, all := set x | x in audience :: Request(me, c, x), set x | x in audience + {b} :: Request(me, c, x);
    assert all == some + {Request(me, c, b)} && Request(me, c, b) !in some;
  }

  /** What a node does to join: it asks everybody, hears from all of them, and the
      alarm goes off. */
  function Join(config: map<Ip, Config>, a: Ip, names: seq<Ip>): seq<Event>
    requires a in config
  {
    [Start(a, Members(names))] + Meetings(config, a, names) + [Alarm(a)]
  }

  /** It then has an entry for each of them, each has one more for it, and nothing
      is under way that was not before. */
  lemma Joins(s: State, a: Ip, names: seq<Ip>)
    requires WellFormed(s) && a in s.node && s.node[a].phase == Idle && AllHear(s, names, a)
    ensures var t := Run(s, Join(s.config, a, names));
      && t.node[a] == NodeState(Chatting, s.node[a].peers + Chats(names))
      && (forall x :: x in s.node && x in names ==>
          t.node[x] == NodeState(Chatting, s.node[x].peers + [Addr(a, 11001)]))
      && (forall x :: x in s.node && x != a && x !in names ==> t.node[x] == s.node[x])
      && t.net == s.net
  {
    hide LooksLikeSelf, Run, Broadcast, Asked, Meetings;
    var c, more := s.config[a], Meetings(s.config, a, names);
    AskedIsBroadcast(a, c, names);
    var e := Start(a, Members(names));
    RunOne(s, e);
    var u := Step(s, e);
    MeetsAll(u, a, names);
    RunConcat(s, [e], more);
    var v := Run(u, more);
    RunConcat(s, [e] + more, [Alarm(a)]);
    RunOne(v, Alarm(a));
    assert v.net == s.net;
  }

  // ----- the group

  /** Nodes that start one after the other, each once the one before it chats. */
  function Arrivals(config: map<Ip, Config>, names: seq<Ip>): seq<Event>
    requires forall i :: 0 <= i < |names| ==> names[i] in config
  {
    if names == [] then []
    else
      var front := names[..|names| - 1];
      Arrivals(config, front) + Join(config, names[|names| - 1], front)
  }

  /** Nobody takes a later arrival for itself. */
  predicate Heard(config: map<Ip, Config>, names: seq<Ip>)
    requires forall i :: 0 <= i < |names| ==> names[i] in config
  {
    forall i, j :: 0 <= i < j < |names| ==>
      !LooksLikeSelf(config[names[i]].bind, Addr(names[j], config[names[j]].findPort))
  }

  /** Everybody chats with everybody else. */
  predicate Group(t: State, names: seq<Ip>)
    requires WellFormed(t) && forall i :: 0 <= i < |names| ==> names[i] in t.config
  {
    forall i :: 0 <= i < |names| ==>
      t.node[names[i]] == NodeState(Chatting, Chats(names[..i]) + Chats(names[i + 1..]))
  }

  /** All arrivals but the last. */
  lemma FrontHeard(config: map<Ip, Config>, names: seq<Ip>)
    requires names != [] && Distinct(names) && forall i :: 0 <= i < |names| ==> names[i] in config
    requires Heard(config, names)
    ensures var front, a := names[..|names| - 1], names[|names| - 1];
      && names == front + [a] && Distinct(front) && a !in front && a in config
      && (forall i :: 0 <= i < |front| ==> front[i] in config) && Heard(config, front)
      && (forall i :: 0 <= i < |front| ==>
          !LooksLikeSelf(config[front[i]].bind, Addr(a, config[a].findPort)))
      && Arrivals(config, names) == Arrivals(config, front) + Join(config, a, front)
  {
    hide LooksLikeSelf, Join, Arrivals;
    var front := names[..|names| - 1];
    assert forall i :: 0 <= i < |front| ==> front[i] == names[i];
    ArrivalsEnd(config, names);
  }

  lemma ArrivalsEnd(config: map<Ip, Config>, names: seq<Ip>)
    requires names != [] && forall i :: 0 <= i < |names| ==> names[i] in config
    ensures var front := names[..|names| - 1];
      && (forall i :: 0 <= i < |front| ==> front[i] in config)
      && Arrivals(config, names) == Arrivals(config, front) + Join(config, names[|names| - 1], front)
  {
  }

  lemma GroupHears(u: State, names: seq<Ip>, a: Ip)
    requires WellFormed(u) && Distinct(names) && a !in names && a in u.config
    requires (forall i :: 0 <= i < |names| ==> names[i] in u.config) && Group(u, names)
    requires forall i :: 0 <= i < |names| ==>
      !LooksLikeSelf(u.config[names[i]].bind, Addr(a, u.config[a].findPort))
    ensures AllHear(u, names, a)
  {
    hide LooksLikeSelf;
  }

  /** The nodes that have not arrived. */
  predicate Untouched(t: State, names: seq<Ip>) {
    forall x :: x in t.node && x !in names ==> t.node[x] == NodeState(Idle, [])
  }

  lemma InitialGroup(s: State)
    requires Initial(s)
    ensures Run(s, Arrivals(s.config, [])) == s && Group(s, []) && Untouched(s, []) && s.net == multiset{}
  {
    RunNone(s);
  }

  /** One more arrival. */
  lemma GroupGrows(u: State, names: seq<Ip>, a: Ip)
    requires WellFormed(u) && a in u.node && Distinct(names) && a !in names
    requires (forall i :: 0 <= i < |names| ==> names[i] in u.config) && Group(u, names) && Untouched(u, names)
    requires forall i :: 0 <= i < |names| ==>
      !LooksLikeSelf(u.config[names[i]].bind, Addr(a, u.config[a].findPort))
    ensures var t := Run(u, Join(u.config, a, names));
      Group(t, names + [a]) && Untouched(t, names + [a]) && t.net == u.net
  {
    GroupHears(u, names, a);
    assert u.node[a] == NodeState(Idle, []);
    Joins(u, a, names);
    hide LooksLikeSelf, Run, Join, Group, Chats;
    assert [] + Chats(names) == Chats(names);
    GroupSnoc(u, Run(u, Join(u.config, a, names)), names, a);
  }

  /** However many nodes arrive, each ends up with exactly one entry for each of
      the others, nothing is left under way, and the rest has not been disturbed. */
  lemma {:induction false} GroupForms(s: State, names: seq<Ip>)
    requires Initial(s) && Distinct(names) && (forall i :: 0 <= i < |names| ==> names[i] in s.config)
    requires Heard(s.config, names)
    ensures var t := Run(s, Arrivals(s.config, names));
      Group(t, names) && Untouched(t, names) && t.net == multiset{}
    decreases |names|
  {
    assert WellFormed(s);
    hide *;
    if names == [] {
      InitialGroup(s);
    } else {
      var front, a := names[..|names| - 1], names[|names| - 1];
      FrontHeard(s.config, names);
      GroupForms(s, front);
      var u := Run(s, Arrivals(s.config, front));
      RunConcat(s, Arrivals(s.config, front), Join(s.config, a, front));
      SameNodes(u, a);
      GroupGrows(u, front, a);
    }
  }

  lemma SameNodes(u: State, a: Ip)
    requires WellFormed(u)
    ensures a in u.config <==> a in u.node
  {
  }

  lemma GroupSnoc(u: State, t: State, names: seq<Ip>, a: Ip)
    requires WellFormed(u) && WellFormed(t) && u.config == t.config && a in u.config && a !in names
    requires (forall i :: 0 <= i < |names| ==> names[i] in u.config) && Group(u, names)
    requires t.node[a] == NodeState(Chatting, Chats(names))
    requires forall x :: x in u.node && x in names ==>
      t.node[x] == NodeState(Chatting, u.node[x].peers + [Addr(a, 11001)])
    ensures Group(t, names + [a])
  {
    var all := names + [a];
    forall i | 0 <= i < |all| ensures t.node[all[i]] == NodeState(Chatting, Chats(all[..i]) + Chats(all[i + 1..])) {
      if i < |names| {
        assert all[..i] == names[..i] && all[i + 1..] == names[i + 1..] + [a];
        ChatsSnoc(names[i + 1..], a);
        assert Chats(names[..i]) + Chats(names[i + 1..]) + [Addr(a, 11001)]
          == Chats(names[..i]) + Chats(all[i + 1..]);
      } else {
        assert all[..i] == names && all[i + 1..] == [];
        assert Chats(names) + [] == Chats(names);
      }
    }
  }

  // ----- who can meet

  /** Two nodes: the one that chats hears the one that starts, and then each has
      exactly the other. */
  lemma Introduced(s: State, a: Ip, b: Ip)
    requires Initial(s) && a in s.config && b in s.config && a != b && !Deaf(s.config, b, a)
    ensures var t := Run(s, Arrivals(s.config, [b, a]));
      && t.node[a] == NodeState(Chatting, [Addr(b, 11001)])
      && t.node[b] == NodeState(Chatting, [Addr(a, 11001)])
      && t.net == multiset{}
  {
    hide LooksLikeSelf, Run, Arrivals;
    var names := [b, a];
    GroupForms(s, names);
    var k: nat := 1;
    assert names[..k - 1] == [] && names[k - 1 + 1..] == [a];
    assert names[..k] == [b] && names[k + 1..] == [];
    assert Chats([]) + Chats([a]) == [Addr(a, 11001)];
    assert Chats([b]) + Chats([]) == [Addr(b, 11001)];
    assert names[0] == b && names[k] == a;
  }

  /** So two nodes can meet, in some run, exactly when one of them hears the other. */
  lemma MeetExactly(s: State, a: Ip, b: Ip)
    requires Initial(s) && a in s.config && b in s.config && a != b
    ensures (exists es, i :: 0 <= i < |Run(s, es).node[a].peers| && Run(s, es).node[a].peers[i].ip == b)
      <==> !Deaf(s.config, a, b) || !Deaf(s.config, b, a)
  {
    hide LooksLikeSelf, Step, Enabled, Arrivals;
    if Deaf(s.config, a, b) && Deaf(s.config, b, a) {
      forall es, i | 0 <= i < |Run(s, es).node[a].peers| ensures Run(s, es).node[a].peers[i].ip != b {
        NeverMeet(s, es, a, b, i);
      }
    } else if !Deaf(s.config, b, a) {
      Introduced(s, a, b);
      assert Run(s, Arrivals(s.config, [b, a])).node[a].peers[0].ip == b;
    } else {
      Introduced(s, b, a);
      assert Run(s, Arrivals(s.config, [a, b])).node[a].peers[0].ip == b;
    }
  }

  lemma {:induction false} PrefixValue(d: string, whole: string)
    requires d <= whole && AllDec(whole)
    ensures AllDec(d) && DecVal(d) <= DecVal(whole)
    decreases |whole|
  {
    assert forall i :: 0 <= i < |d| ==> d[i] == whole[i];
    if |d| < |whole| {
      PrefixValue(d, whole[..|whole| - 1]);
    } else {
      assert d == whole;
    }
  }

  lemma PrefixOctet(x: Byte, y: Byte)
    requires DecText(x) <= DecText(y)
    ensures x <= y
  {
    DecTextValue(x);
    DecTextValue(y);
    hide DecVal, DecText;
    PrefixValue(DecText(x), DecText(y));
  }

  /** Nodes that give their own address, in any order in which a later one has the
      lower last octet, or another subnet, all hear each other. */
  lemma DescendingAreHeard(config: map<Ip, Config>, names: seq<Ip>)
    requires forall i :: 0 <= i < |names| ==> names[i] in config && config[names[i]].bind == QuadText(names[i])
    requires forall i, j :: 0 <= i < j < |names| ==>
      names[i][3] > names[j][3] || names[i][..3] != names[j][..3]
    ensures Heard(config, names) && Distinct(names)
  {
    hide LooksLikeSelf, QuadText;
    forall i, j | 0 <= i < j < |names|
      ensures !LooksLikeSelf(config[names[i]].bind, Addr(names[j], config[names[j]].findPort)) && names[i] != names[j]
    {
      FilterIsPrefixOfLastOctet(names[i], Addr(names[j], config[names[j]].findPort));
      if DecText(names[i][3]) <= DecText(names[j][3]) {
        PrefixOctet(names[i][3], names[j][3]);
      }
    }
  }
}
