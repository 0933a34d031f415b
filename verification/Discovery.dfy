/** Peer discovery on a LAN: lan_chat-v4.c with udp-broadcast.c. Each node has a
    find socket, on a port of its own, and once it chats a listening socket on
    CHAT_PORT. The network is the multiset of datagrams not yet received; a
    datagram that is lost is one that is never received. */
module Discovery {
  import opened CText
  import opened DottedQuad
  import opened Framing

  type Ip = a: seq<Byte> | |a| == 4 witness [0, 0, 0, 0]

  datatype Addr = Addr(ip: Ip, port: nat)

  datatype Datagram = Datagram(src: Addr, dst: Addr, data: string)

  const CHAT_PORT := 11001
  const AUTH_CAN := "auth: CAN"
  const AUTH_OFC := "auth: OFC"

  /** What follows the length field. */
  function Content(data: string): string {
    if |data| < 4 then "" else data[4..]
  }

  lemma FrameContent(payload: string)
    ensures Content(Frame(payload)) == payload
  {
  }

  // ----- the self filter

  /** What Sock_ntop appends to the address. */
  function PortText(port: nat): string {
    if port != 0 then ":" + DecText(port) else ""
  }

  /** Sock_ntop for an IPv4 address. */
  function SockNtop(a: Addr): string {
    QuadText(a.ip) + PortText(a.port)
  }

  /** strncmp over the length of the bind address: a prefix test. */
  predicate LooksLikeSelf(bind: string, src: Addr) {
    bind <= SockNtop(src)
  }

  function FirstThree(ip: Ip): string {
    DecText(ip[0]) + "." + DecText(ip[1]) + "." + DecText(ip[2]) + "."
  }

  lemma NtopParts(a: Addr)
    ensures QuadText(a.ip) == FirstThree(a.ip) + DecText(a.ip[3])
    ensures SockNtop(a) == FirstThree(a.ip) + (DecText(a.ip[3]) + PortText(a.port))
  {
    Associate(FirstThree(a.ip), DecText(a.ip[3]), PortText(a.port));
  }

  lemma Associate(a: string, b: string, c: string)
    ensures a + b + c == a + (b + c)
  {
  }

  lemma SplitNtop(a: Addr)
    ensures Split(SockNtop(a), '.')
      == [DecText(a.ip[0]), DecText(a.ip[1]), DecText(a.ip[2]), DecText(a.ip[3]) + PortText(a.port)]
  {
    DigitsAreFree(a.ip[0]);
    DigitsAreFree(a.ip[1]);
    DigitsAreFree(a.ip[2]);
    DigitsAreFree(a.ip[3]);
    DigitsAreFree(a.port);
    NtopParts(a);
    FourFields(DecText(a.ip[0]), DecText(a.ip[1]), DecText(a.ip[2]), DecText(a.ip[3]) + PortText(a.port));
  }

  lemma SameOctet(x: Byte, y: Byte)
    requires DecText(x) == DecText(y)
    ensures x == y
  {
    DecTextValue(x);
    DecTextValue(y);
  }

  /** The fields of a prefix, against those of the whole text. */
  lemma PrefixFields(s: string, whole: string)
    requires s <= whole
    ensures var f, g := Split(s, '.'), Split(whole, '.');
      && |f| <= |g| && f[|f| - 1] <= g[|f| - 1]
      && forall k :: 0 <= k < |f| - 1 ==> f[k] == g[k]
  {
    var f, g := Split(s, '.'), Split(whole, '.');
    assert whole == s + whole[|s|..];
    SplitExtends(s, whole[|s|..], '.');
    forall k | 0 <= k < |f| - 1 ensures f[k] == g[k] {
      assert f[..|f| - 1][k] == g[..|f| - 1][k];
    }
  }

  lemma FourAgree(f: seq<string>, g: seq<string>, a: string, b: string, c: string, d: string,
                  p: string, q: string, r: string, t: string)
    requires f == [a, b, c, d] && g == [p, q, r, t]
    requires (forall k :: 0 <= k < |f| - 1 ==> f[k] == g[k]) && f[|f| - 1] <= g[|f| - 1]
    ensures a == p && b == q && c == r && d <= t
  {
    assert f[0] == g[0] && f[1] == g[1] && f[2] == g[2];
  }

  lemma PortIsNoDigit(d: string, port: nat)
    ensures |d| < |d + PortText(port)| ==> (d + PortText(port))[|d|] == ':'
  {
  }

  lemma FilteredShares(me: Ip, src: Addr)
    requires LooksLikeSelf(QuadText(me), src)
    ensures me[..3] == src.ip[..3] && DecText(me[3]) <= DecText(src.ip[3])
  {
    hide QuadText, SockNtop, PortText, DecText, Split;
    var s, whole, last := QuadText(me), SockNtop(src), DecText(src.ip[3]) + PortText(src.port);
    PortIsNoDigit(DecText(src.ip[3]), src.port);
    QuadTextFields(me);
    SplitNtop(src);
    PrefixFields(s, whole);
    FourAgree(Split(s, '.'), Split(whole, '.'), DecText(me[0]), DecText(me[1]), DecText(me[2]), DecText(me[3]),
              DecText(src.ip[0]), DecText(src.ip[1]), DecText(src.ip[2]), last);
    SameOctet(me[0], src.ip[0]);
    SameOctet(me[1], src.ip[1]);
    SameOctet(me[2], src.ip[2]);
    DigitsStayDigits(DecText(me[3]), DecText(src.ip[3]), last);
  }

  lemma SharesFiltered(me: Ip, src: Addr)
    requires me[..3] == src.ip[..3] && DecText(me[3]) <= DecText(src.ip[3])
    ensures LooksLikeSelf(QuadText(me), src)
  {
    assert me[..3][0] == me[0] && me[..3][1] == me[1] && me[..3][2] == me[2];
    assert src.ip[..3][0] == src.ip[0] && src.ip[..3][1] == src.ip[1] && src.ip[..3][2] == src.ip[2];
    NtopParts(Addr(me, 0));
    NtopParts(src);
    PrefixAfter(FirstThree(me), DecText(me[3]), DecText(src.ip[3]) + PortText(src.port));
  }

  /** A node bound by its own canonical text takes a sender for itself exactly
      when the sender's address agrees in the first three octets and the digits
      of its last octet start with the node's own. */
  lemma FilterIsPrefixOfLastOctet(me: Ip, src: Addr)
    ensures LooksLikeSelf(QuadText(me), src) <==>
      me[..3] == src.ip[..3] && DecText(me[3]) <= DecText(src.ip[3])
  {
    hide LooksLikeSelf;
    if LooksLikeSelf(QuadText(me), src) {
      FilteredShares(me, src);
    }
    if me[..3] == src.ip[..3] && DecText(me[3]) <= DecText(src.ip[3]) {
      SharesFiltered(me, src);
    }
  }

  lemma PrefixAfter(pre: string, a: string, b: string)
    requires a <= b
    ensures pre + a <= pre + b
  {
    assert pre + b == (pre + a) + b[|a|..];
  }

  lemma DigitsStayDigits(a: string, b: string, b': string)
    requires AllDec(a) && b <= b' && a <= b' && (|b| < |b'| ==> !IsDec(b'[|b|]))
    ensures a <= b
  {
    assert forall i :: 0 <= i < |a| ==> b'[i] == a[i] && IsDec(b'[i]);
  }

  /** So a node never takes itself for another, but may take another for itself:
      10.0.0.1 does not hear 10.0.0.12. */
  lemma FilterTooWide(port: nat)
    ensures LooksLikeSelf(QuadText([10, 0, 0, 1]), Addr([10, 0, 0, 12], port))
  {
    FilterIsPrefixOfLastOctet([10, 0, 0, 1], Addr([10, 0, 0, 12], port));
    assert DecText(12) == DecText(1) + "2";
  }

  lemma OwnAddressFiltered(me: Ip, port: nat)
    ensures LooksLikeSelf(QuadText(me), Addr(me, port))
  {
  }

  // ----- one node

  /** Not started, gathering offers, chatting, waiting for one offer after
      am-find, ended by am-end, ended by err_sys. */
  datatype Phase = Idle | Finding | Chatting | Confirming | Left | Crashed

  datatype NodeState = NodeState(phase: Phase, peers: seq<Addr>)

  datatype Config = Config(bind: string, user: string, findPort: nat)

  function Request(me: Ip, c: Config, to: Ip): Datagram {
    Datagram(Addr(me, c.findPort), Addr(to, CHAT_PORT), Frame(AUTH_CAN))
  }

  /** auth_request: the broadcast reaches an arbitrary set of hosts. */
  function Broadcast(me: Ip, c: Config, audience: set<Ip>): multiset<Datagram> {
    multiset(set b | b in audience :: Request(me, c, b))
  }

  /** auth_try_confirm and what its callers do with the result. */
  function OnFindSocket(n: NodeState, d: Datagram): NodeState {
    if AUTH_OFC <= Content(d.data) then
      NodeState(if n.phase == Confirming then Chatting else n.phase, n.peers + [d.src])
    else n.(phase := Crashed)
  }

  /** The reply of auth_accept, from the listening socket. */
  function Reply(me: Ip, to: Addr): Datagram {
    Datagram(Addr(me, CHAT_PORT), to, Frame(AUTH_OFC))
  }

  predicate Accepts(c: Config, d: Datagram) {
    !LooksLikeSelf(c.bind, d.src) && AUTH_CAN <= Content(d.data)
  }

  /** A datagram on the listening socket: a request that is not the node's own is
      answered and its sender recorded with the chat port. */
  function OnListenSocket(me: Ip, c: Config, n: NodeState, d: Datagram): (NodeState, seq<Datagram>) {
    if Accepts(c, d) then (n.(peers := n.peers + [Addr(d.src.ip, CHAT_PORT)]), [Reply(me, d.src)])
    else (n, [])
  }

  /** A typed line goes to every peer. */
  function Speech(me: Ip, c: Config, peers: seq<Addr>, text: string): (out: seq<Datagram>)
    ensures |out| == |peers|
  {
    seq(|peers|, i requires 0 <= i < |peers| =>
      Datagram(Addr(me, c.findPort), peers[i], Frame(Payload(c.user, text))))
  }

  lemma SpeechGrows(me: Ip, c: Config, peers: seq<Addr>, text: string, i: nat)
    requires i < |peers|
    ensures Speech(me, c, peers[..i + 1], text) ==
      Speech(me, c, peers[..i], text) + [Datagram(Addr(me, c.findPort), peers[i], Frame(Payload(c.user, text)))]
  {
    hide Frame, Payload;
  }

  /** The statics of one process. */
  class Node {
    const me: Ip
    const config: Config
    var phase: Phase
    var peers: seq<Addr>

    constructor (me: Ip, config: Config)
      ensures this.me == me && this.config == config && State() == NodeState(Idle, [])
    {
      this.me, this.config := me, config;
      phase, peers := Idle, [];
    }

    function State(): NodeState
      reads this
    {
      NodeState(phase, peers)
    }

    /** One turn of the gathering loop of find_peer, or the wait after am-find. */
    method Confirm(d: Datagram) returns (isConfirm: bool)
      modifies this
      ensures State() == OnFindSocket(old(State()), d)
      ensures isConfirm <==> AUTH_OFC <= Content(d.data)
    {
      isConfirm := AUTH_OFC <= Content(d.data);
      if isConfirm {
        peers := peers + [d.src];
        if phase == Confirming {
          phase := Chatting;
        }
      } else {
        phase := Crashed;
      }
    }

    /** The listening branch of message_loop. */
    method Listen(d: Datagram) returns (out: seq<Datagram>)
      modifies this`peers
      ensures (State(), out) == OnListenSocket(me, config, old(State()), d)
    {
      out := [];
      if !(config.bind <= SockNtop(d.src)) {
        var message := Content(d.data);
        if AUTH_CAN <= message {
          out := [Reply(me, d.src)];
          peers := peers + [d.src.(port := CHAT_PORT)];
        }
      }
    }

    /** The sending loop of message_loop. */
    method Speak(text: string) returns (out: seq<Datagram>)
      ensures out == Speech(me, config, peers, text)
      ensures |out| == |peers| && forall i :: 0 <= i < |out| ==>
        && out[i].src == Addr(me, config.findPort) && out[i].dst == peers[i]
        && |out[i].data| >= 4 && Said(CString(config.user), text, out[i].data[4..])
    {
      hide Frame, Payload;
      var toSend := CreateSendMsg(text, config.user);
      out := [];
      for i := 0 to |peers|
        invariant out == Speech(me, config, peers[..i], text)
      {
        SpeechGrows(me, config, peers, text, i);
        out := out + [Datagram(Addr(me, config.findPort), peers[i], toSend)];
      }
      assert peers[..|peers|] == peers;
      hide Said, CString;
    }
  }

  // ----- the LAN

  datatype State = State(config: map<Ip, Config>, node: map<Ip, NodeState>, net: multiset<Datagram>)

  /** The steps of a run: starting, an offer or anything else on the find socket,
      the alarm, a datagram on the listening socket, and the three kinds of
      input: am-find, a line, am-end. */
  datatype Event =
    | Start(a: Ip, audience: set<Ip>)
    | FindReceive(a: Ip, d: Datagram)
    | Alarm(a: Ip)
    | ListenReceive(a: Ip, d: Datagram)
    | FindAgain(a: Ip, audience: set<Ip>)
    | Speak(a: Ip, text: string)
    | Leave(a: Ip)

  predicate WellFormed(s: State) {
    && s.config.Keys == s.node.Keys
    && forall a :: a in s.config ==> s.config[a].findPort != CHAT_PORT
  }

  predicate Initial(s: State) {
    && WellFormed(s) && s.net == multiset{}
    && forall a :: a in s.node ==> s.node[a] == NodeState(Idle, [])
  }

  /** When an event can happen: the process waits for it, and a datagram that is
      received is on its way to the socket it is received on. */
  predicate Enabled(s: State, e: Event)
    requires WellFormed(s)
  {
    && e.a in s.node
    && match e
       case Start(a, _) => s.node[a].phase == Idle
       case FindReceive(a, d) =>
         s.node[a].phase in {Finding, Confirming} && d in s.net && d.dst == Addr(a, s.config[a].findPort)
       case Alarm(a) => s.node[a].phase == Finding
       case ListenReceive(a, d) => s.node[a].phase == Chatting && d in s.net && d.dst == Addr(a, CHAT_PORT)
       case FindAgain(a, _) => s.node[a].phase == Chatting
       case Speak(a, _) => s.node[a].phase == Chatting
       case Leave(a) => s.node[a].phase == Chatting
  }

  function Update(s: State, a: Ip, n: NodeState, net: multiset<Datagram>): (t: State)
    requires WellFormed(s) && a in s.node
    ensures WellFormed(t)
  {
    s.(node := s.node[a := n], net := net)
  }

  function Step(s: State, e: Event): (t: State)
    requires WellFormed(s) && Enabled(s, e)
    ensures WellFormed(t) && t.config == s.config
  {
    var a := e.a;
    var n, c := s.node[a], s.config[a];
    match e
    case Start(_, audience) => Update(s, a, n.(phase := Finding), s.net + Broadcast(a, c, audience))
    case FindReceive(_, d) => Update(s, a, OnFindSocket(n, d), s.net - multiset{d})
    case Alarm(_) => Update(s, a, n.(phase := Chatting), s.net)
    case ListenReceive(_, d) =>
      var (n', out) := OnListenSocket(a, c, n, d);
      Update(s, a, n', s.net - multiset{d} + multiset(out))
    case FindAgain(_, audience) => Update(s, a, n.(phase := Confirming), s.net + Broadcast(a, c, audience))
    case Speak(_, text) => Update(s, a, n, s.net + multiset(Speech(a, c, n.peers, text)))
    case Leave(_) => Update(s, a, n.(phase := Left), s.net)
  }

  /** A run: every event that can happen when its turn comes does. */
  function Run(s: State, es: seq<Event>): (t: State)
    requires WellFormed(s)
    ensures WellFormed(t) && t.config == s.config
  {
    if es == [] then s
    else
      var t := Run(s, es[..|es| - 1]);
      var e := es[|es| - 1];
      if Enabled(t, e) then Step(t, e) else t
  }

  // ----- what every run keeps

  function Count(peers: seq<Addr>, b: Ip): nat {
    if peers == [] then 0
    else Count(peers[..|peers| - 1], b) + if peers[|peers| - 1].ip == b then 1 else 0
  }

  lemma CountSnoc(peers: seq<Addr>, p: Addr, b: Ip)
    ensures Count(peers + [p], b) == Count(peers, b) + if p.ip == b then 1 else 0
  {
    assert (peers + [p])[..|peers|] == peers;
  }

  function Places(peers: seq<Addr>, b: Ip): set<nat> {
    set i: nat | i < |peers| && peers[i].ip == b
  }

  /** That is the number of places at which `b` is recorded. */
  lemma {:induction false} CountIs(peers: seq<Addr>, b: Ip)
    ensures Count(peers, b) == |Places(peers, b)|
  {
    if peers != [] {
      var front, k := peers[..|peers| - 1], |peers| - 1;
      CountIs(front, b);
      assert Places(peers, b) == Places(front, b) + if peers[k].ip == b then {k} else {};
    }
  }

  /** The offer that answers a request of `to`. */
  function Offer(config: map<Ip, Config>, from: Ip, to: Ip): Datagram
    requires to in config
  {
    Reply(from, Addr(to, config[to].findPort))
  }

  /** What is under way comes from a find socket and goes to a chat port, or is
      an offer. */
  predicate Honest(config: map<Ip, Config>, d: Datagram) {
    && d.src.ip in config && d.dst.ip in config
    && if d.dst.port == CHAT_PORT then d.src.port == config[d.src.ip].findPort
       else d == Offer(config, d.src.ip, d.dst.ip)
  }

  ghost predicate HonestNet(s: State)
    requires WellFormed(s)
  {
    forall d :: d in s.net && d.dst.ip in s.config ==> Honest(s.config, d)
  }

  /** Every peer is recorded with the chat port, is a node, and nobody has been
      thrown out by a wrong frame. */
  ghost predicate GoodPeers(s: State)
    requires WellFormed(s)
  {
    forall a :: a in s.node ==>
      && s.node[a].phase != Crashed
      && forall i :: 0 <= i < |s.node[a].peers| ==>
        s.node[a].peers[i].port == CHAT_PORT && s.node[a].peers[i].ip in s.config
  }

  /** Entries of `b` at `a`, and offers of `b` that `a` has yet to consume. */
  function Known(s: State, a: Ip, b: Ip): nat
    requires WellFormed(s) && a in s.node
  {
    Count(s.node[a].peers, b) + s.net[Offer(s.config, b, a)]
  }

  ghost predicate Balanced(s: State)
    requires WellFormed(s)
  {
    forall a, b :: a in s.node && b in s.node ==> Known(s, a, b) == Known(s, b, a)
  }

  lemma OffersDiffer(config: map<Ip, Config>, a: Ip, b: Ip, x: Ip, y: Ip)
    requires b in config && y in config
    ensures Offer(config, a, b) == Offer(config, x, y) <==> a == x && b == y
  {
  }

  lemma OfferIsOffer()
    ensures AUTH_OFC <= Content(Frame(AUTH_OFC))
  {
    FrameContent(AUTH_OFC);
  }

  lemma InitialKeeps(s: State)
    requires Initial(s)
    ensures HonestNet(s) && GoodPeers(s) && Balanced(s)
  {
  }

  /** New traffic that goes to chat ports leaves the balance alone. */
  lemma NoOffersAmong(s: State, t: State, e: Event, more: multiset<Datagram>)
    requires WellFormed(s) && Balanced(s) && HonestNet(s) && GoodPeers(s)
    requires e.a in s.node && t.config == s.config && WellFormed(t)
    requires t.node.Keys == s.node.Keys && forall a :: a in s.node ==> t.node[a].peers == s.node[a].peers
    requires forall a :: a in s.node ==> t.node[a].phase != Crashed
    requires t.net == s.net + more
    requires forall d :: d in more ==> d.dst.port == CHAT_PORT && d.src == Addr(e.a, s.config[e.a].findPort)
    ensures Balanced(t) && HonestNet(t) && GoodPeers(t)
  {
    forall a, b | a in t.node && b in t.node ensures Known(t, a, b) == Known(t, b, a) {
      assert Known(s, a, b) == Known(s, b, a);
      assert Offer(s.config, b, a) !in more && Offer(s.config, a, b) !in more;
    }
  }

  lemma BroadcastGoes(me: Ip, c: Config, audience: set<Ip>)
    ensures forall d :: d in Broadcast(me, c, audience) ==> d.dst.port == CHAT_PORT && d.src == Addr(me, c.findPort)
  {
  }

  lemma SpeechGoes(me: Ip, c: Config, peers: seq<Addr>, text: string)
    requires forall i :: 0 <= i < |peers| ==> peers[i].port == CHAT_PORT
    ensures forall d :: d in multiset(Speech(me, c, peers, text)) ==>
      d.dst.port == CHAT_PORT && d.src == Addr(me, c.findPort)
  {
    forall d | d in multiset(Speech(me, c, peers, text))
      ensures d.dst.port == CHAT_PORT && d.src == Addr(me, c.findPort)
    {
      assert d in Speech(me, c, peers, text);
    }
  }

  ghost predicate Kept(s: State)
    requires WellFormed(s)
  {
    Balanced(s) && HonestNet(s) && GoodPeers(s)
  }

  /** `t` is `s` after an entry for `p` at `a` and a change of the net. */
  ghost predicate Recorded(s: State, t: State, a: Ip, p: Addr, net: multiset<Datagram>)
    requires WellFormed(s) && WellFormed(t)
  {
    && a in s.node && t.config == s.config && t.net == net && p.port == CHAT_PORT && p.ip in s.config
    && t.node.Keys == s.node.Keys && t.node[a].peers == s.node[a].peers + [p] && t.node[a].phase != Crashed
    && forall x :: x in s.node && x != a ==> t.node[x] == s.node[x]
  }

  lemma RecordedPeers(s: State, t: State, a: Ip, p: Addr, net: multiset<Datagram>)
    requires WellFormed(s) && WellFormed(t) && Recorded(s, t, a, p, net) && GoodPeers(s)
    ensures GoodPeers(t)
    ensures forall x, y :: x in s.node ==>
      Count(t.node[x].peers, y) == Count(s.node[x].peers, y) + if x == a && y == p.ip then 1 else 0
  {
    forall x, y | x in s.node
      ensures Count(t.node[x].peers, y) == Count(s.node[x].peers, y) + if x == a && y == p.ip then 1 else 0
    {
      CountSnoc(s.node[a].peers, p, y);
    }
  }

  /** Consuming an offer turns it into an entry: nobody knows more or fewer. */
  lemma ConsumedKeepsKnown(s: State, t: State, a: Ip, b: Ip)
    requires WellFormed(s) && WellFormed(t) && GoodPeers(s) && a in s.node && Offer(s.config, b, a) in s.net
    requires Recorded(s, t, a, Addr(b, CHAT_PORT), s.net - multiset{Offer(s.config, b, a)})
    ensures forall x, y :: x in s.node && y in s.node ==> Known(t, x, y) == Known(s, x, y)
  {
    hide Frame, GoodPeers;
    RecordedPeers(s, t, a, Addr(b, CHAT_PORT), s.net - multiset{Offer(s.config, b, a)});
    forall x, y | x in s.node && y in s.node ensures Known(t, x, y) == Known(s, x, y) {
      OffersDiffer(s.config, b, a, y, x);
    }
  }

  lemma ConsumedKeeps(s: State, t: State, a: Ip, b: Ip)
    requires WellFormed(s) && WellFormed(t) && Kept(s) && a in s.node && Offer(s.config, b, a) in s.net
    requires Recorded(s, t, a, Addr(b, CHAT_PORT), s.net - multiset{Offer(s.config, b, a)})
    ensures Kept(t)
  {
    hide Known, Offer, Honest;
    ConsumedKeepsKnown(s, t, a, b);
    RecordedPeers(s, t, a, Addr(b, CHAT_PORT), s.net - multiset{Offer(s.config, b, a)});
  }

  lemma FindReceiveKeeps(s: State, a: Ip, d: Datagram)
    requires WellFormed(s) && Kept(s) && Enabled(s, FindReceive(a, d))
    ensures AUTH_OFC <= Content(d.data)
    ensures Kept(Step(s, FindReceive(a, d)))
  {
    hide Frame, Known;
    assert Honest(s.config, d) && d == Offer(s.config, d.src.ip, a);
    OfferIsOffer();
    ConsumedKeeps(s, Step(s, FindReceive(a, d)), a, d.src.ip);
  }

  /** Answering a request makes an entry here and an offer for the other side. */
  lemma AnsweredKnown(s: State, t: State, a: Ip, b: Ip, d: Datagram, x: Ip, y: Ip)
    requires WellFormed(s) && WellFormed(t) && GoodPeers(s) && a in s.node && b in s.node
    requires d.dst.port == CHAT_PORT && x in s.node && y in s.node
    requires Recorded(s, t, a, Addr(b, CHAT_PORT), s.net - multiset{d} + multiset{Offer(s.config, a, b)})
    ensures Known(t, x, y) == Known(s, x, y) + (if x == a && y == b then 1 else 0) + (if x == b && y == a then 1 else 0)
  {
    hide Frame, GoodPeers;
    RecordedPeers(s, t, a, Addr(b, CHAT_PORT), t.net);
    OffersDiffer(s.config, a, b, y, x);
    assert Offer(s.config, y, x) != d;
  }

  lemma AnsweredKeepsBalance(s: State, t: State, a: Ip, b: Ip, d: Datagram)
    requires WellFormed(s) && WellFormed(t) && GoodPeers(s) && Balanced(s) && a in s.node && b in s.node
    requires d.dst.port == CHAT_PORT
    requires Recorded(s, t, a, Addr(b, CHAT_PORT), s.net - multiset{d} + multiset{Offer(s.config, a, b)})
    ensures Balanced(t)
  {
    hide Frame, GoodPeers, Known;
    forall x, y | x in t.node && y in t.node ensures Known(t, x, y) == Known(t, y, x) {
      assert Known(s, x, y) == Known(s, y, x);
      AnsweredKnown(s, t, a, b, d, x, y);
      AnsweredKnown(s, t, a, b, d, y, x);
    }
  }

  lemma OfferIsHonest(config: map<Ip, Config>, a: Ip, b: Ip)
    requires a in config && b in config && config[b].findPort != CHAT_PORT
    ensures Honest(config, Offer(config, a, b))
  {
  }

  lemma AnsweredKeeps(s: State, a: Ip, d: Datagram)
    requires WellFormed(s) && Kept(s) && Enabled(s, ListenReceive(a, d)) && Accepts(s.config[a], d)
    ensures Kept(Step(s, ListenReceive(a, d)))
  {
    hide Frame, Known, Accepts, Balanced;
    var t := Step(s, ListenReceive(a, d));
    assert Honest(s.config, d);
    var b := d.src.ip;
    assert Reply(a, d.src) == Offer(s.config, a, b);
    assert multiset([Reply(a, d.src)]) == multiset{Offer(s.config, a, b)};
    AnsweredKeepsBalance(s, t, a, b, d);
    RecordedPeers(s, t, a, Addr(b, CHAT_PORT), t.net);
    OfferIsHonest(s.config, a, b);
  }

  lemma IgnoredKeeps(s: State, t: State, d: Datagram)
    requires WellFormed(s) && WellFormed(t) && Kept(s) && d.dst.port == CHAT_PORT
    requires t == s.(net := s.net - multiset{d})
    ensures Kept(t)
  {
    hide Frame;
    forall x, y | x in t.node && y in t.node ensures Known(t, x, y) == Known(t, y, x) {
      assert Known(s, x, y) == Known(s, y, x);
      assert Offer(s.config, x, y) != d && Offer(s.config, y, x) != d;
    }
  }

  lemma ListenReceiveKeeps(s: State, a: Ip, d: Datagram)
    requires WellFormed(s) && Kept(s) && Enabled(s, ListenReceive(a, d))
    ensures Kept(Step(s, ListenReceive(a, d)))
  {
    hide Kept, Accepts;
    if Accepts(s.config[a], d) {
      AnsweredKeeps(s, a, d);
    } else {
      var t := Step(s, ListenReceive(a, d));
      assert t.net == s.net - multiset{d};
      assert t.node == s.node;
      IgnoredKeeps(s, t, d);
    }
  }

  lemma StepKeeps(s: State, e: Event)
    requires WellFormed(s) && Kept(s) && Enabled(s, e)
    ensures Kept(Step(s, e))
  {
    var c := s.config[e.a];
    match e
    case Start(a, audience) =>
      BroadcastGoes(a, c, audience);
      NoOffersAmong(s, Step(s, e), e, Broadcast(a, c, audience));
    case FindReceive(a, d) => FindReceiveKeeps(s, a, d);
    case Alarm(a) => NoOffersAmong(s, Step(s, e), e, multiset{});
    case ListenReceive(a, d) => ListenReceiveKeeps(s, a, d);
    case FindAgain(a, audience) =>
      BroadcastGoes(a, c, audience);
      NoOffersAmong(s, Step(s, e), e, Broadcast(a, c, audience));
    case Speak(a, text) =>
      SpeechGoes(a, c, s.node[a].peers, text);
      NoOffersAmong(s, Step(s, e), e, multiset(Speech(a, c, s.node[a].peers, text)));
    case Leave(a) => NoOffersAmong(s, Step(s, e), e, multiset{});
  }

  lemma {:induction false} RunKeeps(s: State, es: seq<Event>)
    requires Initial(s)
    ensures Kept(Run(s, es))
  {
    if es == [] {
      InitialKeeps(s);
    } else {
      RunKeeps(s, es[..|es| - 1]);
      var t := Run(s, es[..|es| - 1]);
      if Enabled(t, es[|es| - 1]) {
        StepKeeps(t, es[|es| - 1]);
      }
    }
  }

  /** In every run, for any two nodes: the entries of `b` at `a`, with the offers
      from `b` that `a` has not consumed, are as many as the other way round. */
  lemma {:induction false} EntriesAndOffersBalance(s: State, es: seq<Event>, a: Ip, b: Ip)
    requires Initial(s) && a in s.config && b in s.config
    ensures var t := Run(s, es);
      Count(t.node[a].peers, b) + t.net[Offer(t.config, b, a)]
      == Count(t.node[b].peers, a) + t.net[Offer(t.config, a, b)]
  {
    RunKeeps(s, es);
    var t := Run(s, es);
    assert Known(t, a, b) == Known(t, b, a);
  }

  /** So once no offer is under way, the two know each other equally often. */
  lemma {:induction false} QuietMeansSymmetric(s: State, es: seq<Event>, a: Ip, b: Ip)
    requires Initial(s) && a in s.config && b in s.config
    requires var t := Run(s, es); Offer(t.config, b, a) !in t.net && Offer(t.config, a, b) !in t.net
    ensures Count(Run(s, es).node[a].peers, b) == Count(Run(s, es).node[b].peers, a)
  {
    EntriesAndOffersBalance(s, es, a, b);
  }

  /** In every run only offers reach a find socket, so auth_try_confirm always
      returns 1. */
  lemma {:induction false} OnlyOffersAtFindSockets(s: State, es: seq<Event>, a: Ip, d: Datagram)
    requires Initial(s) && a in s.config
    requires var t := Run(s, es); d in t.net && d.dst == Addr(a, t.config[a].findPort)
    ensures AUTH_OFC <= Content(d.data)
  {
    RunKeeps(s, es);
    OfferIsOffer();
    assert Honest(Run(s, es).config, d);
  }

  /** So no node is ever thrown out by a wrong frame. */
  lemma {:induction false} NobodyIsThrownOut(s: State, es: seq<Event>, a: Ip)
    requires Initial(s) && a in s.config
    ensures Run(s, es).node[a].phase != Crashed
  {
    RunKeeps(s, es);
  }

  /** Every peer is recorded with the chat port. */
  lemma {:induction false} PeersHaveChatPort(s: State, es: seq<Event>, a: Ip, i: nat)
    requires Initial(s) && a in s.config && i < |Run(s, es).node[a].peers|
    ensures Run(s, es).node[a].peers[i].port == CHAT_PORT
  {
    RunKeeps(s, es);
  }

  // ----- who never meets

  /** Neither has an entry for the other, or one on its way. */
  ghost predicate Strangers(s: State, a: Ip, b: Ip)
    requires WellFormed(s) && a in s.node && b in s.node
  {
    Known(s, a, b) == 0 && Known(s, b, a) == 0
  }

  /** `a` takes the find socket of `b` for itself. */
  predicate Deaf(config: map<Ip, Config>, a: Ip, b: Ip)
    requires a in config && b in config
  {
    LooksLikeSelf(config[a].bind, Addr(b, config[b].findPort))
  }

  lemma MoreRequestsKnown(s: State, t: State, a: Ip, b: Ip, more: multiset<Datagram>)
    requires WellFormed(s) && WellFormed(t) && a in s.node && b in s.node
    requires t.config == s.config && t.net == s.net + more && t.node.Keys == s.node.Keys
    requires forall x :: x in s.node ==> t.node[x].peers == s.node[x].peers
    requires forall d :: d in more ==> d.dst.port == CHAT_PORT
    ensures Known(t, a, b) == Known(s, a, b) && Known(t, b, a) == Known(s, b, a)
  {
    hide Frame;
    assert Offer(s.config, a, b).dst.port != CHAT_PORT && Offer(s.config, b, a).dst.port != CHAT_PORT;
  }

  lemma ReceivedKeepsStrangers(s: State, x: Ip, d: Datagram, a: Ip, b: Ip)
    requires WellFormed(s) && Kept(s) && Enabled(s, ListenReceive(x, d)) && a in s.node && b in s.node
    requires Deaf(s.config, a, b) && Deaf(s.config, b, a) && Strangers(s, a, b)
    ensures Strangers(Step(s, ListenReceive(x, d)), a, b)
  {
    hide Frame, Known, LooksLikeSelf, Balanced;
    var t, y := Step(s, ListenReceive(x, d)), d.src.ip;
    assert Honest(s.config, d);
    if Accepts(s.config[x], d) {
      assert Reply(x, d.src) == Offer(s.config, x, y);
      assert multiset([Reply(x, d.src)]) == multiset{Offer(s.config, x, y)};
      AnsweredKnown(s, t, x, y, d, a, b);
      AnsweredKnown(s, t, x, y, d, b, a);
      assert !Deaf(s.config, x, y);
    } else {
      assert t.net == s.net - multiset{d};
      IgnoredKnown(s, t, d, a, b);
      IgnoredKnown(s, t, d, b, a);
    }
  }

  lemma IgnoredKnown(s: State, t: State, d: Datagram, a: Ip, b: Ip)
    requires WellFormed(s) && WellFormed(t) && d.dst.port == CHAT_PORT && a in s.node && b in s.node
    requires t == s.(net := s.net - multiset{d})
    ensures Known(t, a, b) == Known(s, a, b)
  {
    hide Frame;
    assert Offer(s.config, b, a) != d;
  }

  lemma ConsumedKeepsStrangers(s: State, x: Ip, d: Datagram, a: Ip, b: Ip)
    requires WellFormed(s) && Kept(s) && Enabled(s, FindReceive(x, d)) && a in s.node && b in s.node
    requires Strangers(s, a, b)
    ensures Strangers(Step(s, FindReceive(x, d)), a, b)
  {
    hide Frame, Known;
    assert Honest(s.config, d) && d == Offer(s.config, d.src.ip, x);
    OfferIsOffer();
    ConsumedKeepsKnown(s, Step(s, FindReceive(x, d)), x, d.src.ip);
  }

  lemma StepKeepsStrangers(s: State, e: Event, a: Ip, b: Ip)
    requires WellFormed(s) && Kept(s) && Enabled(s, e) && a in s.node && b in s.node
    requires Deaf(s.config, a, b) && Deaf(s.config, b, a) && Strangers(s, a, b)
    ensures Strangers(Step(s, e), a, b)
  {
    hide Frame, Known, Kept, LooksLikeSelf, Broadcast, Speech, OnFindSocket, OnListenSocket;
    var t, c := Step(s, e), s.config[e.a];
    match e
    case Start(x, audience) =>
      BroadcastGoes(x, c, audience);
      MoreRequestsKnown(s, t, a, b, Broadcast(x, c, audience));
    case FindAgain(x, audience) =>
      BroadcastGoes(x, c, audience);
      MoreRequestsKnown(s, t, a, b, Broadcast(x, c, audience));
    case Speak(x, text) =>
      KeptPeers(s, x);
      SpeechGoes(x, c, s.node[x].peers, text);
      MoreRequestsKnown(s, t, a, b, multiset(Speech(x, c, s.node[x].peers, text)));
    case Alarm(_) => MoreRequestsKnown(s, t, a, b, multiset{});
    case Leave(_) => MoreRequestsKnown(s, t, a, b, multiset{});
    case FindReceive(x, d) => ConsumedKeepsStrangers(s, x, d, a, b);
    case ListenReceive(x, d) => ReceivedKeepsStrangers(s, x, d, a, b);
  }

  lemma KeptPeers(s: State, x: Ip)
    requires WellFormed(s) && Kept(s) && x in s.node
    ensures forall i :: 0 <= i < |s.node[x].peers| ==> s.node[x].peers[i].port == CHAT_PORT
  {
  }

  /** Two nodes that take each other's find sockets for themselves remain strangers
      in every run. */
  lemma {:induction false} RunKeepsStrangers(s: State, es: seq<Event>, a: Ip, b: Ip)
    requires Initial(s) && a in s.config && b in s.config && Deaf(s.config, a, b) && Deaf(s.config, b, a)
    ensures Strangers(Run(s, es), a, b)
  {
    if es != [] {
      RunKeepsStrangers(s, es[..|es| - 1], a, b);
      RunKeeps(s, es[..|es| - 1]);
      var t := Run(s, es[..|es| - 1]);
      if Enabled(t, es[|es| - 1]) {
        StepKeepsStrangers(t, es[|es| - 1], a, b);
      }
    }
  }

  /** So neither ever has the other among its peers. */
  lemma {:induction false} NeverMeet(s: State, es: seq<Event>, a: Ip, b: Ip, i: nat)
    requires Initial(s) && a in s.config && b in s.config && Deaf(s.config, a, b) && Deaf(s.config, b, a)
    requires i < |Run(s, es).node[a].peers|
    ensures Run(s, es).node[a].peers[i].ip != b
  {
    RunKeepsStrangers(s, es, a, b);
    CountZero(Run(s, es).node[a].peers, b, i);
  }

  /** A node that filters its own find socket never has itself among its peers,
      although its broadcasts reach it. */
  lemma {:induction false} NobodyPeersWithItself(s: State, es: seq<Event>, a: Ip, i: nat)
    requires Initial(s) && a in s.config && Deaf(s.config, a, a)
    requires i < |Run(s, es).node[a].peers|
    ensures Run(s, es).node[a].peers[i].ip != a
  {
    NeverMeet(s, es, a, a, i);
  }

  lemma RunSnoc(s: State, es: seq<Event>, e: Event)
    requires WellFormed(s) && Enabled(Run(s, es), e)
    ensures Run(s, es + [e]) == Step(Run(s, es), e)
  {
    assert (es + [e])[..|es|] == es;
  }

  /** Any other node records itself as soon as it hears its own broadcast. */
  lemma OwnBroadcastRecorded(s: State, a: Ip) returns (es: seq<Event>)
    requires Initial(s) && a in s.config && !Deaf(s.config, a, a)
    ensures Run(s, es).node[a].peers == [Addr(a, CHAT_PORT)]
  {
    var d := Request(a, s.config[a], a);
    FrameContent(AUTH_CAN);
    assert Run(s, []) == s;
    assert d in (set b | b in {a} :: Request(a, s.config[a], b));
    hide Frame, LooksLikeSelf, Run;
    RunSnoc(s, [], Start(a, {a}));
    var t := Run(s, [] + [Start(a, {a})]);
    assert t.node[a] == NodeState(Finding, []) && d in t.net;
    RunSnoc(s, [] + [Start(a, {a})], Alarm(a));
    es := [] + [Start(a, {a})] + [Alarm(a)];
    RunSnoc(s, es, ListenReceive(a, d));
    es := es + [ListenReceive(a, d)];
  }

  /** So a node is safe from itself in every run exactly when its bind address is
      a prefix of the text of its find socket; its canonical address always is. */
  lemma NeverItselfExactly(s: State, a: Ip)
    requires Initial(s) && a in s.config
    ensures (forall es, i :: 0 <= i < |Run(s, es).node[a].peers| ==> Run(s, es).node[a].peers[i].ip != a)
      <==> Deaf(s.config, a, a)
    ensures s.config[a].bind == QuadText(a) ==> Deaf(s.config, a, a)
  {
    hide LooksLikeSelf, SockNtop, QuadText, Step, Enabled;
    OwnAddressFiltered(a, s.config[a].findPort);
    if Deaf(s.config, a, a) {
      forall es, i | 0 <= i < |Run(s, es).node[a].peers| ensures Run(s, es).node[a].peers[i].ip != a {
        NobodyPeersWithItself(s, es, a, i);
      }
    } else {
      var es := OwnBroadcastRecorded(s, a);
      assert Run(s, es).node[a].peers[0].ip == a;
    }
  }

  lemma {:induction false} CountZero(peers: seq<Addr>, b: Ip, i: nat)
    requires Count(peers, b) == 0 && i < |peers|
    ensures peers[i].ip != b
  {
    if i < |peers| - 1 {
      CountZero(peers[..|peers| - 1], b, i);
    }
  }
}
