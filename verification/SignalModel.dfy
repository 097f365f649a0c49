/** The signaling server: its registry, its connections' outboxes, and the steps of
    its connection handlers, each step one critical section of the registry lock. */
module SignalModel {
  import opened Common
  import Candidates
  import Relay = RelayModel

  /** Ids are handed out by a counter; it is taken not to wrap. */
  type ConnId = nat
  type Token = Relay.Token

  type Candidate = Candidates.Candidate

  /** A push names the node it introduces. `conn` is the connection whose record it was
      taken from: it is not sent, it lets the model speak about pairs of connections. */
  datatype Message =
    | PeerCandidates(node: NodeId, candidates: seq<Candidate>, token: Token, conn: ConnId)
    | Plain(text: nat)

  /** `log` is everything ever queued, of which the writer has taken the first `taken`. */
  datatype Outbox = Outbox(log: seq<Message>, taken: nat, open: bool)

  datatype PeerRecord = PeerRecord(conn: ConnId, candidates: seq<Candidate>)
  datatype WaiterKey = WaiterKey(requester: NodeId, conn: ConnId)

  datatype Registry = Registry(
    peers: map<NodeId, PeerRecord>,
    waiters: map<NodeId, set<WaiterKey>>,
    pendingBy: map<WaiterKey, set<NodeId>>)

  /** A handler's locals: the identity it announced, the one it has proved,
      the connection it replaced and still has to kick, the waiters it still has to pair,
      and whether it has left its loop. */
  datatype Handler = Handler(hello: Option<NodeId>, active: Option<NodeId>, evict: Option<ConnId>, toPair: seq<NodeId>,
                             leaving: bool)

  datatype Hub = Hub(
    reg: Registry,
    handlers: map<ConnId, Handler>,
    boxes: map<ConnId, Outbox>,
    identity: map<ConnId, NodeId>,
    kicked: set<ConnId>,
    nextId: ConnId,
    relay: Option<Relay.State>)

  datatype Config = Config(maxPeers: nat, maxWaiters: nat, maxPending: nat, outboxCap: nat, relay: Relay.Config,
                           crypto: Relay.Crypto)

  // ---------------------------------------------------------------- registry

  function At<K, V>(m: map<K, set<V>>, k: K): set<V> {
    if k in m then m[k] else {}
  }

  /** All pairs of a set-valued map: its size is the sum of the sets' sizes. */
  function Pairs<K, V>(m: map<K, set<V>>): set<(K, V)> {
    set k, v | k in m && v in m[k] :: (k, v)
  }

  predicate Current(peers: map<NodeId, PeerRecord>, n: NodeId, c: ConnId) {
    n in peers && peers[n].conn == c
  }

  function AddWaiter(r: Registry, key: WaiterKey, target: NodeId): Registry {
    if key in At(r.waiters, target) then r
    else r.(waiters := r.waiters[target := At(r.waiters, target) + {key}],
            pendingBy := r.pendingBy[key := At(r.pendingBy, key) + {target}])
  }

  /** `m` with `v` taken out of the sets of `ks`, sets left empty dropped. */
  function Without<K, V>(m: map<K, set<V>>, ks: set<K>, v: V): map<K, set<V>> {
    map k | k in m && (k !in ks || m[k] - {v} != {}) :: if k in ks then m[k] - {v} else m[k]
  }

  function TakeWaiters(r: Registry, target: NodeId): Registry {
    r.(waiters := r.waiters - {target}, pendingBy := Without(r.pendingBy, At(r.waiters, target), target))
  }

  /** The requesters of `target` whose waiting connection still owns their record. */
  function LiveWaiters(r: Registry, target: NodeId): set<NodeId> {
    set k | k in At(r.waiters, target) && Current(r.peers, k.requester, k.conn) && k.requester != target :: k.requester
  }

  function Enroll(r: Registry, n: NodeId, p: PeerRecord): Registry {
    TakeWaiters(r.(peers := r.peers[n := p]), n)
  }

  function Unregister(r: Registry, n: NodeId, c: ConnId): Registry {
    var key := WaiterKey(n, c);
    Registry(
      if Current(r.peers, n, c) then r.peers - {n} else r.peers,
      Without(r.waiters, At(r.pendingBy, key), key),
      r.pendingBy - {key})
  }

  // ---------------------------------------------------------------- outboxes

  function Room(cap: nat, b: Outbox): nat {
    if b.open && |b.log| - b.taken < cap then cap - (|b.log| - b.taken) else 0
  }

  function Push(boxes: map<ConnId, Outbox>, c: ConnId, m: Message): map<ConnId, Outbox>
    requires c in boxes
  {
    boxes[c := boxes[c].(log := boxes[c].log + [m])]
  }

  predicate CanPair(cfg: Config, h: Hub, a: NodeId, b: NodeId) {
    && a in h.reg.peers && b in h.reg.peers
    && h.reg.peers[a].conn in h.boxes && h.reg.peers[b].conn in h.boxes
    && Room(cfg.outboxCap, h.boxes[h.reg.peers[a].conn]) >= 1
    && Room(cfg.outboxCap, h.boxes[h.reg.peers[b].conn])
       >= (if h.reg.peers[a].conn == h.reg.peers[b].conn then 2 else 1)
  }

  /** Both slots are reserved before anything is sent; a full outbox gets its connection kicked. */
  function TryPair(cfg: Config, h: Hub, a: NodeId, b: NodeId, token: Token, now: nat, later: nat): Hub {
    if a !in h.reg.peers || b !in h.reg.peers then h
    else
      var ra, rb := h.reg.peers[a], h.reg.peers[b];
      if CanPair(cfg, h, a, b) then
        h.(relay := if h.relay.None? then None
                    else Some(Relay.Issue(cfg.relay, h.relay.value, now, later, token, a, b).0),
           boxes := Push(Push(h.boxes, ra.conn, PeerCandidates(b, rb.candidates, token, rb.conn)),
                         rb.conn, PeerCandidates(a, ra.candidates, token, ra.conn)))
      else if ra.conn !in h.boxes || Room(cfg.outboxCap, h.boxes[ra.conn]) == 0 then h.(kicked := h.kicked + {ra.conn})
      else h.(kicked := h.kicked + {rb.conn})
  }

  // ---------------------------------------------------------------- steps

  datatype Event =
    | Accept
    | Hello(c: ConnId, node: NodeId)
    | Admit(c: ConnId, candidates: seq<Candidate>, live: seq<NodeId>)
    | Evict(c: ConnId)
    | PairNext(c: ConnId, token: Token, now: nat, later: nat)
    | Lookup(c: ConnId, target: NodeId, allowed: bool, token: Token, now: nat, later: nat)
    | Send(c: ConnId, text: nat)
    | Drain(c: ConnId)
    | WriterGone(c: ConnId)
    | Close(c: ConnId)
    | RelayTraffic(e: Relay.Event)

  /** `xs` lists the elements of `s` once each, in some order. */
  ghost predicate Lists<T(!new)>(xs: seq<T>, s: set<T>) {
    && (forall i, j :: 0 <= i < j < |xs| ==> xs[i] != xs[j])
    && (forall x :: x in xs <==> x in s)
  }

  predicate Running(h: Hub, c: ConnId) {
    c in h.handlers && !h.handlers[c].leaving
  }

  predicate TableFull(cfg: Config, h: Hub, n: NodeId) {
    n !in h.reg.peers && |h.reg.peers| >= cfg.maxPeers
  }

  /** What a handler may do next. `Admit` carries the order in which the set of waiters is listed. */
  ghost predicate Enabled(cfg: Config, h: Hub, e: Event) {
    match e
    case Accept => true
    case Hello(c, _) => Running(h, c) && h.handlers[c].hello.None? && h.handlers[c].active.None?
    case Admit(c, candidates, live) =>
      && Running(h, c) && h.handlers[c].hello.Some? && h.handlers[c].active.None?
      && (!TableFull(cfg, h, h.handlers[c].hello.value) ==>
            var n := h.handlers[c].hello.value;
            Lists(live, LiveWaiters(h.reg.(peers := h.reg.peers[n := PeerRecord(c, candidates)]), n)))
    case Evict(c) => Running(h, c) && h.handlers[c].evict.Some?
    case PairNext(c, _, _, _) => Running(h, c) && h.handlers[c].active.Some? && h.handlers[c].evict.None?
      && h.handlers[c].toPair != []
    case Lookup(c, _, _, _, _, _) => Running(h, c) && h.handlers[c].active.Some? && h.handlers[c].toPair == []
    case Send(c, _) => Running(h, c)
    case Drain(c) => c in h.boxes && h.boxes[c].taken < |h.boxes[c].log|
    case WriterGone(c) => c in h.boxes
    case Close(c) => c in h.handlers
    case RelayTraffic(e) => h.relay.Some? && !e.IssueEvent?
  }

  function Leave(h: Hub, c: ConnId): Hub
    requires c in h.handlers
  {
    h.(handlers := h.handlers[c := h.handlers[c].(leaving := true)])
  }

  /** A lookup by the connection that owns `me`: pair, or wait within the caps. */
  function LookupOn(cfg: Config, h: Hub, c: ConnId, me: NodeId, target: NodeId, allowed: bool, token: Token, now: nat,
                    later: nat): Hub {
    var key := WaiterKey(me, c);
    if !allowed || me == target then h
    else if target in h.reg.peers then TryPair(cfg, h, me, target, token, now, later)
    else if key !in At(h.reg.waiters, target)
            && (|At(h.reg.pendingBy, key)| >= cfg.maxPending || |Pairs(h.reg.waiters)| >= cfg.maxWaiters) then h
    else h.(reg := AddWaiter(h.reg, key, target))
  }

  function LookupStep(cfg: Config, h: Hub, c: ConnId, me: NodeId, target: NodeId, allowed: bool, token: Token, now: nat,
                      later: nat): Hub
    requires c in h.handlers
  {
    if !Current(h.reg.peers, me, c) then Leave(h, c) else LookupOn(cfg, h, c, me, target, allowed, token, now, later)
  }

  function AdmitStep(cfg: Config, h: Hub, c: ConnId, n: NodeId, candidates: seq<Candidate>, live: seq<NodeId>): Hub
    requires c in h.handlers
  {
    if TableFull(cfg, h, n) then Leave(h, c)
    else
      var replaced := if n in h.reg.peers then Some(h.reg.peers[n].conn) else None;
      h.(reg := Enroll(h.reg, n, PeerRecord(c, candidates)),
         handlers := h.handlers[c := Handler(None, Some(n), replaced, live, false)],
         identity := h.identity[c := n])
  }

  function CloseStep(h: Hub, c: ConnId): Hub
    requires c in h.handlers
  {
    var h' := h.(handlers := h.handlers - {c});
    if h.handlers[c].active.Some? then h'.(reg := Unregister(h.reg, h.handlers[c].active.value, c)) else h'
  }

  ghost function Step(cfg: Config, h: Hub, e: Event): Hub
    requires Enabled(cfg, h, e)
  {
    match e
    case Accept =>
      h.(handlers := h.handlers[h.nextId := Handler(None, None, None, [], false)],
         boxes := h.boxes[h.nextId := Outbox([], 0, true)],
         nextId := h.nextId + 1)
    case Hello(c, n) => h.(handlers := h.handlers[c := h.handlers[c].(hello := Some(n))])
    case Admit(c, candidates, live) => AdmitStep(cfg, h, c, h.handlers[c].hello.value, candidates, live)
    case Evict(c) =>
      h.(kicked := h.kicked + {h.handlers[c].evict.value}, handlers := h.handlers[c := h.handlers[c].(evict := None)])
    case PairNext(c, token, now, later) =>
      var x := h.handlers[c];
      TryPair(cfg, h.(handlers := h.handlers[c := x.(toPair := x.toPair[1..])]), x.toPair[0], x.active.value, token,
              now, later)
    case Lookup(c, target, allowed, token, now, later) =>
      LookupStep(cfg, h, c, h.handlers[c].active.value, target, allowed, token, now, later)
    case Send(c, text) =>
      if c in h.boxes && Room(cfg.outboxCap, h.boxes[c]) >= 1
      then h.(boxes := Push(h.boxes, c, Plain(text)))
      else Leave(h, c)
    case Drain(c) => h.(boxes := h.boxes[c := h.boxes[c].(taken := h.boxes[c].taken + 1)])
    case WriterGone(c) => h.(boxes := h.boxes[c := h.boxes[c].(open := false)])
    case Close(c) => CloseStep(h, c)
    case RelayTraffic(e) => h.(relay := Some(Relay.Step(cfg.relay, cfg.crypto, h.relay.value, e).0))
  }

  ghost function Start(withRelay: bool): Hub {
    Hub(Registry(map[], map[], map[]), map[], map[], map[], {}, 1, if withRelay then Some(Relay.EMPTY) else None)
  }

  /** The hubs of a run: every step enabled where it is taken. */
  ghost predicate IsRun(cfg: Config, withRelay: bool, es: seq<Event>, hs: seq<Hub>) {
    && |hs| == |es| + 1
    && hs[0] == Start(withRelay)
    && forall i :: 0 <= i < |es| ==> Enabled(cfg, hs[i], es[i]) && hs[i + 1] == Step(cfg, hs[i], es[i])
  }
}
