/** The relay's admission state and its transitions, as values.

    Instants and durations are nanoseconds. Ed25519 and packet encoding are
    parameters (`Crypto`): nothing is assumed of them but that they are functions. */
module RelayModel {
  import opened Common
  import opened Net

  const SECOND: nat := 1_000_000_000
  const CHALLENGE_TTL: nat := 5 * SECOND
  const MAX_TICKETS_PER_PAIR: nat := 16
  const MAX_TICKETS_PER_NODE: nat := 64
  const MAX_SESSIONS_PER_PAIR: nat := 16
  const MAX_SESSIONS_PER_NODE: nat := 64
  const MAX_ARMS_PER_TICKET: nat := 4

  datatype Token = Token(bits: nat)
  datatype Signature = Signature(a: nat, b: nat)

  datatype Hello = Hello(token: Token, node: NodeId, peer: NodeId, publicKey: nat, clientNonce: nat)
  datatype Challenge = Challenge(hello: Hello, nonce: nat, source: SocketAddr)
  datatype Packet =
    | HelloPacket(hello: Hello)
    | ChallengePacket(clientNonce: nat, nonce: nat, source: SocketAddr)
    | RegisterPacket(challenge: Challenge, signature: Signature)
    | ReadyPacket(token: Token, node: NodeId, clientNonce: nat)

  /** `nodeOf` is `None` for bytes that are no curve point or a weak key;
      `verifies` is strict verification of the bind payload under the hello's key. */
  datatype Crypto = Crypto(nodeOf: nat -> Option<NodeId>, verifies: (Challenge, Signature) -> bool)

  datatype Config = Config(ticketTtl: nat, idleTimeout: nat, maxSessions: nat, maxPendingPerIp: nat)

  predicate ValidConfig(c: Config) {
    && 0 < c.ticketTtl <= 300 * SECOND
    && 0 < c.idleTimeout <= 3600 * SECOND
    && 1 <= c.maxSessions <= 4096
    && 1 <= c.maxPendingPerIp <= 128
  }

  type Side = i: nat | i < 2

  datatype SessionKey = SessionKey(token: Token, arm: nat)

  datatype Ticket = Ticket(first: NodeId, second: NodeId, expires: nat)
  {
    function Node(i: Side): NodeId { if i == 0 then first else second }
    predicate Names(n: NodeId) { n == first || n == second }
  }

  datatype Pending = Pending(challenge: Challenge, issued: nat, session: SessionKey, side: Side)
  datatype Bound = Bound(hello: Hello, source: SocketAddr)

  datatype Session = Session(side0: Option<Bound>, side1: Option<Bound>, lastActivity: nat)
  {
    function At(i: Side): Option<Bound> { if i == 0 then side0 else side1 }
    function With(i: Side, b: Bound): Session {
      if i == 0 then this.(side0 := Some(b)) else this.(side1 := Some(b))
    }
    predicate Ready() { side0.Some? && side1.Some? }
    predicate HasNode(n: NodeId) {
      || (side0.Some? && (side0.value.hello.node == n || side0.value.hello.peer == n))
      || (side1.Some? && (side1.value.hello.node == n || side1.value.hello.peer == n))
    }
    predicate HasPair(a: NodeId, b: NodeId) {
      || (side0.Some? && SamePair(side0.value.hello, a, b))
      || (side1.Some? && SamePair(side1.value.hello, a, b))
    }
  }

  predicate SamePair(h: Hello, a: NodeId, b: NodeId) {
    (h.node == a && h.peer == b) || (h.node == b && h.peer == a)
  }

  datatype State = State(
    tickets: map<Token, Ticket>,
    pending: map<SocketAddr, Pending>,
    sessions: map<SessionKey, Session>,
    sources: map<SocketAddr, (SessionKey, Side)>)

  const EMPTY := State(map[], map[], map[], map[])

  type Replies = seq<(SocketAddr, Packet)>

  // ---------------------------------------------------------------- expiry

  /** `Instant::duration_since`, which saturates at zero. */
  function Since(now: nat, earlier: nat): nat {
    if now >= earlier then now - earlier else 0
  }

  predicate TicketLive(ts: map<Token, Ticket>, t: Token, now: nat) {
    t in ts && now < ts[t].expires
  }

  predicate KeepsPending(ts: map<Token, Ticket>, p: Pending, now: nat) {
    Since(now, p.issued) < CHALLENGE_TTL && TicketLive(ts, p.session.token, now)
  }

  predicate Idle(c: Config, x: Session, now: nat) {
    Since(now, x.lastActivity) >= c.idleTimeout
  }

  predicate KeepsSession(c: Config, ts: map<Token, Ticket>, k: SessionKey, x: Session, now: nat) {
    !Idle(c, x, now) && (x.Ready() || TicketLive(ts, k.token, now))
  }

  function SweptPending(ts: map<Token, Ticket>, ps: map<SocketAddr, Pending>, now: nat): map<SocketAddr, Pending> {
    map a | a in ps && KeepsPending(ts, ps[a], now) :: ps[a]
  }

  function SweptSessions(c: Config, ts: map<Token, Ticket>, xs: map<SessionKey, Session>, now: nat)
    : map<SessionKey, Session>
  {
    map k | k in xs && KeepsSession(c, ts, k, xs[k], now) :: xs[k]
  }

  function SweptSources(xs: map<SessionKey, Session>, ss: map<SocketAddr, (SessionKey, Side)>)
    : map<SocketAddr, (SessionKey, Side)>
  {
    map a | a in ss && ss[a].0 in xs :: ss[a]
  }

  function SweptTickets(ts: map<Token, Ticket>, now: nat): map<Token, Ticket> {
    map t | t in ts && now < ts[t].expires :: ts[t]
  }

  /** Challenges and sessions are judged by the tickets not yet swept, sources by the sessions that remain. */
  function Cleanup(c: Config, s: State, now: nat): State {
    var xs := SweptSessions(c, s.tickets, s.sessions, now);
    State(SweptTickets(s.tickets, now), SweptPending(s.tickets, s.pending, now), xs, SweptSources(xs, s.sources))
  }

  // ---------------------------------------------------------------- quotas, always recounted

  function TicketsOfPair(s: State, a: NodeId, b: NodeId): set<Token> {
    set t | t in s.tickets && s.tickets[t].Names(a) && s.tickets[t].Names(b)
  }

  function TicketsOfNode(s: State, n: NodeId): set<Token> {
    set t | t in s.tickets && s.tickets[t].Names(n)
  }

  function SessionsOfPair(s: State, a: NodeId, b: NodeId): set<SessionKey> {
    set k | k in s.sessions && s.sessions[k].HasPair(a, b)
  }

  function SessionsOfNode(s: State, n: NodeId): set<SessionKey> {
    set k | k in s.sessions && s.sessions[k].HasNode(n)
  }

  function PendingOfIp(s: State, ip: IpAddr): set<SocketAddr> {
    set a | a in s.pending && a.Ip() == ip
  }

  function ArmsOfToken(s: State, t: Token): set<SessionKey> {
    set k | k in s.sessions && k.token == t
  }

  function Min(a: nat, b: nat): nat { if a <= b then a else b }

  function TicketPairLimit(c: Config): nat { Min(MAX_TICKETS_PER_PAIR, c.maxSessions) }
  function TicketNodeLimit(c: Config): nat { Min(MAX_TICKETS_PER_NODE, c.maxSessions) }
  /** Half of the pool, and at least one arm. */
  function FairLimit(c: Config): nat { if c.maxSessions / 2 >= 1 then c.maxSessions / 2 else 1 }
  function SessionPairLimit(c: Config): nat { Min(MAX_SESSIONS_PER_PAIR, FairLimit(c)) }
  function SessionNodeLimit(c: Config): nat { Min(MAX_SESSIONS_PER_NODE, FairLimit(c)) }

  // ---------------------------------------------------------------- tickets

  predicate MayIssue(c: Config, s: State, t: Token, a: NodeId, b: NodeId) {
    && a != b
    && t !in s.tickets
    && ArmsOfToken(s, t) == {}
    && |s.tickets| < c.maxSessions * 2
    && |TicketsOfPair(s, a, b)| < TicketPairLimit(c)
    && |TicketsOfNode(s, a)| < TicketNodeLimit(c)
    && |TicketsOfNode(s, b)| < TicketNodeLimit(c)
  }

  /** The clock is read once for the cleanup and once more for the expiry. */
  function Issue(c: Config, s: State, now: nat, later: nat, t: Token, a: NodeId, b: NodeId): (State, bool) {
    var s' := Cleanup(c, s, now);
    if MayIssue(c, s', t, a, b)
    then (s'.(tickets := s'.tickets[t := Ticket(a, b, later + c.ticketTtl)]), true)
    else (s', false)
  }

  // ---------------------------------------------------------------- hello and register

  function ValidateHello(cr: Crypto, s: State, h: Hello, now: nat): Option<Side> {
    if !TicketLive(s.tickets, h.token, now) || h.node == h.peer || cr.nodeOf(h.publicKey) != Some(h.node) then None
    else
      var t := s.tickets[h.token];
      if t.first == h.node then (if t.second == h.peer then Some(0) else None)
      else if t.second == h.node && t.first == h.peer then Some(1)
      else None
  }

  /** A half-bound arm of this token whose other side is the named peer naming us. */
  predicate Waiting(s: State, k: SessionKey, h: Hello, side: Side) {
    && k in s.sessions
    && k.token == h.token
    && s.sessions[k].At(side).None?
    && s.sessions[k].At(1 - side).Some?
    && s.sessions[k].At(1 - side).value.hello.node == h.peer
    && s.sessions[k].At(1 - side).value.hello.peer == h.node
  }

  function WaitingArms(s: State, h: Hello, side: Side): set<SessionKey> {
    set k | k in s.sessions && Waiting(s, k, h, side)
  }

  ghost predicate IsLeast(k: SessionKey, ks: set<SessionKey>) {
    k in ks && forall x :: x in ks ==> k.arm <= x.arm
  }

  lemma LeastExists(ks: set<SessionKey>)
    requires ks != {}
    ensures exists k :: IsLeast(k, ks)
  {
    var k :| k in ks;
    if ks == {k} {
      assert IsLeast(k, ks);
    } else {
      LeastExists(ks - {k});
      var m :| IsLeast(m, ks - {k});
      assert IsLeast(if k.arm <= m.arm then k else m, ks);
    }
  }

  ghost function Least(ks: set<SessionKey>): (k: SessionKey)
    requires ks != {}
    ensures IsLeast(k, ks)
  {
    LeastExists(ks);
    var k :| IsLeast(k, ks); k
  }

  predicate SessionRoom(c: Config, s: State, h: Hello) {
    && |s.sessions| < c.maxSessions
    && |SessionsOfPair(s, h.node, h.peer)| < SessionPairLimit(c)
    && |SessionsOfNode(s, h.node)| < SessionNodeLimit(c)
    && |SessionsOfNode(s, h.peer)| < SessionNodeLimit(c)
  }

  function FirstFreeArm(s: State, t: Token, arm: nat): Option<SessionKey>
    decreases MAX_ARMS_PER_TICKET - arm
  {
    if arm >= MAX_ARMS_PER_TICKET then None
    else if SessionKey(t, arm) !in s.sessions then Some(SessionKey(t, arm))
    else FirstFreeArm(s, t, arm + 1)
  }

  ghost function AvailableArm(c: Config, s: State, h: Hello, side: Side): Option<SessionKey> {
    if WaitingArms(s, h, side) != {} then Some(Least(WaitingArms(s, h, side)))
    else if !SessionRoom(c, s, h) then None
    else FirstFreeArm(s, h.token, 0)
  }

  function ReadyOf(b: Bound): (SocketAddr, Packet) {
    (b.source, ReadyPacket(b.hello.token, b.hello.node, b.hello.clientNonce))
  }

  function ReadyPackets(s: State, k: SessionKey): Replies {
    if k in s.sessions && s.sessions[k].Ready()
    then [ReadyOf(s.sessions[k].side0.value), ReadyOf(s.sessions[k].side1.value)]
    else []
  }

  function AddressedTo(rs: Replies, a: SocketAddr): Replies {
    if rs == [] then []
    else (if rs[0].0 == a then [rs[0]] else []) + AddressedTo(rs[1..], a)
  }

  function ChallengeReply(ch: Challenge, to: SocketAddr): Replies {
    [(to, ChallengePacket(ch.hello.clientNonce, ch.nonce, ch.source))]
  }

  /** The bound side of a source, `None` when either index lacks it. */
  function BoundOf(s: State, a: SocketAddr): Option<Bound>
    requires a in s.sources
  {
    if s.sources[a].0 in s.sessions then s.sessions[s.sources[a].0].At(s.sources[a].1) else None
  }

  ghost predicate PendingRoom(c: Config, s: State, h: Hello, source: SocketAddr, side: Side) {
    && |s.pending| < c.maxSessions * 2
    && |PendingOfIp(s, source.Ip())| < c.maxPendingPerIp
    && AvailableArm(c, s, h, side).Some?
  }

  /** `State::hello`; `nonce` is the server's random draw. */
  ghost function HelloStep(c: Config, cr: Crypto, s: State, h: Hello, source: SocketAddr, f: Family, now: nat,
                           nonce: nat)
    : (State, Replies)
  {
    var side := ValidateHello(cr, s, h, now);
    if !Accepts(f, source) || side.None? then (s, [])
    else if source in s.sources then
      var key := s.sources[source].0;
      if key.token == h.token && s.sources[source].1 == side.value
         && BoundOf(s, source).Some? && BoundOf(s, source).value.hello == h
      then (s, AddressedTo(ReadyPackets(s, key), source))
      else (s, [])
    else if source in s.pending then
      var p := s.pending[source];
      if p.session.token == h.token && p.challenge.hello == h then (s, ChallengeReply(p.challenge, source)) else (s, [])
    else if !PendingRoom(c, s, h, source, side.value) then (s, [])
    else
      var ch := Challenge(h, nonce, source);
      var p := Pending(ch, now, SessionKey(h.token, 0), side.value);
      (s.(pending := s.pending[source := p]), ChallengeReply(ch, source))
  }

  /** Everything `State::register` checks before it consumes the challenge. */
  ghost predicate Proves(cr: Crypto, s: State, ch: Challenge, sig: Signature, source: SocketAddr, f: Family, now: nat) {
    && source in s.pending
    && FamilyOf(source) == f
    && s.pending[source].challenge == ch
    && ch.source == source
    && Since(now, s.pending[source].issued) < CHALLENGE_TTL
    && ValidateHello(cr, s, ch.hello, now) == Some(s.pending[source].side)
    && cr.verifies(ch, sig)
  }

  function BindAt(s: State, k: SessionKey, side: Side, b: Bound, now: nat): State {
    var x := if k in s.sessions then s.sessions[k] else Session(None, None, now);
    s.(sessions := s.sessions[k := x.With(side, b).(lastActivity := now)],
       sources := s.sources[b.source := (k, side)])
  }

  ghost function RegisterStep(c: Config, cr: Crypto, s: State, ch: Challenge, sig: Signature,
                              source: SocketAddr, f: Family, now: nat): (State, Replies)
  {
    if !Proves(cr, s, ch, sig, source, f, now) then (s, [])
    else
      var side := s.pending[source].side;
      var s1 := s.(pending := s.pending - {source});
      var arm := AvailableArm(c, s1, ch.hello, side);
      if source in s1.sources || arm.None? then (s1, [])
      else if arm.value in s1.sessions && s1.sessions[arm.value].At(side).Some? then (s1, [])
      else
        var s2 := BindAt(s1, arm.value, side, Bound(ch.hello, source), now);
        (s2, ReadyPackets(s2, arm.value))
  }

  ghost function Control(c: Config, cr: Crypto, s: State, p: Packet, source: SocketAddr, f: Family, now: nat,
                         nonce: nat)
    : (State, Replies)
  {
    var s' := Cleanup(c, s, now);
    match p
    case HelloPacket(h) => HelloStep(c, cr, s', h, source, f, now, nonce)
    case RegisterPacket(ch, sig) => RegisterStep(c, cr, s', ch, sig, source, f, now)
    case _ => (s', [])
  }

  // ---------------------------------------------------------------- forwarding

  predicate Forwards(c: Config, s: State, source: SocketAddr, f: Family, now: nat) {
    && source in s.sources
    && FamilyOf(source) == f
    && s.sources[source].0 in s.sessions
    && s.sessions[s.sources[source].0].Ready()
    && !Idle(c, s.sessions[s.sources[source].0], now)
  }

  function Forward(c: Config, s: State, source: SocketAddr, f: Family, now: nat): (State, Option<SocketAddr>) {
    if !Forwards(c, s, source, f, now) then (s, None)
    else
      var (k, side) := s.sources[source];
      (s.(sessions := s.sessions[k := s.sessions[k].(lastActivity := now)]),
       Some(s.sessions[k].At(1 - side).value.source))
  }

  // ---------------------------------------------------------------- events and runs

  datatype Event =
    | IssueEvent(now: nat, later: nat, token: Token, a: NodeId, b: NodeId)
    | ControlEvent(now: nat, packet: Packet, source: SocketAddr, family: Family, nonce: nat)
    | ForwardEvent(now: nat, source: SocketAddr, family: Family)
    | Tick(now: nat)
  {
    /** The last clock reading of the event. */
    function End(): nat { if IssueEvent? then later else now }
  }

  datatype Reply = Issued(ok: bool) | Answered(packets: Replies) | Routed(to: Option<SocketAddr>) | Silent

  ghost function Step(c: Config, cr: Crypto, s: State, e: Event): (State, Reply) {
    match e
    case IssueEvent(now, later, t, a, b) => var (s', ok) := Issue(c, s, now, later, t, a, b); (s', Issued(ok))
    case ControlEvent(now, p, source, f, nonce) =>
      var (s', rs) := Control(c, cr, s, p, source, f, now, nonce); (s', Answered(rs))
    case ForwardEvent(now, source, f) => var (s', to) := Forward(c, s, source, f, now); (s', Routed(to))
    case Tick(now) => (Cleanup(c, s, now), Silent)
  }

  /** The event gives `source` a session it did not have. */
  ghost predicate NewlyBinds(c: Config, cr: Crypto, s: State, e: Event, source: SocketAddr) {
    source !in s.sources && source in Step(c, cr, s, e).0.sources
  }

  /** The state after the first `i` events of a run that starts empty. */
  ghost function StateAt(c: Config, cr: Crypto, es: seq<Event>, i: nat): State
    requires i <= |es|
  {
    if i == 0 then EMPTY else Step(c, cr, StateAt(c, cr, es, i - 1), es[i - 1]).0
  }

  /** Clock readings never go backwards, within an event or between events. */
  ghost predicate Timely(t: nat, es: seq<Event>)
    decreases |es|
  {
    es == [] || (t <= es[0].now <= es[0].End() && Timely(es[0].End(), es[1..]))
  }
}
