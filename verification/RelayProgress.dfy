/** What the relay does grant, and exactly when: tickets, challenges, arms and routes, read off the
    tables before and after an event and off its reply. */
module RelayProgress {
  import opened Common
  import opened Net
  import opened RelayModel
  import opened RelayInvariants
  import Quotas = RelayQuotas

  // ------------------------------------------------------------ in the tables' own terms

  const NANOS: nat := 1_000_000_000

  function SideOf(x: Session, i: Side): Option<Bound> { if i == 0 then x.side0 else x.side1 }

  /** Some side of the session is bound by a hello between the two nodes. */
  predicate Between(x: Session, a: NodeId, b: NodeId) {
    exists i: Side :: i < 2 && SideOf(x, i).Some?
                      && {SideOf(x, i).value.hello.node, SideOf(x, i).value.hello.peer} == {a, b}
  }

  predicate Touches(x: Session, n: NodeId) {
    exists i: Side :: i < 2 && SideOf(x, i).Some?
                      && n in {SideOf(x, i).value.hello.node, SideOf(x, i).value.hello.peer}
  }

  predicate Fresh(c: Config, x: Session, now: nat) {
    0 < c.idleTimeout && now < x.lastActivity + c.idleTimeout
  }

  /** Half of the pool, but one at least. */
  function Half(c: Config): nat { if c.maxSessions < 2 then 1 else c.maxSessions / 2 }

  /** A live ticket joins the hello's node, on this side, to its peer, and the key is the node's. */
  predicate Ticketed(cr: Crypto, s: State, h: Hello, side: Side, now: nat) {
    && h.token in s.tickets && now < s.tickets[h.token].expires
    && h.node != h.peer && cr.nodeOf(h.publicKey) == Some(h.node)
    && s.tickets[h.token].first == (if side == 0 then h.node else h.peer)
    && s.tickets[h.token].second == (if side == 0 then h.peer else h.node)
  }

  /** The named peer waits on this arm for us, and has not waited too long. */
  predicate HalfBound(c: Config, s: State, k: SessionKey, h: Hello, side: Side, now: nat) {
    && k in s.sessions && k.token == h.token && Fresh(c, s.sessions[k], now)
    && SideOf(s.sessions[k], side).None? && SideOf(s.sessions[k], 1 - side).Some?
    && SideOf(s.sessions[k], 1 - side).value.hello.node == h.peer
    && SideOf(s.sessions[k], 1 - side).value.hello.peer == h.node
  }

  /** The first of the four slots that no session of the token has. */
  predicate FirstSlot(s: State, token: Token, arm: nat) {
    arm < 4 && SessionKey(token, arm) !in s.sessions && forall j :: 0 <= j < arm ==> SessionKey(token, j) in s.sessions
  }

  /** The four session quotas, with one more to go. */
  ghost predicate Space(c: Config, s: State, h: Hello) {
    && |s.sessions| < c.maxSessions
    && |set k | k in s.sessions && Between(s.sessions[k], h.node, h.peer)| < 16
    && |set k | k in s.sessions && Between(s.sessions[k], h.node, h.peer)| < Half(c)
    && |set k | k in s.sessions && Touches(s.sessions[k], h.node)| < 64
    && |set k | k in s.sessions && Touches(s.sessions[k], h.node)| < Half(c)
    && |set k | k in s.sessions && Touches(s.sessions[k], h.peer)| < 64
    && |set k | k in s.sessions && Touches(s.sessions[k], h.peer)| < Half(c)
  }

  function ReadyTo(b: Bound): (SocketAddr, Packet) {
    (b.source, ReadyPacket(b.hello.token, b.hello.node, b.hello.clientNonce))
  }

  /** The tables once a maintenance tick at `now` has swept them. */
  ghost function Swept(c: Config, cr: Crypto, s: State, now: nat): State { Step(c, cr, s, Tick(now)).0 }

  // ------------------------------------------------------------ sweeping

  /** Each table keeps exactly what has not run out: tickets until they expire, challenges for five
      seconds and as long as their ticket, sessions until idle and half-bound ones no longer than
      their ticket, sources as long as their session. */
  lemma SweptExactly(c: Config, cr: Crypto, s: State, now: nat)
    ensures var s1 := Swept(c, cr, s, now);
            && (forall t :: t in s1.tickets <==> t in s.tickets && now < s.tickets[t].expires)
            && (forall t :: t in s1.tickets ==> s1.tickets[t] == s.tickets[t])
            && (forall a :: a in s1.pending <==>
                  && a in s.pending && now < s.pending[a].issued + 5 * NANOS
                  && s.pending[a].session.token in s1.tickets)
            && (forall a :: a in s1.pending ==> s1.pending[a] == s.pending[a])
            && (forall k :: k in s1.sessions <==>
                  && k in s.sessions && Fresh(c, s.sessions[k], now)
                  && ((s.sessions[k].side0.Some? && s.sessions[k].side1.Some?) || k.token in s1.tickets))
            && (forall k :: k in s1.sessions ==> s1.sessions[k] == s.sessions[k])
            && (forall a :: a in s1.sources <==> a in s.sources && s.sources[a].0 in s1.sessions)
            && (forall a :: a in s1.sources ==> s1.sources[a] == s.sources[a])
  {}

  // ------------------------------------------------------------ tickets

  /** The six conditions for a ticket. */
  ghost predicate Issuable(c: Config, s: State, t: Token, a: NodeId, b: NodeId) {
    && a != b && t !in s.tickets && (forall k :: k in s.sessions ==> k.token != t)
    && |s.tickets| < 2 * c.maxSessions
    && |set u | u in s.tickets && {s.tickets[u].first, s.tickets[u].second} == {a, b}| < 16
    && |set u | u in s.tickets && {s.tickets[u].first, s.tickets[u].second} == {a, b}| < c.maxSessions
    && |set u | u in s.tickets && a in {s.tickets[u].first, s.tickets[u].second}| < 64
    && |set u | u in s.tickets && a in {s.tickets[u].first, s.tickets[u].second}| < c.maxSessions
    && |set u | u in s.tickets && b in {s.tickets[u].first, s.tickets[u].second}| < 64
    && |set u | u in s.tickets && b in {s.tickets[u].first, s.tickets[u].second}| < c.maxSessions
  }

  /** A ticket is issued exactly under those conditions on the swept tables, and lives for the
      configured time from the second reading. */
  lemma IssuesExactly(c: Config, cr: Crypto, s: State, now: nat, later: nat, t: Token, a: NodeId, b: NodeId)
    requires TicketsJoinTwo(s)
    ensures var s1, (s', r) := Swept(c, cr, s, now), Step(c, cr, s, IssueEvent(now, later, t, a, b));
            && r == Issued(Issuable(c, s1, t, a, b))
            && s' == if Issuable(c, s1, t, a, b)
                     then s1.(tickets := s1.tickets[t := Ticket(a, b, later + c.ticketTtl)]) else s1
  {
    hide Cleanup, Issuable, MayIssue, TicketsJoinTwo;
    SweptJoinTwo(c, cr, s, now);
    IssuableIs(c, Swept(c, cr, s, now), t, a, b);
  }

  lemma IssuableIs(c: Config, s: State, t: Token, a: NodeId, b: NodeId)
    requires TicketsJoinTwo(s)
    ensures MayIssue(c, s, t, a, b) <==> Issuable(c, s, t, a, b)
  {
    hide TicketsJoinTwo, TicketsOfPair, TicketsOfNode;
    assert (ArmsOfToken(s, t) == {}) <==> forall k :: k in s.sessions ==> k.token != t by {
      assert forall k :: k in s.sessions && k.token == t ==> k in ArmsOfToken(s, t);
    }
    hide ArmsOfToken;
    if a != b { SameTicketSets(s, a, b); }
  }

  lemma SweptJoinTwo(c: Config, cr: Crypto, s: State, now: nat)
    requires TicketsJoinTwo(s)
    ensures TicketsJoinTwo(Swept(c, cr, s, now))
  {}

  lemma SameTicketSets(s: State, a: NodeId, b: NodeId)
    requires TicketsJoinTwo(s) && a != b
    ensures (set u | u in s.tickets && {s.tickets[u].first, s.tickets[u].second} == {a, b}) == TicketsOfPair(s, a, b)
    ensures (set u | u in s.tickets && a in {s.tickets[u].first, s.tickets[u].second}) == TicketsOfNode(s, a)
    ensures (set u | u in s.tickets && b in {s.tickets[u].first, s.tickets[u].second}) == TicketsOfNode(s, b)
  {}

  // ------------------------------------------------------------ routes

  ghost predicate Route(c: Config, s: State, source: SocketAddr, f: Family, now: nat, to: SocketAddr) {
    && source in s.sources && FamilyOf(source) == f && s.sources[source].0 in s.sessions
    && var x := s.sessions[s.sources[source].0];
    && x.side0.Some? && x.side1.Some? && Fresh(c, x, now)
    && SideOf(x, 1 - s.sources[source].1).value.source == to
  }

  /** A datagram goes to the other side of its session exactly while that is ready and fresh, and
      refreshes it; otherwise nothing happens. */
  lemma RoutesExactly(c: Config, cr: Crypto, s: State, now: nat, source: SocketAddr, f: Family, to: SocketAddr)
    ensures var (s', r) := Step(c, cr, s, ForwardEvent(now, source, f));
            && (r == Routed(Some(to)) <==> Route(c, s, source, f, now, to))
            && r.Routed? && (r.to.None? ==> s' == s)
            && (r.to.Some? ==>
                  && source in s.sources && s.sources[source].0 in s.sessions
                  && var k := s.sources[source].0;
                  s' == s.(sessions := s.sessions[k := s.sessions[k].(lastActivity := now)]))
            && (r.to.Some? ==>
                  && source in s.sources && s.sources[source].0 in s.sessions
                  && var k := s.sources[source].0;
                  s' == s.(sessions := s.sessions[k := s.sessions[k].(lastActivity := now)]))
  {}

  // ------------------------------------------------------------ the same conditions as the model's own

  lemma TicketedIs(cr: Crypto, s: State, h: Hello, side: Side, now: nat)
    ensures Ticketed(cr, s, h, side, now) <==> ValidateHello(cr, s, h, now) == Some(side)
  {}

  lemma WaitingIs(c: Config, s: State, k: SessionKey, h: Hello, side: Side, now: nat)
    requires k in s.sessions ==> !Idle(c, s.sessions[k], now)
    ensures HalfBound(c, s, k, h, side, now) <==> k in WaitingArms(s, h, side)
  {}

  lemma SpaceIs(c: Config, s: State, h: Hello)
    ensures Space(c, s, h) <==> SessionRoom(c, s, h)
  {
    SameSessionSets(s, h.node, h.peer);
    hide Between, Touches, SessionsOfPair, SessionsOfNode;
  }

  lemma BetweenIs(x: Session, a: NodeId, b: NodeId)
    ensures Between(x, a, b) <==> x.HasPair(a, b)
    ensures Touches(x, a) <==> x.HasNode(a)
  {
    assert SideOf(x, 0) == x.side0 && SideOf(x, 1) == x.side1;
    if x.side0.Some? { PairIs(x.side0.value.hello, a, b); }
    if x.side1.Some? { PairIs(x.side1.value.hello, a, b); }
  }

  lemma PairIs(h: Hello, a: NodeId, b: NodeId)
    ensures {h.node, h.peer} == {a, b} <==> SamePair(h, a, b)
  {
    if {h.node, h.peer} == {a, b} {
      assert h.node in {a, b} && h.peer in {a, b} && a in {h.node, h.peer} && b in {h.node, h.peer};
    }
  }

  lemma SameSessionSets(s: State, a: NodeId, b: NodeId)
    ensures (set k | k in s.sessions && Between(s.sessions[k], a, b)) == SessionsOfPair(s, a, b)
    ensures (set k | k in s.sessions && Touches(s.sessions[k], a)) == SessionsOfNode(s, a)
    ensures (set k | k in s.sessions && Touches(s.sessions[k], b)) == SessionsOfNode(s, b)
  {
    hide Between, Touches;
    forall k | k in s.sessions
      ensures Between(s.sessions[k], a, b) <==> s.sessions[k].HasPair(a, b)
      ensures Touches(s.sessions[k], a) <==> s.sessions[k].HasNode(a)
      ensures Touches(s.sessions[k], b) <==> s.sessions[k].HasNode(b)
    {
      BetweenIs(s.sessions[k], a, b);
      BetweenIs(s.sessions[k], b, a);
    }
  }

  lemma {:induction false} FirstSlotIs(s: State, t: Token, from: nat)
    requires from <= 4 && forall j :: 0 <= j < from ==> SessionKey(t, j) in s.sessions
    ensures var r := FirstFreeArm(s, t, from);
            && (r.Some? ==> r.value.token == t && FirstSlot(s, t, r.value.arm))
            && (r.None? ==> forall arm :: !FirstSlot(s, t, arm))
    decreases 4 - from
  {
    if from < 4 && SessionKey(t, from) in s.sessions { FirstSlotIs(s, t, from + 1); }
  }

  lemma OneFirstSlot(s: State, t: Token, a: nat, b: nat)
    requires FirstSlot(s, t, a) && FirstSlot(s, t, b)
    ensures a == b
  {}

  // ------------------------------------------------------------ Register

  /** The challenge this server holds for the socket, signed in time by the node's own key under a
      live ticket. */
  predicate Verified(cr: Crypto, s: State, ch: Challenge, sig: Signature, source: SocketAddr, f: Family, now: nat,
                     side: Side)
  {
    && source in s.pending && s.pending[source].challenge == ch && s.pending[source].side == side
    && ch.source == source && FamilyOf(source) == f && now < s.pending[source].issued + 5 * NANOS
    && Ticketed(cr, s, ch.hello, side, now) && cr.verifies(ch, sig)
  }

  lemma VerifiedIs(cr: Crypto, s: State, ch: Challenge, sig: Signature, source: SocketAddr, f: Family, now: nat)
    ensures Proves(cr, s, ch, sig, source, f, now) <==>
              exists side: Side :: Verified(cr, s, ch, sig, source, f, now, side)
    ensures forall side: Side :: Verified(cr, s, ch, sig, source, f, now, side) ==> side == s.pending[source].side
  {
    hide Ticketed, ValidateHello;
    if source in s.pending { TicketedIs(cr, s, ch.hello, s.pending[source].side, now); }
    if Proves(cr, s, ch, sig, source, f, now) {
      assert Verified(cr, s, ch, sig, source, f, now, s.pending[source].side);
    }
  }

  /** Anything else is ignored: the sweep is all that happens. */
  lemma UnverifiedIsIgnored(c: Config, cr: Crypto, s: State, ch: Challenge, sig: Signature, source: SocketAddr,
                            f: Family, now: nat, nonce: nat)
    requires forall side: Side :: !Verified(cr, Swept(c, cr, s, now), ch, sig, source, f, now, side)
    ensures Step(c, cr, s, ControlEvent(now, RegisterPacket(ch, sig), source, f, nonce))
         == (Swept(c, cr, s, now), Answered([]))
  {
    hide Cleanup, Proves, Verified, AvailableArm;
    VerifiedIs(cr, Swept(c, cr, s, now), ch, sig, source, f, now);
  }

  /** What one Register binds: this socket to this side of arm `k`, all else as swept. */
  ghost predicate Binds(s1: State, s': State, ch: Challenge, source: SocketAddr, now: nat, side: Side, k: SessionKey) {
    && k in s'.sessions
    && var x := s'.sessions[k];
    && SideOf(x, side) == Some(Bound(ch.hello, source)) && x.lastActivity == now
    && SideOf(x, 1 - side) == (if k in s1.sessions then SideOf(s1.sessions[k], 1 - side) else None)
    && s' == State(s1.tickets, s1.pending - {source}, s1.sessions[k := x], s1.sources[source := (k, side)])
  }

  /** The verified Register, before the tables' own terms come in. */
  lemma RegisterBinds(c: Config, cr: Crypto, s: State, ch: Challenge, sig: Signature, source: SocketAddr, f: Family,
                      now: nat, side: Side, arm: Option<SessionKey>)
    requires Verified(cr, s, ch, sig, source, f, now, side) && source !in s.sources
    requires arm == AvailableArm(c, s.(pending := s.pending - {source}), ch.hello, side)
    requires arm.Some? && arm.value in s.sessions ==> SideOf(s.sessions[arm.value], side).None?
    ensures var (s', rs) := RegisterStep(c, cr, s, ch, sig, source, f, now);
            && (arm.Some? ==> Binds(s, s', ch, source, now, side, arm.value) && rs == ReadyPackets(s', arm.value))
            && (arm.None? ==> s' == s.(pending := s.pending - {source}) && rs == [])
  {
    hide Verified, AvailableArm, Proves, ReadyPackets;
    VerifiedIs(cr, s, ch, sig, source, f, now);
    assert Proves(cr, s, ch, sig, source, f, now);
    SideOfPending(cr, s, ch, sig, source, f, now, side);
  }

  lemma SideOfPending(cr: Crypto, s: State, ch: Challenge, sig: Signature, source: SocketAddr, f: Family, now: nat,
                      side: Side)
    requires Verified(cr, s, ch, sig, source, f, now, side)
    ensures source in s.pending && s.pending[source].side == side
  {}

  lemma SweptKeeps(c: Config, cr: Crypto, s: State, now: nat)
    requires Inv(s)
    ensures Inv(Swept(c, cr, s, now))
  {
    hide Inv, Step;
    StepKeeps(c, cr, s, Tick(now));
  }

  lemma SweptIsFresh(c: Config, cr: Crypto, s: State, now: nat, k: SessionKey)
    ensures k in Swept(c, cr, s, now).sessions ==> !Idle(c, Swept(c, cr, s, now).sessions[k], now)
  {}

  /** The arm the model picks when a peer waits: the lowest of those that wait. */
  lemma PicksTheLowest(c: Config, cr: Crypto, s: State, h: Hello, side: Side, now: nat, k: SessionKey)
    returns (low: SessionKey)
    requires var s1 := Swept(c, cr, s, now); HalfBound(c, s1, k, h, side, now)
    ensures var s1 := Swept(c, cr, s, now);
            && AvailableArm(c, s1, h, side) == Some(low) && HalfBound(c, s1, low, h, side, now)
            && forall j :: HalfBound(c, s1, j, h, side, now) ==> low.arm <= j.arm
  {
    hide Cleanup, HalfBound;
    var s1 := Swept(c, cr, s, now);
    forall j ensures HalfBound(c, s1, j, h, side, now) <==> j in WaitingArms(s1, h, side) {
      SweptIsFresh(c, cr, s, now, j);
      WaitingIs(c, s1, j, h, side, now);
    }
    assert k in WaitingArms(s1, h, side);
    low := Least(WaitingArms(s1, h, side));
  }

  /** Both sockets bound: one Ready packet to each, and a route both ways for as long as it is fresh. */
  ghost predicate Joined(c: Config, cr: Crypto, s': State, r: Reply, k: SessionKey, now: nat) {
    && k in s'.sessions && s'.sessions[k].side0.Some? && s'.sessions[k].side1.Some?
    && var (p, q) := (s'.sessions[k].side0.value, s'.sessions[k].side1.value);
    && r == Answered([ReadyTo(p), ReadyTo(q)])
    && (forall t: nat :: 0 < c.idleTimeout && t < now + c.idleTimeout ==>
          && Step(c, cr, s', ForwardEvent(t, p.source, FamilyOf(p.source))).1 == Routed(Some(q.source))
          && Step(c, cr, s', ForwardEvent(t, q.source, FamilyOf(q.source))).1 == Routed(Some(p.source)))
  }

  /** The session's two sockets, each under its own side of the index. */
  ghost predicate Indexed(s: State, k: SessionKey, p: Bound, q: Bound) {
    && k in s.sessions && s.sessions[k].side0 == Some(p) && s.sessions[k].side1 == Some(q)
    && p.source in s.sources && s.sources[p.source] == (k, 0) && q.source in s.sources && s.sources[q.source] == (k, 1)
  }

  lemma BoundIndexed(c: Config, s1: State, s': State, ch: Challenge, source: SocketAddr, now: nat, side: Side,
                     k: SessionKey)
    requires BoundAreSources(s1) && source !in s1.sources && Binds(s1, s', ch, source, now, side, k)
    requires HalfBound(c, s1, k, ch.hello, side, now)
    ensures s'.sessions[k].side0.Some? && s'.sessions[k].side1.Some?
    ensures Indexed(s', k, s'.sessions[k].side0.value, s'.sessions[k].side1.value)
  {
    assert s1.sessions[k].At(1 - side) == SideOf(s'.sessions[k], 1 - side);
  }

  lemma IndexedRoutes(c: Config, cr: Crypto, s: State, k: SessionKey, p: Bound, q: Bound, now: nat, t: nat)
    requires Indexed(s, k, p, q) && s.sessions[k].lastActivity == now && 0 < c.idleTimeout && t < now + c.idleTimeout
    ensures Step(c, cr, s, ForwardEvent(t, p.source, FamilyOf(p.source))).1 == Routed(Some(q.source))
    ensures Step(c, cr, s, ForwardEvent(t, q.source, FamilyOf(q.source))).1 == Routed(Some(p.source))
  {
    hide Step, FamilyOf;
    RoutesExactly(c, cr, s, t, p.source, FamilyOf(p.source), q.source);
    RoutesExactly(c, cr, s, t, q.source, FamilyOf(q.source), p.source);
  }

  lemma BoundJoins(c: Config, cr: Crypto, s1: State, s': State, ch: Challenge, source: SocketAddr, now: nat, side: Side,
                   k: SessionKey, rs: Replies)
    requires BoundAreSources(s1) && source !in s1.sources && Binds(s1, s', ch, source, now, side, k)
    requires HalfBound(c, s1, k, ch.hello, side, now) && rs == ReadyPackets(s', k)
    ensures Joined(c, cr, s', Answered(rs), k, now)
  {
    BoundIndexed(c, s1, s', ch, source, now, side, k);
    hide HalfBound, BoundAreSources, Step, FamilyOf;
    var p, q := s'.sessions[k].side0.value, s'.sessions[k].side1.value;
    forall t: nat | 0 < c.idleTimeout && t < now + c.idleTimeout
      ensures Step(c, cr, s', ForwardEvent(t, p.source, FamilyOf(p.source))).1 == Routed(Some(q.source))
      ensures Step(c, cr, s', ForwardEvent(t, q.source, FamilyOf(q.source))).1 == Routed(Some(p.source))
    {
      IndexedRoutes(c, cr, s', k, p, q, now, t);
    }
  }

  /** The point of the relay. In any run, when the named peer waits on an arm of the token, a verified
      Register binds its socket to the other side of the lowest such arm; that makes the session
      ready, tells both sockets so, and routes datagrams between them. */
  lemma RegisterJoinsThePeer(c: Config, cr: Crypto, es: seq<Event>, i: nat, ch: Challenge, sig: Signature,
                             source: SocketAddr, f: Family, now: nat, nonce: nat, side: Side, k: SessionKey)
    returns (low: SessionKey)
    requires i <= |es|
    requires var s1 := Swept(c, cr, StateAt(c, cr, es, i), now);
             Verified(cr, s1, ch, sig, source, f, now, side) && HalfBound(c, s1, k, ch.hello, side, now)
    ensures var s1 := Swept(c, cr, StateAt(c, cr, es, i), now);
            var e := ControlEvent(now, RegisterPacket(ch, sig), source, f, nonce);
            var (s', r) := Step(c, cr, StateAt(c, cr, es, i), e);
            && HalfBound(c, s1, low, ch.hello, side, now)
            && (forall j :: HalfBound(c, s1, j, ch.hello, side, now) ==> low.arm <= j.arm)
            && Binds(s1, s', ch, source, now, side, low) && Joined(c, cr, s', r, low, now)
  {
    hide Cleanup, Inv, Verified, HalfBound, Binds, Joined, AvailableArm, RegisterStep;
    var s := StateAt(c, cr, es, i);
    var s1 := Swept(c, cr, s, now);
    Reachable(c, cr, es, i);
    SweptKeeps(c, cr, s, now);
    low := PicksTheLowest(c, cr, s, ch.hello, side, now, k);
    PendingUnboundHere(cr, s1, ch, sig, source, f, now, side);
    SameArms(c, s1, s1.pending - {source}, ch.hello, side);
    OwnSideFree(c, s1, low, ch.hello, side, now);
    RegisterBinds(c, cr, s1, ch, sig, source, f, now, side, Some(low));
    var (s', rs) := RegisterStep(c, cr, s1, ch, sig, source, f, now);
    InvIndexes(s1);
    BoundJoins(c, cr, s1, s', ch, source, now, side, low, rs);
  }

  lemma InvIndexes(s: State)
    requires Inv(s)
    ensures BoundAreSources(s)
  {}

  lemma OwnSideFree(c: Config, s: State, k: SessionKey, h: Hello, side: Side, now: nat)
    requires HalfBound(c, s, k, h, side, now)
    ensures k in s.sessions && SideOf(s.sessions[k], side).None?
  {}

  lemma PendingUnboundHere(cr: Crypto, s: State, ch: Challenge, sig: Signature, source: SocketAddr, f: Family, now: nat,
                           side: Side)
    requires Inv(s) && Verified(cr, s, ch, sig, source, f, now, side)
    ensures source !in s.sources
  {}

  /** Which arm is picked does not depend on the challenges. */
  lemma SameArms(c: Config, s: State, pending: map<SocketAddr, Pending>, h: Hello, side: Side)
    ensures AvailableArm(c, s.(pending := pending), h, side) == AvailableArm(c, s, h, side)
  {
    var s' := s.(pending := pending);
    assert WaitingArms(s', h, side) == WaitingArms(s, h, side);
    assert SessionsOfPair(s', h.node, h.peer) == SessionsOfPair(s, h.node, h.peer);
    assert SessionsOfNode(s', h.node) == SessionsOfNode(s, h.node);
    assert SessionsOfNode(s', h.peer) == SessionsOfNode(s, h.peer);
    SameSlots(s, s', h.token, 0);
  }

  lemma {:induction false} SameSlots(s: State, s': State, t: Token, from: nat)
    requires s.sessions == s'.sessions
    ensures FirstFreeArm(s, t, from) == FirstFreeArm(s', t, from)
    decreases 4 - from
  {
    if from < 4 { SameSlots(s, s', t, from + 1); }
  }

  /** With nobody waiting, the arm picked is the first free slot, exactly within the four quotas. */
  lemma PicksAFreshArm(c: Config, cr: Crypto, s: State, h: Hello, side: Side, now: nat)
    requires var s1 := Swept(c, cr, s, now); forall k :: !HalfBound(c, s1, k, h, side, now)
    ensures var s1, arm := Swept(c, cr, s, now), AvailableArm(c, Swept(c, cr, s, now), h, side);
            && (arm.Some? <==> Space(c, s1, h) && exists n :: FirstSlot(s1, h.token, n))
            && (arm.Some? ==> arm.value.token == h.token && FirstSlot(s1, h.token, arm.value.arm))
  {
    hide Cleanup, HalfBound, Space, SessionRoom, FirstSlot, FirstFreeArm;
    var s1 := Swept(c, cr, s, now);
    forall k ensures k !in WaitingArms(s1, h, side) {
      assert !HalfBound(c, s1, k, h, side, now);
      SweptIsFresh(c, cr, s, now, k);
      WaitingIs(c, s1, k, h, side, now);
    }
    assert WaitingArms(s1, h, side) == {};
    SpaceIs(c, s1, h);
    FirstSlotIs(s1, h.token, 0);
  }

  /** With nobody waiting, a verified Register binds its socket to the first free slot of its token,
      exactly if the session quotas have room and one of the four slots is free; nobody is told.
      Either way its challenge is spent. */
  lemma RegisterBindsAlone(c: Config, cr: Crypto, es: seq<Event>, i: nat, ch: Challenge, sig: Signature,
                           source: SocketAddr, f: Family, now: nat, nonce: nat, side: Side)
    requires i <= |es|
    requires var s1 := Swept(c, cr, StateAt(c, cr, es, i), now);
             && Verified(cr, s1, ch, sig, source, f, now, side)
             && forall k :: !HalfBound(c, s1, k, ch.hello, side, now)
    ensures var s1 := Swept(c, cr, StateAt(c, cr, es, i), now);
            var e := ControlEvent(now, RegisterPacket(ch, sig), source, f, nonce);
            var (s', r) := Step(c, cr, StateAt(c, cr, es, i), e);
            && r == Answered([])
            && (source in s'.sources <==> Space(c, s1, ch.hello) && exists n :: FirstSlot(s1, ch.hello.token, n))
            && (source !in s'.sources ==> s' == s1.(pending := s1.pending - {source}))
            && (forall n :: source in s'.sources && FirstSlot(s1, ch.hello.token, n) ==>
                  Binds(s1, s', ch, source, now, side, SessionKey(ch.hello.token, n)))
  {
    hide Cleanup, Inv, Verified, HalfBound, Space, FirstSlot, AvailableArm, RegisterStep;
    var s := StateAt(c, cr, es, i);
    var s1 := Swept(c, cr, s, now);
    Reachable(c, cr, es, i);
    SweptKeeps(c, cr, s, now);
    PicksAFreshArm(c, cr, s, ch.hello, side, now);
    PendingUnboundHere(cr, s1, ch, sig, source, f, now, side);
    SameArms(c, s1, s1.pending - {source}, ch.hello, side);
    var arm := AvailableArm(c, s1, ch.hello, side);
    if arm.Some? { SlotIsNew(s1, ch.hello.token, arm.value); }
    RegisterBinds(c, cr, s1, ch, sig, source, f, now, side, arm);
    forall n | FirstSlot(s1, ch.hello.token, n) && arm.Some? ensures arm.value == SessionKey(ch.hello.token, n) {
      OneFirstSlot(s1, ch.hello.token, n, arm.value.arm);
    }
  }

  lemma SlotIsNew(s: State, t: Token, k: SessionKey)
    requires k.token == t && FirstSlot(s, t, k.arm)
    ensures k !in s.sessions
  {}

  // ------------------------------------------------------------ Hello

  /** A hello that no ticket backs, or from an address no packet should come from, only sweeps. */
  lemma UnticketedIsIgnored(c: Config, cr: Crypto, s: State, h: Hello, source: SocketAddr, f: Family, now: nat,
                            nonce: nat)
    requires !Accepts(f, source) || forall side: Side :: !Ticketed(cr, Swept(c, cr, s, now), h, side, now)
    ensures Step(c, cr, s, ControlEvent(now, HelloPacket(h), source, f, nonce)) == (Swept(c, cr, s, now), Answered([]))
  {
    hide Cleanup, Ticketed, ValidateHello, Accepts, PendingRoom;
    var s1 := Swept(c, cr, s, now);
    var v := ValidateHello(cr, s1, h, now);
    if v.Some? { TicketedIs(cr, s1, h, v.value, now); }
  }

  /** A socket already bound by this very hello is told again that its session is ready, if it is;
      any other hello from a bound socket gets no answer. */
  lemma BoundHelloIsAnswered(c: Config, cr: Crypto, es: seq<Event>, i: nat, h: Hello, source: SocketAddr, f: Family,
                             now: nat, nonce: nat, side: Side)
    requires i <= |es|
    requires var s1 := Swept(c, cr, StateAt(c, cr, es, i), now);
             Accepts(f, source) && Ticketed(cr, s1, h, side, now) && source in s1.sources
    ensures var s1 := Swept(c, cr, StateAt(c, cr, es, i), now);
            var (s', r) := Step(c, cr, StateAt(c, cr, es, i), ControlEvent(now, HelloPacket(h), source, f, nonce));
            && s' == s1 && s1.sources[source].0 in s1.sessions
            && var (k, x) := (s1.sources[source].0, s1.sessions[s1.sources[source].0]);
            && r == Answered(if && k.token == h.token && s1.sources[source].1 == side
                                && SideOf(x, side) == Some(Bound(h, source)) && x.side0.Some? && x.side1.Some?
                             then [(source, ReadyPacket(h.token, h.node, h.clientNonce))] else [])
  {
    hide Cleanup, Inv, Ticketed, ValidateHello, Accepts, PendingRoom, AddressedTo, ReadyPackets;
    var s := StateAt(c, cr, es, i);
    var s1 := Swept(c, cr, s, now);
    Reachable(c, cr, es, i);
    SweptKeeps(c, cr, s, now);
    TicketedIs(cr, s1, h, side, now);
    BoundToSource(s1, source);
    if s1.sources[source].1 == side && SideOf(s1.sessions[s1.sources[source].0], side) == Some(Bound(h, source)) {
      OneReady(s1, source, side);
    }
  }

  lemma BoundToSource(s: State, source: SocketAddr)
    requires Inv(s) && source in s.sources
    ensures var (k, side) := s.sources[source];
            k in s.sessions && SideOf(s.sessions[k], side).Some? && SideOf(s.sessions[k], side).value.source == source
  {}

  /** Of the two Ready packets one is addressed to the socket. */
  lemma OneReady(s: State, source: SocketAddr, side: Side)
    requires Inv(s) && source in s.sources && s.sources[source].1 == side
    ensures var k := s.sources[source].0;
            && k in s.sessions && SideOf(s.sessions[k], side).Some?
            && AddressedTo(ReadyPackets(s, k), source)
               == if s.sessions[k].side0.Some? && s.sessions[k].side1.Some?
                  then [ReadyTo(SideOf(s.sessions[k], side).value)]
                  else []
  {
    var k := s.sources[source].0;
    var x := s.sessions[k];
    assert x.At(side).Some? && x.At(side).value.source == source;
    if x.Ready() {
      assert s.sources[x.At(1 - side).value.source] == (k, 1 - side);
      AddressedOfTwo(ReadyOf(x.side0.value), ReadyOf(x.side1.value), source);
    }
  }

  lemma AddressedOfTwo(p: (SocketAddr, Packet), q: (SocketAddr, Packet), a: SocketAddr)
    ensures AddressedTo([p, q], a) == (if p.0 == a then [p] else []) + (if q.0 == a then [q] else [])
  {
    assert [p, q][1..] == [q];
    assert AddressedTo([q], a) == (if q.0 == a then [q] else []) + AddressedTo([q][1..], a);
    assert AddressedTo([q][1..], a) == [];
  }

  /** A socket with a challenge gets the same one again for the same hello, and nothing for another. */
  lemma ChallengedHelloIsRepeated(c: Config, cr: Crypto, es: seq<Event>, i: nat, h: Hello, source: SocketAddr,
                                  f: Family, now: nat, nonce: nat, side: Side)
    requires i <= |es|
    requires var s1 := Swept(c, cr, StateAt(c, cr, es, i), now);
             Accepts(f, source) && Ticketed(cr, s1, h, side, now) && source in s1.pending
    ensures var s1 := Swept(c, cr, StateAt(c, cr, es, i), now);
            var ch := s1.pending[source].challenge;
            Step(c, cr, StateAt(c, cr, es, i), ControlEvent(now, HelloPacket(h), source, f, nonce))
            == (s1, Answered(if ch.hello == h then [(source, ChallengePacket(h.clientNonce, ch.nonce, source))]
                             else []))
  {
    hide Cleanup, Inv, Ticketed, ValidateHello, Accepts, PendingRoom;
    var s := StateAt(c, cr, es, i);
    var s1 := Swept(c, cr, s, now);
    Reachable(c, cr, es, i);
    SweptKeeps(c, cr, s, now);
    TicketedIs(cr, s1, h, side, now);
    ChallengeIsOwn(s1, source);
  }

  lemma ChallengeIsOwn(s: State, source: SocketAddr)
    requires Inv(s) && source in s.pending
    ensures source !in s.sources && s.pending[source].challenge.source == source
    ensures s.pending[source].session.token == s.pending[source].challenge.hello.token
  {}

  /** A place among the challenges, and an arm to go to: a waiting peer's, or a free slot within the quotas. */
  ghost predicate Welcome(c: Config, s: State, h: Hello, source: SocketAddr, side: Side, now: nat) {
    && |s.pending| < 2 * c.maxSessions
    && |set a | a in s.pending && a.Ip() == source.Ip()| < c.maxPendingPerIp
    && ((exists k :: HalfBound(c, s, k, h, side, now))
        || (Space(c, s, h) && exists n :: FirstSlot(s, h.token, n)))
  }

  /** A new socket is challenged exactly when it is welcome: with the server's nonce, its own client
      nonce and its own address, recorded for five seconds from now. */
  lemma NewHelloIsChallenged(c: Config, cr: Crypto, s: State, h: Hello, source: SocketAddr, f: Family, now: nat,
                             nonce: nat, side: Side)
    requires var s1 := Swept(c, cr, s, now);
             && Accepts(f, source) && Ticketed(cr, s1, h, side, now) && source !in s1.sources && source !in s1.pending
    ensures var s1 := Swept(c, cr, s, now);
            var p := Pending(Challenge(h, nonce, source), now, SessionKey(h.token, 0), side);
            Step(c, cr, s, ControlEvent(now, HelloPacket(h), source, f, nonce))
            == if Welcome(c, s1, h, source, side, now) then
                 (s1.(pending := s1.pending[source := p]),
                  Answered([(source, ChallengePacket(h.clientNonce, nonce, source))]))
               else (s1, Answered([]))
  {
    hide Cleanup, Ticketed, ValidateHello, Accepts, PendingRoom, Welcome;
    var s1 := Swept(c, cr, s, now);
    TicketedIs(cr, s1, h, side, now);
    WelcomeIs(c, cr, s, h, source, side, now);
  }

  lemma WelcomeIs(c: Config, cr: Crypto, s: State, h: Hello, source: SocketAddr, side: Side, now: nat)
    ensures var s1 := Swept(c, cr, s, now);
            Welcome(c, s1, h, source, side, now) <==> PendingRoom(c, s1, h, source, side)
  {
    hide Cleanup, HalfBound, Space, FirstSlot, AvailableArm;
    var s1 := Swept(c, cr, s, now);
    assert (set a | a in s1.pending && a.Ip() == source.Ip()) == PendingOfIp(s1, source.Ip());
    if k :| HalfBound(c, s1, k, h, side, now) {
      var low := PicksTheLowest(c, cr, s, h, side, now, k);
    } else {
      PicksAFreshArm(c, cr, s, h, side, now);
    }
  }

  /** The server's own packets, sent to it, only sweep. */
  lemma OtherPacketsAreIgnored(c: Config, cr: Crypto, s: State, p: Packet, source: SocketAddr, f: Family, now: nat,
                               nonce: nat)
    requires p.ChallengePacket? || p.ReadyPacket?
    ensures Step(c, cr, s, ControlEvent(now, p, source, f, nonce)) == (Swept(c, cr, s, now), Answered([]))
  {}

  // ------------------------------------------------------------ the quotas in numbers

  /** Every limit at once, as the configuration and the constants give it. */
  lemma QuotasInNumbers(c: Config, cr: Crypto, es: seq<Event>, i: nat, a: NodeId, b: NodeId, ip: IpAddr, token: Token)
    requires i <= |es|
    ensures var s := StateAt(c, cr, es, i);
            && |s.tickets| <= 2 * c.maxSessions && |s.sessions| <= c.maxSessions && |s.pending| <= 2 * c.maxSessions
            && (a != b ==>
                  && |set t | t in s.tickets && {s.tickets[t].first, s.tickets[t].second} == {a, b}| <= 16
                  && |set t | t in s.tickets && {s.tickets[t].first, s.tickets[t].second} == {a, b}| <= c.maxSessions)
            && |set t | t in s.tickets && a in {s.tickets[t].first, s.tickets[t].second}| <= 64
            && |set t | t in s.tickets && a in {s.tickets[t].first, s.tickets[t].second}| <= c.maxSessions
            && |set k | k in s.sessions && Between(s.sessions[k], a, b)| <= 16
            && |set k | k in s.sessions && Between(s.sessions[k], a, b)| <= Half(c)
            && |set k | k in s.sessions && Touches(s.sessions[k], a)| <= 64
            && |set k | k in s.sessions && Touches(s.sessions[k], a)| <= Half(c)
            && |set p | p in s.pending && p.Ip() == ip| <= c.maxPendingPerIp
            && |set k | k in s.sessions && k.token == token| <= 4
  {
    hide StateAt, Between, Touches, Inv, Quotas.TicketQuotas, Quotas.SessionQuotas, Quotas.PendingQuotas;
    var s := StateAt(c, cr, es, i);
    Quotas.QuotasAlwaysHold(c, cr, es, i);
    Reachable(c, cr, es, i);
    TicketsInNumbers(c, s, a, b);
    SessionsInNumbers(c, s, a, b);
    PendingInNumbers(c, s, ip);
    assert (set k | k in s.sessions && k.token == token) == ArmsOfToken(s, token);
  }

  lemma TicketsInNumbers(c: Config, s: State, a: NodeId, b: NodeId)
    requires Quotas.TicketQuotas(c, s) && Inv(s)
    ensures |s.tickets| <= 2 * c.maxSessions
    ensures a != b ==> |set t | t in s.tickets && {s.tickets[t].first, s.tickets[t].second} == {a, b}| <= 16
    ensures a != b ==> |set t | t in s.tickets && {s.tickets[t].first, s.tickets[t].second} == {a, b}| <= c.maxSessions
    ensures |set t | t in s.tickets && a in {s.tickets[t].first, s.tickets[t].second}| <= 64
    ensures |set t | t in s.tickets && a in {s.tickets[t].first, s.tickets[t].second}| <= c.maxSessions
  {
    if a != b { SameTicketSets(s, a, b); }
    assert (set t | t in s.tickets && a in {s.tickets[t].first, s.tickets[t].second}) == TicketsOfNode(s, a);
    hide Inv, TicketsOfNode, TicketsOfPair;
  }

  lemma SessionsInNumbers(c: Config, s: State, a: NodeId, b: NodeId)
    requires Quotas.SessionQuotas(c, s)
    ensures |s.sessions| <= c.maxSessions
    ensures |set k | k in s.sessions && Between(s.sessions[k], a, b)| <= 16
    ensures |set k | k in s.sessions && Between(s.sessions[k], a, b)| <= Half(c)
    ensures |set k | k in s.sessions && Touches(s.sessions[k], a)| <= 64
    ensures |set k | k in s.sessions && Touches(s.sessions[k], a)| <= Half(c)
  {
    hide Between, Touches, SessionsOfNode, SessionsOfPair;
    SameSessionSets(s, a, b);
  }

  lemma PendingInNumbers(c: Config, s: State, ip: IpAddr)
    requires Quotas.PendingQuotas(c, s)
    ensures |s.pending| <= 2 * c.maxSessions
    ensures |set p | p in s.pending && p.Ip() == ip| <= c.maxPendingPerIp
  {
    assert (set p | p in s.pending && p.Ip() == ip) == PendingOfIp(s, ip);
  }
}
