/** Every relay quota holds in every reachable state, although no counter is stored. */
module RelayQuotas {
  import opened Common
  import opened Net
  import opened RelayModel
  import opened RelayInvariants

  ghost predicate TicketQuotas(c: Config, s: State) {
    && |s.tickets| <= c.maxSessions * 2
    && (forall a, b :: a != b ==> |TicketsOfPair(s, a, b)| <= TicketPairLimit(c))
    && (forall n :: |TicketsOfNode(s, n)| <= TicketNodeLimit(c))
  }

  ghost predicate SessionQuotas(c: Config, s: State) {
    && |s.sessions| <= c.maxSessions
    && (forall a, b :: |SessionsOfPair(s, a, b)| <= SessionPairLimit(c))
    && (forall n :: |SessionsOfNode(s, n)| <= SessionNodeLimit(c))
  }

  ghost predicate PendingQuotas(c: Config, s: State) {
    && |s.pending| <= c.maxSessions * 2
    && (forall ip :: |PendingOfIp(s, ip)| <= c.maxPendingPerIp)
  }

  ghost predicate Quotas(c: Config, s: State) {
    TicketQuotas(c, s) && SessionQuotas(c, s) && PendingQuotas(c, s)
  }

  /** `s'` holds nothing that `s` does not. */
  ghost predicate Within(s': State, s: State) {
    && (forall t :: t in s'.tickets ==> t in s.tickets && s'.tickets[t] == s.tickets[t])
    && (forall k :: k in s'.sessions ==> k in s.sessions && SameNames(s'.sessions[k], s.sessions[k]))
    && s'.pending.Keys <= s.pending.Keys
  }

  ghost predicate SameNames(x: Session, y: Session) {
    x.side0 == y.side0 && x.side1 == y.side1
  }

  lemma SmallerKeeps(c: Config, s: State, s': State)
    requires Quotas(c, s) && Within(s', s)
    ensures Quotas(c, s')
  {
    SubsetCard(s'.tickets.Keys, s.tickets.Keys);
    SubsetCard(s'.sessions.Keys, s.sessions.Keys);
    SubsetCard(s'.pending.Keys, s.pending.Keys);
    forall a, b ensures |TicketsOfPair(s', a, b)| <= |TicketsOfPair(s, a, b)|
      && |SessionsOfPair(s', a, b)| <= |SessionsOfPair(s, a, b)| {
      SubsetCard(TicketsOfPair(s', a, b), TicketsOfPair(s, a, b));
      SubsetCard(SessionsOfPair(s', a, b), SessionsOfPair(s, a, b));
    }
    forall n ensures |TicketsOfNode(s', n)| <= |TicketsOfNode(s, n)|
      && |SessionsOfNode(s', n)| <= |SessionsOfNode(s, n)| {
      SubsetCard(TicketsOfNode(s', n), TicketsOfNode(s, n));
      SubsetCard(SessionsOfNode(s', n), SessionsOfNode(s, n));
    }
    forall ip ensures |PendingOfIp(s', ip)| <= |PendingOfIp(s, ip)| {
      SubsetCard(PendingOfIp(s', ip), PendingOfIp(s, ip));
    }
  }

  lemma CleanupWithinQuota(c: Config, s: State, now: nat)
    requires Quotas(c, s)
    ensures Quotas(c, Cleanup(c, s, now))
  {
    SmallerKeeps(c, s, Cleanup(c, s, now));
  }

  lemma CleanupKeepsAll(c: Config, s: State, now: nat)
    requires Inv(s) && Quotas(c, s)
    ensures Inv(Cleanup(c, s, now)) && Quotas(c, Cleanup(c, s, now))
  {
    hide Inv, Quotas;
    CleanupKeeps(c, s, now);
    CleanupWithinQuota(c, s, now);
  }

  lemma ForwardWithinQuota(c: Config, s: State, source: SocketAddr, f: Family, now: nat)
    requires Quotas(c, s)
    ensures Quotas(c, Forward(c, s, source, f, now).0)
  {
    SmallerKeeps(c, s, Forward(c, s, source, f, now).0);
  }

  lemma IssueWithinQuota(c: Config, s: State, t: Token, k: Ticket)
    requires TicketQuotas(c, s) && MayIssue(c, s, t, k.first, k.second)
    ensures TicketQuotas(c, s.(tickets := s.tickets[t := k]))
  {
    var s' := s.(tickets := s.tickets[t := k]);
    GrowsByOne(s.tickets.Keys, s'.tickets.Keys, t);
    forall a, b | a != b ensures |TicketsOfPair(s', a, b)| <= TicketPairLimit(c) {
      IssuedPair(s, t, k, a, b);
    }
    forall n ensures |TicketsOfNode(s', n)| <= TicketNodeLimit(c) {
      if k.Names(n) {
        GrowsByOne(TicketsOfNode(s, n), TicketsOfNode(s', n), t);
      } else {
        assert TicketsOfNode(s', n) == TicketsOfNode(s, n);
      }
    }
  }

  /** A ticket is charged to its own unordered pair and to no other. */
  lemma IssuedPair(s: State, t: Token, k: Ticket, a: NodeId, b: NodeId)
    requires t !in s.tickets && a != b
    ensures var count := |TicketsOfPair(s.(tickets := s.tickets[t := k]), a, b)|;
            if k.Names(a) && k.Names(b) then count <= |TicketsOfPair(s, k.first, k.second)| + 1
            else count == |TicketsOfPair(s, a, b)|
  {
    var s' := s.(tickets := s.tickets[t := k]);
    if k.Names(a) && k.Names(b) {
      assert TicketsOfPair(s, a, b) == TicketsOfPair(s, k.first, k.second);
      GrowsByOne(TicketsOfPair(s, a, b), TicketsOfPair(s', a, b), t);
    } else {
      assert TicketsOfPair(s', a, b) == TicketsOfPair(s, a, b);
    }
  }

  /** Completing a half-bound arm changes no count: it was charged to both nodes already. */
  lemma SecondBindIsFree(s: State, k: SessionKey, side: Side, b: Bound, now: nat)
    requires Waiting(s, k, b.hello, side)
    ensures var s' := BindAt(s, k, side, b, now);
            && s'.sessions.Keys == s.sessions.Keys
            && (forall x, y :: SessionsOfPair(s', x, y) == SessionsOfPair(s, x, y))
            && (forall n :: SessionsOfNode(s', n) == SessionsOfNode(s, n))
  {
    var s' := BindAt(s, k, side, b, now);
    assert forall x, y :: s'.sessions[k].HasPair(x, y) == s.sessions[k].HasPair(x, y);
    assert forall n :: s'.sessions[k].HasNode(n) == s.sessions[k].HasNode(n);
  }

  lemma FreshBindWithinQuota(c: Config, s: State, k: SessionKey, side: Side, b: Bound, now: nat)
    requires SessionQuotas(c, s) && k !in s.sessions && SessionRoom(c, s, b.hello)
    ensures SessionQuotas(c, BindAt(s, k, side, b, now))
  {
    var s' := BindAt(s, k, side, b, now);
    GrowsByOne(s.sessions.Keys, s'.sessions.Keys, k);
    forall x, y ensures |SessionsOfPair(s', x, y)| <= SessionPairLimit(c) {
      FreshBindPair(s, k, side, b, now, x, y);
    }
    forall n ensures |SessionsOfNode(s', n)| <= SessionNodeLimit(c) {
      FreshBindNode(s, k, side, b, now, n);
    }
  }

  lemma FreshBindPair(s: State, k: SessionKey, side: Side, b: Bound, now: nat, x: NodeId, y: NodeId)
    requires k !in s.sessions
    ensures var count := |SessionsOfPair(BindAt(s, k, side, b, now), x, y)|;
            if SamePair(b.hello, x, y) then count <= |SessionsOfPair(s, b.hello.node, b.hello.peer)| + 1
            else count == |SessionsOfPair(s, x, y)|
  {
    var s' := BindAt(s, k, side, b, now);
    if SamePair(b.hello, x, y) {
      assert SessionsOfPair(s, x, y) == SessionsOfPair(s, b.hello.node, b.hello.peer);
      GrowsByOne(SessionsOfPair(s, x, y), SessionsOfPair(s', x, y), k);
    } else {
      assert SessionsOfPair(s', x, y) == SessionsOfPair(s, x, y);
    }
  }

  lemma FreshBindNode(s: State, k: SessionKey, side: Side, b: Bound, now: nat, n: NodeId)
    requires k !in s.sessions
    ensures var count := |SessionsOfNode(BindAt(s, k, side, b, now), n)|;
            if n == b.hello.node || n == b.hello.peer then count <= |SessionsOfNode(s, n)| + 1
            else count == |SessionsOfNode(s, n)|
  {
    var s' := BindAt(s, k, side, b, now);
    if n == b.hello.node || n == b.hello.peer {
      GrowsByOne(SessionsOfNode(s, n), SessionsOfNode(s', n), k);
    } else {
      assert SessionsOfNode(s', n) == SessionsOfNode(s, n);
    }
  }

  lemma HelloWithinQuota(c: Config, cr: Crypto, s: State, h: Hello, source: SocketAddr, f: Family, now: nat, nonce: nat)
    requires Quotas(c, s)
    ensures Quotas(c, HelloStep(c, cr, s, h, source, f, now, nonce).0)
  {
    hide HelloStep, TicketQuotas, SessionQuotas, PendingQuotas, ChallengeReply, ValidateHello, PendingOfIp,
      AvailableArm;
    HelloShape(c, cr, s, h, source, f, now, nonce);
    var s' := HelloStep(c, cr, s, h, source, f, now, nonce).0;
    if s' != s {
      PendingWithinQuota(c, s, s', source);
      SameElsewhere(c, s, s');
    }
  }

  lemma PendingWithinQuota(c: Config, s: State, s': State, source: SocketAddr)
    requires PendingQuotas(c, s) && s'.pending.Keys == s.pending.Keys + {source}
    requires |s.pending| < c.maxSessions * 2 && |PendingOfIp(s, source.Ip())| < c.maxPendingPerIp
    ensures PendingQuotas(c, s')
  {
    GrowsByOne(s.pending.Keys, s'.pending.Keys, source);
    forall ip ensures |PendingOfIp(s', ip)| <= c.maxPendingPerIp {
      if ip == source.Ip() {
        GrowsByOne(PendingOfIp(s, ip), PendingOfIp(s', ip), source);
      } else {
        assert PendingOfIp(s', ip) == PendingOfIp(s, ip);
      }
    }
  }

  lemma SameElsewhere(c: Config, s: State, s': State)
    requires TicketQuotas(c, s) && SessionQuotas(c, s) && s'.tickets == s.tickets && s'.sessions == s.sessions
    ensures TicketQuotas(c, s') && SessionQuotas(c, s')
  {
    assert forall a, b :: TicketsOfPair(s', a, b) == TicketsOfPair(s, a, b)
                       && SessionsOfPair(s', a, b) == SessionsOfPair(s, a, b);
    assert forall n :: TicketsOfNode(s', n) == TicketsOfNode(s, n) && SessionsOfNode(s', n) == SessionsOfNode(s, n);
  }

  lemma RegisterWithinQuota(c: Config, cr: Crypto, s: State, ch: Challenge, sig: Signature, source: SocketAddr,
                            f: Family, now: nat)
    requires Quotas(c, s)
    ensures Quotas(c, RegisterStep(c, cr, s, ch, sig, source, f, now).0)
  {
    var s' := RegisterStep(c, cr, s, ch, sig, source, f, now).0;
    if Proves(cr, s, ch, sig, source, f, now) {
      var side := s.pending[source].side;
      var s1 := s.(pending := s.pending - {source});
      SmallerKeeps(c, s, s1);
      ArmShape(c, s1, ch.hello, side);
      if s' != s1 {
        var k := AvailableArm(c, s1, ch.hello, side).value;
        var b := Bound(ch.hello, source);
        if Waiting(s1, k, ch.hello, side) {
          SecondBindIsFree(s1, k, side, b, now);
        } else {
          FreshBindWithinQuota(c, s1, k, side, b, now);
        }
        SameTicketsAndPending(c, s1, s');
      }
    }
  }

  lemma SameTicketsAndPending(c: Config, s: State, s': State)
    requires TicketQuotas(c, s) && PendingQuotas(c, s) && s'.tickets == s.tickets && s'.pending == s.pending
    ensures TicketQuotas(c, s') && PendingQuotas(c, s')
  {
    assert forall a, b :: TicketsOfPair(s', a, b) == TicketsOfPair(s, a, b);
    assert forall n :: TicketsOfNode(s', n) == TicketsOfNode(s, n);
    assert forall ip :: PendingOfIp(s', ip) == PendingOfIp(s, ip);
  }

  lemma IssueKeepsQuotas(c: Config, s: State, later: nat, t: Token, a: NodeId, b: NodeId)
    requires Quotas(c, s)
    ensures MayIssue(c, s, t, a, b) ==> Quotas(c, s.(tickets := s.tickets[t := Ticket(a, b, later + c.ticketTtl)]))
  {
    if MayIssue(c, s, t, a, b) {
      var k := Ticket(a, b, later + c.ticketTtl);
      IssueWithinQuota(c, s, t, k);
      var s' := s.(tickets := s.tickets[t := k]);
      assert forall x, y :: SessionsOfPair(s', x, y) == SessionsOfPair(s, x, y);
      assert forall n :: SessionsOfNode(s', n) == SessionsOfNode(s, n);
      assert forall ip :: PendingOfIp(s', ip) == PendingOfIp(s, ip);
    }
  }

  lemma StepWithinQuota(c: Config, cr: Crypto, s: State, e: Event)
    requires Quotas(c, s)
    ensures Quotas(c, Step(c, cr, s, e).0)
  {
    hide Quotas, HelloStep, RegisterStep, MayIssue;
    var s1 := Cleanup(c, s, e.now);
    CleanupWithinQuota(c, s, e.now);
    match e {
      case IssueEvent(now, later, t, a, b) =>
        IssueKeepsQuotas(c, s1, later, t, a, b);
      case ControlEvent(now, p, source, f, nonce) =>
        if p.HelloPacket? {
          HelloWithinQuota(c, cr, s1, p.hello, source, f, now, nonce);
        } else if p.RegisterPacket? {
          RegisterWithinQuota(c, cr, s1, p.challenge, p.signature, source, f, now);
        }
      case ForwardEvent(now, source, f) => ForwardWithinQuota(c, s, source, f, now);
      case Tick(now) =>
    }
  }

  /** All the quotas at once, in every state of every run. */
  lemma {:induction false} QuotasAlwaysHold(c: Config, cr: Crypto, es: seq<Event>, i: nat)
    requires i <= |es|
    ensures Quotas(c, StateAt(c, cr, es, i))
    ensures forall t :: |ArmsOfToken(StateAt(c, cr, es, i), t)| <= MAX_ARMS_PER_TICKET
  {
    hide Step;
    if i == 0 {
      EmptyWithinQuota(c);
    } else {
      QuotasAlwaysHold(c, cr, es, i - 1);
      StepWithinQuota(c, cr, StateAt(c, cr, es, i - 1), es[i - 1]);
    }
    Reachable(c, cr, es, i);
    forall t ensures |ArmsOfToken(StateAt(c, cr, es, i), t)| <= MAX_ARMS_PER_TICKET {
      FourArmsAtMost(StateAt(c, cr, es, i), t);
    }
  }

  lemma EmptyWithinQuota(c: Config)
    ensures Quotas(c, EMPTY)
  {
    assert forall a, b :: TicketsOfPair(EMPTY, a, b) == {} && SessionsOfPair(EMPTY, a, b) == {};
    assert forall n :: TicketsOfNode(EMPTY, n) == {} && SessionsOfNode(EMPTY, n) == {};
    assert forall ip :: PendingOfIp(EMPTY, ip) == {};
  }

  lemma FourArmsAtMost(s: State, t: Token)
    requires SessionsWellNamed(s)
    ensures |ArmsOfToken(s, t)| <= MAX_ARMS_PER_TICKET
  {
    var all := {SessionKey(t, 0), SessionKey(t, 1), SessionKey(t, 2), SessionKey(t, 3)};
    forall k | k in ArmsOfToken(s, t) ensures k in all {
      assert WellNamed(k, s.sessions[k]);
    }
    SubsetCard(ArmsOfToken(s, t), all);
  }
}
