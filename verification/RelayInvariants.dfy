/** What every reachable relay state satisfies: the two indexes are exact
    inverses, a ready session's sides name each other under one token, and a
    ticket never disagrees with a live session of its token. */
module RelayInvariants {
  import opened Common
  import opened Net
  import opened RelayModel

  /** Every indexed source is the bound side it points at. */
  ghost predicate SourcesAreBound(s: State) {
    forall a :: a in s.sources ==>
      && s.sources[a].0 in s.sessions
      && s.sessions[s.sources[a].0].At(s.sources[a].1).Some?
      && s.sessions[s.sources[a].0].At(s.sources[a].1).value.source == a
  }

  /** Every bound side is indexed under its own source. */
  ghost predicate BoundAreSources(s: State) {
    forall k, i: Side :: k in s.sessions && s.sessions[k].At(i).Some? ==>
      && s.sessions[k].At(i).value.source in s.sources
      && s.sources[s.sessions[k].At(i).value.source] == (k, i)
  }

  ghost predicate WellNamed(k: SessionKey, x: Session) {
    && k.arm < MAX_ARMS_PER_TICKET
    && (x.side0.Some? || x.side1.Some?)
    && (forall i: Side :: x.At(i).Some? ==>
          x.At(i).value.hello.token == k.token && x.At(i).value.hello.node != x.At(i).value.hello.peer)
    && (x.Ready() ==> x.side0.value.hello.node == x.side1.value.hello.peer)
    && (x.Ready() ==> x.side0.value.hello.peer == x.side1.value.hello.node)
  }

  ghost predicate SessionsWellNamed(s: State) {
    forall k :: k in s.sessions ==> WellNamed(k, s.sessions[k])
  }

  /** A live session's token cannot be a ticket of another pair, or of the same pair turned round. */
  ghost predicate TicketsAgree(s: State) {
    forall k, i: Side :: k in s.sessions && s.sessions[k].At(i).Some? && k.token in s.tickets ==>
      && s.tickets[k.token].Node(i) == s.sessions[k].At(i).value.hello.node
      && s.tickets[k.token].Node(1 - i) == s.sessions[k].At(i).value.hello.peer
  }

  ghost predicate TicketsJoinTwo(s: State) {
    forall t :: t in s.tickets ==> s.tickets[t].first != s.tickets[t].second
  }

  ghost predicate PendingIsOwn(s: State) {
    forall a :: a in s.pending ==>
      && s.pending[a].challenge.source == a
      && s.pending[a].session == SessionKey(s.pending[a].challenge.hello.token, 0)
      && a !in s.sources
  }

  ghost predicate Inv(s: State) {
    && SourcesAreBound(s)
    && BoundAreSources(s)
    && SessionsWellNamed(s)
    && TicketsAgree(s)
    && TicketsJoinTwo(s)
    && PendingIsOwn(s)
  }

  lemma CleanupKeeps(c: Config, s: State, now: nat)
    requires Inv(s)
    ensures Inv(Cleanup(c, s, now))
  {}

  lemma IssueKeeps(c: Config, s: State, now: nat, later: nat, t: Token, a: NodeId, b: NodeId)
    requires Inv(s)
    ensures Inv(Issue(c, s, now, later, t, a, b).0)
  {
    CleanupKeeps(c, s, now);
    var s1 := Cleanup(c, s, now);
    if MayIssue(c, s1, t, a, b) {
      assert forall k :: k in s1.sessions ==> k.token != t by {
        forall k | k in s1.sessions ensures k.token != t {
          assert k !in ArmsOfToken(s1, t);
        }
      }
    }
  }

  /** The arm an admitted socket gets: a waiting one of its token, or a fresh one within quota. */
  lemma ArmShape(c: Config, s: State, h: Hello, side: Side)
    ensures AvailableArm(c, s, h, side).Some? ==>
              var k := AvailableArm(c, s, h, side).value;
              && k.token == h.token
              && (Waiting(s, k, h, side) || (k !in s.sessions && k.arm < MAX_ARMS_PER_TICKET && SessionRoom(c, s, h)))
  {
    FreeArmShape(s, h.token, 0);
  }

  lemma FreeArmShape(s: State, t: Token, arm: nat)
    ensures FirstFreeArm(s, t, arm).Some? ==>
              var k := FirstFreeArm(s, t, arm).value;
              k.token == t && k !in s.sessions && k.arm < MAX_ARMS_PER_TICKET
    decreases MAX_ARMS_PER_TICKET - arm
  {}

  /** A hello changes nothing, or records one fresh challenge for a source unknown until then. */
  ghost predicate Challenges(c: Config, cr: Crypto, s: State, h: Hello, source: SocketAddr, now: nat, nonce: nat,
                             s': State, rs: Replies) {
    var side := ValidateHello(cr, s, h, now);
    && side.Some? && source !in s.sources && source !in s.pending
    && PendingRoom(c, s, h, source, side.value)
    && s' == s.(pending := s.pending[source := Pending(Challenge(h, nonce, source), now, SessionKey(h.token, 0),
                                                       side.value)])
    && rs == ChallengeReply(Challenge(h, nonce, source), source)
  }

  lemma HelloShape(c: Config, cr: Crypto, s: State, h: Hello, source: SocketAddr, f: Family, now: nat, nonce: nat)
    ensures var (s', rs) := HelloStep(c, cr, s, h, source, f, now, nonce);
            s' == s || Challenges(c, cr, s, h, source, now, nonce, s', rs)
  {
    hide ValidateHello, PendingRoom, Accepts, ReadyPackets, AddressedTo, BoundOf, ChallengeReply;
  }

  lemma HelloKeeps(c: Config, cr: Crypto, s: State, h: Hello, source: SocketAddr, f: Family, now: nat, nonce: nat)
    requires Inv(s)
    ensures Inv(HelloStep(c, cr, s, h, source, f, now, nonce).0)
  {
    hide HelloStep, PendingRoom, ChallengeReply;
    HelloShape(c, cr, s, h, source, f, now, nonce);
  }

  /** A Register touches no ticket and spends at most its own challenge. */
  lemma RegisterShape(c: Config, cr: Crypto, s: State, ch: Challenge, sig: Signature, source: SocketAddr, f: Family,
                      now: nat)
    ensures var s' := RegisterStep(c, cr, s, ch, sig, source, f, now).0;
            && s'.tickets == s.tickets
            && (s'.pending == s.pending || (source in s.pending && s'.pending == s.pending - {source}))
  {
    hide AvailableArm, ReadyPackets, ValidateHello;
  }

  /** Binding a socket to a waiting or fresh arm. */
  lemma BindKeeps(cr: Crypto, s: State, k: SessionKey, side: Side, b: Bound, now: nat)
    requires Inv(s) && b.source !in s.sources && b.source !in s.pending
    requires ValidateHello(cr, s, b.hello, now) == Some(side)
    requires k.token == b.hello.token
    requires Waiting(s, k, b.hello, side) || (k !in s.sessions && k.arm < MAX_ARMS_PER_TICKET)
    ensures Inv(BindAt(s, k, side, b, now))
  {
    BindIndexed(s, k, side, b, now);
    BindNamed(s, k, side, b, now);
    BindAgrees(cr, s, k, side, b, now);
  }

  lemma BindNamed(s: State, k: SessionKey, side: Side, b: Bound, now: nat)
    requires SessionsWellNamed(s) && b.hello.node != b.hello.peer && k.token == b.hello.token
    requires Waiting(s, k, b.hello, side) || (k !in s.sessions && k.arm < MAX_ARMS_PER_TICKET)
    ensures SessionsWellNamed(BindAt(s, k, side, b, now))
  {
    assert k in s.sessions ==> WellNamed(k, s.sessions[k]);
    assert WellNamed(k, BindAt(s, k, side, b, now).sessions[k]);
  }

  lemma BindAgrees(cr: Crypto, s: State, k: SessionKey, side: Side, b: Bound, now: nat)
    requires TicketsAgree(s) && ValidateHello(cr, s, b.hello, now) == Some(side) && k.token == b.hello.token
    ensures TicketsAgree(BindAt(s, k, side, b, now))
  {
    var s' := BindAt(s, k, side, b, now);
    forall x, i: Side | x in s'.sessions && s'.sessions[x].At(i).Some? && x.token in s'.tickets
      ensures s'.tickets[x.token].Node(i) == s'.sessions[x].At(i).value.hello.node
           && s'.tickets[x.token].Node(1 - i) == s'.sessions[x].At(i).value.hello.peer
    {
      if x != k || i != side {
        assert x in s.sessions && s.sessions[x].At(i) == s'.sessions[x].At(i);
      }
    }
  }

  lemma BindIndexed(s: State, k: SessionKey, side: Side, b: Bound, now: nat)
    requires SourcesAreBound(s) && BoundAreSources(s) && b.source !in s.sources
    requires k in s.sessions ==> s.sessions[k].At(side).None?
    ensures SourcesAreBound(BindAt(s, k, side, b, now))
    ensures BoundAreSources(BindAt(s, k, side, b, now))
  {
    var s' := BindAt(s, k, side, b, now);
    forall x, i: Side | x in s'.sessions && s'.sessions[x].At(i).Some?
      ensures s'.sessions[x].At(i).value.source in s'.sources && s'.sources[s'.sessions[x].At(i).value.source] == (x, i)
    {
      if x != k || i != side {
        assert x in s.sessions && s.sessions[x].At(i) == s'.sessions[x].At(i);
      }
    }
  }

  lemma RegisterKeeps(c: Config, cr: Crypto, s: State, ch: Challenge, sig: Signature, source: SocketAddr, f: Family,
                      now: nat)
    requires Inv(s)
    ensures Inv(RegisterStep(c, cr, s, ch, sig, source, f, now).0)
  {
    if Proves(cr, s, ch, sig, source, f, now) {
      var side := s.pending[source].side;
      var s1 := s.(pending := s.pending - {source});
      assert Inv(s1);
      ArmShape(c, s1, ch.hello, side);
      var arm := AvailableArm(c, s1, ch.hello, side);
      if source !in s1.sources && arm.Some? {
        BindKeeps(cr, s1, arm.value, side, Bound(ch.hello, source), now);
      }
    }
  }

  lemma ForwardKeeps(c: Config, s: State, source: SocketAddr, f: Family, now: nat)
    requires Inv(s)
    ensures Inv(Forward(c, s, source, f, now).0)
  {
    var s' := Forward(c, s, source, f, now).0;
    assert forall k, i: Side :: k in s.sessions ==> s'.sessions[k].At(i) == s.sessions[k].At(i);
    assert forall k :: k in s.sessions ==> WellNamed(k, s'.sessions[k]);
  }

  lemma StepKeeps(c: Config, cr: Crypto, s: State, e: Event)
    requires Inv(s)
    ensures Inv(Step(c, cr, s, e).0)
  {
    CleanupKeeps(c, s, e.now);
    match e {
      case IssueEvent(now, later, t, a, b) => IssueKeeps(c, s, now, later, t, a, b);
      case ControlEvent(now, p, source, f, nonce) =>
        var s1 := Cleanup(c, s, now);
        if p.HelloPacket? {
          HelloKeeps(c, cr, s1, p.hello, source, f, now, nonce);
        } else if p.RegisterPacket? {
          RegisterKeeps(c, cr, s1, p.challenge, p.signature, source, f, now);
        }
      case ForwardEvent(now, source, f) => ForwardKeeps(c, s, source, f, now);
      case Tick(now) =>
    }
  }

  /** Every state of every run satisfies the invariant. No clock order is needed. */
  lemma {:induction false} Reachable(c: Config, cr: Crypto, es: seq<Event>, i: nat)
    requires i <= |es|
    ensures Inv(StateAt(c, cr, es, i))
  {
    if i > 0 {
      Reachable(c, cr, es, i - 1);
      StepKeeps(c, cr, StateAt(c, cr, es, i - 1), es[i - 1]);
    }
  }
}
