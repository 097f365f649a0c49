/** Where a bound socket comes from: the run's own Hello and Register events. */
module RelayProvenance {
  import opened Common
  import opened Net
  import opened RelayModel
  import opened RelayInvariants

  /** The event answers a Hello from `source` with the fresh challenge `ch` and records it. */
  ghost predicate Issues(c: Config, cr: Crypto, s: State, e: Event, source: SocketAddr, ch: Challenge) {
    && e.ControlEvent? && e.source == source
    && e.packet == HelloPacket(ch.hello)
    && ch == Challenge(ch.hello, e.nonce, source)
    && Step(c, cr, s, e).1 == Answered(ChallengeReply(ch, source))
    && source in Step(c, cr, s, e).0.pending
    && Step(c, cr, s, e).0.pending[source].challenge == ch
    && Step(c, cr, s, e).0.pending[source].issued == e.now
  }

  /** The event is a Register from `source` whose signature over `ch` verifies under the key of
      the node it names, while a live ticket joins that node, on this side, to its peer. */
  ghost predicate Admits(c: Config, cr: Crypto, s: State, e: Event, source: SocketAddr, ch: Challenge, side: Side) {
    && e.ControlEvent? && e.source == source
    && e.packet.RegisterPacket? && e.packet.challenge == ch
    && ch.source == source
    && cr.verifies(ch, e.packet.signature)
    && cr.nodeOf(ch.hello.publicKey) == Some(ch.hello.node)
    && source in s.pending && s.pending[source].challenge == ch
    && Since(e.now, s.pending[source].issued) < CHALLENGE_TTL
    && TicketLive(s.tickets, ch.hello.token, e.now)
    && s.tickets[ch.hello.token].Node(side) == ch.hello.node
    && s.tickets[ch.hello.token].Node(1 - side) == ch.hello.peer
  }

  // ------------------------------------------------------------ one step

  /** A pending challenge stays as it is or is issued afresh; its source is not bound meanwhile. */
  lemma PendingStep(c: Config, cr: Crypto, s: State, e: Event, source: SocketAddr)
    requires Inv(s) && source in Step(c, cr, s, e).0.pending
    ensures !NewlyBinds(c, cr, s, e, source)
    ensures var s' := Step(c, cr, s, e).0;
            || (source in s.pending && s'.pending[source] == s.pending[source])
            || Issues(c, cr, s, e, source, s'.pending[source].challenge)
  {
    hide Step, Issues;
    PendingUnbound(c, cr, s, e, source);
    if !(source in s.pending && Step(c, cr, s, e).0.pending[source] == s.pending[source]) {
      PendingSource(c, cr, s, e, source);
    }
  }

  lemma PendingUnbound(c: Config, cr: Crypto, s: State, e: Event, source: SocketAddr)
    requires Inv(s) && source in Step(c, cr, s, e).0.pending
    ensures source !in Step(c, cr, s, e).0.sources
  {
    hide Step;
    StepKeeps(c, cr, s, e);
  }

  lemma PendingSource(c: Config, cr: Crypto, s: State, e: Event, source: SocketAddr)
    requires source in Step(c, cr, s, e).0.pending
    requires !(source in s.pending && Step(c, cr, s, e).0.pending[source] == s.pending[source])
    ensures Issues(c, cr, s, e, source, Step(c, cr, s, e).0.pending[source].challenge)
  {
    hide HelloStep, RegisterStep, SweptSessions, SweptSources, SweptTickets, KeepsPending, MayIssue, Forwards;
    var s1 := Cleanup(c, s, e.now);
    assert forall a :: a in s1.pending ==> a in s.pending && s1.pending[a] == s.pending[a];
    if e.ControlEvent? && e.packet.HelloPacket? {
      HelloShape(c, cr, s1, e.packet.hello, e.source, e.family, e.now, e.nonce);
    } else if e.ControlEvent? && e.packet.RegisterPacket? {
      RegisterShape(c, cr, s1, e.packet.challenge, e.packet.signature, e.source, e.family, e.now);
    }
  }

  /** A source either stays bound as it was or is bound by a Register that earned it. */
  lemma SourceStep(c: Config, cr: Crypto, s: State, e: Event, source: SocketAddr)
    requires Inv(s) && source in Step(c, cr, s, e).0.sources
    ensures source in s.sources ==> SameBinding(s, Step(c, cr, s, e).0, source)
    ensures source !in s.sources ==>
              && e.ControlEvent? && e.packet.RegisterPacket?
              && Admits(c, cr, s, e, source, e.packet.challenge, Step(c, cr, s, e).0.sources[source].1)
              && BoundOf(Step(c, cr, s, e).0, source) == Some(Bound(e.packet.challenge.hello, source))
  {
    if e.ControlEvent? && e.packet.RegisterPacket? {
      EarnedSource(c, cr, s, e, source);
    } else {
      hide Step, Inv;
      QuietSource(c, cr, s, e, source);
    }
  }

  ghost predicate SameBinding(s: State, s': State, source: SocketAddr) {
    && source in s.sources && source in s'.sources
    && s'.sources[source] == s.sources[source]
    && BoundOf(s', source) == BoundOf(s, source)
  }

  lemma EarnedSource(c: Config, cr: Crypto, s: State, e: Event, source: SocketAddr)
    requires SourcesAreBound(s) && PendingIsOwn(s)
    requires e.ControlEvent? && e.packet.RegisterPacket? && source in Step(c, cr, s, e).0.sources
    ensures source in s.sources ==> SameBinding(s, Step(c, cr, s, e).0, source)
    ensures source !in s.sources ==>
              && Admits(c, cr, s, e, source, e.packet.challenge, Step(c, cr, s, e).0.sources[source].1)
              && BoundOf(Step(c, cr, s, e).0, source) == Some(Bound(e.packet.challenge.hello, source))
  {
    hide RegisterStep, HelloStep;
    var s1 := Cleanup(c, s, e.now);
    RegisterSource(c, cr, s1, e, source);
    if source in s1.sources {
      assert BoundOf(s1, source) == BoundOf(s, source);
    }
  }

  /** Nothing but a Register adds a source; forwarding only refreshes its session. */
  lemma QuietSource(c: Config, cr: Crypto, s: State, e: Event, source: SocketAddr)
    requires source in Step(c, cr, s, e).0.sources && !(e.ControlEvent? && e.packet.RegisterPacket?)
    ensures SameBinding(s, Step(c, cr, s, e).0, source)
  {
    hide HelloStep, RegisterStep, SweptTickets, SweptPending, KeepsSession, MayIssue;
    var s1 := Cleanup(c, s, e.now);
    if e.ControlEvent? && e.packet.HelloPacket? {
      HelloShape(c, cr, s1, e.packet.hello, e.source, e.family, e.now, e.nonce);
    }
  }

  lemma RegisterSource(c: Config, cr: Crypto, s: State, e: Event, source: SocketAddr)
    requires SourcesAreBound(s)
    requires e.ControlEvent? && e.packet.RegisterPacket?
    requires source in RegisterStep(c, cr, s, e.packet.challenge, e.packet.signature, e.source, e.family,
                                    e.now).0.sources
    ensures var ch := e.packet.challenge;
            var s' := RegisterStep(c, cr, s, ch, e.packet.signature, e.source, e.family, e.now).0;
            if source in s.sources then SameBinding(s, s', source)
            else
              && source == e.source
              && Proves(cr, s, ch, e.packet.signature, source, e.family, e.now)
              && s'.sources[source].1 == s.pending[source].side
              && BoundOf(s', source) == Some(Bound(ch.hello, source))
  {
    var ch := e.packet.challenge;
    if Proves(cr, s, ch, e.packet.signature, e.source, e.family, e.now) {
      ArmShape(c, s.(pending := s.pending - {e.source}), ch.hello, s.pending[e.source].side);
    }
  }

  // ------------------------------------------------------------ whole runs

  /** A pending challenge was issued by exactly one earlier event, and has neither
      changed nor been spent since. */
  lemma {:induction false} PendingOrigin(c: Config, cr: Crypto, es: seq<Event>, i: nat, source: SocketAddr)
    returns (j: nat)
    requires i <= |es| && source in StateAt(c, cr, es, i).pending
    ensures j < i
      && Issues(c, cr, StateAt(c, cr, es, j), es[j], source, StateAt(c, cr, es, i).pending[source].challenge)
    ensures forall m :: j < m < i ==> !NewlyBinds(c, cr, StateAt(c, cr, es, m), es[m], source)
  {
    hide Step, Issues, NewlyBinds, Inv;
    assert i > 0;
    var s := StateAt(c, cr, es, i - 1);
    Reachable(c, cr, es, i - 1);
    PendingStep(c, cr, s, es[i - 1], source);
    if source in s.pending && StateAt(c, cr, es, i).pending[source] == s.pending[source] {
      j := PendingOrigin(c, cr, es, i - 1, source);
    } else {
      j := i - 1;
    }
  }

  /** Every bound socket was bound by one Register, verified against the challenge this
      server had issued to that very source, under a ticket live at that moment; no other
      event has bound the source since, and none did between the challenge and the Register. */
  lemma {:induction false} BoundSocketsWereAdmitted(c: Config, cr: Crypto, es: seq<Event>, i: nat, source: SocketAddr)
    returns (j: nat, n: nat, ch: Challenge)
    requires i <= |es| && source in StateAt(c, cr, es, i).sources
    ensures j < n < i
    ensures Issues(c, cr, StateAt(c, cr, es, j), es[j], source, ch)
    ensures NewlyBinds(c, cr, StateAt(c, cr, es, n), es[n], source)
    ensures Admits(c, cr, StateAt(c, cr, es, n), es[n], source, ch, StateAt(c, cr, es, i).sources[source].1)
    ensures BoundOf(StateAt(c, cr, es, i), source) == Some(Bound(ch.hello, source))
    ensures forall m :: j < m < i && m != n ==> !NewlyBinds(c, cr, StateAt(c, cr, es, m), es[m], source)
  {
    hide Step, Issues, Inv;
    assert i > 0;
    var s := StateAt(c, cr, es, i - 1);
    Reachable(c, cr, es, i - 1);
    SourceStep(c, cr, s, es[i - 1], source);
    if source in s.sources {
      j, n, ch := BoundSocketsWereAdmitted(c, cr, es, i - 1, source);
    } else {
      n := i - 1;
      ch := es[n].packet.challenge;
      j := PendingOrigin(c, cr, es, n, source);
    }
  }

  /** A challenge is spent at most once: two binds of one source are separated by a fresh challenge. */
  lemma ChallengesBindOnce(c: Config, cr: Crypto, es: seq<Event>, n: nat, n': nat, source: SocketAddr)
    returns (j: nat, ch: Challenge)
    requires n < n' < |es|
    requires NewlyBinds(c, cr, StateAt(c, cr, es, n), es[n], source)
    requires NewlyBinds(c, cr, StateAt(c, cr, es, n'), es[n'], source)
    ensures n < j < n'
    ensures Issues(c, cr, StateAt(c, cr, es, j), es[j], source, ch)
    ensures Admits(c, cr, StateAt(c, cr, es, n'), es[n'], source, ch, StateAt(c, cr, es, n' + 1).sources[source].1)
  {
    hide Step, Inv;
    Reachable(c, cr, es, n);
    SourceStep(c, cr, StateAt(c, cr, es, n), es[n], source);
    var bound;
    j, bound, ch := BoundSocketsWereAdmitted(c, cr, es, n' + 1, source);
  }

  /** While a session of a token lives, no ticket for that token can be issued, and
      any ticket it still has joins the session's own two nodes. */
  lemma LiveTokensAreNotReissued(c: Config, cr: Crypto, es: seq<Event>, i: nat, k: SessionKey, now: nat, later: nat,
                                 a: NodeId, b: NodeId)
    requires i <= |es|
    requires k in StateAt(c, cr, es, i).sessions
      && KeepsSession(c, StateAt(c, cr, es, i).tickets, k, StateAt(c, cr, es, i).sessions[k], now)
    ensures !Issue(c, StateAt(c, cr, es, i), now, later, k.token, a, b).1
    ensures var s := StateAt(c, cr, es, i);
            k.token in s.tickets ==>
              s.sessions[k].HasPair(s.tickets[k.token].first, s.tickets[k.token].second)
  {
    hide Step;
    Reachable(c, cr, es, i);
    var s := StateAt(c, cr, es, i);
    assert k in ArmsOfToken(Cleanup(c, s, now), k.token);
    assert WellNamed(k, s.sessions[k]);
    if k.token in s.tickets {
      var side: Side := if s.sessions[k].side0.Some? then 0 else 1;
      var h := s.sessions[k].At(side).value.hello;
      assert s.tickets[k.token].Node(side) == h.node && s.tickets[k.token].Node(1 - side) == h.peer;
      assert SamePair(h, s.tickets[k.token].first, s.tickets[k.token].second);
    }
  }
}
