/** Who a relayed datagram may reach, over whole runs. */
module RelayForwarding {
  import opened Common
  import opened Net
  import opened RelayModel
  import opened RelayInvariants

  /** A route leads to the other socket, which at that instant leads straight back;
      the two were admitted under one token and named each other. */
  lemma RouteIsMutual(c: Config, cr: Crypto, es: seq<Event>, i: nat, source: SocketAddr, f: Family, now: nat)
    requires i <= |es|
    ensures var s := StateAt(c, cr, es, i);
            var (s', to) := Forward(c, s, source, f, now);
            to.Some? ==>
              && to.value != source
              && Forward(c, s, to.value, FamilyOf(to.value), now).1 == Some(source)
              && Forward(c, s', to.value, FamilyOf(to.value), now).1 == Some(source)
              && source in s.sources && to.value in s.sources
              && BoundOf(s, source).Some? && BoundOf(s, to.value).Some?
              && BoundOf(s, source).value.hello.token == BoundOf(s, to.value).value.hello.token
              && BoundOf(s, source).value.hello.node == BoundOf(s, to.value).value.hello.peer
              && BoundOf(s, source).value.hello.peer == BoundOf(s, to.value).value.hello.node
  {
    hide Step;
    Reachable(c, cr, es, i);
    var s := StateAt(c, cr, es, i);
    if Forwards(c, s, source, f, now) {
      var (k, side) := s.sources[source];
      assert WellNamed(k, s.sessions[k]);
      var d := s.sessions[k].At(1 - side).value.source;
      assert s.sources[d] == (k, 1 - side);
      assert s.sessions[k].At(1 - (1 - side)) == s.sessions[k].At(side);
    }
  }

  /** The event's cleanup finds the session idle for the whole timeout. */
  ghost predicate Retires(c: Config, s: State, e: Event, k: SessionKey) {
    !e.ForwardEvent? && k in s.sessions && Idle(c, s.sessions[k], e.now)
  }

  ghost predicate SameSides(s: State, s': State, k: SessionKey) {
    && k in s.sessions && k in s'.sessions
    && s.sessions[k].side0 == s'.sessions[k].side0
    && s.sessions[k].side1 == s'.sessions[k].side1
  }

  lemma ReadyKept(c: Config, cr: Crypto, s: State, e: Event, k: SessionKey)
    requires k in s.sessions && s.sessions[k].Ready() && !Retires(c, s, e, k)
    ensures SameSides(s, Step(c, cr, s, e).0, k)
  {
    if !e.ForwardEvent? {
      var s1 := Cleanup(c, s, e.now);
      assert k in s1.sessions && s1.sessions[k] == s.sessions[k];
      hide Cleanup;
      if e.ControlEvent? && e.packet.RegisterPacket?
         && Proves(cr, s1, e.packet.challenge, e.packet.signature, e.source, e.family, e.now)
      {
        ArmShape(c, s1.(pending := s1.pending - {e.source}), e.packet.challenge.hello, s1.pending[e.source].side);
      }
    }
  }

  /** A ready session's destinations never change until it is retired. */
  lemma {:induction false} DestinationIsStable(c: Config, cr: Crypto, es: seq<Event>, i: nat, j: nat, k: SessionKey)
    requires i <= j <= |es|
    requires k in StateAt(c, cr, es, i).sessions && StateAt(c, cr, es, i).sessions[k].Ready()
    requires forall n :: i <= n < j ==> !Retires(c, StateAt(c, cr, es, n), es[n], k)
    ensures SameSides(StateAt(c, cr, es, i), StateAt(c, cr, es, j), k)
  {
    hide Step;
    if i < j {
      DestinationIsStable(c, cr, es, i, j - 1, k);
      var s := StateAt(c, cr, es, j - 1);
      assert !Retires(c, s, es[j - 1], k);
      ReadyKept(c, cr, s, es[j - 1], k);
      assert SameSides(StateAt(c, cr, es, i), StateAt(c, cr, es, j), k);
    }
  }

  /** The source's session, if it still has one, has outlived its idle timeout at `t`. */
  ghost predicate Muted(c: Config, s: State, source: SocketAddr, t: nat) {
    source in s.sources && s.sources[source].0 in s.sessions ==> Idle(c, s.sessions[s.sources[source].0], t)
  }

  /** An event at or after `t` sweeps an expired session away or leaves it expired. Only a bind
      gives the socket another one: while it is bound it has no challenge to spend. */
  lemma MutedKept(c: Config, cr: Crypto, s: State, e: Event, source: SocketAddr, t: nat)
    requires Inv(s) && Muted(c, s, source, t) && t <= e.now && !NewlyBinds(c, cr, s, e, source)
    ensures Muted(c, Step(c, cr, s, e).0, source, t)
  {
    if e.ForwardEvent? {
      hide Inv;
    } else if source in s.sources {
      SweptStaysUnbound(c, cr, s, e, source);
    }
  }

  lemma SweptStaysUnbound(c: Config, cr: Crypto, s: State, e: Event, source: SocketAddr)
    requires Inv(s) && !e.ForwardEvent? && source in s.sources
    requires s.sources[source].0 in s.sessions && Idle(c, s.sessions[s.sources[source].0], e.now)
    ensures source !in Step(c, cr, s, e).0.sources
  {
    hide HelloStep, RegisterStep, SweptTickets, MayIssue;
    var s1 := Cleanup(c, s, e.now);
    assert source !in s1.sources && source !in s1.pending;
    if e.ControlEvent? && e.packet.HelloPacket? {
      HelloShape(c, cr, s1, e.packet.hello, e.source, e.family, e.now, e.nonce);
    } else if e.ControlEvent? && e.packet.RegisterPacket? {
      RegisterBindsItsSource(c, cr, s1, e.packet.challenge, e.packet.signature, e.source, e.family, e.now, source);
    }
  }

  lemma RegisterBindsItsSource(c: Config, cr: Crypto, s: State, ch: Challenge, sig: Signature,
                               source: SocketAddr, f: Family, now: nat, other: SocketAddr)
    requires other !in s.pending && other !in s.sources
    ensures other !in RegisterStep(c, cr, s, ch, sig, source, f, now).0.sources
  {
    hide AvailableArm, ReadyPackets, ValidateHello;
  }

  /** Once idle-expired a session never forwards again: its sockets stay silent, whatever
      happens and whatever they send meanwhile, until an event binds them anew. */
  lemma ExpiredStaysSilent(c: Config, cr: Crypto, es: seq<Event>, i: nat, j: nat, source: SocketAddr, t: nat)
    requires i <= j < |es|
    requires Muted(c, StateAt(c, cr, es, i), source, t)
    requires forall n :: i <= n <= j ==> t <= es[n].now
    requires forall n :: i <= n < j ==> !NewlyBinds(c, cr, StateAt(c, cr, es, n), es[n], source)
    requires es[j].ForwardEvent? && es[j].source == source
    ensures Step(c, cr, StateAt(c, cr, es, j), es[j]).1 == Routed(None)
  {
    MutedUntil(c, cr, es, i, j, source, t);
    hide StateAt;
  }

  lemma {:induction false} MutedUntil(c: Config, cr: Crypto, es: seq<Event>, i: nat, j: nat, source: SocketAddr, t: nat)
    requires i <= j <= |es|
    requires Muted(c, StateAt(c, cr, es, i), source, t)
    requires forall n :: i <= n < j ==> t <= es[n].now
    requires forall n :: i <= n < j ==> !NewlyBinds(c, cr, StateAt(c, cr, es, n), es[n], source)
    ensures Muted(c, StateAt(c, cr, es, j), source, t)
  {
    hide Step, Muted, NewlyBinds, Inv;
    if i < j {
      MutedUntil(c, cr, es, i, j - 1, source, t);
      Reachable(c, cr, es, j - 1);
      MutedKept(c, cr, StateAt(c, cr, es, j - 1), es[j - 1], source, t);
    }
  }
}
