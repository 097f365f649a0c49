/** Lazy expiry is unobservable: maintenance ticks may be inserted or deleted
    anywhere in a run without changing any reply. */
module RelayCleanup {
  import opened Net
  import opened RelayModel

  /** Two states that no observer at or after `t` can tell apart. */
  ghost predicate Alike(c: Config, t: nat, s: State, s': State) {
    Cleanup(c, s, t) == Cleanup(c, s', t)
  }

  /** What outlives `t2` had outlived `t1`, judged by either set of tickets. */
  lemma KeptLater(c: Config, ts: map<Token, Ticket>, t1: nat, t2: nat)
    requires t1 <= t2
    ensures forall t :: TicketLive(SweptTickets(ts, t1), t, t2) <==> TicketLive(ts, t, t2)
    ensures forall k, x ::
              KeepsSession(c, ts, k, x, t2)
              <==> KeepsSession(c, ts, k, x, t1) && KeepsSession(c, SweptTickets(ts, t1), k, x, t2)
    ensures forall p ::
              KeepsPending(ts, p, t2) <==> KeepsPending(ts, p, t1) && KeepsPending(SweptTickets(ts, t1), p, t2)
  {}

  /** A later cleanup swallows an earlier one. */
  lemma Absorbs(c: Config, s: State, t1: nat, t2: nat)
    requires t1 <= t2
    ensures Cleanup(c, Cleanup(c, s, t1), t2) == Cleanup(c, s, t2)
  {
    hide KeepsSession, KeepsPending;
    KeptLater(c, s.tickets, t1, t2);
    var xs := SweptSessions(c, s.tickets, s.sessions, t1);
    assert SweptTickets(SweptTickets(s.tickets, t1), t2) == SweptTickets(s.tickets, t2);
    assert SweptPending(SweptTickets(s.tickets, t1), SweptPending(s.tickets, s.pending, t1), t2)
      == SweptPending(s.tickets, s.pending, t2);
    assert SweptSessions(c, SweptTickets(s.tickets, t1), xs, t2) == SweptSessions(c, s.tickets, s.sessions, t2);
    assert SweptSources(SweptSessions(c, s.tickets, s.sessions, t2), SweptSources(xs, s.sources))
        == SweptSources(SweptSessions(c, s.tickets, s.sessions, t2), s.sources);
  }

  lemma AlikeLater(c: Config, t: nat, t': nat, s: State, s': State)
    requires t <= t' && Alike(c, t, s, s')
    ensures Alike(c, t', s, s')
  {
    Absorbs(c, s, t, t');
    Absorbs(c, s', t, t');
  }

  /** Cleaning up first neither grants nor denies a datagram, nor changes its target. */
  lemma ForwardSeesThroughCleanup(c: Config, s: State, t: nat, source: SocketAddr, f: Family, now: nat)
    requires t <= now
    ensures Forward(c, Cleanup(c, s, t), source, f, now).1 == Forward(c, s, source, f, now).1
    ensures Alike(c, now, Forward(c, Cleanup(c, s, t), source, f, now).0, Forward(c, s, source, f, now).0)
  {
    var s1 := Cleanup(c, s, t);
    Absorbs(c, s, t, now);
    assert Forwards(c, s1, source, f, now) == Forwards(c, s, source, f, now);
    if Forwards(c, s, source, f, now) {
      var k := s.sources[source].0;
      TouchCommutes(c, s, t, k, now);
      Absorbs(c, Touch(s, k, now), t, now);
    }
  }

  /** Refreshing a session that is kept anyway commutes with cleanup. */
  lemma TouchCommutes(c: Config, s: State, t: nat, k: SessionKey, now: nat)
    requires t <= now && k in s.sessions && s.sessions[k].Ready() && !Idle(c, s.sessions[k], now)
    ensures k in Cleanup(c, s, t).sessions
    ensures Touch(Cleanup(c, s, t), k, now) == Cleanup(c, Touch(s, k, now), t)
  {
    var x := s.sessions[k];
    assert KeepsSession(c, s.tickets, k, x, t) && KeepsSession(c, s.tickets, k, x.(lastActivity := now), t);
    hide KeepsSession;
    assert Touch(Cleanup(c, s, t), k, now).sessions == Cleanup(c, Touch(s, k, now), t).sessions;
    assert Cleanup(c, s, t).sources == Cleanup(c, Touch(s, k, now), t).sources;
  }

  function Touch(s: State, k: SessionKey, now: nat): State
    requires k in s.sessions
  {
    s.(sessions := s.sessions[k := s.sessions[k].(lastActivity := now)])
  }

  /** Without the ordering of the clock readings a tick shows in exactly one case:
      the datagram's own reading finds the session fresh, the tick's found it idle. */
  lemma TickShowsOnlyToStaleReadings(c: Config, s: State, t: nat, source: SocketAddr, f: Family, now: nat)
    ensures Forward(c, Cleanup(c, s, t), source, f, now).1 != Forward(c, s, source, f, now).1
       <==> Forwards(c, s, source, f, now) && Idle(c, s.sessions[s.sources[source].0], t)
  {
    var s1 := Cleanup(c, s, t);
    if Forwards(c, s, source, f, now) && !Idle(c, s.sessions[s.sources[source].0], t) {
      assert Forwards(c, s1, source, f, now);
    }
  }

  /** One event from two indistinguishable states: same reply, indistinguishable successors. */
  lemma StepAlike(c: Config, cr: Crypto, t: nat, s: State, s': State, e: Event)
    requires t <= e.now <= e.End() && Alike(c, t, s, s')
    ensures Step(c, cr, s, e).1 == Step(c, cr, s', e).1
    ensures Alike(c, e.End(), Step(c, cr, s, e).0, Step(c, cr, s', e).0)
  {
    AlikeLater(c, t, e.now, s, s');
    if e.ForwardEvent? {
      ForwardSeesThroughCleanup(c, s, e.now, e.source, e.family, e.now);
      ForwardSeesThroughCleanup(c, s', e.now, e.source, e.family, e.now);
    }
  }

  /** The replies of a run, ticks giving none. */
  ghost function Outputs(c: Config, cr: Crypto, s: State, es: seq<Event>): seq<Reply>
    decreases |es|
  {
    if es == [] then []
    else
      var (s', r) := Step(c, cr, s, es[0]);
      (if es[0].Tick? then [] else [r]) + Outputs(c, cr, s', es[1..])
  }

  ghost function WithoutTicks(es: seq<Event>): seq<Event> {
    if es == [] then []
    else (if es[0].Tick? then [] else [es[0]]) + WithoutTicks(es[1..])
  }

  lemma {:induction false} TicksInvisibleFrom(c: Config, cr: Crypto, t: nat, s: State, s': State, es: seq<Event>)
    requires Alike(c, t, s, s') && Timely(t, es)
    ensures Outputs(c, cr, s, es) == Outputs(c, cr, s', WithoutTicks(es))
    decreases |es|
  {
    if es != [] {
      var e := es[0];
      var s1 := Step(c, cr, s, e).0;
      if e.Tick? {
        AlikeLater(c, t, e.now, s, s');
        Absorbs(c, s, e.now, e.now);
        TicksInvisibleFrom(c, cr, e.now, s1, s', es[1..]);
        assert WithoutTicks(es) == WithoutTicks(es[1..]);
      } else {
        StepAlike(c, cr, t, s, s', e);
        TicksInvisibleFrom(c, cr, e.End(), s1, Step(c, cr, s', e).0, es[1..]);
        assert WithoutTicks(es) == [e] + WithoutTicks(es[1..]);
        assert WithoutTicks(es)[1..] == WithoutTicks(es[1..]);
      }
    }
  }

  /** Two runs with the same requests at the same times, whatever maintenance
      ticks each one has, give the same replies from every state. */
  lemma TicksAreInvisible(c: Config, cr: Crypto, t: nat, s: State, es: seq<Event>, es': seq<Event>)
    requires Timely(t, es) && Timely(t, es') && WithoutTicks(es) == WithoutTicks(es')
    ensures Outputs(c, cr, s, es) == Outputs(c, cr, s, es')
  {
    TicksInvisibleFrom(c, cr, t, s, s, es);
    TicksInvisibleFrom(c, cr, t, s, s, es');
  }
}
