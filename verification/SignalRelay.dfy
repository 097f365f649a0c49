/** Signaling and relay together: whoever the relay carries was introduced by signaling. */
module SignalRelay {
  import opened Common
  import opened Net
  import opened SignalModel
  import opened SignalInvariants
  import opened SignalPairing
  import Relay = RelayModel
  import RelayInvariants
  import RelayProvenance

  /** Inside a hub the relay only ever takes its own steps. */
  lemma RelayMoves(cfg: Config, h: Hub, e: Event) returns (re: Relay.Event)
    requires Enabled(cfg, h, e)
    ensures var h' := Step(cfg, h, e);
            || h'.relay == h.relay
            || (h.relay.Some? && h'.relay == Some(Relay.Step(cfg.relay, cfg.crypto, h.relay.value, re).0))
  {
    hide Relay.Issue, Relay.Control, Relay.Forward, Relay.Cleanup, CanPair, Enroll, Unregister, AddWaiter, Push;
    re := Relay.Tick(0);
    match e {
      case PairNext(c, token, now, later) =>
        re := Relay.IssueEvent(now, later, token, h.handlers[c].toPair[0], h.handlers[c].active.value);
      case Lookup(c, target, allowed, token, now, later) =>
        re := Relay.IssueEvent(now, later, token, h.handlers[c].active.value, target);
      case RelayTraffic(traffic) => re := traffic;
      case _ =>
    }
  }

  lemma {:induction false} RelayReachable(cfg: Config, withRelay: bool, es: seq<Event>, hs: seq<Hub>, i: nat)
    requires IsRun(cfg, withRelay, es, hs) && i < |hs|
    ensures hs[i].relay.Some? ==> RelayInvariants.Inv(hs[i].relay.value)
  {
    hide Step, Enabled, RelayInvariants.Inv, Relay.Step;
    if i == 0 {
      RelayStarts();
    } else {
      RelayReachable(cfg, withRelay, es, hs, i - 1);
      var re := RelayMoves(cfg, hs[i - 1], es[i - 1]);
      if hs[i - 1].relay.Some? {
        RelayInvariants.StepKeeps(cfg.relay, cfg.crypto, hs[i - 1].relay.value, re);
      }
    }
  }

  lemma RelayStarts()
    ensures RelayInvariants.Inv(Relay.EMPTY)
  {}

  /** Both nodes of a hello were sent each other with its token. */
  ghost predicate Introduced(h: Hub, hello: Relay.Hello) {
    Told(h, hello.node, hello.peer, hello.token) && Told(h, hello.peer, hello.node, hello.token)
  }

  ghost predicate BoundIntroduced(h: Hub) {
    h.relay.Some? ==> forall a :: a in h.relay.value.sources ==> BoundIntroducedAt(h, a)
  }

  ghost predicate BoundIntroducedAt(h: Hub, a: SocketAddr)
    requires h.relay.Some? && a in h.relay.value.sources
  {
    Relay.BoundOf(h.relay.value, a).Some? && Introduced(h, Relay.BoundOf(h.relay.value, a).value.hello)
  }

  /** One move of the relay: a socket it binds holds a ticket, and tickets were announced. */
  lemma BindStep(c: Relay.Config, cr: Relay.Crypto, h: Hub, re: Relay.Event, s': Relay.State, a: SocketAddr)
    requires h.relay.Some? && RelayInvariants.Inv(h.relay.value) && TicketsAnnounced(h) && BoundIntroduced(h)
    requires s' == Relay.Step(c, cr, h.relay.value, re).0 && a in s'.sources
    ensures Relay.BoundOf(s', a).Some? && Introduced(h, Relay.BoundOf(s', a).value.hello)
  {
    hide Relay.Step, RelayInvariants.Inv, Told, Relay.BoundOf;
    RelayProvenance.SourceStep(c, cr, h.relay.value, re, a);
    if a in h.relay.value.sources {
      assert BoundIntroducedAt(h, a);
    } else {
      var t := re.packet.challenge.hello.token;
      assert t in h.relay.value.tickets;
    }
  }

  lemma IntroducedForever(h: Hub, h': Hub, hello: Relay.Hello)
    requires Remembers(h, h') && Introduced(h, hello)
    ensures Introduced(h', hello)
  {
    hide Told, Remembers;
    ToldForever(h, h', hello.node, hello.peer, hello.token);
    ToldForever(h, h', hello.peer, hello.node, hello.token);
  }

  /** In every interleaving, the token of every socket bound at the relay was queued to both the
      node it belongs to and the peer it reaches. */
  lemma {:induction false} BoundSocketsWereIntroduced(cfg: Config, withRelay: bool, es: seq<Event>, hs: seq<Hub>,
                                                      i: nat)
    requires IsRun(cfg, withRelay, es, hs) && i < |hs|
    ensures BoundIntroduced(hs[i])
  {
    hide Step, Inv, Enabled, Introduced, Remembers, Relay.Step, RelayInvariants.Inv, TicketsAnnounced, Relay.BoundOf;
    if i > 0 {
      var h, e, h' := hs[i - 1], es[i - 1], hs[i];
      BoundSocketsWereIntroduced(cfg, withRelay, es, hs, i - 1);
      EveryInterleaving(cfg, withRelay, es, hs, i - 1);
      TicketsWereAnnounced(cfg, withRelay, es, hs, i - 1);
      RelayReachable(cfg, withRelay, es, hs, i - 1);
      StepRemembers(cfg, h, e);
      var re := RelayMoves(cfg, h, e);
      if h'.relay.Some? {
        forall a | a in h'.relay.value.sources ensures BoundIntroducedAt(h', a) {
          if h'.relay == h.relay {
            assert BoundIntroducedAt(h, a);
          } else {
            BindStep(cfg.relay, cfg.crypto, h, re, h'.relay.value, a);
          }
          IntroducedForever(h, h', Relay.BoundOf(h'.relay.value, a).value.hello);
        }
      }
    }
  }
}
