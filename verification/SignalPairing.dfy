/** Pairing is all-or-nothing, keeps one order on both sides, and backs every relay ticket. */
module SignalPairing {
  import opened Common
  import opened SignalModel
  import opened SignalInvariants
  import Relay = RelayModel
  import RelayInvariants

  /** A pairing attempt queues one message with the same token on both connections,
      or nothing on any connection; nothing else of the registry changes. */
  lemma PairingIsAllOrNothing(cfg: Config, h: Hub, a: NodeId, b: NodeId, token: Token, now: nat, later: nat)
    requires Inv(cfg, h) && a != b
    ensures var h' := TryPair(cfg, h, a, b, token, now, later);
            && h'.reg == h.reg && h'.handlers == h.handlers
            && (h'.boxes != h.boxes ==>
                  && a in h.reg.peers && b in h.reg.peers
                  && var ra, rb := h.reg.peers[a], h.reg.peers[b];
                  && ra.conn != rb.conn
                  && h'.boxes[ra.conn].log == h.boxes[ra.conn].log + [PeerCandidates(b, rb.candidates, token, rb.conn)]
                  && h'.boxes[rb.conn].log == h.boxes[rb.conn].log + [PeerCandidates(a, ra.candidates, token, ra.conn)]
                  && (forall c :: c in h.boxes && c != ra.conn && c != rb.conn ==> h'.boxes[c] == h.boxes[c]))
            && (h'.boxes == h.boxes ==> h'.relay == h.relay)
  {
    hide Relay.Issue, RegistryInv, RegistryCapped, Numbered, BoxesCapped;
    if CanPair(cfg, h, a, b) {
      var ra, rb := h.reg.peers[a], h.reg.peers[b];
      assert ProvedBy(h.handlers, ra.conn, a) && ProvedBy(h.handlers, rb.conn, b);
      assert |TryPair(cfg, h, a, b, token, now, later).boxes[ra.conn].log| == |h.boxes[ra.conn].log| + 1;
    }
  }

  // ------------------------------------------------------------ one order on both sides

  /** The tokens of the pairings with `c`, in the order they were queued. */
  ghost function TokensFrom(log: seq<Message>, c: ConnId): seq<Token> {
    if log == [] then []
    else
      var m := log[|log| - 1];
      TokensFrom(log[..|log| - 1], c) + (if m.PeerCandidates? && m.conn == c then [m.token] else [])
  }

  ghost predicate PushesKnown(boxes: map<ConnId, Outbox>) {
    forall c, m :: c in boxes && m in boxes[c].log && m.PeerCandidates? ==> m.conn in boxes
  }

  ghost predicate SameOrder(boxes: map<ConnId, Outbox>) {
    forall c, d :: c in boxes && d in boxes && c != d ==> TokensFrom(boxes[c].log, d) == TokensFrom(boxes[d].log, c)
  }

  ghost predicate Ordered(boxes: map<ConnId, Outbox>) {
    PushesKnown(boxes) && SameOrder(boxes)
  }

  lemma PushedTokens(log: seq<Message>, m: Message, c: ConnId)
    ensures TokensFrom(log + [m], c)
      == TokensFrom(log, c) + (if m.PeerCandidates? && m.conn == c then [m.token] else [])
  {
    assert (log + [m])[..|log|] == log;
  }

  lemma {:induction false} StrangersSendNothing(log: seq<Message>, c: ConnId)
    requires forall m :: m in log && m.PeerCandidates? ==> m.conn != c
    ensures TokensFrom(log, c) == []
  {
    if log != [] {
      StrangersSendNothing(log[..|log| - 1], c);
      assert log[|log| - 1] in log;
    }
  }

  /** Two connections that each get the other's push with one token stay in step. */
  lemma PairKeepsOrder(boxes: map<ConnId, Outbox>, p: ConnId, q: ConnId, mp: Message, mq: Message)
    requires Ordered(boxes) && p in boxes && q in boxes
    requires mp.PeerCandidates? && mq.PeerCandidates? && mp.token == mq.token && mp.conn == q && mq.conn == p
    ensures Ordered(Push(Push(boxes, p, mp), q, mq))
  {
    var boxes' := Push(Push(boxes, p, mp), q, mq);
    assert boxes'.Keys == boxes.Keys;
    forall c, d | c in boxes' && d in boxes' && c != d
      ensures TokensFrom(boxes'[c].log, d) == TokensFrom(boxes'[d].log, c)
    {
      PairTokens(boxes, p, q, mp, mq, c, d);
      PairTokens(boxes, p, q, mp, mq, d, c);
    }
    hide SameOrder, TokensFrom;
    assert PushesKnown(boxes');
  }

  lemma PairTokens(boxes: map<ConnId, Outbox>, p: ConnId, q: ConnId, mp: Message, mq: Message, c: ConnId, d: ConnId)
    requires p in boxes && q in boxes && c in boxes && c != d
    requires mp.PeerCandidates? && mq.PeerCandidates? && mp.token == mq.token && mp.conn == q && mq.conn == p
    ensures TokensFrom(Push(Push(boxes, p, mp), q, mq)[c].log, d)
         == TokensFrom(boxes[c].log, d) + (if (c == p && d == q) || (c == q && d == p) then [mp.token] else [])
  {
    PushedTokens(boxes[c].log, mp, d);
    PushedTokens(boxes[c].log, mq, d);
    PushedTokens(boxes[c].log + [mp], mq, d);
  }

  lemma QuietKeepsOrder(boxes: map<ConnId, Outbox>, boxes': map<ConnId, Outbox>)
    requires Ordered(boxes) && boxes'.Keys == boxes.Keys
    requires forall c :: c in boxes ==> boxes'[c].log == boxes[c].log
    ensures Ordered(boxes')
  {}

  lemma PlainKeepsOrder(boxes: map<ConnId, Outbox>, c: ConnId, text: nat)
    requires Ordered(boxes) && c in boxes
    ensures Ordered(Push(boxes, c, Plain(text)))
  {
    var boxes' := Push(boxes, c, Plain(text));
    forall d ensures TokensFrom(boxes'[c].log, d) == TokensFrom(boxes[c].log, d) {
      PushedTokens(boxes[c].log, Plain(text), d);
    }
    assert boxes'.Keys == boxes.Keys;
    assert forall m :: m in boxes'[c].log && m.PeerCandidates? ==> m in boxes[c].log;
  }

  lemma NewBoxKeepsOrder(boxes: map<ConnId, Outbox>, c: ConnId)
    requires Ordered(boxes) && c !in boxes
    ensures Ordered(boxes[c := Outbox([], 0, true)])
  {
    forall d | d in boxes ensures TokensFrom(boxes[d].log, c) == [] {
      StrangersSendNothing(boxes[d].log, c);
    }
  }

  lemma TryPairKeepsOrder(cfg: Config, h: Hub, a: NodeId, b: NodeId, token: Token, now: nat, later: nat)
    requires Ordered(h.boxes)
    ensures Ordered(TryPair(cfg, h, a, b, token, now, later).boxes)
  {
    hide Ordered, Relay.Issue;
    if CanPair(cfg, h, a, b) {
      var ra, rb := h.reg.peers[a], h.reg.peers[b];
      PairKeepsOrder(h.boxes, ra.conn, rb.conn, PeerCandidates(b, rb.candidates, token, rb.conn),
                     PeerCandidates(a, ra.candidates, token, ra.conn));
    }
  }

  lemma StepKeepsOrder(cfg: Config, h: Hub, e: Event)
    requires Inv(cfg, h) && Ordered(h.boxes) && Enabled(cfg, h, e)
    ensures Ordered(Step(cfg, h, e).boxes)
  {
    hide Ordered, TryPair, Relay.Step, RegistryInv, RegistryCapped, NoGhosts, BoxesCapped, Enroll, Unregister,
      AddWaiter;
    match e {
      case Accept => NewBoxKeepsOrder(h.boxes, h.nextId);
      case PairNext(c, token, now, later) =>
        var x := h.handlers[c];
        TryPairKeepsOrder(cfg, h.(handlers := h.handlers[c := x.(toPair := x.toPair[1..])]), x.toPair[0],
                          x.active.value, token, now, later);
      case Lookup(c, target, allowed, token, now, later) =>
        TryPairKeepsOrder(cfg, h, h.handlers[c].active.value, target, token, now, later);
      case Send(c, text) =>
        if c in h.boxes {
          PlainKeepsOrder(h.boxes, c, text);
        }
      case Drain(c) => QuietKeepsOrder(h.boxes, Step(cfg, h, e).boxes);
      case WriterGone(c) => QuietKeepsOrder(h.boxes, Step(cfg, h, e).boxes);
      case _ =>
    }
  }

  /** In every interleaving any two connections see the tokens of their pairings in one order. */
  lemma {:induction false} TokensInOneOrder(cfg: Config, withRelay: bool, es: seq<Event>, hs: seq<Hub>, i: nat)
    requires IsRun(cfg, withRelay, es, hs) && i < |hs|
    ensures Ordered(hs[i].boxes)
  {
    hide Step, Inv, Enabled;
    if i > 0 {
      TokensInOneOrder(cfg, withRelay, es, hs, i - 1);
      EveryInterleaving(cfg, withRelay, es, hs, i - 1);
      StepKeepsOrder(cfg, hs[i - 1], es[i - 1]);
    }
  }

  // ------------------------------------------------------------ relay tickets

  /** Some connection that proved to be `n` was sent `peer` with this token. */
  ghost predicate Told(h: Hub, n: NodeId, peer: NodeId, token: Token) {
    exists c, m :: c in h.identity && h.identity[c] == n && c in h.boxes && m in h.boxes[c].log
      && Introduces(m, peer, token)
  }

  ghost predicate Introduces(m: Message, peer: NodeId, token: Token) {
    m.PeerCandidates? && m.node == peer && m.token == token
  }

  ghost predicate TicketsAnnounced(h: Hub) {
    h.relay.Some? ==> forall t :: t in h.relay.value.tickets ==>
      && Told(h, h.relay.value.tickets[t].first, h.relay.value.tickets[t].second, t)
      && Told(h, h.relay.value.tickets[t].second, h.relay.value.tickets[t].first, t)
  }

  /** Nothing already told is untold. */
  ghost predicate Remembers(h: Hub, h': Hub) {
    && (forall c :: c in h.identity ==> c in h'.identity && h'.identity[c] == h.identity[c])
    && (forall c :: c in h.boxes ==> c in h'.boxes && h.boxes[c].log <= h'.boxes[c].log)
  }

  lemma ToldForever(h: Hub, h': Hub, n: NodeId, peer: NodeId, token: Token)
    requires Remembers(h, h') && Told(h, n, peer, token)
    ensures Told(h', n, peer, token)
  {
    var c, m :| c in h.identity && h.identity[c] == n && c in h.boxes && m in h.boxes[c].log
      && Introduces(m, peer, token);
    assert m in h'.boxes[c].log;
  }

  lemma TryPairRemembers(cfg: Config, h: Hub, a: NodeId, b: NodeId, token: Token, now: nat, later: nat)
    ensures Remembers(h, TryPair(cfg, h, a, b, token, now, later))
  {
    hide Relay.Issue;
  }

  lemma StepRemembers(cfg: Config, h: Hub, e: Event)
    requires Inv(cfg, h) && Enabled(cfg, h, e)
    ensures Remembers(h, Step(cfg, h, e))
  {
    hide Relay.Step, TryPair, RegistryInv, RegistryCapped, NoGhosts, BoxesCapped, Enroll, Unregister, AddWaiter;
    if e.PairNext? {
      var x := h.handlers[e.c];
      TryPairRemembers(cfg, h.(handlers := h.handlers[e.c := x.(toPair := x.toPair[1..])]), x.toPair[0], x.active.value,
                       e.token, e.now, e.later);
    } else if e.Lookup? {
      TryPairRemembers(cfg, h, h.handlers[e.c].active.value, e.target, e.token, e.now, e.later);
    }
  }

  /** The relay's own traffic only ever drops tickets. */
  lemma RelayOnlyDropsTickets(c: Relay.Config, cr: Relay.Crypto, s: Relay.State, e: Relay.Event)
    requires !e.IssueEvent?
    ensures var s' := Relay.Step(c, cr, s, e).0;
            forall t :: t in s'.tickets ==> t in s.tickets && s'.tickets[t] == s.tickets[t]
  {
    hide Relay.HelloStep, Relay.RegisterStep, Relay.SweptPending, Relay.SweptSessions, Relay.SweptSources;
    if e.ControlEvent? {
      var s1 := Relay.Cleanup(c, s, e.now);
      if e.packet.HelloPacket? {
        RelayInvariants.HelloShape(c, cr, s1, e.packet.hello, e.source, e.family, e.now, e.nonce);
      } else if e.packet.RegisterPacket? {
        RelayInvariants.RegisterShape(c, cr, s1, e.packet.challenge, e.packet.signature, e.source, e.family, e.now);
      }
    }
  }

  /** A ticket is either an old one or names the two nodes that were just told its token. */
  lemma TicketStep(cfg: Config, h: Hub, e: Event, t: Token)
    requires Inv(cfg, h) && Enabled(cfg, h, e)
    requires Step(cfg, h, e).relay.Some? && t in Step(cfg, h, e).relay.value.tickets
    ensures var h' := Step(cfg, h, e);
            var k := h'.relay.value.tickets[t];
            || (h.relay.Some? && t in h.relay.value.tickets && h.relay.value.tickets[t] == k)
            || (Told(h', k.first, k.second, t) && Told(h', k.second, k.first, t))
  {
    hide Relay.Step, TryPair, RegistryInv, RegistryCapped, NoGhosts, BoxesCapped, Enroll, Unregister, AddWaiter,
      Numbered, Told;
    match e {
      case PairNext(c, token, now, later) =>
        var x := h.handlers[c];
        var h1 := h.(handlers := h.handlers[c := x.(toPair := x.toPair[1..])]);
        SameActiveInv(cfg, h, h1);
        PairTells(cfg, h1, x.toPair[0], x.active.value, token, now, later, t);
      case Lookup(c, target, allowed, token, now, later) =>
        var me := h.handlers[c].active.value;
        if Current(h.reg.peers, me, c) && allowed && me != target && target in h.reg.peers {
          PairTells(cfg, h, me, target, token, now, later, t);
        }
      case RelayTraffic(re) => RelayOnlyDropsTickets(cfg.relay, cfg.crypto, h.relay.value, re);
      case _ =>
    }
  }

  lemma SameActiveInv(cfg: Config, h: Hub, h1: Hub)
    requires Inv(cfg, h) && h1 == h.(handlers := h1.handlers) && h1.handlers.Keys == h.handlers.Keys
    requires forall c :: c in h.handlers ==> h1.handlers[c].active == h.handlers[c].active
    ensures Inv(cfg, h1)
  {
    hide RegistryInv, RegistryCapped, BoxesCapped;
  }

  lemma PairTells(cfg: Config, h: Hub, a: NodeId, b: NodeId, token: Token, now: nat, later: nat, t: Token)
    requires Inv(cfg, h)
    requires TryPair(cfg, h, a, b, token, now, later).relay.Some?
      && t in TryPair(cfg, h, a, b, token, now, later).relay.value.tickets
    ensures var h' := TryPair(cfg, h, a, b, token, now, later);
            var k := h'.relay.value.tickets[t];
            || (h.relay.Some? && t in h.relay.value.tickets && h.relay.value.tickets[t] == k)
            || (Told(h', k.first, k.second, t) && Told(h', k.second, k.first, t))
  {
    hide RegistryInv, RegistryCapped, BoxesCapped;
    if CanPair(cfg, h, a, b) {
      var h' := TryPair(cfg, h, a, b, token, now, later);
      var ra, rb := h.reg.peers[a], h.reg.peers[b];
      assert h.identity[ra.conn] == a && h.identity[rb.conn] == b;
      var ma, mb := PeerCandidates(b, rb.candidates, token, rb.conn), PeerCandidates(a, ra.candidates, token, ra.conn);
      assert ma in h'.boxes[ra.conn].log && mb in h'.boxes[rb.conn].log;
      assert Introduces(ma, b, token) && Introduces(mb, a, token);
      assert Told(h', a, b, token) && Told(h', b, a, token);
      IssueAddsOne(cfg.relay, h.relay.value, now, later, token, a, b, t);
    }
  }

  lemma IssueAddsOne(c: Relay.Config, s: Relay.State, now: nat, later: nat, token: Token, a: NodeId, b: NodeId,
                     t: Token)
    requires t in Relay.Issue(c, s, now, later, token, a, b).0.tickets
    ensures var k := Relay.Issue(c, s, now, later, token, a, b).0.tickets[t];
            (t in s.tickets && s.tickets[t] == k) || (t == token && k.first == a && k.second == b)
  {}

  /** Every relay ticket's token was queued to both nodes the ticket names. */
  lemma {:induction false} TicketsWereAnnounced(cfg: Config, withRelay: bool, es: seq<Event>, hs: seq<Hub>, i: nat)
    requires IsRun(cfg, withRelay, es, hs) && i < |hs|
    ensures TicketsAnnounced(hs[i])
  {
    hide Step, Inv, Enabled, Told, Remembers;
    if i > 0 {
      var h, e, h' := hs[i - 1], es[i - 1], hs[i];
      TicketsWereAnnounced(cfg, withRelay, es, hs, i - 1);
      EveryInterleaving(cfg, withRelay, es, hs, i - 1);
      StepRemembers(cfg, h, e);
      if h'.relay.Some? {
        forall t | t in h'.relay.value.tickets
          ensures Told(h', h'.relay.value.tickets[t].first, h'.relay.value.tickets[t].second, t)
          ensures Told(h', h'.relay.value.tickets[t].second, h'.relay.value.tickets[t].first, t)
        {
          var k := h'.relay.value.tickets[t];
          TicketStep(cfg, h, e, t);
          if h.relay.Some? && t in h.relay.value.tickets && h.relay.value.tickets[t] == k {
            ToldForever(h, h', k.first, k.second, t);
            ToldForever(h, h', k.second, k.first, t);
          }
        }
      }
    }
  }
}
