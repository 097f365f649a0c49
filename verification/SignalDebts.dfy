/** How a handler that came online pays the pairings it owes. */
module SignalDebts {
  import opened Common
  import opened SignalModel
  import opened SignalInvariants
  import opened SignalWaits
  import Relay = RelayModel

  /** The handler of `c`, online as `t`, has still to pair `n` with `t`. */
  ghost predicate Owes(h: Hub, c: ConnId, t: NodeId, n: NodeId) {
    c in h.handlers && h.handlers[c].active == Some(t) && n in h.handlers[c].toPair
  }

  /** What a pairing attempt comes to: one token queued on the current connections of both, or one
      of them offline, or a full outbox whose connection is told to close. */
  ghost predicate Attempted(cfg: Config, h: Hub, h': Hub, a: NodeId, b: NodeId, token: Token) {
    || a !in h.reg.peers
    || b !in h.reg.peers
    || (var ra, rb := h.reg.peers[a], h.reg.peers[b];
        && ra.conn != rb.conn
        && (|| (&& Queued(h, h', ra.conn, PeerCandidates(b, rb.candidates, token, rb.conn))
                && Queued(h, h', rb.conn, PeerCandidates(a, ra.candidates, token, ra.conn)))
            || Kicked(cfg, h, h', ra.conn)
            || Kicked(cfg, h, h', rb.conn)))
  }

  ghost predicate Queued(h: Hub, h': Hub, c: ConnId, m: Message) {
    c in h.boxes && c in h'.boxes && h'.boxes[c].log == h.boxes[c].log + [m]
  }

  /** The connection had no room and is told to close. */
  ghost predicate Kicked(cfg: Config, h: Hub, h': Hub, c: ConnId) {
    c in h.boxes && Room(cfg.outboxCap, h.boxes[c]) == 0 && c in h'.kicked
  }

  lemma AttemptEnds(cfg: Config, h: Hub, a: NodeId, b: NodeId, token: Token, now: nat, later: nat)
    requires Inv(cfg, h) && a != b
    ensures Attempted(cfg, h, TryPair(cfg, h, a, b, token, now, later), a, b, token)
  {
    hide Relay.Issue, RegistryInv, RegistryCapped, BoxesCapped, Room;
    if a in h.reg.peers && b in h.reg.peers {
      var ra, rb := h.reg.peers[a], h.reg.peers[b];
      assert ProvedBy(h.handlers, ra.conn, a) && ProvedBy(h.handlers, rb.conn, b);
    }
  }

  /** No handler owes its own node a pairing. */
  ghost predicate OwesOthers(h: Hub) {
    forall c :: c in h.handlers && h.handlers[c].active.Some? ==> h.handlers[c].active.value !in h.handlers[c].toPair
  }

  lemma OthersStep(cfg: Config, h: Hub, e: Event)
    requires OwesOthers(h) && Enabled(cfg, h, e)
    ensures OwesOthers(Step(cfg, h, e))
  {
    hide Relay.Step, TryPair, Enroll, Unregister, AddWaiter, Room, Push;
    if e.PairNext? {
      var x := h.handlers[e.c];
      var h1 := h.(handlers := h.handlers[e.c := x.(toPair := x.toPair[1..])]);
      PairLeavesHandlers(cfg, h1, x.toPair[0], x.active.value, e.token, e.now, e.later);
      assert forall n :: n in x.toPair[1..] ==> n in x.toPair;
    } else if e.Lookup? {
      PairLeavesHandlers(cfg, h, h.handlers[e.c].active.value, e.target, e.token, e.now, e.later);
    }
  }

  lemma {:induction false} AlwaysOwesOthers(cfg: Config, withRelay: bool, es: seq<Event>, hs: seq<Hub>, i: nat)
    requires IsRun(cfg, withRelay, es, hs) && i < |hs|
    ensures OwesOthers(hs[i])
  {
    hide Step, Enabled;
    if i > 0 {
      AlwaysOwesOthers(cfg, withRelay, es, hs, i - 1);
      OthersStep(cfg, hs[i - 1], es[i - 1]);
    }
  }

  /** The handler of `c` takes `n` off its list and tries to pair it with `t`. */
  ghost predicate Pays(cfg: Config, h: Hub, e: Event, h': Hub, c: ConnId, t: NodeId, n: NodeId) {
    && e.PairNext? && e.c == c && Owes(h, c, t, n) && h.handlers[c].toPair[0] == n
    && Attempted(cfg, h, h', n, t, e.token)
  }

  lemma DebtStep(cfg: Config, h: Hub, e: Event, c: ConnId, t: NodeId, n: NodeId)
    requires Inv(cfg, h) && OwesOthers(h) && Enabled(cfg, h, e) && Owes(h, c, t, n)
    ensures Owes(Step(cfg, h, e), c, t, n) || e == Close(c) || Pays(cfg, h, e, Step(cfg, h, e), c, t, n)
  {
    hide Inv, Relay.Step, TryPair, Enroll, Unregister, AddWaiter, Attempted, Room, Push;
    if e.PairNext? {
      PayStep(cfg, h, e, c, t, n);
    } else if e.Accept? {
      FreshId(cfg, h, c);
    } else if e.Lookup? {
      PairLeavesHandlers(cfg, h, h.handlers[e.c].active.value, e.target, e.token, e.now, e.later);
    }
  }

  lemma FreshId(cfg: Config, h: Hub, c: ConnId)
    requires Inv(cfg, h) && c in h.handlers
    ensures c != h.nextId
  {}

  lemma PairLeavesHandlers(cfg: Config, h: Hub, a: NodeId, b: NodeId, token: Token, now: nat, later: nat)
    ensures TryPair(cfg, h, a, b, token, now, later).handlers == h.handlers
  {
    hide Relay.Issue;
  }

  lemma PayStep(cfg: Config, h: Hub, e: Event, c: ConnId, t: NodeId, n: NodeId)
    requires Inv(cfg, h) && OwesOthers(h) && Enabled(cfg, h, e) && Owes(h, c, t, n) && e.PairNext?
    ensures Owes(Step(cfg, h, e), c, t, n) || Pays(cfg, h, e, Step(cfg, h, e), c, t, n)
  {
    hide Inv, Relay.Step, TryPair, Attempted, Room;
    var x := h.handlers[e.c];
    var h1 := h.(handlers := h.handlers[e.c := x.(toPair := x.toPair[1..])]);
    PairLeavesHandlers(cfg, h1, x.toPair[0], x.active.value, e.token, e.now, e.later);
    PairingFromHere(cfg, h, h1, x.toPair[0], x.active.value, e.token, e.now, e.later);
    if e.c == c && n != x.toPair[0] {
      var i :| 0 <= i < |x.toPair| && x.toPair[i] == n;
      assert x.toPair[1..][i - 1] == n;
    }
  }

  /** The attempt sees registry and outboxes, not the list it was taken from. */
  lemma PairingFromHere(cfg: Config, h: Hub, h1: Hub, a: NodeId, b: NodeId, token: Token, now: nat, later: nat)
    requires Inv(cfg, h) && h1 == h.(handlers := h1.handlers) && a != b
    ensures Attempted(cfg, h, TryPair(cfg, h1, a, b, token, now, later), a, b, token)
  {
    hide Relay.Issue, Inv, Room, Push, Attempted;
    AttemptEnds(cfg, h, a, b, token, now, later);
    var r, r1 := TryPair(cfg, h, a, b, token, now, later), TryPair(cfg, h1, a, b, token, now, later);
    assert r1 == r.(handlers := h1.handlers);
    SameAttempt(cfg, h, r, r1, a, b, token);
  }

  lemma SameAttempt(cfg: Config, h: Hub, r: Hub, r1: Hub, a: NodeId, b: NodeId, token: Token)
    requires Attempted(cfg, h, r, a, b, token) && r1.boxes == r.boxes && r1.kicked == r.kicked
    ensures Attempted(cfg, h, r1, a, b, token)
  {}

  /** A debt present at `i` and gone at `j` was dropped by its own connection closing, or paid by an
      attempt: one token on both current connections, a node offline, or a full connection kicked. */
  lemma {:induction false} DebtsArePaid(cfg: Config, withRelay: bool, es: seq<Event>, hs: seq<Hub>, i: nat, j: nat,
                                        c: ConnId, t: NodeId, n: NodeId)
    returns (m: nat)
    requires IsRun(cfg, withRelay, es, hs) && i <= j < |hs|
    requires Owes(hs[i], c, t, n) && !Owes(hs[j], c, t, n)
    ensures i <= m < j && (es[m] == Close(c) || Pays(cfg, hs[m], es[m], hs[m + 1], c, t, n))
  {
    hide Step, Owes, Pays, Inv, Enabled, OwesOthers;
    if Owes(hs[j - 1], c, t, n) {
      m := j - 1;
      EveryInterleaving(cfg, withRelay, es, hs, m);
      AlwaysOwesOthers(cfg, withRelay, es, hs, m);
      DebtStep(cfg, hs[m], es[m], c, t, n);
    } else {
      m := DebtsArePaid(cfg, withRelay, es, hs, i, j - 1, c, t, n);
    }
  }

  /** The whole life of a wait. Gone by `j`, it was ended by its own connection closing or by its
      target coming online; if its connection was then still the current one, by `j` the target's
      handler still owes the pairing, has closed, or has attempted it. */
  lemma WaitsAreAnswered(cfg: Config, withRelay: bool, es: seq<Event>, hs: seq<Hub>, i: nat, j: nat, k: WaiterKey,
                         t: NodeId)
    returns (m: nat, p: nat)
    requires IsRun(cfg, withRelay, es, hs) && i <= j < |hs|
    requires Waits(hs[i], k, t) && !Waits(hs[j], k, t)
    ensures i <= m < j
    ensures || es[m] == Close(k.conn)
            || (&& es[m].Admit? && Current(hs[m + 1].reg.peers, t, es[m].c)
                && (Current(hs[m].reg.peers, k.requester, k.conn) ==>
                      || Owes(hs[j], es[m].c, t, k.requester)
                      || (m < p < j && es[p] == Close(es[m].c))
                      || (m < p < j && Pays(cfg, hs[p], es[p], hs[p + 1], es[m].c, t, k.requester))))
  {
    hide Step, Inv, Enabled, Pays, Waits;
    p := 0;
    m := NoWaitIsLost(cfg, withRelay, es, hs, i, j, k, t);
    if es[m] != Close(k.conn) && Current(hs[m].reg.peers, k.requester, k.conn) {
      var c := es[m].c;
      assert Owes(hs[m + 1], c, t, k.requester);
      if !Owes(hs[j], c, t, k.requester) {
        hide Owes;
        p := DebtsArePaid(cfg, withRelay, es, hs, m + 1, j, c, t, k.requester);
      }
    }
  }
}
