/** What a connection handler's steps do, exactly, read off the hub before and after. */
module SignalProgress {
  import opened Common
  import opened SignalModel
  import opened SignalInvariants
  import opened SignalDebts
  import Relay = RelayModel
  import Waits = SignalWaits

  /** The writer still listens and the queue is not full. */
  predicate HasRoom(cfg: Config, h: Hub, c: ConnId) {
    c in h.boxes && h.boxes[c].open && |h.boxes[c].log| - h.boxes[c].taken < cfg.outboxCap
  }

  /** Step `i` of the run is a lookup the limiters allow, by the current connection of another node. */
  ghost predicate Looks(cfg: Config, withRelay: bool, es: seq<Event>, hs: seq<Hub>, i: nat, me: NodeId) {
    && IsRun(cfg, withRelay, es, hs) && i < |es| && es[i].Lookup? && es[i].allowed && es[i].target != me
    && es[i].c in hs[i].handlers && hs[i].handlers[es[i].c].active == Some(me)
    && me in hs[i].reg.peers && hs[i].reg.peers[me].conn == es[i].c
  }

  /** `m` goes to the end of the queue of `c`. */
  ghost predicate Appended(h: Hub, h': Hub, c: ConnId, m: Message) {
    c in h.boxes && c in h'.boxes && h'.boxes[c] == h.boxes[c].(log := h.boxes[c].log + [m])
  }

  /** The pairing of two online nodes: a full connection is told to close and nothing is sent;
      otherwise one token goes to both, with the other's candidates, and the relay is asked for a ticket. */
  ghost predicate Paired(cfg: Config, h: Hub, h': Hub, a: NodeId, b: NodeId, token: Token, now: nat, later: nat)
    requires a in h.reg.peers && b in h.reg.peers
  {
    var ra, rb := h.reg.peers[a], h.reg.peers[b];
    if !HasRoom(cfg, h, ra.conn) then h' == h.(handlers := h'.handlers, kicked := h.kicked + {ra.conn})
    else if !HasRoom(cfg, h, rb.conn) then h' == h.(handlers := h'.handlers, kicked := h.kicked + {rb.conn})
    else
      && Appended(h, h', ra.conn, PeerCandidates(b, rb.candidates, token, rb.conn))
      && Appended(h, h', rb.conn, PeerCandidates(a, ra.candidates, token, ra.conn))
      && h'.boxes.Keys == h.boxes.Keys
      && (forall c :: c in h.boxes && c != ra.conn && c != rb.conn ==> h'.boxes[c] == h.boxes[c])
      && h'.relay == (if h.relay.None? then None
                      else Some(Relay.Step(cfg.relay, cfg.crypto, h.relay.value,
                                           Relay.IssueEvent(now, later, token, a, b)).0))
      && h' == h.(handlers := h'.handlers, boxes := h'.boxes, relay := h'.relay)
  }

  lemma PairsExactly(cfg: Config, h: Hub, a: NodeId, b: NodeId, token: Token, now: nat, later: nat)
    requires Inv(cfg, h) && a != b && a in h.reg.peers && b in h.reg.peers
    ensures Paired(cfg, h, TryPair(cfg, h, a, b, token, now, later), a, b, token, now, later)
    ensures TryPair(cfg, h, a, b, token, now, later).handlers == h.handlers
  {
    hide Relay.Issue, RegistryInv, RegistryCapped, BoxesCapped;
    var ra, rb := h.reg.peers[a], h.reg.peers[b];
    assert ProvedBy(h.handlers, ra.conn, a) && ProvedBy(h.handlers, rb.conn, b);
  }

  /** An allowed lookup of an online node pairs the two. */
  lemma LookupPairs(cfg: Config, withRelay: bool, es: seq<Event>, hs: seq<Hub>, i: nat, me: NodeId)
    requires Looks(cfg, withRelay, es, hs, i, me) && es[i].target in hs[i].reg.peers
    ensures hs[i + 1].handlers == hs[i].handlers
    ensures Paired(cfg, hs[i], hs[i + 1], me, es[i].target, es[i].token, es[i].now, es[i].later)
  {
    hide Inv, TryPair, Paired;
    EveryInterleaving(cfg, withRelay, es, hs, i);
    PairsExactly(cfg, hs[i], me, es[i].target, es[i].token, es[i].now, es[i].later);
  }

  /** An allowed lookup of an offline node waits for it, if it does not yet and both caps have room;
      nothing else changes. */
  lemma LookupWaits(cfg: Config, withRelay: bool, es: seq<Event>, hs: seq<Hub>, i: nat, me: NodeId)
    requires Looks(cfg, withRelay, es, hs, i, me) && es[i].target !in hs[i].reg.peers
    ensures var h, h', k := hs[i], hs[i + 1], WaiterKey(me, es[i].c);
            && h' == h.(reg := h.reg.(waiters := h'.reg.waiters, pendingBy := h'.reg.pendingBy))
            && (forall t, j :: (t, j) != (es[i].target, k) ==>
                  (j in At(h'.reg.waiters, t) <==> j in At(h.reg.waiters, t)))
            && (k in At(h'.reg.waiters, es[i].target) <==>
                  || k in At(h.reg.waiters, es[i].target)
                  || (|At(h.reg.pendingBy, k)| < cfg.maxPending && Waits.SumSizes(h.reg.waiters) < cfg.maxWaiters))
            && Inverse(h'.reg)
  {
    hide Inv, TryPair;
    EveryInterleaving(cfg, withRelay, es, hs, i);
    EveryInterleaving(cfg, withRelay, es, hs, i + 1);
    Waits.SumIsPairs(hs[i].reg.waiters);
    InverseHere(cfg, hs[i + 1]);
  }

  lemma InverseHere(cfg: Config, h: Hub)
    requires Inv(cfg, h)
    ensures Inverse(h.reg)
  {}

  /** A lookup the limiters refuse, or of oneself, changes nothing; one from a connection that its node
      has replaced makes that handler leave. */
  lemma LookupRefused(cfg: Config, withRelay: bool, es: seq<Event>, hs: seq<Hub>, i: nat, me: NodeId)
    requires IsRun(cfg, withRelay, es, hs) && i < |es| && es[i].Lookup?
    requires es[i].c in hs[i].handlers && hs[i].handlers[es[i].c].active == Some(me)
    ensures var h, h', c := hs[i], hs[i + 1], es[i].c;
            && (me !in h.reg.peers || h.reg.peers[me].conn != c ==>
                  h' == h.(handlers := h.handlers[c := h.handlers[c].(leaving := true)]))
            && (me in h.reg.peers && h.reg.peers[me].conn == c && (!es[i].allowed || es[i].target == me) ==> h' == h)
  {
    hide TryPair;
  }

  /** A handler's next pairing is the first it owes. */
  lemma PairNextPairs(cfg: Config, withRelay: bool, es: seq<Event>, hs: seq<Hub>, i: nat)
    requires IsRun(cfg, withRelay, es, hs) && i < |es| && es[i].PairNext?
    ensures var h, h', e := hs[i], hs[i + 1], es[i];
            && e.c in h.handlers && h.handlers[e.c].toPair != [] && h.handlers[e.c].active.Some?
            && var (n, t) := (h.handlers[e.c].toPair[0], h.handlers[e.c].active.value);
            && n != t
            && h'.handlers == h.handlers[e.c := h.handlers[e.c].(toPair := h.handlers[e.c].toPair[1..])]
            && (if n in h.reg.peers && t in h.reg.peers then Paired(cfg, h, h', n, t, e.token, e.now, e.later)
                else h' == h.(handlers := h'.handlers))
  {
    hide Inv, Paired;
    EveryInterleaving(cfg, withRelay, es, hs, i);
    AlwaysOwesOthers(cfg, withRelay, es, hs, i);
    var h, e := hs[i], es[i];
    var x := h.handlers[e.c];
    var (n, t) := (x.toPair[0], x.active.value);
    var h1 := h.(handlers := h.handlers[e.c := x.(toPair := x.toPair[1..])]);
    PairIgnoresHandlers(cfg, h, h1, n, t, e.token, e.now, e.later);
    hide TryPair;
    if n in h.reg.peers && t in h.reg.peers {
      PairsExactly(cfg, h, n, t, e.token, e.now, e.later);
      SamePairing(cfg, h, TryPair(cfg, h, n, t, e.token, e.now, e.later), hs[i + 1], n, t, e.token, e.now, e.later);
    }
  }

  lemma PairIgnoresHandlers(cfg: Config, h: Hub, h1: Hub, a: NodeId, b: NodeId, token: Token, now: nat, later: nat)
    requires h1 == h.(handlers := h1.handlers)
    ensures TryPair(cfg, h1, a, b, token, now, later)
         == TryPair(cfg, h, a, b, token, now, later).(handlers := h1.handlers)
    ensures a !in h.reg.peers || b !in h.reg.peers ==> TryPair(cfg, h, a, b, token, now, later) == h
  {
    hide Relay.Issue, Room, Push;
  }

  lemma SamePairing(cfg: Config, h: Hub, r: Hub, r1: Hub, a: NodeId, b: NodeId, token: Token, now: nat, later: nat)
    requires a in h.reg.peers && b in h.reg.peers && r1 == r.(handlers := r1.handlers)
    requires Paired(cfg, h, r, a, b, token, now, later)
    ensures Paired(cfg, h, r1, a, b, token, now, later)
  {
    hide HasRoom, Relay.Step;
  }

  /** A verified registration is refused exactly when its node is new and the table full. Otherwise the
      record goes in with its candidates, every wait for the node goes and no other, and the handler
      owes a pairing to exactly those requesters whose waiting connection is still their current one,
      and an eviction to the connection it replaced. */
  lemma AdmitsExactly(cfg: Config, withRelay: bool, es: seq<Event>, hs: seq<Hub>, i: nat)
    requires IsRun(cfg, withRelay, es, hs) && i < |es| && es[i].Admit?
    ensures var h, h', c := hs[i], hs[i + 1], es[i].c;
            && c in h.handlers && h.handlers[c].hello.Some?
            && var n := h.handlers[c].hello.value;
            if n !in h.reg.peers && |h.reg.peers| >= cfg.maxPeers
            then h' == h.(handlers := h.handlers[c := h.handlers[c].(leaving := true)])
            else
              && h'.reg.peers == h.reg.peers[n := PeerRecord(c, es[i].candidates)]
              && (forall t, k :: k in At(h'.reg.waiters, t) <==> k in At(h.reg.waiters, t) && t != n)
              && Inverse(h'.reg)
              && c in h'.handlers && h'.handlers[c].active == Some(n)
              && h'.handlers[c].evict == (if n in h.reg.peers then Some(h.reg.peers[n].conn) else None)
              && (forall r :: r in h'.handlers[c].toPair <==>
                    && r != n && r in h.reg.peers && WaiterKey(r, h.reg.peers[r].conn) in At(h.reg.waiters, n))
              && h'.boxes == h.boxes && h'.relay == h.relay && h'.kicked == h.kicked
              && (forall d :: d != c ==> (d in h'.handlers <==> d in h.handlers))
              && (forall d :: d != c && d in h.handlers ==> h'.handlers[d] == h.handlers[d])
  {
    hide Inv;
    EveryInterleaving(cfg, withRelay, es, hs, i + 1);
    InverseHere(cfg, hs[i + 1]);
    var h, c := hs[i], es[i].c;
    var n := h.handlers[c].hello.value;
    var r1 := h.reg.(peers := h.reg.peers[n := PeerRecord(c, es[i].candidates)]);
    LiveIs(r1, n);
  }

  lemma LiveIs(r: Registry, n: NodeId)
    ensures forall x :: x in LiveWaiters(r, n) <==>
              x != n && x in r.peers && WaiterKey(x, r.peers[x].conn) in At(r.waiters, n)
  {
    forall x | x != n && x in r.peers && WaiterKey(x, r.peers[x].conn) in At(r.waiters, n)
      ensures x in LiveWaiters(r, n)
    {
      var k := WaiterKey(x, r.peers[x].conn);
      assert Current(r.peers, k.requester, k.conn);
    }
  }

  /** The replaced connection is told to close, once. */
  lemma EvictsExactly(cfg: Config, withRelay: bool, es: seq<Event>, hs: seq<Hub>, i: nat)
    requires IsRun(cfg, withRelay, es, hs) && i < |es| && es[i].Evict?
    ensures var h, h', c := hs[i], hs[i + 1], es[i].c;
            && c in h.handlers && h.handlers[c].evict.Some?
            && h' == h.(kicked := h.kicked + {h.handlers[c].evict.value},
                        handlers := h.handlers[c := h.handlers[c].(evict := None)])
  {}

  /** The records and the waits that are not of `c`. */
  ghost predicate Forgets(r: Registry, r': Registry, c: ConnId) {
    && (forall n :: n in r'.peers <==> n in r.peers && r.peers[n].conn != c)
    && (forall n :: n in r'.peers ==> r'.peers[n] == r.peers[n])
    && (forall t, k :: k in At(r'.waiters, t) <==> k in At(r.waiters, t) && k.conn != c)
  }

  /** A closing connection takes its own record and waits, if they are its own, and nothing else. */
  lemma ClosesExactly(cfg: Config, withRelay: bool, es: seq<Event>, hs: seq<Hub>, i: nat)
    requires IsRun(cfg, withRelay, es, hs) && i < |es| && es[i].Close?
    ensures var h, h', c := hs[i], hs[i + 1], es[i].c;
            && Forgets(h.reg, h'.reg, c)
            && Inverse(h'.reg) && h' == h.(reg := h'.reg, handlers := h.handlers - {c})
  {
    hide Inv, Inverse, Unregister, Forgets;
    EveryInterleaving(cfg, withRelay, es, hs, i);
    EveryInterleaving(cfg, withRelay, es, hs, i + 1);
    InverseHere(cfg, hs[i + 1]);
    CloseIs(cfg, hs[i], es[i].c);
  }

  lemma CloseIs(cfg: Config, h: Hub, c: ConnId)
    requires Inv(cfg, h) && c in h.handlers
    ensures Forgets(h.reg, CloseStep(h, c).reg, c)
  {
    hide RegistryCapped, BoxesCapped, Numbered, Without;
    WaitersProved(h.reg, h.handlers);
    assert forall n :: n in h.reg.peers ==> ProvedBy(h.handlers, h.reg.peers[n].conn, n);
    if h.handlers[c].active.Some? {
      var key := WaiterKey(h.handlers[c].active.value, c);
      WithoutAt(h.reg.waiters, At(h.reg.pendingBy, key), key);
    }
  }

  lemma WaitersProved(r: Registry, hs: map<ConnId, Handler>)
    requires Inverse(r) && NoGhosts(r, hs)
    ensures forall t, k :: k in At(r.waiters, t) ==> ProvedBy(hs, k.conn, k.requester)
  {
    forall t, k | k in At(r.waiters, t)
      ensures ProvedBy(hs, k.conn, k.requester)
    {
      assert t in At(r.pendingBy, k);
    }
  }

  /** Any other message is queued if there is room; if not, its handler leaves. */
  lemma SendsExactly(cfg: Config, withRelay: bool, es: seq<Event>, hs: seq<Hub>, i: nat)
    requires IsRun(cfg, withRelay, es, hs) && i < |es| && es[i].Send?
    ensures var h, h', c := hs[i], hs[i + 1], es[i].c;
            if HasRoom(cfg, h, c)
            then Appended(h, h', c, Plain(es[i].text)) && h' == h.(boxes := h.boxes[c := h'.boxes[c]])
            else c in h.handlers && h' == h.(handlers := h.handlers[c := h.handlers[c].(leaving := true)])
  {}
}
