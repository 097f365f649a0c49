/** What every interleaving of the connection handlers keeps. */
module SignalInvariants {
  import opened Common
  import opened SignalModel
  import Relay = RelayModel

  /** The two wait indexes are exact inverses. */
  ghost predicate Inverse(r: Registry) {
    forall t, k :: k in At(r.waiters, t) <==> t in At(r.pendingBy, k)
  }

  ghost predicate NoEmptySets(r: Registry) {
    && (forall t :: t in r.waiters ==> r.waiters[t] != {})
    && (forall k :: k in r.pendingBy ==> r.pendingBy[k] != {})
  }

  /** Nobody waits for a node that is online, or for itself. */
  ghost predicate WaitsMakeSense(r: Registry) {
    && (forall t :: t in r.waiters ==> t !in r.peers)
    && (forall k, t :: t in At(r.pendingBy, k) ==> t != k.requester)
  }

  ghost predicate RegistryInv(r: Registry) {
    Inverse(r) && NoEmptySets(r) && WaitsMakeSense(r)
  }

  /** Every record and every wait belongs to an open connection that proved to be that node. */
  ghost predicate NoGhosts(r: Registry, hs: map<ConnId, Handler>) {
    && (forall n :: n in r.peers ==> ProvedBy(hs, r.peers[n].conn, n))
    && (forall k :: k in r.pendingBy ==> ProvedBy(hs, k.conn, k.requester))
  }

  ghost predicate ProvedBy(hs: map<ConnId, Handler>, c: ConnId, n: NodeId) {
    c in hs && hs[c].active == Some(n)
  }

  /** Ids of open connections are fresh and each connection proves at most one identity, ever. */
  ghost predicate Numbered(hs: map<ConnId, Handler>, boxes: set<ConnId>, identity: map<ConnId, NodeId>,
                           nextId: ConnId) {
    && hs.Keys <= boxes
    && identity.Keys <= boxes
    && (forall c :: c in boxes ==> c < nextId)
    && (forall c :: c in hs ==> hs[c].active == if c in identity then Some(identity[c]) else None)
  }

  ghost predicate RegistryCapped(cfg: Config, r: Registry) {
    && |r.peers| <= cfg.maxPeers
    && |Pairs(r.waiters)| <= cfg.maxWaiters
    && (forall k :: |At(r.pendingBy, k)| <= cfg.maxPending)
  }

  ghost predicate BoxCapped(cap: nat, b: Outbox) {
    b.taken <= |b.log| <= b.taken + cap
  }

  ghost predicate BoxesCapped(cap: nat, boxes: map<ConnId, Outbox>) {
    forall c :: c in boxes ==> BoxCapped(cap, boxes[c])
  }

  ghost predicate Inv(cfg: Config, h: Hub) {
    && RegistryInv(h.reg)
    && RegistryCapped(cfg, h.reg)
    && NoGhosts(h.reg, h.handlers)
    && Numbered(h.handlers, h.boxes.Keys, h.identity, h.nextId)
    && BoxesCapped(cfg.outboxCap, h.boxes)
  }

  // ------------------------------------------------------------ the registry's operations

  lemma AddedAt<K, V>(m: map<K, set<V>>, k: K, v: V)
    ensures var m' := m[k := At(m, k) + {v}];
            && Pairs(m') == Pairs(m) + {(k, v)}
            && forall x :: At(m', x) == At(m, x) + (if x == k then {v} else {})
  {
    var m' := m[k := At(m, k) + {v}];
    assert forall x :: At(m', x) == At(m, x) + (if x == k then {v} else {});
    assert forall p :: p in Pairs(m) <==> p.1 in At(m, p.0);
    assert forall p :: p in Pairs(m') <==> p.1 in At(m', p.0);
  }

  lemma AddWaiterKeeps(r: Registry, key: WaiterKey, target: NodeId)
    requires RegistryInv(r) && target !in r.peers && target != key.requester
    ensures RegistryInv(AddWaiter(r, key, target))
    ensures Pairs(AddWaiter(r, key, target).waiters) == Pairs(r.waiters) + {(target, key)}
    ensures AddWaiter(r, key, target).pendingBy.Keys == r.pendingBy.Keys + {key}
    ensures forall k ::
              At(AddWaiter(r, key, target).pendingBy, k) == At(r.pendingBy, k) + (if k == key then {target} else {})
  {
    AddedAt(r.waiters, target, key);
    AddedAt(r.pendingBy, key, target);
    if key in At(r.waiters, target) {
      assert r.waiters[target] + {key} == r.waiters[target];
      assert target in At(r.pendingBy, key);
    }
  }

  /** Taking one value out of some sets, read back by lookup. */
  lemma WithoutAt<K, V>(m: map<K, set<V>>, ks: set<K>, v: V)
    ensures forall k :: At(Without(m, ks, v), k) == if k in ks then At(m, k) - {v} else At(m, k)
    ensures forall k :: k in Without(m, ks, v) ==> k in m
    ensures (forall k :: k in m ==> m[k] != {}) ==> forall k :: k in Without(m, ks, v) ==> Without(m, ks, v)[k] != {}
    ensures Pairs(Without(m, ks, v)) <= Pairs(m)
  {}

  lemma EnrollKeeps(r: Registry, n: NodeId, p: PeerRecord)
    requires RegistryInv(r)
    ensures RegistryInv(Enroll(r, n, p))
    ensures Pairs(Enroll(r, n, p).waiters) <= Pairs(r.waiters)
    ensures forall k :: k in Enroll(r, n, p).pendingBy ==> k in r.pendingBy
    ensures forall k :: At(Enroll(r, n, p).pendingBy, k) == At(r.pendingBy, k) - {n}
  {
    WithoutAt(r.pendingBy, At(r.waiters, n), n);
    var r' := Enroll(r, n, p);
    assert forall t :: At(r'.waiters, t) == if t == n then {} else At(r.waiters, t);
    assert forall k :: n in At(r.pendingBy, k) <==> k in At(r.waiters, n);
  }

  lemma UnregisterKeeps(r: Registry, n: NodeId, c: ConnId)
    requires RegistryInv(r)
    ensures RegistryInv(Unregister(r, n, c))
    ensures Pairs(Unregister(r, n, c).waiters) <= Pairs(r.waiters)
    ensures forall k :: k in Unregister(r, n, c).pendingBy ==> k in r.pendingBy && k != WaiterKey(n, c)
    ensures forall k :: At(Unregister(r, n, c).pendingBy, k) == if k == WaiterKey(n, c) then {} else At(r.pendingBy, k)
  {
    var key := WaiterKey(n, c);
    WithoutAt(r.waiters, At(r.pendingBy, key), key);
    var r' := Unregister(r, n, c);
    assert forall k :: At(r'.pendingBy, k) == if k == key then {} else At(r.pendingBy, k);
  }

  lemma WaitWithinCaps(cfg: Config, r: Registry, key: WaiterKey, target: NodeId)
    requires RegistryInv(r) && RegistryCapped(cfg, r) && target !in r.peers && target != key.requester
    requires key in At(r.waiters, target)
      || (|At(r.pendingBy, key)| < cfg.maxPending && |Pairs(r.waiters)| < cfg.maxWaiters)
    ensures RegistryCapped(cfg, AddWaiter(r, key, target))
  {
    if key !in At(r.waiters, target) {
      var r' := AddWaiter(r, key, target);
      AddedAt(r.waiters, target, key);
      GrowsByOne(Pairs(r.waiters), Pairs(r'.waiters), (target, key));
      hide RegistryInv, Pairs;
      AddedWithin(r.pendingBy, r'.pendingBy, key, target, cfg.maxPending);
    }
  }

  lemma AddedWithin<K, V>(m: map<K, set<V>>, m': map<K, set<V>>, k: K, v: V, cap: nat)
    requires (forall x :: |At(m, x)| <= cap) && |At(m, k)| < cap && m' == m[k := At(m, k) + {v}]
    ensures forall x :: |At(m', x)| <= cap
  {
    GrowsByOne(At(m, k), At(m', k), v);
    assert forall x :: x != k ==> At(m', x) == At(m, x);
  }

  lemma FewerWaitsWithinCaps(cfg: Config, r: Registry, r': Registry)
    requires RegistryCapped(cfg, r) && Pairs(r'.waiters) <= Pairs(r.waiters) && |r'.peers| <= cfg.maxPeers
    requires forall k :: At(r'.pendingBy, k) <= At(r.pendingBy, k)
    ensures RegistryCapped(cfg, r')
  {
    SubsetCard(Pairs(r'.waiters), Pairs(r.waiters));
    forall k ensures |At(r'.pendingBy, k)| <= cfg.maxPending {
      SubsetCard(At(r'.pendingBy, k), At(r.pendingBy, k));
    }
  }

  // ------------------------------------------------------------ the handlers' steps

  lemma TryPairKeeps(cfg: Config, h: Hub, a: NodeId, b: NodeId, token: Token, now: nat, later: nat)
    requires Inv(cfg, h)
    ensures Inv(cfg, TryPair(cfg, h, a, b, token, now, later))
  {
    hide RegistryInv, RegistryCapped, NoGhosts, Numbered, Relay.Issue;
    assert TryPair(cfg, h, a, b, token, now, later).boxes.Keys == h.boxes.Keys;
  }

  lemma LookupKeeps(cfg: Config, h: Hub, c: ConnId, me: NodeId, target: NodeId, allowed: bool, token: Token, now: nat,
                    later: nat)
    requires Inv(cfg, h) && ProvedBy(h.handlers, c, me)
    ensures Inv(cfg, LookupStep(cfg, h, c, me, target, allowed, token, now, later))
  {
    hide RegistryInv, RegistryCapped, TryPair, BoxesCapped;
    var key := WaiterKey(me, c);
    var h' := LookupStep(cfg, h, c, me, target, allowed, token, now, later);
    if Current(h.reg.peers, me, c) {
      if allowed && me != target && target in h.reg.peers {
        TryPairKeeps(cfg, h, me, target, token, now, later);
      } else if h' != h {
        AddWaiterKeeps(h.reg, key, target);
        WaitWithinCaps(cfg, h.reg, key, target);
        assert h'.reg.peers == h.reg.peers;
      }
    }
  }

  lemma AdmitKeeps(cfg: Config, h: Hub, c: ConnId, n: NodeId, candidates: seq<Candidate>, live: seq<NodeId>)
    requires Inv(cfg, h) && c in h.handlers && h.handlers[c].active.None?
    ensures Inv(cfg, AdmitStep(cfg, h, c, n, candidates, live))
  {
    hide RegistryInv, BoxesCapped, RegistryCapped, NoGhosts, Enroll;
    var h' := AdmitStep(cfg, h, c, n, candidates, live);
    var p := PeerRecord(c, candidates);
    assert Numbered(h'.handlers, h'.boxes.Keys, h'.identity, h'.nextId);
    hide Numbered;
    if TableFull(cfg, h, n) {
      SameActiveNoGhosts(h.reg, h.handlers, h'.handlers);
    } else {
      EnrollKeeps(h.reg, n, p);
      EnrolledWithinCaps(cfg, h, n, p);
      EnrolledNoGhosts(h.reg, h.handlers, h'.handlers, n, p);
    }
  }

  lemma SameActiveNoGhosts(r: Registry, hs: map<ConnId, Handler>, hs': map<ConnId, Handler>)
    requires NoGhosts(r, hs)
    requires forall c :: c in hs && hs[c].active.Some? ==> c in hs' && hs'[c].active == hs[c].active
    ensures NoGhosts(r, hs')
  {}

  lemma EnrolledNoGhosts(r: Registry, hs: map<ConnId, Handler>, hs': map<ConnId, Handler>, n: NodeId, p: PeerRecord)
    requires RegistryInv(r) && NoGhosts(r, hs) && ProvedBy(hs', p.conn, n)
    requires forall c :: c in hs && hs[c].active.Some? ==> c in hs' && hs'[c].active == hs[c].active
    ensures NoGhosts(Enroll(r, n, p), hs')
  {
    EnrollKeeps(r, n, p);
    assert Enroll(r, n, p).peers == r.peers[n := p];
    hide Enroll, RegistryInv;
  }

  lemma EnrolledWithinCaps(cfg: Config, h: Hub, n: NodeId, p: PeerRecord)
    requires RegistryInv(h.reg) && RegistryCapped(cfg, h.reg) && !TableFull(cfg, h, n)
    ensures RegistryCapped(cfg, Enroll(h.reg, n, p))
  {
    EnrollKeeps(h.reg, n, p);
    var peers' := h.reg.peers[n := p];
    GrowsByOne(h.reg.peers.Keys, peers'.Keys, n);
    assert n in h.reg.peers ==> peers'.Keys == h.reg.peers.Keys;
    assert Enroll(h.reg, n, p).peers == peers';
    hide RegistryInv, Enroll;
    FewerWaitsWithinCaps(cfg, h.reg, Enroll(h.reg, n, p));
  }

  lemma CloseKeeps(cfg: Config, h: Hub, c: ConnId)
    requires Inv(cfg, h) && c in h.handlers
    ensures Inv(cfg, CloseStep(h, c))
  {
    hide RegistryInv, BoxesCapped, RegistryCapped, NoGhosts, Unregister;
    var h' := CloseStep(h, c);
    assert Numbered(h'.handlers, h'.boxes.Keys, h'.identity, h'.nextId);
    hide Numbered;
    if h.handlers[c].active.Some? {
      var n := h.handlers[c].active.value;
      UnregisterKeeps(h.reg, n, c);
      UnregisteredWithinCaps(cfg, h.reg, n, c);
      UnregisteredNoGhosts(h.reg, h.handlers, n, c);
    } else {
      SameActiveNoGhosts(h.reg, h.handlers, h'.handlers);
    }
  }

  lemma UnregisteredWithinCaps(cfg: Config, r: Registry, n: NodeId, c: ConnId)
    requires RegistryInv(r) && RegistryCapped(cfg, r)
    ensures RegistryCapped(cfg, Unregister(r, n, c))
  {
    UnregisterKeeps(r, n, c);
    SubsetCard(Unregister(r, n, c).peers.Keys, r.peers.Keys);
    hide Unregister, RegistryInv;
    FewerWaitsWithinCaps(cfg, r, Unregister(r, n, c));
  }

  lemma UnregisteredNoGhosts(r: Registry, hs: map<ConnId, Handler>, n: NodeId, c: ConnId)
    requires RegistryInv(r) && NoGhosts(r, hs) && ProvedBy(hs, c, n)
    ensures NoGhosts(Unregister(r, n, c), hs - {c})
  {
    UnregisterKeeps(r, n, c);
    hide RegistryInv;
  }

  lemma PairNextKeeps(cfg: Config, h: Hub, c: ConnId, token: Token, now: nat, later: nat)
    requires Inv(cfg, h) && Enabled(cfg, h, PairNext(c, token, now, later))
    ensures Inv(cfg, Step(cfg, h, PairNext(c, token, now, later)))
  {
    hide RegistryInv, RegistryCapped, BoxesCapped, TryPair;
    var x := h.handlers[c];
    TryPairKeeps(cfg, h.(handlers := h.handlers[c := x.(toPair := x.toPair[1..])]), x.toPair[0], x.active.value, token,
                 now, later);
  }

  lemma PlainStepKeeps(cfg: Config, h: Hub, e: Event)
    requires Inv(cfg, h) && Enabled(cfg, h, e)
    requires e.Accept? || e.Hello? || e.Evict? || e.Send? || e.Drain? || e.WriterGone? || e.RelayTraffic?
    ensures Inv(cfg, Step(cfg, h, e))
  {
    hide RegistryInv, RegistryCapped, NoGhosts, BoxesCapped, Numbered, Relay.Step, AdmitStep, LookupStep, CloseStep,
      TryPair;
    PlainStepNumbered(cfg, h, e);
    SameActiveNoGhosts(h.reg, h.handlers, Step(cfg, h, e).handlers);
    PlainStepBoxes(cfg, h, e);
  }

  lemma PlainStepNumbered(cfg: Config, h: Hub, e: Event)
    requires Numbered(h.handlers, h.boxes.Keys, h.identity, h.nextId) && Enabled(cfg, h, e)
    requires e.Accept? || e.Hello? || e.Evict? || e.Send? || e.Drain? || e.WriterGone? || e.RelayTraffic?
    ensures var h' := Step(cfg, h, e); Numbered(h'.handlers, h'.boxes.Keys, h'.identity, h'.nextId)
    ensures forall c :: c in h.handlers && h.handlers[c].active.Some? ==>
              c in Step(cfg, h, e).handlers && Step(cfg, h, e).handlers[c].active == h.handlers[c].active
  {
    hide Relay.Step, AdmitStep, LookupStep, CloseStep, TryPair;
    assert Step(cfg, h, e).boxes.Keys == if e.Accept? then h.boxes.Keys + {h.nextId} else h.boxes.Keys;
  }

  lemma PlainStepBoxes(cfg: Config, h: Hub, e: Event)
    requires BoxesCapped(cfg.outboxCap, h.boxes) && Enabled(cfg, h, e)
    requires e.Accept? || e.Hello? || e.Evict? || e.Send? || e.Drain? || e.WriterGone? || e.RelayTraffic?
    ensures BoxesCapped(cfg.outboxCap, Step(cfg, h, e).boxes)
  {
    hide Relay.Step, AdmitStep, LookupStep, CloseStep, TryPair;
  }

  lemma StepKeeps(cfg: Config, h: Hub, e: Event)
    requires Inv(cfg, h) && Enabled(cfg, h, e)
    ensures Inv(cfg, Step(cfg, h, e))
  {
    match e {
      case Admit(c, candidates, live) =>
        hide RegistryInv, RegistryCapped, NoGhosts, BoxesCapped, AdmitStep;
        AdmitKeeps(cfg, h, c, h.handlers[c].hello.value, candidates, live);
      case PairNext(c, token, now, later) =>
        hide Inv, TryPair;
        PairNextKeeps(cfg, h, c, token, now, later);
      case Lookup(c, target, allowed, token, now, later) =>
        hide Inv, LookupStep;
        LookupKeeps(cfg, h, c, h.handlers[c].active.value, target, allowed, token, now, later);
      case Close(c) =>
        hide Inv, CloseStep;
        CloseKeeps(cfg, h, c);
      case _ =>
        hide Inv, Step;
        PlainStepKeeps(cfg, h, e);
    }
  }

  lemma StartKeeps(cfg: Config, withRelay: bool)
    ensures Inv(cfg, Start(withRelay))
  {
    assert Pairs(Start(withRelay).reg.waiters) == {};
  }

  /** Every state of every interleaving satisfies the invariant. */
  lemma {:induction false} EveryInterleaving(cfg: Config, withRelay: bool, es: seq<Event>, hs: seq<Hub>, i: nat)
    requires IsRun(cfg, withRelay, es, hs) && i < |hs|
    ensures Inv(cfg, hs[i])
  {
    hide Step, Inv, Start;
    if i == 0 {
      StartKeeps(cfg, withRelay);
    } else {
      EveryInterleaving(cfg, withRelay, es, hs, i - 1);
      StepKeeps(cfg, hs[i - 1], es[i - 1]);
    }
  }
}
