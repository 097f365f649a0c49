/** No wait is lost and none outlives its connection. */
module SignalWaits {
  import opened Common
  import opened SignalModel
  import opened SignalInvariants
  import Relay = RelayModel

  // ------------------------------------------------------------ counting

  /** The sum the server computes: the sizes of all the sets. */
  ghost function SumSizes<K, V>(m: map<K, set<V>>): nat
    decreases |m|
  {
    if m == map[] then 0 else var k :| k in m; |m[k]| + SumSizes(m - {k})
  }

  lemma {:induction false} SumIsPairs<K, V>(m: map<K, set<V>>)
    ensures SumSizes(m) == |Pairs(m)|
    decreases |m|
  {
    if m == map[] {
      assert Pairs(m) == {};
    } else {
      var k :| k in m && SumSizes(m) == |m[k]| + SumSizes(m - {k});
      SumIsPairs(m - {k});
      RowAndRest(m, k);
    }
  }

  lemma RowAndRest<K, V>(m: map<K, set<V>>, k: K)
    requires k in m
    ensures |Pairs(m)| == |m[k]| + |Pairs(m - {k})|
  {
    var row := set v | v in m[k] :: (k, v);
    RowSize(k, m[k], row);
    assert Pairs(m) == row + Pairs(m - {k});
    assert row !! Pairs(m - {k});
  }

  lemma {:induction false} RowSize<K, V>(k: K, vs: set<V>, row: set<(K, V)>)
    requires forall p :: p in row <==> p.0 == k && p.1 in vs
    ensures |row| == |vs|
    decreases vs
  {
    if v :| v in vs {
      RowSize(k, vs - {v}, row - {(k, v)});
    } else {
      assert row == {};
    }
  }

  lemma {:induction false} SwappedSize<K, V>(a: set<(K, V)>, b: set<(V, K)>)
    requires forall k, v :: (k, v) in a <==> (v, k) in b
    ensures |a| == |b|
    decreases a
  {
    if p :| p in a {
      var (k, v) := p;
      SwappedSize(a - {(k, v)}, b - {(v, k)});
    } else {
      assert forall q :: q in b ==> (q.1, q.0) in a;
      assert b == {};
    }
  }

  /** Counted by target or by waiting connection, the waits are the same number, and within the cap. */
  lemma WaitsCountedTwice(cfg: Config, withRelay: bool, es: seq<Event>, hs: seq<Hub>, i: nat)
    requires IsRun(cfg, withRelay, es, hs) && i < |hs|
    ensures SumSizes(hs[i].reg.waiters) == SumSizes(hs[i].reg.pendingBy) <= cfg.maxWaiters
  {
    hide Step, Enabled;
    EveryInterleaving(cfg, withRelay, es, hs, i);
    var r := hs[i].reg;
    SumIsPairs(r.waiters);
    SumIsPairs(r.pendingBy);
    forall t, k ensures (t, k) in Pairs(r.waiters) <==> (k, t) in Pairs(r.pendingBy) {
      assert k in At(r.waiters, t) <==> t in At(r.pendingBy, k);
    }
    SwappedSize(Pairs(r.waiters), Pairs(r.pendingBy));
  }

  // ------------------------------------------------------------ teardown

  /** Closing a connection that a newer one has replaced takes its own waits and nothing else. */
  lemma SupersededCloseIsHarmless(cfg: Config, withRelay: bool, es: seq<Event>, hs: seq<Hub>, i: nat, c: ConnId,
                                  n: NodeId)
    requires IsRun(cfg, withRelay, es, hs) && i < |hs|
    requires ProvedBy(hs[i].handlers, c, n) && !Current(hs[i].reg.peers, n, c)
    ensures var r, r' := hs[i].reg, CloseStep(hs[i], c).reg;
            && r'.peers == r.peers
            && (forall k :: At(r'.pendingBy, k) == if k == WaiterKey(n, c) then {} else At(r.pendingBy, k))
            && (forall t :: At(r'.waiters, t) == At(r.waiters, t) - {WaiterKey(n, c)})
  {
    hide Step, Enabled, RegistryInv, Unregister, NoGhosts, Numbered, RegistryCapped, BoxesCapped;
    EveryInterleaving(cfg, withRelay, es, hs, i);
    SupersededUnregister(hs[i].reg, n, c);
  }

  lemma SupersededUnregister(r: Registry, n: NodeId, c: ConnId)
    requires RegistryInv(r) && !Current(r.peers, n, c)
    ensures var r' := Unregister(r, n, c);
            && r'.peers == r.peers
            && (forall k :: At(r'.pendingBy, k) == if k == WaiterKey(n, c) then {} else At(r.pendingBy, k))
            && (forall t :: At(r'.waiters, t) == At(r.waiters, t) - {WaiterKey(n, c)})
  {
    WithoutAt(r.waiters, At(r.pendingBy, WaiterKey(n, c)), WaiterKey(n, c));
    assert forall t :: WaiterKey(n, c) in At(r.waiters, t) <==> t in At(r.pendingBy, WaiterKey(n, c));
  }

  /** With no connection left all three tables are empty. */
  lemma LastCloseEmptiesTheTables(cfg: Config, withRelay: bool, es: seq<Event>, hs: seq<Hub>, i: nat)
    requires IsRun(cfg, withRelay, es, hs) && i < |hs| && hs[i].handlers == map[]
    ensures hs[i].reg == Registry(map[], map[], map[])
  {
    hide Step, Enabled, RegistryInv, NoGhosts;
    EveryInterleaving(cfg, withRelay, es, hs, i);
    NobodyLeft(hs[i].reg, hs[i].handlers);
  }

  lemma NobodyLeft(r: Registry, hs: map<ConnId, Handler>)
    requires RegistryInv(r) && NoGhosts(r, hs) && hs == map[]
    ensures r == Registry(map[], map[], map[])
  {
    assert forall n :: n in r.peers.Keys ==> ProvedBy(hs, r.peers[n].conn, n);
    assert forall k :: k in r.pendingBy.Keys ==> ProvedBy(hs, k.conn, k.requester);
    assert forall n :: n !in r.peers.Keys;
    assert forall k :: k !in r.pendingBy.Keys;
    assert r.peers == map[] && r.pendingBy == map[];
    assert forall k :: At(r.pendingBy, k) == {};
    forall t, k ensures k !in At(r.waiters, t) {
      assert k in At(r.waiters, t) <==> t in At(r.pendingBy, k);
    }
    assert forall t :: At(r.waiters, t) == {};
    assert forall t :: t in r.waiters.Keys ==> r.waiters[t] == At(r.waiters, t);
    assert r.waiters == map[];
  }

  // ------------------------------------------------------------ how a wait ends

  ghost predicate Waits(h: Hub, k: WaiterKey, t: NodeId) {
    t in At(h.reg.pendingBy, k)
  }

  /** The step brings `t` online and its handler now owes the requester a pairing,
      unless the requester has meanwhile come back on another connection. */
  ghost predicate Answers(h: Hub, e: Event, h': Hub, k: WaiterKey, t: NodeId) {
    && e.Admit? && e.c in h'.handlers && h'.handlers[e.c].active == Some(t)
    && t !in h.reg.peers && Current(h'.reg.peers, t, e.c)
    && (Current(h.reg.peers, k.requester, k.conn) ==> k.requester in h'.handlers[e.c].toPair)
  }

  lemma WaitStep(cfg: Config, h: Hub, e: Event, k: WaiterKey, t: NodeId)
    requires Inv(cfg, h) && Enabled(cfg, h, e) && Waits(h, k, t)
    ensures Waits(Step(cfg, h, e), k, t) || e == Close(k.conn) || Answers(h, e, Step(cfg, h, e), k, t)
  {
    hide Inv, Waits, Answers, Relay.Step, LookupStep, CloseStep, AdmitStep;
    if e.Admit? {
      AdmitAnswers(cfg, h, e.c, e.candidates, e.live, k, t);
    } else if e.Close? {
      if e.c != k.conn {
        CloseSpares(cfg, h, e.c, k, t);
      }
    } else if e.Lookup? {
      LookupSpares(cfg, h, e.c, h.handlers[e.c].active.value, e.target, e.allowed, e.token, e.now, e.later, k, t);
    } else {
      OthersSpare(cfg, h, e, k, t);
    }
  }

  lemma OthersSpare(cfg: Config, h: Hub, e: Event, k: WaiterKey, t: NodeId)
    requires Enabled(cfg, h, e) && !e.Admit? && !e.Close? && !e.Lookup? && Waits(h, k, t)
    ensures Waits(Step(cfg, h, e), k, t)
  {
    hide Relay.Step, LookupStep, CloseStep, AdmitStep, CanPair, Room, Push;
    assert Step(cfg, h, e).reg == h.reg;
  }

  lemma CloseSpares(cfg: Config, h: Hub, c: ConnId, k: WaiterKey, t: NodeId)
    requires Inv(cfg, h) && c in h.handlers && Waits(h, k, t) && c != k.conn
    ensures Waits(CloseStep(h, c), k, t)
  {
    if h.handlers[c].active.Some? {
      UnregisterKeeps(h.reg, h.handlers[c].active.value, c);
      hide Unregister;
    }
  }

  lemma LookupSpares(cfg: Config, h: Hub, c: ConnId, me: NodeId, target: NodeId, allowed: bool, token: Token, now: nat,
                     later: nat,
                     k: WaiterKey, t: NodeId)
    requires c in h.handlers && Waits(h, k, t)
    ensures Waits(LookupStep(cfg, h, c, me, target, allowed, token, now, later), k, t)
  {
    hide Relay.Issue;
  }

  lemma AdmitAnswers(cfg: Config, h: Hub, c: ConnId, candidates: seq<Candidate>, live: seq<NodeId>, k: WaiterKey,
                     t: NodeId)
    requires Inv(cfg, h) && Enabled(cfg, h, Admit(c, candidates, live)) && Waits(h, k, t)
    ensures var h' := Step(cfg, h, Admit(c, candidates, live));
            Waits(h', k, t) || Answers(h, Admit(c, candidates, live), h', k, t)
  {
    hide RegistryInv, RegistryCapped, BoxesCapped, NoGhosts, Numbered, Enroll, LiveWaiters, At;
    var n := h.handlers[c].hello.value;
    if !TableFull(cfg, h, n) {
      if n == t {
        EnrollFinds(h.reg, n, PeerRecord(c, candidates), k);
      } else {
        EnrollSpares(h.reg, n, PeerRecord(c, candidates), k, t);
      }
    }
  }

  lemma EnrollSpares(r: Registry, n: NodeId, p: PeerRecord, k: WaiterKey, t: NodeId)
    requires n != t && t in At(r.pendingBy, k)
    ensures t in At(Enroll(r, n, p).pendingBy, k)
  {}

  /** The target was offline, and every requester still on its waiting connection is listed. */
  lemma EnrollFinds(r: Registry, n: NodeId, p: PeerRecord, k: WaiterKey)
    requires RegistryInv(r) && n in At(r.pendingBy, k)
    ensures n !in r.peers && Enroll(r, n, p).peers == r.peers[n := p]
    ensures Current(r.peers, k.requester, k.conn) ==> k.requester in LiveWaiters(r.(peers := r.peers[n := p]), n)
  {
    assert k in At(r.waiters, n) && n in r.waiters;
  }

  /** A wait present at `i` and gone at `j` was ended by its own connection closing, or
      answered by its target coming online. */
  lemma {:induction false} NoWaitIsLost(cfg: Config, withRelay: bool, es: seq<Event>, hs: seq<Hub>, i: nat, j: nat,
                                        k: WaiterKey, t: NodeId)
    returns (m: nat)
    requires IsRun(cfg, withRelay, es, hs) && i <= j < |hs|
    requires Waits(hs[i], k, t) && !Waits(hs[j], k, t)
    ensures i <= m < j && Waits(hs[m], k, t)
    ensures es[m] == Close(k.conn) || Answers(hs[m], es[m], hs[m + 1], k, t)
  {
    hide Step, Waits, Answers, Inv, Enabled;
    if Waits(hs[j - 1], k, t) {
      m := j - 1;
      EveryInterleaving(cfg, withRelay, es, hs, m);
      WaitStep(cfg, hs[m], es[m], k, t);
    } else {
      m := NoWaitIsLost(cfg, withRelay, es, hs, i, j - 1, k, t);
    }
  }
}
