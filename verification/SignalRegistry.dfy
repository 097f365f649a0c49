/** The signaling registry as the object the handlers share under one lock. */
module SignalRegistry {
  import opened Common
  import opened SignalModel
  import Relay = RelayModel
  import RelayServer
  import Invariants = SignalInvariants
  import Waits = SignalWaits

  class OnlineTable {
    const config: Config
    const relay: RelayServer.Admission?
    var peers: map<NodeId, PeerRecord>
    var waiters: map<NodeId, set<WaiterKey>>
    var pendingBy: map<WaiterKey, set<NodeId>>
    var boxes: map<ConnId, Outbox>
    var kicked: set<ConnId>

    ghost function View(): Registry
      reads this
    {
      Registry(peers, waiters, pendingBy)
    }

    /** What a pairing attempt can see and change. */
    ghost function PairingView(): Hub
      reads this, relay
    {
      Hub(View(), map[], boxes, map[], kicked, 0, if relay == null then None else Some(relay.View()))
    }

    ghost predicate Valid()
      reads this, relay
    {
      && Invariants.RegistryInv(View())
      && (relay != null ==> relay.Valid() && relay.config == config.relay)
    }

    constructor (config: Config, relay: RelayServer.Admission?)
      requires relay != null ==> relay.Valid() && relay.config == config.relay
      ensures Valid() && View() == Registry(map[], map[], map[]) && this.config == config && this.relay == relay
    {
      this.config := config;
      this.relay := relay;
      peers, waiters, pendingBy, boxes, kicked := map[], map[], map[], map[], {};
    }

    /** The sizes of all the sets, added up. */
    method WaiterEntries() returns (total: nat)
      ensures total == |Pairs(waiters)|
    {
      total := 0;
      var rest := waiters;
      while rest.Keys != {}
        invariant rest.Keys <= waiters.Keys && forall t :: t in rest ==> rest[t] == waiters[t]
        invariant total + |Pairs(rest)| == |Pairs(waiters)|
        decreases rest.Keys
      {
        var t :| t in rest;
        Waits.RowAndRest(rest, t);
        total := total + |rest[t]|;
        rest := rest - {t};
      }
      assert Pairs(rest) == {};
    }

    /** How many targets have this key among their waiters: the index spares the search. */
    method PendingCount(key: WaiterKey) returns (count: nat)
      requires Valid()
      ensures count == |set t | t in waiters && key in waiters[t]|
      ensures count == |At(pendingBy, key)|
    {
      TargetsOf(View(), key);
      count := if key in pendingBy then |pendingBy[key]| else 0;
    }

    method AddWaiter(requester: WaiterKey, target: NodeId) returns (inserted: bool)
      requires Valid()
      modifies this`waiters, this`pendingBy
      ensures View() == SignalModel.AddWaiter(old(View()), requester, target)
      ensures target !in peers && target != requester.requester ==> Valid()
      ensures inserted == (requester !in old(At(waiters, target)))
    {
      if target !in peers && target != requester.requester {
        Invariants.AddWaiterKeeps(View(), requester, target);
      }
      inserted := requester !in At(waiters, target);
      waiters := waiters[target := At(waiters, target) + {requester}];
      if inserted {
        pendingBy := pendingBy[requester := At(pendingBy, requester) + {target}];
      }
      assert !inserted ==> waiters == old(waiters) by {
        if !inserted {
          assert old(waiters)[target] + {requester} == old(waiters)[target];
        }
      }
    }

    /** Every requester still on the connection that waited, once each; the waits themselves are gone. */
    method TakeWaitersFor(target: NodeId) returns (live: seq<NodeId>)
      modifies this`waiters, this`pendingBy
      ensures View() == TakeWaiters(old(View()), target)
      ensures Lists(live, LiveWaiters(old(View()), target))
    {
      hide Without;
      live := [];
      NothingTaken(pendingBy, target);
      var taken := At(waiters, target);
      waiters := waiters - {target};
      var rest := taken;
      assert taken - rest == {};
      while rest != {}
        invariant rest <= taken
        invariant waiters == old(waiters) - {target}
        invariant pendingBy == Without(old(pendingBy), taken - rest, target)
        invariant forall i, j :: 0 <= i < j < |live| ==> live[i] != live[j]
        invariant forall x :: x in live <==> x in peers && WaiterKey(x, peers[x].conn) in taken - rest && x != target
      {
        var key :| key in rest;
        ghost var before := live;
        TakenFrom(old(pendingBy), taken - rest, key, target);
        assert taken - rest + {key} == taken - (rest - {key});
        if key in pendingBy {
          var targets := pendingBy[key] - {target};
          if targets == {} {
            pendingBy := pendingBy - {key};
          } else {
            pendingBy := pendingBy[key := targets];
          }
        }
        if Current(peers, key.requester, key.conn) && key.requester != target {
          live := live + [key.requester];
        }
        rest := rest - {key};
        assert taken - rest == taken - rest - {key} + {key};
        TakenOne(peers, before, live, taken, rest, key, target);
      }
      assert taken - rest == taken;
      assert forall x ::
          x in LiveWaiters(old(View()), target) <==> x in peers && WaiterKey(x, peers[x].conn) in taken && x != target;
    }

    /** The critical section of a verified registration: the record goes in and its waiters come out. */
    method Enroll(node: NodeId, conn: ConnId, candidates: seq<Candidate>)
      returns (full: bool, live: seq<NodeId>, replaced: Option<ConnId>)
      requires Valid()
      modifies this`peers, this`waiters, this`pendingBy
      ensures Valid()
      ensures full == (node !in old(peers) && |old(peers)| >= config.maxPeers)
      ensures full ==> View() == old(View())
      ensures !full ==>
                && View() == SignalModel.Enroll(old(View()), node, PeerRecord(conn, candidates))
                && Lists(live, LiveWaiters(old(View()).(peers := peers), node))
                && replaced == (if node in old(peers) then Some(old(peers)[node].conn) else None)
    {
      full := node !in peers && |peers| >= config.maxPeers;
      live, replaced := [], None;
      if full {
        return;
      }
      assert Invariants.RegistryInv(SignalModel.Enroll(View(), node, PeerRecord(conn, candidates))) by {
        Invariants.EnrollKeeps(View(), node, PeerRecord(conn, candidates));
      }
      if node in peers {
        replaced := Some(peers[node].conn);
      }
      peers := peers[node := PeerRecord(conn, candidates)];
      live := TakeWaitersFor(node);
    }

    method Unregister(node: NodeId, conn: ConnId)
      requires Valid()
      modifies this`peers, this`waiters, this`pendingBy
      ensures Valid() && View() == SignalModel.Unregister(old(View()), node, conn)
    {
      hide Invariants.RegistryInv, Without, RelayServer.Admission.Valid;
      Invariants.UnregisterKeeps(View(), node, conn);
      NoEmptyWaits(View());
      if Current(peers, node, conn) {
        peers := peers - {node};
      }
      var key := WaiterKey(node, conn);
      var targets := At(pendingBy, key);
      pendingBy := pendingBy - {key};
      Forget(key, targets);
    }

    /** The end of `unregister`: this connection's key leaves the sets it is in, and empty sets go. */
    method Forget(key: WaiterKey, targets: set<NodeId>)
      requires forall t :: t in waiters ==> waiters[t] != {}
      modifies this`waiters
      ensures waiters == Without(old(waiters), targets, key)
    {
      var rest := targets;
      while rest != {}
        invariant rest <= targets
        invariant waiters.Keys == old(waiters).Keys
        invariant forall t :: t in waiters ==>
                    waiters[t] == if t in targets - rest then old(waiters)[t] - {key} else old(waiters)[t]
      {
        var t :| t in rest;
        if t in waiters {
          waiters := waiters[t := waiters[t] - {key}];
        }
        rest := rest - {t};
      }
      Pruned(old(waiters), waiters, targets, key);
      waiters := map t | t in waiters && waiters[t] != {} :: waiters[t];
    }

    /** Two slots reserved first, then the ticket, then both pushes. */
    method TryPair(a: NodeId, b: NodeId, token: Token, now: nat, later: nat)
      requires Valid() && (forall n :: n in peers ==> peers[n].conn in boxes)
      modifies this`boxes, this`kicked, if relay == null then {} else {relay}
      ensures Valid()
      ensures PairingView() == SignalModel.TryPair(config, old(PairingView()), a, b, token, now, later)
    {
      hide Invariants.RegistryInv, Relay.Issue;
      if a !in peers || b !in peers {
        return;
      }
      var ra, rb := peers[a], peers[b];
      if Room(config.outboxCap, boxes[ra.conn]) < 1 {
        kicked := kicked + {ra.conn};
        return;
      }
      if Room(config.outboxCap, boxes[rb.conn]) < (if ra.conn == rb.conn then 2 else 1) {
        kicked := kicked + {rb.conn};
        return;
      }
      if relay != null {
        var _ := relay.Issue(now, later, token, a, b);
      }
      boxes := Push(boxes, ra.conn, PeerCandidates(b, rb.candidates, token, rb.conn));
      boxes := Push(boxes, rb.conn, PeerCandidates(a, ra.candidates, token, ra.conn));
    }

    /** The critical section of a lookup; `allowed` is the rate limiters' verdict. */
    method Lookup(me: NodeId, conn: ConnId, target: NodeId, allowed: bool, token: Token, now: nat, later: nat)
      returns (superseded: bool)
      requires Valid() && (forall n :: n in peers ==> peers[n].conn in boxes)
      modifies this`waiters, this`pendingBy, this`boxes, this`kicked, if relay == null then {} else {relay}
      ensures Valid()
      ensures superseded == !Current(peers, me, conn)
      ensures PairingView() == if superseded then old(PairingView())
                               else LookupOn(config, old(PairingView()), conn, me, target, allowed, token, now, later)
    {
      hide Invariants.RegistryInv, SignalModel.TryPair, SignalModel.AddWaiter;
      superseded := !Current(peers, me, conn);
      if superseded || !allowed || me == target {
        return;
      }
      if target in peers {
        TryPair(me, target, token, now, later);
        return;
      }
      var key := WaiterKey(me, conn);
      if key !in At(waiters, target) {
        var mine := PendingCount(key);
        if mine >= config.maxPending {
          return;
        }
        var all := WaiterEntries();
        if all >= config.maxWaiters {
          return;
        }
        var _ := AddWaiter(key, target);
      } else {
        WaitingAlready(View(), key, target);
      }
    }
  }

  lemma WaitingAlready(r: Registry, key: WaiterKey, target: NodeId)
    requires key in At(r.waiters, target)
    ensures SignalModel.AddWaiter(r, key, target) == r
  {}

  lemma TargetsOf(r: Registry, key: WaiterKey)
    requires Invariants.RegistryInv(r)
    ensures (set t | t in r.waiters && key in r.waiters[t]) == At(r.pendingBy, key)
  {
    forall t ensures (t in r.waiters && key in r.waiters[t]) <==> t in At(r.pendingBy, key) {
      assert key in At(r.waiters, t) <==> t in At(r.pendingBy, key);
    }
  }

  lemma NoEmptyWaits(r: Registry)
    requires Invariants.RegistryInv(r)
    ensures forall t :: t in r.waiters ==> r.waiters[t] != {}
  {}

  lemma NothingTaken<K, V>(m: map<K, set<V>>, v: V)
    ensures Without(m, {}, v) == m
  {}

  /** Removing the value row by row and then dropping the empty rows. */
  lemma Pruned<K, V>(m: map<K, set<V>>, m': map<K, set<V>>, ks: set<K>, v: V)
    requires forall k :: k in m ==> m[k] != {}
    requires m'.Keys == m.Keys && forall k :: k in m' ==> m'[k] == if k in ks then m[k] - {v} else m[k]
    ensures (map k | k in m' && m'[k] != {} :: m'[k]) == Without(m, ks, v)
  {}

  /** Taking the value out of one more set. */
  lemma TakenFrom<K, V>(m: map<K, set<V>>, ks: set<K>, k: K, v: V)
    requires k !in ks
    ensures var m' := Without(m, ks, v);
            Without(m, ks + {k}, v)
            == if k !in m' then m'
               else if m'[k] - {v} == {} then m' - {k}
               else m'[k := m'[k] - {v}]
  {}

  /** One turn of the loop over the taken waiters. */
  lemma TakenOne(peers: map<NodeId, PeerRecord>, before: seq<NodeId>, live: seq<NodeId>, taken: set<WaiterKey>,
                 rest: set<WaiterKey>, key: WaiterKey, target: NodeId)
    requires key in taken && key !in rest
    requires forall i, j :: 0 <= i < j < |before| ==> before[i] != before[j]
    requires forall x ::
               x in before <==> x in peers && WaiterKey(x, peers[x].conn) in taken - rest - {key} && x != target
    requires var stays := Current(peers, key.requester, key.conn) && key.requester != target;
             live == before + if stays then [key.requester] else []
    ensures forall i, j :: 0 <= i < j < |live| ==> live[i] != live[j]
    ensures forall x :: x in live <==> x in peers && WaiterKey(x, peers[x].conn) in taken - rest && x != target
  {
    if Current(peers, key.requester, key.conn) && key.requester != target {
      assert key == WaiterKey(key.requester, peers[key.requester].conn);
      assert key.requester !in before;
    }
  }
}
