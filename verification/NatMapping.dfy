/** Inferring a NAT's mapping behaviour from STUN observations, as section 4.3 of RFC 5780 does. */
module NatMapping {
  import opened Common
  import opened Net

  datatype Behavior = EndpointIndependent | AddressDependent | AddressAndPortDependent | Undetermined

  datatype Observation = Observation(server: SocketAddr, mapped: SocketAddr)

  // ---------------------------------------------------------------- what a NAT is

  /** For one local socket, a NAT gives each destination a public address. */
  type Nat = SocketAddr -> SocketAddr

  /** The three classes, each inside the next. */
  ghost predicate InClass(b: Behavior, nat_: Nat) {
    match b
    case EndpointIndependent => forall x, y :: nat_(x) == nat_(y)
    case AddressDependent => forall x: SocketAddr, y: SocketAddr :: x.Ip() == y.Ip() ==> nat_(x) == nat_(y)
    case AddressAndPortDependent => true
    case Undetermined => false
  }

  function Rank(b: Behavior): nat {
    match b
    case EndpointIndependent => 0
    case AddressDependent => 1
    case AddressAndPortDependent => 2
    case Undetermined => 3
  }

  ghost predicate Explains(nat_: Nat, obs: seq<Observation>) {
    forall o :: o in obs ==> nat_(o.server) == o.mapped
  }

  ghost predicate Explainable(b: Behavior, obs: seq<Observation>) {
    exists nat_: Nat :: InClass(b, nat_) && Explains(nat_, obs)
  }

  /** The smallest class holding a NAT that could have produced these observations. */
  ghost predicate Least(b: Behavior, obs: seq<Observation>) {
    Explainable(b, obs) && forall c: Behavior :: Rank(c) < Rank(b) ==> !Explainable(c, obs)
  }

  /** One mapping per destination. */
  ghost predicate Functional(obs: seq<Observation>) {
    forall o, p :: o in obs && p in obs && o.server == p.server ==> o.mapped == p.mapped
  }

  // ---------------------------------------------------------------- evidence, free of order

  predicate AllIpv4(obs: seq<Observation>) { forall o :: o in obs ==> o.server.V4? && o.mapped.V4? }

  ghost predicate TwoIps(obs: seq<Observation>) {
    exists o, p :: o in obs && p in obs && o.server.Ip() != p.server.Ip()
  }

  ghost predicate AllSame(obs: seq<Observation>) { forall o, p :: o in obs && p in obs ==> o.mapped == p.mapped }

  predicate PortsDiffer(o: Observation, p: Observation) {
    o.server.Ip() == p.server.Ip() && o.server.port != p.server.port
  }

  ghost predicate PortPair(obs: seq<Observation>) { exists o, p :: o in obs && p in obs && PortsDiffer(o, p) }

  ghost predicate Conflict(obs: seq<Observation>) {
    exists o, p :: o in obs && p in obs && PortsDiffer(o, p) && o.mapped != p.mapped
  }

  ghost function Verdict(obs: seq<Observation>): Behavior {
    if |obs| < 2 || !AllIpv4(obs) then Undetermined
    else if TwoIps(obs) && AllSame(obs) then EndpointIndependent
    else if Conflict(obs) then AddressAndPortDependent
    else if TwoIps(obs) && PortPair(obs) then AddressDependent
    else Undetermined
  }

  // ---------------------------------------------------------------- the classifier

  lemma DistinctIps(obs: seq<Observation>, ips: set<IpAddr>)
    requires ips == set o | o in obs :: o.server.Ip()
    ensures |ips| >= 2 <==> TwoIps(obs)
  {
    if x, y :| x in ips && y in ips && x != y {
      SubsetCard({x, y}, ips);
      assert |{x, y}| == 2;
    } else if ips != {} {
      var x :| x in ips;
      assert ips == {x};
      assert forall o :: o in obs ==> o.server.Ip() in ips;
    } else {
      assert forall o :: o in obs ==> o.server.Ip() in ips;
    }
  }

  ghost predicate Hit(o: Observation, p: Observation, differ: bool) {
    PortsDiffer(o, p) && (differ ==> o.mapped != p.mapped)
  }

  /** Whether a pair was met before the loops reached `i` and `j`. */
  ghost predicate PairBefore(obs: seq<Observation>, i: nat, j: nat, differ: bool)
    requires i <= |obs| && j <= |obs|
  {
    exists k, l :: 0 <= k < l < |obs| && (k < i || (k == i && l < j)) && Hit(obs[k], obs[l], differ)
  }

  /** Looking at each unordered pair once finds what looking at all ordered pairs would. */
  lemma PairsSeen(obs: seq<Observation>, differ: bool)
    ensures PairBefore(obs, |obs|, |obs|, differ) <==> if differ then Conflict(obs) else PortPair(obs)
  {
    if differ && Conflict(obs) {
      var o, p :| o in obs && p in obs && PortsDiffer(o, p) && o.mapped != p.mapped;
      PairAt(obs, o, p, differ);
    } else if !differ && PortPair(obs) {
      var o, p :| o in obs && p in obs && PortsDiffer(o, p);
      PairAt(obs, o, p, differ);
    }
  }

  lemma PairAt(obs: seq<Observation>, o: Observation, p: Observation, differ: bool)
    requires o in obs && p in obs && PortsDiffer(o, p) && (differ ==> o.mapped != p.mapped)
    ensures PairBefore(obs, |obs|, |obs|, differ)
  {
    var k :| 0 <= k < |obs| && obs[k] == o;
    var l :| 0 <= l < |obs| && obs[l] == p;
    if k < l {
      assert Hit(obs[k], obs[l], differ);
    } else {
      assert Hit(obs[l], obs[k], differ);
    }
  }

  lemma InnerStarts(obs: seq<Observation>, i: nat, differ: bool)
    requires i < |obs|
    ensures PairBefore(obs, i, i + 1, differ) == PairBefore(obs, i, 0, differ)
  {}

  lemma InnerStep(obs: seq<Observation>, i: nat, j: nat, differ: bool)
    requires i < j < |obs|
    ensures PairBefore(obs, i, j + 1, differ) == (PairBefore(obs, i, j, differ) || Hit(obs[i], obs[j], differ))
  {}

  lemma InnerEnds(obs: seq<Observation>, i: nat, differ: bool)
    requires i < |obs|
    ensures PairBefore(obs, i, |obs|, differ) == PairBefore(obs, i + 1, 0, differ)
  {}

  lemma OuterEnds(obs: seq<Observation>, differ: bool)
    ensures PairBefore(obs, 0, 0, differ) == false
    ensures PairBefore(obs, |obs|, 0, differ) == PairBefore(obs, |obs|, |obs|, differ)
  {}

  lemma ConflictFound(obs: seq<Observation>, i: nat, j: nat)
    requires i < |obs| && j < |obs| && Hit(obs[i], obs[j], true)
    ensures Conflict(obs)
  {
    assert obs[i] in obs && obs[j] in obs;
  }

  lemma SameAsFirst(obs: seq<Observation>)
    requires obs != []
    ensures AllSame(obs) <==> forall o :: o in obs ==> o.mapped == obs[0].mapped
  {
    assert obs[0] in obs;
  }

  /** Each pair once; stops at the first mapping that follows the port. */
  method ScanPorts(obs: seq<Observation>) returns (ported: bool, conflict: bool)
    ensures conflict <==> Conflict(obs)
    ensures !conflict ==> (ported <==> PortPair(obs))
  {
    hide PairBefore, Conflict, PortPair;
    PairsSeen(obs, true);
    PairsSeen(obs, false);
    OuterEnds(obs, true);
    OuterEnds(obs, false);
    ported, conflict := false, false;
    var i := 0;
    while i < |obs|
      invariant i <= |obs|
      invariant ported <==> PairBefore(obs, i, 0, false)
      invariant !PairBefore(obs, i, 0, true)
    {
      var j := i + 1;
      InnerStarts(obs, i, true);
      InnerStarts(obs, i, false);
      while j < |obs|
        invariant i < j <= |obs|
        invariant ported <==> PairBefore(obs, i, j, false)
        invariant !PairBefore(obs, i, j, true)
      {
        InnerStep(obs, i, j, true);
        InnerStep(obs, i, j, false);
        if PortsDiffer(obs[i], obs[j]) {
          ported := true;
          if obs[i].mapped != obs[j].mapped {
            ConflictFound(obs, i, j);
            return ported, true;
          }
        }
        j := j + 1;
      }
      InnerEnds(obs, i, true);
      InnerEnds(obs, i, false);
      i := i + 1;
    }
  }

  method Classify(obs: seq<Observation>) returns (r: Behavior)
    ensures r == Verdict(obs)
  {
    hide Conflict, PortPair, TwoIps, AllSame;
    if |obs| < 2 || exists o :: o in obs && (!o.server.V4? || !o.mapped.V4?) { return Undetermined; }
    var ips := set o | o in obs :: o.server.Ip();
    DistinctIps(obs, ips);
    var first := obs[0].mapped;
    SameAsFirst(obs);
    if |ips| >= 2 && forall o :: o in obs ==> o.mapped == first { return EndpointIndependent; }
    var ported, conflict := ScanPorts(obs);
    if conflict { return AddressAndPortDependent; }
    if !ported || |ips| < 2 { return Undetermined; }
    if exists o :: o in obs && o.mapped != first { return AddressDependent; }
    r := Undetermined;
  }

  /** The order in which the observations were made does not matter. */
  lemma VerdictIsOrderFree(obs: seq<Observation>, obs': seq<Observation>)
    requires multiset(obs) == multiset(obs')
    ensures Verdict(obs) == Verdict(obs')
  {
    assert |obs| == |multiset(obs)| == |multiset(obs')| == |obs'|;
    assert forall o :: o in obs <==> o in multiset(obs);
    assert forall o :: o in obs' <==> o in multiset(obs');
  }

  // ---------------------------------------------------------------- soundness

  /** The NAT that answers as observed, destination by destination. */
  ghost function Replay(obs: seq<Observation>, d: SocketAddr): SocketAddr {
    if exists o :: o in obs && o.server == d then (var o :| o in obs && o.server == d; o.mapped) else d
  }

  lemma SomeNatExplains(obs: seq<Observation>)
    requires Functional(obs)
    ensures Explainable(AddressAndPortDependent, obs)
  {
    var nat_: Nat := d => Replay(obs, d);
    assert InClass(AddressAndPortDependent, nat_) && Explains(nat_, obs);
  }

  /** Two observations of one address agree. */
  ghost predicate AddressFunctional(obs: seq<Observation>) {
    forall o, p :: o in obs && p in obs && o.server.Ip() == p.server.Ip() ==> o.mapped == p.mapped
  }

  /** The same, address by address; addresses never seen go to one place. */
  ghost function ReplayIp(obs: seq<Observation>, ip: IpAddr, unseen: SocketAddr): SocketAddr {
    if exists o :: o in obs && o.server.Ip() == ip then (var o :| o in obs && o.server.Ip() == ip; o.mapped) else unseen
  }

  lemma AddressNatExplains(obs: seq<Observation>, unseen: SocketAddr)
    requires AddressFunctional(obs)
    ensures Explainable(AddressDependent, obs)
  {
    var nat_: Nat := (d: SocketAddr) => ReplayIp(obs, d.Ip(), unseen);
    assert InClass(AddressDependent, nat_) by { hide ReplayIp; }
    assert Explains(nat_, obs);
  }

  lemma ConstantNatExplains(obs: seq<Observation>)
    requires obs != [] && AllSame(obs)
    ensures Explainable(EndpointIndependent, obs)
  {
    var m := obs[0].mapped;
    var nat_: Nat := _ => m;
    assert InClass(EndpointIndependent, nat_) && Explains(nat_, obs);
  }

  lemma ExplainableIsFunctional(b: Behavior, obs: seq<Observation>)
    requires Explainable(b, obs)
    ensures Functional(obs)
    ensures b == EndpointIndependent ==> AllSame(obs)
    ensures b == AddressDependent ==> AddressFunctional(obs)
  {}

  /** Under an IPv4 server, equal address and port is equal destination. */
  lemma NoConflict(obs: seq<Observation>)
    requires Functional(obs) && !Conflict(obs) && forall o :: o in obs ==> o.server.V4?
    ensures AddressFunctional(obs)
  {
    forall o, p | o in obs && p in obs && o.server.Ip() == p.server.Ip() ensures o.mapped == p.mapped {
      if o.server.port != p.server.port {
        assert PortsDiffer(o, p);
      }
    }
  }

  lemma LeastEim(obs: seq<Observation>)
    requires obs != [] && AllSame(obs)
    ensures Least(EndpointIndependent, obs)
  {
    ConstantNatExplains(obs);
  }

  lemma LeastAdm(obs: seq<Observation>)
    requires obs != [] && Functional(obs) && !Conflict(obs) && !AllSame(obs) && forall o :: o in obs ==> o.server.V4?
    ensures Least(AddressDependent, obs)
  {
    NoConflict(obs);
    AddressNatExplains(obs, obs[0].mapped);
    if Explainable(EndpointIndependent, obs) { ExplainableIsFunctional(EndpointIndependent, obs); }
    assert forall c: Behavior :: Rank(c) < 1 ==> c == EndpointIndependent;
  }

  lemma LeastApdm(obs: seq<Observation>)
    requires Functional(obs) && Conflict(obs)
    ensures Least(AddressAndPortDependent, obs)
  {
    SomeNatExplains(obs);
    if Explainable(EndpointIndependent, obs) { ExplainableIsFunctional(EndpointIndependent, obs); }
    if Explainable(AddressDependent, obs) { ExplainableIsFunctional(AddressDependent, obs); }
    assert forall c: Behavior :: Rank(c) < 2 ==> c == EndpointIndependent || c == AddressDependent;
  }

  /** A verdict names the smallest class that accounts for the observations, exactly when they
      give each destination one mapping (otherwise no NAT accounts for them at all). */
  lemma VerdictIsLeast(obs: seq<Observation>)
    requires Verdict(obs) != Undetermined
    ensures Least(Verdict(obs), obs) <==> Functional(obs)
  {
    hide Explainable, Functional, AllSame, Conflict, TwoIps, PortPair;
    var b := Verdict(obs);
    if Explainable(b, obs) { ExplainableIsFunctional(b, obs); }
    if Functional(obs) {
      match b
      case EndpointIndependent => LeastEim(obs);
      case AddressDependent => if !AllSame(obs) { LeastAdm(obs); }
      case AddressAndPortDependent => LeastApdm(obs);
    }
  }

  /** So a verdict never exceeds the class of the NAT that was observed. */
  lemma NeverOverstated(obs: seq<Observation>, nat_: Nat, c: Behavior)
    requires Verdict(obs) != Undetermined && Explains(nat_, obs) && InClass(c, nat_)
    ensures Rank(Verdict(obs)) <= Rank(c)
  {
    hide Verdict, Functional;
    assert Explainable(c, obs);
    ExplainableIsFunctional(c, obs);
    VerdictIsLeast(obs);
  }

  // ---------------------------------------------------------------- the probe

  datatype Reply = Reply(mapped: SocketAddr, other: Option<SocketAddr>)

  datatype Evidence = Rfc5780 | InsufficientEvidence

  datatype Probe = Probe(observations: seq<Observation>, other: Option<SocketAddr>, mapping: Behavior,
                         evidence: Evidence)

  predicate ValidOther(primary: SocketAddr, other: SocketAddr) {
    && other.Ip() != Ip4([0, 0, 0, 0])
    && other.Ip() != Ip6([0, 0, 0, 0, 0, 0, 0, 0, 0, 0, 0, 0, 0, 0, 0, 0])
    && other.port != 0
    && primary.V4? == other.V4?
    && other.Ip() != primary.Ip()
    && other.port != primary.port
  }

  function WithPort(a: SocketAddr, port: bv16): SocketAddr {
    if a.V4? then V4(a.octets4, port) else V6(a.octets6, port, 0, 0)
  }

  /** Every observation is the network's answer for its server. */
  ghost predicate Answered(obs: seq<Observation>, query: SocketAddr -> Option<Reply>) {
    forall o :: o in obs ==> query(o.server).Some? && query(o.server).value.mapped == o.mapped
  }

  /** The destinations asked are those observed, and at most one more that did not answer. */
  ghost predicate Asked(asked: seq<SocketAddr>, obs: seq<Observation>, query: SocketAddr -> Option<Reply>) {
    && |obs| <= |asked| <= |obs| + 1
    && (forall i :: 0 <= i < |obs| ==> asked[i] == obs[i].server)
    && (|asked| > |obs| ==> query(asked[|obs|]).None?)
    && (forall i, j :: 0 <= i < j < |asked| ==> asked[i] != asked[j])
  }

  /** Tests I, II and III, each sent only when the one before leaves the question open: `asked` lists
      the destinations in order. The network is what it answers to each. */
  method RunProbe(local: SocketAddr, primary: SocketAddr, query: SocketAddr -> Option<Reply>)
    returns (r: Option<Probe>, asked: seq<SocketAddr>)
    ensures r.None? <==> !local.V4? || !primary.V4? || query(primary).None?
    ensures asked == [] <==> !local.V4? || !primary.V4?
    ensures r.None? ==> |asked| <= 1
    ensures r.Some? ==> r.value.observations != [] && Answered(r.value.observations, query)
    ensures r.Some? ==> Asked(asked, r.value.observations, query)
    ensures r.Some? ==> (r.value.evidence == InsufficientEvidence <==> r.value.mapping == Undetermined)
    ensures r.Some? && r.value.evidence == Rfc5780 ==> Least(r.value.mapping, r.value.observations)
    ensures r.Some? && r.value.evidence == Rfc5780 ==>
              (r.value.mapping == Verdict(r.value.observations)
               <==> |r.value.observations| >= 2 && forall o :: o in r.value.observations ==> o.mapped.V4?)
    ensures r.Some? ==> (r.value.evidence == Rfc5780 <==> Conclusive(local, primary, query))
    ensures r.Some? ==> r.value.other == query(primary).value.other && |asked| <= 3
    ensures r.Some? && r.value.mapping == EndpointIndependent ==> |asked| == |r.value.observations| <= 2
  {
    hide Least, Verdict, ValidOther, WithPort;
    asked := [];
    if !local.V4? || !primary.V4? { return None, asked; }
    asked := asked + [primary];
    var first := query(primary);
    if first.None? { return None, asked; }
    var other := first.value.other;
    var obs := [Observation(primary, first.value.mapped)];
    if first.value.mapped == local {
      LeastEim(obs);
      OneTest(obs);
      return Some(Probe(obs, other, EndpointIndependent, Rfc5780)), asked;
    }
    if other.None? || !ValidOther(primary, other.value) {
      return Some(Probe(obs, other, Undetermined, InsufficientEvidence)), asked;
    }
    var target := WithPort(other.value, primary.port);
    ThreeTargets(primary, other.value);
    asked := asked + [target];
    var second := query(target);
    if second.None? { return Some(Probe(obs, other, Undetermined, InsufficientEvidence)), asked; }
    obs := obs + [Observation(target, second.value.mapped)];
    if second.value.mapped == first.value.mapped {
      LeastEim(obs);
      TwoTests(obs, primary, target);
      return Some(Probe(obs, other, EndpointIndependent, Rfc5780)), asked;
    }
    asked := asked + [other.value];
    var third := query(other.value);
    if third.None? { return Some(Probe(obs, other, Undetermined, InsufficientEvidence)), asked; }
    obs := obs + [Observation(other.value, third.value.mapped)];
    var mapping := if third.value.mapped == second.value.mapped then AddressDependent else AddressAndPortDependent;
    ThreeTests(obs, mapping);
    r := Some(Probe(obs, other, mapping, Rfc5780));
  }

  /** What the network must answer for the probe to conclude. */
  ghost predicate Conclusive(local: SocketAddr, primary: SocketAddr, query: SocketAddr -> Option<Reply>) {
    && query(primary).Some?
    && var first := query(primary).value;
       || first.mapped == local
       || (&& first.other.Some? && ValidOther(primary, first.other.value)
           && var second := query(WithPort(first.other.value, primary.port));
              && second.Some?
              && (second.value.mapped == first.mapped || query(first.other.value).Some?))
  }

  /** The alternate address at the primary's port differs from both in the part under test. */
  lemma ThreeTargets(primary: SocketAddr, other: SocketAddr)
    requires primary.V4? && ValidOther(primary, other)
    ensures var target := WithPort(other, primary.port);
            && target.V4? && other.V4?
            && target.Ip() == other.Ip() != primary.Ip()
            && target.port == primary.port != other.port
  {}

  lemma OneTest(obs: seq<Observation>)
    requires |obs| == 1
    ensures Verdict(obs) == Undetermined
  {}

  lemma TwoTests(obs: seq<Observation>, primary: SocketAddr, target: SocketAddr)
    requires |obs| == 2 && obs[0].server == primary && obs[1].server == target && primary.V4? && target.V4?
    requires primary.Ip() != target.Ip() && obs[0].mapped == obs[1].mapped
    ensures Verdict(obs) == EndpointIndependent <==> forall o :: o in obs ==> o.mapped.V4?
    ensures Verdict(obs) == EndpointIndependent || Verdict(obs) == Undetermined
  {
    assert obs[0] in obs && obs[1] in obs;
    assert TwoIps(obs) && AllSame(obs);
  }

  lemma ThreeTests(obs: seq<Observation>, mapping: Behavior)
    requires |obs| == 3 && obs[0].server.V4? && obs[1].server.V4? && obs[2].server.V4?
    requires obs[0].server.Ip() != obs[1].server.Ip() && PortsDiffer(obs[1], obs[2]) && obs[0].mapped != obs[1].mapped
    requires mapping == if obs[2].mapped == obs[1].mapped then AddressDependent else AddressAndPortDependent
    ensures Least(mapping, obs)
    ensures Verdict(obs) == mapping <==> forall o :: o in obs ==> o.mapped.V4?
  {
    hide Least, TwoIps, AllSame, PortPair, Functional, Conflict;
    ThreeShow(obs);
    if obs[2].mapped == obs[1].mapped {
      LeastAdm(obs);
    } else {
      LeastApdm(obs);
    }
  }

  lemma ThreeShow(obs: seq<Observation>)
    requires |obs| == 3 && obs[0].server.Ip() != obs[1].server.Ip() && PortsDiffer(obs[1], obs[2])
      && obs[0].mapped != obs[1].mapped
    ensures TwoIps(obs) && !AllSame(obs) && PortPair(obs) && Functional(obs)
    ensures Conflict(obs) <==> obs[2].mapped != obs[1].mapped
  {
    var a, b, c := obs[0], obs[1], obs[2];
    assert obs == [a, b, c];
    assert a in obs && b in obs && c in obs;
    assert Conflict(obs) <==> c.mapped != b.mapped by {
      hide TwoIps, AllSame, PortPair, Functional;
      assert PortsDiffer(b, c) && !PortsDiffer(a, b) && !PortsDiffer(a, c) && !PortsDiffer(b, a) && !PortsDiffer(c, a);
    }
    hide Conflict;
  }
}
