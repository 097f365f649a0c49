/** Choosing which candidate addresses to advertise, and which of a peer's to try. */
module Candidates {
  import opened Net

  const MAX_CANDIDATES: nat := 32

  datatype Kind = ServerReflexive | Host | Predicted | Relay

  datatype Candidate = Candidate(kind: Kind, addr: SocketAddr)

  function Priority(k: Kind): nat {
    match k case ServerReflexive => 0 case Host => 1 case Predicted => 2 case Relay => 3
  }

  /** Priority first, IPv6 before IPv4 within it. */
  function Key(c: Candidate): (k: nat)
    ensures k < 8
  {
    2 * Priority(c.kind) + if c.addr.V4? then 1 else 0
  }

  function Of(f: Family, cs: seq<Candidate>): seq<Candidate> {
    if cs == [] then [] else (if FamilyOf(cs[0].addr) == f then [cs[0]] else []) + Of(f, cs[1..])
  }

  // ---------------------------------------------------------------- the stable sort

  function WithKey(cs: seq<Candidate>, k: nat): seq<Candidate> {
    if cs == [] then [] else (if Key(cs[0]) == k then [cs[0]] else []) + WithKey(cs[1..], k)
  }

  ghost predicate Ascending(r: seq<Candidate>) { forall i, j :: 0 <= i < j < |r| ==> Key(r[i]) <= Key(r[j]) }

  ghost predicate NoneBelow(r: seq<Candidate>, k: nat) { forall i :: 0 <= i < |r| ==> k <= Key(r[i]) }

  /** What a stable sort by key returns: sorted, and each key's elements in their old order. */
  ghost predicate StablySorted(cs: seq<Candidate>, r: seq<Candidate>) {
    && Ascending(r)
    && (forall k :: 0 <= k < 8 ==> WithKey(r, k) == WithKey(cs, k))
  }

  function FromKey(cs: seq<Candidate>, k: nat): seq<Candidate>
    requires k <= 8
    decreases 8 - k
  {
    if k == 8 then [] else WithKey(cs, k) + FromKey(cs, k + 1)
  }

  function Sorted(cs: seq<Candidate>): seq<Candidate> { FromKey(cs, 0) }

  lemma {:induction false} WithKeyConcat(a: seq<Candidate>, b: seq<Candidate>, k: nat)
    ensures WithKey(a + b, k) == WithKey(a, k) + WithKey(b, k)
  {
    hide Key;
    if a == [] {
      assert a + b == b;
    } else {
      var h := if Key(a[0]) == k then [a[0]] else [];
      WithKeyConcat(a[1..], b, k);
      assert (a + b)[1..] == a[1..] + b;
      assert h + (WithKey(a[1..], k) + WithKey(b, k)) == h + WithKey(a[1..], k) + WithKey(b, k);
    }
  }

  lemma {:induction false} AllOfKey(cs: seq<Candidate>, k: nat, j: nat)
    ensures forall i :: 0 <= i < |WithKey(cs, k)| ==> Key(WithKey(cs, k)[i]) == k
    ensures WithKey(WithKey(cs, k), j) == if j == k then WithKey(cs, k) else []
  {
    if cs != [] {
      AllOfKey(cs[1..], k, j);
      var rest := WithKey(cs[1..], k);
      if Key(cs[0]) == k {
        assert WithKey(cs, k)[1..] == rest;
        assert forall i :: 1 <= i < |WithKey(cs, k)| ==> WithKey(cs, k)[i] == rest[i - 1];
      } else {
        assert WithKey(cs, k) == rest;
      }
    }
  }

  lemma AscendingConcat(x: seq<Candidate>, y: seq<Candidate>, k: nat)
    requires forall i :: 0 <= i < |x| ==> Key(x[i]) == k
    requires Ascending(y) && NoneBelow(y, k + 1)
    ensures Ascending(x + y) && NoneBelow(x + y, k)
  {
    hide Key;
  }

  lemma {:induction false} FromKeyIsSorted(cs: seq<Candidate>, k: nat)
    requires k <= 8
    ensures Ascending(FromKey(cs, k)) && NoneBelow(FromKey(cs, k), k)
    decreases 8 - k
  {
    if k < 8 {
      AllOfKey(cs, k, k);
      FromKeyIsSorted(cs, k + 1);
      AscendingConcat(WithKey(cs, k), FromKey(cs, k + 1), k);
    }
  }

  lemma {:induction false} FromKeyKeeps(cs: seq<Candidate>, k: nat, j: nat)
    requires k <= 8 && j < 8
    ensures WithKey(FromKey(cs, k), j) == if j < k then [] else WithKey(cs, j)
    decreases 8 - k
  {
    if k < 8 {
      AllOfKey(cs, k, j);
      FromKeyKeeps(cs, k + 1, j);
      WithKeyConcat(WithKey(cs, k), FromKey(cs, k + 1), j);
    }
  }

  lemma SortedIsStable(cs: seq<Candidate>)
    ensures StablySorted(cs, Sorted(cs))
  {
    hide FromKey, WithKey, Ascending;
    FromKeyIsSorted(cs, 0);
    forall k | 0 <= k < 8 ensures WithKey(Sorted(cs), k) == WithKey(cs, k) { FromKeyKeeps(cs, 0, k); }
  }

  lemma {:induction false} SameKeys(a: seq<Candidate>, b: seq<Candidate>, k: nat)
    requires k <= 8 && forall j :: 0 <= j < 8 ==> WithKey(a, j) == WithKey(b, j)
    ensures FromKey(a, k) == FromKey(b, k)
    decreases 8 - k
  {
    if k < 8 { SameKeys(a, b, k + 1); }
  }

  lemma {:induction false} HasKey(cs: seq<Candidate>, i: nat)
    requires i < |cs|
    ensures WithKey(cs, Key(cs[i])) != []
  {
    if i > 0 { HasKey(cs[1..], i - 1); }
  }

  lemma {:induction false} KeyHas(cs: seq<Candidate>, k: nat) returns (i: nat)
    requires WithKey(cs, k) != []
    ensures i < |cs| && Key(cs[i]) == k
  {
    if Key(cs[0]) == k {
      i := 0;
    } else {
      i := KeyHas(cs[1..], k);
      i := i + 1;
    }
  }

  /** There is only one stable sort, so it does not matter how the library computes it. */
  lemma {:induction false} StableSortIsUnique(a: seq<Candidate>, b: seq<Candidate>, cs: seq<Candidate>)
    requires StablySorted(cs, a) && StablySorted(cs, b)
    ensures a == b
    decreases |a|
  {
    hide Key;
    if a != [] {
      SameFirst(a, b, cs);
      SameTails(a, b, cs);
      StableSortIsUnique(a[1..], b[1..], b[1..]);
      assert a == [a[0]] + a[1..] && b == [b[0]] + b[1..];
    } else if b != [] {
      HasKey(b, 0);
    }
  }

  /** Both start with the least key there is, and with the first element that has it. */
  lemma SameFirst(a: seq<Candidate>, b: seq<Candidate>, cs: seq<Candidate>)
    requires StablySorted(cs, a) && StablySorted(cs, b) && a != []
    ensures b != [] && a[0] == b[0]
  {
    hide Key;
    HasKey(a, 0);
    assert WithKey(b, Key(a[0])) == WithKey(a, Key(a[0])) by { KeyBound(a[0]); }
    var i := KeyHas(b, Key(a[0]));
    HasKey(b, 0);
    assert WithKey(b, Key(b[0])) == WithKey(a, Key(b[0])) by { KeyBound(b[0]); }
    var j := KeyHas(a, Key(b[0]));
    assert Key(b[0]) <= Key(b[i]) == Key(a[0]) && Key(a[0]) <= Key(a[j]) == Key(b[0]);
    assert WithKey(a, Key(a[0]))[0] == a[0] && WithKey(b, Key(b[0]))[0] == b[0];
  }

  lemma KeyBound(c: Candidate)
    ensures 0 <= Key(c) < 8
  {}

  lemma SameTails(a: seq<Candidate>, b: seq<Candidate>, cs: seq<Candidate>)
    requires StablySorted(cs, a) && StablySorted(cs, b) && a != [] && b != [] && a[0] == b[0]
    ensures StablySorted(b[1..], a[1..]) && StablySorted(b[1..], b[1..])
  {
    hide Key;
    forall n | 0 <= n < 8 ensures WithKey(a[1..], n) == WithKey(b[1..], n) {
      var h := if Key(a[0]) == n then [a[0]] else [];
      assert h + WithKey(a[1..], n) == WithKey(a, n) == WithKey(b, n) == h + WithKey(b[1..], n);
      Tails(h, WithKey(a[1..], n), WithKey(b[1..], n));
    }
  }

  lemma Tails(h: seq<Candidate>, x: seq<Candidate>, y: seq<Candidate>)
    requires h + x == h + y
    ensures x == y
  {
    assert (h + x)[|h|..] == x && (h + y)[|h|..] == y;
  }

  lemma {:induction false} KeyCount(cs: seq<Candidate>, c: Candidate, k: nat)
    ensures multiset(WithKey(cs, k))[c] == if Key(c) == k then multiset(cs)[c] else 0
  {
    if cs != [] {
      KeyCount(cs[1..], c, k);
      assert cs == [cs[0]] + cs[1..];
    }
  }

  lemma {:induction false} FromKeyCount(cs: seq<Candidate>, c: Candidate, k: nat)
    requires k <= 8
    ensures multiset(FromKey(cs, k))[c] == if Key(c) >= k then multiset(cs)[c] else 0
    decreases 8 - k
  {
    if k < 8 {
      FromKeyCount(cs, c, k + 1);
      KeyCount(cs, c, k);
    }
  }

  lemma SortedIsPermutation(cs: seq<Candidate>)
    ensures multiset(Sorted(cs)) == multiset(cs)
  {
    hide FromKey;
    forall c ensures multiset(Sorted(cs))[c] == multiset(cs)[c] { FromKeyCount(cs, c, 0); }
  }

  /** What the list promises of two candidates: reflexive before host, host before predicted, predicted before
      relay, and IPv6 before IPv4 within a kind. */
  predicate Before(a: Candidate, b: Candidate) {
    || (a.kind == ServerReflexive && b.kind != ServerReflexive)
    || (a.kind == Host && (b.kind == Predicted || b.kind == Relay))
    || (a.kind == Predicted && b.kind == Relay)
    || (a.kind == b.kind && a.addr.V6? && b.addr.V4?)
  }

  /** The candidates of one kind and one family, in their order. */
  ghost function Alike(cs: seq<Candidate>, kind: Kind, v4: bool): seq<Candidate> {
    if cs == [] then []
    else (if cs[0].kind == kind && cs[0].addr.V4? == v4 then [cs[0]] else []) + Alike(cs[1..], kind, v4)
  }

  /** `r` is `cs`, reordered: none behind one it must precede, alike ones as they were. */
  ghost predicate Listed(cs: seq<Candidate>, r: seq<Candidate>) {
    && multiset(r) == multiset(cs)
    && (forall i, j :: 0 <= i < j < |r| ==> !Before(r[j], r[i]))
    && (forall kind, v4 :: Alike(r, kind, v4) == Alike(cs, kind, v4))
  }

  lemma KeyOrder(a: Candidate, b: Candidate)
    ensures Before(a, b) <==> Key(a) < Key(b)
  {}

  lemma {:induction false} AlikeIs(cs: seq<Candidate>, kind: Kind, v4: bool)
    ensures Alike(cs, kind, v4) == WithKey(cs, 2 * Priority(kind) + if v4 then 1 else 0)
  {
    if cs != [] {
      AlikeIs(cs[1..], kind, v4);
    }
  }

  lemma SortedIsListed(cs: seq<Candidate>)
    ensures Listed(cs, Sorted(cs))
  {
    hide Sorted, Before, WithKey, Alike;
    SortedIsPermutation(cs);
    SortedIsStable(cs);
    var r := Sorted(cs);
    forall i, j | 0 <= i < j < |r|
      ensures !Before(r[j], r[i])
    {
      KeyOrder(r[j], r[i]);
    }
    forall kind, v4
      ensures Alike(r, kind, v4) == Alike(cs, kind, v4)
    {
      AlikeIs(r, kind, v4);
      AlikeIs(cs, kind, v4);
    }
  }

  // ---------------------------------------------------------------- the two-family budget

  function Min(a: int, b: int): int { if a < b then a else b }
  function Max(a: int, b: int): int { if a < b then b else a }

  /** How many of `mine` are kept when the other family has `others`. */
  function Share(mine: nat, others: nat): nat { Min(mine, Max(MAX_CANDIDATES / 2, MAX_CANDIDATES - others)) }

  /** The earliest of each family, up to its share. */
  ghost function Kept(cs: seq<Candidate>): seq<Candidate> {
    var k6, k4 := |Of(Ipv6, cs)|, |Of(Ipv4, cs)|;
    Of(Ipv6, cs)[..Share(k6, k4)] + Of(Ipv4, cs)[..Share(k4, k6)]
  }

  /** Turn and turn about, IPv6 first, either family filling in for the other when it runs out. */
  method BoundCandidates(cs: seq<Candidate>) returns (r: seq<Candidate>)
    ensures r == Sorted(Kept(cs)) && Listed(Kept(cs), r)
    ensures |r| == Min(|cs|, MAX_CANDIDATES)
  {
    hide Of, Sorted, Kept, Share, Listed;
    var v6, v4 := Of(Ipv6, cs), Of(Ipv4, cs);
    NoneOf();
    var selected: seq<Candidate>, a, b := [], 0, 0;
    while |selected| < MAX_CANDIDATES
      invariant a <= |v6| && b <= |v4| && |selected| == a + b <= MAX_CANDIDATES
      invariant Of(Ipv6, selected) == v6[..a] && Of(Ipv4, selected) == v4[..b]
      invariant a < |v6| ==> b <= |selected| / 2
      invariant b < |v4| ==> a <= (|selected| + 1) / 2
      decreases MAX_CANDIDATES - |selected|
    {
      var six := if |selected| % 2 == 0 then a < |v6| else b == |v4| && a < |v6|;
      if six {
        OfAppended(selected, cs, Ipv6, a);
        selected, a := selected + [v6[a]], a + 1;
      } else if b < |v4| {
        OfAppended(selected, cs, Ipv4, b);
        selected, b := selected + [v4[b]], b + 1;
      } else {
        break;
      }
    }
    OfPartition(cs);
    Settled(|v6|, |v4|, a, b);
    OfKept(cs);
    SameFamilies(selected, Kept(cs));
    SortedSize(selected);
    SortedIsListed(Kept(cs));
    r := Sorted(selected);
  }

  lemma NoneOf()
    ensures Of(Ipv6, []) == [] && Of(Ipv4, []) == []
  {}

  lemma SortedSize(cs: seq<Candidate>)
    ensures |Sorted(cs)| == |cs|
  {
    hide Sorted;
    SortedIsPermutation(cs);
    assert |Sorted(cs)| == |multiset(Sorted(cs))| && |multiset(cs)| == |cs|;
  }

  /** Where the alternation stops, both families have exactly their share. */
  lemma Settled(k6: nat, k4: nat, a: nat, b: nat)
    requires a <= k6 && b <= k4 && a + b <= MAX_CANDIDATES
    requires a + b < MAX_CANDIDATES ==> a == k6 && b == k4
    requires a < k6 ==> b <= (a + b) / 2
    requires b < k4 ==> a <= (a + b + 1) / 2
    ensures a == Share(k6, k4) && b == Share(k4, k6) && a + b == Min(k6 + k4, MAX_CANDIDATES)
  {}

  lemma {:induction false} OfConcat(f: Family, a: seq<Candidate>, b: seq<Candidate>)
    ensures Of(f, a + b) == Of(f, a) + Of(f, b)
  {
    hide FamilyOf;
    if a == [] {
      assert a + b == b;
    } else {
      var h := if FamilyOf(a[0].addr) == f then [a[0]] else [];
      OfConcat(f, a[1..], b);
      assert (a + b)[1..] == a[1..] + b;
      assert h + (Of(f, a[1..]) + Of(f, b)) == h + Of(f, a[1..]) + Of(f, b);
    }
  }

  lemma {:induction false} OfIsOf(f: Family, cs: seq<Candidate>)
    ensures forall i :: 0 <= i < |Of(f, cs)| ==> FamilyOf(Of(f, cs)[i].addr) == f
  {
    if cs != [] { OfIsOf(f, cs[1..]); }
  }

  lemma OfAppended(selected: seq<Candidate>, cs: seq<Candidate>, f: Family, n: nat)
    requires n < |Of(f, cs)| && Of(f, selected) == Of(f, cs)[..n]
    ensures Of(f, selected + [Of(f, cs)[n]]) == Of(f, cs)[..n + 1]
    ensures forall g :: g != f ==> Of(g, selected + [Of(f, cs)[n]]) == Of(g, selected)
  {
    var c := Of(f, cs)[n];
    OfIsOf(f, cs);
    forall g: Family ensures Of(g, selected + [c]) == Of(g, selected) + (if g == f then [c] else []) {
      OfConcat(g, selected, [c]);
    }
  }

  lemma {:induction false} OfPartition(cs: seq<Candidate>)
    ensures |Of(Ipv6, cs)| + |Of(Ipv4, cs)| == |cs|
  {
    if cs != [] { OfPartition(cs[1..]); }
  }

  lemma {:induction false} OfPure(f: Family, g: Family, cs: seq<Candidate>)
    requires forall i :: 0 <= i < |cs| ==> FamilyOf(cs[i].addr) == f
    ensures Of(g, cs) == if g == f then cs else []
  {
    if cs != [] { OfPure(f, g, cs[1..]); }
  }

  lemma OfKept(cs: seq<Candidate>)
    ensures Of(Ipv6, Kept(cs)) == Of(Ipv6, cs)[..Share(|Of(Ipv6, cs)|, |Of(Ipv4, cs)|)]
    ensures Of(Ipv4, Kept(cs)) == Of(Ipv4, cs)[..Share(|Of(Ipv4, cs)|, |Of(Ipv6, cs)|)]
  {
    hide Of, FamilyOf, Share;
    OfIsOf(Ipv6, cs);
    OfIsOf(Ipv4, cs);
    ShareBound(|Of(Ipv6, cs)|, |Of(Ipv4, cs)|);
    var x := Of(Ipv6, cs)[..Share(|Of(Ipv6, cs)|, |Of(Ipv4, cs)|)];
    var y := Of(Ipv4, cs)[..Share(|Of(Ipv4, cs)|, |Of(Ipv6, cs)|)];
    forall g: Family ensures Of(g, x + y) == if g == Ipv6 then x else y {
      OfConcat(g, x, y);
      OfPure(Ipv6, g, x);
      OfPure(Ipv4, g, y);
    }
  }

  lemma ShareBound(k6: nat, k4: nat)
    ensures 0 <= Share(k6, k4) <= k6 && 0 <= Share(k4, k6) <= k4
  {}

  /** A key belongs to one family. */
  lemma {:induction false} KeyOfFamily(cs: seq<Candidate>, k: nat)
    ensures WithKey(cs, k) == WithKey(Of(if k % 2 == 0 then Ipv6 else Ipv4, cs), k)
  {
    if cs != [] {
      var f := if k % 2 == 0 then Ipv6 else Ipv4;
      KeyOfFamily(cs[1..], k);
      WithKeyConcat(if FamilyOf(cs[0].addr) == f then [cs[0]] else [], Of(f, cs[1..]), k);
    }
  }

  /** How two selections interleave the families does not show after sorting. */
  lemma SameFamilies(a: seq<Candidate>, b: seq<Candidate>)
    requires Of(Ipv6, a) == Of(Ipv6, b) && Of(Ipv4, a) == Of(Ipv4, b)
    ensures Sorted(a) == Sorted(b)
  {
    forall k | 0 <= k < 8 ensures WithKey(a, k) == WithKey(b, k) {
      KeyOfFamily(a, k);
      KeyOfFamily(b, k);
    }
    SameKeys(a, b, 0);
  }

  /** The whole promise about the advertised list: exact counts, the earliest of each family, in
      the order of the stable sort. */
  lemma BoundedFairly(cs: seq<Candidate>)
    ensures var k6, k4 := |Of(Ipv6, cs)|, |Of(Ipv4, cs)|;
            var r := Sorted(Kept(cs));
            && multiset(r) == multiset(Of(Ipv6, cs)[..Share(k6, k4)]) + multiset(Of(Ipv4, cs)[..Share(k4, k6)])
            && |r| == Min(k6 + k4, MAX_CANDIDATES)
            && |Of(Ipv6, r)| == Min(k6, Max(16, 32 - k4)) && |Of(Ipv4, r)| == Min(k4, Max(16, 32 - k6))
            && StablySorted(Kept(cs), r)
  {
    hide Sorted, Of, StablySorted;
    var r := Sorted(Kept(cs));
    SortedIsStable(Kept(cs));
    SortedIsPermutation(Kept(cs));
    SortedSize(Kept(cs));
    OfKept(cs);
    SameCounts(r, Kept(cs), Ipv6);
    SameCounts(r, Kept(cs), Ipv4);
  }

  lemma {:induction false} CountOf(f: Family, cs: seq<Candidate>, c: Candidate)
    ensures multiset(Of(f, cs))[c] == if FamilyOf(c.addr) == f then multiset(cs)[c] else 0
  {
    if cs != [] {
      CountOf(f, cs[1..], c);
      assert cs == [cs[0]] + cs[1..];
    }
  }

  lemma SameCounts(a: seq<Candidate>, b: seq<Candidate>, f: Family)
    requires multiset(a) == multiset(b)
    ensures |Of(f, a)| == |Of(f, b)|
  {
    forall c ensures multiset(Of(f, a))[c] == multiset(Of(f, b))[c] {
      CountOf(f, a, c);
      CountOf(f, b, c);
    }
    assert multiset(Of(f, a)) == multiset(Of(f, b));
    assert |Of(f, a)| == |multiset(Of(f, a))| && |Of(f, b)| == |multiset(Of(f, b))|;
  }

  // ---------------------------------------------------------------- the peer's list

  predicate Wanted(c: Candidate, local: SocketAddr) { c.kind != Relay && Accepts(FamilyOf(local), c.addr) }

  /** Each wanted address once, where it first occurs: `at` names those places. */
  method FilterReachable(cs: seq<Candidate>, local: SocketAddr) returns (out: seq<SocketAddr>, ghost at: seq<nat>)
    ensures forall a :: a in out <==> exists c :: c in cs && Wanted(c, local) && c.addr == a
    ensures |at| == |out|
    ensures forall i :: 0 <= i < |at| ==> at[i] < |cs| && Wanted(cs[at[i]], local) && cs[at[i]].addr == out[i]
    ensures forall i, j :: 0 <= i < j < |at| ==> at[i] < at[j] && out[i] != out[j]
    ensures forall i, k :: 0 <= i < |at| && 0 <= k < at[i] && Wanted(cs[k], local) ==> cs[k].addr != out[i]
  {
    hide Wanted;
    out, at := [], [];
    var n := 0;
    while n < |cs|
      invariant n <= |cs| && |at| == |out|
      invariant forall a :: a in out <==> exists c :: c in cs[..n] && Wanted(c, local) && c.addr == a
      invariant forall i :: 0 <= i < |at| ==> at[i] < n && Wanted(cs[at[i]], local) && cs[at[i]].addr == out[i]
      invariant forall i, j :: 0 <= i < j < |at| ==> at[i] < at[j] && out[i] != out[j]
      invariant forall i, k :: 0 <= i < |at| && 0 <= k < at[i] && Wanted(cs[k], local) ==> cs[k].addr != out[i]
    {
      assert cs[..n + 1] == cs[..n] + [cs[n]];
      if Wanted(cs[n], local) && cs[n].addr !in out {
        assert forall k :: 0 <= k < n && Wanted(cs[k], local) ==> cs[k].addr in out by {
          assert forall k :: 0 <= k < n ==> cs[k] in cs[..n];
        }
        out := out + [cs[n].addr];
        at := at + [n];
      }
      n := n + 1;
    }
    assert cs[..n] == cs;
  }
}
