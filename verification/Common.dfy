/** Vocabulary shared by every component: optional values, node identities and
    the two facts about finite sets that the quota arguments rest on. */
module Common {

  datatype Option<+T> = None | Some(value: T)

  /** A 128-bit node identity. Only its equality matters here. */
  datatype NodeId = NodeId(bits: nat)

  lemma SubsetCard<T>(a: set<T>, b: set<T>)
    requires a <= b
    ensures |a| <= |b|
  {
    assert b == a + (b - a);
  }

  /** A set that grows by at most one element grows by at most one in size. */
  lemma GrowsByOne<T>(old_: set<T>, new_: set<T>, x: T)
    requires new_ <= old_ + {x}
    ensures |new_| <= |old_| + 1
  {
    SubsetCard(new_, old_ + {x});
  }
}
