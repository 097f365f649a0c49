/** When evicting expired buckets can be told from keeping them, exactly. */
module RateEviction {
  import opened Common
  import opened Net
  import opened RateLimit

  ghost predicate AdmittedForever(rs: seq<Request>, n: nat, limit: nat, length: nat)
    requires n < |rs|
  {
    AdmitForever(TableForever(rs, n, limit, length), rs[n], limit, length).1
  }

  ghost predicate NeverCrowded(rs: seq<Request>, limit: nat, length: nat) {
    forall n :: 0 <= n < |rs| ==> !Crowded(TableAt(rs, n, limit, length), rs[n], length)
  }

  ghost predicate AnsweredAlike(rs: seq<Request>, limit: nat, length: nat) {
    forall n :: 0 <= n < |rs| ==> Admitted(rs, n, limit, length) == AdmittedForever(rs, n, limit, length)
  }

  /** After the first `j` calls of a run, instant ones that the cap does not refuse. */
  ghost predicate Probes(rs: seq<Request>, j: nat, more: seq<Request>, limit: nat, length: nat) {
    && j <= |rs| && (forall i :: 0 <= i < |more| ==> Instant(more[i]))
    && Ordered(rs[..j] + more) && NeverCrowded(rs[..j] + more, limit, length)
  }

  /** No such continuation of any part of the run is answered otherwise than by keeping every bucket. */
  ghost predicate Indistinguishable(rs: seq<Request>, limit: nat, length: nat) {
    forall j: nat, more: seq<Request> ::
      Probes(rs, j, more, limit, length) ==> AnsweredAlike(rs[..j] + more, limit, length)
  }

  lemma {:induction false} SamePrefix(rs: seq<Request>, rs': seq<Request>, n: nat, limit: nat, length: nat)
    requires n <= |rs| && n <= |rs'| && rs[..n] == rs'[..n]
    ensures TableAt(rs, n, limit, length) == TableAt(rs', n, limit, length)
    ensures TableForever(rs, n, limit, length) == TableForever(rs', n, limit, length)
    ensures Smooth(rs, n, limit, length) == Smooth(rs', n, limit, length)
  {
    hide Admit, AdmitForever, Crowded, Replaces, Prompt;
    if n > 0 {
      assert rs[..n - 1] == rs[..n][..n - 1] == rs'[..n][..n - 1] == rs'[..n - 1];
      assert rs[n - 1] == rs[..n][n - 1] == rs'[..n][n - 1] == rs'[n - 1];
      SamePrefix(rs, rs', n - 1, limit, length);
    }
  }

  lemma {:induction false} SmoothBefore(rs: seq<Request>, n: nat, j: nat, limit: nat, length: nat)
    requires j <= n <= |rs| && Smooth(rs, n, limit, length)
    ensures Smooth(rs, j, limit, length)
  {
    hide Crowded, Replaces, Prompt;
    if j < n { SmoothBefore(rs, n - 1, j, limit, length); }
  }

  lemma SmoothStep(rs: seq<Request>, n: nat, limit: nat, length: nat)
    requires n < |rs|
    ensures Smooth(rs, n + 1, limit, length)
       <==> (&& Smooth(rs, n, limit, length)
             && !Crowded(TableAt(rs, n, limit, length), rs[n], length)
             && (!Replaces(TableAt(rs, n, limit, length), TableForever(rs, n, limit, length), rs[n], length)
                 || Prompt(rs[n], length)))
  {
    hide Crowded, Replaces, Prompt, TableAt, TableForever;
  }

  // ------------------------------------------------------------ a smooth run cannot be told

  lemma {:induction false} SmoothOn(rs: seq<Request>, j: nat, n: nat, limit: nat, length: nat)
    requires j <= n <= |rs| && Smooth(rs, j, limit, length) && NeverCrowded(rs, limit, length)
    requires forall i :: j <= i < |rs| ==> Instant(rs[i])
    ensures Smooth(rs, n, limit, length)
  {
    hide Smooth, Crowded, Replaces, TableAt, TableForever;
    if j < n {
      SmoothOn(rs, j, n - 1, limit, length);
      assert Instant(rs[n - 1]);
      SmoothStep(rs, n - 1, limit, length);
    }
  }

  lemma SmoothCannotBeTold(rs: seq<Request>, j: nat, more: seq<Request>, limit: nat, length: nat)
    requires length > 0 && Smooth(rs, |rs|, limit, length) && Probes(rs, j, more, limit, length)
    ensures AnsweredAlike(rs[..j] + more, limit, length)
  {
    hide Smooth, Crowded, Instant, Ordered;
    var rs' := rs[..j] + more;
    SmoothBefore(rs, |rs|, j, limit, length);
    assert rs'[..j] == rs[..j];
    SamePrefix(rs, rs', j, limit, length);
    forall i | j <= i < |rs'| ensures Instant(rs'[i]) { assert rs'[i] == more[i - j]; }
    forall n | 0 <= n < |rs'| ensures Admitted(rs', n, limit, length) == AdmittedForever(rs', n, limit, length) {
      if n < j { SmoothBefore(rs', j, n, limit, length); } else { SmoothOn(rs', j, n, limit, length); }
      EvictionIsInvisible(rs', n, limit, length);
    }
  }

  lemma ZeroCannotBeTold(rs: seq<Request>, length: nat)
    ensures AnsweredAlike(rs, 0, length)
  {
    hide TableAt, TableForever;
  }

  // ------------------------------------------------------------ any other can

  lemma SmoothStart(rs: seq<Request>, limit: nat, length: nat)
    ensures Smooth(rs, 0, limit, length)
  {}

  /** The first call that replaces an evicted bucket and is not prompt. */
  lemma {:induction false} FirstRough(rs: seq<Request>, n: nat, limit: nat, length: nat) returns (i: nat)
    requires n <= |rs| && !Smooth(rs, n, limit, length) && NeverCrowded(rs, limit, length)
    ensures i < n && Smooth(rs, i, limit, length) && !Prompt(rs[i], length)
    ensures Replaces(TableAt(rs, i, limit, length), TableForever(rs, i, limit, length), rs[i], length)
  {
    hide Smooth, Crowded, Replaces, Prompt, TableAt, TableForever;
    assert n > 0 by { if n == 0 { SmoothStart(rs, limit, length); } }
    SmoothStep(rs, n - 1, limit, length);
    if Smooth(rs, n - 1, limit, length) {
      i := n - 1;
    } else {
      i := FirstRough(rs, n - 1, limit, length);
    }
  }

  /** It leaves the two limiters with windows that start at different instants. */
  lemma RoughStep(t: Table, big: Table, r: Request, limit: nat, length: nat)
    requires length > 0 && limit > 0 && Timely(r) && Trimmed(t, big, r.now, length) && !Crowded(t, r, length)
    requires Replaces(t, big, r, length) && !Prompt(r, length)
    ensures r.inserted < r.reset
    ensures var t' := Admit(t, r, limit, length).0; r.ip in t' && t'[r.ip] == Window(r.inserted, 1, 0)
    ensures var big' := AdmitForever(big, r, limit, length).0; r.ip in big' && big'[r.ip] == Window(r.reset, 1, 0)
  {
    assert r.now <= r.evict(r.ip) <= r.inserted;
  }

  /** An instant request evicts its own expired bucket and so finds room for another. */
  lemma EvictOpens(t: Table, ip: IpAddr, now: nat, limit: nat, length: nat)
    requires limit > 0 && length > 0 && ip in t && Expired(t[ip], now, length) && |t| <= MAX_BUCKETS
    ensures !Crowded(t, At(ip, now), length)
    ensures var (t', ok) := Admit(t, At(ip, now), limit, length); ok && ip in t' && t'[ip] == Window(now, 1, 0)
  {
    var t1 := Unexpired(t, At(ip, now).evict, length);
    SubsetCard(t1.Keys, t.Keys - {ip});
    assert |t.Keys| == |t| && |t1| == |t1.Keys|;
  }

  lemma EvictContinues(t: Table, ip: IpAddr, now: nat, k: nat, limit: nat, length: nat)
    requires k < limit && length > 0 && ip in t && t[ip] == Window(now, k, 0)
    ensures !Crowded(t, At(ip, now), length)
    ensures var (t', ok) := Admit(t, At(ip, now), limit, length); ok && ip in t' && t'[ip] == Window(now, k + 1, 0)
  {
    assert ip in Unexpired(t, At(ip, now).evict, length);
  }

  lemma KeepContinues(big: Table, ip: IpAddr, now: nat, start: nat, k: nat, limit: nat, length: nat)
    requires ip in big && big[ip] == Window(start, k, 0) && now < start + length
    ensures var (big', ok) := AdmitForever(big, At(ip, now), limit, length);
            ip in big' && ok == (k < limit) && (ok ==> big'[ip] == Window(start, k + 1, 0))
  {}

  /** The run up to call `i`, then `limit` instant requests at `now` from the same address. */
  ghost function Probed(rs: seq<Request>, i: nat, now: nat, limit: nat): seq<Request>
    requires i < |rs|
  {
    rs[..i + 1] + seq(limit, _ => At(rs[i].ip, now))
  }

  lemma ProbedIs(rs: seq<Request>, i: nat, now: nat, limit: nat, n: nat)
    requires i < |rs| && n < i + 1 + limit
    ensures |Probed(rs, i, now, limit)| == i + 1 + limit
    ensures Probed(rs, i, now, limit)[n] == if n <= i then rs[n] else At(rs[i].ip, now)
  {}

  lemma ProbedOrdered(rs: seq<Request>, i: nat, now: nat, limit: nat)
    requires Ordered(rs) && i < |rs| && rs[i].reset <= now
    ensures Ordered(Probed(rs, i, now, limit))
  {
    var rs' := Probed(rs, i, now, limit);
    hide Probed;
    ProbedIs(rs, i, now, limit, 0);
    forall n | 0 <= n < |rs'| ensures Timely(rs'[n]) {
      ProbedIs(rs, i, now, limit, n);
      if n <= i { assert Timely(rs[n]); }
    }
    forall a, b | 0 <= a < b < |rs'| ensures rs'[a].reset <= rs'[b].now {
      ProbedIs(rs, i, now, limit, a);
      ProbedIs(rs, i, now, limit, b);
      if a <= i { assert Timely(rs[a]) && Timely(rs[i]); }
    }
  }

  /** What the rough call left, and when to ask. */
  ghost predicate Apart(rs: seq<Request>, i: nat, now: nat, limit: nat, length: nat)
    requires i < |rs|
  {
    var ip, t, big := rs[i].ip, TableAt(rs, i + 1, limit, length), TableForever(rs, i + 1, limit, length);
    && ip in t && t[ip] == Window(rs[i].inserted, 1, 0) && ip in big && big[ip] == Window(rs[i].reset, 1, 0)
    && rs[i].inserted + length <= now < rs[i].reset + length
  }

  /** After `k` of the requests evicting has counted `k`, keeping one more. */
  lemma {:induction false} ProbedAt(rs: seq<Request>, i: nat, now: nat, limit: nat, length: nat, k: nat)
    requires i < |rs| && length > 0 && k <= limit && 0 < limit && Apart(rs, i, now, limit, length)
    ensures var rs', ip := Probed(rs, i, now, limit), rs[i].ip;
            && |rs'| == i + 1 + limit
            && var t, big := TableAt(rs', i + 1 + k, limit, length), TableForever(rs', i + 1 + k, limit, length);
            && ip in t && ip in big
            && t[ip] == (if k == 0 then Window(rs[i].inserted, 1, 0) else Window(now, k, 0))
            && (k < limit ==> big[ip] == Window(rs[i].reset, k + 1, 0))
            && (k < limit ==> !Crowded(t, At(ip, now), length) && Admit(t, At(ip, now), limit, length).1)
  {
    hide Admit, AdmitForever, Crowded, Probed;
    var rs', ip := Probed(rs, i, now, limit), rs[i].ip;
    ProbedIs(rs, i, now, limit, 0);
    if k == 0 {
      ProbedPrefix(rs, i, now, limit);
      SamePrefix(rs, rs', i + 1, limit, length);
    } else {
      ProbedAt(rs, i, now, limit, length, k - 1);
      ProbedIs(rs, i, now, limit, i + k);
      TableStaysSmall(rs', i + k, limit, length);
      ProbeStep(TableAt(rs', i + k, limit, length), ip, now, rs[i].inserted, k - 1, limit, length);
      KeepContinues(TableForever(rs', i + k, limit, length), ip, now, rs[i].reset, k, limit, length);
    }
    if k < limit {
      TableStaysSmall(rs', i + 1 + k, limit, length);
      ProbeStep(TableAt(rs', i + 1 + k, limit, length), ip, now, rs[i].inserted, k, limit, length);
    }
  }

  lemma ProbedPrefix(rs: seq<Request>, i: nat, now: nat, limit: nat)
    requires i < |rs|
    ensures |Probed(rs, i, now, limit)| >= i + 1 && Probed(rs, i, now, limit)[..i + 1] == rs[..i + 1]
  {}

  lemma ProbeStep(t: Table, ip: IpAddr, now: nat, start: nat, k: nat, limit: nat, length: nat)
    requires k < limit && length > 0 && |t| <= MAX_BUCKETS && start + length <= now && ip in t
    requires t[ip] == if k == 0 then Window(start, 1, 0) else Window(now, k, 0)
    ensures !Crowded(t, At(ip, now), length)
    ensures var (t', ok) := Admit(t, At(ip, now), limit, length); ok && ip in t' && t'[ip] == Window(now, k + 1, 0)
  {
    hide Admit, Crowded;
    if k == 0 {
      EvictOpens(t, ip, now, limit, length);
    } else {
      EvictContinues(t, ip, now, k, limit, length);
    }
  }

  /** The last of them is admitted by evicting and refused by keeping. */
  lemma RoughCanBeTold(rs: seq<Request>, i: nat, limit: nat, length: nat)
    requires Ordered(rs) && length > 0 && limit > 0 && NeverCrowded(rs, limit, length) && i < |rs|
    requires Smooth(rs, i, limit, length) && !Prompt(rs[i], length)
    requires Replaces(TableAt(rs, i, limit, length), TableForever(rs, i, limit, length), rs[i], length)
    ensures !Indistinguishable(rs, limit, length)
  {
    hide Replaces, Smooth, Probed, Indistinguishable, Ordered, NeverCrowded, Prompt, Instant, Admitted,
      AdmittedForever, TableAt, TableForever;
    var r := rs[i];
    RoughApart(rs, i, limit, length);
    var now := if r.reset >= r.inserted + length then r.reset else r.inserted + length;
    var more := seq(limit, _ => At(r.ip, now));
    var rs' := Probed(rs, i, now, limit);
    ProbedParts(rs, i, now, limit);
    ProbedOrdered(rs, i, now, limit);
    ProbedNotCrowded(rs, i, now, limit, length);
    assert Probes(rs, i + 1, more, limit, length);
    LastProbe(rs, i, now, limit, length);
    Distinguished(rs, i + 1, more, limit, length, i + limit);
  }

  lemma ProbedParts(rs: seq<Request>, i: nat, now: nat, limit: nat)
    requires i < |rs|
    ensures var more := seq(limit, _ => At(rs[i].ip, now));
            rs[..i + 1] + more == Probed(rs, i, now, limit) && forall n :: 0 <= n < limit ==> Instant(more[n])
  {}

  lemma RoughApart(rs: seq<Request>, i: nat, limit: nat, length: nat)
    requires Ordered(rs) && length > 0 && limit > 0 && NeverCrowded(rs, limit, length) && i < |rs|
    requires Smooth(rs, i, limit, length) && !Prompt(rs[i], length)
    requires Replaces(TableAt(rs, i, limit, length), TableForever(rs, i, limit, length), rs[i], length)
    ensures var r := rs[i];
            Apart(rs, i, if r.reset >= r.inserted + length then r.reset else r.inserted + length, limit, length)
  {
    hide Admit, AdmitForever, Crowded, Replaces, Smooth, Prompt;
    var r := rs[i];
    assert Timely(r);
    assert i > 0 ==> rs[i - 1].reset <= r.now;
    TrimmedAt(rs, i, limit, length, r.now);
    hide Trimmed;
    RoughStep(TableAt(rs, i, limit, length), TableForever(rs, i, limit, length), r, limit, length);
  }

  lemma ProbedNotCrowded(rs: seq<Request>, i: nat, now: nat, limit: nat, length: nat)
    requires length > 0 && limit > 0 && NeverCrowded(rs, limit, length) && i < |rs| && Apart(rs, i, now, limit, length)
    ensures NeverCrowded(Probed(rs, i, now, limit), limit, length)
  {
    hide Admit, AdmitForever, Crowded, Probed, Apart;
    var rs' := Probed(rs, i, now, limit);
    ProbedIs(rs, i, now, limit, 0);
    forall n | 0 <= n < |rs'| ensures !Crowded(TableAt(rs', n, limit, length), rs'[n], length) {
      ProbedIs(rs, i, now, limit, n);
      if n <= i {
        ProbedPrefix(rs, i, now, limit);
        assert rs'[..n] == rs'[..i + 1][..n] == rs[..i + 1][..n] == rs[..n];
        SamePrefix(rs, rs', n, limit, length);
      } else {
        ProbedAt(rs, i, now, limit, length, n - i - 1);
      }
    }
  }

  lemma LastProbe(rs: seq<Request>, i: nat, now: nat, limit: nat, length: nat)
    requires length > 0 && limit > 0 && i < |rs| && Apart(rs, i, now, limit, length)
    ensures var rs' := Probed(rs, i, now, limit);
            && |rs'| == i + 1 + limit
            && Admitted(rs', i + limit, limit, length) && !AdmittedForever(rs', i + limit, limit, length)
  {
    hide Admit, AdmitForever, Crowded, Probed, TableAt, TableForever;
    var rs' := Probed(rs, i, now, limit);
    ProbedIs(rs, i, now, limit, i + limit);
    ProbedAt(rs, i, now, limit, length, limit - 1);
    KeepContinues(TableForever(rs', i + limit, limit, length), rs[i].ip, now, rs[i].reset, limit, limit, length);
  }

  lemma Distinguished(rs: seq<Request>, j: nat, more: seq<Request>, limit: nat, length: nat, n: nat)
    requires Probes(rs, j, more, limit, length) && n < |rs[..j] + more|
    requires Admitted(rs[..j] + more, n, limit, length) != AdmittedForever(rs[..j] + more, n, limit, length)
    ensures !Indistinguishable(rs, limit, length)
  {
    hide Admitted, AdmittedForever, Probes;
    ProbesWithin(rs, j, more, limit, length);
    assert !AnsweredAlike(rs[..j] + more, limit, length);
  }

  /** For a run the cap never refuses, evicting cannot be told from keeping, now or by instant requests
      after any part of it, exactly if no call replaced an evicted bucket at two different instants
      (or nothing is ever admitted). */
  lemma EvictionShowsExactly(rs: seq<Request>, limit: nat, length: nat)
    requires Ordered(rs) && length > 0 && NeverCrowded(rs, limit, length)
    ensures Indistinguishable(rs, limit, length) <==> limit == 0 || Smooth(rs, |rs|, limit, length)
  {
    hide Smooth, Probes, AnsweredAlike, NeverCrowded, Ordered;
    if limit == 0 {
      forall j: nat, more: seq<Request> | Probes(rs, j, more, limit, length)
        ensures j <= |rs| && AnsweredAlike(rs[..j] + more, limit, length)
      {
        ProbesWithin(rs, j, more, limit, length);
        ZeroCannotBeTold(rs[..j] + more, length);
      }
    } else if Smooth(rs, |rs|, limit, length) {
      forall j: nat, more: seq<Request> | Probes(rs, j, more, limit, length)
        ensures j <= |rs| && AnsweredAlike(rs[..j] + more, limit, length)
      {
        ProbesWithin(rs, j, more, limit, length);
        SmoothCannotBeTold(rs, j, more, limit, length);
      }
    } else {
      var i := FirstRough(rs, |rs|, limit, length);
      RoughCanBeTold(rs, i, limit, length);
    }
  }

  lemma ProbesWithin(rs: seq<Request>, j: nat, more: seq<Request>, limit: nat, length: nat)
    requires Probes(rs, j, more, limit, length)
    ensures j <= |rs|
  {}
}
