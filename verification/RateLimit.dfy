/** Fixed-window request limits, per connection and per source address. The clock is read anew for
    every test and every new window, so a request carries all its readings. */
module RateLimit {
  import opened Common
  import opened Net

  const MAX_U32: nat := 0xFFFF_FFFF
  /** Both per-address tables have this many entries at most. */
  const MAX_BUCKETS: nat := 1024

  datatype Window = Window(started: nat, requests: nat, misses: nat)

  predicate Expired(w: Window, now: nat, length: nat) {
    now >= w.started + length
  }

  /** One request against one window: `tested` is read for the expiry, `reset` for a new window. */
  function Take(w: Window, tested: nat, reset: nat, limit: nat, misses: nat, length: nat): (Window, bool) {
    var w := if Expired(w, tested, length) then Window(reset, 0, 0) else w;
    if w.requests >= limit || w.misses >= misses then (w, false) else (w.(requests := w.requests + 1), true)
  }

  /** A call made at `now`. The eviction reads the clock once for each bucket. */
  datatype Request = Request(ip: IpAddr, now: nat, evict: IpAddr -> nat, inserted: nat, tested: nat, reset: nat)

  /** The readings of one call, in the order they are taken. */
  ghost predicate Timely(r: Request) {
    (forall i :: r.now <= r.evict(i) <= r.inserted) && r.now <= r.inserted <= r.tested <= r.reset
  }

  type Table = map<IpAddr, Window>

  function Unexpired(t: Table, evict: IpAddr -> nat, length: nat): Table {
    map ip | ip in t && !Expired(t[ip], evict(ip), length) :: t[ip]
  }

  predicate Crowded(t: Table, r: Request, length: nat) {
    r.ip !in Unexpired(t, r.evict, length) && |Unexpired(t, r.evict, length)| >= MAX_BUCKETS
  }

  function BucketOf(t: Table, ip: IpAddr, inserted: nat): Window {
    if ip in t then t[ip] else Window(inserted, 0, 0)
  }

  /** Evict what has expired, refuse a new address when the table is full, then take. */
  function Admit(t: Table, r: Request, limit: nat, length: nat): (Table, bool) {
    var t1 := Unexpired(t, r.evict, length);
    if Crowded(t, r, length) then (t1, false)
    else
      var (w, ok) := Take(BucketOf(t1, r.ip, r.inserted), r.tested, r.reset, limit, MAX_U32, length);
      (t1[r.ip := w], ok)
  }

  /** The limiter nobody could afford: every bucket kept for ever. */
  function AdmitForever(t: Table, r: Request, limit: nat, length: nat): (Table, bool) {
    var (w, ok) := Take(BucketOf(t, r.ip, r.inserted), r.tested, r.reset, limit, MAX_U32, length); (t[r.ip := w], ok)
  }

  // ------------------------------------------------------------ the objects

  class LookupWindow {
    var started: nat
    var requests: nat
    var misses: nat

    function View(): Window reads this { Window(started, requests, misses) }

    constructor (now: nat)
      ensures View() == Window(now, 0, 0)
    {
      started, requests, misses := now, 0, 0;
    }

    method TakeInWindow(tested: nat, reset: nat, limit: nat, maxMisses: nat, length: nat) returns (ok: bool)
      modifies this
      ensures (View(), ok) == Take(old(View()), tested, reset, limit, maxMisses, length)
    {
      if tested >= started + length {
        started, requests, misses := reset, 0, 0;
      }
      if requests >= limit || misses >= maxMisses {
        return false;
      }
      requests := requests + 1;
      return true;
    }
  }

  class BucketTable {
    const limit: nat
    const length: nat
    var buckets: Table

    constructor (limit: nat, length: nat)
      ensures this.limit == limit && this.length == length && buckets == map[]
    {
      this.limit, this.length, buckets := limit, length, map[];
    }

    method TakeLookup(r: Request) returns (ok: bool)
      modifies this
      ensures (buckets, ok) == Admit(old(buckets), r, limit, length)
    {
      buckets := map i | i in buckets && !Expired(buckets[i], r.evict(i), length) :: buckets[i];
      assert buckets == Unexpired(old(buckets), r.evict, length);
      if r.ip !in buckets && |buckets| >= MAX_BUCKETS {
        return false;
      }
      if r.ip !in buckets {
        buckets := buckets[r.ip := Window(r.inserted, 0, 0)];
      }
      var (w, taken) := Take(buckets[r.ip], r.tested, r.reset, limit, MAX_U32, length);
      buckets := buckets[r.ip := w];
      assert buckets == Unexpired(old(buckets), r.evict, length)[r.ip := w];
      return taken;
    }
  }

  // ------------------------------------------------------------ runs

  /** One call after another, as the registry lock makes them. */
  ghost predicate Ordered(rs: seq<Request>) {
    && (forall i :: 0 <= i < |rs| ==> Timely(rs[i]))
    && (forall i, j :: 0 <= i < j < |rs| ==> rs[i].reset <= rs[j].now)
  }

  ghost function TableAt(rs: seq<Request>, n: nat, limit: nat, length: nat): Table
    requires n <= |rs|
  {
    if n == 0 then map[] else Admit(TableAt(rs, n - 1, limit, length), rs[n - 1], limit, length).0
  }

  ghost predicate Admitted(rs: seq<Request>, n: nat, limit: nat, length: nat)
    requires n < |rs|
  {
    Admit(TableAt(rs, n, limit, length), rs[n], limit, length).1
  }

  /** How many of the first `n` requests came from `ip` in `[lo, hi)` and were admitted. */
  ghost function Count(rs: seq<Request>, ip: IpAddr, lo: int, hi: int, n: nat, limit: nat, length: nat): nat
    requires n <= |rs|
  {
    if n == 0 then 0
    else
      Count(rs, ip, lo, hi, n - 1, limit, length)
      + (if rs[n - 1].ip == ip && lo <= rs[n - 1].now < hi && Admitted(rs, n - 1, limit, length) then 1 else 0)
  }

  /** The same from `lo` on. */
  ghost function CountFrom(rs: seq<Request>, ip: IpAddr, lo: int, n: nat, limit: nat, length: nat): nat
    requires n <= |rs|
  {
    if n == 0 then 0
    else
      CountFrom(rs, ip, lo, n - 1, limit, length)
      + (if rs[n - 1].ip == ip && lo <= rs[n - 1].now && Admitted(rs, n - 1, limit, length) then 1 else 0)
  }

  lemma {:induction false} Narrower(rs: seq<Request>, ip: IpAddr, x: int, hi: int, lo: int, n: nat, limit: nat,
                                    length: nat)
    requires n <= |rs| && lo <= x
    ensures Count(rs, ip, x, hi, n, limit, length) <= CountFrom(rs, ip, lo, n, limit, length)
  {
    if n > 0 {
      hide Admitted;
      Narrower(rs, ip, x, hi, lo, n - 1, limit, length);
    }
  }

  lemma {:induction false} NoneAfter(rs: seq<Request>, ip: IpAddr, lo: int, n: nat, limit: nat, length: nat)
    requires n <= |rs| && forall i :: 0 <= i < n ==> rs[i].now < lo
    ensures CountFrom(rs, ip, lo, n, limit, length) == 0
  {
    if n > 0 {
      hide Admitted;
      NoneAfter(rs, ip, lo, n - 1, limit, length);
    }
  }

  // ------------------------------------------------------------ at most twice the limit

  /** One fewer, if there is one. */
  ghost function Less(k: nat): nat { if k == 0 then 0 else k - 1 }

  /** The admissions of one window length from `x` on. */
  ghost function Burst(rs: seq<Request>, ip: IpAddr, x: int, n: nat, limit: nat, length: nat): nat
    requires n <= |rs|
  {
    Count(rs, ip, x, x + length, n, limit, length)
  }

  /** The last reading of the first `n` calls. */
  ghost function Clock(rs: seq<Request>, n: nat): nat
    requires n <= |rs|
  {
    if n == 0 then 0 else rs[n - 1].reset
  }

  /** What the last bucket of an address has admitted, at most. */
  ghost function Spent(t: Table, ip: IpAddr, limit: nat): nat { if ip in t then t[ip].requests else limit }

  /** `b` is the start of the last bucket the address had and `a` of the one before. The request
      that opens a bucket arrives no later than the bucket starts and the others no earlier, so
      after `b` lie at most the bucket's others, and after `a` those of both. */
  ghost predicate Tracks(rs: seq<Request>, ip: IpAddr, n: nat, limit: nat, length: nat, a: int, b: int)
    requires n <= |rs|
  {
    var t := TableAt(rs, n, limit, length);
    && a + length <= b <= Clock(rs, n)
    && (ip in t ==> t[ip].started == b && t[ip].misses == 0 && t[ip].requests <= limit)
    && (ip in t && limit > 0 ==> t[ip].requests > 0)
    && (ip !in t ==> b + length <= Clock(rs, n))
    && CountFrom(rs, ip, b + 1, n, limit, length) <= Less(Spent(t, ip, limit))
    && CountFrom(rs, ip, a + 1, n, limit, length) <= Less(limit) + Spent(t, ip, limit)
  }

  /** The bucket of `ip` after request `n`, which may be somebody else's. */
  lemma BucketStep(rs: seq<Request>, ip: IpAddr, n: nat, limit: nat, length: nat)
    requires n < |rs|
    ensures var t, t' := TableAt(rs, n, limit, length), TableAt(rs, n + 1, limit, length);
            var t1 := Unexpired(t, rs[n].evict, length);
            if rs[n].ip != ip || Crowded(t, rs[n], length)
            then (ip in t' <==> ip in t1) && (ip in t' ==> t'[ip] == t[ip])
              && (rs[n].ip == ip ==> !Admitted(rs, n, limit, length))
            else
              ip in t' && (t'[ip], Admitted(rs, n, limit, length))
                          == Take(BucketOf(t1, ip, rs[n].inserted), rs[n].tested, rs[n].reset, limit, MAX_U32, length)
  {}

  /** Request `n` is from `ip` and finds no window that is still open. */
  ghost predicate Opens(rs: seq<Request>, ip: IpAddr, n: nat, limit: nat, length: nat)
    requires n < |rs|
  {
    var t := TableAt(rs, n, limit, length);
    && rs[n].ip == ip && !Crowded(t, rs[n], length)
    && (ip !in t || Expired(t[ip], rs[n].evict(ip), length) || Expired(t[ip], rs[n].tested, length))
  }

  lemma TrackStart(rs: seq<Request>, ip: IpAddr, limit: nat, length: nat)
    ensures Tracks(rs, ip, 0, limit, length, 0 - 2 * length, 0 - length)
  {}

  lemma TrackStep(rs: seq<Request>, ip: IpAddr, n: nat, limit: nat, length: nat, a: int, b: int)
    returns (a': int, b': int)
    requires Ordered(rs) && length > 0 && n < |rs| && Tracks(rs, ip, n, limit, length, a, b)
    ensures Tracks(rs, ip, n + 1, limit, length, a', b')
  {
    if Opens(rs, ip, n, limit, length) {
      OpenedBucket(rs, ip, n, limit, length, a, b);
      a', b' := b, TableAt(rs, n + 1, limit, length)[ip].started;
      OpenedCounts(rs, ip, n, n + 1, limit, length, a, b, b');
    } else {
      a', b' := a, b;
      SameBucket(rs, ip, n, n + 1, limit, length, a, b);
    }
  }

  /** A new bucket starts at least a window length after the last, with one request or none. */
  lemma OpenedBucket(rs: seq<Request>, ip: IpAddr, n: nat, limit: nat, length: nat, a: int, b: int)
    requires Ordered(rs) && length > 0 && n < |rs| && Tracks(rs, ip, n, limit, length, a, b)
    requires Opens(rs, ip, n, limit, length)
    ensures var t' := TableAt(rs, n + 1, limit, length);
            && ip in t' && b + length <= t'[ip].started <= rs[n].reset && rs[n].now <= t'[ip].started
            && t'[ip].misses == 0 && t'[ip].requests == (if limit == 0 then 0 else 1)
            && (Admitted(rs, n, limit, length) <==> limit > 0)
  {
    BucketStep(rs, ip, n, limit, length);
    assert Timely(rs[n]);
    assert n > 0 ==> rs[n - 1].reset <= rs[n].now;
    assert rs[n].now <= rs[n].evict(ip) <= rs[n].inserted;
    hide TableAt, Admitted, CountFrom, Crowded;
  }

  lemma OpenedCounts(rs: seq<Request>, ip: IpAddr, n: nat, n': nat, limit: nat, length: nat, a: int, b: int, b': int)
    requires Ordered(rs) && n < |rs| && n' == n + 1 && Tracks(rs, ip, n, limit, length, a, b)
    requires var t' := TableAt(rs, n', limit, length);
             && ip in t' && t'[ip].started == b' && b + length <= b' <= rs[n].reset && rs[n].now <= b'
             && t'[ip].misses == 0 && t'[ip].requests == (if limit == 0 then 0 else 1)
    requires Admitted(rs, n, limit, length) <==> limit > 0
    ensures Tracks(rs, ip, n', limit, length, b, b')
  {
    hide TableAt, Admitted, Ordered;
    AllBy(rs, n, b' + 1);
    assert CountFrom(rs, ip, b' + 1, n', limit, length) == 0 by { NoneAfter(rs, ip, b' + 1, n', limit, length); }
  }

  lemma AllBy(rs: seq<Request>, n: nat, hi: int)
    requires Ordered(rs) && n < |rs| && rs[n].now < hi
    ensures forall i :: 0 <= i < n + 1 ==> rs[i].now < hi
  {
    forall i | 0 <= i < n + 1 ensures rs[i].now < hi {
      assert Timely(rs[i]);
      assert i < n ==> rs[i].reset <= rs[n].now;
    }
  }

  /** A request that opens nothing: somebody else's, refused for want of room, or one more. */
  lemma SameBucket(rs: seq<Request>, ip: IpAddr, n: nat, n': nat, limit: nat, length: nat, a: int, b: int)
    requires Ordered(rs) && length > 0 && n < |rs| && n' == n + 1 && Tracks(rs, ip, n, limit, length, a, b)
    requires !Opens(rs, ip, n, limit, length)
    ensures Tracks(rs, ip, n', limit, length, a, b)
  {
    BucketStep(rs, ip, n, limit, length);
    assert Timely(rs[n]);
    assert n > 0 ==> rs[n - 1].reset <= rs[n].now;
    assert rs[n].now <= rs[n].evict(ip) <= rs[n].inserted;
    hide TableAt, Admitted, Crowded;
  }

  lemma {:induction false} Tracked(rs: seq<Request>, ip: IpAddr, n: nat, limit: nat, length: nat)
    returns (a: int, b: int)
    requires Ordered(rs) && length > 0 && n <= |rs|
    ensures Tracks(rs, ip, n, limit, length, a, b)
  {
    hide Tracks;
    if n == 0 {
      a, b := 0 - 2 * length, 0 - length;
      TrackStart(rs, ip, limit, length);
    } else {
      a, b := Tracked(rs, ip, n - 1, limit, length);
      a, b := TrackStep(rs, ip, n - 1, limit, length, a, b);
    }
  }

  /** An interval that holds the newest request begins after `a`: it meets the last two buckets. */
  lemma NewestBurst(rs: seq<Request>, ip: IpAddr, x: int, n: nat, limit: nat, length: nat, a: int, b: int)
    requires Ordered(rs) && length > 0 && n < |rs| && Tracks(rs, ip, n, limit, length, a, b) && rs[n].now < x + length
    ensures Burst(rs, ip, x, n, limit, length) <= Less(limit) + Spent(TableAt(rs, n, limit, length), ip, limit)
  {
    hide Admitted, TableAt;
    assert Timely(rs[n]);
    assert n > 0 ==> rs[n - 1].reset <= rs[n].now;
    Narrower(rs, ip, x, x + length, a + 1, n, limit, length);
  }

  lemma SpentUpTo(rs: seq<Request>, ip: IpAddr, n: nat, limit: nat, length: nat, a: int, b: int)
    requires n < |rs| && length > 0 && Tracks(rs, ip, n, limit, length, a, b) && rs[n].ip == ip
    requires Admitted(rs, n, limit, length)
    ensures limit > 0 && (!Opens(rs, ip, n, limit, length) ==> Spent(TableAt(rs, n, limit, length), ip, limit) < limit)
    ensures Spent(TableAt(rs, n, limit, length), ip, limit) <= limit
  {
    BucketStep(rs, ip, n, limit, length);
    hide TableAt, Admitted, CountFrom;
  }

  /** An admitted request finds room for itself under twice the limit. */
  lemma BurstRoom(rs: seq<Request>, ip: IpAddr, x: int, n: nat, limit: nat, length: nat)
    requires Ordered(rs) && length > 0 && n < |rs| && rs[n].now < x + length
    requires rs[n].ip == ip && Admitted(rs, n, limit, length)
    ensures Burst(rs, ip, x, n, limit, length) + 1 <= 2 * limit
    ensures !Opens(rs, ip, n, limit, length) ==> Burst(rs, ip, x, n, limit, length) + 1 <= 2 * limit - 1
  {
    hide Admitted, TableAt, Tracks, Burst, Opens, Ordered;
    var a, b := Tracked(rs, ip, n, limit, length);
    NewestBurst(rs, ip, x, n, limit, length, a, b);
    SpentUpTo(rs, ip, n, limit, length, a, b);
  }

  /** Whatever readings its calls take, in any interval of one window length an address gets at
      most twice its limit: the end of one window, all of the next, and the call that is
      overtaken by the end of that one. */
  lemma {:induction false} AtMostTwiceTheLimit(rs: seq<Request>, ip: IpAddr, x: int, n: nat, limit: nat, length: nat)
    requires Ordered(rs) && length > 0 && n <= |rs|
    ensures Count(rs, ip, x, x + length, n, limit, length) <= 2 * limit
  {
    hide Admitted, Ordered, Opens;
    if n > 0 {
      AtMostTwiceTheLimit(rs, ip, x, n - 1, limit, length);
      if rs[n - 1].ip == ip && x <= rs[n - 1].now < x + length && Admitted(rs, n - 1, limit, length) {
        BurstRoom(rs, ip, x, n - 1, limit, length);
      }
    }
  }

  /** All readings of the call are its first. */
  ghost predicate Instant(r: Request) {
    (forall i :: r.evict(i) == r.now) && r.now == r.inserted == r.tested == r.reset
  }

  lemma InstantRoom(rs: seq<Request>, ip: IpAddr, x: int, n: nat, limit: nat, length: nat)
    requires Ordered(rs) && length > 0 && n < |rs| && rs[n].now < x + length && Instant(rs[n])
    requires Opens(rs, ip, n, limit, length) && Admitted(rs, n, limit, length)
    ensures limit > 0 && Burst(rs, ip, x, n, limit, length) <= Less(limit)
  {
    hide Admitted, TableAt, Ordered;
    var a, b := Tracked(rs, ip, n, limit, length);
    SpentUpTo(rs, ip, n, limit, length, a, b);
    OpensLate(rs, ip, n, limit, length, a, b);
    hide Opens;
    Narrower(rs, ip, x, x + length, b + 1, n, limit, length);
  }

  /** Where every call reads one instant the bound is one less: the call that opens a window then
      arrives after the one before has ended. */
  lemma {:induction false} UnderTwiceTheLimit(rs: seq<Request>, ip: IpAddr, x: int, n: nat, limit: nat, length: nat)
    requires Ordered(rs) && length > 0 && n <= |rs| && forall i :: 0 <= i < n ==> Instant(rs[i])
    ensures Count(rs, ip, x, x + length, n, limit, length) <= if limit == 0 then 0 else 2 * limit - 1
  {
    hide Admitted, Ordered, Opens, Instant;
    if n > 0 {
      UnderTwiceTheLimit(rs, ip, x, n - 1, limit, length);
      if rs[n - 1].ip == ip && x <= rs[n - 1].now < x + length && Admitted(rs, n - 1, limit, length) {
        BurstRoom(rs, ip, x, n - 1, limit, length);
        if Opens(rs, ip, n - 1, limit, length) {
          InstantRoom(rs, ip, x, n - 1, limit, length);
        }
      }
    }
  }

  lemma OpensLate(rs: seq<Request>, ip: IpAddr, n: nat, limit: nat, length: nat, a: int, b: int)
    requires Ordered(rs) && n < |rs| && Tracks(rs, ip, n, limit, length, a, b)
    requires Opens(rs, ip, n, limit, length) && Instant(rs[n])
    ensures b + length <= rs[n].now
  {
    assert Timely(rs[n]);
    assert n > 0 ==> rs[n - 1].reset <= rs[n].now;
    assert rs[n].evict(ip) == rs[n].now;
    hide TableAt, CountFrom, Crowded;
  }

  function At(ip: IpAddr, now: nat): Request { Request(ip, now, _ => now, now, now, now) }

  /** One request opens a window, the rest of its budget goes at its last instant, and the next
      window's whole budget one instant later. Then one more, whose expiry test comes only when
      that window has ended too. */
  ghost function Straddling(ip: IpAddr, limit: nat, length: nat): seq<Request>
    requires length > 0
  {
    seq(2 * limit, i => At(ip, if i == 0 then 0 else if i < limit then length - 1 else length))
    + [Request(ip, length, _ => length, length, 2 * length, 2 * length)]
  }

  lemma StraddlingIs(ip: IpAddr, limit: nat, length: nat, i: nat)
    requires length > 0 && i <= 2 * limit
    ensures |Straddling(ip, limit, length)| == 2 * limit + 1
    ensures Straddling(ip, limit, length)[i]
         == if i == 2 * limit then Request(ip, length, _ => length, length, 2 * length, 2 * length)
            else At(ip, if i == 0 then 0 else if i < limit then length - 1 else length)
  {}

  /** A lone bucket with room, or past its end, admits. */
  lemma LoneBucket(t: Table, r: Request, limit: nat, length: nat)
    requires limit > 0 && length > 0 && t.Keys <= {r.ip} && r.evict(r.ip) <= r.tested && r.inserted <= r.tested
    requires r.ip in t ==> t[r.ip].misses == 0 && (t[r.ip].requests < limit || Expired(t[r.ip], r.tested, length))
    requires r.ip !in t || Expired(t[r.ip], r.evict(r.ip), length) ==> r.inserted == r.tested
    ensures var w := if r.ip !in t || Expired(t[r.ip], r.evict(r.ip), length) then Window(r.inserted, 0, 0)
                     else if Expired(t[r.ip], r.tested, length) then Window(r.reset, 0, 0) else t[r.ip];
            Admit(t, r, limit, length) == (map[r.ip := w.(requests := w.requests + 1)], true)
  {
    var t1 := Unexpired(t, r.evict, length);
    SubsetCard(t1.Keys, {r.ip});
    assert |t1| == |t1.Keys| <= 1;
    var (w, ok) := Take(BucketOf(t1, r.ip, r.inserted), r.tested, r.reset, limit, MAX_U32, length);
    assert t1[r.ip := w] == map[r.ip := w];
  }

  lemma {:induction false} StraddlingAt(ip: IpAddr, limit: nat, length: nat, n: nat)
    requires 1 <= n <= 2 * limit && length >= 2
    ensures var rs := Straddling(ip, limit, length);
            && TableAt(rs, n, limit, length)
               == map[ip := if n <= limit then Window(0, n, 0) else Window(length, n - limit, 0)]
            && Count(rs, ip, length - 1, 2 * length - 1, n, limit, length) == n - 1
  {
    hide Admit;
    var rs := Straddling(ip, limit, length);
    var t := TableAt(rs, n - 1, limit, length);
    if n > 1 {
      StraddlingAt(ip, limit, length, n - 1);
    }
    StraddlingIs(ip, limit, length, n - 1);
    hide Straddling;
    LoneBucket(t, rs[n - 1], limit, length);
    StraddlingCount(ip, limit, length, n);
  }

  lemma StraddlingCount(ip: IpAddr, limit: nat, length: nat, n: nat)
    requires 1 <= n <= 2 * limit + 1 && length >= 2 && Admitted(Straddling(ip, limit, length), n - 1, limit, length)
    requires limit > 0
    ensures var rs := Straddling(ip, limit, length);
            Count(rs, ip, length - 1, 2 * length - 1, n, limit, length)
            == (if n == 1 then 0 else Count(rs, ip, length - 1, 2 * length - 1, n - 1, limit, length) + 1)
  {
    hide Admitted, Straddling;
    var rs := Straddling(ip, limit, length);
    StraddlingIs(ip, limit, length, n - 1);
    if n == 1 { assert Count(rs, ip, length - 1, 2 * length - 1, 0, limit, length) == 0; }
  }

  /** Both bounds are reached, for every limit. */
  lemma BoundsAreReached(ip: IpAddr, limit: nat, length: nat)
    requires limit > 0 && length >= 2
    ensures var rs := Straddling(ip, limit, length);
            && |rs| == 2 * limit + 1 && Ordered(rs)
            && (forall i :: 0 <= i < 2 * limit ==> Instant(rs[i]))
            && Count(rs, ip, length - 1, 2 * length - 1, 2 * limit, limit, length) == 2 * limit - 1
            && Count(rs, ip, length - 1, 2 * length - 1, 2 * limit + 1, limit, length) == 2 * limit
  {
    hide Admitted, TableAt, Straddling, Ordered, Instant, Count;
    StraddlingIs(ip, limit, length, 0);
    StraddlingOrdered(ip, limit, length);
    StraddlingTotals(ip, limit, length, 2 * limit);
  }

  lemma StraddlingTotals(ip: IpAddr, limit: nat, length: nat, n: nat)
    requires limit > 0 && length >= 2 && n == 2 * limit
    ensures var rs := Straddling(ip, limit, length);
            && |rs| == n + 1 && Count(rs, ip, length - 1, 2 * length - 1, n, limit, length) == n - 1
            && Count(rs, ip, length - 1, 2 * length - 1, n + 1, limit, length) == n
  {
    hide Admitted, TableAt, Straddling, Count;
    StraddlingIs(ip, limit, length, 0);
    StraddlingAt(ip, limit, length, n);
    LastOfAll(ip, limit, length);
    StraddlingCount(ip, limit, length, n + 1);
  }

  lemma LastOfAll(ip: IpAddr, limit: nat, length: nat)
    requires limit > 0 && length >= 2
    ensures Admitted(Straddling(ip, limit, length), 2 * limit, limit, length)
  {
    var rs := Straddling(ip, limit, length);
    StraddlingAt(ip, limit, length, 2 * limit);
    StraddlingIs(ip, limit, length, 2 * limit);
    hide TableAt, Admit, Count, Straddling;
    LoneBucket(TableAt(rs, 2 * limit, limit, length), rs[2 * limit], limit, length);
  }

  lemma StraddlingOrdered(ip: IpAddr, limit: nat, length: nat)
    requires limit > 0 && length >= 2
    ensures Ordered(Straddling(ip, limit, length))
    ensures forall i :: 0 <= i < 2 * limit ==> Instant(Straddling(ip, limit, length)[i])
  {
    var rs := Straddling(ip, limit, length);
    forall i | 0 <= i < |rs| ensures Timely(rs[i]) && (i < 2 * limit ==> Instant(rs[i])) {
      StraddlingIs(ip, limit, length, i);
    }
    forall i, j | 0 <= i < j < |rs| ensures rs[i].reset <= rs[j].now {
      StraddlingIs(ip, limit, length, i);
      StraddlingIs(ip, limit, length, j);
    }
  }

  // ------------------------------------------------------------ the table

  lemma {:induction false} TableStaysSmall(rs: seq<Request>, n: nat, limit: nat, length: nat)
    requires n <= |rs|
    ensures |TableAt(rs, n, limit, length)| <= 1024
  {
    if n > 0 {
      TableStaysSmall(rs, n - 1, limit, length);
      var t := TableAt(rs, n - 1, limit, length);
      var t1 := Unexpired(t, rs[n - 1].evict, length);
      SubsetCard(t1.Keys, t.Keys);
      GrowsByOne(t1.Keys, TableAt(rs, n, limit, length).Keys, rs[n - 1].ip);
      assert rs[n - 1].ip in t1 ==> TableAt(rs, n, limit, length).Keys == t1.Keys;
    }
  }

  // ------------------------------------------------------------ eviction

  ghost function TableForever(rs: seq<Request>, n: nat, limit: nat, length: nat): Table
    requires n <= |rs|
  {
    if n == 0 then map[] else AdmitForever(TableForever(rs, n - 1, limit, length), rs[n - 1], limit, length).0
  }

  /** The small table is the big one without some buckets that have expired. */
  ghost predicate Trimmed(t: Table, big: Table, now: nat, length: nat) {
    && (forall ip :: ip in t ==> ip in big && big[ip] == t[ip])
    && (forall ip :: ip in big && ip !in t ==> Expired(big[ip], now, length))
  }

  /** The call starts its new window, if it starts one, at one instant whichever way it comes to it. */
  predicate Prompt(r: Request, length: nat) { r.inserted == r.reset || r.tested >= r.inserted + length }

  /** The request's bucket had expired and is no longer in the small table. */
  predicate Replaces(t: Table, big: Table, r: Request, length: nat) {
    r.ip in big && r.ip !in Unexpired(t, r.evict, length)
  }

  /** One request answers alike either way. The windows it leaves are equal exactly if it replaces
      no evicted bucket or starts the new one promptly: eviction dates it from its insertion, an
      expired bucket from its reset. */
  lemma EvictionStep(t: Table, big: Table, r: Request, limit: nat, length: nat)
    requires length > 0 && Timely(r) && Trimmed(t, big, r.now, length) && !Crowded(t, r, length)
    ensures Admit(t, r, limit, length).1 == AdmitForever(big, r, limit, length).1
    ensures Admit(t, r, limit, length).0[r.ip] == AdmitForever(big, r, limit, length).0[r.ip]
            <==> !Replaces(t, big, r, length) || Prompt(r, length)
  {
    assert r.now <= r.evict(r.ip) <= r.inserted;
  }

  lemma TrimmedStep(t: Table, big: Table, r: Request, limit: nat, length: nat, later: nat)
    requires length > 0 && Timely(r) && Trimmed(t, big, r.now, length) && !Crowded(t, r, length)
    requires !Replaces(t, big, r, length) || Prompt(r, length)
    requires r.reset <= later
    ensures Trimmed(Admit(t, r, limit, length).0, AdmitForever(big, r, limit, length).0, later, length)
  {
    EvictionStep(t, big, r, limit, length);
    hide Take, Prompt, Crowded;
    assert forall i :: r.evict(i) <= later;
  }

  /** None of the first `n` requests was turned away because the table was full, and each that
      replaced an evicted bucket was prompt. */
  ghost predicate Smooth(rs: seq<Request>, n: nat, limit: nat, length: nat)
    requires n <= |rs|
  {
    n == 0 ||
    (&& Smooth(rs, n - 1, limit, length)
     && !Crowded(TableAt(rs, n - 1, limit, length), rs[n - 1], length)
     && (!Replaces(TableAt(rs, n - 1, limit, length), TableForever(rs, n - 1, limit, length), rs[n - 1], length)
         || Prompt(rs[n - 1], length)))
  }

  lemma {:induction false} TrimmedAt(rs: seq<Request>, n: nat, limit: nat, length: nat, now: nat)
    requires Ordered(rs) && length > 0 && n <= |rs| && Clock(rs, n) <= now && Smooth(rs, n, limit, length)
    ensures Trimmed(TableAt(rs, n, limit, length), TableForever(rs, n, limit, length), now, length)
  {
    if n > 0 {
      hide Admit, AdmitForever, Crowded, Replaces, Prompt, Trimmed;
      var r := rs[n - 1];
      assert Timely(r);
      assert n > 1 ==> rs[n - 2].reset <= r.now;
      TrimmedAt(rs, n - 1, limit, length, r.now);
      TrimmedStep(TableAt(rs, n - 1, limit, length), TableForever(rs, n - 1, limit, length), r, limit, length, now);
    } else {
      assert TableAt(rs, 0, limit, length) == TableForever(rs, 0, limit, length) == map[];
    }
  }

  /** As long as the full table turns nobody away and evicted buckets are replaced promptly,
      evicting answers every request exactly as keeping all buckets for ever. */
  lemma EvictionIsInvisible(rs: seq<Request>, n: nat, limit: nat, length: nat)
    requires Ordered(rs) && length > 0 && n < |rs|
    requires Smooth(rs, n, limit, length) && !Crowded(TableAt(rs, n, limit, length), rs[n], length)
    ensures Admitted(rs, n, limit, length) == AdmitForever(TableForever(rs, n, limit, length), rs[n], limit, length).1
  {
    assert Timely(rs[n]);
    assert n > 0 ==> rs[n - 1].reset <= rs[n].now;
    TrimmedAt(rs, n, limit, length, rs[n].now);
    hide Admit, AdmitForever, Crowded, TableAt, TableForever, Smooth;
    EvictionStep(TableAt(rs, n, limit, length), TableForever(rs, n, limit, length), rs[n], limit, length);
  }

  /** Otherwise it may show: a bucket evicted and opened again at 11 is over at 22, the same bucket kept
      and reset at 13 is not. */
  lemma EvictionMayShow(ip: IpAddr)
    ensures var rs := [At(ip, 0), Request(ip, 11, _ => 11, 11, 11, 13), At(ip, 22)];
            && Ordered(rs) && (forall n :: 0 <= n < 3 ==> !Crowded(TableAt(rs, n, 1, 10), rs[n], 10))
            && Admitted(rs, 2, 1, 10) && !AdmitForever(TableForever(rs, 2, 1, 10), rs[2], 1, 10).1
  {
    var rs := [At(ip, 0), Request(ip, 11, _ => 11, 11, 11, 13), At(ip, 22)];
    assert forall i :: 0 <= i < 3 ==> Timely(rs[i]);
    ShownStep(rs, ip);
    hide Admit, AdmitForever;
    assert TableAt(rs, 0, 1, 10) == map[];
    assert TableAt(rs, 1, 1, 10) == Admit(map[], rs[0], 1, 10).0;
    assert TableAt(rs, 2, 1, 10) == Admit(map[ip := Window(0, 1, 0)], rs[1], 1, 10).0;
    assert TableForever(rs, 0, 1, 10) == map[];
    assert TableForever(rs, 1, 1, 10) == AdmitForever(map[], rs[0], 1, 10).0;
    assert TableForever(rs, 2, 1, 10) == AdmitForever(map[ip := Window(0, 1, 0)], rs[1], 1, 10).0;
  }

  lemma ShownStep(rs: seq<Request>, ip: IpAddr)
    requires rs == [At(ip, 0), Request(ip, 11, _ => 11, 11, 11, 13), At(ip, 22)]
    ensures Admit(map[], rs[0], 1, 10) == AdmitForever(map[], rs[0], 1, 10) == (map[ip := Window(0, 1, 0)], true)
    ensures Admit(map[ip := Window(0, 1, 0)], rs[1], 1, 10) == (map[ip := Window(11, 1, 0)], true)
    ensures AdmitForever(map[ip := Window(0, 1, 0)], rs[1], 1, 10) == (map[ip := Window(13, 1, 0)], true)
    ensures Admit(map[ip := Window(11, 1, 0)], rs[2], 1, 10).1
      && !AdmitForever(map[ip := Window(13, 1, 0)], rs[2], 1, 10).1
    ensures !Crowded(map[], rs[0], 10) && !Crowded(map[ip := Window(0, 1, 0)], rs[1], 10)
    ensures !Crowded(map[ip := Window(11, 1, 0)], rs[2], 10)
  {
    LoneBucket(map[], rs[0], 1, 10);
    LoneBucket(map[ip := Window(0, 1, 0)], rs[1], 1, 10);
    LoneBucket(map[ip := Window(11, 1, 0)], rs[2], 1, 10);
    hide Admit;
    assert Unexpired(map[], rs[0].evict, 10) == map[];
    assert Unexpired(map[ip := Window(0, 1, 0)], rs[1].evict, 10) == map[];
    assert Unexpired(map[ip := Window(11, 1, 0)], rs[2].evict, 10) == map[];
    assert map[ip := Window(0, 1, 0)][ip := Window(13, 1, 0)] == map[ip := Window(13, 1, 0)];
  }
}
