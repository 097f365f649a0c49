/** The limit a connection carries with it: one window, opened when the connection is. */
module RateWindow {
  import opened RateLimit

  /** A call tests the window's end at its first reading and restarts it at its second. */
  datatype Call = Call(now: nat, reset: nat)

  ghost predicate InOrder(start: nat, cs: seq<Call>) {
    && (forall i :: 0 <= i < |cs| ==> start <= cs[i].now <= cs[i].reset)
    && (forall i, j :: 0 <= i < j < |cs| ==> cs[i].reset <= cs[j].now)
  }

  ghost function WindowAt(start: nat, cs: seq<Call>, n: nat, limit: nat, length: nat): Window
    requires n <= |cs|
  {
    if n == 0 then Window(start, 0, 0)
    else Take(WindowAt(start, cs, n - 1, limit, length), cs[n - 1].now, cs[n - 1].reset, limit, MAX_U32, length).0
  }

  ghost predicate Granted(start: nat, cs: seq<Call>, n: nat, limit: nat, length: nat)
    requires n < |cs|
  {
    Take(WindowAt(start, cs, n, limit, length), cs[n].now, cs[n].reset, limit, MAX_U32, length).1
  }

  /** How many of the first `n` calls came in `[lo, hi)` and were granted. */
  ghost function Grants(start: nat, cs: seq<Call>, lo: int, hi: int, n: nat, limit: nat, length: nat): nat
    requires n <= |cs|
  {
    if n == 0 then 0
    else
      Grants(start, cs, lo, hi, n - 1, limit, length)
      + (if lo <= cs[n - 1].now < hi && Granted(start, cs, n - 1, limit, length) then 1 else 0)
  }

  lemma {:induction false} Fewer(start: nat, cs: seq<Call>, lo: int, hi: int, lo': int, hi': int, n: nat,
                                 limit: nat, length: nat)
    requires n <= |cs| && lo' <= lo && forall i :: 0 <= i < n && cs[i].now < hi ==> cs[i].now < hi'
    ensures Grants(start, cs, lo, hi, n, limit, length) <= Grants(start, cs, lo', hi', n, limit, length)
  {
    if n > 0 {
      hide Granted;
      Fewer(start, cs, lo, hi, lo', hi', n - 1, limit, length);
    }
  }

  /** Later than any call. */
  ghost function Beyond(start: nat, cs: seq<Call>): nat { if cs == [] then start + 1 else cs[|cs| - 1].now + 1 }

  ghost function LastReading(start: nat, cs: seq<Call>, n: nat): nat
    requires n <= |cs|
  {
    if n == 0 then start else cs[n - 1].reset
  }

  /** `a` is the start of the window before: since then both windows' grants, since this one's start its own. */
  ghost predicate Follows(start: nat, cs: seq<Call>, n: nat, limit: nat, length: nat, a: int)
    requires n <= |cs|
  {
    var w, far := WindowAt(start, cs, n, limit, length), Beyond(start, cs);
    && a + length <= w.started <= LastReading(start, cs, n) && w.requests <= limit && w.misses == 0
    && Grants(start, cs, w.started + 1, far, n, limit, length) <= w.requests
    && Grants(start, cs, a + 1, far, n, limit, length) <= limit + w.requests
  }

  lemma {:induction false} NoneYet(start: nat, cs: seq<Call>, lo: int, hi: int, n: nat, limit: nat, length: nat)
    requires n <= |cs| && forall i :: 0 <= i < n ==> cs[i].now < lo
    ensures Grants(start, cs, lo, hi, n, limit, length) == 0
  {
    if n > 0 {
      hide Granted;
      NoneYet(start, cs, lo, hi, n - 1, limit, length);
    }
  }

  lemma FollowStep(start: nat, cs: seq<Call>, n: nat, n': nat, limit: nat, length: nat, a: int) returns (a': int)
    requires InOrder(start, cs) && length > 0 && n < |cs| && n' == n + 1 && Follows(start, cs, n, limit, length, a)
    ensures Follows(start, cs, n', limit, length, a')
  {
    var w, c := WindowAt(start, cs, n, limit, length), cs[n];
    assert n > 0 ==> cs[n - 1].reset <= c.now;
    if Expired(w, c.now, length) {
      a' := w.started;
      forall i | 0 <= i < n' ensures cs[i].now < c.reset + 1 {
        assert i < n ==> cs[i].reset <= c.now;
      }
      NoneYet(start, cs, c.reset + 1, Beyond(start, cs), n', limit, length);
    } else {
      a' := a;
    }
  }

  lemma {:induction false} Followed(start: nat, cs: seq<Call>, n: nat, limit: nat, length: nat) returns (a: int)
    requires InOrder(start, cs) && length > 0 && n <= |cs|
    ensures Follows(start, cs, n, limit, length, a)
  {
    if n == 0 {
      a := start - length;
    } else {
      hide Follows;
      a := Followed(start, cs, n - 1, limit, length);
      a := FollowStep(start, cs, n - 1, n, limit, length, a);
    }
  }

  /** A granted call finds room for itself. */
  lemma GrantRoom(start: nat, cs: seq<Call>, x: int, n: nat, limit: nat, length: nat)
    requires InOrder(start, cs) && length > 0 && n < |cs| && cs[n].now < x + length
    requires Granted(start, cs, n, limit, length)
    ensures Grants(start, cs, x, x + length, n, limit, length) + 1 <= 2 * limit
  {
    var a := Followed(start, cs, n, limit, length);
    var w, far := WindowAt(start, cs, n, limit, length), Beyond(start, cs);
    assert n > 0 ==> cs[n - 1].reset <= cs[n].now;
    forall i | 0 <= i < n ensures cs[i].now < far {
      var last := |cs| - 1;
      assert i < last ==> cs[i].reset <= cs[last].now;
    }
    var lo := if Expired(w, cs[n].now, length) then w.started + 1 else a + 1;
    Fewer(start, cs, x, x + length, lo, far, n, limit, length);
    hide WindowAt, Grants;
  }

  /** In any interval of one window length a connection is granted at most twice its limit. */
  lemma {:induction false} ConnectionGetsAtMostTwice(start: nat, cs: seq<Call>, x: int, n: nat, limit: nat, length: nat)
    requires InOrder(start, cs) && length > 0 && n <= |cs|
    ensures Grants(start, cs, x, x + length, n, limit, length) <= 2 * limit
  {
    hide Granted;
    if n > 0 {
      ConnectionGetsAtMostTwice(start, cs, x, n - 1, limit, length);
      if x <= cs[n - 1].now < x + length && Granted(start, cs, n - 1, limit, length) {
        GrantRoom(start, cs, x, n - 1, limit, length);
      }
    }
  }

  /** The first window's budget at its last instant, the next one's at its first. */
  ghost function Doubled(limit: nat, length: nat): seq<Call>
    requires length > 0
  {
    seq(2 * limit, i => if i < limit then Call(length - 1, length - 1) else Call(length, length))
  }

  lemma {:induction false} DoubledAt(limit: nat, length: nat, n: nat)
    requires n <= 2 * limit && length >= 2
    ensures var cs := Doubled(limit, length);
            && WindowAt(0, cs, n, limit, length)
               == (if n <= limit then Window(0, n, 0) else Window(length, n - limit, 0))
            && Grants(0, cs, length - 1, 2 * length - 1, n, limit, length) == n
  {
    if n > 0 {
      DoubledAt(limit, length, n - 1);
      var at := if n - 1 < limit then length - 1 else length;
      assert Doubled(limit, length)[n - 1] == Call(at, at);
    }
  }

  /** And that is reached: the first window is opened by no call, so all of both budgets fit in. */
  lemma ConnectionReachesTwice(limit: nat, length: nat)
    requires length >= 2
    ensures var cs := Doubled(limit, length);
            && InOrder(0, cs) && |cs| == 2 * limit
            && Grants(0, cs, length - 1, 2 * length - 1, |cs|, limit, length) == 2 * limit
  {
    DoubledAt(limit, length, 2 * limit);
  }
}
