/** Short-id lookups on one connection: every lookup that resolves nothing is a miss, a refused one too,
    and a window that has seen too many misses refuses everything. */
module RateMisses {
  import opened RateLimit

  /** A lookup's two readings and what the steps after the connection's own window would say of it:
      the address's limiter, the id's range and the store. */
  datatype Short = Short(now: nat, reset: nat, addressOk: bool, valid: bool, known: bool)

  /** Lookups and misses per window, and its length. */
  datatype Limits = Limits(requests: nat, misses: nat, length: nat)

  datatype Looked = Looked(window: Window, granted: bool, resolved: bool)

  function Look(w: Window, l: Short, c: Limits): Looked {
    var (w1, ok) := Take(w, l.now, l.reset, c.requests, c.misses, c.length);
    var resolved := ok && l.addressOk && l.valid && l.known;
    var misses := if resolved then w1.misses else if w1.misses < MAX_U32 then w1.misses + 1 else w1.misses;
    Looked(w1.(misses := misses), ok, resolved)
  }

  method LookupShort(w: LookupWindow, l: Short, c: Limits) returns (granted: bool, resolved: bool)
    modifies w
    ensures Looked(w.View(), granted, resolved) == Look(old(w.View()), l, c)
  {
    granted := w.TakeInWindow(l.now, l.reset, c.requests, c.misses, c.length);
    resolved := granted && l.addressOk && l.valid && l.known;
    if !resolved && w.misses < MAX_U32 {
      w.misses := w.misses + 1;
    }
  }

  // ------------------------------------------------------------ a connection's lookups

  ghost function WindowAt(start: nat, ls: seq<Short>, n: nat, c: Limits): Window
    requires n <= |ls|
  {
    if n == 0 then Window(start, 0, 0) else Look(WindowAt(start, ls, n - 1, c), ls[n - 1], c).window
  }

  ghost predicate Granted(start: nat, ls: seq<Short>, n: nat, c: Limits)
    requires n < |ls|
  {
    Look(WindowAt(start, ls, n, c), ls[n], c).granted
  }

  ghost predicate Resolved(start: nat, ls: seq<Short>, n: nat, c: Limits)
    requires n < |ls|
  {
    Look(WindowAt(start, ls, n, c), ls[n], c).resolved
  }

  /** The window the first `n` lookups leave open: when it began, and which lookup was its first,
      read off the clock alone. `before` is the first lookup of the window it replaced. */
  datatype Opening = Opening(time: nat, first: nat, before: nat)

  ghost function OpenAfter(start: nat, ls: seq<Short>, n: nat, length: nat): (o: Opening)
    requires n <= |ls|
    ensures o.before <= o.first <= n
  {
    if n == 0 then Opening(start, 0, 0)
    else
      var o := OpenAfter(start, ls, n - 1, length);
      if ls[n - 1].now >= o.time + length then Opening(ls[n - 1].reset, n - 1, o.first) else o
  }

  /** How many of the lookups in `[lo, n)` were granted, and how many resolved nothing. */
  ghost function Grants(start: nat, ls: seq<Short>, lo: nat, n: nat, c: Limits): nat
    requires n <= |ls|
  {
    if n <= lo then 0 else Grants(start, ls, lo, n - 1, c) + (if Granted(start, ls, n - 1, c) then 1 else 0)
  }

  ghost function Misses(start: nat, ls: seq<Short>, lo: nat, n: nat, c: Limits): nat
    requires n <= |ls|
  {
    if n <= lo then 0 else Misses(start, ls, lo, n - 1, c) + (if Resolved(start, ls, n - 1, c) then 0 else 1)
  }

  ghost predicate Remembers(start: nat, ls: seq<Short>, n: nat, c: Limits)
    requires n <= |ls|
  {
    var o, w := OpenAfter(start, ls, n, c.length), WindowAt(start, ls, n, c);
    var missed := Misses(start, ls, o.first, n, c);
    && w.started == o.time
    && w.requests == Grants(start, ls, o.first, n, c)
    && w.misses == (if missed <= MAX_U32 then missed else MAX_U32)
  }

  lemma RemembersStep(start: nat, ls: seq<Short>, n: nat, c: Limits)
    requires n < |ls| && Remembers(start, ls, n, c)
    ensures Remembers(start, ls, n + 1, c)
  {
    var o, o' := OpenAfter(start, ls, n, c.length), OpenAfter(start, ls, n + 1, c.length);
    var w, w' := WindowAt(start, ls, n, c), WindowAt(start, ls, n + 1, c);
    assert w' == Look(w, ls[n], c).window;
    assert Grants(start, ls, n, n, c) == 0 && Misses(start, ls, n, n, c) == 0;
  }

  lemma {:induction false} Remembered(start: nat, ls: seq<Short>, n: nat, c: Limits)
    requires n <= |ls|
    ensures Remembers(start, ls, n, c)
  {
    if n > 0 {
      Remembered(start, ls, n - 1, c);
      RemembersStep(start, ls, n - 1, c);
    }
  }

  /** A lookup is granted if and only if the window it falls in has seen fewer grants and fewer misses than
      the limits say; it resolves if and only if it is granted and everything after says yes. */
  lemma GrantedExactly(start: nat, ls: seq<Short>, n: nat, c: Limits)
    requires n < |ls| && c.misses <= 0xFFFF_FFFF
    ensures var first := OpenAfter(start, ls, n + 1, c.length).first;
            Granted(start, ls, n, c) <==>
            Grants(start, ls, first, n, c) < c.requests && Misses(start, ls, first, n, c) < c.misses
    ensures Resolved(start, ls, n, c) <==>
            Granted(start, ls, n, c) && ls[n].addressOk && ls[n].valid && ls[n].known
  {
    Remembered(start, ls, n, c);
  }

  lemma {:induction false} MissesGrow(start: nat, ls: seq<Short>, lo: nat, n: nat, m: nat, c: Limits)
    requires n <= m <= |ls|
    ensures Misses(start, ls, lo, n, c) <= Misses(start, ls, lo, m, c)
    ensures Grants(start, ls, lo, n, c) <= Grants(start, ls, lo, m, c)
    decreases m
  {
    hide Granted, Resolved;
    if n < m {
      MissesGrow(start, ls, lo, n, m - 1, c);
    }
  }

  /** Once refused, a connection is refused until a lookup finds the window at its end. */
  lemma RefusedUntilTheEnd(start: nat, ls: seq<Short>, n: nat, m: nat, c: Limits)
    requires n < m < |ls| && c.misses <= 0xFFFF_FFFF && !Granted(start, ls, n, c)
    requires OpenAfter(start, ls, n + 1, c.length).first == OpenAfter(start, ls, m + 1, c.length).first
    ensures !Granted(start, ls, m, c)
  {
    hide Granted, Resolved;
    GrantedExactly(start, ls, n, c);
    GrantedExactly(start, ls, m, c);
    MissesGrow(start, ls, OpenAfter(start, ls, n + 1, c.length).first, n, m, c);
  }

  // ------------------------------------------------------------ wrong guesses

  /** The lookup was let through and found nothing. */
  ghost predicate Guess(start: nat, ls: seq<Short>, n: nat, c: Limits)
    requires n < |ls|
  {
    Granted(start, ls, n, c) && !Resolved(start, ls, n, c)
  }

  /** How many of the lookups in `[lo, n)` that came at `x` or later and before `y` were wrong guesses. */
  ghost function Guesses(start: nat, ls: seq<Short>, lo: nat, n: nat, x: int, y: int, c: Limits): nat
    requires n <= |ls|
  {
    if n <= lo then 0
    else
      Guesses(start, ls, lo, n - 1, x, y, c)
      + (if x <= ls[n - 1].now < y && Guess(start, ls, n - 1, c) then 1 else 0)
  }

  lemma {:induction false} GuessesAreMisses(start: nat, ls: seq<Short>, lo: nat, n: nat, x: int, y: int, c: Limits)
    requires n <= |ls|
    ensures Guesses(start, ls, lo, n, x, y, c) <= Misses(start, ls, lo, n, c)
  {
    hide Granted, Resolved;
    if n > lo {
      GuessesAreMisses(start, ls, lo, n - 1, x, y, c);
    }
  }

  /** The window at hand, and the one before it, hold no more wrong guesses than the miss limit. */
  ghost predicate Frugal(start: nat, ls: seq<Short>, n: nat, x: int, y: int, c: Limits)
    requires n <= |ls|
  {
    var o := OpenAfter(start, ls, n, c.length);
    && Guesses(start, ls, o.first, n, x, y, c) <= c.misses
    && Guesses(start, ls, o.before, o.first, x, y, c) <= c.misses
  }

  lemma FrugalStep(start: nat, ls: seq<Short>, n: nat, x: int, y: int, c: Limits)
    requires n < |ls| && c.misses <= 0xFFFF_FFFF && Frugal(start, ls, n, x, y, c)
    ensures Frugal(start, ls, n + 1, x, y, c)
  {
    hide Granted, Resolved;
    var o, o' := OpenAfter(start, ls, n, c.length), OpenAfter(start, ls, n + 1, c.length);
    GrantedExactly(start, ls, n, c);
    GuessesAreMisses(start, ls, o'.first, n, x, y, c);
  }

  lemma {:induction false} AlwaysFrugal(start: nat, ls: seq<Short>, n: nat, x: int, y: int, c: Limits)
    requires n <= |ls| && c.misses <= 0xFFFF_FFFF
    ensures Frugal(start, ls, n, x, y, c)
  {
    if n > 0 {
      AlwaysFrugal(start, ls, n - 1, x, y, c);
      FrugalStep(start, ls, n - 1, x, y, c);
    }
  }

  ghost predicate InOrder(start: nat, ls: seq<Short>) {
    && (forall i :: 0 <= i < |ls| ==> start <= ls[i].now <= ls[i].reset)
    && (forall i, j :: 0 <= i < j < |ls| ==> ls[i].reset <= ls[j].now)
  }

  /** What came before the previous window came a whole window before the present one's first lookup. */
  ghost predicate Spaced(start: nat, ls: seq<Short>, n: nat, length: nat)
    requires n <= |ls|
  {
    var o := OpenAfter(start, ls, n, length);
    && (forall i :: 0 <= i < o.before ==> ls[i].now + length <= ls[o.first].now)
    && (o.first < n ==> forall i :: 0 <= i < o.first ==> ls[i].now <= o.time)
  }

  lemma {:induction false} Spread(start: nat, ls: seq<Short>, n: nat, length: nat)
    requires n <= |ls| && InOrder(start, ls) && length > 0
    ensures Spaced(start, ls, n, length)
  {
    if n > 0 {
      Spread(start, ls, n - 1, length);
    }
  }

  lemma {:induction false} NoneBefore(start: nat, ls: seq<Short>, lo: nat, n: nat, x: int, y: int, c: Limits)
    requires lo <= n <= |ls| && forall i :: 0 <= i < lo ==> ls[i].now < x
    ensures Guesses(start, ls, 0, n, x, y, c) == Guesses(start, ls, lo, n, x, y, c)
  {
    hide Guess;
    if n > 0 {
      NoneBefore(start, ls, if lo < n then lo else n - 1, n - 1, x, y, c);
    }
  }

  lemma {:induction false} GuessesSplit(start: nat, ls: seq<Short>, lo: nat, mid: nat, n: nat, x: int, y: int,
                                        c: Limits)
    requires lo <= mid <= n <= |ls|
    ensures Guesses(start, ls, lo, n, x, y, c)
         == Guesses(start, ls, lo, mid, x, y, c) + Guesses(start, ls, mid, n, x, y, c)
  {
    hide Guess;
    if n > mid {
      GuessesSplit(start, ls, lo, mid, n - 1, x, y, c);
    }
  }

  /** In any interval of one window length a connection makes at most twice as many wrong guesses as the
      miss limit allows. */
  lemma {:induction false} GuessesAreFew(start: nat, ls: seq<Short>, n: nat, x: int, c: Limits)
    requires n <= |ls| && InOrder(start, ls) && c.length > 0 && c.misses <= 0xFFFF_FFFF
    ensures Guesses(start, ls, 0, n, x, x + c.length, c) <= 2 * c.misses
  {
    if n > 0 {
      hide Guess;
      if x <= ls[n - 1].now < x + c.length {
        var o := OpenAfter(start, ls, n, c.length);
        Spread(start, ls, n, c.length);
        assert o.first < n - 1 ==> ls[o.first].reset <= ls[n - 1].now;
        NoneBefore(start, ls, o.before, n, x, x + c.length, c);
        GuessesSplit(start, ls, o.before, o.first, n, x, x + c.length, c);
        AlwaysFrugal(start, ls, n, x, x + c.length, c);
      } else {
        GuessesAreFew(start, ls, n - 1, x, c);
      }
    }
  }
}
