/** Short device ids: the durable sequential allocator and its budget window. */
module ShortIds {
  import opened Common

  const FIRST: nat := 100_000_000
  const LAST: nat := 999_999_999
  const WINDOW: nat := 60

  datatype Row = Row(shortId: nat, created: int, lastSeen: int)

  /** The three tables: mappings by identity, the sequence row and the budget row. */
  datatype Tables = Tables(mapping: map<NodeId, Row>, nextId: nat, started: int, allocations: nat)

  datatype Limits = Limits(maxMappings: nat, perWindow: nat)

  datatype Outcome =
    | Id(value: nat)
    | ClockBeforeEpoch | PoolExhausted | MappingsFull | WindowFull | SourceRefused | StorageFailed

  /** One registration: the clock reading, the source's own admission and the statement, if
      any, at which the database gives up are inputs. */
  datatype Attempt = Attempt(who: NodeId, limits: Limits, now: int, admitted: bool, failsAt: Option<nat>)

  function Fresh(): Tables { Tables(map[], FIRST, 0, 0) }

  predicate Fails(a: Attempt, statements: nat) { a.failsAt.Some? && a.failsAt.value < statements }

  /** The budget row after the window has been rolled forward: a clock that runs backwards
      leaves it alone. */
  function Rolled(t: Tables, now: int): (int, nat) {
    if now - t.started >= WINDOW then (now, 0) else (t.started, t.allocations)
  }

  function Seen(t: Tables, who: NodeId, now: int): Tables
    requires who in t.mapping
  {
    t.(mapping := t.mapping[who := t.mapping[who].(lastSeen := now)])
  }

  function Allocated(t: Tables, who: NodeId, now: int): Tables {
    var (started, allocations) := Rolled(t, now);
    Tables(t.mapping[who := Row(t.nextId, now, now)], t.nextId + 1, started, allocations + 1)
  }

  function Register(t: Tables, a: Attempt): (Tables, Outcome) {
    if a.now < 0 then (t, ClockBeforeEpoch)
    else if a.who in t.mapping then
      if Fails(a, 3) then (t, StorageFailed) else (Seen(t, a.who, a.now), Id(t.mapping[a.who].shortId))
    else if Fails(a, 2) then (t, StorageFailed)
    else if t.nextId > LAST then (t, PoolExhausted)
    else if t.nextId - FIRST >= a.limits.maxMappings then (t, MappingsFull)
    else if Fails(a, 3) then (t, StorageFailed)
    else if Rolled(t, a.now).1 >= a.limits.perWindow then (t, WindowFull)
    else if !a.admitted then (t, SourceRefused)
    else if Fails(a, 7) then (t, StorageFailed)
    else (Allocated(t, a.who, a.now), Id(t.nextId))
  }

  function Run(t: Tables, attempts: seq<Attempt>): Tables
    decreases |attempts|
  {
    if attempts == [] then t else Run(Register(t, attempts[0]).0, attempts[1..])
  }

  // ---------------------------------------------------------------- the bijection

  ghost predicate Holds(m: map<NodeId, Row>, who: NodeId, id: nat) { who in m && m[who].shortId == id }

  ghost predicate Taken(m: map<NodeId, Row>, id: nat) { exists who :: Holds(m, who, id) }

  /** Identities and FIRST..nextId-1 in one-to-one correspondence. */
  ghost predicate Bijection(t: Tables) {
    && 100_000_000 <= t.nextId <= 1_000_000_000
    && (forall who :: who in t.mapping ==> FIRST <= t.mapping[who].shortId < t.nextId)
    && (forall a, b :: a in t.mapping && b in t.mapping && t.mapping[a].shortId == t.mapping[b].shortId ==> a == b)
    && (forall id :: FIRST <= id < t.nextId ==> Taken(t.mapping, id))
  }

  lemma SeenKeeps(t: Tables, who: NodeId, now: int)
    requires Bijection(t) && who in t.mapping
    ensures Bijection(Seen(t, who, now))
  {
    var t' := Seen(t, who, now);
    forall id | FIRST <= id < t.nextId ensures Taken(t'.mapping, id) {
      assert Taken(t.mapping, id);
      var d :| Holds(t.mapping, d, id);
      assert Holds(t'.mapping, d, id);
    }
  }

  lemma AllocatedKeeps(t: Tables, who: NodeId, now: int)
    requires Bijection(t) && who !in t.mapping && t.nextId <= LAST
    ensures Bijection(Allocated(t, who, now))
  {
    var t' := Allocated(t, who, now);
    assert Holds(t'.mapping, who, t.nextId);
    forall id | FIRST <= id < t.nextId ensures Taken(t'.mapping, id) {
      assert Taken(t.mapping, id);
      var d :| Holds(t.mapping, d, id);
      assert Holds(t'.mapping, d, id);
    }
  }

  lemma RegisterKeeps(t: Tables, a: Attempt)
    requires Bijection(t)
    ensures Bijection(Register(t, a).0)
  {
    hide Seen, Allocated;
    if a.who in t.mapping {
      SeenKeeps(t, a.who, a.now);
    } else if t.nextId <= LAST {
      AllocatedKeeps(t, a.who, a.now);
    }
  }

  lemma {:induction false} AlwaysBijection(t: Tables, attempts: seq<Attempt>)
    requires Bijection(t)
    ensures Bijection(Run(t, attempts))
    decreases |attempts|
  {
    hide Register, Bijection;
    if attempts != [] {
      RegisterKeeps(t, attempts[0]);
      AlwaysBijection(Register(t, attempts[0]).0, attempts[1..]);
    }
  }

  /** Every table the server can hold is such a correspondence. */
  lemma FreshRunIsBijection(attempts: seq<Attempt>)
    ensures Bijection(Run(Fresh(), attempts))
  {
    AlwaysBijection(Fresh(), attempts);
  }

  /** An id once given stays with its identity, whatever is attempted later. */
  lemma {:induction false} IdsNeverChange(t: Tables, attempts: seq<Attempt>, who: NodeId)
    requires who in t.mapping
    ensures who in Run(t, attempts).mapping
    ensures Run(t, attempts).mapping[who].shortId == t.mapping[who].shortId
    ensures Run(t, attempts).mapping[who].created == t.mapping[who].created
    decreases |attempts|
  {
    if attempts != [] {
      IdsNeverChange(Register(t, attempts[0]).0, attempts[1..], who);
    }
  }

  /** What a registration answered is what every later lookup finds, and nobody else. */
  lemma LookupInvertsRegister(t: Tables, a: Attempt, later: seq<Attempt>, who: NodeId)
    requires Bijection(t) && Register(t, a).1.Id?
    ensures Holds(Run(Register(t, a).0, later).mapping, who, Register(t, a).1.value) <==> who == a.who
  {
    var t' := Register(t, a).0;
    assert Holds(t'.mapping, a.who, Register(t, a).1.value);
    assert Bijection(Run(t', later)) by {
      RegisterKeeps(t, a);
      AlwaysBijection(t', later);
    }
    IdsNeverChange(t', later, a.who);
  }

  /** Coming back costs nothing: same id, sequence and budget untouched, whatever the limits. */
  lemma ReRegistrationIsFree(t: Tables, a: Attempt)
    requires a.who in t.mapping
    ensures var t' := Register(t, a).0;
            && t'.nextId == t.nextId && t'.started == t.started && t'.allocations == t.allocations
            && t'.mapping.Keys == t.mapping.Keys
            && (forall d :: d in t.mapping && d != a.who ==> t'.mapping[d] == t.mapping[d])
    ensures Register(t, a).1.Id? ==> Register(t, a).0.mapping[a.who] == t.mapping[a.who].(lastSeen := a.now)
    ensures Register(t, a).1 == Id(t.mapping[a.who].shortId) <==> a.now >= 0 && !Fails(a, 3)
  {}

  /** All or nothing: anything but an id leaves every table as it was, and a newcomer gets one
      exactly when pool, caps, window, source and storage all allow it. */
  lemma RefusedLeavesNothing(t: Tables, a: Attempt)
    ensures Register(t, a).1.Id? || Register(t, a).0 == t
    ensures a.who !in t.mapping ==>
              (Register(t, a).1.Id? <==>
                && a.now >= 0 && a.admitted && !Fails(a, 7)
                && t.nextId <= 999_999_999 && t.nextId - 100_000_000 < a.limits.maxMappings
                && (t.allocations < a.limits.perWindow || (a.now >= t.started + 60 && a.limits.perWindow > 0)))
    ensures a.who !in t.mapping && Register(t, a).1.Id? ==>
              && Register(t, a).1.value == t.nextId
              && Register(t, a).0.mapping == t.mapping[a.who := Row(t.nextId, a.now, a.now)]
              && Register(t, a).0.nextId == t.nextId + 1
              && (if a.now >= t.started + 60
                  then Register(t, a).0.started == a.now && Register(t, a).0.allocations == 1
                  else Register(t, a).0.started == t.started && Register(t, a).0.allocations == t.allocations + 1)
  {}

  // ---------------------------------------------------------------- the budget

  ghost predicate Limited(attempts: seq<Attempt>, limits: Limits, lo: int, hi: int) {
    forall i :: 0 <= i < |attempts| ==> attempts[i].limits == limits && lo <= attempts[i].now <= hi
  }

  lemma {:induction false} WindowNeverGoesBack(t: Tables, attempts: seq<Attempt>)
    ensures Run(t, attempts).started >= t.started
    decreases |attempts|
  {
    if attempts != [] {
      WindowNeverGoesBack(Register(t, attempts[0]).0, attempts[1..]);
    }
  }

  lemma MoreWindows(n: nat, a: int, b: int)
    requires a + 1 <= b
    ensures n * a + n <= n * b
  {
    assert n * (a + 1) <= n * b;
  }

  /** Ids given so far against whole windows elapsed since `origin`. */
  ghost predicate Paced(t: Tables, base: int, limits: Limits, origin: int) {
    && t.allocations <= limits.perWindow
    && t.started >= origin
    && t.nextId - base <= limits.perWindow * ((t.started - origin) / WINDOW) + t.allocations
  }

  lemma PacedStep(t: Tables, a: Attempt, base: int, origin: int)
    requires Paced(t, base, a.limits, origin)
    ensures Paced(Register(t, a).0, base, a.limits, origin)
  {
    if a.now - t.started >= WINDOW {
      MoreWindows(a.limits.perWindow, (t.started - origin) / WINDOW, (a.now - origin) / WINDOW);
    }
  }

  lemma {:induction false} PacedRun(t: Tables, attempts: seq<Attempt>, limits: Limits, base: int, origin: int, lo: int,
                                    hi: int)
    requires Paced(t, base, limits, origin) && Limited(attempts, limits, lo, hi) && t.started <= hi
    ensures Paced(Run(t, attempts), base, limits, origin) && Run(t, attempts).started <= hi
    decreases |attempts|
  {
    if attempts != [] {
      hide Paced;
      PacedStep(t, attempts[0], base, origin);
      PacedRun(Register(t, attempts[0]).0, attempts[1..], limits, base, origin, lo, hi);
    }
  }

  lemma {:induction false} CappedRun(t: Tables, attempts: seq<Attempt>, limits: Limits, lo: int, hi: int)
    requires Limited(attempts, limits, lo, hi) && FIRST <= t.nextId <= FIRST + limits.maxMappings
    ensures FIRST <= Run(t, attempts).nextId <= FIRST + limits.maxMappings
    decreases |attempts|
  {
    if attempts != [] {
      CappedRun(Register(t, attempts[0]).0, attempts[1..], limits, lo, hi);
    }
  }

  /** Whatever the clock does below `T`, even running backwards, a fresh store gives out at most
      one window's worth of ids per minute elapsed plus one, and never more than the cap. */
  lemma NewIdsAreBudgeted(attempts: seq<Attempt>, limits: Limits, lo: int, T: nat)
    requires Limited(attempts, limits, lo, T)
    ensures var given := Run(Fresh(), attempts).nextId - 100_000_000;
            given <= limits.perWindow * (T / 60 + 1) && given <= limits.maxMappings
  {
    PacedRun(Fresh(), attempts, limits, FIRST, 0, lo, T);
    CappedRun(Fresh(), attempts, limits, lo, T);
    var t := Run(Fresh(), attempts);
    MoreWindows(limits.perWindow, t.started / WINDOW, T / WINDOW + 1);
  }

  /** What the open window still allows, which is nothing when a lower limit has come into force. */
  function Remaining(t: Tables, limits: Limits): nat {
    if t.allocations < limits.perWindow then limits.perWindow - t.allocations else 0
  }

  /** From any state, attempts whose readings lie in [lo, hi] give out at most what the open window
      has left and perWindow * ((hi - lo) / 60 + 1) more: the windows that start inside. */
  lemma {:induction false} NewIdsInAnInterval(t: Tables, attempts: seq<Attempt>, limits: Limits, lo: nat, hi: nat)
    requires Limited(attempts, limits, lo, hi) && lo <= hi
    ensures Run(t, attempts).nextId - t.nextId
         <= limits.perWindow * ((hi - lo) / 60 + 1) + Remaining(t, limits)
    decreases |attempts|
  {
    var n, w := limits.perWindow, (hi - lo) / WINDOW;
    assert n * (w + 1) >= 0;
    if attempts != [] {
      var a := attempts[0];
      var t' := Register(t, a).0;
      if t'.started != t.started {
        assert t'.started == a.now && t'.allocations == 1 && t'.nextId == t.nextId + 1;
        AfterReset(t', attempts[1..], limits, lo, hi);
      } else {
        NewIdsInAnInterval(t', attempts[1..], limits, lo, hi);
      }
    }
  }

  lemma AfterReset(t: Tables, attempts: seq<Attempt>, limits: Limits, lo: nat, hi: nat)
    requires Limited(attempts, limits, lo, hi) && lo <= t.started <= hi && t.allocations == 1 <= limits.perWindow
    ensures Run(t, attempts).nextId - (t.nextId - 1) <= limits.perWindow * ((hi - lo) / WINDOW + 1)
  {
    assert 0 <= limits.perWindow * ((t.started - lo) / WINDOW);
    PacedRun(t, attempts, limits, t.nextId - 1, lo, lo, hi);
    var t' := Run(t, attempts);
    MoreWindows(limits.perWindow, (t'.started - lo) / WINDOW, (hi - lo) / WINDOW + 1);
  }

  // ---------------------------------------------------------------- the store

  class ShortIdStore {
    var committed: Tables

    constructor ()
      ensures committed == Fresh()
    {
      committed := Fresh();
    }

    /** One write transaction: `work` is what it would commit, dropped on every early return. */
    method RegisterWithLimits(a: Attempt) returns (r: Outcome)
      requires Bijection(committed)
      modifies this
      ensures (committed, r) == Register(old(committed), a)
      ensures Bijection(committed)
    {
      RegisterKeeps(committed, a);
      var work := committed;
      if a.now < 0 { return ClockBeforeEpoch; }
      if a.failsAt == Some(0) { return StorageFailed; }
      if a.who in work.mapping {
        if a.failsAt == Some(1) { return StorageFailed; }
        var row := work.mapping[a.who];
        work := work.(mapping := work.mapping[a.who := row.(lastSeen := a.now)]);
        if a.failsAt == Some(2) { return StorageFailed; }
        committed := work;
        return Id(row.shortId);
      }
      if a.failsAt == Some(1) { return StorageFailed; }
      var next := work.nextId;
      if next > LAST { return PoolExhausted; }
      if next - FIRST >= a.limits.maxMappings { return MappingsFull; }
      if a.failsAt == Some(2) { return StorageFailed; }
      var started, allocations := work.started, work.allocations;
      if a.now - started >= WINDOW { started, allocations := a.now, 0; }
      if allocations >= a.limits.perWindow { return WindowFull; }
      if !a.admitted { return SourceRefused; }
      if a.failsAt == Some(3) { return StorageFailed; }
      work := work.(started := started, allocations := allocations + 1);
      if a.failsAt == Some(4) { return StorageFailed; }
      // Neither constraint of the table can refuse the row.
      assert FIRST <= next <= LAST && !Taken(work.mapping, next);
      work := work.(mapping := work.mapping[a.who := Row(next, a.now, a.now)]);
      if a.failsAt == Some(5) { return StorageFailed; }
      work := work.(nextId := next + 1);
      if a.failsAt == Some(6) { return StorageFailed; }
      committed := work;
      r := Id(next);
    }

    method Lookup(id: nat) returns (r: Option<NodeId>)
      requires Bijection(committed)
      ensures r.Some? <==> FIRST <= id < committed.nextId
      ensures r.Some? ==> forall who :: Holds(committed.mapping, who, id) <==> who == r.value
    {
      if who :| who in committed.mapping && committed.mapping[who].shortId == id {
        assert Holds(committed.mapping, who, id);
        r := Some(who);
      } else {
        assert !Taken(committed.mapping, id);
        r := None;
      }
    }
  }

  // ---------------------------------------------------------------- as people write them

  predicate IsDigit(c: char) { '0' <= c <= '9' }
  predicate IsSeparator(c: char) { c == ' ' || c == '-' }

  function DigitOf(c: char): nat
    requires IsDigit(c)
  {
    c as int - '0' as int
  }

  function Stripped(s: string): string {
    if s == "" then "" else (if IsSeparator(s[0]) then "" else [s[0]]) + Stripped(s[1..])
  }

  function Parse(s: string): nat
    requires forall i :: 0 <= i < |s| ==> IsDigit(s[i])
  {
    if s == "" then 0 else 10 * Parse(s[..|s| - 1]) + DigitOf(s[|s| - 1])
  }

  /** The last `k` decimal digits of `n`. */
  function Decimal(n: nat, k: nat): (s: string)
    ensures |s| == k && forall i :: 0 <= i < k ==> IsDigit(s[i])
  {
    if k == 0 then "" else Decimal(n / 10, k - 1) + ['0' + (n % 10) as char]
  }

  function New(value: nat): Option<nat> {
    if FIRST <= value <= LAST then Some(value) else None
  }

  function Normalize(s: string): Option<nat> {
    if |s| > 32 || exists i :: 0 <= i < |s| && !IsDigit(s[i]) && !IsSeparator(s[i]) then None
    else
      var digits := Stripped(s);
      if |digits| != 9 then None else StrippedDigits(s); New(Parse(digits))
  }

  /** Nine digits in groups of three. */
  function Display(id: nat): string {
    var s := Decimal(id, 9);
    s[..3] + " " + s[3..6] + " " + s[6..]
  }

  lemma {:induction false} StrippedDigits(s: string)
    requires forall i :: 0 <= i < |s| ==> IsDigit(s[i]) || IsSeparator(s[i])
    ensures forall i :: 0 <= i < |Stripped(s)| ==> IsDigit(Stripped(s)[i])
  {
    if s != "" { StrippedDigits(s[1..]); }
  }

  lemma {:induction false} DigitsRefuseStrangers(s: string)
    requires forall i :: 0 <= i < |Stripped(s)| ==> IsDigit(Stripped(s)[i])
    ensures forall i :: 0 <= i < |s| ==> IsDigit(s[i]) || IsSeparator(s[i])
  {
    if s != "" {
      var rest := Stripped(s[1..]);
      var head := if IsSeparator(s[0]) then "" else [s[0]];
      assert forall i :: 0 <= i < |rest| ==> rest[i] == Stripped(s)[i + |head|];
      DigitsRefuseStrangers(s[1..]);
      assert !IsSeparator(s[0]) ==> Stripped(s)[0] == s[0];
      assert forall i :: 1 <= i < |s| ==> s[i] == s[1..][i - 1];
    }
  }

  ghost function Pow10(k: nat): nat { if k == 0 then 1 else 10 * Pow10(k - 1) }

  lemma {:induction false} ParseDecimal(n: nat, k: nat)
    requires n < Pow10(k)
    ensures Parse(Decimal(n, k)) == n
  {
    if k > 0 {
      ParseDecimal(n / 10, k - 1);
      assert Decimal(n, k)[..k - 1] == Decimal(n / 10, k - 1);
    }
  }

  lemma {:induction false} DecimalParse(s: string)
    requires forall i :: 0 <= i < |s| ==> IsDigit(s[i])
    ensures Decimal(Parse(s), |s|) == s
  {
    if s != "" {
      DecimalParse(s[..|s| - 1]);
      assert s == s[..|s| - 1] + [s[|s| - 1]];
    }
  }

  lemma {:induction false} StrippedConcat(a: string, b: string)
    ensures Stripped(a + b) == Stripped(a) + Stripped(b)
  {
    if a == "" {
      assert a + b == b;
    } else {
      StrippedConcat(a[1..], b);
      assert (a + b)[1..] == a[1..] + b;
    }
  }

  lemma {:induction false} StrippedKeepsDigits(s: string)
    requires forall i :: 0 <= i < |s| ==> IsDigit(s[i])
    ensures Stripped(s) == s
  {
    if s != "" { StrippedKeepsDigits(s[1..]); }
  }

  /** What people may type for an id: its nine digits with spaces and hyphens anywhere, within
      32 characters, and nothing else. */
  lemma NormalizeReads(s: string, id: nat)
    requires 100_000_000 <= id <= 999_999_999
    ensures Normalize(s) == Some(id) <==> |s| <= 32 && Stripped(s) == Decimal(id, 9)
  {
    assert Pow10(9) == 1_000_000_000;
    ParseDecimal(id, 9);
    if Stripped(s) == Decimal(id, 9) {
      DigitsRefuseStrangers(s);
    } else if Normalize(s) == Some(id) {
      StrippedDigits(s);
      DecimalParse(Stripped(s));
    }
  }

  lemma DisplayRoundTrip(id: nat)
    requires 100_000_000 <= id <= 999_999_999
    ensures Normalize(Display(id)) == Some(id)
  {
    var s := Decimal(id, 9);
    StrippedConcat(s[..3] + " " + s[3..6] + " ", s[6..]);
    StrippedConcat(s[..3] + " " + s[3..6], " ");
    StrippedConcat(s[..3] + " ", s[3..6]);
    StrippedConcat(s[..3], " ");
    StrippedKeepsDigits(s[..3]);
    StrippedKeepsDigits(s[3..6]);
    StrippedKeepsDigits(s[6..]);
    assert Stripped(" ") == "";
    assert s == s[..3] + s[3..6] + s[6..];
    NormalizeReads(Display(id), id);
  }
}
