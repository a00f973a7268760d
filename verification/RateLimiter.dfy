/** The fixed-window limiter of authentication failures.

    `Allow` and `RecordFailure` first delete entries that look stale.  That must
    be invisible: a limiter that never deletes anything gives the same answers. */
module RateLimiter {
  import opened Basics
  import opened Splitting

  datatype Attempt = Attempt(count: nat, windowEnd: Instant, lastAccess: Instant)

  type Attempts = map<string, Attempt>

  function KeyOf(key: string): string {
    if key == "" then "unknown" else key
  }

  /** The window of an entry is over, or there is none. */
  predicate Lapsed(m: Attempts, key: string, now: Instant) {
    key !in m || now > m[key].windowEnd
  }

  predicate Stale(a: Attempt, window: nat, now: Instant) {
    now > a.windowEnd + window || now - a.lastAccess > 2 * window
  }

  function Cleaned(m: Attempts, window: nat, now: Instant): Attempts {
    map k | k in m && !Stale(m[k], window, now) :: m[k]
  }

  /** The answer of Allow, on entries that have been cleaned or not. */
  predicate Allows(m: Attempts, key: string, limit: nat, now: Instant) {
    Lapsed(m, key, now) || m[key].count < limit
  }

  function Touched(m: Attempts, key: string, now: Instant): Attempts {
    if Lapsed(m, key, now) then m else m[key := m[key].(lastAccess := now)]
  }

  function Failed(m: Attempts, key: string, window: nat, now: Instant): Attempts {
    if Lapsed(m, key, now) then m[key := Attempt(1, now + window, now)]
    else m[key := m[key].(count := m[key].count + 1, lastAccess := now)]
  }

  // ------------------------------------------------------------ the limiter

  class RateLimiter {
    var attempts: Attempts
    const limit: nat
    const window: nat

    constructor (limit: int, window: int)
      ensures this.limit == (if limit <= 0 then 20 else limit)
      ensures this.window == (if window <= 0 then 60_000_000_000 else window)
      ensures attempts == map[]
    {
      this.limit := if limit <= 0 then 20 else limit;
      this.window := if window <= 0 then 60_000_000_000 else window;
      attempts := map[];
    }

    method Cleanup(now: Instant)
      modifies this
      ensures attempts == Cleaned(old(attempts), window, now)
      ensures forall k :: k in attempts ==> k in old(attempts) && attempts[k] == old(attempts)[k]
      ensures forall k :: k in old(attempts) ==>
        (k in attempts <==> now <= old(attempts)[k].windowEnd + window && now - old(attempts)[k].lastAccess <= 2 * window)
    {
      ghost var before := attempts;
      var todo := attempts.Keys;
      while todo != {}
        invariant todo <= before.Keys
        invariant attempts == map k | k in before && (k in todo || !Stale(before[k], window, now)) :: before[k]
        decreases |todo|
      {
        var key :| key in todo;
        if Stale(attempts[key], window, now) {
          attempts := attempts - {key};
        }
        todo := todo - {key};
      }
    }

    method Allow(key: string, now: Instant) returns (ok: bool)
      modifies this
      ensures var m := Cleaned(old(attempts), window, now);
        ok == Allows(m, KeyOf(key), limit, now) && attempts == Touched(m, KeyOf(key), now)
    {
      var k := if key == "" then "unknown" else key;
      Cleanup(now);
      if k !in attempts || now > attempts[k].windowEnd {
        return true;
      }
      attempts := attempts[k := attempts[k].(lastAccess := now)];
      return attempts[k].count < limit;
    }

    method RecordFailure(key: string, now: Instant)
      modifies this
      ensures attempts == Failed(Cleaned(old(attempts), window, now), KeyOf(key), window, now)
    {
      var k := if key == "" then "unknown" else key;
      Cleanup(now);
      if k !in attempts || now > attempts[k].windowEnd {
        attempts := attempts[k := Attempt(1, now + window, now)];
        return;
      }
      var a := attempts[k];
      attempts := attempts[k := a.(count := a.count + 1, lastAccess := now)];
    }

    method Reset(key: string)
      modifies this
      ensures attempts == old(attempts) - {KeyOf(key)}
    {
      attempts := attempts - {if key == "" then "unknown" else key};
    }
  }

  // ------------------------------------------------------------ cleanup is invisible

  datatype Call = Allow(key: string, now: Instant) | RecordFailure(key: string, now: Instant) | Reset(key: string)

  datatype Limits = Limits(limit: nat, window: nat)

  /** One call on the limiter as it is: entries are cleaned first. */
  function Step(m: Attempts, c: Call, l: Limits): (Attempts, bool) {
    match c
    case Allow(key, now) =>
      var m' := Cleaned(m, l.window, now);
      (Touched(m', KeyOf(key), now), Allows(m', KeyOf(key), l.limit, now))
    case RecordFailure(key, now) => (Failed(Cleaned(m, l.window, now), KeyOf(key), l.window, now), true)
    case Reset(key) => (m - {KeyOf(key)}, true)
  }

  /** The same call on a limiter that never deletes an entry by itself. */
  function IdealStep(m: Attempts, c: Call, l: Limits): (Attempts, bool) {
    match c
    case Allow(key, now) => (Touched(m, KeyOf(key), now), Allows(m, KeyOf(key), l.limit, now))
    case RecordFailure(key, now) => (Failed(m, KeyOf(key), l.window, now), true)
    case Reset(key) => (m - {KeyOf(key)}, true)
  }

  function Answers(m: Attempts, cs: seq<Call>, l: Limits): seq<bool>
    decreases |cs|
  {
    if cs == [] then [] else [Step(m, cs[0], l).1] + Answers(Step(m, cs[0], l).0, cs[1..], l)
  }

  function IdealAnswers(m: Attempts, cs: seq<Call>, l: Limits): seq<bool>
    decreases |cs|
  {
    if cs == [] then [] else [IdealStep(m, cs[0], l).1] + IdealAnswers(IdealStep(m, cs[0], l).0, cs[1..], l)
  }

  /** The clock does not run backwards, starting from `now`. */
  predicate Monotone(cs: seq<Call>, now: Instant)
    decreases |cs|
  {
    cs == [] ||
    if cs[0].Reset? then Monotone(cs[1..], now)
    else now <= cs[0].now && Monotone(cs[1..], cs[0].now)
  }

  /** The real entries are the ideal ones but for entries whose window is over. */
  predicate Simulates(m: Attempts, ideal: Attempts, window: nat, now: Instant) {
    && (forall k :: k in m ==> k in ideal && m[k] == ideal[k])
    && (forall k :: k in ideal ==>
          && ideal[k].windowEnd <= ideal[k].lastAccess + window
          && ideal[k].lastAccess <= now
          && (k in m || ideal[k].windowEnd < now))
  }

  lemma CleanedSimulates(m: Attempts, ideal: Attempts, window: nat, now: Instant, later: Instant)
    requires Simulates(m, ideal, window, now) && now <= later
    ensures Simulates(Cleaned(m, window, later), ideal, window, later)
  {
  }

  lemma SimulationStep(m: Attempts, ideal: Attempts, c: Call, l: Limits, now: Instant)
    requires Simulates(m, ideal, l.window, now) && (!c.Reset? ==> now <= c.now)
    ensures Step(m, c, l).1 == IdealStep(ideal, c, l).1
    ensures Simulates(Step(m, c, l).0, IdealStep(ideal, c, l).0, l.window, if c.Reset? then now else c.now)
  {
    if !c.Reset? {
      CleanedSimulates(m, ideal, l.window, now, c.now);
    }
  }

  /** Under a clock that does not run backwards, deleting stale entries never
      changes an answer, for any sequence of calls. */
  lemma {:induction false} CleanupIsInvisible(m: Attempts, ideal: Attempts, cs: seq<Call>, l: Limits, now: Instant)
    requires Simulates(m, ideal, l.window, now) && Monotone(cs, now)
    ensures Answers(m, cs, l) == IdealAnswers(ideal, cs, l)
    decreases |cs|
  {
    if cs != [] {
      SimulationStep(m, ideal, cs[0], l, now);
      var next := if cs[0].Reset? then now else cs[0].now;
      CleanupIsInvisible(Step(m, cs[0], l).0, IdealStep(ideal, cs[0], l).0, cs[1..], l, next);
    }
  }

  /** In particular from a new limiter on. */
  lemma {:induction false} NewLimiterCleanupIsInvisible(cs: seq<Call>, l: Limits, now: Instant)
    requires Monotone(cs, now)
    ensures Answers(map[], cs, l) == IdealAnswers(map[], cs, l)
  {
    CleanupIsInvisible(map[], map[], cs, l, now);
  }

  // ------------------------------------------------------------ how many failures get through

  /** What happens under one key that is never reset, and under any others.  A
      caller asks; once allowed it checks the password and then records a failure
      or gives up on some other error.  Nothing keeps callers apart meanwhile. */
  datatype Event = Ask(at: Instant) | Fail(at: Instant) | GiveUp | Elsewhere(c: Call)

  /** The moments at which failures of the key were recorded, each with the end of
      the window it was counted in. */
  datatype Record = Record(at: Instant, end: Instant)

  /** `outstanding` counts the allowed asks that have neither failed nor given up. */
  datatype Log = Log(m: Attempts, records: seq<Record>, outstanding: nat)

  const NEW := Log(map[], [], 0)

  function Tried(g: Log, key: string, e: Event, l: Limits): Log {
    match e
    case Ask(at) =>
      var (m, ok) := Step(g.m, Allow(key, at), l);
      Log(m, g.records, if ok then g.outstanding + 1 else g.outstanding)
    case Fail(at) =>
      var m := Step(g.m, RecordFailure(key, at), l).0;
      Log(m, g.records + [Record(at, m[KeyOf(key)].windowEnd)], Fewer(g.outstanding))
    case GiveUp => g.(outstanding := Fewer(g.outstanding))
    case Elsewhere(c) => g.(m := Step(g.m, c, l).0)
  }

  function Fewer(n: nat): nat {
    if n == 0 then 0 else n - 1
  }

  function TriedAll(g: Log, key: string, es: seq<Event>, l: Limits): Log
    decreases |es|
  {
    if es == [] then g else TriedAll(Tried(g, key, es[0], l), key, es[1..], l)
  }

  function After(e: Event, now: Instant): Instant {
    match e
    case Ask(at) => at
    case Fail(at) => at
    case GiveUp => now
    case Elsewhere(c) => if c.Reset? then now else c.now
  }

  /** Failing and giving up take an allowed ask; the clock does not run backwards. */
  predicate Can(g: Log, key: string, e: Event, now: Instant) {
    && now <= After(e, now)
    && (e.Fail? || e.GiveUp? ==> g.outstanding > 0)
    && (e.Elsewhere? ==> KeyOf(e.c.key) != KeyOf(key))
  }

  /** A possible run in which at most `m` allowed asks of the key are outstanding at once. */
  predicate Possible(g: Log, key: string, es: seq<Event>, l: Limits, m: nat, now: Instant)
    decreases |es|
  {
    es == [] || (
      var g' := Tried(g, key, es[0], l);
      Can(g, key, es[0], now) && g'.outstanding <= m && Possible(g', key, es[1..], l, m, After(es[0], now)))
  }

  /** How many failures one window can take. */
  function Cap(l: Limits, m: nat): int {
    l.limit + m - 1
  }

  /** `b` may come `apart` records after `a`: windows do not overlap, and one
      window has at most `cap` records. */
  predicate Follows(a: Record, b: Record, apart: nat, cap: int, window: nat) {
    && a.at <= b.at
    && (a.end == b.end || a.end + window < b.end)
    && (cap <= apart ==> a.end != b.end)
  }

  /** A record lies in its window, and the first one of a window opens it. */
  predicate InWindow(r: seq<Record>, i: nat, window: nat)
    requires i < |r|
  {
    && r[i].at <= r[i].end <= r[i].at + window
    && (i == 0 || r[i - 1].end != r[i].end ==> r[i].end == r[i].at + window)
  }

  predicate Windows(r: seq<Record>, cap: int, window: nat) {
    && (forall i :: 0 <= i < |r| ==> InWindow(r, i, window))
    && (forall i, j :: 0 <= i < j < |r| ==> Follows(r[i], r[j], j - i, cap, window))
  }

  /** How the entry of the key relates to the last window: once it is over the
      entry may be gone; until then it is there and counts that window's records,
      and a full window has room for the outstanding asks. */
  predicate Current(g: Log, key: string, l: Limits, m: nat, now: Instant) {
    var n := |g.records|;
    g.outstanding <= m &&
    if n == 0 then key !in g.m
    else
      var last := g.records[n - 1];
      && last.at <= now
      && (key !in g.m ==> last.end < now)
      && (key in g.m ==>
            && g.m[key].windowEnd == last.end
            && g.m[key].windowEnd <= g.m[key].lastAccess + l.window && g.m[key].lastAccess <= now
            && 1 <= g.m[key].count <= Cap(l, m) && g.m[key].count <= n
            && (now <= last.end && g.m[key].count >= l.limit ==> g.m[key].count + g.outstanding <= Cap(l, m))
            && forall i :: 0 <= i < n ==>
                 (g.records[i].end == last.end <==> n - g.m[key].count <= i))
  }

  lemma CurrentCleaned(g: Log, k: string, l: Limits, m: nat, now: Instant, later: Instant)
    requires Current(g, k, l, m, now) && now <= later
    ensures Current(g.(m := Cleaned(g.m, l.window, later)), k, l, m, later)
  {
  }

  /** Only the entry of the key itself matters. */
  lemma CurrentSame(g: Log, k: string, a: Attempts, l: Limits, m: nat, now: Instant)
    requires Current(g, k, l, m, now) && (k in a <==> k in g.m) && (k in a ==> a[k] == g.m[k])
    ensures Current(g.(m := a), k, l, m, now)
  {
  }

  lemma CurrentElsewhere(g: Log, key: string, c: Call, l: Limits, m: nat, now: Instant)
    requires Current(g, KeyOf(key), l, m, now) && Can(g, key, Elsewhere(c), now)
    ensures Current(Tried(g, key, Elsewhere(c), l), KeyOf(key), l, m, After(Elsewhere(c), now))
  {
    var a := Step(g.m, c, l).0;
    if c.Reset? {
      CurrentSame(g, KeyOf(key), a, l, m, now);
    } else {
      CurrentCleaned(g, KeyOf(key), l, m, now, c.now);
      CurrentSame(g.(m := Cleaned(g.m, l.window, c.now)), KeyOf(key), a, l, m, c.now);
    }
  }

  /** An ask that is allowed finds room in the open window, or none open. */
  lemma CurrentAsked(g: Log, key: string, l: Limits, m: nat, now: Instant, at: Instant)
    requires Current(g, KeyOf(key), l, m, now) && now <= at && Tried(g, key, Ask(at), l).outstanding <= m
    ensures Current(Tried(g, key, Ask(at), l), KeyOf(key), l, m, at)
  {
    CurrentCleaned(g, KeyOf(key), l, m, now, at);
  }

  function Recorded(g: Log, k: string, l: Limits, at: Instant): Log {
    var a := Failed(g.m, k, l.window, at);
    Log(a, g.records + [Record(at, a[k].windowEnd)], Fewer(g.outstanding))
  }

  lemma CurrentRecorded(g: Log, k: string, l: Limits, m: nat, at: Instant)
    requires Current(g, k, l, m, at) && l.limit > 0 && g.outstanding > 0 && Windows(g.records, Cap(l, m), l.window)
    ensures Current(Recorded(g, k, l, at), k, l, m, at)
  {
    var g' := Recorded(g, k, l, at);
    var n := |g.records|;
    forall i | 0 <= i < n + 1
      ensures g'.records[i].end == g'.records[n].end <==> n + 1 - g'.m[k].count <= i
    {
      if i < n {
        assert g'.records[i] == g.records[i];
        if Lapsed(g.m, k, at) {
          assert i < n - 1 ==> Follows(g.records[i], g.records[n - 1], n - 1 - i, Cap(l, m), l.window);
        }
      }
    }
  }

  lemma WindowsRecorded(g: Log, k: string, l: Limits, m: nat, at: Instant)
    requires Current(g, k, l, m, at) && l.limit > 0 && g.outstanding > 0 && Windows(g.records, Cap(l, m), l.window)
    ensures Windows(Recorded(g, k, l, at).records, Cap(l, m), l.window)
  {
    var r, r', n, cap := g.records, Recorded(g, k, l, at).records, |g.records|, Cap(l, m);
    assert forall i :: 0 <= i < n ==> r'[i] == r[i];
    forall i | 0 <= i < n ensures Follows(r[i], r'[n], n - i, cap, l.window) {
      assert i < n - 1 ==> Follows(r[i], r[n - 1], n - 1 - i, cap, l.window);
    }
    forall i | 0 <= i < n + 1 ensures InWindow(r', i, l.window) {
      assert i < n ==> InWindow(r, i, l.window);
      assert n > 0 ==> InWindow(r, n - 1, l.window);
    }
    forall i, j | 0 <= i < j < n + 1 ensures Follows(r'[i], r'[j], j - i, cap, l.window) {
      assert j < n ==> Follows(r[i], r[j], j - i, cap, l.window);
    }
  }

  predicate Good(g: Log, key: string, l: Limits, m: nat, now: Instant) {
    Windows(g.records, Cap(l, m), l.window) && Current(g, KeyOf(key), l, m, now)
  }

  lemma GoodStep(g: Log, key: string, e: Event, l: Limits, m: nat, now: Instant)
    requires Good(g, key, l, m, now) && Can(g, key, e, now) && l.limit > 0 && Tried(g, key, e, l).outstanding <= m
    ensures Good(Tried(g, key, e, l), key, l, m, After(e, now))
  {
    match e
    case Ask(at) => CurrentAsked(g, key, l, m, now, at);
    case Fail(at) =>
      CurrentCleaned(g, KeyOf(key), l, m, now, at);
      var cleaned := g.(m := Cleaned(g.m, l.window, at));
      CurrentRecorded(cleaned, KeyOf(key), l, m, at);
      WindowsRecorded(cleaned, KeyOf(key), l, m, at);
      assert Tried(g, key, e, l) == Recorded(cleaned, KeyOf(key), l, at);
    case GiveUp =>
    case Elsewhere(c) => CurrentElsewhere(g, key, c, l, m, now);
  }

  lemma {:induction false} GoodAlways(g: Log, key: string, es: seq<Event>, l: Limits, m: nat, now: Instant)
    requires Good(g, key, l, m, now) && Possible(g, key, es, l, m, now) && l.limit > 0
    ensures Windows(TriedAll(g, key, es, l).records, Cap(l, m), l.window)
    decreases |es|
  {
    if es != [] {
      GoodStep(g, key, es[0], l, m, now);
      GoodAlways(Tried(g, key, es[0], l), key, es[1..], l, m, After(es[0], now));
    }
  }

  /** Twice as many failures in a row as one window takes span more than a window:
      those of the later window leave out the opening one of the earlier. */
  lemma FailuresSpread(r: seq<Record>, cap: nat, window: nat, i: nat)
    requires Windows(r, cap, window) && cap > 0 && i + 2 * cap - 1 < |r|
    ensures r[i].at + window < r[i + 2 * cap - 1].at
  {
    var j := i + 2 * cap - 1;
    assert InWindow(r, i, window) && InWindow(r, j, window);
    if i == 0 || r[i - 1].end != r[i].end {
      assert Follows(r[i], r[i + cap], cap, cap, window);
      assert i + cap < j ==> Follows(r[i + cap], r[j], j - i - cap, cap, window);
    } else {
      assert Follows(r[i - 1], r[i - 1 + cap], cap, cap, window);
      assert Follows(r[i - 1 + cap], r[j], cap, cap, window);
    }
  }

  /** How many of the first `n` failures lie in the closed interval. */
  function CountIn(r: seq<Record>, n: nat, from: Instant, to: Instant): nat
    requires n <= |r|
  {
    if n == 0 then 0
    else CountIn(r, n - 1, from, to) + (if from <= r[n - 1].at <= to then 1 else 0)
  }

  lemma {:induction false} CountGrows(r: seq<Record>, n: nat, more: nat, from: Instant, to: Instant)
    requires n + more <= |r|
    ensures CountIn(r, n + more, from, to) <= CountIn(r, n, from, to) + more
    decreases more
  {
    if more > 0 {
      CountGrows(r, n, more - 1, from, to);
    }
  }

  lemma {:induction false} CountNone(r: seq<Record>, n: nat, from: Instant, to: Instant)
    requires n <= |r| && forall i :: 0 <= i < n ==> r[i].at < from
    ensures CountIn(r, n, from, to) == 0
  {
    if n > 0 {
      CountNone(r, n - 1, from, to);
    }
  }

  /** Of more failures only the most recent ones can lie in the interval. */
  lemma CountRecent(r: seq<Record>, n: nat, cap: nat, window: nat, from: Instant)
    requires Windows(r, cap, window) && cap > 0 && 2 * cap <= n <= |r| && r[n - 1].at <= from + window
    ensures CountIn(r, n, from, from + window) <= 2 * cap - 1
  {
    var rest := n - (2 * cap - 1);
    FailuresSpread(r, cap, window, rest - 1);
    forall i | 0 <= i < rest ensures r[i].at < from {
      assert i < rest - 1 ==> Follows(r[i], r[rest - 1], rest - 1 - i, cap, window);
    }
    CountNone(r, rest, from, from + window);
    CountGrows(r, rest, 2 * cap - 1, from, from + window);
  }

  lemma {:induction false} CountBound(r: seq<Record>, n: nat, cap: nat, window: nat, from: Instant)
    requires Windows(r, cap, window) && cap > 0 && n <= |r|
    ensures CountIn(r, n, from, from + window) <= 2 * cap - 1
  {
    if n < 2 * cap {
      CountGrows(r, 0, n, from, from + window);
    } else if r[n - 1].at <= from + window {
      CountRecent(r, n, cap, window, from);
    } else {
      CountBound(r, n - 1, cap, window, from);
    }
  }

  /** How many failures the run records in the closed interval of one window's length. */
  function Failures(key: string, es: seq<Event>, l: Limits, from: Instant): nat {
    var r := TriedAll(NEW, key, es, l).records;
    CountIn(r, |r|, from, from + l.window)
  }

  /** From a new limiter on, with at most `m` allowed asks of a key outstanding at
      once and the key never reset, any closed interval as long as the window has
      fewer than `2 * (limit + m - 1)` recorded failures, whatever happens under
      other keys. */
  lemma {:induction false} FailuresBounded(key: string, es: seq<Event>, l: Limits, m: nat, now: Instant,
                                           from: Instant)
    requires l.limit > 0 && m > 0 && Possible(NEW, key, es, l, m, now)
    ensures Failures(key, es, l, from) < 2 * (l.limit + m - 1)
  {
    GoodAlways(NEW, key, es, l, m, now);
    var r := TriedAll(NEW, key, es, l).records;
    CountBound(r, |r|, l.limit + m - 1, l.window, from);
  }

  /** So while no second ask is allowed before the first has failed or given up,
      twice the limit is never exceeded. */
  lemma {:induction false} AtMostTwiceTheLimit(key: string, es: seq<Event>, l: Limits, now: Instant, from: Instant)
    requires l.limit > 0 && Possible(NEW, key, es, l, 1, now)
    ensures Failures(key, es, l, from) <= 2 * l.limit
  {
    FailuresBounded(key, es, l, 1, now, from);
  }

  // ------------------------------------------------------------ the bound is reached

  function AfterAll(es: seq<Event>, now: Instant): Instant
    decreases |es|
  {
    if es == [] then now else AfterAll(es[1..], After(es[0], now))
  }

  lemma {:induction false} Chained(g: Log, key: string, a: seq<Event>, b: seq<Event>, l: Limits, m: nat, now: Instant)
    requires Possible(g, key, a, l, m, now) && Possible(TriedAll(g, key, a, l), key, b, l, m, AfterAll(a, now))
    ensures Possible(g, key, a + b, l, m, now) && AfterAll(a + b, now) == AfterAll(b, AfterAll(a, now))
    ensures TriedAll(g, key, a + b, l) == TriedAll(TriedAll(g, key, a, l), key, b, l)
    decreases |a|
  {
    if a == [] {
      assert a + b == b;
    } else {
      Chained(Tried(g, key, a[0], l), key, a[1..], b, l, m, After(a[0], now));
      assert (a + b)[1..] == a[1..] + b;
    }
  }

  /** The key's window is open at `at` and ends at `end`. */
  predicate Counting(g: Log, k: string, l: Limits, count: nat, end: Instant, at: Instant) {
    && k in g.m && g.m[k].count == count && g.m[k].windowEnd == end && at <= end
    && end <= g.m[k].lastAccess + l.window && g.m[k].lastAccess <= at
  }

  function Times(r: Record, n: nat): (rs: seq<Record>)
    ensures |rs| == n && forall i :: 0 <= i < n ==> rs[i] == r
  {
    if n == 0 then [] else [r] + Times(r, n - 1)
  }

  lemma TimesTwice(r: Record, a: nat, b: nat)
    ensures Times(r, a) + Times(r, b) == Times(r, a + b)
  {
  }

  /** With no window open, any number of callers is allowed. */
  lemma {:induction false} AskMany(g: Log, key: string, l: Limits, m: nat, now: Instant, at: Instant, n: nat)
    returns (es: seq<Event>)
    requires Lapsed(g.m, KeyOf(key), at) && now <= at && g.outstanding + n <= m
    ensures Possible(g, key, es, l, m, now) && AfterAll(es, now) <= at
    ensures var g' := TriedAll(g, key, es, l);
      Lapsed(g'.m, KeyOf(key), at) && g'.outstanding == g.outstanding + n && g'.records == g.records
    decreases n
  {
    if n == 0 {
      es := [];
    } else {
      var rest := AskMany(Tried(g, key, Ask(at), l), key, l, m, at, at, n - 1);
      es := [Ask(at)] + rest;
      assert es[1..] == rest;
    }
  }

  /** Outstanding asks fail into the open window, full or not. */
  lemma {:induction false} FailMany(g: Log, key: string, l: Limits, m: nat, now: Instant, at: Instant,
                                    n: nat, count: nat, end: Instant)
    returns (es: seq<Event>)
    requires Counting(g, KeyOf(key), l, count, end, at) && now <= at && n <= g.outstanding <= m
    ensures Possible(g, key, es, l, m, now) && AfterAll(es, now) <= at
    ensures var g' := TriedAll(g, key, es, l);
      && Counting(g', KeyOf(key), l, count + n, end, at) && g'.outstanding == g.outstanding - n
      && g'.records == g.records + Times(Record(at, end), n)
    decreases n
  {
    if n == 0 {
      es := [];
      assert g.records + [] == g.records;
    } else {
      var g1 := Tried(g, key, Fail(at), l);
      var rest := FailMany(g1, key, l, m, at, at, n - 1, count + 1, end);
      es := [Fail(at)] + rest;
      assert es[1..] == rest;
      assert g1.records == g.records + [Record(at, end)];
      assert g.records + [Record(at, end)] + Times(Record(at, end), n - 1) == g.records + Times(Record(at, end), n);
    }
  }

  /** Callers one after the other fill the window up to the limit. */
  lemma {:induction false} PairMany(g: Log, key: string, l: Limits, m: nat, now: Instant, at: Instant,
                                    n: nat, count: nat, end: Instant)
    returns (es: seq<Event>)
    requires Counting(g, KeyOf(key), l, count, end, at) && now <= at && count + n <= l.limit && g.outstanding < m
    ensures Possible(g, key, es, l, m, now) && AfterAll(es, now) <= at
    ensures var g' := TriedAll(g, key, es, l);
      && Counting(g', KeyOf(key), l, count + n, end, at) && g'.outstanding == g.outstanding
      && g'.records == g.records + Times(Record(at, end), n)
    decreases n
  {
    if n == 0 {
      es := [];
      assert g.records + [] == g.records;
    } else {
      var g1 := Tried(g, key, Ask(at), l);
      var g2 := Tried(g1, key, Fail(at), l);
      var rest := PairMany(g2, key, l, m, at, at, n - 1, count + 1, end);
      var asked := [Fail(at)] + rest;
      es := [Ask(at)] + asked;
      assert es[1..] == asked && asked[1..] == rest;
      assert g2.records == g.records + [Record(at, end)];
      assert g.records + [Record(at, end)] + Times(Record(at, end), n - 1) == g.records + Times(Record(at, end), n);
    }
  }

  /** `m` callers ask with no window open, and one of them fails and opens it. */
  lemma OpenWindow(g: Log, key: string, l: Limits, m: nat, now: Instant, at: Instant) returns (es: seq<Event>)
    requires m > 0 && g.outstanding == 0 && Lapsed(g.m, KeyOf(key), at) && now <= at
    ensures Possible(g, key, es, l, m, now) && AfterAll(es, now) <= at
    ensures var g' := TriedAll(g, key, es, l); var end := at + l.window;
      && Counting(g', KeyOf(key), l, 1, end, at) && g'.outstanding == m - 1
      && g'.records == g.records + [Record(at, end)]
  {
    var asks := AskMany(g, key, l, m, now, at, m);
    var asked := TriedAll(g, key, asks, l);
    assert TriedAll(asked, key, [Fail(at)], l) == Tried(asked, key, Fail(at), l);
    Chained(g, key, asks, [Fail(at)], l, m, now);
    es := asks + [Fail(at)];
  }

  /** One caller fails at `t0` and opens a window; all else it can take comes at `t1`. */
  lemma FullWindow(g: Log, key: string, l: Limits, m: nat, now: Instant, t0: Instant, t1: Instant)
    returns (es: seq<Event>)
    requires l.limit > 0 && m > 0 && g.outstanding == 0 && Lapsed(g.m, KeyOf(key), t0)
    requires now <= t0 <= t1 <= t0 + l.window
    ensures Possible(g, key, es, l, m, now) && AfterAll(es, now) <= t1
    ensures var g' := TriedAll(g, key, es, l); var end := t0 + l.window;
      && g'.outstanding == 0 && KeyOf(key) in g'.m && g'.m[KeyOf(key)].windowEnd == end
      && g'.records == g.records + [Record(t0, end)] + Times(Record(t1, end), l.limit + m - 2)
  {
    var end := t0 + l.window;
    var opening := OpenWindow(g, key, l, m, now, t0);
    var g1 := TriedAll(g, key, opening, l);
    var filling := FillWindow(g1, key, l, m, AfterAll(opening, now), t1, end);
    Chained(g, key, opening, filling, l, m, now);
    es := opening + filling;
  }

  lemma FillWindow(g: Log, key: string, l: Limits, m: nat, now: Instant, at: Instant, end: Instant)
    returns (es: seq<Event>)
    requires l.limit > 0 && m > 0 && g.outstanding == m - 1 && Counting(g, KeyOf(key), l, 1, end, at) && now <= at
    ensures Possible(g, key, es, l, m, now) && AfterAll(es, now) <= at
    ensures var g' := TriedAll(g, key, es, l);
      && g'.outstanding == 0 && Counting(g', KeyOf(key), l, l.limit + m - 1, end, at)
      && g'.records == g.records + Times(Record(at, end), l.limit + m - 2)
  {
    var pairs := PairMany(g, key, l, m, now, at, l.limit - 1, 1, end);
    var g1 := TriedAll(g, key, pairs, l);
    var late := FailMany(g1, key, l, m, AfterAll(pairs, now), at, m - 1, l.limit, end);
    Chained(g, key, pairs, late, l, m, now);
    es := pairs + late;
    TimesTwice(Record(at, end), l.limit - 1, m - 1);
    Regroup(g.records, Times(Record(at, end), l.limit - 1), Times(Record(at, end), m - 1));
  }

  lemma {:induction false} CountAll(r: seq<Record>, n: nat, from: Instant, to: Instant)
    requires 0 < n <= |r| && r[0].at < from && forall i :: 0 < i < n ==> from <= r[i].at <= to
    ensures CountIn(r, n, from, to) == n - 1
  {
    if n > 1 {
      CountAll(r, n - 1, from, to);
    }
  }

  /** Two full windows, one after the other. */
  lemma BoundReached(key: string, l: Limits, m: nat) returns (es: seq<Event>)
    requires l.limit > 0 && l.window > 0 && m > 0
    ensures Possible(NEW, key, es, l, m, 0)
    ensures Failures(key, es, l, 1) == 2 * (l.limit + m - 1) - 1
  {
    var w := l.window;
    var first := FullWindow(NEW, key, l, m, 0, 0, w);
    var g := TriedAll(NEW, key, first, l);
    var second := FullWindow(g, key, l, m, AfterAll(first, 0), w + 1, w + 1);
    es := first + second;
    Chained(NEW, key, first, second, l, m, 0);
    var r := TriedAll(NEW, key, es, l).records;
    assert r == [Record(0, w)] + Times(Record(w, w), l.limit + m - 2)
      + [Record(w + 1, w + 1 + w)] + Times(Record(w + 1, w + 1 + w), l.limit + m - 2);
    CountAll(r, |r|, 1, w + 1);
  }

  /** At most `bound` failures, in every run and every interval. */
  ghost predicate Bounded(l: Limits, m: nat, bound: nat) {
    forall key: string, es: seq<Event>, now: Instant, from: Instant ::
      Possible(NEW, key, es, l, m, now) ==> Failures(key, es, l, from) <= bound
  }

  /** The bounds that hold of all runs with `m` outstanding asks, exactly. */
  lemma BoundExact(l: Limits, m: nat, bound: nat)
    requires l.limit > 0 && l.window > 0 && m > 0
    ensures Bounded(l, m, bound) <==> 2 * (l.limit + m - 1) - 1 <= bound
  {
    if 2 * (l.limit + m - 1) - 1 <= bound {
      forall key: string, es: seq<Event>, now: Instant, from: Instant | Possible(NEW, key, es, l, m, now)
        ensures Failures(key, es, l, from) <= bound
      {
        FailuresBounded(key, es, l, m, now, from);
      }
    } else {
      var es := BoundReached("key", l, m);
      assert Possible(NEW, "key", es, l, m, 0) && Failures("key", es, l, 1) > bound;
    }
  }

  /** Twice the limit bounds all runs exactly when no second ask of the key is
      allowed between an allowed ask and its failure. */
  lemma TwiceTheLimitExact(l: Limits, m: nat)
    requires l.limit > 0 && l.window > 0 && m > 0
    ensures Bounded(l, m, 2 * l.limit) <==> m == 1
  {
    BoundExact(l, m, 2 * l.limit);
  }

  /** Three callers at once get three failures through a limit of one. */
  lemma ThreeAtOnce()
    ensures var es, l := [Ask(0), Ask(0), Ask(0), Fail(1), Fail(1), Fail(1)], Limits(1, 100);
      Possible(NEW, "k", es, l, 3, 0) && Failures("k", es, l, 0) == 3 > 2 * l.limit
  {
    var l := Limits(1, 100);
    ThreeAsks(l);
    ThreeFails();
    Chained(NEW, "k", [Ask(0), Ask(0), Ask(0)], [Fail(1), Fail(1), Fail(1)], l, 3, 0);
    assert [Ask(0), Ask(0), Ask(0)] + [Fail(1), Fail(1), Fail(1)] == [Ask(0), Ask(0), Ask(0), Fail(1), Fail(1), Fail(1)];
  }

  lemma {:induction false} ThreeAsks(l: Limits)
    ensures Possible(NEW, "k", [Ask(0), Ask(0), Ask(0)], l, 3, 0) && AfterAll([Ask(0), Ask(0), Ask(0)], 0) == 0
    ensures TriedAll(NEW, "k", [Ask(0), Ask(0), Ask(0)], l) == Log(map[], [], 3)
  {
    var a := Ask(0);
    var g1, g2 := Log(map[], [], 1), Log(map[], [], 2);
    assert Cleaned(map[], l.window, 0) == map[];
    assert Tried(NEW, "k", a, l) == g1 && Tried(g1, "k", a, l) == g2;
    assert [a, a, a][1..] == [a, a] && [a, a][1..] == [a] && [a][1..] == [];
    assert Possible(g2, "k", [a], l, 3, 0) && TriedAll(g2, "k", [a], l) == Log(map[], [], 3) && AfterAll([a], 0) == 0;
    assert Possible(g1, "k", [a, a], l, 3, 0) && TriedAll(g1, "k", [a, a], l) == Log(map[], [], 3) && AfterAll([a, a], 0) == 0;
  }

  lemma ThreeFails()
    ensures var g, fails, l := Log(map[], [], 3), [Fail(1), Fail(1), Fail(1)], Limits(1, 100);
      && Possible(g, "k", fails, l, 3, 0)
      && var r := TriedAll(g, "k", fails, l).records; CountIn(r, |r|, 0, 100) == 3
  {
    var l, f, e := Limits(1, 100), Fail(1), Record(1, 101);
    var g0 := Log(map[], [], 3);
    var g1 := Log(map["k" := Attempt(1, 101, 1)], [e], 2);
    var g2 := Log(map["k" := Attempt(2, 101, 1)], [e, e], 1);
    var g3 := Log(map["k" := Attempt(3, 101, 1)], [e, e, e], 0);
    assert Tried(g0, "k", f, l) == g1;
    assert Tried(g1, "k", f, l) == g2;
    assert Tried(g2, "k", f, l) == g3;
    assert [f, f, f][1..] == [f, f] && [f, f][1..] == [f] && [f][1..] == [];
    assert TriedAll(g3, "k", [], l) == g3 && Possible(g3, "k", [], l, 3, 1);
    assert TriedAll(g2, "k", [f], l) == TriedAll(g3, "k", [], l) && Possible(g2, "k", [f], l, 3, 1);
    assert TriedAll(g1, "k", [f, f], l) == TriedAll(g2, "k", [f], l) && Possible(g1, "k", [f, f], l, 3, 1);
    assert CountIn(g3.records, 1, 0, 100) == 1;
    assert CountIn(g3.records, 2, 0, 100) == 2;
  }
}
