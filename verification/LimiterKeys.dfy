/** What the counters of the limiter count, and that each key has its own. */
module LimiterKeys {
  import opened Basics
  import opened RateLimiter

  /** Two keys count together only when they are equal; the empty key counts as "unknown". */
  predicate Together(a: string, b: string) {
    a == b || (a in {"", "unknown"} && b in {"", "unknown"})
  }

  /** The calls that count with `key`, in order. */
  function Under(cs: seq<Call>, key: string): seq<Call> {
    if cs == [] then []
    else if Together(cs[0].key, key) then [cs[0]] + Under(cs[1..], key)
    else Under(cs[1..], key)
  }

  /** The answers of those calls, out of the answers of all. */
  function AnswersUnder(answers: seq<bool>, cs: seq<Call>, key: string): seq<bool>
    requires |answers| == |cs|
    decreases |cs|
  {
    if cs == [] then []
    else if Together(cs[0].key, key) then [answers[0]] + AnswersUnder(answers[1..], cs[1..], key)
    else AnswersUnder(answers[1..], cs[1..], key)
  }

  predicate SameEntry(a: Attempts, b: Attempts, k: string) {
    (k in a <==> k in b) && (k in a && k in b ==> a[k] == b[k])
  }

  lemma {:induction false} AnswerEach(m: Attempts, cs: seq<Call>, l: Limits)
    ensures |IdealAnswers(m, cs, l)| == |cs| && |Answers(m, cs, l)| == |cs|
    decreases |cs|
  {
    if cs != [] {
      AnswerEach(IdealStep(m, cs[0], l).0, cs[1..], l);
      AnswerEach(Step(m, cs[0], l).0, cs[1..], l);
    }
  }

  lemma StepTogether(a: Attempts, b: Attempts, c: Call, l: Limits, key: string)
    requires SameEntry(a, b, KeyOf(key)) && Together(c.key, key)
    ensures IdealStep(a, c, l).1 == IdealStep(b, c, l).1
    ensures SameEntry(IdealStep(a, c, l).0, IdealStep(b, c, l).0, KeyOf(key))
  {
  }

  lemma StepApart(a: Attempts, b: Attempts, c: Call, l: Limits, key: string)
    requires SameEntry(a, b, KeyOf(key)) && !Together(c.key, key)
    ensures SameEntry(IdealStep(a, c, l).0, b, KeyOf(key))
  {
  }

  lemma {:induction false} IdealIndependent(a: Attempts, b: Attempts, cs: seq<Call>, l: Limits, key: string)
    requires SameEntry(a, b, KeyOf(key)) && |IdealAnswers(a, cs, l)| == |cs|
    ensures AnswersUnder(IdealAnswers(a, cs, l), cs, key) == IdealAnswers(b, Under(cs, key), l)
    decreases |cs|
  {
    if cs != [] {
      var a1 := IdealStep(a, cs[0], l).0;
      AnswerEach(a1, cs[1..], l);
      assert IdealAnswers(a, cs, l)[1..] == IdealAnswers(a1, cs[1..], l);
      if Together(cs[0].key, key) {
        StepTogether(a, b, cs[0], l, key);
        IdealIndependent(a1, IdealStep(b, cs[0], l).0, cs[1..], l, key);
        assert ([cs[0]] + Under(cs[1..], key))[1..] == Under(cs[1..], key);
      } else {
        StepApart(a, b, cs[0], l, key);
        IdealIndependent(a1, b, cs[1..], l, key);
      }
    }
  }

  lemma {:induction false} LaterMonotone(cs: seq<Call>, now: Instant, earlier: Instant)
    requires Monotone(cs, now) && earlier <= now
    ensures Monotone(cs, earlier)
    decreases |cs|
  {
    if cs != [] && cs[0].Reset? {
      LaterMonotone(cs[1..], now, earlier);
    }
  }

  lemma {:induction false} UnderMonotone(cs: seq<Call>, key: string, now: Instant)
    requires Monotone(cs, now)
    ensures Monotone(Under(cs, key), now)
    decreases |cs|
  {
    if cs != [] {
      var next := if cs[0].Reset? then now else cs[0].now;
      UnderMonotone(cs[1..], key, next);
      if Together(cs[0].key, key) {
        assert ([cs[0]] + Under(cs[1..], key))[1..] == Under(cs[1..], key);
      } else {
        LaterMonotone(Under(cs[1..], key), next, now);
      }
    }
  }

  /** Keys do not disturb each other.  In any sequence of calls under a clock that
      does not run backwards, the answers under one key are those of a limiter that
      sees the calls under this key only. */
  lemma {:induction false} KeysAreIndependent(cs: seq<Call>, l: Limits, key: string, now: Instant)
    requires Monotone(cs, now)
    ensures |Answers(map[], cs, l)| == |cs|
    ensures AnswersUnder(Answers(map[], cs, l), cs, key) == Answers(map[], Under(cs, key), l)
  {
    AnswerEach(map[], cs, l);
    NewLimiterCleanupIsInvisible(cs, l, now);
    UnderMonotone(cs, key, now);
    NewLimiterCleanupIsInvisible(Under(cs, key), l, now);
    IdealIndependent(map[], map[], cs, l, key);
  }

  // ------------------------------------------------------------ what is counted

  predicate Sorted(ts: seq<Instant>) {
    forall i, j :: 0 <= i < j < |ts| ==> ts[i] <= ts[j]
  }

  /** Failures at the given moments. */
  function Failures(key: string, ts: seq<Instant>): seq<Call> {
    seq(|ts|, i requires 0 <= i < |ts| => RecordFailure(key, ts[i]))
  }

  function IdealAll(m: Attempts, cs: seq<Call>, l: Limits): Attempts
    decreases |cs|
  {
    if cs == [] then m else IdealStep(IdealAll(m, cs[..|cs| - 1], l), cs[|cs| - 1], l).0
  }

  /** The entry after failures that all fall into the window of the first. */
  lemma {:induction false} WindowEntry(key: string, ts: seq<Instant>, l: Limits)
    requires ts != [] && Sorted(ts) && ts[|ts| - 1] <= ts[0] + l.window
    ensures var m, k := IdealAll(map[], Failures(key, ts), l), KeyOf(key);
      k in m && m[k].count == |ts| && m[k].windowEnd == ts[0] + l.window
    decreases |ts|
  {
    var n := |ts| - 1;
    assert Failures(key, ts)[..n] == Failures(key, ts[..n]);
    if n > 0 {
      WindowEntry(key, ts[..n], l);
    } else {
      assert Failures(key, ts[..0]) == [];
    }
  }

  lemma {:induction false} LastAnswer(m: Attempts, cs: seq<Call>, c: Call, l: Limits)
    ensures |IdealAnswers(m, cs + [c], l)| == |cs| + 1
    ensures IdealAnswers(m, cs + [c], l)[|cs|] == IdealStep(IdealFrom(m, cs, l), c, l).1
    decreases |cs|
  {
    if cs == [] {
      assert cs + [c] == [c] && [c][1..] == [];
    } else {
      LastAnswer(IdealStep(m, cs[0], l).0, cs[1..], c, l);
      assert (cs + [c])[1..] == cs[1..] + [c];
    }
  }

  function IdealFrom(m: Attempts, cs: seq<Call>, l: Limits): Attempts
    decreases |cs|
  {
    if cs == [] then m else IdealFrom(IdealStep(m, cs[0], l).0, cs[1..], l)
  }

  lemma {:induction false} FromIsAll(m: Attempts, cs: seq<Call>, l: Limits)
    ensures IdealFrom(m, cs, l) == IdealAll(m, cs, l)
    decreases |cs|
  {
    if cs != [] {
      var n := |cs| - 1;
      FromIsAll(m, cs[..n], l);
      FromStep(m, cs[..n], cs[n], l);
      assert cs == cs[..n] + [cs[n]];
    }
  }

  lemma {:induction false} FromStep(m: Attempts, cs: seq<Call>, c: Call, l: Limits)
    ensures IdealFrom(m, cs + [c], l) == IdealStep(IdealFrom(m, cs, l), c, l).0
    decreases |cs|
  {
    if cs == [] {
      assert cs + [c] == [c] && [c][1..] == [];
    } else {
      FromStep(IdealStep(m, cs[0], l).0, cs[1..], c, l);
      assert (cs + [c])[1..] == cs[1..] + [c];
    }
  }

  lemma {:induction false} SortedMonotone(key: string, ts: seq<Instant>, c: Call, now: Instant)
    requires Sorted(ts) && c.Allow? && (ts != [] ==> now <= ts[0] && ts[|ts| - 1] <= c.now) && now <= c.now
    ensures Monotone(Failures(key, ts) + [c], now)
    decreases |ts|
  {
    if ts == [] {
      assert Failures(key, ts) + [c] == [c] && [c][1..] == [];
    } else {
      SortedMonotone(key, ts[1..], c, ts[0]);
      assert (Failures(key, ts) + [c])[1..] == Failures(key, ts[1..]) + [c];
    }
  }

  /** What the limiter answers: after failures within one window of the first, the
      key is allowed exactly while there are fewer than `limit` of them or once that
      window is over. */
  lemma {:induction false} AllowsExactly(key: string, ts: seq<Instant>, at: Instant, l: Limits)
    requires ts != [] && Sorted(ts) && ts[|ts| - 1] <= ts[0] + l.window && ts[|ts| - 1] <= at
    ensures |Answers(map[], Failures(key, ts) + [Allow(key, at)], l)| == |ts| + 1
    ensures Answers(map[], Failures(key, ts) + [Allow(key, at)], l)[|ts|] <==> |ts| < l.limit || at > ts[0] + l.window
  {
    var cs := Failures(key, ts);
    WindowEntry(key, ts, l);
    FromIsAll(map[], cs, l);
    LastAnswer(map[], cs, Allow(key, at), l);
    SortedMonotone(key, ts, Allow(key, at), 0);
    NewLimiterCleanupIsInvisible(cs + [Allow(key, at)], l, 0);
  }

  // ------------------------------------------------------------ a reset starts over

  lemma {:induction false} AnswersConcat(m: Attempts, a: seq<Call>, b: seq<Call>, l: Limits)
    ensures IdealAnswers(m, a + b, l) == IdealAnswers(m, a, l) + IdealAnswers(IdealFrom(m, a, l), b, l)
    decreases |a|
  {
    if a == [] {
      assert a + b == b;
    } else {
      AnswersConcat(IdealStep(m, a[0], l).0, a[1..], b, l);
      assert (a + b)[1..] == a[1..] + b;
    }
  }

  predicate AllTogether(cs: seq<Call>, key: string) {
    forall i :: 0 <= i < |cs| ==> Together(cs[i].key, key)
  }

  lemma {:induction false} UnderAll(cs: seq<Call>, key: string)
    requires AllTogether(cs, key)
    ensures Under(cs, key) == cs
  {
    if cs != [] {
      UnderAll(cs[1..], key);
      assert cs == [cs[0]] + cs[1..];
    }
  }

  lemma {:induction false} UnderAnswersAll(answers: seq<bool>, cs: seq<Call>, key: string)
    requires AllTogether(cs, key) && |answers| == |cs|
    ensures AnswersUnder(answers, cs, key) == answers
    decreases |cs|
  {
    if cs != [] {
      UnderAnswersAll(answers[1..], cs[1..], key);
      assert answers == [answers[0]] + answers[1..];
    }
  }

  /** After a reset of the key the limiter answers under it as if it were new. */
  lemma {:induction false} ResetStartsOver(before: seq<Call>, key: string, after: seq<Call>, l: Limits, now: Instant)
    requires Monotone(before + ([Reset(key)] + after), now) && Monotone(after, 0) && AllTogether(after, key)
    ensures |Answers(map[], before + ([Reset(key)] + after), l)| == |before| + 1 + |after|
    ensures Answers(map[], before + ([Reset(key)] + after), l)[|before| + 1..] == Answers(map[], after, l)
  {
    var all, m := before + ([Reset(key)] + after), IdealFrom(map[], before, l);
    NewLimiterCleanupIsInvisible(all, l, now);
    NewLimiterCleanupIsInvisible(after, l, 0);
    AnswersConcat(map[], before, [Reset(key)] + after, l);
    AnswerEach(map[], before, l);
    assert ([Reset(key)] + after)[1..] == after;
    var m1 := IdealStep(m, Reset(key), l).0;
    AnswerEach(m1, after, l);
    AnswerEach(map[], after, l);
    IdealIndependent(m1, map[], after, l, key);
    UnderAll(after, key);
    UnderAnswersAll(IdealAnswers(m1, after, l), after, key);
  }
}
