/** Any number of Acquires in flight at once, statement by statement: the sweep,
    the check and the upsert of each are separate steps, and so is every other
    statement of the service. */
module LeaseRuns {
  import opened Basics
  import opened Instants
  import opened Leases

  /** An Acquire between its statements; `now` is its clock, read once at the start. */
  datatype Asking = Asking(key: Key, owner: string, source: string, ttl: nat, now: Instant, checked: bool)

  /** Calls are numbered in the order in which they begin. */
  datatype System = System(table: Table, asking: map<nat, Asking>, answers: map<nat, Result<Lease>>, next: nat)

  datatype Action =
    | Ask(key: Key, owner: string, source: string, ttl: nat, now: Instant, fails: bool)
    | Check(id: nat, fails: bool)
    | Grant(id: nat, fails: bool)
    | Single(e: Event)              // a statement of any other call

  predicate Possible(s: System, a: Action) {
    match a
    case Ask(_, _, _, _, _, _) => true
    case Check(id, _) => id in s.asking && !s.asking[id].checked
    case Grant(id, _) => id in s.asking && s.asking[id].checked
    case Single(e) => !e.statement.Upsert?
  }

  function Answered(s: System, id: nat, r: Result<Lease>): System {
    s.(asking := s.asking - {id}, answers := s.answers[id := r])
  }

  function UpsertOf(q: Asking, fails: bool): Event {
    Event(Upsert(q.key, q.owner, q.source, q.ttl), q.now, fails)
  }

  /** An action that is not possible does not happen. */
  function Act(s: System, a: Action): System {
    if !Possible(s, a) then s
    else
      match a
      case Ask(k, owner, source, ttl, now, fails) =>
        var s' := s.(next := s.next + 1);
        if !WellFormed(k, owner, source) then Answered(s', s.next, Err(BadArguments))
        else if fails then Answered(s', s.next, Err(Database))
        else
          s'.(table := Cleaned(s.table, now), asking := s.asking[s.next := Asking(k, owner, source, ttl, now, false)])
      case Check(id, fails) =>
        var q := s.asking[id];
        if fails then Answered(s, id, Err(Database))
        else if !Passes(s.table, q.key, q.owner, q.now) then Answered(s, id, Err(Locked))
        else s.(asking := s.asking[id := q.(checked := true)])
      case Grant(id, fails) =>
        var q := s.asking[id];
        Answered(s.(table := Perform(s.table, UpsertOf(q, fails))), id,
                 if fails then Err(Database) else Ok(Lease(q.owner, q.source, q.now + q.ttl)))
      case Single(e) => s.(table := Perform(s.table, e))
  }

  function ActAll(s: System, acts: seq<Action>): System
    decreases |acts|
  {
    if acts == [] then s else Act(ActAll(s, acts[..|acts| - 1]), acts[|acts| - 1])
  }

  predicate AllPossible(s: System, acts: seq<Action>) {
    forall n :: 0 <= n < |acts| ==> Possible(ActAll(s, acts[..n]), acts[n])
  }

  /** The statements of an action that can change the table. */
  function EventsOf(s: System, a: Action): seq<Event> {
    if !Possible(s, a) then []
    else
      match a
      case Ask(k, owner, source, ttl, now, fails) =>
        if WellFormed(k, owner, source) then [Event(Sweep, now, fails)] else []
      case Check(_, _) => []
      case Grant(id, fails) => [UpsertOf(s.asking[id], fails)]
      case Single(e) => [e]
  }

  function AllEvents(s: System, acts: seq<Action>): seq<Event>
    decreases |acts|
  {
    if acts == [] then []
    else
      var n := |acts| - 1;
      AllEvents(s, acts[..n]) + EventsOf(ActAll(s, acts[..n]), acts[n])
  }

  lemma ActTable(s: System, a: Action)
    ensures Act(s, a).table == PerformAll(s.table, EventsOf(s, a))
  {
    if EventsOf(s, a) != [] {
      PerformOne(s.table, EventsOf(s, a)[0]);
    }
  }

  /** A run does to the table what its statements do. */
  lemma {:induction false} RunIsStatements(s: System, acts: seq<Action>)
    ensures ActAll(s, acts).table == PerformAll(s.table, AllEvents(s, acts))
    decreases |acts|
  {
    if acts != [] {
      var n := |acts| - 1;
      RunIsStatements(s, acts[..n]);
      ActTable(ActAll(s, acts[..n]), acts[n]);
      PerformConcat(s.table, AllEvents(s, acts[..n]), EventsOf(ActAll(s, acts[..n]), acts[n]));
    }
  }

  // ------------------------------------------------------------ a call among others

  predicate Numbered(s: System) {
    forall id :: id in s.asking ==> id < s.next
  }

  /** The actions of other calls. */
  predicate Elsewhere(acts: seq<Action>, id: nat) {
    forall i :: 0 <= i < |acts| ==> (acts[i].Check? || acts[i].Grant? ==> acts[i].id != id)
  }

  predicate SameCall(s: System, s': System, id: nat) {
    && (id in s'.asking <==> id in s.asking) && (id in s.asking ==> s'.asking[id] == s.asking[id])
    && (id in s'.answers <==> id in s.answers) && (id in s.answers ==> s'.answers[id] == s.answers[id])
  }

  lemma ActElsewhere(s: System, a: Action, id: nat)
    requires id < s.next && (a.Check? || a.Grant? ==> a.id != id)
    ensures id < Act(s, a).next && SameCall(s, Act(s, a), id)
  {
  }

  /** Others leave a call in flight as it is. */
  lemma {:induction false} ElsewhereKeeps(s: System, acts: seq<Action>, id: nat)
    requires id < s.next && Elsewhere(acts, id)
    ensures id < ActAll(s, acts).next && SameCall(s, ActAll(s, acts), id)
    decreases |acts|
  {
    if acts != [] {
      var n := |acts| - 1;
      ElsewhereKeeps(s, acts[..n], id);
      assert Elsewhere(acts[..n], id) && (acts[n].Check? || acts[n].Grant? ==> acts[n].id != id);
      ActElsewhere(ActAll(s, acts[..n]), acts[n], id);
    }
  }

  lemma CheckEffect(s: System, id: nat, fails: bool)
    requires id in s.asking && !s.asking[id].checked
    ensures var q, s' := s.asking[id], Act(s, Check(id, fails));
      && s'.table == s.table && s'.next == s.next
      && if fails || !Passes(s.table, q.key, q.owner, q.now) then
           id !in s'.asking && id in s'.answers && s'.answers[id] == Err(if fails then Database else Locked)
         else s'.asking == s.asking[id := q.(checked := true)]
  {
  }

  lemma GrantEffect(s: System, id: nat, fails: bool)
    requires id in s.asking && s.asking[id].checked
    ensures var q, s' := s.asking[id], Act(s, Grant(id, fails));
      var l := Lease(q.owner, q.source, q.now + q.ttl);
      && s'.table == (if fails then s.table else s.table[q.key := l]) && s'.next == s.next
      && id in s'.answers && s'.answers[id] == (if fails then Err(Database) else Ok(l))
      && s'.asking == s.asking - {id}
  {
  }

  lemma {:induction false} GrantAfter(s: System, t: Table, q: Asking, id: nat, fails: bool, checked: seq<Action>)
    requires id < s.next && Elsewhere(checked, id) && s.table == t
    requires id in s.asking && s.asking[id] == q.(checked := true)
    ensures var s' := Act(ActAll(s, checked), Grant(id, fails));
      var l := Lease(q.owner, q.source, q.now + q.ttl);
      && id in s'.answers && s'.answers[id] == (if fails then Err(Database) else Ok(l))
      && (!fails ==> s'.table == PerformAll(t, AllEvents(s, checked))[q.key := l])
  {
    ElsewhereKeeps(s, checked, id);
    RunIsStatements(s, checked);
    GrantEffect(ActAll(s, checked), id, fails);
  }

  lemma {:induction false} NothingAfter(s: System, id: nat, fails: bool, checked: seq<Action>)
    requires id < s.next && Elsewhere(checked, id) && id !in s.asking && id in s.answers
    ensures var s' := Act(ActAll(s, checked), Grant(id, fails));
      id in s'.answers && s'.answers[id] == s.answers[id]
  {
    ElsewhereKeeps(s, checked, id);
  }

  /** The rest of a call, from its check on, with others' actions in between. */
  function Finished(s: System, id: nat, f: Fault, checked: seq<Action>): System {
    Act(ActAll(Act(s, Check(id, f.SelectFails?)), checked), Grant(id, f.WriteFails?))
  }

  lemma FinishAnswer(s: System, s1: System, q: Asking, id: nat, f: Fault, checked: seq<Action>, r: Result<Lease>)
    requires s1 == Act(s, Check(id, f.SelectFails?)) && id < s1.next && Elsewhere(checked, id)
    requires id in s1.asking || (id in s1.answers && s1.answers[id] == r)
    requires id in s1.asking ==> s1.asking[id] == q.(checked := true)
    requires id in s1.asking ==> r == if f.WriteFails? then Err(Database) else Ok(Lease(q.owner, q.source, q.now + q.ttl))
    ensures var s' := Finished(s, id, f, checked); id in s'.answers && s'.answers[id] == r
  {
    if id in s1.asking {
      GrantAfter(s1, s1.table, q, id, f.WriteFails?, checked);
    } else {
      NothingAfter(s1, id, f.WriteFails?, checked);
    }
  }

  lemma {:induction false} FinishTable(s: System, s1: System, q: Asking, id: nat, f: Fault, checked: seq<Action>)
    requires s1 == Act(s, Check(id, f.SelectFails?)) && s1.table == s.table
    requires id in s1.asking && s1.asking[id] == q.(checked := true) && id < s1.next && Elsewhere(checked, id)
    requires !f.WriteFails?
    ensures Finished(s, id, f, checked).table ==
            PerformAll(s.table, AllEvents(s1, checked))[q.key := Lease(q.owner, q.source, q.now + q.ttl)]
  {
    GrantAfter(s1, s.table, q, id, f.WriteFails?, checked);
  }

  lemma AnsweredAs(s: System, s1: System, q: Asking, id: nat, f: Fault, gap: seq<Event>)
    requires id in s.asking && s.asking[id] == q && !q.checked && s1 == Act(s, Check(id, f.SelectFails?))
    ensures var r := AcquiredFrom(s.table, q.key, q.owner, q.source, q.ttl, q.now, f, gap).1;
      && (id in s1.asking || (id in s1.answers && s1.answers[id] == r))
      && (id in s1.asking ==>
            s1.asking[id] == q.(checked := true)
            && r == if f.WriteFails? then Err(Database) else Ok(Lease(q.owner, q.source, q.now + q.ttl)))
      && (r.Ok? ==> id in s1.asking)
  {
    CheckEffect(s, id, f.SelectFails?);
  }

  /** From its check on, the steps of a call are those of `AcquiredFrom`. */
  lemma {:induction false} CheckAndGrant(s: System, s1: System, q: Asking, id: nat, f: Fault, checked: seq<Action>)
    requires id in s.asking && s.asking[id] == q && !q.checked && id < s.next && Elsewhere(checked, id)
    requires s1 == Act(s, Check(id, f.SelectFails?))
    ensures var r := AcquiredFrom(s.table, q.key, q.owner, q.source, q.ttl, q.now, f, AllEvents(s1, checked)).1;
      var s' := Finished(s, id, f, checked);
      id in s'.answers && s'.answers[id] == r && (r.Ok? ==> id in s1.asking)
  {
    CheckEffect(s, id, f.SelectFails?);
    AnsweredAs(s, s1, q, id, f, AllEvents(s1, checked));
    FinishAnswer(s, s1, q, id, f, checked,
                 AcquiredFrom(s.table, q.key, q.owner, q.source, q.ttl, q.now, f, AllEvents(s1, checked)).1);
  }

  /** An Acquire among others, whose actions in its two gaps are any, is answered
      as the call of the service is. */
  lemma {:induction false} AcquireAmongOthers(s: System, k: Key, owner: string, source: string, ttl: nat,
                                              now: Instant, f: Fault, swept: seq<Action>, checked: seq<Action>)
    requires Elsewhere(swept, s.next) && Elsewhere(checked, s.next)
    ensures var id, s1 := s.next, Act(s, Ask(k, owner, source, ttl, now, f.CleanupFails?));
      var s2 := ActAll(s1, swept);
      var s3, s' := Act(s2, Check(id, f.SelectFails?)), Finished(s2, id, f, checked);
      id in s'.answers && s'.answers[id] ==
        Acquired(s.table, k, owner, source, ttl, now, f, AllEvents(s1, swept), AllEvents(s3, checked)).1
  {
    var id, s1 := s.next, Act(s, Ask(k, owner, source, ttl, now, f.CleanupFails?));
    var s2 := ActAll(s1, swept);
    ElsewhereKeeps(s1, swept, id);
    if WellFormed(k, owner, source) && !f.CleanupFails? {
      RunIsStatements(s1, swept);
      CheckAndGrant(s2, Act(s2, Check(id, f.SelectFails?)), s2.asking[id], id, f, checked);
    } else {
      NothingAfter(Act(s2, Check(id, f.SelectFails?)), id, f.WriteFails?, checked);
    }
  }

  lemma {:induction false} GrantedFrom(s: System, s1: System, q: Asking, id: nat, checked: seq<Action>)
    requires id in s.asking && s.asking[id] == q && !q.checked && id < s.next && Elsewhere(checked, id)
    requires s1 == Act(s, Check(id, false))
    ensures var after := AcquiredFrom(s.table, q.key, q.owner, q.source, q.ttl, q.now, NoFault, AllEvents(s1, checked));
      after.1.Ok? ==> Finished(s, id, NoFault, checked).table == after.0
  {
    CheckEffect(s, id, false);
    if Passes(s.table, q.key, q.owner, q.now) {
      FinishTable(s, s1, q, id, NoFault, checked);
    }
  }

  /** ... and when it is answered with the lease, the table is the one the call leaves. */
  lemma {:induction false} GrantedAmongOthers(s: System, k: Key, owner: string, source: string, ttl: nat,
                                              now: Instant, swept: seq<Action>, checked: seq<Action>)
    requires Elsewhere(swept, s.next) && Elsewhere(checked, s.next)
    ensures var id, s1 := s.next, Act(s, Ask(k, owner, source, ttl, now, false));
      var s2 := ActAll(s1, swept);
      var s3, s' := Act(s2, Check(id, false)), Finished(s2, id, NoFault, checked);
      var after := Acquired(s.table, k, owner, source, ttl, now, NoFault, AllEvents(s1, swept), AllEvents(s3, checked));
      after.1.Ok? ==> s'.table == after.0
  {
    var id, s1 := s.next, Act(s, Ask(k, owner, source, ttl, now, false));
    var s2 := ActAll(s1, swept);
    ElsewhereKeeps(s1, swept, id);
    if WellFormed(k, owner, source) {
      RunIsStatements(s1, swept);
      GrantedFrom(s2, Act(s2, Check(id, false)), Asking(k, owner, source, ttl, now, false), id, checked);
    }
  }

  // ------------------------------------------------------------ who can take a held path

  /** A foreign Acquire on the path whose check has passed and whose upsert is still to come. */
  predicate Overdue(s: System, id: nat, k: Key, owner: string) {
    id in s.asking && s.asking[id].checked && s.asking[id].key == k && s.asking[id].owner != owner
  }

  /** The clocks of all calls, those in flight included, are in an earlier second
      than `until`, and the owner's own lease calls ask for at least as long. */
  predicate Timely(s: System, acts: seq<Action>, k: Key, owner: string, until: Instant) {
    && (forall id :: id in s.asking ==> Second(s.asking[id].now) < Second(until))
    && (forall i :: 0 <= i < |acts| && acts[i].Ask? ==> Second(acts[i].now) < Second(until))
    && AllBefore(AllEvents(s, acts), k, owner, until)
  }

  /** What ends the holding: the owner's own release, and the upsert of a foreign
      Acquire that had passed its check before the run began. */
  predicate Ends(s: System, a: Action, k: Key, owner: string) {
    || (a.Single? && GivesUp(a.e, k, owner))
    || (a.Grant? && !a.fails && Overdue(s, a.id, k, owner))
  }

  predicate NoneEnds(s: System, acts: seq<Action>, k: Key, owner: string) {
    forall i :: 0 <= i < |acts| ==> !Ends(s, acts[i], k, owner)
  }

  /** The calls in flight later on: those on the path that have passed their check
      had passed it already. */
  predicate NoneNewlyPassed(s: System, s': System, k: Key, owner: string, until: Instant) {
    && Numbered(s') && s.next <= s'.next
    && (forall id :: id in s'.asking ==> Second(s'.asking[id].now) < Second(until))
    && (forall id :: id in s.asking && id in s'.asking ==>
          s'.asking[id].key == s.asking[id].key && s'.asking[id].owner == s.asking[id].owner)
    && (forall id :: id in s'.asking && Overdue(s', id, k, owner) ==> Overdue(s, id, k, owner))
  }

  /** From the system `s` on the owner has held the path. */
  predicate Along(s: System, s': System, k: Key, owner: string, until: Instant) {
    HeldUntil(s'.table, k, owner, until) && NoneNewlyPassed(s, s', k, owner, until)
  }

  lemma EndsIsBreak(s: System, s': System, a: Action, k: Key, owner: string, until: Instant)
    requires Along(s, s', k, owner, until) && Possible(s', a)
    ensures Ends(s, a, k, owner) <==> !NoneBreaks(EventsOf(s', a), k, owner)
  {
    if a.Grant? {
      assert EventsOf(s', a)[0] == UpsertOf(s'.asking[a.id], a.fails);
      if Overdue(s, a.id, k, owner) {
        assert s'.asking[a.id].key == s.asking[a.id].key;
      }
    } else if a.Single? {
      assert EventsOf(s', a)[0] == a.e;
    }
  }

  lemma ActHeld(s: System, a: Action, k: Key, owner: string, until: Instant)
    requires HeldUntil(s.table, k, owner, until)
    requires AllBefore(EventsOf(s, a), k, owner, until) && NoneBreaks(EventsOf(s, a), k, owner)
    ensures HeldUntil(Act(s, a).table, k, owner, until)
  {
    HeldAlways(s.table, k, owner, until, EventsOf(s, a));
    ActTable(s, a);
  }

  lemma CallBegins(s: System, s': System, s'': System, q: Asking, k: Key, owner: string, until: Instant)
    requires Numbered(s) && NoneNewlyPassed(s, s', k, owner, until)
    requires s''.asking == s'.asking[s'.next := q] && s''.next == s'.next + 1
    requires !q.checked && Second(q.now) < Second(until)
    ensures NoneNewlyPassed(s, s'', k, owner, until)
  {
  }

  lemma CallPasses(s: System, s': System, s'': System, id: nat, k: Key, owner: string, until: Instant)
    requires NoneNewlyPassed(s, s', k, owner, until) && id in s'.asking
    requires s''.asking == s'.asking[id := s'.asking[id].(checked := true)] && s''.next == s'.next
    requires s'.asking[id].key != k || s'.asking[id].owner == owner
    ensures NoneNewlyPassed(s, s'', k, owner, until)
  {
  }

  lemma CallEnds(s: System, s': System, s'': System, id: nat, k: Key, owner: string, until: Instant)
    requires NoneNewlyPassed(s, s', k, owner, until)
    requires s''.asking == s'.asking - {id} && s'.next <= s''.next
    ensures NoneNewlyPassed(s, s'', k, owner, until)
  {
  }

  /** While the owner holds the path, no foreign call on it passes its check. */
  lemma CallsStep(s: System, s': System, a: Action, k: Key, owner: string, until: Instant)
    requires Numbered(s) && Along(s, s', k, owner, until) && Possible(s', a)
    requires a.Ask? ==> Second(a.now) < Second(until)
    ensures NoneNewlyPassed(s, Act(s', a), k, owner, until)
  {
    var s'' := Act(s', a);
    match a
    case Ask(key, o, source, ttl, now, fails) =>
      if WellFormed(key, o, source) && !fails {
        CallBegins(s, s', s'', Asking(key, o, source, ttl, now, false), k, owner, until);
      } else {
        CallEnds(s, s', s'', s'.next, k, owner, until);
      }
    case Check(id, fails) =>
      var q := s'.asking[id];
      if !fails && Passes(s'.table, q.key, q.owner, q.now) {
        if q.key == k && q.owner != owner {
          OthersAreRefused(s'.table, k, owner, until, q.owner, q.now);
        }
        CallPasses(s, s', s'', id, k, owner, until);
      } else {
        CallEnds(s, s', s'', id, k, owner, until);
      }
    case Grant(id, _) => CallEnds(s, s', s'', id, k, owner, until);
    case Single(_) =>
  }

  /** One step of a run: it is an end exactly if its statement breaks in, and
      otherwise the owner goes on holding the path. */
  lemma StepEnds(s: System, s': System, a: Action, k: Key, owner: string, until: Instant)
    requires Numbered(s) && Along(s, s', k, owner, until) && Possible(s', a)
    requires AllBefore(EventsOf(s', a), k, owner, until) && (a.Ask? ==> Second(a.now) < Second(until))
    ensures Ends(s, a, k, owner) <==> !NoneBreaks(EventsOf(s', a), k, owner)
    ensures !Ends(s, a, k, owner) ==> Along(s, Act(s', a), k, owner, until)
  {
    EndsIsBreak(s, s', a, k, owner, until);
    if !Ends(s, a, k, owner) {
      ActHeld(s', a, k, owner, until);
      CallsStep(s, s', a, k, owner, until);
    }
  }

  lemma Parts(a: seq<Event>, b: seq<Event>, k: Key, owner: string, until: Instant)
    ensures AllBefore(a + b, k, owner, until) ==> AllBefore(a, k, owner, until) && AllBefore(b, k, owner, until)
    ensures NoneBreaks(a + b, k, owner) <==> NoneBreaks(a, k, owner) && NoneBreaks(b, k, owner)
  {
    assert forall i :: 0 <= i < |a| ==> (a + b)[i] == a[i];
    assert forall i :: 0 <= i < |b| ==> (a + b)[|a| + i] == b[i];
  }

  lemma PossiblePrefix(s: System, acts: seq<Action>, n: nat)
    requires AllPossible(s, acts) && n <= |acts|
    ensures AllPossible(s, acts[..n])
  {
    forall m | 0 <= m < n ensures Possible(ActAll(s, acts[..n][..m]), acts[..n][m]) {
      assert acts[..n][..m] == acts[..m];
    }
  }

  lemma {:induction false} TimelyPrefix(s: System, acts: seq<Action>, n: nat, k: Key, owner: string, until: Instant)
    requires |acts| == n + 1 && Timely(s, acts, k, owner, until)
    ensures Timely(s, acts[..n], k, owner, until)
    ensures AllBefore(EventsOf(ActAll(s, acts[..n]), acts[n]), k, owner, until)
  {
    Parts(AllEvents(s, acts[..n]), EventsOf(ActAll(s, acts[..n]), acts[n]), k, owner, until);
  }

  lemma {:induction false} LastAction(s: System, acts: seq<Action>, n: nat, k: Key, owner: string, until: Instant)
    requires |acts| == n + 1
    ensures NoneEnds(s, acts, k, owner) <==> NoneEnds(s, acts[..n], k, owner) && !Ends(s, acts[n], k, owner)
    ensures NoneBreaks(AllEvents(s, acts), k, owner) <==>
      NoneBreaks(AllEvents(s, acts[..n]), k, owner) && NoneBreaks(EventsOf(ActAll(s, acts[..n]), acts[n]), k, owner)
  {
    Parts(AllEvents(s, acts[..n]), EventsOf(ActAll(s, acts[..n]), acts[n]), k, owner, until);
  }

  lemma {:induction false} EndsAreBreaks(s: System, acts: seq<Action>, k: Key, owner: string, until: Instant)
    requires Numbered(s) && HeldUntil(s.table, k, owner, until)
    requires AllPossible(s, acts) && Timely(s, acts, k, owner, until)
    ensures NoneEnds(s, acts, k, owner) <==> NoneBreaks(AllEvents(s, acts), k, owner)
    ensures NoneEnds(s, acts, k, owner) ==> Along(s, ActAll(s, acts), k, owner, until)
    decreases |acts|
  {
    if acts != [] {
      var n := |acts| - 1;
      PossiblePrefix(s, acts, n);
      TimelyPrefix(s, acts, n, k, owner, until);
      EndsAreBreaks(s, acts[..n], k, owner, until);
      LastAction(s, acts, n, k, owner, until);
      if NoneEnds(s, acts[..n], k, owner) {
        StepEnds(s, ActAll(s, acts[..n]), acts[n], k, owner, until);
      }
    }
  }

  /** Lease exclusion with any number of Acquires in flight.  From the moment at
      which an owner holds a path, in every run whose clocks stay before the lease's
      last second, the owner holds it all along exactly if it does not release it
      and no foreign Acquire whose check had passed by that moment upserts. */
  lemma {:induction false} HeldUnlessOverdue(s: System, acts: seq<Action>, k: Key, owner: string, until: Instant)
    requires Numbered(s) && HeldUntil(s.table, k, owner, until)
    requires AllPossible(s, acts) && Timely(s, acts, k, owner, until)
    ensures HeldThroughout(s.table, k, owner, until, AllEvents(s, acts)) <==> NoneEnds(s, acts, k, owner)
  {
    EndsAreBreaks(s, acts, k, owner, until);
    HeldExactly(s.table, k, owner, until, AllEvents(s, acts));
  }

  /** Meanwhile a foreign call that comes to its check is answered locked. */
  lemma {:induction false} ForeignChecksRefused(s: System, acts: seq<Action>, k: Key, owner: string, until: Instant,
                                                id: nat)
    requires Numbered(s) && HeldUntil(s.table, k, owner, until)
    requires AllPossible(s, acts) && Timely(s, acts, k, owner, until) && NoneEnds(s, acts, k, owner)
    requires var s' := ActAll(s, acts);
      Possible(s', Check(id, false)) && s'.asking[id].key == k && s'.asking[id].owner != owner
    ensures var s'' := Act(ActAll(s, acts), Check(id, false)); id in s''.answers && s''.answers[id] == Err(Locked)
  {
    EndsAreBreaks(s, acts, k, owner, until);
    var s' := ActAll(s, acts);
    OthersAreRefused(s'.table, k, owner, until, s'.asking[id].owner, s'.asking[id].now);
  }

  // ------------------------------------------------------------ two grants at once

  lemma AskEffect(s: System, k: Key, owner: string, source: string, ttl: nat, now: Instant)
    requires WellFormed(k, owner, source)
    ensures var s' := Act(s, Ask(k, owner, source, ttl, now, false));
      && s'.next == s.next + 1 && s'.asking == s.asking[s.next := Asking(k, owner, source, ttl, now, false)]
      && (k !in s.table ==> k !in s'.table)
  {
  }

  /** A call on a path without row reaches its grant at once. */
  lemma ReachesGrant(s: System, k: Key, owner: string, source: string, ttl: nat, now: Instant)
    requires k !in s.table && WellFormed(k, owner, source)
    ensures var s' := Act(Act(s, Ask(k, owner, source, ttl, now, false)), Check(s.next, false));
      && s'.asking == s.asking[s.next := Asking(k, owner, source, ttl, now, true)]
      && s'.next == s.next + 1 && k !in s'.table
  {
    AskEffect(s, k, owner, source, ttl, now);
    CheckEffect(Act(s, Ask(k, owner, source, ttl, now, false)), s.next, false);
  }

  function Reaching(s: System, k: Key, owner: string, source: string, ttl: nat, now: Instant): System {
    Act(Act(s, Ask(k, owner, source, ttl, now, false)), Check(s.next, false))
  }

  /** What the exception is for: while the path is free two owners pass their
      checks, both are answered that they have the path, and the first one's next
      heartbeat is answered "not the owner". */
  lemma TwoGrants(s: System, k: Key, a: string, b: string, source: string, ttl: nat, now: Instant)
    requires k !in s.table && WellFormed(k, a, source) && WellFormed(k, b, source) && a != b
    ensures var both := Reaching(Reaching(s, k, b, source, ttl, now), k, a, source, ttl, now);
      var first := Act(both, Grant(s.next + 1, false));
      var second := Act(first, Grant(s.next, false));
      && Possible(both, Grant(s.next + 1, false)) && Possible(first, Grant(s.next, false))
      && s.next + 1 in first.answers && first.answers[s.next + 1] == Ok(Lease(a, source, now + ttl))
      && s.next in second.answers && second.answers[s.next] == Ok(Lease(b, source, now + ttl))
      && Beaten(first.table, k, a, ttl, now, NoFault).1 == Ok(())
      && Beaten(second.table, k, a, ttl, now, NoFault).1 == Err(NotOwner)
  {
    ReachesGrant(s, k, b, source, ttl, now);
    ReachesGrant(Reaching(s, k, b, source, ttl, now), k, a, source, ttl, now);
    GrantBoth(Reaching(Reaching(s, k, b, source, ttl, now), k, a, source, ttl, now),
              s.next, s.next + 1, k, a, b, source, ttl, now);
  }

  lemma GrantBoth(s: System, x: nat, y: nat, k: Key, a: string, b: string, source: string, ttl: nat, now: Instant)
    requires x in s.asking && y in s.asking && x != y && a != b
    requires s.asking[x] == Asking(k, b, source, ttl, now, true) && s.asking[y] == Asking(k, a, source, ttl, now, true)
    ensures var first := Act(s, Grant(y, false));
      var second := Act(first, Grant(x, false));
      && Possible(first, Grant(x, false))
      && y in first.answers && first.answers[y] == Ok(Lease(a, source, now + ttl))
      && x in second.answers && second.answers[x] == Ok(Lease(b, source, now + ttl))
      && Beaten(first.table, k, a, ttl, now, NoFault).1 == Ok(())
      && Beaten(second.table, k, a, ttl, now, NoFault).1 == Err(NotOwner)
  {
    GrantEffect(s, y, false);
    GrantEffect(Act(s, Grant(y, false)), x, false);
  }
}
