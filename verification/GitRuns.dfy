/** The commit queue of one vault as a step system.

    Every critical section of `Queue` is one step, every git command is one
    step, and file writers, any number of overlapping flushes, explicit flushes,
    `RunExclusive`, close, crash and restart interleave freely, and so do the
    recovery commits of `PrepareVault` on a running server, which do not take
    `runMu`.  `mu` disappears into the atomicity of its sections; `runMu` is the
    field `holder`. */
module GitRuns {
  import opened Basics
  import opened GitModel
  import Q = GitQueue
  import S = GitStartup

  type Key = string
  type Snapshot = map<Key, string>

  /** Where one running call of `flush` (or of `RunExclusive`) stands. */
  datatype Phase =
    | Started                                 // called, pending not yet taken
    | Waiting(snap: Snapshot)                 // waits for runMu
    | Locked(snap: Snapshot)                  // has runMu, add not yet run
    | Staged(snap: Snapshot, since: nat)      // add done when the log had `since` writes
    | Dirty(snap: Snapshot, since: nat)       // status was not empty
    | Failed(snap: Snapshot)                  // about to restore the snapshot
    | Landed                                  // committed, about to clear the rows
    | Exclusive                               // RunExclusive's function runs
    | Recovering                              // PrepareVault, before the add of its recovery commit
    | RecoveryStaged
    | RecoveryDirty
    | Ending(err: bool)                       // about to set lastErr and unlock
    | Done

  predicate IsRecovery(ph: Phase) {
    ph.Recovering? || ph.RecoveryStaged? || ph.RecoveryDirty?
  }

  predicate HasRunMutex(ph: Phase) {
    !ph.Started? && !ph.Waiting? && !ph.Done? && !IsRecovery(ph)
  }

  /** Ghost record of an Enqueue: the key and how many writes preceded it. */
  datatype Entry = Entry(key: Key, at: nat)

  datatype State = State(
    repo: Repo,
    rows: Snapshot,          // git_queue_pending
    up: bool,                // the process is running
    pending: Snapshot,
    timer: bool,             // the debounce timer is armed
    closed: bool,
    lastErr: bool,
    flights: map<nat, Phase>,
    holder: Option<nat>,     // who holds runMu
    entries: set<Entry>,
    late: bool)              // a flush restored its snapshot after Close

  /** Who enters the queue. */
  datatype Entrance = TimerFires | Flush | Close | ReplayRows | RunExclusive | Recover

  /** What a running call does next. */
  datatype Work =
    | TakeSnapshot
    | LockRun
    | GitAdd(ok: bool, junk: Tree)
    | GitStatus(ok: bool)
    | GitCommit(works: bool, landed: bool)
    | Restore
    | ClearRows(ok: bool)
    | Finish
    | EndExclusive(err: bool)
    | RecoverAdd(ok: bool, done: set<Path>)   // a failed add has staged some of the paths
    | RecoverStatus(ok: bool)
    | RecoverCommit(works: bool, landed: bool)

  /** A checkout (restore of one file out of a commit) also stages what it writes. */
  datatype Action =
    | FileWrite(w: Write, checkout: bool)
    | Enqueue(source: string, message: string, paths: seq<Path>, persisted: nat)
    | Call(id: nat, entrance: Entrance)
    | Proceed(id: nat, work: Work)
    | Crash
    | Startup(faults: S.Faults)

  const EMPTY := State(Repo([], map[], [map[]]), map[], true, map[], false, false, false,
                       map[], None, {}, false)

  predicate CanCall(s: State, entrance: Entrance) {
    match entrance
    case TimerFires => s.timer
    case ReplayRows => s.rows != map[]
    case RunExclusive => s.holder == None
    case _ => true
  }

  predicate CanWork(s: State, ph: Phase, work: Work) {
    match work
    case TakeSnapshot => ph.Started?
    case LockRun => ph.Waiting? && s.holder == None
    case GitAdd(_, _) => ph.Locked?
    case GitStatus(_) => ph.Staged? && ValidRepo(s.repo)
    case GitCommit(_, _) => ph.Dirty? && ValidRepo(s.repo)
    case Restore => ph.Failed?
    case ClearRows(_) => ph.Landed?
    case Finish => ph.Ending?
    case EndExclusive(_) => ph.Exclusive?
    case RecoverAdd(_, _) => ph.Recovering?
    case RecoverStatus(_) => ph.RecoveryStaged? && ValidRepo(s.repo)
    case RecoverCommit(_, _) => ph.RecoveryDirty? && ValidRepo(s.repo)
  }

  predicate Enabled(s: State, a: Action) {
    match a
    case FileWrite(_, _) => true
    case Enqueue(_, _, paths, persisted) =>
      s.up && persisted <= |paths| && (persisted < |paths| ==> paths[persisted] != "")
    case Call(id, entrance) => s.up && id !in s.flights && CanCall(s, entrance)
    case Proceed(id, work) => s.up && id in s.flights && CanWork(s, s.flights[id], work)
    case Crash => s.up
    case Startup(_) => !s.up && ValidRepo(s.repo)
  }

  function Written(r: Repo, w: Write, checkout: bool): Repo {
    Repo(r.log + [w], if checkout then Put(r.index, w.path, w.content) else r.index, r.history)
  }

  function Enqueued(s: State, source: string, message: string, paths: seq<Path>, persisted: nat): State
    requires persisted <= |paths|
  {
    if source == "" || message == "" || s.closed then s
    else
      s.(pending := Q.WithKeys(s.pending, paths, source),
         rows := Q.WithRows(s.rows, paths[..persisted], source),
         entries := s.entries + set k | k in Q.KeysOf(paths) :: Entry(k, |s.repo.log|),
         timer := s.timer || persisted == |paths|)
  }

  function Called(s: State, id: nat, entrance: Entrance): State
    requires CanCall(s, entrance)
  {
    match entrance
    case TimerFires => s.(flights := s.flights[id := Started], timer := false)
    case Flush => s.(flights := s.flights[id := Started])
    case Close => s.(flights := s.flights[id := Started], closed := true, timer := false)
    case ReplayRows => s.(flights := s.flights[id := Started], pending := Q.WithReplayed(s.pending, s.rows))
    case RunExclusive => s.(flights := s.flights[id := Exclusive], holder := Some(id))
    case Recover => s.(flights := s.flights[id := Recovering])
  }

  function NextPhase(s: State, ph: Phase, work: Work): (next: Phase)
    requires CanWork(s, ph, work)
    ensures HasRunMutex(next) <==>
            work.LockRun? || (HasRunMutex(ph) && !work.Finish? && !work.EndExclusive?)
  {
    match work
    case TakeSnapshot => Waiting(s.pending)
    case LockRun => Locked(ph.snap)
    case GitAdd(ok, _) => if ok then Staged(ph.snap, |s.repo.log|) else Failed(ph.snap)
    case GitStatus(ok) =>
      if !ok then Failed(ph.snap)
      else if StatusClean(s.repo) then Landed
      else Dirty(ph.snap, ph.since)
    case GitCommit(works, landed) =>
      if RunCommit(s.repo, works, landed).1 then Landed else Failed(ph.snap)
    case Restore => Ending(true)
    case ClearRows(ok) => Ending(!ok)
    case Finish => Done
    case EndExclusive(_) => Done
    case RecoverAdd(ok, _) => if ok then RecoveryStaged else Done
    case RecoverStatus(ok) => if ok && !StatusClean(s.repo) then RecoveryDirty else Done
    case RecoverCommit(_, _) => Done
  }

  function NextHolder(holder: Option<nat>, id: nat, work: Work): Option<nat> {
    match work
    case LockRun => Some(id)
    case Finish => None
    case EndExclusive(_) => None
    case _ => holder
  }

  function Restored(s: State, snap: Snapshot): State {
    var s' := s.(pending := Q.Merged(s.pending, snap));
    if s'.pending == map[] then s'
    else if s.closed then s'.(late := true)
    else s'.(timer := true)
  }

  /** What a step does beyond the phase of its call and the holder of runMu. */
  function Effect(s: State, ph: Phase, work: Work): State
    requires CanWork(s, ph, work)
  {
    match work
    case TakeSnapshot => s.(pending := map[])
    case GitAdd(ok, junk) =>
      s.(repo := if ok then AddAll(s.repo) else s.repo.(index := junk))
    case GitCommit(works, landed) => s.(repo := RunCommit(s.repo, works, landed).0)
    case Restore => Restored(s, ph.snap)
    case ClearRows(ok) => s.(rows := if ok then map[] else s.rows)
    case Finish => s.(lastErr := ph.err)
    case EndExclusive(err) => s.(lastErr := err)
    case RecoverAdd(ok, done) => s.(repo := if ok then AddAll(s.repo) else AddSome(s.repo, done))
    case RecoverCommit(works, landed) => s.(repo := RunCommit(s.repo, works, landed).0)
    case _ => s
  }

  function Worked(s: State, id: nat, work: Work): State
    requires id in s.flights && CanWork(s, s.flights[id], work)
  {
    var ph := s.flights[id];
    Effect(s, ph, work).(flights := s.flights[id := NextPhase(s, ph, work)],
                         holder := NextHolder(s.holder, id, work))
  }

  /** A crash keeps the disk (and the ghost record) and loses everything else. */
  function Crashed(s: State): State {
    s.(up := false, pending := map[], timer := false, closed := false, lastErr := false,
       flights := map[], holder := None, late := false)
  }

  function Apply(s: State, a: Action): State
    requires Enabled(s, a)
  {
    match a
    case FileWrite(w, checkout) => s.(repo := Written(s.repo, w, checkout))
    case Enqueue(source, message, paths, persisted) => Enqueued(s, source, message, paths, persisted)
    case Call(id, entrance) => Called(s, id, entrance)
    case Proceed(id, work) => Worked(s, id, work)
    case Crash => Crashed(s)
    case Startup(faults) =>
      var o := S.StartVault(s.repo, s.rows, faults);
      s.(repo := o.repo, rows := o.rows, up := o.ok)
  }

  // ------------------------------------------------------------ the invariant

  /** The flight still owes the entry a commit. */
  predicate Carries(ph: Phase, e: Entry) {
    match ph
    case Waiting(snap) => e.key in snap
    case Locked(snap) => e.key in snap
    case Failed(snap) => e.key in snap
    case Staged(snap, since) => e.key in snap && e.at <= since
    case Dirty(snap, since) => e.key in snap && e.at <= since
    case _ => false
  }

  predicate InFlight(s: State, e: Entry) {
    exists id :: id in s.flights && Carries(s.flights[id], e)
  }

  /** Queued: an in-memory structure will still bring the entry to a commit. */
  predicate Queued(s: State, e: Entry) {
    e.key in s.pending || InFlight(s, e)
  }

  ghost predicate Safe(s: State, e: Entry) {
    Committed(s.repo.history, s.repo.log, e.at)
  }

  ghost predicate Tracked(s: State, e: Entry) {
    e.at <= |s.repo.log| && (s.up ==> Queued(s, e) || Safe(s, e))
  }

  predicate MutexInv(s: State) {
    && (s.holder.Some? ==> s.holder.value in s.flights)
    && (forall id :: id in s.flights ==> (HasRunMutex(s.flights[id]) <==> s.holder == Some(id)))
    && (!s.up ==> s.flights == map[])
  }

  predicate IsStaged(ph: Phase) {
    ph.Staged? || ph.Dirty?
  }

  /** What is staged while a flush is between its add and its commit is, path by
      path, no older than that add. */
  ghost predicate StagedInv(s: State) {
    forall id :: id in s.flights && IsStaged(s.flights[id]) ==>
      s.flights[id].since <= |s.repo.log| && Fresh(s.repo.index, s.repo.log, s.flights[id].since)
  }

  predicate HistoryInv(s: State) {
    && ValidRepo(s.repo)
    && forall c :: 0 < c < |s.repo.history| ==> s.repo.history[c] != s.repo.history[c - 1]
  }

  ghost predicate EntriesInv(s: State) {
    forall e :: e in s.entries ==> Tracked(s, e)
  }

  predicate AnyStarted(s: State) {
    exists id :: id in s.flights && s.flights[id].Started?
  }

  /** After Close only a flush that is about to take it, or one that failed,
      accounts for a non-empty `pending`. */
  predicate RetryInv(s: State) {
    && (s.late ==> s.closed)
    && (!s.up ==> s.pending == map[])
    && (s.pending != map[] && s.closed ==> AnyStarted(s) || s.late)
  }

  ghost predicate Inv(s: State) {
    MutexInv(s) && StagedInv(s) && HistoryInv(s) && EntriesInv(s) && RetryInv(s)
  }

  lemma MutexCalled(s: State, id: nat, entrance: Entrance)
    requires MutexInv(s) && s.up && id !in s.flights && CanCall(s, entrance)
    ensures MutexInv(Called(s, id, entrance))
  {
  }

  lemma EffectFrame(s: State, ph: Phase, work: Work)
    requires CanWork(s, ph, work)
    ensures var s' := Effect(s, ph, work);
      && s'.up == s.up && s'.entries == s.entries && s'.repo.log == s.repo.log && s'.closed == s.closed
  {
    assert AddAll(s.repo).log == s.repo.log;
    if work.GitCommit? || work.RecoverCommit? {
      assert RunCommit(s.repo, work.works, work.landed).0.log == s.repo.log;
    }
  }

  lemma MutexWorked(s: State, id: nat, work: Work)
    requires MutexInv(s) && s.up && id in s.flights && CanWork(s, s.flights[id], work)
    ensures MutexInv(Worked(s, id, work))
  {
    EffectFrame(s, s.flights[id], work);
  }

  lemma HistoryWorked(s: State, id: nat, work: Work)
    requires HistoryInv(s) && id in s.flights && CanWork(s, s.flights[id], work)
    ensures HistoryInv(Worked(s, id, work))
  {
  }

  /** What a call without runMu stages is as recent as what it replaces. */
  lemma StagedRecovery(s: State, ph: Phase, work: Work, since: nat)
    requires CanWork(s, ph, work) && !work.GitAdd?
    requires since <= |s.repo.log| && Fresh(s.repo.index, s.repo.log, since)
    ensures Fresh(Effect(s, ph, work).repo.index, s.repo.log, since)
  {
    if work.RecoverAdd? {
      if work.ok {
        WorktreeIsFresh(s.repo.log, since);
      } else {
        FreshAfterAddSome(s.repo, work.done, since);
      }
    }
  }

  lemma StagedWorked(s: State, id: nat, work: Work)
    requires MutexInv(s) && StagedInv(s) && s.up && id in s.flights && CanWork(s, s.flights[id], work)
    ensures StagedInv(Worked(s, id, work))
  {
    var s' := Worked(s, id, work);
    EffectFrame(s, s.flights[id], work);
    if work.GitAdd? && work.ok {
      WorktreeIsFresh(s.repo.log, |s.repo.log|);
    }
    forall other | other in s'.flights && IsStaged(s'.flights[other])
      ensures s'.flights[other].since <= |s'.repo.log|
      ensures Fresh(s'.repo.index, s'.repo.log, s'.flights[other].since)
    {
      if other == id {
      } else {
        assert !HasRunMutex(s.flights[id]) && !work.GitAdd?;
        StagedRecovery(s, s.flights[id], work, s.flights[other].since);
      }
    }
  }

  lemma StagedWritten(s: State, w: Write, checkout: bool)
    requires StagedInv(s)
    ensures StagedInv(s.(repo := Written(s.repo, w, checkout)))
  {
    forall id | id in s.flights && IsStaged(s.flights[id])
      ensures Fresh(Written(s.repo, w, checkout).index, s.repo.log + [w], s.flights[id].since)
    {
      if checkout {
        FreshAfterCheckout(s.repo.index, s.repo.log, w, s.flights[id].since);
      } else {
        FreshLater(s.repo.index, s.repo.log, [w], s.flights[id].since, s.flights[id].since);
      }
    }
  }

  /** The heart of the matter: whatever a flush does next, an entry it carries
      moves on, goes back to `pending`, or is in a commit. */
  lemma CarriedOn(s: State, id: nat, work: Work, e: Entry)
    requires StagedInv(s) && s.up && id in s.flights && CanWork(s, s.flights[id], work)
    requires Carries(s.flights[id], e) && e.at <= |s.repo.log|
    ensures var s' := Worked(s, id, work);
      e.key in s'.pending || Carries(s'.flights[id], e) || Safe(s', e)
  {
    if work.GitStatus? {
      if work.ok && StatusClean(s.repo) {
        CleanIsCommitted(s.repo, e.at);
      }
    } else if work.GitCommit? {
      CommitLands(s.repo, work.works, work.landed, s.flights[id].since, e.at);
    }
  }

  /** Commits are never lost. */
  lemma SafeWorked(s: State, id: nat, work: Work, e: Entry)
    requires id in s.flights && CanWork(s, s.flights[id], work) && Safe(s, e)
    ensures Safe(Worked(s, id, work), e)
  {
    if work.GitCommit? || work.RecoverCommit? {
      CommitKeeps(s.repo, work.works, work.landed, e.at);
    } else {
      EffectFrame(s, s.flights[id], work);
      assert Effect(s, s.flights[id], work).repo.history == s.repo.history;
    }
  }

  lemma EntryWorked(s: State, id: nat, work: Work, e: Entry)
    requires StagedInv(s) && s.up && id in s.flights && CanWork(s, s.flights[id], work)
    requires Tracked(s, e)
    ensures Tracked(Worked(s, id, work), e)
  {
    var s' := Worked(s, id, work);
    EffectFrame(s, s.flights[id], work);
    if Safe(s, e) {
      SafeWorked(s, id, work, e);
    } else if e.key in s.pending {
      assert work.TakeSnapshot? ==> Carries(s'.flights[id], e);
    } else {
      var carrier :| carrier in s.flights && Carries(s.flights[carrier], e);
      if carrier == id {
        CarriedOn(s, id, work, e);
      } else {
        assert s'.flights[carrier] == s.flights[carrier];
      }
    }
  }

  lemma EntryWritten(s: State, w: Write, checkout: bool, e: Entry)
    requires Tracked(s, e)
    ensures Tracked(s.(repo := Written(s.repo, w, checkout)), e)
  {
    var s' := s.(repo := Written(s.repo, w, checkout));
    if s.up && !Safe(s, e) {
      assert InFlight(s, e) ==> InFlight(s', e);
    } else if Safe(s, e) {
      CommittedLater(s.repo.history, [], s.repo.log, [w], e.at);
      assert s.repo.history + [] == s.repo.history;
    }
  }

  lemma EntryEnqueued(s: State, source: string, message: string, paths: seq<Path>, persisted: nat, e: Entry)
    requires EntriesInv(s) && persisted <= |paths|
    requires e in Enqueued(s, source, message, paths, persisted).entries
    ensures Tracked(Enqueued(s, source, message, paths, persisted), e)
  {
    var s' := Enqueued(s, source, message, paths, persisted);
    if e in s.entries {
      assert InFlight(s, e) ==> InFlight(s', e);
    }
  }

  lemma EntryCalled(s: State, id: nat, entrance: Entrance, e: Entry)
    requires Tracked(s, e) && s.up && id !in s.flights && CanCall(s, entrance)
    ensures Tracked(Called(s, id, entrance), e)
  {
    var s' := Called(s, id, entrance);
    if !Safe(s, e) && e.key !in s.pending {
      var carrier :| carrier in s.flights && Carries(s.flights[carrier], e);
      assert s'.flights[carrier] == s.flights[carrier];
    }
  }

  /** After a successful startup the head is the working tree, so every entry
      there ever was is in a commit. */
  lemma EntryStarted(s: State, faults: S.Faults, e: Entry)
    requires HistoryInv(s) && !s.up && Tracked(s, e)
    ensures Tracked(Apply(s, Startup(faults)), e)
  {
    S.StartVaultEffect(s.repo, s.rows, faults);
    var s' := Apply(s, Startup(faults));
    if s'.up {
      WorktreeIsFresh(s'.repo.log, e.at);
      assert Fresh(s'.repo.history[|s'.repo.history| - 1], s'.repo.log, e.at);
    }
  }

  lemma EntriesStep(s: State, a: Action)
    requires Enabled(s, a) && StagedInv(s) && HistoryInv(s) && EntriesInv(s)
    ensures EntriesInv(Apply(s, a))
  {
    forall e | e in Apply(s, a).entries ensures Tracked(Apply(s, a), e) {
      match a
      case FileWrite(w, checkout) => EntryWritten(s, w, checkout, e);
      case Enqueue(source, message, paths, persisted) =>
        EntryEnqueued(s, source, message, paths, persisted, e);
      case Call(id, entrance) => EntryCalled(s, id, entrance, e);
      case Proceed(id, work) =>
        EffectFrame(s, s.flights[id], work);
        EntryWorked(s, id, work, e);
      case Crash =>
      case Startup(faults) => EntryStarted(s, faults, e);
    }
  }

  lemma RetryCalled(s: State, id: nat, entrance: Entrance)
    requires RetryInv(s) && s.up && id !in s.flights && CanCall(s, entrance)
    ensures RetryInv(Called(s, id, entrance))
  {
    var s' := Called(s, id, entrance);
    if entrance.RunExclusive? || entrance.Recover? {
      if AnyStarted(s) {
        var f :| f in s.flights && s.flights[f].Started?;
        assert s'.flights[f].Started?;
      }
    } else {
      assert s'.flights[id].Started?;
    }
  }

  lemma RetryWorked(s: State, id: nat, work: Work)
    requires RetryInv(s) && s.up && id in s.flights && CanWork(s, s.flights[id], work)
    ensures RetryInv(Worked(s, id, work))
  {
    var s' := Worked(s, id, work);
    if AnyStarted(s) && !work.TakeSnapshot? {
      var f :| f in s.flights && s.flights[f].Started?;
      assert s'.flights[f].Started?;
    }
  }

  lemma InvWritten(s: State, w: Write, checkout: bool)
    requires Inv(s)
    ensures Inv(Apply(s, FileWrite(w, checkout)))
  {
    EntriesStep(s, FileWrite(w, checkout));
    StagedWritten(s, w, checkout);
    var s' := Apply(s, FileWrite(w, checkout));
    assert s'.flights == s.flights;
    assert AnyStarted(s) ==> AnyStarted(s');
  }

  lemma InvEnqueued(s: State, source: string, message: string, paths: seq<Path>, persisted: nat)
    requires Inv(s) && Enabled(s, Enqueue(source, message, paths, persisted))
    ensures Inv(Enqueued(s, source, message, paths, persisted))
  {
    EntriesStep(s, Enqueue(source, message, paths, persisted));
    var s' := Enqueued(s, source, message, paths, persisted);
    assert AnyStarted(s) ==> AnyStarted(s');
  }

  lemma InvCalled(s: State, id: nat, entrance: Entrance)
    requires Inv(s) && s.up && id !in s.flights && CanCall(s, entrance)
    ensures Inv(Called(s, id, entrance))
  {
    EntriesStep(s, Call(id, entrance));
    MutexCalled(s, id, entrance);
    RetryCalled(s, id, entrance);
  }

  lemma InvWorked(s: State, id: nat, work: Work)
    requires Inv(s) && s.up && id in s.flights && CanWork(s, s.flights[id], work)
    ensures Inv(Worked(s, id, work))
  {
    EntriesStep(s, Proceed(id, work));
    MutexWorked(s, id, work);
    StagedWorked(s, id, work);
    HistoryWorked(s, id, work);
    RetryWorked(s, id, work);
  }

  lemma InvStarted(s: State, faults: S.Faults)
    requires Inv(s) && !s.up
    ensures Inv(Apply(s, Startup(faults)))
  {
    EntriesStep(s, Startup(faults));
    S.StartVaultEffect(s.repo, s.rows, faults);
  }

  lemma InvStep(s: State, a: Action)
    requires Enabled(s, a) && Inv(s)
    ensures Inv(Apply(s, a))
  {
    match a
    case FileWrite(w, checkout) => InvWritten(s, w, checkout);
    case Enqueue(source, message, paths, persisted) => InvEnqueued(s, source, message, paths, persisted);
    case Call(id, entrance) => InvCalled(s, id, entrance);
    case Proceed(id, work) => InvWorked(s, id, work);
    case Crash => EntriesStep(s, a);
    case Startup(faults) => InvStarted(s, faults);
  }

  // ------------------------------------------------------------ a flush alone

  /** How many steps a flush still has at most. */
  function Rank(ph: Phase): nat {
    match ph
    case Started => 7
    case Waiting(_) => 6
    case Locked(_) => 5
    case Staged(_, _) => 4
    case Dirty(_, _) => 3
    case Failed(_) => 2
    case Landed => 2
    case Ending(_) => 1
    case _ => 0
  }

  /** A flush is under way and nobody else has runMu. */
  predicate Going(s: State, id: nat) {
    && s.up && id in s.flights && ValidRepo(s.repo) && (s.flights[id] == Done || Rank(s.flights[id]) > 0)
    && (s.flights[id].Started? || s.flights[id].Waiting? ==> s.holder == None)
  }

  /** Its next step, when git and the database answer so. */
  function NextWork(ph: Phase, a: Attempt, clearWorks: bool): Work {
    match ph
    case Started => TakeSnapshot
    case Waiting(_) => LockRun
    case Locked(_) => GitAdd(!a.AddFails?, if a.AddFails? then a.junk else map[])
    case Staged(_, _) => GitStatus(!a.StatusFails?)
    case Dirty(_, _) => GitCommit(a.Works?, a.CommitFails? && a.landed)
    case Failed(_) => Restore
    case Landed => ClearRows(clearWorks)
    case _ => Finish
  }

  lemma WorksNext(s: State, id: nat, a: Attempt, clearWorks: bool)
    requires Going(s, id) && s.flights[id] != Done
    ensures Enabled(s, Proceed(id, NextWork(s.flights[id], a, clearWorks)))
  {
  }

  lemma RankFalls(s: State, ph: Phase, a: Attempt, clearWorks: bool)
    requires Rank(ph) > 0 && CanWork(s, ph, NextWork(ph, a, clearWorks))
    ensures var next := NextPhase(s, ph, NextWork(ph, a, clearWorks));
      && Rank(next) < Rank(ph) && (next == Done || Rank(next) > 0) && !next.Started?
      && (next.Waiting? ==> ph.Started?)
  {
  }

  lemma RepoStaysValid(s: State, ph: Phase, work: Work)
    requires CanWork(s, ph, work) && ValidRepo(s.repo)
    ensures ValidRepo(Effect(s, ph, work).repo)
  {
  }

  lemma StillGoing(s: State, id: nat, a: Attempt, clearWorks: bool)
    requires Going(s, id) && s.flights[id] != Done
    ensures var work := NextWork(s.flights[id], a, clearWorks);
      && Enabled(s, Proceed(id, work)) && Going(Worked(s, id, work), id)
      && Rank(Worked(s, id, work).flights[id]) < Rank(s.flights[id])
  {
    var ph := s.flights[id];
    var work := NextWork(ph, a, clearWorks);
    WorksNext(s, id, a, clearWorks);
    RankFalls(s, ph, a, clearWorks);
    RepoStaysValid(s, ph, work);
    EffectFrame(s, ph, work);
  }

  /** The state when the flush is done, nobody having come between. */
  function Flushed(s: State, id: nat, a: Attempt, clearWorks: bool): State
    requires Going(s, id)
    decreases Rank(s.flights[id])
  {
    if s.flights[id] == Done then s
    else
      StillGoing(s, id, a, clearWorks);
      Flushed(Worked(s, id, NextWork(s.flights[id], a, clearWorks)), id, a, clearWorks)
  }

  /** What a flush is about: the disk, what is pending, the timer and the last error. */
  datatype View = View(repo: Repo, rows: Snapshot, pending: Snapshot, timer: bool, lastErr: bool)

  function ViewOf(s: State): View {
    View(s.repo, s.rows, s.pending, s.timer, s.lastErr)
  }

  /** One step of it. */
  function Advanced(s: State, id: nat, a: Attempt, clearWorks: bool): State
    requires Going(s, id) && s.flights[id] != Done
  {
    StillGoing(s, id, a, clearWorks);
    Worked(s, id, NextWork(s.flights[id], a, clearWorks))
  }

  lemma FinishStep(s: State, id: nat)
    requires id in s.flights && s.flights[id].Ending?
    ensures var s1 := Worked(s, id, Finish);
      s1.flights[id] == Done && ViewOf(s1) == ViewOf(s).(lastErr := s.flights[id].err)
  {
  }

  lemma {:induction false} AtEnd(s: State, id: nat, a: Attempt, clearWorks: bool)
    requires Going(s, id) && s.flights[id] == Done
    ensures Flushed(s, id, a, clearWorks) == s
  {
  }

  lemma {:induction false} FromEnding(s: State, id: nat, a: Attempt, clearWorks: bool)
    requires Going(s, id) && s.flights[id].Ending?
    ensures ViewOf(Flushed(s, id, a, clearWorks)) == ViewOf(s).(lastErr := s.flights[id].err)
  {
    FinishStep(s, id);
    StillGoing(s, id, a, clearWorks);
    AtEnd(Advanced(s, id, a, clearWorks), id, a, clearWorks);
  }

  /** The failed flush gives its snapshot back. */
  function GivenBack(v: View, snap: Snapshot, closed: bool): View {
    var pending := Q.Merged(v.pending, snap);
    v.(pending := pending, timer := v.timer || (pending != map[] && !closed), lastErr := true)
  }

  function Cleared(v: View, works: bool): View {
    v.(rows := if works then map[] else v.rows, lastErr := !works)
  }

  /** The two ways in which a flush ends, in the repository `r`. */
  function Ended(v: View, snap: Snapshot, closed: bool, r: Repo, ok: bool, clearWorks: bool): View {
    if ok then Cleared(v.(repo := r), clearWorks) else GivenBack(v.(repo := r), snap, closed)
  }

  lemma RestoreStep(s: State, id: nat, snap: Snapshot)
    requires id in s.flights && s.flights[id] == Failed(snap)
    ensures var s1 := Worked(s, id, Restore);
      s1.flights[id] == Ending(true) && ViewOf(s1).(lastErr := true) == GivenBack(ViewOf(s), snap, s.closed)
  {
  }

  lemma {:induction false} FromFailed(s: State, id: nat, snap: Snapshot, a: Attempt, clearWorks: bool)
    requires Going(s, id) && s.flights[id] == Failed(snap)
    ensures ViewOf(Flushed(s, id, a, clearWorks)) == GivenBack(ViewOf(s), snap, s.closed)
  {
    RestoreStep(s, id, snap);
    StillGoing(s, id, a, clearWorks);
    FromEnding(Advanced(s, id, a, clearWorks), id, a, clearWorks);
  }

  lemma {:induction false} FromLanded(s: State, id: nat, a: Attempt, clearWorks: bool)
    requires Going(s, id) && s.flights[id] == Landed
    ensures ViewOf(Flushed(s, id, a, clearWorks)) == Cleared(ViewOf(s), clearWorks)
  {
    StillGoing(s, id, a, clearWorks);
    FromEnding(Advanced(s, id, a, clearWorks), id, a, clearWorks);
  }

  lemma CommitStep(s: State, id: nat, snap: Snapshot, since: nat, works: bool, landed: bool)
    requires id in s.flights && s.flights[id] == Dirty(snap, since) && ValidRepo(s.repo)
    ensures var (r, ok) := RunCommit(s.repo, works, landed); var s1 := Worked(s, id, GitCommit(works, landed));
      && s1.flights[id] == (if ok then Landed else Failed(snap)) && s1.closed == s.closed
      && ViewOf(s1) == ViewOf(s).(repo := r)
  {
  }

  lemma {:induction false} FromDirty(s: State, id: nat, snap: Snapshot, since: nat, a: Attempt, clearWorks: bool)
    requires Going(s, id) && s.flights[id] == Dirty(snap, since)
    ensures var (r, ok) := RunCommit(s.repo, a.Works?, a.CommitFails? && a.landed);
      ViewOf(Flushed(s, id, a, clearWorks)) == Ended(ViewOf(s), snap, s.closed, r, ok, clearWorks)
  {
    CommitStep(s, id, snap, since, a.Works?, a.CommitFails? && a.landed);
    StillGoing(s, id, a, clearWorks);
    var s1 := Advanced(s, id, a, clearWorks);
    if s1.flights[id] == Landed {
      FromLanded(s1, id, a, clearWorks);
    } else {
      FromFailed(s1, id, snap, a, clearWorks);
    }
  }

  lemma StatusStep(s: State, id: nat, snap: Snapshot, since: nat, works: bool)
    requires id in s.flights && s.flights[id] == Staged(snap, since) && ValidRepo(s.repo)
    ensures var s1 := Worked(s, id, GitStatus(works));
      && s1.closed == s.closed && ViewOf(s1) == ViewOf(s)
      && s1.flights[id] == if !works then Failed(snap) else if StatusClean(s.repo) then Landed else Dirty(snap, since)
  {
  }

  lemma {:induction false} FromStaged(s: State, id: nat, snap: Snapshot, since: nat, a: Attempt, clearWorks: bool)
    requires Going(s, id) && s.flights[id] == Staged(snap, since)
    ensures var (r, ok) := if a.StatusFails? then (s.repo, false)
                           else if StatusClean(s.repo) then (s.repo, true)
                           else RunCommit(s.repo, a.Works?, a.CommitFails? && a.landed);
      ViewOf(Flushed(s, id, a, clearWorks)) == Ended(ViewOf(s), snap, s.closed, r, ok, clearWorks)
  {
    StatusStep(s, id, snap, since, !a.StatusFails?);
    StillGoing(s, id, a, clearWorks);
    var s1 := Advanced(s, id, a, clearWorks);
    match s1.flights[id]
    case Failed(_) => FromFailed(s1, id, snap, a, clearWorks);
    case Landed => FromLanded(s1, id, a, clearWorks);
    case _ => FromDirty(s1, id, snap, since, a, clearWorks);
  }

  lemma AddStep(s: State, id: nat, snap: Snapshot, works: bool, junk: Tree)
    requires id in s.flights && s.flights[id] == Locked(snap)
    ensures var s1 := Worked(s, id, GitAdd(works, junk));
      && s1.closed == s.closed
      && ViewOf(s1) == ViewOf(s).(repo := s.repo.(index := if works then Replay(s.repo.log) else junk))
      && s1.flights[id] == if works then Staged(snap, |s.repo.log|) else Failed(snap)
  {
  }

  lemma {:induction false} FromLocked(s: State, id: nat, snap: Snapshot, a: Attempt, clearWorks: bool)
    requires Going(s, id) && s.flights[id] == Locked(snap)
    ensures var (r, ok) := AddAndCommit(s.repo, a);
      ViewOf(Flushed(s, id, a, clearWorks)) == Ended(ViewOf(s), snap, s.closed, r, ok, clearWorks)
  {
    AddStep(s, id, snap, !a.AddFails?, if a.AddFails? then a.junk else map[]);
    StillGoing(s, id, a, clearWorks);
    var s1 := Advanced(s, id, a, clearWorks);
    if a.AddFails? {
      FromFailed(s1, id, snap, a, clearWorks);
    } else {
      FromStaged(s1, id, snap, |s.repo.log|, a, clearWorks);
    }
  }

  lemma {:induction false} FromWaiting(s: State, id: nat, snap: Snapshot, a: Attempt, clearWorks: bool)
    requires Going(s, id) && s.flights[id] == Waiting(snap)
    ensures var (r, ok) := AddAndCommit(s.repo, a);
      ViewOf(Flushed(s, id, a, clearWorks)) == Ended(ViewOf(s), snap, s.closed, r, ok, clearWorks)
  {
    StillGoing(s, id, a, clearWorks);
    FromLocked(Advanced(s, id, a, clearWorks), id, snap, a, clearWorks);
  }

  lemma {:induction false} FromStarted(s: State, id: nat, a: Attempt, clearWorks: bool)
    requires Going(s, id) && s.flights[id] == Started
    ensures var (r, ok) := AddAndCommit(s.repo, a);
      ViewOf(Flushed(s, id, a, clearWorks)) == Ended(ViewOf(s).(pending := map[]), s.pending, s.closed, r, ok, clearWorks)
  {
    StillGoing(s, id, a, clearWorks);
    FromWaiting(Advanced(s, id, a, clearWorks), id, s.pending, a, clearWorks);
  }

  /** A flush that nobody comes between leaves exactly what `Queue.Flush` promises,
      whatever git and the database answer. */
  lemma {:induction false} FlushAlone(s: State, id: nat, a: Attempt, clearWorks: bool)
    requires Going(s, id) && s.flights[id] == Started
    ensures var work, v := Replay(s.repo.log), ViewOf(Flushed(s, id, a, clearWorks));
      var ok := a.Works? || (a.CommitFails? && Head(s.repo) == work);
      && v.repo.log == s.repo.log
      && v.repo.history == (if Head(s.repo) != work && (a.Works? || (a.CommitFails? && a.landed))
                            then s.repo.history + [work] else s.repo.history)
      && v.rows == (if ok && clearWorks then map[] else s.rows)
      && v.pending == (if ok then map[] else s.pending)
      && v.timer == (s.timer || (!ok && s.pending != map[] && !s.closed))
      && v.lastErr == !(ok && clearWorks)
  {
    FromStarted(s, id, a, clearWorks);
    AddAndCommitExact(s.repo, a);
    assert Q.Merged(map[], s.pending) == s.pending;
  }

  /** So a flush in which every step works leaves the working tree as the head, no
      rows, nothing pending and no error. */
  lemma {:induction false} GoodFlush(s: State, id: nat)
    requires Going(s, id) && s.flights[id] == Started
    ensures var v := ViewOf(Flushed(s, id, Works, true));
      && ValidRepo(v.repo) && Head(v.repo) == Replay(s.repo.log) && v.repo.log == s.repo.log
      && v.rows == map[] && v.pending == map[] && !v.lastErr
  {
    FlushAlone(s, id, Works, true);
  }

  // ------------------------------------------------------------ whole runs

  /** `tr` is a run of the queue from the empty state under the actions `acts`. */
  ghost predicate Run(tr: seq<State>, acts: seq<Action>) {
    && |tr| == |acts| + 1
    && tr[0] == EMPTY
    && forall i :: 0 <= i < |acts| ==> Enabled(tr[i], acts[i]) && tr[i + 1] == Apply(tr[i], acts[i])
  }

  lemma {:induction false} InvAlways(tr: seq<State>, acts: seq<Action>, i: nat)
    requires Run(tr, acts) && i < |tr|
    ensures Inv(tr[i])
    decreases i
  {
    if i > 0 {
      InvAlways(tr, acts, i - 1);
      InvStep(tr[i - 1], acts[i - 1]);
    }
  }

  /** No enqueued change is lost.  At every moment of every run at which the
      process is up, each Enqueue ever made is still queued (in `pending` or in
      the snapshot of a running flush), or the history has a commit that, for
      every path, is no older than that Enqueue. */
  lemma NoChangeLost(tr: seq<State>, acts: seq<Action>, i: nat, e: Entry)
    requires Run(tr, acts) && i < |tr| && tr[i].up && e in tr[i].entries
    ensures Queued(tr[i], e) || Safe(tr[i], e)
  {
    InvAlways(tr, acts, i);
  }

  /** Enqueue does queue: right after the step each of its keys is in `pending`. */
  lemma EnqueueQueues(s: State, source: string, message: string, paths: seq<Path>, persisted: nat, key: Key)
    requires persisted <= |paths| && key in Q.KeysOf(paths)
    requires source != "" && message != "" && !s.closed
    ensures var s' := Enqueued(s, source, message, paths, persisted);
      Entry(key, |s.repo.log|) in s'.entries && key in s'.pending
  {
    assert Entry(key, |s.repo.log|) in set k | k in Q.KeysOf(paths) :: Entry(k, |s.repo.log|);
  }

  /** A change leaves the queue only through a commit, unless the process dies. */
  lemma LeavesOnlyCommitted(tr: seq<State>, acts: seq<Action>, i: nat, e: Entry)
    requires Run(tr, acts) && i < |acts| && e in tr[i].entries && Queued(tr[i], e)
    requires tr[i + 1].up && !Queued(tr[i + 1], e)
    ensures Safe(tr[i + 1], e)
  {
    InvAlways(tr, acts, i);
    InvAlways(tr, acts, i + 1);
    EntriesGrow(tr[i], acts[i]);
  }

  lemma EntriesGrow(s: State, a: Action)
    requires Enabled(s, a)
    ensures s.entries <= Apply(s, a).entries
  {
    match a
    case Proceed(id, work) => EffectFrame(s, s.flights[id], work);
    case Enqueue(source, message, paths, persisted) =>
      assert s.entries <= Enqueued(s, source, message, paths, persisted).entries;
    case Call(id, entrance) => assert Called(s, id, entrance).entries == s.entries;
    case _ =>
  }

  /** When no later write touched the path, that commit holds exactly the
      content the path had when it was enqueued. */
  lemma CommittedExactly(s: State, e: Entry, p: Path)
    requires Safe(s, e) && e.at <= |s.repo.log|
    requires forall i :: e.at <= i < |s.repo.log| ==> s.repo.log[i].path != p
    ensures exists c :: 0 <= c < |s.repo.history| && Look(s.repo.history[c], p) == At(s.repo.log, e.at, p)
  {
    var c :| 0 <= c < |s.repo.history| && Fresh(s.repo.history[c], s.repo.log, e.at);
    FreshIsExact(s.repo.history[c], s.repo.log, e.at, p);
  }

  /** The git phases of flushes and exclusive runs never overlap (recovery commits
      can come in between), and a commit is never a copy of its parent. */
  lemma OneGitAtATime(tr: seq<State>, acts: seq<Action>, i: nat, f: nat, g: nat, c: nat)
    requires Run(tr, acts) && i < |tr|
    requires f in tr[i].flights && HasRunMutex(tr[i].flights[f])
    requires g in tr[i].flights && HasRunMutex(tr[i].flights[g])
    ensures f == g
    ensures c + 1 < |tr[i].repo.history| ==> tr[i].repo.history[c] != tr[i].repo.history[c + 1]
  {
    InvAlways(tr, acts, i);
    assert c + 1 < |tr[i].repo.history| ==> tr[i].repo.history[c + 1] != tr[i].repo.history[c + 1 - 1];
  }

  ghost predicate AllSafe(s: State) {
    forall e :: e in s.entries ==> Safe(s, e)
  }

  /** Crash recovery.  Whatever happened before, a startup that succeeds leaves
      the working tree as the head, no persisted rows, and every Enqueue ever
      made in a commit; it adds one commit when the head was behind and none
      when it was not. */
  lemma CrashRecovery(tr: seq<State>, acts: seq<Action>, i: nat)
    requires Run(tr, acts) && i < |acts| && acts[i].Startup? && tr[i + 1].up
    ensures ValidRepo(tr[i].repo) && ValidRepo(tr[i + 1].repo)
    ensures Head(tr[i + 1].repo) == Replay(tr[i + 1].repo.log) && tr[i + 1].repo.log == tr[i].repo.log
    ensures tr[i + 1].rows == map[]
    ensures tr[i + 1].repo.history ==
            if Head(tr[i].repo) == Replay(tr[i].repo.log) then tr[i].repo.history
            else tr[i].repo.history + [Replay(tr[i].repo.log)]
    ensures AllSafe(tr[i + 1])
  {
    InvAlways(tr, acts, i);
    InvAlways(tr, acts, i + 1);
    S.StartVaultEffect(tr[i].repo, tr[i].rows, acts[i].faults);
    var s' := tr[i + 1];
    forall e | e in s'.entries ensures Safe(s', e) {
      assert Tracked(s', e) && s'.pending == map[] && s'.flights == map[];
    }
  }

  /** Somebody is coming for what is pending: the timer is armed or a flush is
      about to take its snapshot. */
  predicate Held(s: State) {
    s.pending != map[] && !s.closed ==> s.timer || AnyStarted(s)
  }

  /** An accepted Enqueue whose insert fails while nobody is coming. */
  predicate Strands(s: State, a: Action) {
    && a.Enqueue? && a.source != "" && a.message != "" && !s.closed
    && a.persisted < |a.paths| && !s.timer && !AnyStarted(s)
  }

  /** A step leaves the pending changes alone exactly if it is such an Enqueue. */
  lemma HeldStep(s: State, a: Action)
    requires Enabled(s, a) && Inv(s) && Held(s)
    ensures Held(Apply(s, a)) <==> !Strands(s, a)
  {
    match a
    case FileWrite(w, checkout) => assert AnyStarted(s) ==> AnyStarted(Apply(s, a));
    case Enqueue(source, message, paths, persisted) => HeldEnqueue(s, source, message, paths, persisted);
    case Call(id, entrance) => HeldCall(s, id, entrance);
    case Proceed(id, work) => HeldWork(s, id, work);
    case Crash =>
    case Startup(_) =>
  }

  lemma HeldEnqueue(s: State, source: string, message: string, paths: seq<Path>, persisted: nat)
    requires Held(s) && persisted <= |paths|
    ensures Held(Enqueued(s, source, message, paths, persisted)) <==>
      !Strands(s, Enqueue(source, message, paths, persisted))
  {
    var s' := Enqueued(s, source, message, paths, persisted);
    assert AnyStarted(s) <==> AnyStarted(s');
    if source != "" && message != "" && !s.closed {
      var k := if paths == [] then "" else paths[0];
      assert k in Q.KeysOf(paths) && k in s'.pending;
    }
  }

  lemma HeldCall(s: State, id: nat, entrance: Entrance)
    requires Held(s) && id !in s.flights && CanCall(s, entrance)
    ensures Held(Called(s, id, entrance))
  {
    var s' := Called(s, id, entrance);
    if entrance.RunExclusive? || entrance.Recover? {
      if AnyStarted(s) {
        var f :| f in s.flights && s.flights[f].Started?;
        assert s'.flights[f].Started?;
      }
    } else {
      assert s'.flights[id].Started?;
    }
  }

  lemma HeldWork(s: State, id: nat, work: Work)
    requires Held(s) && id in s.flights && CanWork(s, s.flights[id], work)
    ensures Held(Worked(s, id, work))
  {
    var s' := Worked(s, id, work);
    if AnyStarted(s) && !work.TakeSnapshot? {
      var f :| f in s.flights && s.flights[f].Started?;
      assert s'.flights[f].Started?;
    }
  }

  /** Retry is never forgotten, exactly: in a run of any length every state has
      somebody coming for what is pending if and only if no Enqueue in it failed
      to persist while nobody was. */
  lemma {:induction false} RetryNotForgotten(tr: seq<State>, acts: seq<Action>, n: nat)
    requires Run(tr, acts) && n < |tr|
    ensures AlwaysHeld(tr, n) <==> NoneStrands(tr, acts, n)
    decreases n
  {
    if n > 0 {
      RetryNotForgotten(tr, acts, n - 1);
      assert AlwaysHeld(tr, n) <==> AlwaysHeld(tr, n - 1) && Held(tr[n]);
      assert NoneStrands(tr, acts, n) <==> NoneStrands(tr, acts, n - 1) && !Strands(tr[n - 1], acts[n - 1]);
      if AlwaysHeld(tr, n - 1) {
        InvAlways(tr, acts, n - 1);
        HeldStep(tr[n - 1], acts[n - 1]);
      }
    }
  }

  predicate AlwaysHeld(tr: seq<State>, n: nat)
    requires n < |tr|
  {
    forall i :: 0 <= i <= n ==> Held(tr[i])
  }

  predicate NoneStrands(tr: seq<State>, acts: seq<Action>, n: nat)
    requires n <= |acts| && n < |tr|
  {
    forall i :: 0 <= i < n ==> !Strands(tr[i], acts[i])
  }

  /** While inserts succeed nothing is forgotten. */
  lemma PersistedMeansHeld(tr: seq<State>, acts: seq<Action>, n: nat)
    requires Run(tr, acts) && n < |tr|
    requires forall i :: 0 <= i < n && acts[i].Enqueue? ==> acts[i].persisted == |acts[i].paths|
    ensures Held(tr[n])
  {
    RetryNotForgotten(tr, acts, n);
  }

  /** It happens: this run ends with a change pending, no timer armed and nobody
      coming for it. */
  lemma UnarmedHappens()
    ensures exists tr: seq<State>, acts: seq<Action> :: Run(tr, acts) && !Held(tr[|tr| - 1])
  {
    var a := Enqueue("web", "web update", ["a.md"], 0);
    var s := Apply(EMPTY, a);
    assert "a.md" in s.pending;
    assert Run([EMPTY, s], [a]);
  }

  predicate Closing(s: State) {
    s.up && s.closed && !s.late
  }

  /** Closing drains the queue: if no call fails from the moment of Close on,
      then as soon as no call is still about to take its snapshot, nothing is pending. */
  lemma CloseDrains(tr: seq<State>, acts: seq<Action>, i: nat, j: nat)
    requires Run(tr, acts) && i < j < |tr|
    requires acts[i].Call? && acts[i].entrance == Close && !tr[i].closed
    requires forall k :: i <= k < j ==> !Fails(acts[k])
    ensures tr[j].up && tr[j].closed
    ensures !AnyStarted(tr[j]) ==> tr[j].pending == map[]
  {
    ClosingFrom(tr, acts, i, j);
    InvAlways(tr, acts, j);
    assert RetryInv(tr[j]);
  }

  lemma {:induction false} ClosingFrom(tr: seq<State>, acts: seq<Action>, i: nat, j: nat)
    requires Run(tr, acts) && i < j < |tr|
    requires acts[i].Call? && acts[i].entrance == Close && !tr[i].closed
    requires forall k :: i <= k < j ==> !Fails(acts[k])
    ensures Closing(tr[j])
    decreases j
  {
    if j == i + 1 {
      InvAlways(tr, acts, i);
      CloseStep(tr[i], acts[i].id);
    } else {
      ClosingFrom(tr, acts, i, j - 1);
      ClosingStep(tr[j - 1], acts[j - 1]);
    }
  }

  lemma CloseStep(s: State, id: nat)
    requires Enabled(s, Call(id, Close)) && !s.closed && Inv(s)
    ensures Closing(Apply(s, Call(id, Close)))
  {
    assert RetryInv(s);
  }

  predicate Fails(a: Action) {
    a.Crash? || (a.Proceed? && a.work.Restore?)
  }

  lemma ClosingStep(s: State, a: Action)
    requires Enabled(s, a) && Closing(s) && !Fails(a)
    ensures Closing(Apply(s, a))
  {
    match a
    case Proceed(id, work) =>
      EffectFrame(s, s.flights[id], work);
      assert Effect(s, s.flights[id], work).late == s.late;
    case _ =>
  }

  predicate EmptyHanded(ph: Phase) {
    match ph
    case Waiting(snap) => snap == map[]
    case Locked(snap) => snap == map[]
    case Staged(snap, _) => snap == map[]
    case Dirty(snap, _) => snap == map[]
    case Failed(snap) => snap == map[]
    case _ => true
  }

  /** Closed, and nothing left in memory to commit. */
  predicate Drained(s: State) {
    && s.up && s.closed && s.pending == map[]
    && forall id :: id in s.flights ==> EmptyHanded(s.flights[id])
  }

  lemma EmptyHandedStep(s: State, ph: Phase, work: Work)
    requires CanWork(s, ph, work) && EmptyHanded(ph) && s.pending == map[]
    ensures EmptyHanded(NextPhase(s, ph, work))
    ensures Effect(s, ph, work).pending == map[]
  {
    assert work.Restore? ==> Q.Merged(s.pending, ph.snap) == map[];
  }

  lemma DrainedWorked(s: State, id: nat, work: Work)
    requires Drained(s) && id in s.flights && CanWork(s, s.flights[id], work)
    ensures Drained(Worked(s, id, work))
  {
    EffectFrame(s, s.flights[id], work);
    EmptyHandedStep(s, s.flights[id], work);
  }

  lemma DrainedCalled(s: State, id: nat, entrance: Entrance)
    requires Drained(s) && CanCall(s, entrance) && !entrance.ReplayRows?
    ensures Drained(Called(s, id, entrance))
  {
  }

  /** A drained queue stays drained, however its further flushes go; only a
      crash or a replay of persisted rows can end that. */
  lemma DrainedStep(s: State, a: Action)
    requires Enabled(s, a) && Drained(s)
    requires !a.Crash? && !(a.Call? && a.entrance.ReplayRows?)
    ensures Drained(Apply(s, a))
  {
    match a
    case Proceed(id, work) => DrainedWorked(s, id, work);
    case Call(id, entrance) => DrainedCalled(s, id, entrance);
    case _ =>
  }

  /** A drained queue owes nobody a commit: every change ever enqueued is in one. */
  lemma DrainedIsSafe(tr: seq<State>, acts: seq<Action>, i: nat)
    requires Run(tr, acts) && i < |tr| && Drained(tr[i])
    ensures AllSafe(tr[i])
  {
    var s := tr[i];
    forall e | e in s.entries ensures Safe(s, e) {
      NoChangeLost(tr, acts, i, e);
    }
  }

  lemma {:induction false} DrainedAlways(tr: seq<State>, acts: seq<Action>, j: nat, k: nat)
    requires Run(tr, acts) && j <= k < |tr| && Drained(tr[j])
    requires forall n :: j <= n < k ==> !acts[n].Crash? && !(acts[n].Call? && acts[n].entrance.ReplayRows?)
    ensures Drained(tr[k])
    decreases k
  {
    if j < k {
      DrainedAlways(tr, acts, j, k - 1);
      DrainedStep(tr[k - 1], acts[k - 1]);
    }
  }

  /** Shutdown.  Once a Close without failures has all its calls done, every
      change ever enqueued is in a commit and nothing is pending, and both stay
      so for the rest of the process, whatever flushes still follow. */
  lemma CloseCompletes(tr: seq<State>, acts: seq<Action>, i: nat, j: nat, k: nat)
    requires Run(tr, acts) && i < j <= k < |tr|
    requires acts[i].Call? && acts[i].entrance == Close && !tr[i].closed
    requires forall n :: i <= n < j ==> !Fails(acts[n])
    requires forall id :: id in tr[j].flights ==> tr[j].flights[id] == Done
    requires forall n :: j <= n < k ==> !acts[n].Crash? && !(acts[n].Call? && acts[n].entrance.ReplayRows?)
    ensures Drained(tr[k]) && AllSafe(tr[k])
  {
    CloseDrains(tr, acts, i, j);
    assert !AnyStarted(tr[j]) && Drained(tr[j]);
    DrainedAlways(tr, acts, j, k);
    DrainedIsSafe(tr, acts, k);
  }

  /** The queue never deadlocks: while a call is unfinished, some call has a
      next step, whatever git and the database do. */
  lemma NeverStuck(tr: seq<State>, acts: seq<Action>, i: nat, id: nat)
    requires Run(tr, acts) && i < |tr| && id in tr[i].flights && tr[i].flights[id] != Done
    ensures exists mover: nat, work: Work :: Enabled(tr[i], Proceed(mover, work))
  {
    InvAlways(tr, acts, i);
    var s := tr[i];
    var mover := if s.holder.Some? then s.holder.value else id;
    var work := match s.flights[mover]
      case Started => TakeSnapshot
      case Waiting(_) => LockRun
      case Locked(_) => GitAdd(true, map[])
      case Staged(_, _) => GitStatus(true)
      case Dirty(_, _) => GitCommit(true, true)
      case Failed(_) => Restore
      case Landed => ClearRows(true)
      case Exclusive => EndExclusive(false)
      case Recovering => RecoverAdd(true, {})
      case RecoveryStaged => RecoverStatus(true)
      case RecoveryDirty => RecoverCommit(true, true)
      case _ => Finish;
    assert MutexInv(s) && HistoryInv(s);
    assert Enabled(s, Proceed(mover, work));
  }
}
