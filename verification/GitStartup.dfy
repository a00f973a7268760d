/** The startup sequence: per vault, replay of the persisted rows and then the
    recovery commit. */
module GitStartup {
  import opened GitModel
  import opened GitQueue

  /** How the startup of one vault goes; whatever fails ends it there.  It begins
      with preparing the directory, the repository and the branch. */
  datatype Faults = Faults(prepares: bool, queryWorks: bool, flush: Attempt, clearWorks: bool, recovery: Attempt)

  function StartVault(r: Repo, rows: Pending, f: Faults): Outcome
    requires ValidRepo(r)
  {
    AddAndCommitEffect(r, f.flush);
    var replayed := Replayed(r, rows, f.queryWorks, f.flush, f.clearWorks);
    if !f.prepares then Outcome(r, rows, false)
    else if !replayed.ok then replayed
    else
      var (r', ok) := AddAndCommit(replayed.repo, f.recovery);
      Outcome(r', replayed.rows, ok)
  }

  /** However a startup goes, it adds at most the working tree as one commit,
      and only to a head that differs; success leaves the working tree as head
      and no persisted rows. */
  lemma StartVaultEffect(r: Repo, rows: Pending, f: Faults)
    requires ValidRepo(r)
    ensures var o := StartVault(r, rows, f);
      && ValidRepo(o.repo) && o.repo.log == r.log
      && (o.repo.history == r.history
          || (Head(r) != Replay(r.log) && o.repo.history == r.history + [Replay(r.log)]))
      && (o.ok ==> Head(o.repo) == Replay(r.log) && o.rows == map[])
  {
    AddAndCommitEffect(r, f.flush);
    AddAndCommitEffect(Replayed(r, rows, f.queryWorks, f.flush, f.clearWorks).repo, f.recovery);
  }

  /** Exactly when a vault starts: with rows to replay git has to go through with the
      flush, and then there is nothing left for the recovery to commit. */
  lemma StartVaultExact(r: Repo, rows: Pending, f: Faults)
    requires ValidRepo(r)
    ensures var replays, o := rows != map[], StartVault(r, rows, f);
      var flushed := replays ==> GoesThrough(r, f.flush) && f.clearWorks;
      var recovered := if replays then f.recovery.Works? || f.recovery.CommitFails? else GoesThrough(r, f.recovery);
      o.ok <==> f.prepares && f.queryWorks && flushed && recovered
    ensures StartVault(r, rows, f).ok ==>
      StartVault(r, rows, f).repo.history ==
        if Head(r) == Replay(r.log) then r.history else r.history + [Replay(r.log)]
  {
    AddAndCommitExact(r, f.flush);
    AddAndCommitEffect(r, f.flush);
    var replayed := Replayed(r, rows, f.queryWorks, f.flush, f.clearWorks);
    AddAndCommitExact(replayed.repo, f.recovery);
    AddAndCommitEffect(replayed.repo, f.recovery);
  }

  /** A startup in which nothing fails succeeds. */
  lemma FaultlessStartup(r: Repo, rows: Pending)
    requires ValidRepo(r)
    ensures StartVault(r, rows, Faults(true, true, Works, true, Works)).ok
  {
    StartVaultExact(r, rows, Faults(true, true, Works, true, Works));
  }

  /** Startups tried one after the other until one succeeds. */
  function Restarts(r: Repo, rows: Pending, tries: seq<Faults>): Outcome
    requires ValidRepo(r)
    decreases |tries|
  {
    if tries == [] then Outcome(r, rows, false)
    else
      StartVaultEffect(r, rows, tries[0]);
      var o := StartVault(r, rows, tries[0]);
      if o.ok then o else Restarts(o.repo, o.rows, tries[1..])
  }

  /** A process that keeps dying during startup, at any point of it, still never
      commits the same content twice: all its attempts together add at most one
      commit, and the first success leaves everything committed. */
  lemma {:induction false} RestartsCommitOnce(r: Repo, rows: Pending, tries: seq<Faults>)
    requires ValidRepo(r)
    ensures var o := Restarts(r, rows, tries);
      && ValidRepo(o.repo) && o.repo.log == r.log
      && (o.repo.history == r.history
          || (Head(r) != Replay(r.log) && o.repo.history == r.history + [Replay(r.log)]))
      && (o.ok ==> Head(o.repo) == Replay(r.log) && o.rows == map[])
    decreases |tries|
  {
    if tries != [] {
      StartVaultEffect(r, rows, tries[0]);
      var o := StartVault(r, rows, tries[0]);
      if !o.ok {
        RestartsCommitOnce(o.repo, o.rows, tries[1..]);
      }
    }
  }

  method InitializeVault(v: Disk, f: Faults) returns (ok: bool)
    requires ValidRepo(v.repo)
    modifies v
    ensures var o := StartVault(old(v.repo), old(v.rows), f);
      v.repo == o.repo && v.rows == o.rows && ok == o.ok
  {
    if !f.prepares {
      return false;
    }
    AddAndCommitEffect(v.repo, f.flush);
    var queue := new Queue(v);
    ok := queue.ReplayPending(f.queryWorks, f.flush, f.clearWorks);
    if ok {
      var (repo', committed) := AddAndCommit(v.repo, f.recovery);
      v.repo := repo';
      ok := committed;
    }
  }

  /** initializeVaults: the vaults in order, stopping at the first that fails. */
  method InitializeVaults(vaults: seq<Disk>, faults: seq<Faults>) returns (ok: bool, started: nat)
    requires |faults| == |vaults|
    requires forall i, j :: 0 <= i < j < |vaults| ==> vaults[i] != vaults[j]
    requires forall i :: 0 <= i < |vaults| ==> ValidRepo(vaults[i].repo)
    modifies vaults
    ensures started <= |vaults| && (ok <==> started == |vaults|)
    ensures forall i :: 0 <= i < |vaults| && i <= started ==>
      var o := StartVault(old(vaults[i].repo), old(vaults[i].rows), faults[i]);
      vaults[i].repo == o.repo && vaults[i].rows == o.rows && (o.ok <==> i < started)
    ensures forall i :: started < i < |vaults| ==>
      vaults[i].repo == old(vaults[i].repo) && vaults[i].rows == old(vaults[i].rows)
  {
    started := 0;
    while started < |vaults|
      invariant 0 <= started <= |vaults|
      invariant forall i :: 0 <= i < started ==>
        var o := StartVault(old(vaults[i].repo), old(vaults[i].rows), faults[i]);
        o.ok && vaults[i].repo == o.repo && vaults[i].rows == o.rows
      invariant forall i :: started <= i < |vaults| ==>
        vaults[i].repo == old(vaults[i].repo) && vaults[i].rows == old(vaults[i].rows)
    {
      ok := InitializeVault(vaults[started], faults[started]);
      if !ok {
        return false, started;
      }
      started := started + 1;
    }
    ok := true;
  }

  /** A server that got through startup has every vault's files committed. */
  lemma StartedMeansCommitted(r: Repo, rows: Pending, f: Faults)
    requires ValidRepo(r) && StartVault(r, rows, f).ok
    ensures forall at: nat :: at <= |r.log| ==>
      Committed(StartVault(r, rows, f).repo.history, r.log, at)
  {
    StartVaultEffect(r, rows, f);
    var o := StartVault(r, rows, f);
    forall at: nat | at <= |r.log| ensures Committed(o.repo.history, r.log, at) {
      WorktreeIsFresh(r.log, at);
      assert Fresh(o.repo.history[|o.repo.history| - 1], r.log, at);
    }
  }
}
