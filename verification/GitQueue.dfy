/** `Queue` of the git package: the in-memory set of paths waiting for a commit
    and its shadow in the table git_queue_pending.

    The functions say what each critical section does to the data; the class
    performs them in place.  A whole flush that nobody interleaves with is
    `Queue.Flush`; how the critical sections of many calls interleave is the
    subject of GitRuns. */
module GitQueue {
  import opened GitModel

  type Pending = map<string, string>

  /** The keys a task adds; a task without paths stands for the whole tree. */
  function KeysOf(paths: seq<Path>): set<string> {
    if paths == [] then {""} else set p | p in paths
  }

  function WithKeys(pending: Pending, paths: seq<Path>, source: string): Pending {
    pending + map k | k in KeysOf(paths) :: source
  }

  function WithPaths(pending: Pending, paths: seq<Path>, source: string): Pending {
    pending + map p | p in paths :: source
  }

  /** The whole-tree key is never written to the table. */
  function WithRows(rows: Pending, paths: seq<Path>, source: string): Pending {
    rows + map p | p in paths && p != "" :: source
  }

  /** A failed flush gives its snapshot back; newer entries win. */
  function Merged(pending: Pending, snapshot: Pending): Pending {
    snapshot + pending
  }

  function WithReplayed(pending: Pending, rows: Pending): Pending {
    pending + map p | p in rows && p != "" :: rows[p]
  }

  lemma NoPaths(m: Pending, paths: seq<Path>, source: string)
    requires paths == []
    ensures WithPaths(m, paths, source) == m && WithRows(m, paths, source) == m
    ensures WithKeys(m, paths, source) == m["" := source]
  {
  }

  lemma WithPathsStep(pending: Pending, paths: seq<Path>, source: string, i: nat)
    requires i < |paths|
    ensures WithPaths(pending, paths[..i], source)[paths[i] := source] == WithPaths(pending, paths[..i + 1], source)
  {
    assert paths[..i + 1] == paths[..i] + [paths[i]];
  }

  lemma WithRowsStep(rows: Pending, paths: seq<Path>, source: string, i: nat)
    requires i < |paths|
    ensures WithRows(rows, paths[..i + 1], source) ==
            if paths[i] == "" then WithRows(rows, paths[..i], source)
            else WithRows(rows, paths[..i], source)[paths[i] := source]
  {
    assert paths[..i + 1] == paths[..i] + [paths[i]];
  }

  /** `m` without the keys a loop still has to visit. */
  function Visited(m: Pending, todo: set<string>): Pending {
    map k | k in m && k !in todo :: m[k]
  }

  lemma VisitedStep(m: Pending, todo: set<string>, k: string)
    requires k in todo && todo <= m.Keys
    ensures Visited(m, todo)[k := m[k]] == Visited(m, todo - {k})
    ensures Visited(m, todo - {k}).Keys == Visited(m, todo).Keys + {k}
    ensures Visited(m, todo - {k}).Values == Visited(m, todo).Values + {m[k]}
  {
    var before, after := Visited(m, todo), Visited(m, todo - {k});
    assert after == before[k := m[k]];
    forall v ensures v in after.Values <==> v in before.Values + {m[k]} {
      if v in before.Values {
        var j :| j in before && before[j] == v;
        assert after[j] == v;
      }
      if v == m[k] {
        assert after[k] == v;
      }
    }
  }

  lemma NonEmptyStep(a: set<string>, x: string)
    ensures a + {x} - {""} == if x == "" then a - {""} else a - {""} + {x}
  {
  }

  lemma VisitedEnds(m: Pending)
    ensures Visited(m, m.Keys) == map[] && Visited(m, {}) == m
    ensures Visited(m, m.Keys).Keys == {} && Visited(m, m.Keys).Values == {}
    ensures Merged(m, map[]) == m
  {
  }

  /** Restoring entry by entry, skipping keys that have a newer entry. */
  lemma MergedStep(pending: Pending, snapshot: Pending, todo: set<string>, k: string)
    requires k in todo && todo <= snapshot.Keys
    ensures var m := Merged(pending, Visited(snapshot, todo));
      Merged(pending, Visited(snapshot, todo - {k})) == if k in m then m else m[k := snapshot[k]]
  {
  }

  /** What survives a crash. */
  class Disk {
    var repo: Repo
    var rows: Pending

    constructor (repo: Repo, rows: Pending)
      ensures this.repo == repo && this.rows == rows
    {
      this.repo := repo;
      this.rows := rows;
    }
  }

  class Queue {
    const disk: Disk
    var pending: Pending
    var timer: bool
    var closed: bool
    var lastErr: bool

    constructor (disk: Disk)
      ensures this.disk == disk && pending == map[] && !timer && !closed && !lastErr
    {
      this.disk := disk;
      pending, timer, closed, lastErr := map[], false, false, false;
    }

    method AddKeys(paths: seq<Path>, source: string)
      modifies this`pending
      ensures pending == WithKeys(old(pending), paths, source)
    {
      NoPaths(pending, paths[..0], source);
      var i := 0;
      while i < |paths|
        invariant 0 <= i <= |paths|
        invariant pending == WithPaths(old(pending), paths[..i], source)
      {
        WithPathsStep(old(pending), paths, source, i);
        pending := pending[paths[i] := source];
        i := i + 1;
      }
      assert paths[..|paths|] == paths;
      if |paths| == 0 {
        NoPaths(pending, paths, source);
        pending := pending["" := source];
      }
    }

    /** Writes the rows of the paths in order; `persisted` is how many paths are
        dealt with before an insert fails. */
    method PersistPaths(paths: seq<Path>, source: string, persisted: nat) returns (ok: bool)
      requires persisted <= |paths| && (persisted < |paths| ==> paths[persisted] != "")
      modifies disk`rows
      ensures ok <==> persisted == |paths|
      ensures disk.rows == WithRows(old(disk.rows), paths[..persisted], source)
    {
      NoPaths(disk.rows, paths[..0], source);
      var i := 0;
      while i < |paths|
        invariant 0 <= i <= persisted
        invariant disk.rows == WithRows(old(disk.rows), paths[..i], source)
      {
        if paths[i] != "" {
          if i == persisted {
            return false;
          }
          disk.rows := disk.rows[paths[i] := source];
        }
        WithRowsStep(old(disk.rows), paths, source, i);
        i := i + 1;
      }
      ok := true;
    }

    /** A failed insert leaves the keys pending without arming the timer. */
    method Enqueue(source: string, message: string, paths: seq<Path>, persisted: nat) returns (ok: bool)
      requires persisted <= |paths| && (persisted < |paths| ==> paths[persisted] != "")
      modifies this`pending, this`timer, disk`rows
      ensures ok <==> source != "" && message != "" && !closed && persisted == |paths|
      ensures var accepted := source != "" && message != "" && !closed;
        && pending == (if accepted then WithKeys(old(pending), paths, source) else old(pending))
        && disk.rows == (if accepted then WithRows(old(disk.rows), paths[..persisted], source) else old(disk.rows))
        && timer == (old(timer) || ok)
      ensures source != "" && message != "" && !closed && paths == [] ==> "" in pending && pending[""] == source
      ensures source != "" && message != "" && !closed ==>
        forall p :: p in paths ==> p in pending && pending[p] == source
      ensures ok ==> forall p :: p in paths && p != "" ==> p in disk.rows && disk.rows[p] == source
      ensures "" in disk.rows ==> "" in old(disk.rows)
    {
      assert paths[..|paths|] == paths;
      if source == "" || message == "" || closed {
        return false;
      }
      AddKeys(paths, source);
      ok := PersistPaths(paths, source, persisted);
      if ok {
        ArmTimer();
      }
    }

    /** The files and the sources a commit message counts. */
    static method Classify(snapshot: Pending) returns (files: set<Path>, sources: set<string>)
      ensures files == snapshot.Keys - {""} && sources == snapshot.Values - {""}
    {
      VisitedEnds(snapshot);
      files, sources := {}, {};
      var todo := snapshot.Keys;
      while todo != {}
        invariant todo <= snapshot.Keys
        invariant files == Visited(snapshot, todo).Keys - {""}
        invariant sources == Visited(snapshot, todo).Values - {""}
        decreases |todo|
      {
        var path :| path in todo;
        VisitedStep(snapshot, todo, path);
        NonEmptyStep(Visited(snapshot, todo).Keys, path);
        NonEmptyStep(Visited(snapshot, todo).Values, snapshot[path]);
        if path != "" {
          files := files + {path};
        }
        if snapshot[path] != "" {
          sources := sources + {snapshot[path]};
        }
        todo := todo - {path};
      }
    }

    /** The first critical section of flush: copy entry by entry, classify, clear. */
    method TakeSnapshot() returns (snapshot: Pending, files: set<Path>, sources: set<string>)
      modifies this`pending
      ensures snapshot == old(pending) && pending == map[]
      ensures files == snapshot.Keys - {""} && sources == snapshot.Values - {""}
    {
      VisitedEnds(pending);
      snapshot := map[];
      var todo := pending.Keys;
      while todo != {}
        invariant todo <= pending.Keys
        invariant pending == old(pending) && snapshot == Visited(pending, todo)
        decreases |todo|
      {
        var path :| path in todo;
        VisitedStep(pending, todo, path);
        snapshot := snapshot[path := pending[path]];
        todo := todo - {path};
      }
      files, sources := Classify(snapshot);
      pending := map[];
    }

    method ArmTimer()
      modifies this`timer
      ensures timer == (old(timer) || !closed)
    {
      if closed {
        return;
      }
      timer := true;
    }

    /** Gives a failed flush its snapshot back, keeping newer entries. */
    method RestorePending(snapshot: Pending)
      modifies this`pending, this`timer
      ensures pending == Merged(old(pending), snapshot)
      ensures timer == (old(timer) || (pending != map[] && !closed))
      ensures forall k :: k in old(pending) ==> k in pending && pending[k] == old(pending)[k]
      ensures forall k :: k in snapshot && k !in old(pending) ==> k in pending && pending[k] == snapshot[k]
    {
      VisitedEnds(snapshot);
      VisitedEnds(pending);
      var todo := snapshot.Keys;
      while todo != {}
        invariant todo <= snapshot.Keys
        invariant pending == Merged(old(pending), Visited(snapshot, todo))
        modifies this`pending
        decreases |todo|
      {
        var path :| path in todo;
        MergedStep(old(pending), snapshot, todo, path);
        if path !in pending {
          pending := pending[path := snapshot[path]];
        }
        todo := todo - {path};
      }
      if pending != map[] {
        ArmTimer();
      }
    }

    /** One flush from beginning to end with nobody in between. */
    method Flush(a: Attempt, clearWorks: bool) returns (ok: bool)
      requires ValidRepo(disk.repo)
      modifies this`pending, this`timer, this`lastErr, disk
      ensures var (repo', committed) := AddAndCommit(old(disk.repo), a);
        && disk.repo == repo'
        && disk.rows == (if committed && clearWorks then map[] else old(disk.rows))
        && pending == (if committed then map[] else old(pending))
        && timer == (old(timer) || (!committed && pending != map[] && !closed))
        && ok == (committed && clearWorks)
      ensures lastErr == !ok
      ensures ok <==> GoesThrough(old(disk.repo), a) && clearWorks
      ensures ok ==> Head(disk.repo) == Replay(disk.repo.log) && disk.rows == map[] && pending == map[]
    {
      AddAndCommitExact(disk.repo, a);
      AddAndCommitEffect(disk.repo, a);
      var snapshot, files, sources := TakeSnapshot();
      var (repo', committed) := AddAndCommit(disk.repo, a);
      disk.repo := repo';
      if !committed {
        RestorePending(snapshot);
        lastErr := true;
        return false;
      }
      if !clearWorks {
        lastErr := true;
        return false;
      }
      disk.rows := map[];
      lastErr := false;
      return true;
    }

    /** Closing stops the timer for good and flushes what is pending. */
    method Close(a: Attempt, clearWorks: bool) returns (ok: bool)
      requires ValidRepo(disk.repo)
      modifies this, disk
      ensures closed && !timer
      ensures var (repo', committed) := AddAndCommit(old(disk.repo), a);
        && disk.repo == repo'
        && disk.rows == (if committed && clearWorks then map[] else old(disk.rows))
        && pending == (if committed then map[] else old(pending))
        && ok == (committed && clearWorks)
      ensures lastErr == !ok
      ensures ok <==> GoesThrough(old(disk.repo), a) && clearWorks
      ensures ok ==> Head(disk.repo) == Replay(disk.repo.log) && disk.rows == map[] && pending == map[]
    {
      closed := true;
      timer := false;
      ok := Flush(a, clearWorks);
    }

    /** Loads the persisted rows and flushes them; nothing persisted, nothing done. */
    method ReplayPending(queryWorks: bool, a: Attempt, clearWorks: bool) returns (ok: bool)
      requires ValidRepo(disk.repo)
      modifies this`pending, this`timer, this`lastErr, disk
      ensures var o := Replayed(old(disk.repo), old(disk.rows), queryWorks, a, clearWorks);
        disk.repo == o.repo && disk.rows == o.rows && ok == o.ok
      ensures !queryWorks || old(disk.rows) == map[] ==>
        pending == old(pending) && timer == old(timer) && lastErr == old(lastErr)
      ensures queryWorks && old(disk.rows) != map[] ==>
        var loaded, committed := WithReplayed(old(pending), old(disk.rows)), AddAndCommit(old(disk.repo), a).1;
        && pending == (if committed then map[] else loaded)
        && timer == (old(timer) || (!committed && loaded != map[] && !closed))
        && lastErr == !ok
      ensures queryWorks && !GoesThrough(old(disk.repo), a) ==>
        forall p :: p in old(disk.rows) && p != "" ==> p in pending && pending[p] == old(disk.rows)[p]
      ensures ok <==> queryWorks && (old(disk.rows) == map[] || (GoesThrough(old(disk.repo), a) && clearWorks))
    {
      if !queryWorks {
        return false;
      }
      if disk.rows == map[] {
        return true;
      }
      pending := WithReplayed(pending, disk.rows);
      ok := Flush(a, clearWorks);
    }
  }

  datatype Outcome = Outcome(repo: Repo, rows: Pending, ok: bool)

  /** What `ReplayPending` leaves on disk. */
  function Replayed(r: Repo, rows: Pending, queryWorks: bool, a: Attempt, clearWorks: bool): Outcome
    requires ValidRepo(r)
  {
    if !queryWorks then Outcome(r, rows, false)
    else if rows == map[] then Outcome(r, rows, true)
    else
      var (r', committed) := AddAndCommit(r, a);
      if committed && clearWorks then Outcome(r', map[], true)
      else Outcome(r', rows, false)
  }
}
