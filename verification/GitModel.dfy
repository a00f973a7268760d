/** What git and the vault directory do, as far as the commit queue can observe.

    The working tree is not stored: it is the result of replaying every file
    write so far, in order.  That makes "how recent is this tree?" a question
    with a precise answer: a tree is fresh from position `at` when, path by
    path, its content is the one the path had at some moment not before `at`. */
module GitModel {
  import opened Basics

  type Path = string
  type Content = string
  type Tree = map<Path, Content>

  /** One change of the vault directory; `None` removes the path. */
  datatype Write = Write(path: Path, content: Option<Content>)

  function Look(t: Tree, p: Path): Option<Content> {
    if p in t then Some(t[p]) else None
  }

  function Put(t: Tree, p: Path, c: Option<Content>): Tree {
    match c
    case Some(v) => t[p := v]
    case None => map q | q in t && q != p :: t[q]
  }

  /** The working tree after the writes of `log`. */
  function Replay(log: seq<Write>): Tree {
    if log == [] then map[]
    else
      var w := log[|log| - 1];
      Put(Replay(log[..|log| - 1]), w.path, w.content)
  }

  /** A path has the content of the last write to it, and none before the first. */
  lemma {:induction false} LastWriteCounts(log: seq<Write>, i: nat, p: Path)
    requires i <= |log| && forall j :: i <= j < |log| ==> log[j].path != p
    requires i == 0 || log[i - 1].path == p
    ensures Look(Replay(log), p) == if i == 0 then None else log[i - 1].content
    decreases |log|
  {
    if i < |log| {
      LastWriteCounts(log[..|log| - 1], i, p);
    }
  }

  /** The content of `p` after the first `n` writes. */
  function At(log: seq<Write>, n: nat, p: Path): Option<Content>
    requires n <= |log|
  {
    Look(Replay(log[..n]), p)
  }

  /** `t` holds for `p` a content that `p` had at some moment from `since` on. */
  ghost predicate Recent(t: Tree, log: seq<Write>, since: nat, p: Path) {
    exists n: nat :: since <= n <= |log| && At(log, n, p) == Look(t, p)
  }

  ghost predicate Fresh(t: Tree, log: seq<Write>, since: nat) {
    forall p: Path :: Recent(t, log, since, p)
  }

  /** Some tree of the commit history is fresh from `since`. */
  ghost predicate Committed(history: seq<Tree>, log: seq<Write>, since: nat) {
    exists c :: 0 <= c < |history| && Fresh(history[c], log, since)
  }

  lemma {:induction false} WorktreeIsFresh(log: seq<Write>, since: nat)
    requires since <= |log|
    ensures Fresh(Replay(log), log, since)
  {
    assert log[..|log|] == log;
    forall p: Path ensures Recent(Replay(log), log, since, p) {
      assert At(log, |log|, p) == Look(Replay(log), p);
    }
  }

  /** Freshness survives later writes and holds from any earlier position. */
  lemma FreshLater(t: Tree, log: seq<Write>, more: seq<Write>, since: nat, earlier: nat)
    requires Fresh(t, log, since) && earlier <= since
    ensures Fresh(t, log + more, earlier)
  {
    forall p: Path ensures Recent(t, log + more, earlier, p) {
      assert Recent(t, log, since, p);
      var n: nat :| since <= n <= |log| && At(log, n, p) == Look(t, p);
      assert (log + more)[..n] == log[..n];
      assert At(log + more, n, p) == Look(t, p);
    }
  }

  lemma CommittedLater(history: seq<Tree>, moreTrees: seq<Tree>, log: seq<Write>, more: seq<Write>, since: nat)
    requires Committed(history, log, since)
    ensures Committed(history + moreTrees, log + more, since)
  {
    var c :| 0 <= c < |history| && Fresh(history[c], log, since);
    FreshLater(history[c], log, more, since, since);
    assert (history + moreTrees)[c] == history[c];
  }

  /** Checking one file out of a commit writes it and stages it, so a staged
      tree that was fresh stays fresh. */
  lemma FreshAfterCheckout(t: Tree, log: seq<Write>, w: Write, since: nat)
    requires Fresh(t, log, since) && since <= |log|
    ensures Fresh(Put(t, w.path, w.content), log + [w], since)
  {
    var t', log' := Put(t, w.path, w.content), log + [w];
    FreshLater(t, log, [w], since, since);
    WorktreeIsFresh(log', |log'|);
    assert log'[..|log|] == log;
    forall p: Path ensures Recent(t', log', since, p) {
      if p == w.path {
        assert log'[..|log'|] == log';
        assert At(log', |log'|, p) == Look(t', p);
      } else {
        assert Recent(t, log', since, p);
        assert Look(t', p) == Look(t, p);
      }
    }
  }

  /** When nothing wrote `p` after `at`, a tree fresh from `at` holds exactly
      the content `p` had at `at`. */
  lemma {:induction false} FreshIsExact(t: Tree, log: seq<Write>, at: nat, p: Path)
    requires Fresh(t, log, at) && at <= |log|
    requires forall i :: at <= i < |log| ==> log[i].path != p
    ensures Look(t, p) == At(log, at, p)
  {
    assert Recent(t, log, at, p);
    var n: nat :| at <= n <= |log| && At(log, n, p) == Look(t, p);
    Untouched(log, at, n, p);
  }

  lemma {:induction false} Untouched(log: seq<Write>, at: nat, n: nat, p: Path)
    requires at <= n <= |log|
    requires forall i :: at <= i < n ==> log[i].path != p
    ensures At(log, n, p) == At(log, at, p)
    decreases n
  {
    if at < n {
      Untouched(log, at, n - 1, p);
      assert log[..n][..n - 1] == log[..n - 1];
    }
  }

  // ---------------------------------------------------------------- git itself

  /** The working tree (as its writes), the staged tree, and the commits; the
      first entry of `history` is the empty tree of an unborn branch. */
  datatype Repo = Repo(log: seq<Write>, index: Tree, history: seq<Tree>)

  predicate ValidRepo(r: Repo) {
    |r.history| > 0
  }

  function Head(r: Repo): Tree
    requires ValidRepo(r)
  {
    r.history[|r.history| - 1]
  }

  /** Is `git status --porcelain` empty? */
  predicate StatusClean(r: Repo)
    requires ValidRepo(r)
  {
    Replay(r.log) == r.index && r.index == Head(r)
  }

  /** How one `add -A` followed by one commit goes.  A failed add leaves any
      staged tree; a failed commit may still have landed. */
  datatype Attempt = Works | AddFails(junk: Tree) | StatusFails | CommitFails(landed: bool)

  function AddAll(r: Repo): Repo {
    r.(index := Replay(r.log))
  }

  /** An add that got as far as the paths `done`. */
  function AddSome(r: Repo, done: set<Path>): Repo {
    var work := Replay(r.log);
    r.(index := map p | p in r.index.Keys + work.Keys && (if p in done then p in work else p in r.index)
                      :: if p in done then work[p] else r.index[p])
  }

  lemma FreshAfterAddSome(r: Repo, done: set<Path>, since: nat)
    requires since <= |r.log| && Fresh(r.index, r.log, since)
    ensures Fresh(AddSome(r, done).index, r.log, since)
  {
    WorktreeIsFresh(r.log, since);
    var work, staged := Replay(r.log), AddSome(r, done).index;
    forall p: Path ensures Recent(staged, r.log, since, p) {
      assert Look(staged, p) == if p in done then Look(work, p) else Look(r.index, p);
      assert Recent(work, r.log, since, p) && Recent(r.index, r.log, since, p);
    }
  }

  /** `git commit` with a non-empty status: it refuses when nothing is staged. */
  function RunCommit(r: Repo, works: bool, landed: bool): (res: (Repo, bool))
    requires ValidRepo(r)
  {
    if r.index == Head(r) then (r, false)
    else (if works || landed then r.(history := r.history + [r.index]) else r, works)
  }

  /** The commit succeeds exactly if something is staged and git works, and then, or
      when it has landed all the same, what is staged is the new head. */
  lemma CommitExact(r: Repo, works: bool, landed: bool)
    requires ValidRepo(r)
    ensures RunCommit(r, works, landed).1 <==> works && r.index != Head(r)
    ensures RunCommit(r, works, landed).0 ==
      if r.index != Head(r) && (works || landed) then Repo(r.log, r.index, r.history + [r.index]) else r
  {
  }

  /** `Client.Add` and `Client.Commit` with no writer in between. */
  function AddAndCommit(r: Repo, a: Attempt): (Repo, bool)
    requires ValidRepo(r)
  {
    if a.AddFails? then (r.(index := a.junk), false)
    else
      var staged := AddAll(r);
      if a.StatusFails? then (staged, false)
      else if StatusClean(staged) then (staged, true)
      else RunCommit(staged, a.Works?, a.CommitFails? && a.landed)
  }

  /** However it goes, the only commit that can appear is the working tree, and
      only when the head differs from it; success means the head is the working tree. */
  lemma AddAndCommitEffect(r: Repo, a: Attempt)
    requires ValidRepo(r)
    ensures var (r', ok) := AddAndCommit(r, a);
            && ValidRepo(r') && r'.log == r.log
            && (r'.history == r.history
                || (Head(r) != Replay(r.log) && r'.history == r.history + [Replay(r.log)]))
            && (ok ==> Head(r') == Replay(r.log) && r'.index == Replay(r.log))
  {
  }

  /** Git goes through with everything that is left to do: with the commit, or with
      everything before it when there is nothing to commit. */
  predicate GoesThrough(r: Repo, a: Attempt)
    requires ValidRepo(r)
  {
    a.Works? || (a.CommitFails? && Head(r) == Replay(r.log))
  }

  /** Exactly when add and commit succeed, when the history grows, and by what. */
  lemma AddAndCommitExact(r: Repo, a: Attempt)
    requires ValidRepo(r)
    ensures var (r', ok) := AddAndCommit(r, a); var work := Replay(r.log);
      && (ok <==> a.Works? || (a.CommitFails? && Head(r) == work))
      && (r'.history == if Head(r) != work && (a.Works? || (a.CommitFails? && a.landed)) then r.history + [work] else r.history)
      && r'.index == (if a.AddFails? then a.junk else work) && r'.log == r.log
  {
  }

  /** An empty status means the head is the working tree. */
  lemma CleanIsCommitted(r: Repo, since: nat)
    requires ValidRepo(r) && StatusClean(r) && since <= |r.log|
    ensures Committed(r.history, r.log, since)
  {
    WorktreeIsFresh(r.log, since);
    assert Fresh(r.history[|r.history| - 1], r.log, since);
  }

  /** A successful commit takes what is staged into the history. */
  lemma CommitLands(r: Repo, works: bool, landed: bool, since: nat, at: nat)
    requires ValidRepo(r) && Fresh(r.index, r.log, since) && at <= since
    ensures var (r', ok) := RunCommit(r, works, landed); ok ==> Committed(r'.history, r'.log, at)
  {
    var (r', ok) := RunCommit(r, works, landed);
    if ok {
      FreshLater(r.index, r.log, [], since, at);
      assert r.log + [] == r.log;
      assert Fresh(r'.history[|r'.history| - 1], r'.log, at);
    }
  }

  lemma CommitKeeps(r: Repo, works: bool, landed: bool, at: nat)
    requires ValidRepo(r) && Committed(r.history, r.log, at)
    ensures var r' := RunCommit(r, works, landed).0; Committed(r'.history, r'.log, at)
  {
    CommittedLater(r.history, [r.index], r.log, [], at);
    assert r.log + [] == r.log;
  }
}
