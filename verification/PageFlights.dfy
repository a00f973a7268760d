/** Overlapping requests and the page index.

    A request changes the file under its lock, gives the lock back and only then
    brings the index up to date, statement by statement.  Here every file
    operation, file read and transaction is one step, and any number of requests
    interleave. */
module PageFlights {
  import opened Basics
  import opened PageIndex
  import opened PageSync

  /** What a request still has to do once its file operation is over. */
  datatype Phase =
    | Reading(k: Key)                           // the update reads the file
    | Checking(k: Key, content: string)         // asks for the page of these bytes
    | Storing(k: Key, meta: Meta, hash: string)
    | Forgetting(k: Key)
    | Fetching(k: Key, to: Key)                 // renamed, asks for the old page
    | Moving(k: Key, to: Key, row: Row)         // deletes the old page, then stores it

  datatype System = System(st: State, flights: map<nat, Phase>)

  datatype Action =
    | WriteFile(id: nat, k: Key, content: string)
    | RemoveFile(id: nat, k: Key)
    | RenameFile(id: nat, k: Key, to: Key)
    | Reindex(id: nat, k: Key)
    | Aside(k: Key, left: Option<string>)       // a change no update follows: WebDAV, git, an error
    | Proceed(id: nat, failing: Failing, newId: nat)

  predicate CanRename(files: map<Key, string>, from: Key, to: Key) {
    from.slug == to.slug && !Exists(files, to) && !AtOrBelow(from, to)
  }

  predicate Enabled(s: System, a: Action) {
    match a
    case WriteFile(id, _, _) => id !in s.flights
    case RemoveFile(id, _) => id !in s.flights
    case RenameFile(id, from, to) => id !in s.flights && CanRename(s.st.files, from, to)
    case Reindex(id, _) => id !in s.flights
    case Aside(_, _) => true
    case Proceed(id, _, _) => id in s.flights
  }

  function FilesAfter(files: map<Key, string>, a: Action): map<Key, string>
    requires a.RenameFile? ==> CanRename(files, a.k, a.to)
  {
    match a
    case WriteFile(_, k, content) => files[k := content]
    case RemoveFile(_, k) => Removed(files, k)
    case RenameFile(_, from, to) => MovedFiles(files, from, to)
    case Aside(k, left) => if left.Some? then files[k := left.value] else files - {k}
    case _ => files
  }

  function First(a: Action): Phase
    requires !a.Aside? && !a.Proceed?
  {
    match a
    case WriteFile(_, k, _) => Reading(k)
    case RemoveFile(_, k) => Forgetting(k)
    case RenameFile(_, from, to) => Fetching(from, to)
    case Reindex(_, k) => Reading(k)
  }

  /** What the step of a request does to the tables. */
  function TablesAfter(t: Tables, ph: Phase, failing: Failing, newId: nat): Tables {
    match ph
    case Storing(k, meta, hash) => if UpsertGoes(t, k, newId, failing) then Upserted(t, k, meta, hash, newId) else t
    case Forgetting(k) => if DeleteGoes(t, k, failing) then Deleted(t, k) else t
    case Moving(k, _, _) => if DeleteGoes(t, k, failing) then Deleted(t, k) else t
    case _ => t
  }

  /** What it has to do next, if anything. */
  function Next(p: Parser, s: State, ph: Phase, failing: Failing): Option<Phase> {
    match ph
    case Reading(k) => if failing != 0 || k !in s.files then None else Some(Checking(k, s.files[k]))
    case Checking(k, c) =>
      if !p.utf8(c) then Some(Forgetting(k))
      else if Named(k) && failing == 0 && k in s.tables.pages && s.tables.pages[k].hash == p.hash(c) then None
      else Some(Storing(k, p.parse(c), p.hash(c)))
    case Fetching(from, to) =>
      if !Named(from) || failing != 0 || from !in s.tables.pages then None
      else Some(Moving(from, to, s.tables.pages[from]))
    case Moving(from, to, row) =>
      if DeleteGoes(s.tables, from, failing) then Some(Storing(to, row.meta, row.hash)) else None
    case _ => None
  }

  function Apply(p: Parser, s: System, a: Action): System
    requires Enabled(s, a)
  {
    match a
    case Aside(_, _) => s.(st := s.st.(files := FilesAfter(s.st.files, a)))
    case Proceed(id, failing, newId) =>
      var ph := s.flights[id];
      var next := Next(p, s.st, ph, failing);
      System(s.st.(tables := TablesAfter(s.st.tables, ph, failing, newId)),
             if next.Some? then s.flights[id := next.value] else s.flights - {id})
    case _ => System(s.st.(files := FilesAfter(s.st.files, a)), s.flights[a.id := First(a)])
  }

  ghost predicate Run(p: Parser, tr: seq<System>, acts: seq<Action>) {
    && |tr| == |acts| + 1
    && forall i :: 0 <= i < |acts| ==> Enabled(tr[i], acts[i]) && tr[i + 1] == Apply(p, tr[i], acts[i])
  }

  // ------------------------------------------------------------ what always holds

  ghost predicate HonestPhase(p: Parser, ph: Phase) {
    match ph
    case Storing(_, meta, hash) => IsPage(p, Row(0, meta, hash))
    case Moving(_, _, row) => IsPage(p, row)
    case _ => true
  }

  ghost predicate SoundSystem(p: Parser, s: System) {
    Sound(p, s.st.tables) && forall id :: id in s.flights ==> HonestPhase(p, s.flights[id])
  }

  lemma PageIsPage(p: Parser, a: Row, b: Row)
    requires IsPage(p, a) && a.meta == b.meta && a.hash == b.hash
    ensures IsPage(p, b)
  {
    var c :| p.utf8(c) && a.meta == p.parse(c) && a.hash == p.hash(c);
    assert p.utf8(c) && b.meta == p.parse(c) && b.hash == p.hash(c);
  }

  lemma NextHonest(p: Parser, s: State, ph: Phase, failing: Failing)
    requires Honest(p, s.tables) && HonestPhase(p, ph) && Next(p, s, ph, failing).Some?
    ensures HonestPhase(p, Next(p, s, ph, failing).value)
  {
    match ph
    case Checking(k, c) =>
      if p.utf8(c) {
        var row := Row(0, p.parse(c), p.hash(c));
        assert p.utf8(c) && row.meta == p.parse(c) && row.hash == p.hash(c);
      }
    case Moving(_, _, row) => PageIsPage(p, row, Row(0, row.meta, row.hash));
    case _ =>
  }

  lemma TablesSound(p: Parser, t: Tables, ph: Phase, failing: Failing, newId: nat)
    requires Sound(p, t) && HonestPhase(p, ph)
    ensures Sound(p, TablesAfter(t, ph, failing, newId))
  {
    match ph
    case Storing(k, meta, hash) =>
      if UpsertGoes(t, k, newId, failing) {
        UpsertSound(p, t, k, Row(0, meta, hash), Faults(false, 0, 0, failing, newId));
      }
    case Forgetting(k) => DeleteKeepsMirror(t, k);
    case Moving(k, _, _) => DeleteKeepsMirror(t, k);
    case _ =>
  }

  lemma SoundStep(p: Parser, s: System, a: Action)
    requires SoundSystem(p, s) && Enabled(s, a)
    ensures SoundSystem(p, Apply(p, s, a))
  {
    if a.Proceed? {
      var ph := s.flights[a.id];
      TablesSound(p, s.st.tables, ph, a.failing, a.newId);
      if Next(p, s.st, ph, a.failing).Some? {
        NextHonest(p, s.st, ph, a.failing);
      }
    }
  }

  /** However requests overlap and whatever fails, the two tables mirror each
      other and every row is one text's page and hash. */
  lemma {:induction false} SoundAlways(p: Parser, tr: seq<System>, acts: seq<Action>, n: nat)
    requires Run(p, tr, acts) && SoundSystem(p, tr[0]) && n < |tr|
    ensures SoundSystem(p, tr[n])
    decreases n
  {
    if n > 0 {
      SoundAlways(p, tr, acts, n - 1);
      SoundStep(p, tr[n - 1], acts[n - 1]);
    }
  }

  // ------------------------------------------------------------ what keeps the index in agreement

  /** The request holds what it once saw of the path. */
  predicate Uses(ph: Phase, k: Key) {
    match ph
    case Reading(_) => false
    case Fetching(from, to) => k == from || k == to
    case Moving(from, to, _) => k == from || k == to
    case _ => ph.k == k
  }

  predicate On(ph: Phase, k: Key) {
    Uses(ph, k) || ph == Reading(k)
  }

  predicate IsMove(ph: Phase) {
    ph.Fetching? || ph.Moving?
  }

  predicate TextAt(p: Parser, s: State, k: Key) {
    k in s.files && p.utf8(s.files[k])
  }

  /** `row` is the page of the file at `k`. */
  predicate RowOf(p: Parser, s: State, row: Row, k: Key) {
    TextAt(p, s, k) && row.meta == p.parse(s.files[k]) && row.hash == p.hash(s.files[k])
  }

  /** What the request holds is still so. */
  predicate UpToDate(p: Parser, s: State, ph: Phase) {
    match ph
    case Reading(_) => true
    case Checking(k, c) => k in s.files && s.files[k] == c
    case Storing(k, meta, hash) => RowOf(p, s, Row(0, meta, hash), k)
    case Forgetting(k) => !TextAt(p, s, k)
    case Fetching(from, to) =>
      && from != to && from !in s.files
      && (from in s.tables.pages <==> TextAt(p, s, to))
      && (from in s.tables.pages ==> RowOf(p, s, s.tables.pages[from], to))
      && (to in s.tables.pages ==> RowOf(p, s, s.tables.pages[to], to))
    case Moving(from, to, row) => from != to && from !in s.files && RowOf(p, s, row, to)
  }

  /** The request will bring the path into agreement. */
  predicate Owes(s: State, ph: Phase, k: Key) {
    if ph.Reading? then ph.k == k && k in s.files else Uses(ph, k)
  }

  ghost predicate Owed(s: System, k: Key) {
    exists id :: id in s.flights && Owes(s.st, s.flights[id], k)
  }

  /** For each of the given paths the index agrees, or a request still sees to it. */
  ghost predicate Agreeing(p: Parser, s: System, paths: Key -> bool) {
    forall k :: paths(k) ==> SyncedAt(p, s.st, k) || Owed(s, k)
  }

  ghost predicate Current(p: Parser, s: System, paths: Key -> bool) {
    forall id :: id in s.flights && paths(s.flights[id].k) ==> UpToDate(p, s.st, s.flights[id])
  }

  /** No other request holds anything of a path that a request renames away. */
  ghost predicate MovesApart(s: System, paths: Key -> bool) {
    && (forall id :: id in s.flights && IsMove(s.flights[id]) ==> (paths(s.flights[id].k) <==> paths(s.flights[id].to)))
    && forall i, j :: i in s.flights && j in s.flights && i != j && IsMove(s.flights[i]) && paths(s.flights[i].k) ==>
         !Uses(s.flights[j], s.flights[i].k)
  }

  ghost predicate Inv(p: Parser, s: System, paths: Key -> bool) {
    Agreeing(p, s, paths) && Current(p, s, paths) && MovesApart(s, paths)
  }

  ghost predicate NobodyUses(s: System, k: Key) {
    forall id :: id in s.flights ==> !Uses(s.flights[id], k)
  }

  ghost predicate NobodyOn(s: System, k: Key) {
    forall id :: id in s.flights ==> !On(s.flights[id], k)
  }

  /** The given paths a rename touches. */
  predicate Renames(a: Action, k: Key) {
    a.RenameFile? && (AtOrBelow(a.k, k) || AtOrBelow(a.to, k))
  }

  /** A rename stays clear of requests on its paths and takes no directory of text files along. */
  ghost predicate CalmRename(p: Parser, s: System, a: Action, paths: Key -> bool)
    requires a.RenameFile?
  {
    (exists k :: paths(k) && Renames(a, k)) ==>
      && paths(a.k) && paths(a.to)
      && (forall k :: Renames(a, k) ==> NobodyUses(s, k))
      && (forall k :: AtOrBelow(a.k, k) ==> NobodyOn(s, k))
      && (forall k :: Below(a.k, k) ==> !TextAt(p, s.st, k))
      && (forall k :: Below(a.k, k) ==> paths(k))
  }

  /** The step respects the given paths: no file changes while a request holds
      what it saw of it, and no statement of a request on them fails. */
  ghost predicate Calm(p: Parser, s: System, a: Action, paths: Key -> bool)
    requires Enabled(s, a)
  {
    match a
    case WriteFile(_, k, _) => paths(k) ==> NobodyUses(s, k)
    case RemoveFile(_, d) =>
      forall k :: paths(k) && AtOrBelow(d, k) ==> NobodyUses(s, k) && (k != d ==> NobodyOn(s, k) && !TextAt(p, s.st, k))
    case RenameFile(_, _, _) => CalmRename(p, s, a, paths)
    case Reindex(_, _) => true
    case Aside(k, _) => !paths(k)
    case Proceed(id, failing, newId) =>
      var ph := s.flights[id];
      paths(ph.k) || (IsMove(ph) && paths(ph.to)) ==>
        failing == 0 && Named(ph.k) && !Used(s.st.tables.pages, newId)
  }

  // ------------------------------------------------------------ a request begins

  lemma UpToDateSame(p: Parser, a: State, b: State, ph: Phase)
    requires forall k :: Uses(ph, k) ==> SameAt(a, b, k)
    ensures UpToDate(p, a, ph) <==> UpToDate(p, b, ph)
  {
    if !ph.Reading? {
      assert Uses(ph, ph.k);
      assert IsMove(ph) ==> Uses(ph, ph.to);
    }
  }

  /** A path at which nothing changes keeps its agreement, or who sees to it. */
  lemma AgreementKept(p: Parser, s: System, s': System, k: Key)
    requires SyncedAt(p, s.st, k) || Owed(s, k)
    requires SameAt(s.st, s'.st, k)
    requires forall id :: id in s.flights && Owes(s.st, s.flights[id], k) ==> id in s'.flights && s'.flights[id] == s.flights[id]
    ensures SyncedAt(p, s'.st, k) || Owed(s', k)
  {
    if !SyncedAt(p, s.st, k) {
      var id :| id in s.flights && Owes(s.st, s.flights[id], k);
      assert Owes(s'.st, s'.flights[id], k);
    }
  }

  /** Which files a step leaves alone. */
  lemma FileElsewhere(s: System, a: Action, k: Key)
    requires Enabled(s, a) && !a.Proceed? && (a.Aside? || a.WriteFile? ==> k != a.k)
    requires (a.RemoveFile? ==> !AtOrBelow(a.k, k)) && !Renames(a, k)
    ensures var st := s.st.(files := FilesAfter(s.st.files, a)); SameAt(s.st, st, k)
  {
    if a.RenameFile? {
      MovedAt(s.st.files, a.k, a.to, k);
    }
  }

  /** A calm beginning changes no file of which a request holds something. */
  lemma UsedFilesStay(p: Parser, s: System, a: Action, paths: Key -> bool, id: nat, k: Key)
    requires Enabled(s, a) && !a.Proceed? && Calm(p, s, a, paths) && MovesApart(s, paths)
    requires id in s.flights && paths(s.flights[id].k) && Uses(s.flights[id], k)
    ensures SameAt(s.st, Apply(p, s, a).st, k)
  {
    assert paths(k);
    assert Renames(a, k) ==> NobodyUses(s, k);
    FileElsewhere(s, a, k);
  }

  lemma CurrentBegin(p: Parser, s: System, a: Action, paths: Key -> bool)
    requires Enabled(s, a) && !a.Proceed? && Calm(p, s, a, paths) && Inv(p, s, paths)
    ensures Current(p, Apply(p, s, a), paths)
  {
    var s' := Apply(p, s, a);
    forall id | id in s'.flights && paths(s'.flights[id].k) ensures UpToDate(p, s'.st, s'.flights[id]) {
      if id in s.flights {
        var ph := s.flights[id];
        forall k | Uses(ph, k) ensures SameAt(s.st, s'.st, k) {
          UsedFilesStay(p, s, a, paths, id, k);
        }
        UpToDateSame(p, s.st, s'.st, ph);
      } else if a.RenameFile? {
        FetchingUpToDate(p, s, a, paths);
      }
    }
  }

  lemma FetchingUpToDate(p: Parser, s: System, a: Action, paths: Key -> bool)
    requires Enabled(s, a) && a.RenameFile? && Calm(p, s, a, paths) && Inv(p, s, paths) && paths(a.k)
    ensures UpToDate(p, Apply(p, s, a).st, Fetching(a.k, a.to))
  {
    assert Renames(a, a.k) && Renames(a, a.to);
    assert paths(a.to) && NobodyUses(s, a.to) && NobodyOn(s, a.k);
    NotOwed(s, a.k);
    MovedAt(s.st.files, a.k, a.to, a.k);
    MovedAt(s.st.files, a.k, a.to, a.to);
    assert Renamed(a.to, a.k, a.to) == a.k;
    assert a.to !in s.st.files;
    NobodyOwes(s, a.to);
    assert SyncedAt(p, s.st, a.k) && SyncedAt(p, s.st, a.to);
  }

  lemma NotOwed(s: System, k: Key)
    requires NobodyOn(s, k)
    ensures !Owed(s, k)
  {
  }

  lemma NobodyOwes(s: System, k: Key)
    requires NobodyUses(s, k) && k !in s.st.files
    ensures !Owed(s, k)
  {
  }

  lemma AgreeingBegin(p: Parser, s: System, a: Action, paths: Key -> bool)
    requires Enabled(s, a) && !a.Proceed? && Calm(p, s, a, paths) && Inv(p, s, paths)
    ensures Agreeing(p, Apply(p, s, a), paths)
  {
    var s' := Apply(p, s, a);
    forall k | paths(k) ensures SyncedAt(p, s'.st, k) || Owed(s', k) {
      if !a.Aside? && Owes(s'.st, First(a), k) {
        assert s'.flights[a.id] == First(a);
      } else if a.RemoveFile? && AtOrBelow(a.k, k) {
        NotOwed(s, k);
        assert SyncedAt(p, s.st, k);
      } else if Renames(a, k) {
        RenamedAgrees(p, s, a, paths, k);
      } else {
        FileElsewhere(s, a, k);
        AgreementKept(p, s, s', k);
      }
    }
  }

  /** Below a renamed directory, and below its new name, there are no pages. */
  lemma RenamedAgrees(p: Parser, s: System, a: Action, paths: Key -> bool, k: Key)
    requires Enabled(s, a) && a.RenameFile? && Calm(p, s, a, paths) && Inv(p, s, paths)
    requires paths(k) && Renames(a, k) && k != a.k && k != a.to
    ensures SyncedAt(p, Apply(p, s, a).st, k)
  {
    MovedAt(s.st.files, a.k, a.to, k);
    if AtOrBelow(a.k, k) {
      NotOwed(s, k);
      assert SyncedAt(p, s.st, k);
    } else {
      SourceBelow(a.k, a.to, k);
      assert k !in s.st.files && NobodyUses(s, k);
      NobodyOwes(s, k);
      assert SyncedAt(p, s.st, k);
    }
  }

  lemma ApartBegin(p: Parser, s: System, a: Action, paths: Key -> bool)
    requires Enabled(s, a) && !a.Proceed? && Calm(p, s, a, paths) && Inv(p, s, paths)
    ensures MovesApart(Apply(p, s, a), paths)
  {
    if a.RenameFile? {
      assert Renames(a, a.k) && Renames(a, a.to);
    }
    var s' := Apply(p, s, a);
    forall i, j | i in s'.flights && j in s'.flights && i != j && IsMove(s'.flights[i]) && paths(s'.flights[i].k)
      ensures !Uses(s'.flights[j], s'.flights[i].k)
    {
      if !a.Aside? && i == a.id {
        assert NobodyUses(s, a.k);
      } else if !a.Aside? && j == a.id {
        assert Uses(s.flights[i], s.flights[i].k);
        assert Uses(First(a), s.flights[i].k) ==> NobodyUses(s, s.flights[i].k);
      }
    }
  }

  // ------------------------------------------------------------ a request goes on

  /** The only path whose page a step may change. */
  lemma TablesElsewhere(t: Tables, ph: Phase, failing: Failing, newId: nat, j: Key)
    requires j != ph.k
    ensures var t' := TablesAfter(t, ph, failing, newId);
      (j in t.pages <==> j in t'.pages) && (j in t.pages && j in t'.pages ==> t.pages[j] == t'.pages[j])
  {
  }

  /** A faultless step of an up-to-date request leaves it up to date, or its
      path in agreement. */
  lemma PhaseGoesOn(p: Parser, s: State, ph: Phase, newId: nat)
    requires HashTellsPages(p) && Honest(p, s.tables) && UpToDate(p, s, ph)
    requires Named(ph.k) && !Used(s.tables.pages, newId)
    ensures var s', next := s.(tables := TablesAfter(s.tables, ph, 0, newId)), Next(p, s, ph, 0);
      && (next.Some? ==> UpToDate(p, s', next.value))
      && (ph.Reading? && ph.k in s.files ==> next.Some? && Uses(next.value, ph.k))
      && (!ph.Reading? ==> SyncedAt(p, s', ph.k) || (next.Some? && Uses(next.value, ph.k)))
      && (IsMove(ph) ==> SyncedAt(p, s', ph.to) || (next.Some? && Uses(next.value, ph.to)))
  {
    match ph
    case Checking(k, c) =>
      if k in s.tables.pages && p.utf8(c) {
        assert IsPage(p, s.tables.pages[k]);
        var w :| p.utf8(w) && s.tables.pages[k].meta == p.parse(w) && s.tables.pages[k].hash == p.hash(w);
        assert p.hash(w) == p.hash(c) ==> p.parse(w) == p.parse(c);
      }
    case _ =>
  }

  /** It leaves every other request up to date as well. */
  lemma OthersStayUpToDate(p: Parser, s: State, ph: Phase, newId: nat, other: Phase)
    requires UpToDate(p, s, ph) && UpToDate(p, s, other) && !Used(s.tables.pages, newId)
    requires IsMove(ph) ==> !Uses(other, ph.k)
    requires IsMove(other) ==> !Uses(ph, other.k)
    ensures UpToDate(p, s.(tables := TablesAfter(s.tables, ph, 0, newId)), other)
  {
    if other.Fetching? && !ph.Reading? {
      assert Uses(ph, ph.k) && ph.k != other.k;
      TablesElsewhere(s.tables, ph, 0, newId, other.k);
      if ph.k != other.to {
        TablesElsewhere(s.tables, ph, 0, newId, other.to);
      }
    }
  }

  lemma PathsOfOthers(s: System, paths: Key -> bool, i: nat, j: nat)
    requires MovesApart(s, paths) && i in s.flights && j in s.flights && i != j
    requires paths(s.flights[i].k) && paths(s.flights[j].k)
    ensures IsMove(s.flights[i]) ==> !Uses(s.flights[j], s.flights[i].k)
    ensures IsMove(s.flights[j]) ==> !Uses(s.flights[i], s.flights[j].k)
  {
  }

  /** The request that goes on concerns one of the given paths. */
  predicate Concerns(ph: Phase, paths: Key -> bool) {
    paths(ph.k) || (IsMove(ph) && paths(ph.to))
  }

  lemma CurrentGoesOn(p: Parser, s: System, a: Action, paths: Key -> bool)
    requires HashTellsPages(p) && SoundSystem(p, s)
    requires Enabled(s, a) && a.Proceed? && Calm(p, s, a, paths) && Inv(p, s, paths)
    ensures Current(p, Apply(p, s, a), paths)
  {
    var s', ph := Apply(p, s, a), s.flights[a.id];
    forall id | id in s'.flights && paths(s'.flights[id].k) ensures UpToDate(p, s'.st, s'.flights[id]) {
      if id != a.id {
        OtherStays(p, s, a, paths, id);
      } else {
        NextKeys(p, s.st, ph, a.failing);
        assert Concerns(ph, paths);
        PhaseGoesOn(p, s.st, ph, a.newId);
      }
    }
  }

  /** A next phase is about the request's own paths. */
  lemma NextKeys(p: Parser, s: State, ph: Phase, failing: Failing)
    requires Next(p, s, ph, failing).Some?
    ensures var next := Next(p, s, ph, failing).value;
      && (next.k == ph.k || (IsMove(ph) && next.k == ph.to))
      && (IsMove(next) ==> IsMove(ph) && next.k == ph.k && next.to == ph.to)
      && forall k :: Uses(next, k) ==> On(ph, k)
  {
  }

  lemma OtherStays(p: Parser, s: System, a: Action, paths: Key -> bool, id: nat)
    requires SoundSystem(p, s) && Enabled(s, a) && a.Proceed? && Calm(p, s, a, paths) && Inv(p, s, paths)
    requires id in s.flights && id != a.id && paths(s.flights[id].k)
    ensures UpToDate(p, Apply(p, s, a).st, s.flights[id])
  {
    var ph, other := s.flights[a.id], s.flights[id];
    if Concerns(ph, paths) {
      assert paths(ph.k);
      PathsOfOthers(s, paths, a.id, id);
      OthersStayUpToDate(p, s.st, ph, a.newId, other);
    } else {
      var s' := Apply(p, s, a);
      forall k | Uses(other, k) ensures SameAt(s.st, s'.st, k) {
        assert paths(k);
        TablesElsewhere(s.st.tables, ph, a.failing, a.newId, k);
      }
      UpToDateSame(p, s.st, s'.st, other);
    }
  }

  lemma AgreeingGoesOn(p: Parser, s: System, a: Action, paths: Key -> bool)
    requires HashTellsPages(p) && SoundSystem(p, s)
    requires Enabled(s, a) && a.Proceed? && Calm(p, s, a, paths) && Inv(p, s, paths)
    ensures Agreeing(p, Apply(p, s, a), paths)
  {
    var s', ph := Apply(p, s, a), s.flights[a.id];
    forall k | paths(k) ensures SyncedAt(p, s'.st, k) || Owed(s', k) {
      if Owes(s.st, ph, k) {
        OwedGoesOn(p, s, a, paths, k);
      } else {
        if k != ph.k || ph.Reading? {
          UntouchedGoesOn(s, a, k);
        }
        AgreementKept(p, s, s', k);
      }
    }
  }

  lemma UntouchedGoesOn(s: System, a: Action, k: Key)
    requires a.Proceed? && a.id in s.flights && (k != s.flights[a.id].k || s.flights[a.id].Reading?)
    ensures SameAt(s.st, s.st.(tables := TablesAfter(s.st.tables, s.flights[a.id], a.failing, a.newId)), k)
  {
    if k != s.flights[a.id].k {
      TablesElsewhere(s.st.tables, s.flights[a.id], a.failing, a.newId, k);
    }
  }

  lemma OwedGoesOn(p: Parser, s: System, a: Action, paths: Key -> bool, k: Key)
    requires HashTellsPages(p) && SoundSystem(p, s)
    requires Enabled(s, a) && a.Proceed? && Calm(p, s, a, paths) && Inv(p, s, paths)
    requires paths(k) && Owes(s.st, s.flights[a.id], k)
    ensures SyncedAt(p, Apply(p, s, a).st, k) || Owed(Apply(p, s, a), k)
  {
    var s', ph := Apply(p, s, a), s.flights[a.id];
    assert paths(ph.k) && Concerns(ph, paths);
    PhaseGoesOn(p, s.st, ph, a.newId);
    var next := Next(p, s.st, ph, 0);
    if next.Some? && Uses(next.value, k) {
      assert s'.flights[a.id] == next.value && Owes(s'.st, next.value, k);
    }
  }

  lemma ApartGoesOn(p: Parser, s: System, a: Action, paths: Key -> bool)
    requires Enabled(s, a) && a.Proceed? && Calm(p, s, a, paths) && Inv(p, s, paths)
    ensures MovesApart(Apply(p, s, a), paths)
  {
    var s', ph := Apply(p, s, a), s.flights[a.id];
    if Next(p, s.st, ph, a.failing).Some? {
      NextKeys(p, s.st, ph, a.failing);
    }
    forall i, j | i in s'.flights && j in s'.flights && i != j && IsMove(s'.flights[i]) && paths(s'.flights[i].k)
      ensures !Uses(s'.flights[j], s'.flights[i].k)
    {
      assert IsMove(s.flights[i]) && s.flights[i].k == s'.flights[i].k;
    }
  }

  // ------------------------------------------------------------ overlapping requests agree

  lemma InvStep(p: Parser, s: System, a: Action, paths: Key -> bool)
    requires HashTellsPages(p) && SoundSystem(p, s)
    requires Enabled(s, a) && Calm(p, s, a, paths) && Inv(p, s, paths)
    ensures Inv(p, Apply(p, s, a), paths)
  {
    if a.Proceed? {
      CurrentGoesOn(p, s, a, paths);
      AgreeingGoesOn(p, s, a, paths);
      ApartGoesOn(p, s, a, paths);
    } else {
      CurrentBegin(p, s, a, paths);
      AgreeingBegin(p, s, a, paths);
      ApartBegin(p, s, a, paths);
    }
  }

  ghost predicate CalmRun(p: Parser, tr: seq<System>, acts: seq<Action>, from: nat, n: nat, paths: Key -> bool)
    requires Run(p, tr, acts) && n < |tr|
  {
    forall i :: from <= i < n ==> Calm(p, tr[i], acts[i], paths)
  }

  lemma {:induction false} InvAlways(p: Parser, tr: seq<System>, acts: seq<Action>, from: nat, n: nat,
                                     paths: Key -> bool)
    requires HashTellsPages(p) && Run(p, tr, acts) && SoundSystem(p, tr[0]) && from <= n < |tr|
    requires Inv(p, tr[from], paths) && CalmRun(p, tr, acts, from, n, paths)
    ensures Inv(p, tr[n], paths)
    decreases n
  {
    if from < n {
      InvAlways(p, tr, acts, from, n - 1, paths);
      SoundAlways(p, tr, acts, n - 1);
      InvNext(p, tr, acts, n - 1, paths);
    }
  }

  lemma InvNext(p: Parser, tr: seq<System>, acts: seq<Action>, i: nat, paths: Key -> bool)
    requires HashTellsPages(p) && Run(p, tr, acts) && i < |acts| && SoundSystem(p, tr[i])
    requires Calm(p, tr[i], acts[i], paths) && Inv(p, tr[i], paths)
    ensures Inv(p, tr[i + 1], paths)
  {
    assert tr[i + 1] == Apply(p, tr[i], acts[i]);
    InvStep(p, tr[i], acts[i], paths);
  }

  /** With any number of requests at once: as long as no file changes while a
      request holds what it saw of it, no request fails and no directory of text
      files is moved or removed, a path that no request is on agrees with the index. */
  lemma RequestsAgree(p: Parser, tr: seq<System>, acts: seq<Action>, from: nat, n: nat, paths: Key -> bool, k: Key)
    requires HashTellsPages(p) && Run(p, tr, acts) && SoundSystem(p, tr[0]) && from <= n < |tr|
    requires Inv(p, tr[from], paths) && CalmRun(p, tr, acts, from, n, paths)
    requires paths(k) && NobodyOn(tr[n], k)
    ensures SyncedAt(p, tr[n].st, k)
  {
    InvAlways(p, tr, acts, from, n, paths);
    NotOwed(tr[n], k);
  }

  function All(): Key -> bool {
    k => true
  }

  function Only(k: Key): Key -> bool {
    j => j == k
  }

  /** So whenever all requests have ended the whole index agrees. */
  lemma IndexAgrees(p: Parser, tr: seq<System>, acts: seq<Action>, n: nat)
    requires HashTellsPages(p) && Run(p, tr, acts) && n < |tr|
    requires InSync(p, tr[0].st) && Mirrors(tr[0].st.tables) && tr[0].flights == map[]
    requires CalmRun(p, tr, acts, 0, n, All()) && tr[n].flights == map[]
    ensures InSync(p, tr[n].st) && Mirrors(tr[n].st.tables)
  {
    InSyncIsHonest(p, tr[0].st);
    assert Inv(p, tr[0], All());
    SoundAlways(p, tr, acts, n);
    forall k ensures SyncedAt(p, tr[n].st, k) {
      RequestsAgree(p, tr, acts, 0, n, All(), k);
    }
  }

  /** Whatever happened before, a write that begins while no request holds
      anything of its path brings it into agreement, among any other requests,
      if from then on the path is respected. */
  lemma WriteHealsAmong(p: Parser, tr: seq<System>, acts: seq<Action>, i: nat, n: nat)
    requires HashTellsPages(p) && Run(p, tr, acts) && SoundSystem(p, tr[0]) && i < n < |tr|
    requires acts[i].WriteFile? && NobodyUses(tr[i], acts[i].k)
    requires CalmRun(p, tr, acts, i + 1, n, Only(acts[i].k)) && NobodyOn(tr[n], acts[i].k)
    ensures SyncedAt(p, tr[n].st, acts[i].k)
  {
    var k, s := acts[i].k, tr[i + 1];
    assert s == Apply(p, tr[i], acts[i]);
    assert s.flights[acts[i].id] == Reading(k) && Owes(s.st, Reading(k), k);
    forall id | id in s.flights ensures !Uses(s.flights[id], k) {
      assert id in tr[i].flights ==> !Uses(tr[i].flights[id], k);
    }
    forall id | id in s.flights && Only(k)(s.flights[id].k) ensures s.flights[id].Reading? {
      assert Uses(s.flights[id], k) || s.flights[id].Reading?;
    }
    assert Inv(p, s, Only(k));
    RequestsAgree(p, tr, acts, i + 1, n, Only(k), k);
  }

  /** The last step of a request leaves its path in agreement exactly if what the
      request holds is still so. */
  lemma LastStepExact(p: Parser, s: State, ph: Phase, newId: nat)
    requires (ph.Storing? || ph.Forgetting?) && Named(ph.k) && !Used(s.tables.pages, newId)
    ensures SyncedAt(p, s.(tables := TablesAfter(s.tables, ph, 0, newId)), ph.k) <==> UpToDate(p, s, ph)
  {
  }

  const NOTHING := System(State(map[], Tables(map[], map[])), map[])

  /** Two writes of one path.  The first request reads its own bytes, the second
      goes all the way, and then the first stores the page of bytes that are gone. */
  lemma StalePage(p: Parser, k: Key, first: string, second: string) returns (tr: seq<System>, acts: seq<Action>)
    requires Named(k) && p.utf8(first) && p.utf8(second) && p.hash(first) != p.hash(second)
    ensures Run(p, tr, acts) && tr[0] == NOTHING
    ensures var s := tr[|acts|];
      && s.flights == map[] && k in s.st.files && s.st.files[k] == second
      && k in s.st.tables.pages && s.st.tables.pages[k].meta == p.parse(first) && !SyncedAt(p, s.st, k)
  {
    var none := Tables(map[], map[]);
    var s1 := System(State(map[k := first], none), map[1 := Checking(k, first)]);
    var s2 := System(State(map[k := second], none), map[1 := Checking(k, first), 2 := Reading(k)]);
    var tr1, acts1 := ReadsFirst(p, k, first);
    assert Apply(p, s1, WriteFile(2, k, second)) == s2;
    var tr2, acts2 := One(p, s1, WriteFile(2, k, second));
    var f := Faults(false, 0, 0, 0, 1);
    var tr3, acts3 := FinishRuns(p, s2, 2, f);
    var stored := Tables(map[k := Row(1, p.parse(second), p.hash(second))], map[1 := p.parse(second)]);
    FreshPage(p, s2.st, k, f);
    var s3 := System(State(map[k := second], stored), map[1 := Checking(k, first)]);
    assert tr3[|acts3|] == s3 by {
      assert s2.flights - {2} == s3.flights;
    }
    var tr4, acts4 := FinishRuns(p, s3, 1, f);
    StaleStore(p, s3.st, k, first, f);
    tr, acts := Joined(p, tr1, acts1, tr2, acts2);
    tr, acts := Joined(p, tr, acts, tr3, acts3);
    tr, acts := Joined(p, tr, acts, tr4, acts4);
  }

  /** A write overtaken by a removal leaves a page without its file. */
  lemma PageOutlivesFile(p: Parser, k: Key, content: string) returns (tr: seq<System>, acts: seq<Action>)
    requires Named(k) && p.utf8(content)
    ensures Run(p, tr, acts) && tr[0] == NOTHING
    ensures var s := tr[|acts|]; s.flights == map[] && k !in s.st.files && k in s.st.tables.pages
  {
    var none := Tables(map[], map[]);
    var s1 := System(State(map[k := content], none), map[1 := Checking(k, content)]);
    var s2 := System(State(map[], none), map[1 := Checking(k, content), 2 := Forgetting(k)]);
    var tr1, acts1 := ReadsFirst(p, k, content);
    assert Apply(p, s1, RemoveFile(2, k)) == s2;
    var tr2, acts2 := One(p, s1, RemoveFile(2, k));
    var f := Faults(false, 0, 0, 0, 1);
    var tr3, acts3 := FinishRuns(p, s2, 2, f);
    var s3 := System(State(map[], none), map[1 := Checking(k, content)]);
    assert tr3[|acts3|] == s3 by {
      assert s2.flights - {2} == s3.flights;
    }
    var tr4, acts4 := FinishRuns(p, s3, 1, f);
    StaleStore(p, s3.st, k, content, f);
    tr, acts := Joined(p, tr1, acts1, tr2, acts2);
    tr, acts := Joined(p, tr, acts, tr3, acts3);
    tr, acts := Joined(p, tr, acts, tr4, acts4);
  }

  lemma One(p: Parser, s: System, a: Action) returns (tr: seq<System>, acts: seq<Action>)
    requires Enabled(s, a)
    ensures Run(p, tr, acts) && tr[0] == s && tr[|acts|] == Apply(p, s, a)
  {
    tr, acts := [s, Apply(p, s, a)], [a];
  }

  lemma Joined(p: Parser, tr: seq<System>, acts: seq<Action>, tr': seq<System>, acts': seq<Action>)
    returns (all: seq<System>, both: seq<Action>)
    requires Run(p, tr, acts) && Run(p, tr', acts') && tr[|acts|] == tr'[0]
    ensures Run(p, all, both) && all[0] == tr[0] && all[|both|] == tr'[|acts'|]
  {
    all, both := tr + tr'[1..], acts + acts';
    forall i | 0 <= i < |both| ensures Enabled(all[i], both[i]) && all[i + 1] == Apply(p, all[i], both[i]) {
      if i >= |acts| {
        assert all[i] == tr'[i - |acts|] && both[i] == acts'[i - |acts|];
      }
    }
  }

  /** A write from nothing, up to its reading of the file. */
  lemma ReadsFirst(p: Parser, k: Key, content: string) returns (tr: seq<System>, acts: seq<Action>)
    ensures Run(p, tr, acts) && tr[0] == NOTHING
    ensures tr[|acts|] == System(State(map[k := content], Tables(map[], map[])), map[1 := Checking(k, content)])
  {
    var s1 := System(State(map[k := content], Tables(map[], map[])), map[1 := Reading(k)]);
    assert Apply(p, NOTHING, WriteFile(1, k, content)) == s1;
    tr, acts := One(p, NOTHING, WriteFile(1, k, content));
    var tr2, acts2 := One(p, s1, Proceed(1, 0, 1));
    tr, acts := Joined(p, tr, acts, tr2, acts2);
  }

  /** An update alone, of a text without page. */
  lemma {:induction false} FreshPage(p: Parser, s: State, k: Key, f: Faults)
    requires s.tables == Tables(map[], map[]) && k in s.files && p.utf8(s.files[k]) && f == Faults(false, 0, 0, 0, 1)
    ensures var meta, hash := p.parse(s.files[k]), p.hash(s.files[k]);
      Finish(p, s, Reading(k), f) == State(s.files, Tables(map[k := Row(1, meta, hash)], map[1 := meta]))
  {
    ReadingAlone(p, s, k, f);
  }

  /** A request that has read `content` stores its page, whatever the file is now. */
  lemma {:induction false} StaleStore(p: Parser, s: State, k: Key, content: string, f: Faults)
    requires p.utf8(content) && f == Faults(false, 0, 0, 0, 1)
    requires k in s.tables.pages ==> s.tables.pages[k].hash != p.hash(content)
    requires k !in s.tables.pages ==> !Used(s.tables.pages, 1)
    ensures var s' := Finish(p, s, Checking(k, content), f);
      && s'.files == s.files && k in s'.tables.pages
      && s'.tables.pages[k].meta == p.parse(content) && s'.tables.pages[k].hash == p.hash(content)
  {
  }

  // ------------------------------------------------------------ a request alone

  function Rank(ph: Phase): nat {
    match ph
    case Reading(_) => 3
    case Fetching(_, _) => 3
    case Checking(_, _) => 2
    case Moving(_, _, _) => 2
    case _ => 1
  }

  function FailingIn(ph: Phase, f: Faults): Failing {
    match ph
    case Reading(_) => if f.read then 1 else 0
    case Storing(_, _, _) => f.upsert
    case Checking(_, _) => f.get
    case Fetching(_, _) => f.get
    case _ => f.delete
  }

  /** The request with nobody in between. */
  function Finish(p: Parser, s: State, ph: Phase, f: Faults): State
    decreases Rank(ph)
  {
    var failing := FailingIn(ph, f);
    var s' := s.(tables := TablesAfter(s.tables, ph, failing, f.newId));
    match Next(p, s, ph, failing)
    case None => s'
    case Some(next) => Finish(p, s', next, f)
  }

  /** The whole operations are requests that run alone. */
  lemma AloneIsStep(p: Parser, s: State, op: Op)
    requires op.Update? || op.outcome.Done?
    ensures (op.Write? || (op.Create? && !Exists(s.files, op.k))) ==>
      Step(p, s, op) == Finish(p, s.(files := s.files[op.k := op.content]), Reading(op.k), op.faults)
    ensures op.Update? ==> Step(p, s, op) == Finish(p, s, Reading(op.k), op.faults)
    ensures op.Delete? ==> Step(p, s, op) == Finish(p, s.(files := Removed(s.files, op.k)), Forgetting(op.k), op.faults)
    ensures op.Move? && Moves(s, op) ==>
      Step(p, s, op) == Finish(p, s.(files := MovedFiles(s.files, op.k, Target(op))), Fetching(op.k, Target(op)), op.faults)
  {
    match op
    case Create(k, content, _, f) => ReadingAlone(p, s.(files := s.files[k := content]), k, f);
    case Write(k, content, _, f) => ReadingAlone(p, s.(files := s.files[k := content]), k, f);
    case Update(k, f) => ReadingAlone(p, s, k, f);
    case Delete(_, _, _) =>
    case Move(k, _, _, _, f) =>
      if Moves(s, op) {
        FetchingAlone(p, s.(files := MovedFiles(s.files, k, Target(op))), k, Target(op), f);
      }
  }

  lemma {:induction false} ReadingAlone(p: Parser, s: State, k: Key, f: Faults)
    ensures Finish(p, s, Reading(k), f) == s.(tables := Indexed(p, s, k, f))
  {
    if k in s.files && !f.read {
      CheckingAlone(p, s, k, s.files[k], f);
    }
  }

  lemma {:induction false} CheckingAlone(p: Parser, s: State, k: Key, c: string, f: Faults)
    requires k in s.files && s.files[k] == c && !f.read
    ensures Finish(p, s, Checking(k, c), f) == s.(tables := Indexed(p, s, k, f))
  {
  }

  lemma {:induction false} FetchingAlone(p: Parser, s: State, from: Key, to: Key, f: Faults)
    ensures Finish(p, s, Fetching(from, to), f) == s.(tables := Repathed(s.tables, from, to, f))
  {
    if Next(p, s, Fetching(from, to), f.get).Some? {
      MovingAlone(p, s, from, to, f);
    }
  }

  lemma {:induction false} MovingAlone(p: Parser, s: State, from: Key, to: Key, f: Faults)
    requires Named(from) && f.get == 0 && from in s.tables.pages
    ensures Finish(p, s, Moving(from, to, s.tables.pages[from]), f) == s.(tables := Repathed(s.tables, from, to, f))
  {
  }

  // ------------------------------------------------------------ two requests on one path, exactly

  predicate Faultfree(f: Faults) {
    !f.read && f.get == 0 && f.delete == 0 && f.upsert == 0
  }

  /** What the request holds leads, at the path `k`, to the page of the file as it is now. */
  ghost predicate Matches(p: Parser, s: State, ph: Phase, k: Key) {
    match ph
    case Fetching(from, to) =>
      if k == from then !TextAt(p, s, k)
      else if k == to && from in s.tables.pages then RowOf(p, s, s.tables.pages[from], k)
      else SyncedAt(p, s, k)
    case Moving(from, to, row) =>
      if k == from then !TextAt(p, s, k) else if k == to then RowOf(p, s, row, k) else SyncedAt(p, s, k)
    case _ => if k == ph.k then MatchesOwn(p, s, ph) else SyncedAt(p, s, k)
  }

  predicate MatchesOwn(p: Parser, s: State, ph: Phase)
    requires !IsMove(ph)
  {
    match ph
    case Reading(k) => k in s.files || k !in s.tables.pages
    case Checking(k, c) => if p.utf8(c) then RowOf(p, s, Row(0, p.parse(c), p.hash(c)), k) else !TextAt(p, s, k)
    case _ => UpToDate(p, s, ph)
  }

  predicate NamedRequest(ph: Phase) {
    Named(ph.k) && (IsMove(ph) ==> Named(ph.to) && ph.k != ph.to)
  }

  lemma {:induction false} OwnRestExact(p: Parser, s: State, ph: Phase, f: Faults)
    requires HashTellsPages(p) && Honest(p, s.tables) && !IsMove(ph)
    requires Named(ph.k) && Faultfree(f) && !Used(s.tables.pages, f.newId)
    ensures SyncedAt(p, Finish(p, s, ph, f), ph.k) <==> MatchesOwn(p, s, ph)
  {
    match ph
    case Reading(k) =>
      ReadingAlone(p, s, k, f);
      UpdateSyncs(p, s, k, f);
    case Checking(k, c) =>
      if k in s.tables.pages && p.utf8(c) && s.tables.pages[k].hash == p.hash(c) {
        assert IsPage(p, s.tables.pages[k]);
        var w :| p.utf8(w) && s.tables.pages[k].meta == p.parse(w) && s.tables.pages[k].hash == p.hash(w);
        assert p.parse(w) == p.parse(c);
      }
    case _ => LastStepExact(p, s, ph, f.newId);
  }

  lemma {:induction false} MoveRestExact(p: Parser, s: State, from: Key, to: Key, row: Row, f: Faults)
    requires NamedRequest(Moving(from, to, row)) && Faultfree(f) && !Used(s.tables.pages, f.newId)
    ensures SyncedAt(p, Finish(p, s, Moving(from, to, row), f), from) <==> !TextAt(p, s, from)
    ensures SyncedAt(p, Finish(p, s, Moving(from, to, row), f), to) <==> RowOf(p, s, row, to)
  {
    var d := s.(tables := Deleted(s.tables, from));
    assert Finish(p, s, Moving(from, to, row), f) == Finish(p, d, Storing(to, row.meta, row.hash), f);
    LastStepExact(p, d, Storing(to, row.meta, row.hash), f.newId);
  }

  /** The rest of a request, with nobody in between, changes no file. */
  lemma {:induction false} FinishFiles(p: Parser, s: State, ph: Phase, f: Faults)
    ensures Finish(p, s, ph, f).files == s.files
    decreases Rank(ph)
  {
    var next := Next(p, s, ph, FailingIn(ph, f));
    if next.Some? {
      FinishFiles(p, s.(tables := TablesAfter(s.tables, ph, FailingIn(ph, f), f.newId)), next.value, f);
    }
  }

  /** ... and no page of a path it has nothing to do with. */
  lemma {:induction false} FinishElsewhere(p: Parser, s: State, ph: Phase, f: Faults, k: Key)
    requires !On(ph, k)
    ensures SameAt(s, Finish(p, s, ph, f), k)
    decreases Rank(ph)
  {
    var next := Next(p, s, ph, FailingIn(ph, f));
    if next.Some? {
      FinishElsewhere(p, s.(tables := TablesAfter(s.tables, ph, FailingIn(ph, f), f.newId)), next.value, f, k);
    }
  }

  /** The rest of a request, a move included, with nobody in between, leaves a path
      in agreement exactly if what the request holds still leads to the file's page there. */
  lemma {:induction false} RestExact(p: Parser, s: State, ph: Phase, f: Faults, k: Key)
    requires HashTellsPages(p) && Honest(p, s.tables)
    requires NamedRequest(ph) && Faultfree(f) && !Used(s.tables.pages, f.newId)
    ensures SyncedAt(p, Finish(p, s, ph, f), k) <==> Matches(p, s, ph, k)
  {
    if !On(ph, k) {
      FinishElsewhere(p, s, ph, f, k);
    } else if ph.Moving? {
      MoveRestExact(p, s, ph.k, ph.to, ph.row, f);
    } else if ph.Fetching? {
      if ph.k in s.tables.pages {
        MoveRestExact(p, s, ph.k, ph.to, s.tables.pages[ph.k], f);
      }
    } else {
      OwnRestExact(p, s, ph, f);
    }
  }

  /** Two requests that end one after the other: what the second one leaves. */
  lemma {:induction false} SecondExact(p: Parser, s: State, first: Phase, second: Phase, f: Faults, g: Faults, k: Key)
    requires HashTellsPages(p) && Sound(p, s.tables) && HonestPhase(p, first)
    requires NamedRequest(second) && Faultfree(g) && !Used(Finish(p, s, first, f).tables.pages, g.newId)
    ensures var s1 := Finish(p, s, first, f);
      s1.files == s.files && (SyncedAt(p, Finish(p, s1, second, g), k) <==> Matches(p, s1, second, k))
  {
    FinishSound(p, s, first, f);
    FinishFiles(p, s, first, f);
    RestExact(p, Finish(p, s, first, f), second, g, k);
  }

  /** What the request holds leads to the page of the file just written, or to nothing at all. */
  ghost predicate Leads(p: Parser, s: State, ph: Phase, k: Key) {
    ph.Reading? || (ph.Fetching? && ph.k !in s.tables.pages && k == ph.to) || Matches(p, s, ph, k)
  }

  /** A request `ph`, a move included, is on a path when another one writes the
      file there, and both then end, one after the other.  If the writer ends last
      the index agrees; if it ends first, it agrees exactly if what the other holds
      leads to the new page. */
  lemma {:induction false} OverlapExact(p: Parser, s: State, ph: Phase, k: Key, content: string, f: Faults, g: Faults)
    requires HashTellsPages(p) && Sound(p, s.tables) && HonestPhase(p, ph) && NamedRequest(ph) && Named(k) && On(ph, k)
    requires Faultfree(f) && Faultfree(g) && !Used(s.tables.pages, f.newId)
    requires var s1 := s.(files := s.files[k := content]);
      && !Used(Finish(p, s1, ph, f).tables.pages, g.newId)
      && !Used(Finish(p, s1, Reading(k), f).tables.pages, g.newId)
    ensures var s1 := s.(files := s.files[k := content]);
      && SyncedAt(p, Finish(p, Finish(p, s1, ph, f), Reading(k), g), k)
      && (SyncedAt(p, Finish(p, Finish(p, s1, Reading(k), f), ph, g), k) <==> Leads(p, s1, ph, k))
  {
    var s1 := s.(files := s.files[k := content]);
    SecondExact(p, s1, ph, Reading(k), f, g, k);
    SecondExact(p, s1, Reading(k), ph, f, g, k);
    RestExact(p, s1, Reading(k), f, k);
    MatchesAfterWrite(p, s1, Finish(p, s1, Reading(k), f), ph, k, f);
  }

  lemma {:induction false} MatchesAfterWrite(p: Parser, s: State, s': State, ph: Phase, k: Key, f: Faults)
    requires k in s.files && s' == Finish(p, s, Reading(k), f) && SyncedAt(p, s', k) && NamedRequest(ph) && On(ph, k)
    ensures Matches(p, s', ph, k) <==> Leads(p, s, ph, k)
  {
    FinishFiles(p, s, Reading(k), f);
    if ph.Fetching? && k == ph.to {
      FinishElsewhere(p, s, Reading(k), f, ph.k);
    }
  }

  lemma {:induction false} FinishSound(p: Parser, s: State, ph: Phase, f: Faults)
    requires Sound(p, s.tables) && HonestPhase(p, ph)
    ensures Sound(p, Finish(p, s, ph, f).tables)
    decreases Rank(ph)
  {
    TablesSound(p, s.tables, ph, FailingIn(ph, f), f.newId);
    var next := Next(p, s, ph, FailingIn(ph, f));
    if next.Some? {
      NextHonest(p, s, ph, FailingIn(ph, f));
      FinishSound(p, s.(tables := TablesAfter(s.tables, ph, FailingIn(ph, f), f.newId)), next.value, f);
    }
  }

  /** And such a request is a run of the system. */
  lemma {:induction false} FinishRuns(p: Parser, s: System, id: nat, f: Faults) returns (tr: seq<System>, acts: seq<Action>)
    requires id in s.flights
    ensures Run(p, tr, acts) && tr[0] == s
    ensures tr[|acts|] == System(Finish(p, s.st, s.flights[id], f), s.flights - {id})
    decreases Rank(s.flights[id])
  {
    var ph := s.flights[id];
    var a := Proceed(id, FailingIn(ph, f), f.newId);
    var s1 := Apply(p, s, a);
    var next := Next(p, s.st, ph, FailingIn(ph, f));
    if next.None? {
      tr, acts := [s, s1], [a];
    } else {
      var rest, more := FinishRuns(p, s1, id, f);
      tr, acts := [s] + rest, [a] + more;
      assert s1.flights - {id} == s.flights - {id};
      forall i | 0 <= i < |acts| ensures Enabled(tr[i], acts[i]) && tr[i + 1] == Apply(p, tr[i], acts[i]) {
        if i > 0 {
          assert tr[i] == rest[i - 1] && acts[i] == more[i - 1];
        }
      }
    }
  }
}
