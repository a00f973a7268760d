/** The file operations of the web application and the page index they maintain:
    when the index agrees with the files, and what brings it back. */
module PageSync {
  import opened Splitting
  import opened PageIndex

  /** Parsing a page, hashing its bytes, and telling text from other files. */
  datatype Parser = Parser(parse: string -> Meta, hash: string -> string, utf8: string -> bool)

  /** Files with one hash have one page; the collision-freedom the index relies on. */
  ghost predicate HashTellsPages(p: Parser) {
    forall a, b :: p.hash(a) == p.hash(b) ==> p.parse(a) == p.parse(b)
  }

  datatype State = State(files: map<Key, string>, tables: Tables)

  /** Which steps of an index update fail, and the row id the database would hand out. */
  datatype Faults = Faults(read: bool, get: Failing, delete: Failing, upsert: Failing, newId: nat)

  /** How the file operation itself ends: `Broken` reports an error although it
      took effect; a broken write may leave any bytes. */
  datatype Outcome = Done | Refused | Broken(left: string)

  datatype Op =
    | Create(k: Key, content: string, outcome: Outcome, faults: Faults)
    | Write(k: Key, content: string, outcome: Outcome, faults: Faults)
    | Move(k: Key, target: string, emptyDir: bool, outcome: Outcome, faults: Faults)
    | Delete(k: Key, outcome: Outcome, faults: Faults)
    | Update(k: Key, faults: Faults)

  // ------------------------------------------------------------ the file tree

  predicate Below(dir: Key, k: Key) {
    k.slug == dir.slug && StartsWith(k.path, dir.path + "/")
  }

  predicate AtOrBelow(dir: Key, k: Key) {
    k == dir || Below(dir, k)
  }

  /** Below a directory is what has its path, a slash and something more, in the same vault. */
  lemma BelowExact(dir: Key, k: Key)
    ensures Below(dir, k) <==> k.slug == dir.slug && exists rest: string :: k.path == dir.path + "/" + rest
  {
    if Below(dir, k) {
      assert k.path == dir.path + "/" + k.path[|dir.path| + 1..];
    }
  }

  /** Nothing is at a path exactly if no file is there or below it. */
  lemma ExistsExact(files: map<Key, string>, dir: Key)
    ensures Exists(files, dir) <==> dir in files || exists rest: string :: Key(dir.slug, dir.path + "/" + rest) in files
  {
    if k :| k in files && AtOrBelow(dir, k) {
      BelowExact(dir, k);
      if k != dir {
        var rest: string :| k.path == dir.path + "/" + rest;
        assert k == Key(dir.slug, dir.path + "/" + rest);
      }
    }
    if rest: string :| Key(dir.slug, dir.path + "/" + rest) in files {
      BelowExact(dir, Key(dir.slug, dir.path + "/" + rest));
    }
  }

  predicate Exists(files: map<Key, string>, dir: Key) {
    exists k :: k in files && AtOrBelow(dir, k)
  }

  function Removed(files: map<Key, string>, dir: Key): map<Key, string> {
    map k | k in files && !AtOrBelow(dir, k) :: files[k]
  }

  /** `k` with the path `from` at its front replaced. */
  function Renamed(from: Key, to: Key, k: Key): Key {
    if AtOrBelow(from, k) then Key(k.slug, to.path + k.path[|from.path|..]) else k
  }

  lemma RenamedBack(from: Key, to: Key, k: Key)
    requires from.slug == to.slug && !AtOrBelow(to, k)
    ensures Renamed(to, from, Renamed(from, to, k)) == k
    ensures AtOrBelow(from, k) ==> AtOrBelow(to, Renamed(from, to, k))
  {
    if AtOrBelow(from, k) {
      var rest := k.path[|from.path|..];
      assert k.path == from.path + rest;
      assert (to.path + rest)[|to.path|..] == rest;
      if k != from {
        assert rest[0] == k.path[|from.path|] == '/';
      }
    }
  }

  function MovedFiles(files: map<Key, string>, from: Key, to: Key): map<Key, string>
    requires from.slug == to.slug && !Exists(files, to)
  {
    forall k | k in files ensures Renamed(to, from, Renamed(from, to, k)) == k {
      RenamedBack(from, to, k);
    }
    map k | k in (set j | j in files :: Renamed(from, to, j)) :: files[Renamed(to, from, k)]
  }

  // ------------------------------------------------------------ the index updates

  function Indexed(p: Parser, s: State, k: Key, f: Faults): Tables {
    var t := s.tables;
    if f.read || k !in s.files then t
    else if !p.utf8(s.files[k]) then (if DeleteGoes(t, k, f.delete) then Deleted(t, k) else t)
    else if Named(k) && f.get == 0 && k in t.pages && t.pages[k].hash == p.hash(s.files[k]) then t
    else if UpsertGoes(t, k, f.newId, f.upsert) then Upserted(t, k, p.parse(s.files[k]), p.hash(s.files[k]), f.newId)
    else t
  }

  function Repathed(t: Tables, from: Key, to: Key, f: Faults): Tables {
    if !Named(from) || f.get != 0 || from !in t.pages || !DeleteGoes(t, from, f.delete) then t
    else
      var row, d := t.pages[from], Deleted(t, from);
      if UpsertGoes(d, to, f.newId, f.upsert) then Upserted(d, to, row.meta, row.hash, f.newId) else d
  }

  /** The update reports no error. */
  predicate IndexGoes(p: Parser, s: State, k: Key, f: Faults) {
    var t := s.tables;
    !f.read && k in s.files &&
    if !p.utf8(s.files[k]) then DeleteGoes(t, k, f.delete)
    else
      (Named(k) && f.get == 0 && k in t.pages && t.pages[k].hash == p.hash(s.files[k]))
      || UpsertGoes(t, k, f.newId, f.upsert)
  }

  /** The move of a page reports no error; a page it cannot find is none. */
  predicate RepathGoes(t: Tables, from: Key, to: Key, f: Faults) {
    !Named(from) || f.get != 0 || from !in t.pages
    || (DeleteGoes(t, from, f.delete) && UpsertGoes(Deleted(t, from), to, f.newId, f.upsert))
  }

  function Target(op: Op): Key
    requires op.Move?
  {
    Key(op.k.slug, op.target)
  }

  /** The move that gets as far as renaming. */
  predicate Moves(s: State, op: Op) {
    && op.Move? && !op.outcome.Refused?
    && !Exists(s.files, Target(op)) && (Exists(s.files, op.k) || op.emptyDir) && !AtOrBelow(op.k, Target(op))
  }

  function Stored(p: Parser, s: State, op: Op): State
    requires op.Create? || op.Write?
  {
    match op.outcome
    case Refused => s
    case Broken(left) => s.(files := s.files[op.k := left])
    case Done =>
      var written := s.(files := s.files[op.k := op.content]);
      written.(tables := Indexed(p, written, op.k, op.faults))
  }

  function Step(p: Parser, s: State, op: Op): State {
    match op
    case Create(k, _, _, _) => if Exists(s.files, k) then s else Stored(p, s, op)
    case Write(k, _, _, _) => Stored(p, s, op)
    case Move(k, _, _, outcome, f) =>
      if !Moves(s, op) then s
      else State(MovedFiles(s.files, k, Target(op)), if outcome.Done? then Repathed(s.tables, k, Target(op), f) else s.tables)
    case Delete(k, outcome, f) =>
      if outcome.Refused? then s
      else State(Removed(s.files, k), if outcome.Done? && DeleteGoes(s.tables, k, f.delete) then Deleted(s.tables, k) else s.tables)
    case Update(k, f) => s.(tables := Indexed(p, s, k, f))
  }

  function Run(p: Parser, s: State, ops: seq<Op>): State {
    if ops == [] then s else Step(p, Run(p, s, ops[..|ops| - 1]), ops[|ops| - 1])
  }

  // ------------------------------------------------------------ what always holds

  ghost predicate IsPage(p: Parser, row: Row) {
    exists c :: p.utf8(c) && row.meta == p.parse(c) && row.hash == p.hash(c)
  }

  ghost predicate Honest(p: Parser, t: Tables) {
    forall k :: k in t.pages ==> IsPage(p, t.pages[k])
  }

  /** The two tables mirror each other, and every row is one text's page and hash. */
  ghost predicate Sound(p: Parser, t: Tables) {
    Mirrors(t) && Honest(p, t)
  }

  lemma UpsertSound(p: Parser, t: Tables, k: Key, row: Row, f: Faults)
    requires Sound(p, t) && IsPage(p, row) && UpsertGoes(t, k, f.newId, f.upsert)
    ensures Sound(p, Upserted(t, k, row.meta, row.hash, f.newId))
  {
    UpsertKeepsMirror(t, k, row.meta, row.hash, f.newId);
    var c :| p.utf8(c) && row.meta == p.parse(c) && row.hash == p.hash(c);
    assert IsPage(p, Upserted(t, k, row.meta, row.hash, f.newId).pages[k]);
  }

  lemma IndexedSound(p: Parser, s: State, k: Key, f: Faults)
    requires Sound(p, s.tables)
    ensures Sound(p, Indexed(p, s, k, f))
  {
    DeleteKeepsMirror(s.tables, k);
    if k in s.files && p.utf8(s.files[k]) && UpsertGoes(s.tables, k, f.newId, f.upsert) {
      UpsertSound(p, s.tables, k, Row(0, p.parse(s.files[k]), p.hash(s.files[k])), f);
    }
  }

  lemma RepathedSound(p: Parser, t: Tables, from: Key, to: Key, f: Faults)
    requires Sound(p, t)
    ensures Sound(p, Repathed(t, from, to, f))
  {
    DeleteKeepsMirror(t, from);
    if from in t.pages && UpsertGoes(Deleted(t, from), to, f.newId, f.upsert) {
      UpsertSound(p, Deleted(t, from), to, t.pages[from], f);
    }
  }

  /** No failure at any step breaks the tables. */
  lemma StepSound(p: Parser, s: State, op: Op)
    requires Sound(p, s.tables)
    ensures Sound(p, Step(p, s, op).tables)
  {
    match op
    case Create(k, content, _, f) => IndexedSound(p, s.(files := s.files[k := content]), k, f);
    case Write(k, content, _, f) => IndexedSound(p, s.(files := s.files[k := content]), k, f);
    case Move(k, _, _, _, f) => RepathedSound(p, s.tables, k, Target(op), f);
    case Delete(k, _, _) => DeleteKeepsMirror(s.tables, k);
    case Update(k, f) => IndexedSound(p, s, k, f);
  }

  lemma {:induction false} RunSound(p: Parser, s: State, ops: seq<Op>)
    requires Sound(p, s.tables)
    ensures Sound(p, Run(p, s, ops).tables)
    decreases |ops|
  {
    if ops != [] {
      RunSound(p, s, ops[..|ops| - 1]);
      StepSound(p, Run(p, s, ops[..|ops| - 1]), ops[|ops| - 1]);
    }
  }

  // ------------------------------------------------------------ agreement with the files

  /** The index has a page at `k` exactly when a text file is there, and then it
      is that text's page. */
  ghost predicate SyncedAt(p: Parser, s: State, k: Key) {
    && (k in s.tables.pages <==> k in s.files && p.utf8(s.files[k]))
    && (k in s.tables.pages && k in s.files ==> s.tables.pages[k].meta == p.parse(s.files[k]))
    && (k in s.tables.pages && k in s.files ==> s.tables.pages[k].hash == p.hash(s.files[k]))
  }

  ghost predicate InSync(p: Parser, s: State) {
    forall k :: SyncedAt(p, s, k)
  }

  /** Nothing fails after the file operation took effect. */
  ghost predicate Faultless(s: State, op: Op) {
    var f := op.faults;
    && Named(op.k) && !f.read && f.get == 0 && f.delete == 0 && f.upsert == 0
    && (op.Update? || !op.outcome.Broken?)
    && !Used((if op.Move? then Deleted(s.tables, op.k) else s.tables).pages, f.newId)
  }

  predicate Touches(op: Op, k: Key) {
    match op
    case Move(from, _, _, _, _) => AtOrBelow(from, k) || AtOrBelow(Target(op), k)
    case Delete(dir, _, _) => AtOrBelow(dir, k)
    case _ => op.k == k
  }

  /** Same file, same page. */
  ghost predicate SameAt(s: State, s': State, k: Key) {
    && (k in s.files <==> k in s'.files)
    && (k in s.files && k in s'.files ==> s.files[k] == s'.files[k])
    && (k in s.tables.pages <==> k in s'.tables.pages)
    && (k in s.tables.pages && k in s'.tables.pages ==> s.tables.pages[k] == s'.tables.pages[k])
  }

  lemma StepElsewhere(p: Parser, s: State, op: Op, k: Key)
    requires !Touches(op, k)
    ensures SameAt(s, Step(p, s, op), k)
  {
    if op.Move? && Moves(s, op) {
      MovedAt(s.files, op.k, Target(op), k);
    }
  }

  lemma BelowTwo(a: Key, b: Key, k: Key)
    requires AtOrBelow(a, k) && AtOrBelow(b, k) && |a.path| <= |b.path|
    ensures AtOrBelow(a, b)
  {
    if |a.path| == |b.path| {
      assert a.path == k.path[..|a.path|] && b.path == k.path[..|b.path|];
    } else {
      assert forall i :: 0 <= i < |a.path| + 1 ==> (a.path + "/")[i] == k.path[i] == b.path[i];
    }
  }

  lemma BelowChain(a: Key, b: Key, k: Key)
    requires AtOrBelow(a, b) && AtOrBelow(b, k)
    ensures AtOrBelow(a, k)
  {
    if a != b && b != k {
      assert forall i :: 0 <= i < |a.path| + 1 ==> (a.path + "/")[i] == b.path[i] == (b.path + "/")[i] == k.path[i];
    }
  }

  /** What a move leaves at `k`: the file that was renamed to it, if any. */
  lemma MovedAt(files: map<Key, string>, from: Key, to: Key, k: Key)
    requires from.slug == to.slug && !Exists(files, to) && !AtOrBelow(from, to)
    ensures var after, source := MovedFiles(files, from, to), Renamed(to, from, k);
      && (k in after <==> !AtOrBelow(from, k) && source in files)
      && (k in after ==> after[k] == files[source])
  {
    var source := Renamed(to, from, k);
    if j :| j in files && Renamed(from, to, j) == k {
      RenamedBack(from, to, j);
      assert j == source;
      if AtOrBelow(from, k) {
        NoOverlap(from, to, j);
      }
    }
    if !AtOrBelow(from, k) && source in files {
      assert !AtOrBelow(to, source);
      RenamedBack(to, from, k);
      assert Renamed(from, to, source) == k;
    }
  }

  /** A renamed file is out of the directory it was renamed from. */
  lemma NoOverlap(from: Key, to: Key, j: Key)
    requires from.slug == to.slug && !AtOrBelow(from, to) && !AtOrBelow(to, j)
    ensures !AtOrBelow(from, Renamed(from, to, j))
  {
    RenamedBack(from, to, j);
    var k := Renamed(from, to, j);
    if AtOrBelow(from, j) && AtOrBelow(from, k) {
      if |from.path| <= |to.path| {
        BelowTwo(from, to, k);
      } else {
        BelowTwo(to, from, k);
        BelowChain(to, from, j);
      }
    }
  }

  // ------------------------------------------------------------ what a faultless step does

  /** A faultless update brings a path into agreement, unless its file is gone
      and its page is not. The unchanged-hash shortcut is sound. */
  lemma UpdateSyncs(p: Parser, s: State, k: Key, f: Faults)
    requires HashTellsPages(p) && Honest(p, s.tables)
    requires Faultless(s, Update(k, f))
    ensures SyncedAt(p, s.(tables := Indexed(p, s, k, f)), k) <==> k in s.files || k !in s.tables.pages
  {
    if k in s.files && k in s.tables.pages {
      var row := s.tables.pages[k];
      assert IsPage(p, row);
      var c :| p.utf8(c) && row.meta == p.parse(c) && row.hash == p.hash(c);
      assert p.hash(c) == p.hash(s.files[k]) ==> p.parse(c) == p.parse(s.files[k]);
    }
  }

  lemma SameStaysSynced(p: Parser, s: State, s': State, k: Key)
    requires SameAt(s, s', k)
    ensures SyncedAt(p, s, k) <==> SyncedAt(p, s', k)
  {
  }

  /** The step removes or renames a directory that holds text files. */
  ghost predicate Strands(p: Parser, s: State, op: Op) {
    && (Moves(s, op) || (op.Delete? && !op.outcome.Refused?))
    && exists j :: j in s.files && Below(op.k, j) && p.utf8(s.files[j])
  }

  lemma InSyncIsHonest(p: Parser, s: State)
    requires InSync(p, s)
    ensures Honest(p, s.tables)
  {
    forall k | k in s.tables.pages ensures IsPage(p, s.tables.pages[k]) {
      assert SyncedAt(p, s, k);
    }
  }

  lemma StoredSyncs(p: Parser, s: State, op: Op)
    requires HashTellsPages(p) && Honest(p, s.tables) && (op.Create? || op.Write?)
    requires op.outcome.Done? && Faultless(s, op)
    ensures SyncedAt(p, Stored(p, s, op), op.k)
  {
    var written := s.(files := s.files[op.k := op.content]);
    UpdateSyncs(p, written, op.k, op.faults);
  }

  /** The pages after a faultless move: only the moved file's page moves. */
  lemma RepathedPages(t: Tables, from: Key, to: Key, f: Faults)
    requires Named(from) && f.get == 0 && f.delete == 0 && f.upsert == 0 && !Used(Deleted(t, from).pages, f.newId)
    ensures var after := Repathed(t, from, to, f).pages;
      && (forall k :: k != from && k != to ==> (k in t.pages <==> k in after))
      && (forall k :: k != from && k != to && k in after ==> after[k] == t.pages[k])
      && (from in t.pages ==> to in after && after[to].meta == t.pages[from].meta && after[to].hash == t.pages[from].hash)
      && (from in t.pages && from != to ==> from !in after)
      && (from !in t.pages ==> after == t.pages)
  {
  }

  lemma MoveSyncs(p: Parser, s: State, op: Op, k: Key)
    requires InSync(p, s) && Faultless(s, op) && Moves(s, op) && !Strands(p, s, op) && Touches(op, k)
    ensures SyncedAt(p, Step(p, s, op), k)
  {
    var from, to := op.k, Target(op);
    MovedAt(s.files, from, to, k);
    RepathedPages(s.tables, from, to, op.faults);
    if AtOrBelow(from, k) {
      assert SyncedAt(p, s, k) && k != to;
    } else if k == to {
      assert SyncedAt(p, s, from) && SyncedAt(p, s, to) && to !in s.files;
      assert Renamed(to, from, to) == from;
    } else {
      SourceBelow(from, to, k);
      assert SyncedAt(p, s, k) && k !in s.files && k !in s.tables.pages;
    }
  }

  lemma SourceBelow(from: Key, to: Key, k: Key)
    requires from.slug == to.slug && Below(to, k)
    ensures Below(from, Renamed(to, from, k))
  {
    var rest := k.path[|to.path|..];
    assert rest[0] == k.path[|to.path|] == (to.path + "/")[|to.path|] == '/';
  }

  /** Exactly a removed or renamed directory of text files leaves the index out
      of step with the files: nobody updates the pages below it. */
  lemma StepExact(p: Parser, s: State, op: Op)
    requires HashTellsPages(p) && InSync(p, s) && Faultless(s, op)
    ensures InSync(p, Step(p, s, op)) <==> !Strands(p, s, op)
  {
    var after := Step(p, s, op);
    InSyncIsHonest(p, s);
    if Strands(p, s, op) {
      var j :| j in s.files && Below(op.k, j) && p.utf8(s.files[j]);
      StrandedPage(p, s, op, j);
    } else {
      forall k ensures SyncedAt(p, after, k) {
        assert SyncedAt(p, s, k);
        if !Touches(op, k) {
          StepElsewhere(p, s, op, k);
          SameStaysSynced(p, s, after, k);
        } else if op.Move? {
          if Moves(s, op) {
            MoveSyncs(p, s, op, k);
          }
        } else if op.Create? || op.Write? {
          if op.outcome.Done? {
            StoredSyncs(p, s, op);
          }
        } else if op.Update? {
          UpdateSyncs(p, s, k, op.faults);
        }
      }
    }
  }

  lemma StrandedPage(p: Parser, s: State, op: Op, j: Key)
    requires InSync(p, s) && Faultless(s, op) && Strands(p, s, op)
    requires j in s.files && Below(op.k, j) && p.utf8(s.files[j])
    ensures !SyncedAt(p, Step(p, s, op), j)
  {
    assert SyncedAt(p, s, j);
    if op.Move? {
      MovedAt(s.files, op.k, Target(op), j);
      RepathedPages(s.tables, op.k, Target(op), op.faults);
    }
  }

  // ------------------------------------------------------------ runs

  /** Every step of the run is faultless and strands nothing. */
  ghost predicate Smooth(p: Parser, s: State, ops: seq<Op>) {
    ops == [] || (
      var before := Run(p, s, ops[..|ops| - 1]);
      Smooth(p, s, ops[..|ops| - 1]) && Faultless(before, ops[|ops| - 1]) && !Strands(p, before, ops[|ops| - 1]))
  }

  /** Over any smooth run the index is the files' metadata, and it is mirrored. */
  lemma {:induction false} RunInSync(p: Parser, s: State, ops: seq<Op>)
    requires HashTellsPages(p) && InSync(p, s) && Mirrors(s.tables) && Smooth(p, s, ops)
    ensures InSync(p, Run(p, s, ops)) && Mirrors(Run(p, s, ops).tables)
    decreases |ops|
  {
    if ops != [] {
      RunInSync(p, s, ops[..|ops| - 1]);
      var before := Run(p, s, ops[..|ops| - 1]);
      InSyncIsHonest(p, before);
      StepExact(p, before, ops[|ops| - 1]);
      StepSound(p, before, ops[|ops| - 1]);
    }
  }

  /** Whatever failed before, one faultless write or creation brings its path into
      agreement, and it stays so until something touches that path again. */
  lemma {:induction false} WriteHeals(p: Parser, s: State, ops: seq<Op>, op: Op, later: seq<Op>)
    requires HashTellsPages(p) && Sound(p, s.tables)
    requires op.Write? || (op.Create? && !Exists(Run(p, s, ops).files, op.k))
    requires Faultless(Run(p, s, ops), op) && op.outcome.Done?
    requires forall i :: 0 <= i < |later| ==> !Touches(later[i], op.k)
    ensures SyncedAt(p, Run(p, Step(p, Run(p, s, ops), op), later), op.k)
    decreases |later|
  {
    if later == [] {
      RunSound(p, s, ops);
      StoredSyncs(p, Run(p, s, ops), op);
    } else {
      var n := |later| - 1;
      var healed := Step(p, Run(p, s, ops), op);
      WriteHeals(p, s, ops, op, later[..n]);
      StepElsewhere(p, Run(p, healed, later[..n]), later[n], op.k);
      SameStaysSynced(p, Run(p, healed, later[..n]), Run(p, healed, later), op.k);
    }
  }

  /** A search misses no matching file of the vault and returns no stale row. */
  lemma SearchExact(p: Parser, s: State, slug: string, matches: Meta -> bool, k: Key)
    requires InSync(p, s) && Mirrors(s.tables)
    ensures (exists row :: Joined(s.tables, slug, matches, k, row)) <==>
      k.slug == slug && k in s.files && p.utf8(s.files[k]) && matches(p.parse(s.files[k]))
    ensures forall row :: Joined(s.tables, slug, matches, k, row) ==> row.meta == p.parse(s.files[k])
  {
    assert SyncedAt(p, s, k);
    if k in s.tables.pages {
      assert Shows(s.tables, k);
      assert k.slug == slug && matches(s.tables.pages[k].meta) ==> Joined(s.tables, slug, matches, k, s.tables.pages[k]);
    }
  }

  /** Renaming the directory `d`, which holds one note, loses the note's page. */
  lemma DirectoryRenameStrands(p: Parser, content: string)
    requires HashTellsPages(p) && p.utf8(content)
    ensures var k := Key("v", "d/n.md");
      var s := State(map[k := content], Tables(map[k := Row(1, p.parse(content), p.hash(content))], map[1 := p.parse(content)]));
      var op := Move(Key("v", "d"), "e", false, Done, Faults(false, 0, 0, 0, 2));
      InSync(p, s) && Mirrors(s.tables) && Faultless(s, op) && !InSync(p, Step(p, s, op))
  {
    var k := Key("v", "d/n.md");
    var s := State(map[k := content], Tables(map[k := Row(1, p.parse(content), p.hash(content))], map[1 := p.parse(content)]));
    var op := Move(Key("v", "d"), "e", false, Done, Faults(false, 0, 0, 0, 2));
    assert Used(s.tables.pages, 1) by {
      assert s.tables.pages[k].rowid == 1;
    }
    assert "d" + "/" == "d/" && ("e" + "/")[0] == 'e' && k.path[0] == 'd';
    assert Below(Key("v", "d"), k) && AtOrBelow(Key("v", "d"), k);
    assert !AtOrBelow(Key("v", "e"), k) && !AtOrBelow(Key("v", "d"), Key("v", "e"));
    assert Strands(p, s, op);
    StepExact(p, s, op);
  }

  // ------------------------------------------------------------ the application's methods

  class Vaults {
    var files: map<Key, string>
    const store: Store
    const parser: Parser

    ghost function Whole(): State
      reads this, store
    {
      State(files, store.State())
    }

    constructor (files: map<Key, string>, store: Store, parser: Parser)
      ensures this.files == files && this.store == store && this.parser == parser
    {
      this.files, this.store, this.parser := files, store, parser;
    }

    method UpdatePageIndex(k: Key, f: Faults) returns (ok: bool)
      modifies store
      ensures Whole() == Step(parser, old(Whole()), Update(k, f))
      ensures ok <==> IndexGoes(parser, old(Whole()), k, f)
      ensures f.read || k !in files ==> !ok && store.State() == old(store.State())
      ensures !f.read && k in files && !parser.utf8(files[k]) && k.slug != "" && k.path != "" && f.delete == 0 ==>
        ok && store.pages == old(store.pages) - {k}
      ensures !f.read && k in files && parser.utf8(files[k]) ==>
          var known := k.slug != "" && k.path != "" && f.get == 0 && k in old(store.pages);
          var same := known && old(store.pages[k]).hash == parser.hash(files[k]);
          && (same ==> ok && store.State() == old(store.State()))
          && (!same && ok ==>
                && k in store.pages && store.pages - {k} == old(store.pages) - {k}
                && store.pages[k].meta == parser.parse(files[k]) && store.pages[k].hash == parser.hash(files[k]))
    {
      if f.read || k !in files {
        return false;
      }
      var content := files[k];
      if !parser.utf8(content) {
        ok := store.DeletePageIndex(k, f.delete);
        return;
      }
      var meta, hash := parser.parse(content), parser.hash(content);
      var got, found, existing := store.GetPageIndex(k, f.get);
      if got && found && existing.hash == hash {
        return true;
      }
      ok := store.UpsertPageIndex(k, meta, hash, f.newId, f.upsert);
    }

    method UpdatePageIndexPath(from: Key, to: Key, f: Faults) returns (ok: bool)
      modifies store
      ensures store.State() == Repathed(old(store.State()), from, to, f)
      ensures ok <==> RepathGoes(old(store.State()), from, to, f)
      ensures from.slug == "" || from.path == "" || f.get != 0 || from !in old(store.pages) ==>
        ok && store.State() == old(store.State())
      ensures from.slug != "" && from.path != "" && f.get == 0 && from in old(store.pages) && ok ==>
        && to in store.pages && store.pages - {to} == old(store.pages) - {from} - {to}
        && store.pages[to].meta == old(store.pages[from]).meta && store.pages[to].hash == old(store.pages[from]).hash
      ensures !ok ==> store.pages == old(store.pages) || store.pages == old(store.pages) - {from}
    {
      var got, found, existing := store.GetPageIndex(from, f.get);
      if !got || !found {
        return true;
      }
      ok := store.DeletePageIndex(from, f.delete);
      if !ok {
        return;
      }
      ok := store.UpsertPageIndex(to, existing.meta, existing.hash, f.newId, f.upsert);
    }

    /** The write under the path's lock, and after it the index update, whose failure
        is only logged, the git queue and the final look at the file. */
    method WriteTextFile(k: Key, content: string, outcome: Outcome, f: Faults, enqueues: bool, stats: bool)
      returns (ok: bool)
      modifies this`files, store
      ensures Whole() == Step(parser, old(Whole()), Write(k, content, outcome, f))
      ensures ok <==> outcome.Done? && enqueues && stats
      ensures outcome.Refused? ==> files == old(files) && store.State() == old(store.State())
      ensures outcome.Done? ==> files == old(files)[k := content]
      ensures outcome.Broken? ==> files == old(files)[k := outcome.left] && store.State() == old(store.State())
    {
      if outcome.Refused? {
        return false;
      }
      if outcome.Broken? {
        files := files[k := outcome.left];
        return false;
      }
      files := files[k := content];
      var indexed := UpdatePageIndex(k, f);
      ok := enqueues && stats;
    }

    method CreateTextFile(k: Key, content: string, outcome: Outcome, f: Faults, enqueues: bool, stats: bool)
      returns (ok: bool)
      modifies this`files, store
      ensures Whole() == Step(parser, old(Whole()), Create(k, content, outcome, f))
      ensures ok <==> outcome.Done? && !Exists(old(files), k) && enqueues && stats
      ensures k in old(files) || Exists(old(files), k) || outcome.Refused? ==>
        !ok && files == old(files) && store.State() == old(store.State())
      ensures outcome.Done? && !Exists(old(files), k) ==> files == old(files)[k := content]
    {
      if Exists(files, k) {
        return false;
      }
      ok := WriteTextFile(k, content, outcome, f, enqueues, stats);
    }

    method MovePath(from: Key, target: string, emptyDir: bool, outcome: Outcome, f: Faults, enqueues: bool)
      returns (ok: bool)
      modifies this`files, store
      ensures Whole() == Step(parser, old(Whole()), Move(from, target, emptyDir, outcome, f))
      ensures ok <==> outcome.Done? && Moves(old(Whole()), Move(from, target, emptyDir, outcome, f)) && enqueues
      ensures var to := Key(from.slug, target);
        if outcome.Refused? || Exists(old(files), to) || !(Exists(old(files), from) || emptyDir) || AtOrBelow(from, to)
        then !ok && files == old(files) && store.State() == old(store.State())
        else ok == (outcome.Done? && enqueues) && files == MovedFiles(old(files), from, to)
    {
      var to := Key(from.slug, target);
      if Exists(files, to) || !(Exists(files, from) || emptyDir) || outcome.Refused? || AtOrBelow(from, to) {
        return false;
      }
      files := MovedFiles(files, from, to);
      if outcome.Broken? {
        return false;
      }
      var indexed := UpdatePageIndexPath(from, to, f);
      ok := enqueues;
    }

    method DeletePath(k: Key, outcome: Outcome, f: Faults, enqueues: bool) returns (ok: bool)
      modifies this`files, store
      ensures Whole() == Step(parser, old(Whole()), Delete(k, outcome, f))
      ensures ok <==> outcome.Done? && enqueues
      ensures outcome.Refused? ==> files == old(files) && store.State() == old(store.State())
      ensures !outcome.Refused? ==>
        forall j :: (j in files <==> j in old(files) && !AtOrBelow(k, j)) && (j in files ==> files[j] == old(files)[j])
    {
      if outcome.Refused? {
        return false;
      }
      files := Removed(files, k);
      if outcome.Broken? {
        return false;
      }
      var indexed := store.DeletePageIndex(k, f.delete);
      ok := enqueues;
    }
  }
}
