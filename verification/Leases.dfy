/** The lease table `file_locks` and the calls of the lock service.

    The database performs one statement at a time, but a call can take several,
    and nothing keeps other calls from coming in between.  So a run is a sequence
    of statements; what others do in the gaps of a call is a parameter of it.
    Functions say what each call does, the class `LockService` performs it in place. */
module Leases {
  import opened Basics
  import opened Instants

  type Key = (int, string)     // vault and path

  /** One row; the column expires_at holds `Format(expires)`. */
  datatype Lease = Lease(owner: string, source: string, expires: Instant)

  type Table = map<Key, Lease>

  datatype Error = BadArguments | Locked | NotOwner | Database

  datatype Result<+T> = Ok(value: T) | Err(error: Error)

  /** Which SQL statement of a call fails, if any. */
  datatype Fault = NoFault | CleanupFails | SelectFails | WriteFails

  // ------------------------------------------------------------ statements

  /** The row is removed by `DELETE ... WHERE expires_at <= now`, a comparison of texts. */
  predicate Swept(l: Lease, now: Instant) {
    TextLeq(Format(l.expires), Format(now))
  }

  function Cleaned(t: Table, now: Instant): Table {
    map k | k in t && !Swept(t[k], now) :: t[k]
  }

  /** What changes the table. */
  datatype Statement =
    | Sweep
    | Upsert(key: Key, owner: string, source: string, ttl: nat)    // the last statement of an Acquire
    | Extend(key: Key, owner: string, ttl: nat)                    // of a Heartbeat
    | Remove(key: Key, owner: string)                              // of a Release

  /** `now` is what the clock said when the statement's call began. */
  datatype Event = Event(statement: Statement, now: Instant, fails: bool)

  function Extended(t: Table, k: Key, owner: string, expires: Instant): Table {
    if k in t && t[k].owner == owner then t[k := t[k].(expires := expires)] else t
  }

  function Removed(t: Table, k: Key, owner: string): Table {
    map j | j in t && !(j == k && t[j].owner == owner) :: t[j]
  }

  function Perform(t: Table, e: Event): Table {
    if e.fails then t
    else
      match e.statement
      case Sweep => Cleaned(t, e.now)
      case Upsert(k, owner, source, ttl) => t[k := Lease(owner, source, e.now + ttl)]
      case Extend(k, owner, ttl) => Extended(t, k, owner, e.now + ttl)
      case Remove(k, owner) => Removed(t, k, owner)
  }

  function PerformAll(t: Table, es: seq<Event>): Table
    decreases |es|
  {
    if es == [] then t else Perform(PerformAll(t, es[..|es| - 1]), es[|es| - 1])
  }

  lemma {:induction false} PerformConcat(t: Table, a: seq<Event>, b: seq<Event>)
    ensures PerformAll(t, a + b) == PerformAll(PerformAll(t, a), b)
    decreases |b|
  {
    if b == [] {
      assert a + b == a;
    } else {
      PerformConcat(t, a, b[..|b| - 1]);
      assert (a + b)[..|a + b| - 1] == a + b[..|b| - 1];
    }
  }

  // ------------------------------------------------------------ the calls as functions

  predicate WellFormed(k: Key, owner: string, source: string) {
    k.0 != 0 && k.1 != "" && owner != "" && source != ""
  }

  /** The check of an Acquire: nobody else's lease is running. */
  predicate Passes(t: Table, k: Key, owner: string, now: Instant) {
    !(k in t && now < t[k].expires && t[k].owner != owner)
  }

  /** `swept` and `checked` are others' statements after the sweep and after the check. */
  function Acquired(t: Table, k: Key, owner: string, source: string, ttl: nat, now: Instant, f: Fault,
                    swept: seq<Event>, checked: seq<Event>): (res: (Table, Result<Lease>))
  {
    if !WellFormed(k, owner, source) then (t, Err(BadArguments))
    else if f.CleanupFails? then (t, Err(Database))
    else AcquiredFrom(PerformAll(Cleaned(t, now), swept), k, owner, source, ttl, now, f, checked)
  }

  /** ... from its check on. */
  function AcquiredFrom(t: Table, k: Key, owner: string, source: string, ttl: nat, now: Instant, f: Fault,
                        checked: seq<Event>): (res: (Table, Result<Lease>))
  {
    if f.SelectFails? then (t, Err(Database))
    else if !Passes(t, k, owner, now) then (t, Err(Locked))
    else
      var t', l := PerformAll(t, checked), Lease(owner, source, now + ttl);
      if f.WriteFails? then (t', Err(Database)) else (t'[k := l], Ok(l))
  }

  function Got(t: Table, k: Key, now: Instant, f: Fault, swept: seq<Event>): (Table, Result<Option<Lease>>) {
    if f.CleanupFails? then (t, Err(Database))
    else
      var t' := PerformAll(Cleaned(t, now), swept);
      (t', if f.SelectFails? then Err(Database) else Ok(if k in t' then Some(t'[k]) else None))
  }

  function Utf8Width(c: char): nat {
    var code := c as int;
    if code < 0x80 then 1 else if code < 0x800 then 2 else if code < 0x1_0000 then 3 else 4
  }

  function Utf8Length(s: string): nat {
    if s == "" then 0 else Utf8Width(s[0]) + Utf8Length(s[1..])
  }

  /** The condition of the query for a directory: the path itself, or
      `substr(path, 1, n) = dir || '/'`, where the database counts characters and
      the service passes the length in bytes. */
  predicate Under(dir: string, path: string) {
    var n := Utf8Length(dir) + 1;
    path == dir || (if n <= |path| then path[..n] else path) == dir + "/"
  }

  predicate Below(dir: string, path: string) {
    |dir| + 1 < |path| && path[..|dir| + 1] == dir + "/"
  }

  predicate Ascii(s: string) {
    forall i :: 0 <= i < |s| ==> s[i] as int < 0x80
  }

  lemma {:induction false} Utf8LengthExact(s: string)
    ensures Utf8Length(s) >= |s| && (Utf8Length(s) == |s| <==> Ascii(s))
  {
    if s != "" {
      Utf8LengthExact(s[1..]);
      assert Ascii(s) <==> s[0] as int < 0x80 && Ascii(s[1..]);
    }
  }

  /** What the query lists: the directory itself, and what is below it exactly if
      the directory's path is ASCII.  (No path of a vault ends with a slash.) */
  lemma UnderExact(dir: string, path: string)
    ensures Under(dir, path) <==> path == dir || path == dir + "/" || (Below(dir, path) && Ascii(dir))
  {
    Utf8LengthExact(dir);
    if path != dir && path != dir + "/" && Under(dir, path) {
      assert |path[..Utf8Length(dir) + 1]| == |dir| + 1;
    }
  }

  function ListedUnder(t: Table, vault: int, dir: string, now: Instant, f: Fault, swept: seq<Event>)
    : (Table, Result<set<Key>>)
  {
    if f.CleanupFails? then (t, Err(Database))
    else
      var t' := PerformAll(Cleaned(t, now), swept);
      (t', if f.SelectFails? then Err(Database) else Ok(set k | k in t' && k.0 == vault && Under(dir, k.1)))
  }

  function Beaten(t: Table, k: Key, owner: string, ttl: nat, now: Instant, f: Fault): (Table, Result<()>) {
    if f.WriteFails? then (t, Err(Database))
    else (Extended(t, k, owner, now + ttl), if k in t && t[k].owner == owner then Ok(()) else Err(NotOwner))
  }

  function Released(t: Table, k: Key, owner: string, f: Fault): (Table, Result<()>) {
    if f.WriteFails? then (t, Err(Database)) else (Removed(t, k, owner), Ok(()))
  }

  function SweptBy(t: Table, now: Instant, f: Fault): (Table, Result<nat>) {
    var t' := if f.CleanupFails? then t else Cleaned(t, now);
    (t', if f.CleanupFails? then Err(Database) else Ok(|t.Keys - t'.Keys|))
  }

  // ------------------------------------------------------------ the service

  class LockService {
    var rows: Table

    constructor (rows: Table)
      ensures this.rows == rows
    {
      this.rows := rows;
    }

    method CleanupExpired(now: Instant, f: Fault) returns (r: Result<nat>)
      modifies this
      ensures (rows, r) == SweptBy(old(rows), now, f)
      ensures f.CleanupFails? ==> r == Err(Database) && rows == old(rows)
      ensures !f.CleanupFails? ==>
        && (forall j :: j in rows <==> j in old(rows) && !Swept(old(rows)[j], now))
        && (forall j :: j in rows ==> rows[j] == old(rows)[j])
        && r == Ok(|old(rows).Keys - rows.Keys|)
    {
      if f.CleanupFails? {
        return Err(Database);
      }
      var expired := set k | k in rows && Swept(rows[k], now);
      ghost var left := Cleaned(rows, now);
      assert expired == rows.Keys - left.Keys;
      assert rows - expired == left;
      rows := rows - expired;
      return Ok(|expired|);
    }

    method Acquire(k: Key, owner: string, source: string, ttl: nat, now: Instant, f: Fault,
                   swept: seq<Event>, checked: seq<Event>)
      returns (r: Result<Lease>)
      modifies this
      ensures (rows, r) == Acquired(old(rows), k, owner, source, ttl, now, f, swept, checked)
    {
      if k.0 == 0 || k.1 == "" || owner == "" || source == "" {
        return Err(BadArguments);
      }
      var cleaned := CleanupExpired(now, f);
      if cleaned.Err? {
        return Err(Database);
      }
      rows := PerformAll(rows, swept);
      r := SelectAndUpsert(k, owner, source, ttl, now, f, checked);
    }

    /** The second and third statement of `Acquire`. */
    method SelectAndUpsert(k: Key, owner: string, source: string, ttl: nat, now: Instant, f: Fault, checked: seq<Event>)
      returns (r: Result<Lease>)
      modifies this
      ensures (rows, r) == AcquiredFrom(old(rows), k, owner, source, ttl, now, f, checked)
    {
      if f.SelectFails? {
        return Err(Database);
      }
      if k in rows {
        var existing := rows[k];
        if now < existing.expires && existing.owner != owner {
          return Err(Locked);
        }
      }
      rows := PerformAll(rows, checked);
      if f.WriteFails? {
        return Err(Database);
      }
      var lease := Lease(owner, source, now + ttl);
      rows := rows[k := lease];
      return Ok(lease);
    }

    method Get(k: Key, now: Instant, f: Fault, swept: seq<Event>) returns (r: Result<Option<Lease>>)
      modifies this
      ensures (rows, r) == Got(old(rows), k, now, f, swept)
      ensures f.CleanupFails? || f.SelectFails? <==> r.Err?
      ensures f.CleanupFails? ==> rows == old(rows)
      ensures !f.CleanupFails? ==> rows == PerformAll(Cleaned(old(rows), now), swept)
      ensures r.Ok? ==> (r.value.Some? <==> k in rows) && (k in rows ==> r.value == Some(rows[k]))
    {
      var cleaned := CleanupExpired(now, f);
      if cleaned.Err? {
        return Err(Database);
      }
      rows := PerformAll(rows, swept);
      if f.SelectFails? {
        return Err(Database);
      }
      return Ok(if k in rows then Some(rows[k]) else None);
    }

    method ActiveUnder(vault: int, dir: string, now: Instant, f: Fault, swept: seq<Event>) returns (r: Result<set<Key>>)
      modifies this
      ensures (rows, r) == ListedUnder(old(rows), vault, dir, now, f, swept)
      ensures f.CleanupFails? || f.SelectFails? <==> r.Err?
      ensures f.CleanupFails? ==> rows == old(rows)
      ensures !f.CleanupFails? ==> rows == PerformAll(Cleaned(old(rows), now), swept)
      ensures r.Ok? ==> forall j :: j in r.value <==> j in rows && j.0 == vault && Under(dir, j.1)
    {
      var cleaned := CleanupExpired(now, f);
      if cleaned.Err? {
        return Err(Database);
      }
      rows := PerformAll(rows, swept);
      if f.SelectFails? {
        return Err(Database);
      }
      return Ok(set k | k in rows && k.0 == vault && Under(dir, k.1));
    }

    method Heartbeat(k: Key, owner: string, ttl: nat, now: Instant, f: Fault) returns (r: Result<()>)
      modifies this
      ensures (rows, r) == Beaten(old(rows), k, owner, ttl, now, f)
      ensures f.WriteFails? ==> r == Err(Database)
      ensures !f.WriteFails? ==> r == if k in old(rows) && old(rows)[k].owner == owner then Ok(()) else Err(NotOwner)
      ensures r.Err? ==> rows == old(rows)
      ensures r.Ok? ==> rows == old(rows)[k := Lease(owner, old(rows)[k].source, now + ttl)]
    {
      if f.WriteFails? {
        return Err(Database);
      }
      if k !in rows || rows[k].owner != owner {
        return Err(NotOwner);
      }
      rows := rows[k := rows[k].(expires := now + ttl)];
      return Ok(());
    }

    method Release(k: Key, owner: string, f: Fault) returns (r: Result<()>)
      modifies this
      ensures (rows, r) == Released(old(rows), k, owner, f)
      ensures f.WriteFails? ==> r == Err(Database) && rows == old(rows)
      ensures !f.WriteFails? ==> r == Ok(())
      ensures !f.WriteFails? && k in old(rows) && old(rows)[k].owner == owner ==> rows == old(rows) - {k}
      ensures !(k in old(rows) && old(rows)[k].owner == owner) ==> rows == old(rows)
    {
      if f.WriteFails? {
        return Err(Database);
      }
      var matching := set j | j in rows && j == k && rows[j].owner == owner;
      assert rows - matching == Removed(rows, k, owner);
      rows := rows - matching;
      return Ok(());
    }
  }

  // ------------------------------------------------------------ what an Acquire answers

  lemma {:induction false} AcquiredFromExact(t: Table, k: Key, owner: string, source: string, ttl: nat,
                                             now: Instant, f: Fault, checked: seq<Event>)
    ensures var (t', r) := AcquiredFrom(t, k, owner, source, ttl, now, f, checked);
      if f.SelectFails? then r == Err(Database) && t' == t
      else if k in t && t[k].owner != owner && now < t[k].expires then r == Err(Locked) && t' == t
      else if f.WriteFails? then r == Err(Database) && t' == PerformAll(t, checked)
      else r == Ok(Lease(owner, source, now + ttl)) && t' == PerformAll(t, checked)[k := Lease(owner, source, now + ttl)]
  {
  }

  /** Every answer and the table with it: arguments come first, then the sweep, the
      select, the running lease of somebody else, and the write. */
  lemma {:induction false} AcquiredExact(t: Table, k: Key, owner: string, source: string, ttl: nat, now: Instant,
                                         f: Fault, swept: seq<Event>, checked: seq<Event>)
    ensures var (t', r) := Acquired(t, k, owner, source, ttl, now, f, swept, checked);
      var found := PerformAll(Cleaned(t, now), swept);
      if k.0 == 0 || k.1 == "" || owner == "" || source == "" then r == Err(BadArguments) && t' == t
      else if f.CleanupFails? then r == Err(Database) && t' == t
      else if f.SelectFails? then r == Err(Database) && t' == found
      else if k in found && found[k].owner != owner && now < found[k].expires then r == Err(Locked) && t' == found
      else if f.WriteFails? then r == Err(Database) && t' == PerformAll(found, checked)
      else r == Ok(Lease(owner, source, now + ttl)) && t' == PerformAll(found, checked)[k := Lease(owner, source, now + ttl)]
  {
    if WellFormed(k, owner, source) && !f.CleanupFails? {
      AcquiredFromExact(PerformAll(Cleaned(t, now), swept), k, owner, source, ttl, now, f, checked);
    }
  }

  // ------------------------------------------------------------ calls are statements

  datatype Call =
    | Acquire(key: Key, owner: string, source: string, ttl: nat)
    | Get(key: Key)
    | ActiveUnder(vault: int, dir: string)
    | Heartbeat(key: Key, owner: string, ttl: nat)
    | Release(key: Key, owner: string)
    | CleanupExpired

  /** What the call does to the table, others' statements in its gaps included. */
  function After(t: Table, call: Call, now: Instant, f: Fault, swept: seq<Event>, checked: seq<Event>): Table {
    match call
    case Acquire(k, owner, source, ttl) => Acquired(t, k, owner, source, ttl, now, f, swept, checked).0
    case Get(k) => Got(t, k, now, f, swept).0
    case ActiveUnder(vault, dir) => ListedUnder(t, vault, dir, now, f, swept).0
    case Heartbeat(k, owner, ttl) => Beaten(t, k, owner, ttl, now, f).0
    case Release(k, owner) => Released(t, k, owner, f).0
    case CleanupExpired => SweptBy(t, now, f).0
  }

  /** The statements performed on the way, in order. */
  function Statements(t: Table, call: Call, now: Instant, f: Fault, swept: seq<Event>, checked: seq<Event>)
    : seq<Event>
  {
    var sweep := Event(Sweep, now, f.CleanupFails?);
    var gap := if f.CleanupFails? then [] else swept;
    match call
    case Acquire(k, owner, source, ttl) =>
      if !WellFormed(k, owner, source) then []
      else if f.CleanupFails? || f.SelectFails? || !Passes(PerformAll(Cleaned(t, now), swept), k, owner, now)
        then [sweep] + gap
      else [sweep] + gap + (checked + [Event(Upsert(k, owner, source, ttl), now, f.WriteFails?)])
    case Heartbeat(k, owner, ttl) => [Event(Extend(k, owner, ttl), now, f.WriteFails?)]
    case Release(k, owner) => [Event(Remove(k, owner), now, f.WriteFails?)]
    case CleanupExpired => [sweep]
    case _ => [sweep] + gap
  }

  lemma {:induction false} PerformOne(t: Table, e: Event)
    ensures PerformAll(t, [e]) == Perform(t, e)
  {
    assert [e][..0] == [];
  }

  /** Every call of the service does to the table what its statements do. */
  lemma {:induction false} CallIsStatements(t: Table, call: Call, now: Instant, f: Fault, swept: seq<Event>,
                                            checked: seq<Event>)
    ensures After(t, call, now, f, swept, checked) == PerformAll(t, Statements(t, call, now, f, swept, checked))
  {
    match call
    case Acquire(k, owner, source, ttl) => AcquireIsStatements(t, k, owner, source, ttl, now, f, swept, checked);
    case Heartbeat(k, owner, ttl) => PerformOne(t, Event(Extend(k, owner, ttl), now, f.WriteFails?));
    case Release(k, owner) => PerformOne(t, Event(Remove(k, owner), now, f.WriteFails?));
    case _ => SweepIsStatements(t, now, f, swept);
  }

  lemma {:induction false} SweepIsStatements(t: Table, now: Instant, f: Fault, swept: seq<Event>)
    ensures var sweep := Event(Sweep, now, f.CleanupFails?);
      && PerformAll(t, [sweep]) == (if f.CleanupFails? then t else Cleaned(t, now))
      && PerformAll(t, [sweep] + (if f.CleanupFails? then [] else swept)) ==
           (if f.CleanupFails? then t else PerformAll(Cleaned(t, now), swept))
  {
    var sweep := Event(Sweep, now, f.CleanupFails?);
    PerformOne(t, sweep);
    PerformConcat(t, [sweep], if f.CleanupFails? then [] else swept);
  }

  lemma {:induction false} AcquireIsStatements(t: Table, k: Key, owner: string, source: string, ttl: nat,
                                               now: Instant, f: Fault, swept: seq<Event>, checked: seq<Event>)
    ensures Acquired(t, k, owner, source, ttl, now, f, swept, checked).0 ==
            PerformAll(t, Statements(t, Acquire(k, owner, source, ttl), now, f, swept, checked))
  {
    if WellFormed(k, owner, source) {
      SweepIsStatements(t, now, f, swept);
      if !f.CleanupFails? && !f.SelectFails? && Passes(PerformAll(Cleaned(t, now), swept), k, owner, now) {
        UpsertIsStatements(PerformAll(Cleaned(t, now), swept), k, owner, source, ttl, now, f, checked);
        PerformConcat(t, [Event(Sweep, now, false)] + swept,
                      checked + [Event(Upsert(k, owner, source, ttl), now, f.WriteFails?)]);
      }
    }
  }

  lemma {:induction false} UpsertIsStatements(t: Table, k: Key, owner: string, source: string, ttl: nat,
                                              now: Instant, f: Fault, checked: seq<Event>)
    requires !f.SelectFails? && Passes(t, k, owner, now)
    ensures AcquiredFrom(t, k, owner, source, ttl, now, f, checked).0 ==
            PerformAll(t, checked + [Event(Upsert(k, owner, source, ttl), now, f.WriteFails?)])
  {
    var last := Event(Upsert(k, owner, source, ttl), now, f.WriteFails?);
    PerformConcat(t, checked, [last]);
    PerformOne(PerformAll(t, checked), last);
  }

  // ------------------------------------------------------------ one statement and a row

  predicate ByOwner(st: Statement, owner: string) {
    !st.Sweep? && st.owner == owner
  }

  /** Somebody else's Acquire writes over the path. */
  predicate Overwrites(e: Event, k: Key, owner: string) {
    e.statement.Upsert? && e.statement.key == k && e.statement.owner != owner && !e.fails
  }

  predicate GivesUp(e: Event, k: Key, owner: string) {
    e.statement == Remove(k, owner) && !e.fails
  }

  predicate Breaks(e: Event, k: Key, owner: string) {
    Overwrites(e, k, owner) || GivesUp(e, k, owner)
  }

  lemma NotSweptBefore(l: Lease, now: Instant)
    requires Second(now) < Second(l.expires) && Writable(l.expires)
    ensures !Swept(l, now) && now < l.expires
  {
    if TextLeq(Format(l.expires), Format(now)) {
      TextOrderIsTimeOrder(now, l.expires);
    }
  }

  lemma SweepKeepsRow(t: Table, k: Key, now: Instant)
    requires k in t && Writable(t[k].expires) && Second(now) < Second(t[k].expires)
    ensures k in Cleaned(t, now) && Cleaned(t, now)[k] == t[k] && now < t[k].expires
  {
    NotSweptBefore(t[k], now);
  }

  lemma OthersWrite(t: Table, k: Key, owner: string, e: Event)
    requires k in t && t[k].owner == owner && !e.statement.Sweep? && e.statement.owner != owner
    ensures k in Perform(t, e) && Perform(t, e)[k] == t[k] <==> !Overwrites(e, k, owner)
  {
  }

  /** Of all statements of others, before the row's last second, exactly the
      upsert of an Acquire touches it. */
  lemma OthersKeepRow(t: Table, k: Key, owner: string, e: Event)
    requires k in t && t[k].owner == owner && Writable(t[k].expires) && !ByOwner(e.statement, owner)
    requires e.statement.Sweep? ==> Second(e.now) < Second(t[k].expires)
    ensures k in Perform(t, e) && Perform(t, e)[k] == t[k] <==> !Overwrites(e, k, owner)
  {
    if e.statement.Sweep? {
      if !e.fails {
        SweepKeepsRow(t, k, e.now);
      }
    } else {
      OthersWrite(t, k, owner, e);
    }
  }

  // ------------------------------------------------------------ holding a path

  /** The owner holds the path, at least until then. */
  predicate HeldUntil(t: Table, k: Key, owner: string, until: int) {
    k in t && t[k].owner == owner && until <= t[k].expires && Writable(t[k].expires)
  }

  predicate Renews(st: Statement, k: Key, owner: string) {
    (st.Upsert? || st.Extend?) && st.key == k && st.owner == owner
  }

  /** Sweeps come in an earlier second than `until`, and the owner's own lease
      calls for the path ask for at least as long. */
  predicate Before(e: Event, k: Key, owner: string, until: Instant) {
    && (e.statement.Sweep? ==> Second(e.now) < Second(until))
    && (Renews(e.statement, k, owner) ==> until <= e.now + e.statement.ttl && Writable(e.now + e.statement.ttl))
  }

  lemma SecondsInOrder(a: Instant, b: Instant)
    requires a <= b
    ensures Second(a) <= Second(b)
  {
  }

  lemma HeldWrite(t: Table, k: Key, owner: string, until: Instant, e: Event)
    requires HeldUntil(t, k, owner, until) && Before(e, k, owner, until) && !e.statement.Sweep?
    ensures HeldUntil(Perform(t, e), k, owner, until) <==> !Breaks(e, k, owner)
  {
  }

  /** Of all statements, by anybody, exactly two end the holding: the owner's own
      release and another's upsert. */
  lemma HeldStep(t: Table, k: Key, owner: string, until: Instant, e: Event)
    requires HeldUntil(t, k, owner, until) && Before(e, k, owner, until)
    ensures HeldUntil(Perform(t, e), k, owner, until) <==> !Breaks(e, k, owner)
  {
    if e.statement.Sweep? {
      if !e.fails {
        SecondsInOrder(until, t[k].expires);
        SweepKeepsRow(t, k, e.now);
      }
    } else {
      HeldWrite(t, k, owner, until, e);
    }
  }

  predicate AllBefore(es: seq<Event>, k: Key, owner: string, until: Instant) {
    forall i :: 0 <= i < |es| ==> Before(es[i], k, owner, until)
  }

  predicate NoneBreaks(es: seq<Event>, k: Key, owner: string) {
    forall i :: 0 <= i < |es| ==> !Breaks(es[i], k, owner)
  }

  predicate HeldThroughout(t: Table, k: Key, owner: string, until: Instant, es: seq<Event>) {
    forall n :: 0 <= n <= |es| ==> HeldUntil(PerformAll(t, es[..n]), k, owner, until)
  }

  /** Over whole runs of statements, the owner's own included. */
  lemma {:induction false} HeldAlways(t: Table, k: Key, owner: string, until: Instant, es: seq<Event>)
    requires HeldUntil(t, k, owner, until) && AllBefore(es, k, owner, until) && NoneBreaks(es, k, owner)
    ensures HeldUntil(PerformAll(t, es), k, owner, until)
    decreases |es|
  {
    if es != [] {
      var n := |es| - 1;
      HeldAlways(t, k, owner, until, es[..n]);
      HeldStep(PerformAll(t, es[..n]), k, owner, until, es[n]);
    }
  }

  /** The path is held all along exactly if none of them breaks in. */
  lemma HeldExactly(t: Table, k: Key, owner: string, until: Instant, es: seq<Event>)
    requires HeldUntil(t, k, owner, until) && AllBefore(es, k, owner, until)
    ensures HeldThroughout(t, k, owner, until, es) <==> NoneBreaks(es, k, owner)
  {
    if NoneBreaks(es, k, owner) {
      forall n | 0 <= n <= |es| ensures HeldUntil(PerformAll(t, es[..n]), k, owner, until) {
        HeldAlways(t, k, owner, until, es[..n]);
      }
    } else {
      var i :| 0 <= i < |es| && Breaks(es[i], k, owner);
      if HeldUntil(PerformAll(t, es[..i]), k, owner, until) {
        HeldStep(PerformAll(t, es[..i]), k, owner, until, es[i]);
        assert es[..i + 1][..i] == es[..i];
        assert !HeldUntil(PerformAll(t, es[..i + 1]), k, owner, until);
      }
    }
  }

  /** Only its own upsert gives an owner a path. */
  lemma OthersDoNotGive(t: Table, k: Key, owner: string, e: Event)
    requires k in Perform(t, e) && Perform(t, e)[k].owner == owner
    requires !(e.statement.Upsert? && e.statement.key == k && e.statement.owner == owner)
    ensures k in t && t[k].owner == owner
  {
  }

  // ------------------------------------------------------------ other paths

  ghost predicate SameRow(a: Table, b: Table, j: Key) {
    (j in a <==> j in b) && (j in a && j in b ==> a[j] == b[j])
  }

  /** The tables differ at most at `k`. */
  ghost predicate AgreeBut(a: Table, b: Table, k: Key) {
    forall j :: j != k ==> SameRow(a, b, j)
  }

  lemma SameRowStep(a: Table, b: Table, j: Key, e: Event)
    requires SameRow(a, b, j)
    ensures SameRow(Perform(a, e), Perform(b, e), j)
  {
  }

  /** What happens to a path does not depend on the row of another. */
  lemma {:induction false} AgreeAlways(a: Table, b: Table, k: Key, es: seq<Event>)
    requires AgreeBut(a, b, k)
    ensures AgreeBut(PerformAll(a, es), PerformAll(b, es), k)
    decreases |es|
  {
    if es != [] {
      var n := |es| - 1;
      AgreeAlways(a, b, k, es[..n]);
      forall j | j != k ensures SameRow(PerformAll(a, es), PerformAll(b, es), j) {
        SameRowStep(PerformAll(a, es[..n]), PerformAll(b, es[..n]), j, es[n]);
      }
    }
  }

  // ------------------------------------------------------------ exclusion

  /** Lease exclusion over whole runs.  Whatever statements others perform, in
      whatever order, with whatever failures, with sweeps at whatever instants of
      whole seconds before that of the expiry, the row does not change at all,
      unless an Acquire writes over it. */
  lemma {:induction false} LeaseExclusion(t: Table, k: Key, owner: string, es: seq<Event>)
    requires k in t && t[k].owner == owner && Writable(t[k].expires)
    requires forall i :: 0 <= i < |es| ==>
      !ByOwner(es[i].statement, owner) && !Overwrites(es[i], k, owner)
      && (es[i].statement.Sweep? ==> Second(es[i].now) < Second(t[k].expires))
    ensures k in PerformAll(t, es) && PerformAll(t, es)[k] == t[k]
    decreases |es|
  {
    if es != [] {
      LeaseExclusion(t, k, owner, es[..|es| - 1]);
      OthersKeepRow(PerformAll(t, es[..|es| - 1]), k, owner, es[|es| - 1]);
    }
  }

  /** While the path is held every other owner's check is refused. */
  lemma OthersAreRefused(t: Table, k: Key, owner: string, until: Instant, other: string, now: Instant)
    requires HeldUntil(t, k, owner, until) && other != owner && Second(now) < Second(until)
    ensures !Passes(t, k, other, now)
  {
    SecondsInOrder(until, t[k].expires);
  }

  /** The bound is tight: a lease that ends within the current second can be
      taken over before it ends. */
  lemma TakenOverEarly(t: Table, k: Key, other: string, source: string, ttl: nat, now: Instant)
    requires k in t && now < t[k].expires && Writable(t[k].expires)
    requires Second(now) == Second(t[k].expires) && now % NANOS == 0 && WellFormed(k, other, source)
    ensures Acquired(t, k, other, source, ttl, now, NoFault, [], []).1 == Ok(Lease(other, source, now + ttl))
  {
    WholeSecondOutOfOrder(now, t[k].expires);
    TextOrderIsTimeOrder(now, t[k].expires);
  }

  /** Exactly when another owner's Acquire, alone, succeeds on a leased path. */
  lemma AcquireExact(t: Table, k: Key, other: string, source: string, ttl: nat, now: Instant)
    requires k in t && t[k].owner != other && Writable(t[k].expires) && Writable(now) && WellFormed(k, other, source)
    ensures Acquired(t, k, other, source, ttl, now, NoFault, [], []).1.Ok? <==>
            t[k].expires <= now || OutOfOrder(now, t[k].expires)
  {
    TextLeqWithinASecond(t[k].expires, now);
  }
}
