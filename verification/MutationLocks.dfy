/** The two wrappers that run a file operation under a lease: the web one
    (`withFileMutationLock`) and the WebDAV one (`withMutationLock`), and the
    check before a move. */
module MutationLocks {
  import opened Basics
  import opened Instants
  import opened Leases
  import R = LeaseRuns

  /** The moments at which a wrapper calls the lock service, inside `from..to`,
      and the lease time. */
  datatype Timing = Timing(from: Instant, get: Instant, acquire: Instant, to: Instant, ttl: nat)

  /** The lease just taken outlasts the operation. */
  predicate Sensible(c: Timing) {
    && Second(c.from) <= Second(c.get) <= Second(c.acquire) <= Second(c.to)
    && Writable(c.get) && Writable(c.acquire)
    && Second(c.to) < Second(c.acquire + c.ttl) && Writable(c.acquire + c.ttl)
  }

  /** No lease ends while the wrapper runs: each one is over in an earlier
      second than `from` or lasts into a later second than `to`. */
  predicate Steady(t: Table, c: Timing) {
    forall k :: k in t ==>
      && Writable(t[k].expires)
      && (Second(t[k].expires) < Second(c.from) || Second(c.to) < Second(t[k].expires))
  }

  /** ... as far as one path is concerned, from the check of the Acquire on. */
  predicate Settled(t: Table, k: Key, c: Timing) {
    k in t ==> t[k].expires <= c.acquire || Second(c.to) < Second(t[k].expires)
  }

  /** Who holds a path at the end of the wrapper. */
  function Holder(t: Table, k: Key, c: Timing): Option<string> {
    if k in t && Second(c.to) < Second(t[k].expires) then Some(t[k].owner) else None
  }

  function Current(t: Table, c: Timing): Table {
    map k | k in t && Second(c.to) < Second(t[k].expires) :: t[k]
  }

  lemma CleanedIsCurrent(t: Table, now: Instant, c: Timing)
    requires Sensible(c) && Steady(t, c) && Writable(now)
    requires Second(c.from) <= Second(now) <= Second(c.to)
    ensures Cleaned(t, now) == Current(t, c)
  {
    forall k | k in t ensures Swept(t[k], now) <==> !(Second(c.to) < Second(t[k].expires)) {
      if Second(c.to) < Second(t[k].expires) {
        NotSweptBefore(t[k], now);
      } else {
        TextOrderIsTimeOrder(t[k].expires, now);
      }
    }
  }

  function EffectiveOwner(owner: string, transient: string): string {
    if owner == "" then transient else owner
  }

  predicate Free(t: Table, k: Key, owner: string, c: Timing) {
    Holder(t, k, c) == None || Holder(t, k, c) == Some(owner)
  }

  /** Which statement fails in each call of a wrapper. */
  datatype Faults = Faults(get: Fault, acquire: Fault, release: Fault)

  /** What anybody performs in the gaps of a wrapper: between the sweep and the
      select of its Get, between its Get and its Acquire, after the sweep and after
      the check of the Acquire, and while the operation runs. */
  datatype Gaps = Gaps(got: seq<Event>, between: seq<Event>, swept: seq<Event>, checked: seq<Event>,
                       meanwhile: seq<Event>)

  const ALONE := Gaps([], [], [], [], [])

  // ------------------------------------------------------------ the web wrapper

  /** Before the operation: the table, whether the operation runs, under which
      owner, and whether the lease is given back afterwards. */
  datatype Entry = Entry(table: Table, runs: bool, owner: string, release: bool)

  predicate GetFails(owner: string, f: Faults) {
    owner != "" && (f.get.CleanupFails? || f.get.SelectFails?)
  }

  /** The owner had the path already when the wrapper asked. */
  predicate Mine(t: Table, k: Key, owner: string, c: Timing, f: Faults, g: Gaps) {
    var got := Got(t, k, c.get, f.get, g.got).1;
    owner != "" && got.Ok? && got.value.Some? && got.value.value.owner == owner
  }

  /** The table when the Acquire begins. */
  function AtAcquire(t: Table, k: Key, owner: string, c: Timing, f: Faults, g: Gaps): Table {
    if owner == "" then t else PerformAll(Got(t, k, c.get, f.get, g.got).0, g.between)
  }

  /** ... when it checks the path. */
  function AtCheck(t: Table, k: Key, owner: string, c: Timing, f: Faults, g: Gaps): Table {
    PerformAll(Cleaned(AtAcquire(t, k, owner, c, f, g), c.acquire), g.swept)
  }

  /** ... and when it writes its row. */
  function AtGrant(t: Table, k: Key, owner: string, c: Timing, f: Faults, g: Gaps): Table {
    PerformAll(AtCheck(t, k, owner, c, f, g), g.checked)
  }

  function EnterWeb(t: Table, k: Key, owner: string, transient: string, c: Timing, f: Faults, g: Gaps): Entry {
    if GetFails(owner, f) then Entry(Got(t, k, c.get, f.get, g.got).0, false, owner, false)
    else
      var o := EffectiveOwner(owner, transient);
      var found := AtAcquire(t, k, owner, c, f, g);
      var (t', r) := Acquired(found, k, o, "web", c.ttl, c.acquire, f.acquire, g.swept, g.checked);
      Entry(t', r.Ok?, o, !Mine(t, k, owner, c, f, g))
  }

  /** The lease is gone after the operation. */
  predicate GivesBack(e: Entry, f: Faults) {
    e.release && !f.release.WriteFails?
  }

  /** After the operation. */
  function Leave(e: Entry, k: Key, f: Faults): Table {
    if e.runs && e.release then Released(e.table, k, e.owner, f.release).0 else e.table
  }

  /** From entry to exit. */
  function Through(e: Entry, k: Key, f: Faults, meanwhile: seq<Event>): Table {
    if e.runs then Leave(e.(table := PerformAll(e.table, meanwhile)), k, f) else e.table
  }

  /** `withFileMutationLock`; `works` is the operation's success and `work` the
      table when it starts. */
  method WithFileMutationLock(s: LockService, k: Key, owner: string, transient: string, c: Timing, f: Faults,
                              g: Gaps, works: bool)
    returns (ok: bool, ran: bool, work: Table)
    modifies s
    ensures var e := EnterWeb(old(s.rows), k, owner, transient, c, f, g);
      ran == e.runs && work == e.table && s.rows == Through(e, k, f, g.meanwhile) && ok == (e.runs && works)
  {
    var release, effective := true, owner;
    if owner == "" {
      effective := transient;
    } else {
      var got := s.Get(k, c.get, f.get, g.got);
      if got.Err? {
        return false, false, s.rows;
      }
      if got.value.Some? && got.value.value.owner == owner {
        release := false;
      }
      s.rows := PerformAll(s.rows, g.between);
    }
    ok, ran, work := HoldDuring(s, k, effective, "web", release, c, f, g, works);
  }

  /** The common part of both wrappers: acquire, run the operation, give back. */
  method HoldDuring(s: LockService, k: Key, owner: string, source: string, release: bool, c: Timing, f: Faults,
                    g: Gaps, works: bool)
    returns (ok: bool, ran: bool, work: Table)
    modifies s
    ensures var (t', r) := Acquired(old(s.rows), k, owner, source, c.ttl, c.acquire, f.acquire, g.swept, g.checked);
      var e := Entry(t', r.Ok?, owner, release);
      ran == e.runs && work == e.table && s.rows == Through(e, k, f, g.meanwhile) && ok == (e.runs && works)
  {
    var acquired := s.Acquire(k, owner, source, c.ttl, c.acquire, f.acquire, g.swept, g.checked);
    work := s.rows;
    if acquired.Err? {
      return false, false, work;
    }
    s.rows := PerformAll(s.rows, g.meanwhile);
    if release {
      var released := s.Release(k, owner, f.release);
    }
    return works, true, work;
  }

  /** From the check of the Acquire on: it is granted exactly when the path is free
      or the owner's and no statement fails. */
  lemma {:induction false} AcquiredEffect(t: Table, k: Key, owner: string, source: string, c: Timing, f: Fault,
                                          checked: seq<Event>)
    requires Sensible(c) && Settled(t, k, c)
    ensures var (t', r) := AcquiredFrom(t, k, owner, source, c.ttl, c.acquire, f, checked);
      && (r.Ok? <==> Free(t, k, owner, c) && !f.SelectFails? && !f.WriteFails?)
      && (r.Ok? ==> t' == PerformAll(t, checked)[k := Lease(owner, source, c.acquire + c.ttl)])
  {
    if k in t && t[k].expires <= c.acquire {
      SecondsInOrder(t[k].expires, c.acquire);
    }
  }

  /** How the wrapper enters. */
  lemma EnterWebEffect(t: Table, k: Key, owner: string, transient: string, c: Timing, f: Faults, g: Gaps)
    requires Sensible(c) && k.0 != 0 && k.1 != "" && transient != ""
    requires Settled(AtCheck(t, k, owner, c, f, g), k, c)
    ensures var o, e := EffectiveOwner(owner, transient), EnterWeb(t, k, owner, transient, c, f, g);
      && (e.runs <==> !GetFails(owner, f) && f.acquire.NoFault? && Free(AtCheck(t, k, owner, c, f, g), k, o, c))
      && (e.runs ==> e.owner == o && (e.release <==> !Mine(t, k, owner, c, f, g)))
      && (e.runs ==> e.table == AtGrant(t, k, owner, c, f, g)[k := Lease(o, "web", c.acquire + c.ttl)])
  {
    if !GetFails(owner, f) {
      AcquiredEffect(AtCheck(t, k, owner, c, f, g), k, EffectiveOwner(owner, transient), "web", c, f.acquire, g.checked);
    }
  }

  lemma {:induction false} GrantHolds(t: Table, k: Key, owner: string, source: string, c: Timing,
                                      meanwhile: seq<Event>)
    requires Sensible(c) && k in t && t[k] == Lease(owner, source, c.acquire + c.ttl)
    requires AllBefore(meanwhile, k, owner, c.acquire + c.ttl)
    ensures HeldThroughout(t, k, owner, c.acquire + c.ttl, meanwhile) <==> NoneBreaks(meanwhile, k, owner)
    ensures NoneBreaks(meanwhile, k, owner) ==> HeldUntil(PerformAll(t, meanwhile), k, owner, c.acquire + c.ttl)
  {
    HeldExactly(t, k, owner, c.acquire + c.ttl, meanwhile);
    if NoneBreaks(meanwhile, k, owner) {
      HeldAlways(t, k, owner, c.acquire + c.ttl, meanwhile);
    }
  }

  /** The operation runs exactly when no statement fails and at its check the path
      is free or the owner's.  While it runs that owner holds the path all along
      exactly if the owner does not release it and no foreign upsert, of an Acquire
      that had passed its check before, comes in. */
  lemma WebRunsUnderLock(t: Table, k: Key, owner: string, transient: string, c: Timing, f: Faults, g: Gaps)
    requires Sensible(c) && k.0 != 0 && k.1 != "" && transient != ""
    requires Settled(AtCheck(t, k, owner, c, f, g), k, c)
    requires AllBefore(g.meanwhile, k, EffectiveOwner(owner, transient), c.acquire + c.ttl)
    ensures var o, e := EffectiveOwner(owner, transient), EnterWeb(t, k, owner, transient, c, f, g);
      && (e.runs <==> !GetFails(owner, f) && f.acquire.NoFault? && Free(AtCheck(t, k, owner, c, f, g), k, o, c))
      && (e.runs ==>
            (HeldThroughout(e.table, k, o, c.acquire + c.ttl, g.meanwhile) <==> NoneBreaks(g.meanwhile, k, o)))
  {
    EnterWebEffect(t, k, owner, transient, c, f, g);
    var e := EnterWeb(t, k, owner, transient, c, f, g);
    if e.runs {
      GrantHolds(e.table, k, e.owner, "web", c, g.meanwhile);
    }
  }

  /** The same in terms of all calls in flight: while the operation runs, its owner
      holds the path all along exactly if the owner does not release it and no
      foreign Acquire whose check had passed before the wrapper's upsert upserts. */
  lemma {:induction false} WebHeldUnlessOverdue(t: Table, k: Key, owner: string, transient: string, c: Timing,
                                                f: Faults, g: Gaps, s: R.System, acts: seq<R.Action>)
    requires Sensible(c) && k.0 != 0 && k.1 != "" && transient != ""
    requires Settled(AtCheck(t, k, owner, c, f, g), k, c)
    requires EnterWeb(t, k, owner, transient, c, f, g).runs && s.table == EnterWeb(t, k, owner, transient, c, f, g).table
    requires R.Numbered(s) && R.AllPossible(s, acts)
    requires R.Timely(s, acts, k, EffectiveOwner(owner, transient), c.acquire + c.ttl)
    ensures var o := EffectiveOwner(owner, transient);
      HeldThroughout(s.table, k, o, c.acquire + c.ttl, R.AllEvents(s, acts)) <==> R.NoneEnds(s, acts, k, o)
  {
    EnterWebEffect(t, k, owner, transient, c, f, g);
    R.HeldUnlessOverdue(s, acts, k, EffectiveOwner(owner, transient), c.acquire + c.ttl);
  }

  /** Through a wrapper that runs under `owner` undisturbed: who holds the path
      afterwards, and for every other path it is as if the wrapper had only swept. */
  lemma {:induction false} ThroughFrame(found: Table, e: Entry, k: Key, source: string, c: Timing, f: Faults,
                                        meanwhile: seq<Event>)
    requires Sensible(c) && e.runs && e.table == found[k := Lease(e.owner, source, c.acquire + c.ttl)]
    requires AllBefore(meanwhile, k, e.owner, c.acquire + c.ttl) && NoneBreaks(meanwhile, k, e.owner)
    ensures Holder(Through(e, k, f, meanwhile), k, c) == if GivesBack(e, f) then None else Some(e.owner)
    ensures AgreeBut(Through(e, k, f, meanwhile), PerformAll(found, meanwhile), k)
  {
    GrantHolds(e.table, k, e.owner, source, c, meanwhile);
    var worked := PerformAll(e.table, meanwhile);
    SecondsInOrder(c.acquire + c.ttl, worked[k].expires);
    AgreeAlways(e.table, found, k, meanwhile);
    LeaveAgrees(worked, PerformAll(found, meanwhile), e.(table := worked), k, f);
  }

  lemma LeaveAgrees(a: Table, b: Table, e: Entry, k: Key, f: Faults)
    requires AgreeBut(a, b, k) && e.table == a
    ensures AgreeBut(Leave(e, k, f), b, k)
  {
    forall j | j != k ensures SameRow(Leave(e, k, f), b, j) {
      assert SameRow(a, b, j);
    }
  }

  /** The web wrapper leaves the path with the holder it had just before the
      wrapper's upsert exactly if the lease is given back when nobody held the path
      then, and kept when the owner did.  It is invisible to every other path. */
  lemma WebFrame(t: Table, k: Key, owner: string, transient: string, c: Timing, f: Faults, g: Gaps)
    requires Sensible(c) && k.0 != 0 && k.1 != "" && transient != ""
    requires Settled(AtCheck(t, k, owner, c, f, g), k, c)
    requires var o := EffectiveOwner(owner, transient);
      AllBefore(g.meanwhile, k, o, c.acquire + c.ttl) && NoneBreaks(g.meanwhile, k, o)
    ensures var o, e := EffectiveOwner(owner, transient), EnterWeb(t, k, owner, transient, c, f, g);
      var found, after := AtGrant(t, k, owner, c, f, g), Through(e, k, f, g.meanwhile);
      var left := if !Mine(t, k, owner, c, f, g) && !f.release.WriteFails? then None else Some(o);
      e.runs ==>
        && Holder(after, k, c) == left
        && (Holder(after, k, c) == Holder(found, k, c) <==> Holder(found, k, c) == left)
        && AgreeBut(after, PerformAll(found, g.meanwhile), k)
  {
    EnterWebEffect(t, k, owner, transient, c, f, g);
    var e := EnterWeb(t, k, owner, transient, c, f, g);
    if e.runs {
      ThroughFrame(AtGrant(t, k, owner, c, f, g), e, k, "web", c, f, g.meanwhile);
    }
  }

  // ------------------------------------------------------------ when the wrapper keeps the holder

  predicate Takes(e: Event, k: Key, owner: string) {
    e.statement.Upsert? && e.statement.key == k && e.statement.owner == owner
  }

  predicate NoneTakes(es: seq<Event>, k: Key, owner: string) {
    forall i :: 0 <= i < |es| ==> !Takes(es[i], k, owner)
  }

  /** All statements from the select of the wrapper's Get to its upsert. */
  function SinceGet(c: Timing, g: Gaps): seq<Event> {
    g.between + ([Event(Sweep, c.acquire, false)] + (g.swept + g.checked))
  }

  lemma SinceGetLeadsToGrant(t: Table, k: Key, owner: string, c: Timing, f: Faults, g: Gaps)
    requires owner != "" && !GetFails(owner, f)
    ensures AtGrant(t, k, owner, c, f, g) == PerformAll(Got(t, k, c.get, f.get, g.got).0, SinceGet(c, g))
  {
    var got := Got(t, k, c.get, f.get, g.got).0;
    var sweep := [Event(Sweep, c.acquire, false)];
    PerformConcat(got, g.between, sweep + (g.swept + g.checked));
    PerformConcat(PerformAll(got, g.between), sweep, g.swept + g.checked);
    PerformOne(PerformAll(got, g.between), sweep[0]);
    PerformConcat(Cleaned(PerformAll(got, g.between), c.acquire), g.swept, g.checked);
  }

  /** Without an upsert of its own an owner does not come by a path. */
  lemma {:induction false} NotGiven(t: Table, k: Key, owner: string, es: seq<Event>)
    requires NoneTakes(es, k, owner) && !(k in t && t[k].owner == owner)
    ensures !(k in PerformAll(t, es) && PerformAll(t, es)[k].owner == owner)
    decreases |es|
  {
    if es != [] {
      var n := |es| - 1;
      NotGiven(t, k, owner, es[..n]);
      var before := PerformAll(t, es[..n]);
      if k in Perform(before, es[n]) && Perform(before, es[n])[k].owner == owner {
        OthersDoNotGive(before, k, owner, es[n]);
      }
    }
  }

  /** The owner's calls and the others' leave the wrapper's knowledge true: what the
      Get found is still so when the wrapper writes. */
  predicate KnowledgeLasts(t: Table, k: Key, owner: string, c: Timing, f: Faults, g: Gaps) {
    var got, es := Got(t, k, c.get, f.get, g.got).0, SinceGet(c, g);
    if k in got && got[k].owner == owner then
      && Writable(got[k].expires) && Second(c.to) < Second(got[k].expires)
      && AllBefore(es, k, owner, got[k].expires) && NoneBreaks(es, k, owner)
    else NoneTakes(es, k, owner)
  }

  /** If meanwhile neither the owner's own calls nor a foreign grant touch the path,
      the wrapper leaves it with the holder it found, exactly unless its final
      release fails: an editor's own lock survives its save and a transient one is gone. */
  lemma WebKeepsHolder(t: Table, k: Key, owner: string, transient: string, c: Timing, f: Faults, g: Gaps)
    requires Sensible(c) && k.0 != 0 && k.1 != "" && owner != "" && transient != ""
    requires Settled(AtCheck(t, k, owner, c, f, g), k, c) && Free(AtGrant(t, k, owner, c, f, g), k, owner, c)
    requires AllBefore(g.meanwhile, k, owner, c.acquire + c.ttl) && NoneBreaks(g.meanwhile, k, owner)
    requires KnowledgeLasts(t, k, owner, c, f, g)
    ensures var e := EnterWeb(t, k, owner, transient, c, f, g);
      e.runs ==>
        (Holder(Through(e, k, f, g.meanwhile), k, c) == Holder(AtGrant(t, k, owner, c, f, g), k, c) <==>
           !(e.release && f.release.WriteFails?))
  {
    EnterWebEffect(t, k, owner, transient, c, f, g);
    WebFrame(t, k, owner, transient, c, f, g);
    var e := EnterWeb(t, k, owner, transient, c, f, g);
    if e.runs {
      KnowledgeIsTrue(t, k, owner, c, f, g);
    }
  }

  lemma KnowledgeIsTrue(t: Table, k: Key, owner: string, c: Timing, f: Faults, g: Gaps)
    requires owner != "" && !GetFails(owner, f) && KnowledgeLasts(t, k, owner, c, f, g)
    ensures Mine(t, k, owner, c, f, g) <==> Holder(AtGrant(t, k, owner, c, f, g), k, c) == Some(owner)
  {
    var got := Got(t, k, c.get, f.get, g.got).0;
    SinceGetLeadsToGrant(t, k, owner, c, f, g);
    StillTrue(got, k, owner, c, SinceGet(c, g));
    assert Mine(t, k, owner, c, f, g) <==> k in got && got[k].owner == owner;
  }

  lemma {:induction false} StillTrue(got: Table, k: Key, owner: string, c: Timing, es: seq<Event>)
    requires if k in got && got[k].owner == owner then
        && Writable(got[k].expires) && Second(c.to) < Second(got[k].expires)
        && AllBefore(es, k, owner, got[k].expires) && NoneBreaks(es, k, owner)
      else NoneTakes(es, k, owner)
    ensures Holder(PerformAll(got, es), k, c) == Some(owner) <==> k in got && got[k].owner == owner
  {
    if k in got && got[k].owner == owner {
      HeldAlways(got, k, owner, got[k].expires, es);
      SecondsInOrder(got[k].expires, PerformAll(got, es)[k].expires);
    } else {
      NotGiven(got, k, owner, es);
    }
  }

  // ------------------------------------------------------------ what the exceptions are for

  lemma CurrentTwice(t: Table, c: Timing)
    ensures Current(Current(t, c), c) == Current(t, c)
  {
  }

  /** A wrapper alone, on a path that is free or its owner's. */
  lemma EnterAlone(t: Table, k: Key, owner: string, transient: string, c: Timing)
    requires Sensible(c) && Steady(t, c) && k.0 != 0 && k.1 != "" && owner != "" && transient != ""
    requires Free(t, k, owner, c)
    ensures var e := EnterWeb(t, k, owner, transient, c, QUIET, ALONE);
      && e.runs && e.owner == owner && (e.release <==> Holder(t, k, c) == None)
      && e.table == Current(t, c)[k := Lease(owner, "web", c.acquire + c.ttl)]
  {
    CleanedIsCurrent(t, c.get, c);
    CurrentTwice(t, c);
    CleanedIsCurrent(Current(t, c), c.acquire, c);
    assert AtCheck(t, k, owner, c, QUIET, ALONE) == Current(t, c);
    EnterWebEffect(t, k, owner, transient, c, QUIET, ALONE);
  }

  /** Two saves at once under one owner that held no lease.  The first one to end
      gives the path up, and the second goes on without a lease. */
  lemma OverlappingSaves(t: Table, k: Key, owner: string, transient: string, c: Timing)
    requires Sensible(c) && Steady(t, c) && k.0 != 0 && k.1 != "" && owner != "" && transient != ""
    requires Holder(t, k, c) == None
    ensures var first := EnterWeb(t, k, owner, transient, c, QUIET, ALONE);
      var second := EnterWeb(first.table, k, owner, transient, c, QUIET, ALONE);
      first.runs && second.runs && k !in Leave(first.(table := second.table), k, QUIET)
  {
    EnterAlone(t, k, owner, transient, c);
    var first := EnterWeb(t, k, owner, transient, c, QUIET, ALONE);
    EnterAlone(first.table, k, owner, transient, c);
  }

  /** Two owners at once on a free path.  When one wrapper takes the path while the
      other has checked and not yet written, both operations run, and the second
      write ends the first one's lease. */
  lemma OverlappingOperations(t: Table, k: Key, a: string, b: string, transient: string, c: Timing)
    requires Sensible(c) && Steady(t, c) && k.0 != 0 && k.1 != "" && a != "" && b != "" && transient != "" && a != b
    requires Holder(t, k, c) == None
    ensures var grant := Event(Upsert(k, a, "web", c.ttl), c.acquire, false);
      var first := EnterWeb(t, k, a, transient, c, QUIET, ALONE);
      var second := EnterWeb(t, k, b, transient, c, QUIET, ALONE.(checked := [grant]));
      && first.runs && first.table == Perform(Current(t, c), grant)
      && second.runs && second.table == Perform(first.table, Event(Upsert(k, b, "web", c.ttl), c.acquire, false))
      && !HeldUntil(second.table, k, a, c.acquire + c.ttl)
  {
    var grant := Event(Upsert(k, a, "web", c.ttl), c.acquire, false);
    var g := ALONE.(checked := [grant]);
    EnterAlone(t, k, a, transient, c);
    CleanedIsCurrent(t, c.get, c);
    CurrentTwice(t, c);
    CleanedIsCurrent(Current(t, c), c.acquire, c);
    assert AtCheck(t, k, b, c, QUIET, g) == Current(t, c);
    PerformOne(Current(t, c), grant);
    EnterWebEffect(t, k, b, transient, c, QUIET, g);
  }

  // ------------------------------------------------------------ the WebDAV wrapper

  /** A request either brings a lock token or works under a name derived from
      the login and the method, and gives the lease back only in that case. */
  function EnterDav(t: Table, k: Key, token: string, derived: string, c: Timing, f: Faults, g: Gaps): Entry {
    var o := if token == "" then derived else token;
    var (t', r) := Acquired(t, k, o, "webdav", c.ttl, c.acquire, f.acquire, g.swept, g.checked);
    Entry(t', r.Ok?, o, token == "")
  }

  method WithMutationLock(s: LockService, k: Key, token: string, derived: string, c: Timing, f: Faults,
                          g: Gaps, works: bool)
    returns (ok: bool, ran: bool, work: Table)
    modifies s
    ensures var e := EnterDav(old(s.rows), k, token, derived, c, f, g);
      ran == e.runs && work == e.table && s.rows == Through(e, k, f, g.meanwhile) && ok == (e.runs && works)
  {
    var owner, release := token, false;
    if owner == "" {
      owner, release := derived, true;
    }
    ok, ran, work := HoldDuring(s, k, owner, "webdav", release, c, f, g, works);
  }

  /** The table when a WebDAV request checks the path. */
  function AtDavCheck(t: Table, c: Timing, g: Gaps): Table {
    PerformAll(Cleaned(t, c.acquire), g.swept)
  }

  /** The WebDAV wrapper runs exactly when no statement fails and the path is free
      or the owner's.  It keeps the holder of the path exactly when it gives its
      lease back and the path was free just before its upsert, or does not and the
      path was the owner's: a token for a free path leaves a lease behind, and a
      request without token ends the lease of an overlapping request of the same
      login and method.  It is invisible to every other path. */
  lemma DavFrameExact(t: Table, k: Key, token: string, derived: string, c: Timing, f: Faults, g: Gaps)
    requires Sensible(c) && k.0 != 0 && k.1 != "" && derived != "" && Settled(AtDavCheck(t, c, g), k, c)
    requires var o := EffectiveOwner(token, derived);
      AllBefore(g.meanwhile, k, o, c.acquire + c.ttl) && NoneBreaks(g.meanwhile, k, o)
    ensures var o, e := EffectiveOwner(token, derived), EnterDav(t, k, token, derived, c, f, g);
      var found, after := PerformAll(AtDavCheck(t, c, g), g.checked), Through(e, k, f, g.meanwhile);
      var left := if token == "" && !f.release.WriteFails? then None else Some(o);
      && (e.runs <==> f.acquire.NoFault? && Free(AtDavCheck(t, c, g), k, o, c))
      && (e.runs ==>
            && Holder(after, k, c) == left
            && (Holder(after, k, c) == Holder(found, k, c) <==> Holder(found, k, c) == left)
            && AgreeBut(after, PerformAll(found, g.meanwhile), k))
  {
    AcquiredEffect(AtDavCheck(t, c, g), k, EffectiveOwner(token, derived), "webdav", c, f.acquire, g.checked);
    var e := EnterDav(t, k, token, derived, c, f, g);
    if e.runs {
      ThroughFrame(PerformAll(AtDavCheck(t, c, g), g.checked), e, k, "webdav", c, f, g.meanwhile);
    }
  }

  const QUIET := Faults(NoFault, NoFault, NoFault)

  /** All within the first second, with leases of a minute, on one file of vault 1. */
  const ATONCE := Timing(0, 0, 0, 0, 60 * NANOS)

  const NOTE: Key := (1, "a.md")

  const ANN := "webdav:ann:PUT"

  lemma InFirstYear(t: Instant)
    requires Second(t) < DAY
    ensures Writable(t)
  {
    assert Second(t) / DAY == 0 && DaysFrom(1970, 1) >= MonthDays(1970, 1);
  }

  lemma AtOnceIsSensible()
    ensures Sensible(ATONCE)
  {
    InFirstYear(0);
    InFirstYear(60 * NANOS);
  }

  /** A request alone, on a free file or its owner's. */
  lemma DavAlone(t: Table, k: Key, token: string, derived: string, c: Timing)
    requires Sensible(c) && Steady(t, c) && k.0 != 0 && k.1 != "" && derived != ""
    requires Free(t, k, EffectiveOwner(token, derived), c)
    ensures var o, e := EffectiveOwner(token, derived), EnterDav(t, k, token, derived, c, QUIET, ALONE);
      && e.runs && e.owner == o
      && Holder(Through(e, k, QUIET, []), k, c) == if token == "" then None else Some(o)
  {
    CleanedIsCurrent(t, c.acquire, c);
    CurrentTwice(t, c);
    assert AtDavCheck(t, c, ALONE) == Current(t, c);
    AcquiredEffect(Current(t, c), k, EffectiveOwner(token, derived), "webdav", c, NoFault, []);
    ThroughFrame(Current(t, c), EnterDav(t, k, token, derived, c, QUIET, ALONE), k, "webdav", c, QUIET, []);
  }

  /** A request that brings a token for a free file leaves a lease behind. */
  lemma TokenLeavesLease()
    ensures Holder(map[], NOTE, ATONCE) == None
    ensures var e := EnterDav(map[], NOTE, "token", ANN, ATONCE, QUIET, ALONE);
      Holder(Through(e, NOTE, QUIET, []), NOTE, ATONCE) == Some("token")
  {
    AtOnceIsSensible();
    DavAlone(map[], NOTE, "token", ANN, ATONCE);
  }

  /** Of two requests without token by one user, the one that ends first ends the
      lease that the other works under. */
  lemma TokenlessEndsLease()
    ensures var t := map[NOTE := Lease(ANN, "webdav", 30 * NANOS)];
      && Holder(t, NOTE, ATONCE) == Some(ANN)
      && Holder(Through(EnterDav(t, NOTE, "", ANN, ATONCE, QUIET, ALONE), NOTE, QUIET, []), NOTE, ATONCE) == None
  {
    AtOnceIsSensible();
    InFirstYear(30 * NANOS);
    DavAlone(map[NOTE := Lease(ANN, "webdav", 30 * NANOS)], NOTE, "", ANN, ATONCE);
  }

  // ------------------------------------------------------------ moves

  /** Nobody is listed for the path or, for a directory, below it. */
  predicate Unlocked(t: Table, vault: int, path: string, isDir: bool) {
    if isDir then (set k | k in t && k.0 == vault && Under(path, k.1)) == {} else (vault, path) !in t
  }

  /** `ensureMoveUnlocked`: whether the move may go on, and `failed` when the query
      fails; then the move is off as well. */
  method EnsureMoveUnlocked(s: LockService, vault: int, path: string, isDir: bool, now: Instant, f: Fault,
                            swept: seq<Event>)
    returns (ok: bool, failed: bool)
    modifies s
    ensures failed <==> f.CleanupFails? || f.SelectFails?
    ensures s.rows == if f.CleanupFails? then old(s.rows) else PerformAll(Cleaned(old(s.rows), now), swept)
    ensures ok <==> !failed && Unlocked(s.rows, vault, path, isDir)
  {
    if !isDir {
      var got := s.Get((vault, path), now, f, swept);
      failed := got.Err?;
      ok := !failed && got.value.None?;
    } else {
      var listed := s.ActiveUnder(vault, path, now, f, swept);
      failed := listed.Err?;
      ok := !failed && |listed.value| == 0;
    }
  }

  predicate Lasting(t: Table, c: Timing) {
    forall k :: k in t ==> Second(c.to) < Second(t[k].expires)
  }

  /** Leases that others take or renew in the gap last as long. */
  predicate Outlasts(e: Event, c: Timing) {
    e.statement.Upsert? || e.statement.Extend? ==> Second(c.to) < Second(e.now + e.statement.ttl)
  }

  lemma {:induction false} LastingAlways(t: Table, es: seq<Event>, c: Timing)
    requires Lasting(t, c) && forall i :: 0 <= i < |es| ==> Outlasts(es[i], c)
    ensures Lasting(PerformAll(t, es), c)
    decreases |es|
  {
    if es != [] {
      var n := |es| - 1;
      LastingAlways(t, es[..n], c);
      assert Outlasts(es[n], c);
    }
  }

  /** The paths whose leases stop a move. */
  predicate InTheWay(path: string, isDir: bool, p: string) {
    p == path || (isDir && (p == path + "/" || (Below(path, p) && Ascii(path))))
  }

  lemma UnlockedExact(t: Table, vault: int, path: string, isDir: bool, c: Timing)
    requires Lasting(t, c)
    ensures Unlocked(t, vault, path, isDir) <==>
      forall p: string :: InTheWay(path, isDir, p) ==> Holder(t, (vault, p), c) == None
  {
    var listed := set k | k in t && k.0 == vault && Under(path, k.1);
    if isDir {
      if k :| k in listed {
        UnderExact(path, k.1);
        assert k == (vault, k.1);
        assert Holder(t, (vault, k.1), c) != None;
      } else {
        assert listed == {};
        forall p: string | InTheWay(path, isDir, p) ensures Holder(t, (vault, p), c) == None {
          UnderExact(path, p);
          assert (vault, p) !in listed;
        }
      }
    } else {
      assert InTheWay(path, isDir, path);
      assert Holder(t, (vault, path), c) == None <==> (vault, path) !in t;
    }
  }

  /** A move goes on exactly when at its query nobody holds the path or, for a
      directory with an ASCII path, anything below it. */
  lemma {:induction false} MayMoveExact(t: Table, vault: int, path: string, isDir: bool, c: Timing, swept: seq<Event>)
    requires Sensible(c) && Steady(t, c) && forall i :: 0 <= i < |swept| ==> Outlasts(swept[i], c)
    ensures var t' := PerformAll(Cleaned(t, c.get), swept);
      Unlocked(t', vault, path, isDir) <==>
        forall p: string :: InTheWay(path, isDir, p) ==> Holder(t', (vault, p), c) == None
  {
    CleanedIsCurrent(t, c.get, c);
    LastingAlways(Current(t, c), swept, c);
    UnlockedExact(PerformAll(Current(t, c), swept), vault, path, isDir, c);
  }

  /** Somebody holds a file of the directory. */
  ghost predicate HeldBelow(t: Table, vault: int, dir: string, c: Timing) {
    exists p: string :: Below(dir, p) && Holder(t, (vault, p), c) != None
  }

  /** The check keeps a directory from being moved away under a lease on a file in
      it exactly if the directory's path is ASCII. */
  lemma DirectoryProtected(vault: int, dir: string, c: Timing)
    ensures (forall t: Table :: Lasting(t, c) && HeldBelow(t, vault, dir, c) ==> !Unlocked(t, vault, dir, true)) <==> Ascii(dir)
  {
    if Ascii(dir) {
      forall t: Table | Lasting(t, c) && HeldBelow(t, vault, dir, c) ensures !Unlocked(t, vault, dir, true) {
        UnlockedExact(t, vault, dir, true, c);
        var p: string :| Below(dir, p) && Holder(t, (vault, p), c) != None;
        assert InTheWay(dir, true, p);
      }
    } else {
      LockedFileMoves(vault, dir, c);
    }
  }

  /** With any other directory: a file in it is held and the move goes on. */
  lemma LockedFileMoves(vault: int, dir: string, c: Timing)
    requires !Ascii(dir)
    ensures exists t: Table :: Lasting(t, c) && HeldBelow(t, vault, dir, c) && Unlocked(t, vault, dir, true)
  {
    var file := dir + "/a";
    var t: Table := map[(vault, file) := Lease("a", "web", c.to + NANOS)];
    assert file[..|dir| + 1] == dir + "/" && Below(dir, file);
    assert Holder(t, (vault, file), c) == Some("a");
    forall p: string | InTheWay(dir, true, p) ensures Holder(t, (vault, p), c) == None {
      assert |p| <= |dir| + 1 < |file|;
    }
    UnlockedExact(t, vault, dir, true, c);
  }
}
