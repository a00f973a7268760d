/** What the two wrappers do to the lease table when they run alone, row by row:
    who may run, under which lease the operation runs, and which rows are left. */
module WrapperLaws {
  import opened Basics
  import opened Instants
  import opened Leases
  import opened MutationLocks

  /** The row is there and outlasts the wrapper. */
  predicate Live(t: Table, k: Key, c: Timing) {
    k in t && Second(c.to) < Second(t[k].expires)
  }

  /** The two tables have the same live rows except at `k`, and the second has no others. */
  ghost predicate LiveElsewhere(t: Table, after: Table, k: Key, c: Timing) {
    forall j :: j != k ==> (j in after <==> Live(t, j, c)) && (j in after ==> after[j] == t[j])
  }

  /** The wrapper ran, or not, on the live rows alone. */
  predicate EnteredOn(t: Table, k: Key, c: Timing, lease: Lease, e: Entry) {
    e.owner == lease.owner && e.table == if e.runs then Current(t, c)[k := lease] else Current(t, c)
  }

  /** What the operation finds, and what is left: its lease unless that is given back. */
  lemma RowsAfter(t: Table, k: Key, c: Timing, lease: Lease, e: Entry)
    requires EnteredOn(t, k, c, lease, e)
    ensures var after := Through(e, k, QUIET, []);
      && LiveElsewhere(t, e.table, k, c) && LiveElsewhere(t, after, k, c)
      && (e.runs ==> k in e.table && e.table[k] == lease)
      && (e.runs ==> (k in after <==> !e.release) && (k in after ==> after[k] == lease))
      && (!e.runs ==> (k in after <==> Live(t, k, c)) && (k in after ==> after[k] == t[k]))
  {
  }

  lemma EnterWebAlone(t: Table, k: Key, owner: string, transient: string, c: Timing)
    requires Sensible(c) && Steady(t, c) && k.0 != 0 && k.1 != "" && transient != ""
    ensures var o := if owner == "" then transient else owner;
      var e := EnterWeb(t, k, owner, transient, c, QUIET, ALONE);
      && (e.runs <==> !(Live(t, k, c) && t[k].owner != o))
      && EnteredOn(t, k, c, Lease(o, "web", c.acquire + c.ttl), e)
      && (e.release <==> !(owner != "" && Live(t, k, c) && t[k].owner == owner))
  {
    CurrentTwice(t, c);
    CleanedIsCurrent(t, c.acquire, c);
    if owner != "" {
      CleanedIsCurrent(t, c.get, c);
      CleanedIsCurrent(Current(t, c), c.acquire, c);
      assert Got(t, k, c.get, NoFault, []).0 == Current(t, c);
    }
    assert AtAcquire(t, k, owner, c, QUIET, ALONE) == if owner == "" then t else Current(t, c);
    EnterCleaned(AtAcquire(t, k, owner, c, QUIET, ALONE), k, if owner == "" then transient else owner, "web", c);
  }

  lemma SecondsGrow(a: Instant, b: Instant)
    ensures a <= b ==> Second(a) <= Second(b)
  {
  }

  /** The check and the write of an Acquire on live rows. */
  lemma WriteAlone(live: Table, k: Key, owner: string, source: string, c: Timing)
    requires Sensible(c) && (k in live ==> Second(c.to) < Second(live[k].expires))
    ensures var (t', r) := AcquiredFrom(live, k, owner, source, c.ttl, c.acquire, NoFault, []);
      && (r.Ok? <==> !(k in live && live[k].owner != owner))
      && t' == if r.Ok? then live[k := Lease(owner, source, c.acquire + c.ttl)] else live
  {
    if k in live {
      SecondsGrow(live[k].expires, c.acquire);
    }
  }

  /** An Acquire alone on a table whose sweep leaves the live rows. */
  lemma EnterCleaned(found: Table, k: Key, owner: string, source: string, c: Timing)
    requires Sensible(c) && k.0 != 0 && k.1 != "" && owner != "" && source != ""
    requires forall j :: j in Cleaned(found, c.acquire) ==> Second(c.to) < Second(found[j].expires)
    ensures var (t', r) := Acquired(found, k, owner, source, c.ttl, c.acquire, NoFault, [], []);
      var swept := Cleaned(found, c.acquire);
      && (r.Ok? <==> !(k in swept && swept[k].owner != owner))
      && t' == if r.Ok? then swept[k := Lease(owner, source, c.acquire + c.ttl)] else swept
  {
    WriteAlone(Cleaned(found, c.acquire), k, owner, source, c);
  }

  /** A save runs exactly if no other owner's lease is live.  It runs under its own
      lease, made by "web" and as long as asked for; afterwards the path is leased
      exactly if the named owner had it before, and then for the new time. */
  lemma WebAlone(t: Table, k: Key, owner: string, transient: string, c: Timing)
    requires Sensible(c) && Steady(t, c) && k.0 != 0 && k.1 != "" && transient != ""
    ensures var o := if owner == "" then transient else owner;
      var lease := Lease(o, "web", c.acquire + c.ttl);
      var e := EnterWeb(t, k, owner, transient, c, QUIET, ALONE);
      var after := Through(e, k, QUIET, []);
      && (e.runs <==> !(Live(t, k, c) && t[k].owner != o))
      && LiveElsewhere(t, e.table, k, c) && LiveElsewhere(t, after, k, c)
      && (e.runs ==> k in e.table && e.table[k] == lease)
      && (e.runs ==> (k in after <==> owner != "" && Live(t, k, c)) && (k in after ==> after[k] == lease))
      && (!e.runs ==> k in after && after[k] == t[k])
  {
    EnterWebAlone(t, k, owner, transient, c);
    var o := if owner == "" then transient else owner;
    RowsAfter(t, k, c, Lease(o, "web", c.acquire + c.ttl), EnterWeb(t, k, owner, transient, c, QUIET, ALONE));
  }

  /** A WebDAV request runs under the token it brings or, without one, under its
      derived name; the lease stays exactly if a token came with it. */
  lemma DavAloneExact(t: Table, k: Key, token: string, derived: string, c: Timing)
    requires Sensible(c) && Steady(t, c) && k.0 != 0 && k.1 != "" && derived != ""
    ensures var o := if token == "" then derived else token;
      var lease := Lease(o, "webdav", c.acquire + c.ttl);
      var e := EnterDav(t, k, token, derived, c, QUIET, ALONE);
      var after := Through(e, k, QUIET, []);
      && (e.runs <==> !(Live(t, k, c) && t[k].owner != o))
      && LiveElsewhere(t, e.table, k, c) && LiveElsewhere(t, after, k, c)
      && (e.runs ==> k in e.table && e.table[k] == lease)
      && (e.runs ==> (k in after <==> token != "") && (k in after ==> after[k] == lease))
      && (!e.runs ==> k in after && after[k] == t[k])
  {
    var o := if token == "" then derived else token;
    CleanedIsCurrent(t, c.acquire, c);
    EnterCleaned(t, k, o, "webdav", c);
    var e := EnterDav(t, k, token, derived, c, QUIET, ALONE);
    RowsAfter(t, k, c, Lease(o, "webdav", c.acquire + c.ttl), e);
  }

  /** None of the two runs when its Acquire fails, nor a save under a name when its
      Get does. */
  lemma FailuresStop(t: Table, k: Key, owner: string, transient: string, c: Timing, f: Faults, g: Gaps)
    ensures owner != "" && (f.get.CleanupFails? || f.get.SelectFails?) ==> !EnterWeb(t, k, owner, transient, c, f, g).runs
    ensures !f.acquire.NoFault? ==> !EnterWeb(t, k, owner, transient, c, f, g).runs
    ensures !f.acquire.NoFault? ==> !EnterDav(t, k, owner, transient, c, f, g).runs
  {
    var table := AtAcquire(t, k, owner, c, f, g);
    FailedAcquire(table, k, if owner == "" then transient else owner, "web", c, f.acquire, g.swept, g.checked);
    FailedAcquire(t, k, if owner == "" then transient else owner, "webdav", c, f.acquire, g.swept, g.checked);
  }

  lemma FailedAcquire(t: Table, k: Key, owner: string, source: string, c: Timing, f: Fault, swept: seq<Event>,
                      checked: seq<Event>)
    ensures !f.NoFault? ==> Acquired(t, k, owner, source, c.ttl, c.acquire, f, swept, checked).1.Err?
  {
  }

  /** When the last statement fails the row stays, for either wrapper. */
  lemma {:induction false} FailedReleaseKeeps(e: Entry, k: Key, f: Faults, meanwhile: seq<Event>)
    requires e.runs && f.release.WriteFails?
    ensures Through(e, k, f, meanwhile) == PerformAll(e.table, meanwhile)
  {
  }
}
