/** The page index: a table of pages, the full-text table kept beside it by hand,
    and the join that a search runs. */
module PageIndex {

  /** The columns that are searched. */
  datatype Meta = Meta(title: string, aliases: string, tags: string, headings: string, blocks: string)

  datatype Key = Key(slug: string, path: string)

  datatype Row = Row(rowid: nat, meta: Meta, hash: string)

  /** `pages` by primary key, `fts` by rowid. */
  datatype Tables = Tables(pages: map<Key, Row>, fts: map<nat, Meta>)

  predicate Used(pages: map<Key, Row>, rowid: nat) {
    exists k :: k in pages && pages[k].rowid == rowid
  }

  ghost predicate Distinct(pages: map<Key, Row>) {
    forall j, k :: j in pages && k in pages && pages[j].rowid == pages[k].rowid ==> j == k
  }

  ghost predicate Shows(t: Tables, k: Key)
    requires k in t.pages
  {
    t.pages[k].rowid in t.fts && t.fts[t.pages[k].rowid] == t.pages[k].meta
  }

  /** The full-text table is exactly the pages' columns, by rowid. */
  ghost predicate Mirrors(t: Tables) {
    && Distinct(t.pages)
    && (forall k :: k in t.pages ==> Shows(t, k))
    && forall r :: r in t.fts ==> Used(t.pages, r)
  }

  predicate Named(k: Key) {
    k.slug != "" && k.path != ""
  }

  /** A conflict keeps the row's id; a new row gets `newId`. */
  function Upserted(t: Tables, k: Key, meta: Meta, hash: string, newId: nat): Tables {
    var rowid := if k in t.pages then t.pages[k].rowid else newId;
    Tables(t.pages[k := Row(rowid, meta, hash)], t.fts[rowid := meta])
  }

  function Deleted(t: Tables, k: Key): Tables {
    if k in t.pages then Tables(t.pages - {k}, t.fts - {t.pages[k].rowid}) else t
  }

  /** The id may be one that a deleted row had. */
  lemma UpsertKeepsMirror(t: Tables, k: Key, meta: Meta, hash: string, newId: nat)
    requires Mirrors(t) && (k in t.pages || !Used(t.pages, newId))
    ensures Mirrors(Upserted(t, k, meta, hash, newId))
  {
    var u := Upserted(t, k, meta, hash, newId);
    assert forall j :: j in t.pages && j != k ==> t.pages[j].rowid != u.pages[k].rowid;
    forall j | j in u.pages ensures Shows(u, j) {
      assert j != k ==> Shows(t, j);
    }
    forall r | r in u.fts ensures Used(u.pages, r) {
      if r == u.pages[k].rowid {
        assert k in u.pages;
      } else {
        var j :| j in t.pages && t.pages[j].rowid == r;
        assert j in u.pages && u.pages[j].rowid == r;
      }
    }
  }

  lemma DeleteKeepsMirror(t: Tables, k: Key)
    requires Mirrors(t)
    ensures Mirrors(Deleted(t, k))
  {
    var d := Deleted(t, k);
    forall j | j in d.pages ensures Shows(d, j) {
      assert Shows(t, j);
    }
    forall r | r in d.fts ensures Used(d.pages, r) {
      var j :| j in t.pages && t.pages[j].rowid == r;
      assert k in t.pages ==> j != k;
      assert j in d.pages;
    }
  }

  // ------------------------------------------------------------ the store

  /** Which statement of a transaction fails, counted from 1; 0 for none. */
  type Failing = nat

  predicate UpsertGoes(t: Tables, k: Key, newId: nat, failing: Failing) {
    !(1 <= failing <= 4) && (k in t.pages || !Used(t.pages, newId))
  }

  predicate DeleteGoes(t: Tables, k: Key, failing: Failing) {
    Named(k) && failing != 1 && (k in t.pages ==> !(2 <= failing <= 4))
  }

  class Store {
    var pages: map<Key, Row>
    var fts: map<nat, Meta>

    ghost function State(): Tables
      reads this
    {
      Tables(pages, fts)
    }

    constructor ()
      ensures State() == Tables(map[], map[]) && Mirrors(State())
    {
      pages, fts := map[], map[];
    }

    /** One transaction: a failing statement rolls back both tables. `newId` is
        the id SQLite would hand out; there is none when it is taken. */
    method UpsertPageIndex(k: Key, meta: Meta, hash: string, newId: nat, failing: Failing) returns (ok: bool)
      modifies this
      ensures ok <==> UpsertGoes(old(State()), k, newId, failing)
      ensures State() == if ok then Upserted(old(State()), k, meta, hash, newId) else old(State())
      ensures ok ==> pages == old(pages)[k := Row(if k in old(pages) then old(pages)[k].rowid else newId, meta, hash)]
      ensures ok ==> fts == old(fts)[pages[k].rowid := meta]
      ensures ok <==> failing !in {1, 2, 3, 4} &&
                      (k in old(pages) || forall j :: j in old(pages) ==> old(pages)[j].rowid != newId)
      ensures old(Mirrors(State())) ==> Mirrors(State())
    {
      var newPages, newFts := pages, fts;
      if failing == 1 || (k !in pages && Used(pages, newId)) {
        return false;
      }
      var rowid := if k in pages then pages[k].rowid else newId;
      newPages := newPages[k := Row(rowid, meta, hash)];
      if failing == 2 {
        return false;
      }
      newFts := newFts - {rowid};
      if failing == 3 {
        return false;
      }
      newFts := newFts[rowid := meta];
      if failing == 4 {
        return false;
      }
      assert newFts == fts[rowid := meta];
      if Mirrors(State()) {
        UpsertKeepsMirror(State(), k, meta, hash, newId);
      }
      pages, fts := newPages, newFts;
      ok := true;
    }

    method DeletePageIndex(k: Key, failing: Failing) returns (ok: bool)
      modifies this
      ensures ok <==> DeleteGoes(old(State()), k, failing)
      ensures State() == if ok then Deleted(old(State()), k) else old(State())
      ensures k.slug == "" || k.path == "" || failing == 1 ==> !ok
      ensures k.slug != "" && k.path != "" && failing == 0 ==> ok && pages == old(pages) - {k}
      ensures ok && k in old(pages) ==> fts == old(fts) - {old(pages)[k].rowid} && failing !in {2, 3, 4}
      ensures old(Mirrors(State())) ==> Mirrors(State())
    {
      if !Named(k) {
        return false;
      }
      if failing == 1 {
        return false;
      }
      if k !in pages {
        return true;
      }
      var rowid := pages[k].rowid;
      var newPages := pages - {k};
      if failing == 2 {
        return false;
      }
      var newFts := fts - {rowid};
      if failing == 3 || failing == 4 {
        return false;
      }
      if Mirrors(State()) {
        DeleteKeepsMirror(State(), k);
      }
      pages, fts := newPages, newFts;
      ok := true;
    }

    /** `found` is false for a missing row; `ok` is false when the query fails. */
    method GetPageIndex(k: Key, failing: Failing) returns (ok: bool, found: bool, row: Row)
      ensures ok <==> k.slug != "" && k.path != "" && failing == 0
      ensures found <==> ok && k in pages
      ensures found ==> row == pages[k]
    {
      row := Row(0, Meta("", "", "", "", ""), "");
      ok := Named(k) && failing == 0;
      found := ok && k in pages;
      if found {
        row := pages[k];
      }
    }
  }

  // ------------------------------------------------------------ searching

  /** The join: pages of the vault whose full-text row, found by rowid, matches. */
  ghost predicate Joined(t: Tables, slug: string, matches: Meta -> bool, k: Key, row: Row) {
    && k in t.pages && t.pages[k] == row && k.slug == slug
    && row.rowid in t.fts && matches(t.fts[row.rowid])
  }
}
