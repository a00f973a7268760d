/** Importing files into a vault: finding a free path, and the import loop. */
module ImportPaths {
  import opened Decimals

  /** Where the extension starts: the last dot, unless there is none or it is the
      first character; then the extension is empty. */
  function ExtensionIndex(path: string): (i: nat)
    ensures i <= |path| && (i < |path| ==> i > 0 && path[i] == '.')
  {
    LastDot(path, |path|)
  }

  function LastDot(path: string, n: nat): (i: nat)
    requires n <= |path|
    ensures i <= |path| && (i < |path| ==> 0 < i < n && path[i] == '.' && forall j :: i < j < n ==> path[j] != '.')
  {
    if n == 0 then |path|
    else if path[n - 1] == '.' then (if n > 1 then n - 1 else |path|)
    else LastDot(path, n - 1)
  }

  function Candidate(path: string, counter: nat): string {
    path[..ExtensionIndex(path)] + (" (" + (Decimal(counter) + (")" + path[ExtensionIndex(path)..])))
  }

  lemma CandidateInjective(path: string, a: nat, b: nat)
    requires Candidate(path, a) == Candidate(path, b)
    ensures a == b
  {
    var i := ExtensionIndex(path);
    var base, extension := path[..i], path[i..];
    assert |Decimal(a)| == |Decimal(b)|;
    var da, db := Candidate(path, a)[i + 2..i + 2 + |Decimal(a)|], Candidate(path, b)[i + 2..i + 2 + |Decimal(b)|];
    assert da == Decimal(a) && db == Decimal(b);
    DecimalInjective(a, b);
  }

  lemma CandidateIsNew(path: string, n: nat)
    ensures Candidate(path, n) != path
  {
    assert |Candidate(path, n)| > |path|;
  }

  /** A path outside `used`: the desired one if it is free, else the candidate
      with the least free counter, which is at most the number of used paths. */
  method UniquePath(desired: string, used: set<string>) returns (path: string, counter: nat)
    ensures path !in used
    ensures desired !in used ==> path == desired && counter == 0
    ensures desired in used ==> 1 <= counter <= |used| && path == Candidate(desired, counter)
    ensures forall n: nat :: 1 <= n < counter ==> Candidate(desired, n) in used
  {
    if desired !in used {
      return desired, 0;
    }
    counter := 1;
    path := Candidate(desired, counter);
    ghost var tried := {desired};
    CandidateIsNew(desired, counter);
    while path in used
      invariant counter >= 1 && path == Candidate(desired, counter) && path !in tried
      invariant tried <= used && |tried| == counter
      invariant forall n: nat :: 1 <= n < counter ==> Candidate(desired, n) in tried
      invariant forall p :: p in tried ==> p == desired || exists n: nat :: 1 <= n < counter && p == Candidate(desired, n)
      decreases |used| - |tried|
    {
      ghost var before := tried;
      tried := tried + {path};
      SubsetSize(tried, used);
      counter := counter + 1;
      path := Candidate(desired, counter);
      CandidateIsNew(desired, counter);
      if path in tried {
        var n: nat :| 1 <= n < counter && path == Candidate(desired, n);
        CandidateInjective(desired, n, counter);
      }
    }
    SubsetSize(tried, used);
  }

  lemma {:induction false} SubsetSize(a: set<string>, b: set<string>)
    requires a <= b
    ensures |a| <= |b|
    decreases |a|
  {
    if a != {} {
      var x :| x in a;
      SubsetSize(a - {x}, b - {x});
    }
  }

  // ------------------------------------------------------------ the import loop

  datatype Item = Item(path: string, content: string)

  datatype Policy = Skip | Rename | Overwrite

  datatype Write = Create(path: string, content: string) | Replace(path: string, content: string)

  datatype Stats = Stats(created: nat, renamed: nat, skipped: nat)

  /** The request that throws: at which item, and whether its write had happened. */
  datatype Fault = NoFault | Fault(item: nat, written: bool)

  function Paths(writes: seq<Write>): set<string> {
    if writes == [] then {} else Paths(writes[..|writes| - 1]) + {writes[|writes| - 1].path}
  }

  function PathsOf(items: seq<Item>): set<string> {
    if items == [] then {} else PathsOf(items[..|items| - 1]) + {items[|items| - 1].path}
  }

  lemma {:induction false} InPaths(writes: seq<Write>, i: nat)
    requires i < |writes|
    ensures writes[i].path in Paths(writes)
  {
    if i < |writes| - 1 {
      InPaths(writes[..|writes| - 1], i);
    }
  }

  /** The items an import writes: all of them, except that the skip policy keeps
      only the first item for each path that did not exist before. */
  function Kept(items: seq<Item>, existing: set<string>, policy: Policy): (kept: seq<Item>)
    ensures |kept| <= |items|
  {
    if policy != Skip || items == [] then items
    else
      var n := |items| - 1;
      var kept := Kept(items[..n], existing, policy);
      if items[n].path in existing + PathsOf(items[..n]) then kept else kept + [items[n]]
  }

  /** `w` stores `item` when `taken` is taken: under its own path if that is free,
      else under a free path derived from it or, when overwriting, in place. */
  ghost predicate Placed(w: Write, item: Item, taken: set<string>, policy: Policy) {
    && w.content == item.content
    && (item.path !in taken ==> w == Create(item.path, item.content))
    && (item.path in taken && policy == Rename ==> w.Create? && w.path !in taken && RenamedFrom(w.path, item.path))
    && (item.path in taken && policy != Rename ==> policy == Overwrite && w == Replace(item.path, item.content))
  }

  ghost predicate RenamedFrom(path: string, desired: string) {
    exists counter: nat :: counter >= 1 && path == Candidate(desired, counter)
  }

  /** Every write stores its item, given the paths taken by then. */
  ghost predicate Stores(writes: seq<Write>, kept: seq<Item>, existing: set<string>, policy: Policy) {
    && |writes| <= |kept|
    && forall i :: 0 <= i < |writes| ==> Placed(writes[i], kept[i], existing + Paths(writes[..i]), policy)
  }

  /** How many items are stored under another path than their own. */
  function Renamings(writes: seq<Write>, kept: seq<Item>): nat
    requires |writes| <= |kept|
  {
    if writes == [] then 0
    else
      var n := |writes| - 1;
      Renamings(writes[..n], kept) + if writes[n].path != kept[n].path then 1 else 0
  }

  lemma {:induction false} RenamingsLonger(writes: seq<Write>, kept: seq<Item>, longer: seq<Item>)
    requires |writes| <= |kept| && kept <= longer
    ensures Renamings(writes, kept) == Renamings(writes, longer)
  {
    if writes != [] {
      RenamingsLonger(writes[..|writes| - 1], kept, longer);
    }
  }

  method ChooseWrite(item: Item, taken: set<string>, policy: Policy) returns (w: Write, renamed: bool)
    requires item.path in taken ==> policy != Skip
    ensures Placed(w, item, taken, policy) && renamed == (item.path in taken && policy == Rename)
    ensures renamed == (w.path != item.path)
  {
    w, renamed := Create(item.path, item.content), false;
    if item.path in taken && policy == Rename {
      var target, counter := UniquePath(item.path, taken);
      w, renamed := Create(target, item.content), true;
    } else if item.path in taken {
      w := Replace(item.path, item.content);
    }
  }

  /** The counts once the first `i` items are done. */
  ghost predicate Counted(items: seq<Item>, i: nat, existing: set<string>, policy: Policy, writes: seq<Write>, stats: Stats) {
    && i <= |items| && |writes| <= |Kept(items[..i], existing, policy)|
    && stats.created + stats.renamed == |writes| && |writes| + stats.skipped == i
    && stats.renamed == Renamings(writes, Kept(items[..i], existing, policy))
  }

  /** The writes once the first `i` items are done. */
  ghost predicate Progress(items: seq<Item>, i: nat, existing: set<string>, policy: Policy, used: set<string>,
                           writes: seq<Write>)
  {
    && i <= |items|
    && used == existing + Paths(writes)
    && (policy == Skip ==> used == existing + PathsOf(items[..i]))
    && |writes| == |Kept(items[..i], existing, policy)|
    && Stores(writes, Kept(items[..i], existing, policy), existing, policy)
  }

  /** One item that is stored: its write, the paths used by then and the counts. */
  method StoreItem(items: seq<Item>, i: nat, ghost existing: set<string>, policy: Policy, used: set<string>,
                   writes: seq<Write>, stats: Stats)
    returns (used': set<string>, writes': seq<Write>, stats': Stats)
    requires Progress(items, i, existing, policy, used, writes) && Counted(items, i, existing, policy, writes, stats)
    requires i < |items| && (items[i].path in used ==> policy != Skip)
    ensures Progress(items, i + 1, existing, policy, used', writes')
    ensures Counted(items, i + 1, existing, policy, writes', stats')
  {
    var w, renamed := ChooseWrite(items[i], used, policy);
    ItemStored(items, i, existing, policy, used, writes, w, stats, renamed);
    used', writes', stats' := used + {w.path}, writes + [w], Recount(stats, renamed);
  }

  /** The import loop: the items it keeps are stored one by one, in order, and a
      run that no request interrupts stores all of them and counts every item. */
  method RunImport(items: seq<Item>, existing: set<string>, policy: Policy, fault: Fault)
    returns (writes: seq<Write>, stats: Stats, done: bool)
    ensures Stores(writes, Kept(items, existing, policy), existing, policy)
    ensures done <==> !(fault.Fault? && fault.item < |items|)
    ensures done ==> |writes| == |Kept(items, existing, policy)| == stats.created + stats.renamed
    ensures done ==> stats.created + stats.renamed + stats.skipped == |items|
    ensures done ==> stats.renamed == Renamings(writes, Kept(items, existing, policy))
    ensures done && policy != Rename ==> stats.renamed == 0
  {
    var used, stored;
    used, writes, stats, stored, done := ImportItems(items, existing, policy, fault);
    Interrupted(items, stored, existing, policy, used, writes);
    if done {
      Completed(items, existing, policy, used, writes, stats);
    }
  }

  /** The loop itself; when it ends `stored` items are dealt with. */
  method ImportItems(items: seq<Item>, existing: set<string>, policy: Policy, fault: Fault)
    returns (used: set<string>, writes: seq<Write>, stats: Stats, stored: nat, done: bool)
    ensures Progress(items, stored, existing, policy, used, writes)
    ensures done ==> stored == |items| && Counted(items, stored, existing, policy, writes, stats)
    ensures done <==> !(fault.Fault? && fault.item < |items|)
  {
    used, writes, stats, stored, done := existing, [], Stats(0, 0, 0), 0, false;
    NothingYet(items, existing, policy);
    for i := 0 to |items|
      invariant stored == i && (fault.Fault? ==> i <= fault.item)
      invariant Progress(items, stored, existing, policy, used, writes)
      invariant Counted(items, stored, existing, policy, writes, stats)
    {
      used, writes, stats, stored := ImportItem(items, stored, existing, policy, fault, used, writes, stats);
      if fault.Fault? && fault.item == i {
        return;
      }
    }
    done := true;
  }

  lemma NothingYet(items: seq<Item>, existing: set<string>, policy: Policy)
    ensures Progress(items, 0, existing, policy, existing, [])
    ensures Counted(items, 0, existing, policy, [], Stats(0, 0, 0))
  {
    assert items[..0] == [];
  }

  lemma {:induction false} Completed(items: seq<Item>, existing: set<string>, policy: Policy, used: set<string>,
                                     writes: seq<Write>, stats: Stats)
    requires Progress(items, |items|, existing, policy, used, writes)
    requires Counted(items, |items|, existing, policy, writes, stats)
    ensures |writes| == |Kept(items, existing, policy)| == stats.created + stats.renamed
    ensures stats.created + stats.renamed + stats.skipped == |items|
    ensures stats.renamed == Renamings(writes, Kept(items, existing, policy))
    ensures policy != Rename ==> stats.renamed == 0
  {
    assert items[..|items|] == items;
    NoRenamings(writes, Kept(items, existing, policy), existing, policy);
  }

  /** One turn of the loop; `stored` is how many items are dealt with after it. */
  method ImportItem(items: seq<Item>, i: nat, ghost existing: set<string>, policy: Policy, fault: Fault,
                    used: set<string>, writes: seq<Write>, stats: Stats)
    returns (used': set<string>, writes': seq<Write>, stats': Stats, stored: nat)
    requires i < |items|
    requires Progress(items, i, existing, policy, used, writes) && Counted(items, i, existing, policy, writes, stats)
    ensures i <= stored <= i + 1 && Progress(items, stored, existing, policy, used', writes')
    ensures !(fault.Fault? && fault.item == i) ==>
      stored == i + 1 && Counted(items, i + 1, existing, policy, writes', stats')
  {
    var throws := fault.Fault? && fault.item == i;
    used', writes', stats', stored := used, writes, stats, i;
    if items[i].path in used && policy == Skip {
      if throws {
        return;
      }
      ItemSkipped(items, i, existing, policy, used, writes, stats);
      stats', stored := stats.(skipped := stats.skipped + 1), i + 1;
    } else {
      if throws && !fault.written {
        return;
      }
      var counted;
      used', writes', counted := StoreItem(items, i, existing, policy, used, writes, stats);
      stored := i + 1;
      if throws {
        return;
      }
      stats' := counted;
    }
  }

  /** Only under the rename policy an item is stored under another path. */
  lemma {:induction false} NoRenamings(writes: seq<Write>, kept: seq<Item>, existing: set<string>, policy: Policy)
    requires Stores(writes, kept, existing, policy)
    ensures policy != Rename ==> Renamings(writes, kept) == 0
  {
    if writes != [] {
      var n := |writes| - 1;
      forall i | 0 <= i < n ensures Placed(writes[..n][i], kept[i], existing + Paths(writes[..n][..i]), policy) {
        assert writes[..n][..i] == writes[..i];
      }
      NoRenamings(writes[..n], kept, existing, policy);
      assert Placed(writes[n], kept[n], existing + Paths(writes[..n]), policy);
    }
  }

  lemma {:induction false} Interrupted(items: seq<Item>, i: nat, existing: set<string>, policy: Policy,
                                       used: set<string>, writes: seq<Write>)
    requires Progress(items, i, existing, policy, used, writes)
    ensures Stores(writes, Kept(items, existing, policy), existing, policy)
    ensures i == |items| ==> |writes| == |Kept(items, existing, policy)|
  {
    KeptPrefix(items, i, existing, policy);
    StoresLonger(writes, Kept(items[..i], existing, policy), Kept(items, existing, policy), existing, policy);
    assert i == |items| ==> items[..i] == items;
  }

  lemma ItemSkipped(items: seq<Item>, i: nat, existing: set<string>, policy: Policy, used: set<string>,
                    writes: seq<Write>, stats: Stats)
    requires Progress(items, i, existing, policy, used, writes) && Counted(items, i, existing, policy, writes, stats)
    requires i < |items| && policy == Skip && items[i].path in used
    ensures Progress(items, i + 1, existing, policy, used, writes)
    ensures Counted(items, i + 1, existing, policy, writes, stats.(skipped := stats.skipped + 1))
  {
    KeptStep(items, i, existing, policy);
    assert Kept(items[..i + 1], existing, policy) == Kept(items[..i], existing, policy);
  }

  /** One more write of a run. */
  function Recount(stats: Stats, renamed: bool): Stats {
    if renamed then stats.(renamed := stats.renamed + 1) else stats.(created := stats.created + 1)
  }

  lemma ItemStored(items: seq<Item>, i: nat, existing: set<string>, policy: Policy, used: set<string>,
                   writes: seq<Write>, w: Write, stats: Stats, renamed: bool)
    requires Progress(items, i, existing, policy, used, writes) && Counted(items, i, existing, policy, writes, stats)
    requires i < |items| && Placed(w, items[i], used, policy) && renamed == (w.path != items[i].path)
    ensures Progress(items, i + 1, existing, policy, used + {w.path}, writes + [w])
    ensures Counted(items, i + 1, existing, policy, writes + [w], Recount(stats, renamed))
  {
    KeptStep(items, i, existing, policy);
    StoresOneMore(writes, Kept(items[..i], existing, policy), existing, policy, w, items[i]);
    assert policy == Skip ==> w.path == items[i].path && items[i].path !in used;
    assert Kept(items[..i + 1], existing, policy) == Kept(items[..i], existing, policy) + [items[i]];
    var kept := Kept(items[..i], existing, policy);
    RenamingsLonger(writes, kept, kept + [items[i]]);
    assert (writes + [w])[..|writes|] == writes;
  }

  /** What one more item adds, and that the items kept so far stay first. */
  lemma {:induction false} KeptStep(items: seq<Item>, i: nat, existing: set<string>, policy: Policy)
    requires i < |items|
    ensures Kept(items[..i + 1], existing, policy) == Kept(items[..i], existing, policy)
      + (if policy == Skip && items[i].path in existing + PathsOf(items[..i]) then [] else [items[i]])
    ensures PathsOf(items[..i + 1]) == PathsOf(items[..i]) + {items[i].path}
  {
    assert items[..i + 1][..i] == items[..i] && items[..i + 1] == items[..i] + [items[i]];
  }

  lemma {:induction false} KeptPrefix(items: seq<Item>, i: nat, existing: set<string>, policy: Policy)
    requires i <= |items|
    ensures Kept(items[..i], existing, policy) <= Kept(items, existing, policy)
  {
    if i < |items| {
      var n := |items| - 1;
      KeptPrefix(items[..n], i, existing, policy);
      assert items[..n][..i] == items[..i];
    } else {
      assert items[..i] == items;
    }
  }

  lemma {:induction false} StoresLonger(writes: seq<Write>, kept: seq<Item>, longer: seq<Item>, existing: set<string>,
                                        policy: Policy)
    requires Stores(writes, kept, existing, policy) && kept <= longer
    ensures Stores(writes, longer, existing, policy)
  {
  }

  lemma {:induction false} StoresOneMore(writes: seq<Write>, kept: seq<Item>, existing: set<string>, policy: Policy,
                                         w: Write, item: Item)
    requires Stores(writes, kept, existing, policy) && |writes| == |kept|
    requires Placed(w, item, existing + Paths(writes), policy)
    ensures Stores(writes + [w], kept + [item], existing, policy)
    ensures Paths(writes + [w]) == Paths(writes) + {w.path}
  {
    assert (writes + [w])[..|writes|] == writes;
    forall i | 0 <= i < |writes| + 1
      ensures Placed((writes + [w])[i], (kept + [item])[i], existing + Paths((writes + [w])[..i]), policy)
    {
      assert (writes + [w])[..i] == if i == |writes| then writes else writes[..i];
    }
  }

  /** Under the rename and skip policies all written paths are pairwise distinct
      and none existed before; every write is a creation. */
  lemma ImportNeverCollides(writes: seq<Write>, kept: seq<Item>, existing: set<string>, policy: Policy, i: nat, j: nat)
    requires Stores(writes, kept, existing, policy) && policy != Overwrite && j < i < |writes|
    ensures writes[i].Create? && writes[i].path !in existing && writes[i].path != writes[j].path
  {
    assert Placed(writes[i], kept[i], existing + Paths(writes[..i]), policy);
    InPaths(writes[..i], j);
  }

  /** Under every policy, creating never hits a path that exists by then. */
  lemma CreatesOnlyFreePaths(writes: seq<Write>, kept: seq<Item>, existing: set<string>, policy: Policy, i: nat, j: nat)
    requires Stores(writes, kept, existing, policy) && j < i < |writes| && writes[i].Create?
    ensures writes[i].path !in existing && writes[i].path != writes[j].path
  {
    assert Placed(writes[i], kept[i], existing + Paths(writes[..i]), policy);
    InPaths(writes[..i], j);
  }
}
