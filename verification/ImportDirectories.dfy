/** In which directory the free path found for an imported file is. */
module ImportDirectories {
  import opened Decimals
  import opened ImportPaths
  import opened Numerals

  predicate HasSlash(path: string) {
    exists i :: 0 <= i < |path| && path[i] == '/'
  }

  /** The extension starts at the last dot, unless there is no dot or the last one is
      the first character. */
  lemma ExtensionExact(path: string, i: nat)
    ensures ExtensionIndex(path) == i <==>
      if 0 < i < |path| then path[i] == '.' && forall j :: i < j < |path| ==> path[j] != '.'
      else i == |path| && forall j :: 0 < j < |path| && path[j] == '.' ==> exists k :: j < k < |path| && path[k] == '.'
  {
    NoDotAfter(path, |path|);
  }

  lemma {:induction false} NoDotAfter(path: string, n: nat)
    requires n <= |path|
    ensures LastDot(path, n) < |path| <==> exists j :: 0 < j < n && path[j] == '.' && forall k :: j < k < n ==> path[k] != '.'
    decreases n
  {
    if n > 0 {
      NoDotAfter(path, n - 1);
    }
  }

  /** The new name puts the counter before the extension. */
  lemma {:induction false} CandidateExact(path: string, base: string, extension: string, n: nat)
    requires path == base + extension && base != "" && extension != "" && extension[0] == '.'
    requires forall k :: 0 < k < |extension| ==> extension[k] != '.'
    ensures Candidate(path, n) == base + (" (" + (Decimal(n) + (")" + extension)))
    ensures Number(Decimal(n)) == n
  {
    ExtensionExact(path, |base|);
    assert path[..|base|] == base && path[|base|..] == extension;
    DecimalDenotes(n);
  }

  /** Every write stores the content of its item, under the item's own path unless
      that is taken by then. */
  lemma ItemsAreStored(writes: seq<Write>, kept: seq<Item>, existing: set<string>, policy: Policy, i: nat)
    requires Stores(writes, kept, existing, policy) && i < |writes|
    ensures writes[i].content == kept[i].content
    ensures var taken := existing + Paths(writes[..i]);
      && (writes[i].path == kept[i].path || (policy == Rename && kept[i].path in taken && writes[i].path !in taken))
      && (writes[i].Replace? <==> policy == Overwrite && kept[i].path in taken)
  {
    assert Placed(writes[i], kept[i], existing + Paths(writes[..i]), policy);
  }

  /** Where the last component starts. */
  function NameStart(path: string): (i: nat)
    ensures i <= |path| && (i > 0 <==> HasSlash(path))
  {
    if path == "" then 0
    else if path[|path| - 1] == '/' then |path|
    else NameStart(path[..|path| - 1])
  }

  /** The directory of a path, with its final slash. */
  function DirectoryOf(path: string): string {
    path[..NameStart(path)]
  }

  lemma {:induction false} NameStartConcat(a: string, b: string)
    ensures NameStart(a + b) == if HasSlash(b) then |a| + NameStart(b) else NameStart(a)
    decreases |b|
  {
    if b == "" {
      assert a + b == a;
    } else {
      assert (a + b)[|a + b| - 1] == b[|b| - 1] && (a + b)[..|a + b| - 1] == a + b[..|b| - 1];
      NameStartConcat(a, b[..|b| - 1]);
      assert b[|b| - 1] != '/' ==> (HasSlash(b) <==> HasSlash(b[..|b| - 1]));
    }
  }

  lemma {:induction false} CounterHasNoSlash(n: nat)
    ensures !HasSlash(" (" + (Decimal(n) + ")"))
  {
    assert !HasSlash(Decimal(n));
  }

  /** A candidate is in the directory of its path exactly if the last dot comes
      after the last slash or the path has no extension. */
  lemma CandidateDirectory(path: string, n: nat)
    ensures DirectoryOf(Candidate(path, n)) == DirectoryOf(path) <==> !HasSlash(path[ExtensionIndex(path)..])
  {
    var i := ExtensionIndex(path);
    var base, counter, extension := path[..i], " (" + (Decimal(n) + ")"), path[i..];
    CounterHasNoSlash(n);
    assert path == base + extension;
    assert Candidate(path, n) == base + counter + extension;
    NameStartConcat(base, extension);
    NameStartConcat(base + counter, extension);
    NameStartConcat(base, counter);
    if !HasSlash(extension) {
      assert (base + counter + extension)[..NameStart(base)] == base[..NameStart(base)] == path[..NameStart(base)];
    }
  }

  /** So when the listing has every path of the item's directory, a candidate that
      stays in it is a path at which there is nothing. */
  lemma CandidateIsFree(there: set<string>, listed: set<string>, path: string, n: nat)
    requires forall p :: p in there && DirectoryOf(p) == DirectoryOf(path) ==> p in listed
    requires !HasSlash(path[ExtensionIndex(path)..]) && Candidate(path, n) !in listed
    ensures Candidate(path, n) !in there
  {
    CandidateDirectory(path, n);
  }
}
