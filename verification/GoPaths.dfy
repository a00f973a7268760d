/** The lexical part of Go's path packages on a slash-separated system: Clean,
    Join and Rel, with the walk that a path describes as their reference. */
module GoPaths {
  import opened Splitting

  predicate IsAbs(path: string) {
    path != "" && path[0] == '/'
  }

  /** Neither empty nor `.` nor `..`. */
  predicate IsName(part: string) {
    part != "" && part != "." && part != ".."
  }

  predicate AllNames(parts: seq<string>) {
    forall i :: 0 <= i < |parts| ==> IsName(parts[i])
  }

  // ------------------------------------------------------------ Clean

  /** One component: `..` removes the last name; with none left it stays, or is
      dropped at the file system's root. */
  function Step(stack: seq<string>, part: string, rooted: bool): seq<string> {
    if IsName(part) then stack + [part]
    else if part != ".." then stack
    else if stack != [] && stack[|stack| - 1] != ".." then stack[..|stack| - 1]
    else if rooted then stack
    else stack + [".."]
  }

  function Walk(stack: seq<string>, parts: seq<string>, rooted: bool): seq<string> {
    if parts == [] then stack
    else Step(Walk(stack, parts[..|parts| - 1], rooted), parts[|parts| - 1], rooted)
  }

  function Components(path: string): seq<string> {
    Walk([], SplitOn(path, '/'), IsAbs(path))
  }

  function Rendered(stack: seq<string>, rooted: bool): string {
    if stack == [] then (if rooted then "/" else ".")
    else if rooted then "/" + Join(stack, '/')
    else Join(stack, '/')
  }

  function Clean(path: string): string {
    Rendered(Components(path), IsAbs(path))
  }

  lemma {:induction false} WalkConcat(stack: seq<string>, a: seq<string>, b: seq<string>, rooted: bool)
    ensures Walk(stack, a + b, rooted) == Walk(Walk(stack, a, rooted), b, rooted)
    decreases |b|
  {
    if b == [] {
      assert a + b == a;
    } else {
      WalkConcat(stack, a, b[..|b| - 1], rooted);
      assert (a + b)[..|a + b| - 1] == a + b[..|b| - 1];
    }
  }

  lemma {:induction false} WalkNames(stack: seq<string>, names: seq<string>, rooted: bool)
    requires AllNames(names)
    ensures Walk(stack, names, rooted) == stack + names
    decreases |names|
  {
    if names != [] {
      WalkNames(stack, names[..|names| - 1], rooted);
      assert stack + names == stack + names[..|names| - 1] + [names[|names| - 1]];
    }
  }

  /** Some `..`s, then only names; from the root only names. */
  predicate IsReduced(stack: seq<string>, rooted: bool) {
    && (forall i :: 0 <= i < |stack| ==> IsName(stack[i]) || (stack[i] == ".." && !rooted))
    && forall i, j :: 0 <= i < j < |stack| && IsName(stack[i]) ==> IsName(stack[j])
  }

  lemma {:induction false} WalkParts(parts: seq<string>, rooted: bool)
    requires AllWithout(parts, '/')
    ensures AllWithout(Walk([], parts, rooted), '/') && IsReduced(Walk([], parts, rooted), rooted)
    decreases |parts|
  {
    if parts != [] {
      WalkParts(parts[..|parts| - 1], rooted);
    }
  }

  /** A reduced path walks to itself. */
  lemma {:induction false} WalkReduced(stack: seq<string>, rooted: bool)
    requires IsReduced(stack, rooted)
    ensures Walk([], stack, rooted) == stack
    decreases |stack|
  {
    if stack != [] {
      WalkReduced(stack[..|stack| - 1], rooted);
    }
  }

  lemma ComponentsShape(path: string)
    ensures AllWithout(Components(path), '/') && IsReduced(Components(path), IsAbs(path))
  {
    JoinSplit(path, '/');
    WalkParts(SplitOn(path, '/'), IsAbs(path));
  }

  /** A relative clean path reads back as its components. */
  lemma RenderedParts(stack: seq<string>)
    requires AllWithout(stack, '/') && stack != []
    requires IsReduced(stack, false)
    ensures SplitOn(Rendered(stack, false), '/') == stack
    ensures !IsAbs(Rendered(stack, false)) && Rendered(stack, false) != "" && Rendered(stack, false) != "."
    ensures IsName(stack[0]) ==> Rendered(stack, false) != ".."
  {
    SplitJoin(stack, '/');
    assert stack[0] != "" && stack[0][0] != '/';
    assert Rendered(stack, false)[0] == stack[0][0];
    assert SplitOn("", '/')[0] == "";
    SplitJoin(["."], '/');
    SplitJoin([".."], '/');
  }

  /** The text test for going up looks exactly at the first component. */
  lemma {:induction false} GoesUp(path: string)
    ensures path == ".." || StartsWith(path, "../") <==> SplitOn(path, '/')[0] == ".."
  {
    JoinSplit(path, '/');
    var parts := SplitOn(path, '/');
    assert |parts| > 1 ==> path == parts[0] + ['/'] + Join(parts[1..], '/');
    SplitJoin([".."], '/');
    if StartsWith(path, "../") {
      assert path == ".." + ['/'] + path[3..];
      SplitConcat("..", path[3..], '/');
    }
  }

  // ------------------------------------------------------------ the walk a path describes

  function Delta(part: string): int {
    if IsName(part) then 1 else if part == ".." then -1 else 0
  }

  /** How far below its start a walk is after `k` components. */
  function Level(parts: seq<string>, k: nat): int
    requires k <= |parts|
  {
    if k == 0 then 0 else Level(parts, k - 1) + Delta(parts[k - 1])
  }

  predicate Below(parts: seq<string>, k: nat)
    requires k <= |parts|
  {
    Level(parts, k) < 0
  }

  predicate StaysInside(parts: seq<string>) {
    forall k :: 0 <= k <= |parts| ==> !Below(parts, k)
  }

  /** The name at `i` is still part of the path after `k` components: the walk
      has not come back up to where it was before `i`. */
  ghost predicate SurvivesTo(parts: seq<string>, i: nat, k: nat)
    requires k <= |parts|
  {
    && i < k && IsName(parts[i])
    && forall j :: i < j <= k ==> Level(parts, j) > Level(parts, i)
  }

  ghost predicate Survives(parts: seq<string>, i: nat) {
    SurvivesTo(parts, i, |parts|)
  }

  ghost predicate SurvivingName(parts: seq<string>, name: string) {
    exists i :: 0 <= i < |parts| && Survives(parts, i) && parts[i] == name
  }

  /** The stack after `k` components holds the surviving names, each at its level. */
  ghost predicate StackIs(stack: seq<string>, parts: seq<string>, k: nat)
    requires k <= |parts|
  {
    && |stack| == Level(parts, k)
    && AllNames(stack)
    && (forall i: nat :: SurvivesTo(parts, i, k) ==> 0 <= Level(parts, i) < |stack| && stack[Level(parts, i)] == parts[i])
    && forall j :: 0 <= j < |stack| ==> HasSource(stack[j], j, parts, k)
  }

  ghost predicate HasSource(name: string, level: int, parts: seq<string>, k: nat)
    requires k <= |parts|
  {
    exists i: nat :: SurvivesTo(parts, i, k) && Level(parts, i) == level && parts[i] == name
  }

  lemma {:induction false} LevelPrefix(parts: seq<string>, m: nat, k: nat)
    requires k <= m <= |parts|
    ensures Level(parts[..m], k) == Level(parts, k)
  {
    if k > 0 {
      LevelPrefix(parts, m, k - 1);
    }
  }

  lemma {:induction false} WalkInside(parts: seq<string>, k: nat, rooted: bool)
    requires k <= |parts| && forall j :: 0 <= j <= k ==> !Below(parts, j)
    ensures StackIs(Walk([], parts[..k], rooted), parts, k)
  {
    if k > 0 {
      WalkInside(parts, k - 1, rooted);
      assert parts[..k][..k - 1] == parts[..k - 1];
      StackStep(Walk([], parts[..k - 1], rooted), parts, k - 1, rooted);
    }
  }

  lemma SurvivesStep(parts: seq<string>, i: nat, k: nat)
    requires k < |parts|
    ensures i < k ==> (SurvivesTo(parts, i, k + 1) <==> SurvivesTo(parts, i, k) && Level(parts, i) < Level(parts, k + 1))
    ensures i == k ==> (SurvivesTo(parts, i, k + 1) <==> IsName(parts[k]))
  {
    if SurvivesTo(parts, i, k + 1) {
      assert forall j :: i < j <= k ==> Level(parts, j) > Level(parts, i);
    }
  }

  lemma StackStep(stack: seq<string>, parts: seq<string>, k: nat, rooted: bool)
    requires k < |parts| && StackIs(stack, parts, k)
    requires !Below(parts, k) && !Below(parts, k + 1)
    ensures StackIs(Step(stack, parts[k], rooted), parts, k + 1)
  {
    var next := Step(stack, parts[k], rooted);
    forall i: nat | SurvivesTo(parts, i, k + 1)
      ensures 0 <= Level(parts, i) < |next| && next[Level(parts, i)] == parts[i]
    {
      SurvivesStep(parts, i, k);
    }
    forall j | 0 <= j < |next| ensures HasSource(next[j], j, parts, k + 1) {
      if j < |stack| {
        assert HasSource(stack[j], j, parts, k) && next[j] == stack[j];
        var i: nat :| SurvivesTo(parts, i, k) && Level(parts, i) == j && parts[i] == stack[j];
        SurvivesStep(parts, i, k);
      } else {
        SurvivesStep(parts, k, k);
      }
    }
  }

  /** Once the walk is above its start, the path keeps a leading `..`. */
  lemma {:induction false} WalkOutside(parts: seq<string>, k: nat, low: nat)
    requires low <= k <= |parts| && Below(parts, low)
    ensures Walk([], parts[..k], false) != [] && Walk([], parts[..k], false)[0] == ".."
  {
    assert k > 0;
    assert parts[..k][..k - 1] == parts[..k - 1];
    if m: nat :| m < k && Below(parts, m) {
      WalkOutside(parts, k - 1, m);
    } else {
      assert low == k;
      assert forall j :: 0 <= j < k ==> !Below(parts, j);
      WalkInside(parts, k - 1, false);
    }
  }

  // ------------------------------------------------------------ Join and Rel

  /** filepath.Join of two non-empty elements. */
  function JoinPath(dir: string, rel: string): string {
    Clean(dir + "/" + rel)
  }

  function Common(a: seq<string>, b: seq<string>): (n: nat)
    ensures n <= |a| && n <= |b| && a[..n] == b[..n]
    ensures n < |a| && n < |b| ==> a[n] != b[n]
  {
    if a == [] || b == [] || a[0] != b[0] then 0
    else
      var n := Common(a[1..], b[1..]);
      assert a[..n + 1] == [a[0]] + a[1..][..n] && b[..n + 1] == [b[0]] + b[1..][..n];
      n + 1
  }

  function Ups(n: nat): (s: seq<string>)
    ensures |s| == n && forall i :: 0 <= i < n ==> s[i] == ".."
  {
    seq(n, i => "..")
  }

  /** filepath.Rel between absolute paths: up from the base to the common
      ancestor, then down to the target. */
  function Rel(base: string, target: string): string {
    var b, t := Components(base), Components(target);
    var n := Common(b, t);
    Rendered(Ups(|b| - n) + t[n..], false)
  }

  /** Joining a walk that stays inside only appends its surviving names. */
  lemma JoinComponents(dir: string, names: seq<string>)
    requires IsAbs(dir) && AllNames(names) && AllWithout(names, '/')
    ensures IsAbs(JoinPath(dir, Rendered(names, false)))
    ensures Components(JoinPath(dir, Rendered(names, false))) == Components(dir) + names
  {
    var rel := Rendered(names, false);
    var joined := dir + "/" + rel;
    ComponentsShape(dir);
    SplitConcat(dir, rel, '/');
    WalkConcat([], SplitOn(dir, '/'), SplitOn(rel, '/'), true);
    if names == [] {
      SplitJoin(["."], '/');
      assert Walk(Components(dir), ["."], true) == Components(dir);
    } else {
      RenderedParts(names);
      WalkNames(Components(dir), names, true);
    }
    assert Components(joined) == Components(dir) + names;
    CleanAbsolute(joined);
  }

  /** Cleaning an absolute path keeps it absolute and keeps its components. */
  lemma CleanAbsolute(path: string)
    requires IsAbs(path)
    ensures IsAbs(Clean(path)) && Components(Clean(path)) == Components(path)
  {
    var stack := Components(path);
    ComponentsShape(path);
    WalkNames([], stack, true);
    SplitRooted(stack);
    var rest := if stack == [] then [""] else stack;
    WalkConcat([], [""], rest, true);
    assert Walk([], [""], true) == [];
  }

  lemma SplitRooted(stack: seq<string>)
    requires AllWithout(stack, '/')
    ensures SplitOn(Rendered(stack, true), '/') == [""] + (if stack == [] then [""] else stack)
  {
    var text := if stack == [] then "" else Join(stack, '/');
    assert Rendered(stack, true) == "" + ['/'] + text;
    SplitConcat("", text, '/');
    if stack != [] {
      SplitJoin(stack, '/');
    }
  }

  lemma RereadRelative(stack: seq<string>)
    requires AllWithout(stack, '/') && IsReduced(stack, false)
    ensures Components(Rendered(stack, false)) == stack && !IsAbs(Rendered(stack, false))
  {
    if stack == [] {
      SplitWithout(".", '/');
      assert Walk([], ["."][..0], false) == [];
    } else {
      RenderedParts(stack);
      WalkReduced(stack, false);
    }
  }

  // ------------------------------------------------------------ lengths

  function Size(parts: seq<string>): nat {
    if parts == [] then 0 else Size(parts[..|parts| - 1]) + |parts[|parts| - 1]| + 1
  }

  lemma {:induction false} SizeConcat(a: seq<string>, b: seq<string>)
    ensures Size(a + b) == Size(a) + Size(b)
    decreases |b|
  {
    if b == [] {
      assert a + b == a;
    } else {
      SizeConcat(a, b[..|b| - 1]);
      assert (a + b)[..|a + b| - 1] == a + b[..|b| - 1];
    }
  }

  lemma {:induction false} JoinSize(parts: seq<string>, c: char)
    requires parts != []
    ensures |Join(parts, c)| + 1 == Size(parts)
  {
    assert parts == [parts[0]] + parts[1..];
    SizeConcat([parts[0]], parts[1..]);
    assert Size([parts[0]]) == Size([]) + |parts[0]| + 1 by {
      assert [parts[0]][..0] == [];
    }
    if |parts| > 1 {
      JoinSize(parts[1..], c);
    }
  }

  lemma {:induction false} WalkSize(parts: seq<string>)
    ensures Size(Walk([], parts, false)) <= Size(parts)
    decreases |parts|
  {
    if parts != [] {
      var before := Walk([], parts[..|parts| - 1], false);
      WalkSize(parts[..|parts| - 1]);
      SizeConcat(before, [parts[|parts| - 1]]);
      assert [parts[|parts| - 1]][..0] == [];
    }
  }

  /** Cleaning never makes a relative path longer. */
  lemma CleanNoLonger(path: string)
    requires path != "" && !IsAbs(path)
    ensures |Clean(path)| <= |path|
  {
    var stack := Components(path);
    JoinSplit(path, '/');
    WalkSize(SplitOn(path, '/'));
    JoinSize(SplitOn(path, '/'), '/');
    if stack != [] {
      JoinSize(stack, '/');
    }
  }
}
