/** Which relative paths a vault accepts, and that an accepted path stays inside. */
module SafePaths {
  import opened Splitting
  import opened GoPaths

  datatype Error = AbsolutePath | Traversal | GitAccess | RootNotAllowed

  datatype Result = Ok(path: string) | Err(error: Error)

  const GIT := ".git"

  function Safe(input: string): Result {
    if input == "" || input == "." || input == "/" then Ok(".")
    else if IsAbs(input) then Err(AbsolutePath)
    else if Clean(input) == "." then Ok(".")
    else if Clean(input) == ".." || StartsWith(Clean(input), "../") then Err(Traversal)
    else if GIT in SplitOn(Clean(input), '/') then Err(GitAccess)
    else Ok(Clean(input))
  }

  method SafeRelPath(input: string) returns (r: Result)
    ensures r == Safe(input)
  {
    if input == "" || input == "." || input == "/" {
      return Ok(".");
    }
    if IsAbs(input) {
      return Err(AbsolutePath);
    }
    var clean := Clean(input);
    if clean == "." {
      return Ok(".");
    }
    if clean == ".." || StartsWith(clean, "../") {
      return Err(Traversal);
    }
    var parts := SplitOn(clean, '/');
    for i := 0 to |parts|
      invariant GIT !in parts[..i]
    {
      if parts[i] == GIT {
        return Err(GitAccess);
      }
    }
    return Ok(clean);
  }

  /** The walk that `input` describes never goes above its start, and no `.git`
      it enters is left in the path it ends at. */
  ghost predicate SafeWalk(input: string) {
    var parts := SplitOn(input, '/');
    !IsAbs(input) && StaysInside(parts) && !SurvivingName(parts, GIT)
  }

  lemma {:induction false} Reduced(input: string)
    requires !IsAbs(input)
    ensures var parts := SplitOn(input, '/');
      if StaysInside(parts) then StackIs(Components(input), parts, |parts|)
      else Components(input) != [] && Components(input)[0] == ".."
  {
    var parts := SplitOn(input, '/');
    assert parts[..|parts|] == parts;
    if StaysInside(parts) {
      WalkInside(parts, |parts|, false);
    } else {
      var low: nat :| low <= |parts| && Below(parts, low);
      WalkOutside(parts, |parts|, low);
    }
  }

  lemma GitSurvives(stack: seq<string>, parts: seq<string>)
    requires StackIs(stack, parts, |parts|)
    ensures GIT in stack <==> SurvivingName(parts, GIT)
  {
    if GIT in stack {
      var j :| 0 <= j < |stack| && stack[j] == GIT;
      assert HasSource(stack[j], j, parts, |parts|);
      var i: nat :| SurvivesTo(parts, i, |parts|) && parts[i] == GIT;
      assert Survives(parts, i);
    }
    if SurvivingName(parts, GIT) {
      var i :| 0 <= i < |parts| && Survives(parts, i) && parts[i] == GIT;
      assert stack[Level(parts, i)] == GIT;
    }
  }

  /** Exactly the safe walks are accepted, besides the single slash, and each
      rejection gives its reason. */
  lemma {:induction false} SafeExact(input: string)
    ensures Safe(input).Ok? <==> input == "/" || SafeWalk(input)
    ensures Safe(input) == Err(AbsolutePath) <==> IsAbs(input) && input != "/"
    ensures Safe(input) == Err(Traversal) <==> !IsAbs(input) && !StaysInside(SplitOn(input, '/'))
    ensures Safe(input).Ok? && input != "/" ==> Safe(input).path == Rendered(Components(input), false)
    ensures Safe(input).Ok? && input != "/" ==> AllNames(Components(input)) && GIT !in Components(input)
  {
    if !IsAbs(input) {
      var parts, stack := SplitOn(input, '/'), Components(input);
      Reduced(input);
      ComponentsShape(input);
      if stack != [] {
        RenderedParts(stack);
        GoesUp(Clean(input));
      }
      if StaysInside(parts) {
        GitSurvives(stack, parts);
      }
      if input == "." {
        RereadRelative([]);
      }
    }
  }

  /** An accepted path holds the surviving names of the walk, each at its depth. */
  lemma {:induction false} SafeContent(input: string, i: nat)
    requires Safe(input).Ok? && input != "/" && Survives(SplitOn(input, '/'), i)
    ensures var parts, out := SplitOn(input, '/'), SplitOn(Safe(input).path, '/');
      && |out| == Level(parts, |parts|)
      && 0 <= Level(parts, i) < |out| && out[Level(parts, i)] == parts[i]
  {
    SafeExact(input);
    Reduced(input);
    ComponentsShape(input);
    RenderedParts(Components(input));
  }

  /** What is accepted is accepted again, unchanged. */
  lemma SafeFixed(input: string)
    requires Safe(input).Ok?
    ensures Safe(Safe(input).path) == Safe(input)
  {
    SafeExact(input);
    var names := Components(input);
    if input != "/" && names != [] {
      ComponentsShape(input);
      RereadRelative(names);
      RenderedParts(names);
      GoesUp(Rendered(names, false));
    }
  }

  // ------------------------------------------------------------ inside the root

  function EnsureInside(root: string, path: string): bool
    requires IsAbs(root) && IsAbs(path)
  {
    var rel := Rel(Clean(root), Clean(path));
    !(rel == ".." || StartsWith(rel, "../"))
  }

  lemma RenderedGoesUp(parts: seq<string>)
    requires AllWithout(parts, '/')
    requires IsReduced(parts, false)
    ensures var text := Rendered(parts, false);
      text == ".." || StartsWith(text, "../") <==> parts != [] && parts[0] == ".."
  {
    GoesUp(Rendered(parts, false));
    if parts == [] {
      SplitWithout(".", '/');
    } else {
      RenderedParts(parts);
    }
  }

  /** Exactly the paths at or below the root pass. */
  lemma InsideExact(root: string, path: string)
    requires IsAbs(root) && IsAbs(path)
    ensures EnsureInside(root, path) <==> Components(root) <= Components(path)
  {
    CleanAbsolute(root);
    CleanAbsolute(path);
    ComponentsShape(root);
    ComponentsShape(path);
    RelGoesUp(Components(root), Components(path));
  }

  lemma {:induction false} RelGoesUp(b: seq<string>, t: seq<string>)
    requires AllNames(t) && AllWithout(t, '/')
    ensures var text := Rendered(Ups(|b| - Common(b, t)) + t[Common(b, t)..], false);
      text == ".." || StartsWith(text, "../") <==> !(b <= t)
  {
    var n := Common(b, t);
    var down := t[n..];
    assert AllNames(down) && AllWithout(down, '/');
    CommonIsPrefix(b, t);
    UpsThenNames(|b| - n, down);
    RenderedGoesUp(Ups(|b| - n) + down);
  }

  lemma UpsThenNames(n: nat, names: seq<string>)
    requires AllNames(names) && AllWithout(names, '/')
    ensures var parts := Ups(n) + names;
      && IsReduced(parts, false) && AllWithout(parts, '/')
      && (n > 0 <==> parts != [] && parts[0] == "..")
  {
    if n == 0 {
      assert Ups(n) + names == names;
    }
  }

  lemma {:induction false} CommonIsPrefix(b: seq<string>, t: seq<string>)
    ensures b <= t <==> Common(b, t) == |b|
  {
    if Common(b, t) == |b| {
      assert b == b[..|b|];
    }
  }

  /** An accepted path joined to any absolute root passes the second check: it is
      the root's own components followed by the path's. */
  lemma SafeStaysInside(root: string, input: string)
    requires IsAbs(root) && Safe(input).Ok?
    ensures IsAbs(JoinPath(root, Safe(input).path)) && EnsureInside(root, JoinPath(root, Safe(input).path))
    ensures Components(JoinPath(root, Safe(input).path)) == Components(root) + Components(Safe(input).path)
  {
    SafeExact(input);
    var names := if input == "/" then [] else Components(input);
    ComponentsShape(input);
    RereadRelative(names);
    JoinComponents(root, names);
    InsideExact(root, JoinPath(root, Safe(input).path));
  }

  // ------------------------------------------------------------ the web application's lock key

  /** The key under which the web application locks a path. */
  function CleanFilePath(input: string, allowRoot: bool): Result {
    match Safe(input)
    case Err(e) => Err(e)
    case Ok(path) => if path == "." && !allowRoot then Err(RootNotAllowed) else Ok(path)
  }

  /** The root itself, in any spelling. */
  predicate NamesRoot(input: string) {
    input == "/" || (!IsAbs(input) && Components(input) == [])
  }

  /** A path has a key exactly if it is a safe walk that does not end at the root, or
      may end there; the key is its components, or a dot. */
  lemma KeyExact(input: string, allowRoot: bool)
    ensures CleanFilePath(input, allowRoot).Ok? <==>
      (input == "/" || SafeWalk(input)) && (allowRoot || !NamesRoot(input))
    ensures CleanFilePath(input, allowRoot).Ok? ==>
      CleanFilePath(input, allowRoot).path == if NamesRoot(input) then "." else Rendered(Components(input), false)
    ensures CleanFilePath(input, allowRoot) == Err(RootNotAllowed) <==>
      !allowRoot && NamesRoot(input) && (input == "/" || SafeWalk(input))
  {
    SafeExact(input);
    ComponentsShape(input);
    if !IsAbs(input) && Components(input) != [] {
      RenderedParts(Components(input));
    }
  }

  /** Two spellings share a key exactly when they are the same path. */
  lemma KeyIsPath(a: string, b: string, allowRoot: bool)
    requires CleanFilePath(a, allowRoot).Ok? && CleanFilePath(b, allowRoot).Ok?
    ensures CleanFilePath(a, allowRoot).path == CleanFilePath(b, allowRoot).path <==>
      (if a == "/" then [] else Components(a)) == (if b == "/" then [] else Components(b))
  {
    SafeExact(a);
    SafeExact(b);
    ComponentsShape(a);
    ComponentsShape(b);
    RereadRelative(if a == "/" then [] else Components(a));
    RereadRelative(if b == "/" then [] else Components(b));
  }
}
