/** The lines of tables, taken apart as the source's regular expressions do. */
module TableShapes {
  import opened Splitting
  import opened MarkdownLines
  import opened LineShapes

  /** `\|?`. */
  predicate MaybeBar(s: string) {
    s == "" || s == "|"
  }

  /** White space, text, a bar, text, white space; a bar may come before and after. */
  predicate RowOf(s: string, lead: string, bar: string, left: string, right: string, end: string, trail: string) {
    && Whites(lead) && MaybeBar(bar) && Dots(left) && Dots(right) && MaybeBar(end) && Whites(trail)
    && s == (lead + (bar + left)) + ("|" + (right + (end + trail)))
  }

  ghost predicate RowLine(s: string) {
    exists lead: string, bar: string, left: string, right: string, end: string, trail: string ::
      RowOf(s, lead, bar, left, right, end, trail)
  }

  /** Dashes with an optional colon at either end, in white space. */
  predicate CellOf(s: string, lead: string, colon: string, dashes: string, end: string, trail: string) {
    && Whites(lead) && (colon == "" || colon == ":") && dashes != "" && AllOf(dashes, '-')
    && (end == "" || end == ":") && Whites(trail)
    && s == lead + (colon + (dashes + (end + trail)))
  }

  ghost predicate Cell(s: string) {
    exists lead: string, colon: string, dashes: string, end: string, trail: string ::
      CellOf(s, lead, colon, dashes, end, trail)
  }

  ghost predicate Cells(cells: seq<string>) {
    forall i :: 0 <= i < |cells| ==> Cell(cells[i])
  }

  /** At least two cells with bars between them; a bar may come before and after. */
  ghost predicate DelimiterOf(s: string, lead: string, bar: string, cells: seq<string>, end: string, trail: string) {
    && Whites(lead) && MaybeBar(bar) && |cells| >= 2 && Cells(cells) && MaybeBar(end) && Whites(trail)
    && s == lead + (bar + (Join(cells, '|') + (end + trail)))
  }

  ghost predicate DelimiterLine(s: string) {
    exists lead: string, bar: string, cells: seq<string>, end: string, trail: string ::
      DelimiterOf(s, lead, bar, cells, end, trail)
  }

  // ------------------------------------------------------------ rows

  lemma NoTerminatorIsDots(s: string)
    ensures NoTerminator(s) && s != "" <==> Dots(s)
  {
  }

  lemma Halves(s: string, n: nat)
    requires n <= |s|
    ensures s == s[..n] + s[n..]
  {
  }

  lemma NothingAdded(s: string)
    ensures "" + s == s && s + "" == s
  {
  }

  lemma LeftTaken(s: string) returns (lead: string, left: string)
    requires TableLeft(s)
    ensures Whites(lead) && Dots(left) && s == lead + ("" + left)
  {
    var k :| 0 <= k <= Lead(s) && k < |s| && NoTerminator(s[k..]);
    lead, left := s[..k], s[k..];
    NoTerminatorIsDots(left);
    SpacesBefore(s, k);
    Halves(s, k);
    NothingAdded(left);
  }

  lemma {:induction false} SpacesBefore(s: string, k: nat)
    requires k <= Lead(s)
    ensures Whites(s[..k])
  {
    SpacesAreWhites(s[..Lead(s)]);
    assert forall i :: 0 <= i < k ==> s[..k][i] == s[..Lead(s)][i];
  }

  lemma {:induction false} LeadAtLeast(lead: string, rest: string)
    requires AllSpace(lead)
    ensures Lead(lead + rest) >= |lead|
    decreases |lead|
  {
    if lead != "" {
      LeadAtLeast(lead[1..], rest);
      assert (lead + rest)[1..] == lead[1..] + rest;
    }
  }

  lemma LeftPut(s: string, lead: string, bar: string, left: string)
    requires Whites(lead) && MaybeBar(bar) && Dots(left) && s == lead + (bar + left)
    ensures TableLeft(s)
  {
    SpacesAreWhites(lead);
    LeadAtLeast(lead, bar + left);
    assert Dots(bar + left);
    NoTerminatorIsDots(bar + left);
    assert s[|lead|..] == bar + left;
  }

  lemma RightTaken(s: string) returns (right: string, trail: string)
    requires TableRight(s)
    ensures Dots(right) && Whites(trail) && s == right + ("" + trail)
  {
    var k :| 0 < k <= |s| && NoTerminator(s[..k]) && IsBlank(s[k..]);
    right, trail := s[..k], s[k..];
    NoTerminatorIsDots(right);
    SpacesAreWhites(trail);
    Halves(s, k);
    NothingAdded(trail);
  }

  lemma RightPut(s: string, right: string, end: string, trail: string)
    requires Dots(right) && MaybeBar(end) && Whites(trail) && s == right + (end + trail)
    ensures TableRight(s)
  {
    SpacesAreWhites(trail);
    assert Dots(right + end);
    NoTerminatorIsDots(right + end);
    var k := |right + end|;
    assert s[..k] == right + end && s[k..] == trail;
  }

  lemma RowHas(s: string, lead: string, bar: string, left: string, right: string, end: string, trail: string)
    requires RowOf(s, lead, bar, left, right, end, trail)
    ensures RowLine(s)
  {
  }

  lemma RowTaken(s: string, i: nat)
    requires i < |s| && s[i] == '|' && TableLeft(s[..i]) && TableRight(s[i + 1..])
    ensures RowLine(s)
  {
    var lead, left := LeftTaken(s[..i]);
    var right, trail := RightTaken(s[i + 1..]);
    assert s == s[..i] + ("|" + s[i + 1..]);
    RowHas(s, lead, "", left, right, "", trail);
  }

  lemma RowPut(s: string, lead: string, bar: string, left: string, right: string, end: string, trail: string)
    requires RowOf(s, lead, bar, left, right, end, trail)
    ensures IsTableRow(s)
  {
    var a, b := lead + (bar + left), right + (end + trail);
    LeftPut(a, lead, bar, left);
    RightPut(b, right, end, trail);
    assert s == a + ("|" + b);
    assert s[..|a|] == a && s[|a|] == '|' && s[|a| + 1..] == b;
  }

  lemma RowExact(s: string)
    ensures IsTableRow(s) <==> RowLine(s)
  {
    if IsTableRow(s) {
      var i :| 0 <= i < |s| && s[i] == '|' && TableLeft(s[..i]) && TableRight(s[i + 1..]);
      RowTaken(s, i);
    }
    if RowLine(s) {
      var lead: string, bar: string, left: string, right: string, end: string, trail: string :|
        RowOf(s, lead, bar, left, right, end, trail);
      RowPut(s, lead, bar, left, right, end, trail);
    }
  }

  // ------------------------------------------------------------ cells

  lemma CellHas(s: string, lead: string, colon: string, dashes: string, end: string, trail: string)
    requires CellOf(s, lead, colon, dashes, end, trail)
    ensures Cell(s)
  {
  }

  /** A text with its optional colon in front. */
  lemma ColonTaken(s: string) returns (colon: string)
    ensures (colon == "" || colon == ":") && s == colon + WithoutColon(s)
  {
    colon := if StartsWith(s, ":") then ":" else "";
  }

  lemma ColonPut(colon: string, rest: string)
    requires colon == ":" || (colon == "" && (rest == "" || rest[0] != ':'))
    ensures WithoutColon(colon + rest) == rest
  {
    assert (":" + rest)[1..] == rest && "" + rest == rest;
  }

  lemma CellTaken(s: string)
    requires IsDelimiterCell(s)
    ensures Cell(s)
  {
    var u := Indented(s);
    var colon := ColonTaken(u);
    var t := WithoutColon(u);
    var n := Run(t, '-');
    var end := ColonTaken(t[n..]);
    var trail := WithoutColon(t[n..]);
    Halves(s, Lead(s));
    Halves(t, n);
    SpacesAreWhites(s[..Lead(s)]);
    SpacesAreWhites(trail);
    CellParts(s, s[..Lead(s)], u, colon, t, t[..n], t[n..], end, trail);
  }

  lemma CellParts(s: string, lead: string, u: string, colon: string, t: string, dashes: string, rest: string,
                  end: string, trail: string)
    requires s == lead + u && u == colon + t && t == dashes + rest && rest == end + trail
    requires Whites(lead) && (colon == "" || colon == ":") && dashes != "" && AllOf(dashes, '-')
    requires (end == "" || end == ":") && Whites(trail)
    ensures Cell(s)
  {
    CellHas(s, lead, colon, dashes, end, trail);
  }

  /** What follows the indentation of a cell begins with a colon or a dash. */
  lemma CellFront(lead: string, colon: string, t: string)
    requires Whites(lead) && (colon == "" || colon == ":") && t != "" && t[0] == '-'
    ensures Indented(lead + (colon + t)) == colon + t && WithoutColon(colon + t) == t
    ensures !IsBlank(lead + (colon + t))
  {
    var s := lead + (colon + t);
    SpacesAreWhites(lead);
    assert (colon + t)[0] == ':' || (colon + t)[0] == '-';
    LeadOf(lead, colon + t);
    ColonPut(colon, t);
    assert s[|lead|..] == colon + t;
    assert s[|lead|] == (colon + t)[0];
  }

  lemma CellBack(dashes: string, end: string, trail: string)
    requires dashes != "" && AllOf(dashes, '-') && (end == "" || end == ":") && Whites(trail)
    ensures var t := dashes + (end + trail);
      t[0] == '-' && Run(t, '-') == |dashes| && IsBlank(WithoutColon(t[Run(t, '-')..]))
  {
    var rest := end + trail;
    assert trail != "" ==> White(trail[0]);
    assert rest == "" || rest[0] == ':' || White(rest[0]);
    RunOf(dashes, '-', rest);
    assert (dashes + rest)[|dashes|..] == rest;
    ColonPut(end, trail);
    SpacesAreWhites(trail);
  }

  lemma NoBars(lead: string, colon: string, dashes: string, end: string, trail: string)
    requires Whites(lead) && (colon == "" || colon == ":") && AllOf(dashes, '-') && (end == "" || end == ":") && Whites(trail)
    ensures Without(lead + (colon + (dashes + (end + trail))), '|')
  {
    WithoutBoth(end, trail);
    WithoutBoth(dashes, end + trail);
    WithoutBoth(colon, dashes + (end + trail));
    WithoutBoth(lead, colon + (dashes + (end + trail)));
  }

  lemma WithoutBoth(a: string, b: string)
    requires Without(a, '|') && Without(b, '|')
    ensures Without(a + b, '|')
  {
  }

  lemma CellPut(s: string, lead: string, colon: string, dashes: string, end: string, trail: string)
    requires CellOf(s, lead, colon, dashes, end, trail)
    ensures IsDelimiterCell(s) && Without(s, '|') && !IsBlank(s)
  {
    CellBack(dashes, end, trail);
    CellFront(lead, colon, dashes + (end + trail));
    NoBars(lead, colon, dashes, end, trail);
  }

  lemma CellExact(s: string)
    ensures IsDelimiterCell(s) <==> Cell(s)
    ensures Cell(s) ==> Without(s, '|') && !IsBlank(s)
  {
    if IsDelimiterCell(s) {
      CellTaken(s);
    }
    if Cell(s) {
      var lead: string, colon: string, dashes: string, end: string, trail: string :|
        CellOf(s, lead, colon, dashes, end, trail);
      CellPut(s, lead, colon, dashes, end, trail);
    }
  }

  // ------------------------------------------------------------ delimiters

  lemma {:induction false} JoinFirst(first: string, rest: seq<string>)
    requires |rest| > 0
    ensures Join([first] + rest, '|') == first + ("|" + Join(rest, '|'))
  {
    assert ([first] + rest)[1..] == rest;
    Regroup(first, "|", Join(rest, '|'));
  }

  lemma {:induction false} JoinLast(rest: seq<string>, last: string)
    requires |rest| > 0
    ensures Join(rest + [last], '|') == Join(rest, '|') + ("|" + last)
    decreases |rest|
  {
    if |rest| == 1 {
      assert rest + [last] == [rest[0]] + [last];
      JoinFirst(rest[0], [last]);
    } else {
      JoinLast(rest[1..], last);
      assert rest == [rest[0]] + rest[1..] && rest + [last] == [rest[0]] + (rest[1..] + [last]);
      JoinFirst(rest[0], rest[1..]);
      JoinFirst(rest[0], rest[1..] + [last]);
      Regroup(rest[0], "|" + Join(rest[1..], '|'), "|" + last);
      Regroup("|", Join(rest[1..], '|'), "|" + last);
    }
  }

  lemma DelimiterHas(s: string, lead: string, bar: string, cells: seq<string>, end: string, trail: string)
    requires DelimiterOf(s, lead, bar, cells, end, trail)
    ensures DelimiterLine(s)
  {
  }

  function WithoutFront(parts: seq<string>): seq<string>
    requires |parts| > 0
  {
    if IsBlank(parts[0]) then parts[1..] else parts
  }

  function WithoutBack(parts: seq<string>): seq<string> {
    if parts != [] && IsBlank(parts[|parts| - 1]) then parts[..|parts| - 1] else parts
  }

  lemma TakeFront(parts: seq<string>) returns (lead: string, bar: string)
    requires |parts| > 0 && |WithoutFront(parts)| > 0
    ensures Whites(lead) && MaybeBar(bar) && Join(parts, '|') == lead + (bar + Join(WithoutFront(parts), '|'))
  {
    var left := WithoutFront(parts);
    if IsBlank(parts[0]) {
      lead, bar := parts[0], "|";
      assert parts == [parts[0]] + left;
      JoinFirst(parts[0], left);
      SpacesAreWhites(parts[0]);
    } else {
      lead, bar := "", "";
      assert "" + ("" + Join(left, '|')) == Join(left, '|');
    }
  }

  lemma TakeBack(left: seq<string>) returns (end: string, trail: string)
    requires |left| > 0 && |WithoutBack(left)| > 0
    ensures Whites(trail) && MaybeBar(end) && Join(left, '|') == Join(WithoutBack(left), '|') + (end + trail)
  {
    var cells := WithoutBack(left);
    if IsBlank(left[|left| - 1]) {
      end, trail := "|", left[|left| - 1];
      assert left == cells + [trail];
      JoinLast(cells, trail);
      SpacesAreWhites(trail);
    } else {
      end, trail := "", "";
      assert Join(left, '|') + ("" + "") == Join(left, '|');
    }
  }

  lemma DelimiterTaken(s: string)
    requires IsTableDelimiter(s)
    ensures DelimiterLine(s)
  {
    JoinSplit(s, '|');
    var parts := SplitOn(s, '|');
    var left := WithoutFront(parts);
    var cells := WithoutBack(left);
    forall i | 0 <= i < |cells| ensures Cell(cells[i]) {
      CellExact(cells[i]);
    }
    var lead, bar := TakeFront(parts);
    var end, trail := TakeBack(left);
    Together(s, lead, bar, Join(left, '|'), Join(cells, '|'), end, trail);
    DelimiterHas(s, lead, bar, cells, end, trail);
  }

  lemma Together(s: string, lead: string, bar: string, left: string, middle: string, end: string, trail: string)
    requires s == lead + (bar + left) && left == middle + (end + trail)
    ensures s == lead + (bar + (middle + (end + trail)))
  {
  }

  /** White space before or after a cell belongs to it. */
  lemma WiderCell(lead: string, cell: string, trail: string)
    requires Cell(cell) && Whites(lead) && Whites(trail)
    ensures Cell(lead + cell) && Cell(cell + trail)
  {
    var a: string, colon: string, dashes: string, end: string, z: string :| CellOf(cell, a, colon, dashes, end, z);
    var core := colon + (dashes + (end + z));
    Regroup(lead, a, core);
    CellHas(lead + cell, lead + a, colon, dashes, end, z);
    Regroup(a, core, trail);
    Regroup(colon, dashes + (end + z), trail);
    Regroup(dashes, end + z, trail);
    Regroup(end, z, trail);
    CellHas(cell + trail, a, colon, dashes, end, z + trail);
  }

  lemma Front(lead: string, cells: seq<string>) returns (parts: seq<string>)
    requires Whites(lead) && |cells| >= 2 && Cells(cells)
    ensures Cells(parts) && |parts| == |cells| && Join(parts, '|') == lead + ("" + Join(cells, '|'))
  {
    var rest := cells[1..];
    WiderCell(lead, cells[0], "");
    parts := [lead + cells[0]] + rest;
    assert cells == [cells[0]] + rest;
    JoinFirst(cells[0], rest);
    JoinFirst(lead + cells[0], rest);
    Regroup(lead, cells[0], "|" + Join(rest, '|'));
    assert "" + Join(cells, '|') == Join(cells, '|');
  }

  lemma Back(cells: seq<string>, end: string, trail: string) returns (parts: seq<string>)
    requires Whites(trail) && MaybeBar(end) && |cells| >= 2 && Cells(cells)
    ensures |parts| >= 2 && Join(parts, '|') == Join(cells, '|') + (end + trail)
    ensures if end == "|" then parts == cells + [trail] else Cells(parts) && |parts| == |cells|
  {
    if end == "|" {
      parts := cells + [trail];
      JoinLast(cells, trail);
    } else {
      var n := |cells| - 1;
      WiderCell("", cells[n], trail);
      parts := cells[..n] + [cells[n] + trail];
      assert cells == cells[..n] + [cells[n]];
      JoinLast(cells[..n], cells[n]);
      JoinLast(cells[..n], cells[n] + trail);
      Regroup("|", cells[n], trail);
      Regroup(Join(cells[..n], '|'), "|" + cells[n], trail);
      assert "" + trail == trail;
    }
  }

  lemma CellsWithout(cells: seq<string>)
    requires Cells(cells)
    ensures AllWithout(cells, '|')
    ensures forall i :: 0 <= i < |cells| ==> IsDelimiterCell(cells[i]) && !IsBlank(cells[i])
  {
    forall i | 0 <= i < |cells| ensures IsDelimiterCell(cells[i]) && !IsBlank(cells[i]) && Without(cells[i], '|') {
      CellExact(cells[i]);
    }
  }

  /** At most one part, and it is blank. */
  predicate Edge(parts: seq<string>) {
    |parts| <= 1 && forall i :: 0 <= i < |parts| ==> IsBlank(parts[i]) && Without(parts[i], '|')
  }

  lemma ReadEdges(front: seq<string>, cells: seq<string>, back: seq<string>)
    requires Edge(front) && Edge(back) && |cells| > 0 && !IsBlank(cells[0]) && !IsBlank(cells[|cells| - 1])
    ensures WithoutFront(front + (cells + back)) == cells + back && WithoutBack(cells + back) == cells
  {
    var parts := front + (cells + back);
    assert parts[0] == if |front| == 1 then front[0] else cells[0];
    assert (cells + back)[|cells + back| - 1] == if |back| == 1 then back[0] else cells[|cells| - 1];
  }

  /** The parts between all bars: the cells, and a blank part outside each outer bar. */
  lemma {:induction false} PartsRead(s: string, front: seq<string>, cells: seq<string>, back: seq<string>)
    requires |cells| >= 2 && Cells(cells) && Edge(front) && Edge(back)
    requires s == Join(front + (cells + back), '|')
    ensures IsTableDelimiter(s)
  {
    CellsWithout(cells);
    ReadEdges(front, cells, back);
    AllPartsWithout(front, cells, back);
    SplitJoin(front + (cells + back), '|');
    DelimiterByParts(s, cells + back, cells);
  }

  lemma AllPartsWithout(front: seq<string>, cells: seq<string>, back: seq<string>)
    requires Edge(front) && AllWithout(cells, '|') && Edge(back)
    ensures AllWithout(front + (cells + back), '|')
  {
  }

  lemma {:induction false} DelimiterByParts(s: string, left: seq<string>, cells: seq<string>)
    requires left == WithoutFront(SplitOn(s, '|')) && cells == WithoutBack(left)
    requires |cells| >= 2 && forall i :: 0 <= i < |cells| ==> IsDelimiterCell(cells[i])
    ensures IsTableDelimiter(s)
  {
  }

  lemma BlankEdge(s: string)
    requires Whites(s)
    ensures Edge([s])
  {
    SpacesAreWhites(s);
  }

  lemma DelimiterPut(s: string, lead: string, bar: string, cells: seq<string>, end: string, trail: string)
    requires DelimiterOf(s, lead, bar, cells, end, trail)
    ensures IsTableDelimiter(s)
  {
    var cells1 := Back(cells, end, trail);
    var inner, back := if end == "|" then cells else cells1, if end == "|" then [trail] else [];
    assert cells1 == inner + back;
    BlankEdge(lead);
    BlankEdge(trail);
    if bar == "|" {
      JoinFirst(lead, cells1);
      PartsRead(s, [lead], inner, back);
    } else {
      var inner1 := Front(lead, inner);
      FrontBack(lead, inner, inner1, end, trail, cells1);
      assert [] + (inner1 + back) == inner1 + back;
      PartsRead(s, [], inner1, back);
    }
  }

  /** The two ends do not get in each other's way. */
  lemma {:induction false} FrontBack(lead: string, inner: seq<string>, inner1: seq<string>, end: string,
                                     trail: string, cells1: seq<string>)
    requires |inner| >= 2 && |inner1| >= 2 && MaybeBar(end)
    requires Join(inner1, '|') == lead + ("" + Join(inner, '|'))
    requires cells1 == inner + if end == "|" then [trail] else []
    ensures Join(inner1 + (if end == "|" then [trail] else []), '|') == lead + ("" + Join(cells1, '|'))
  {
    if end == "|" {
      JoinLast(inner, trail);
      JoinLast(inner1, trail);
      Regroup(lead, Join(inner, '|'), "|" + trail);
      assert "" + Join(inner, '|') == Join(inner, '|') && "" + Join(cells1, '|') == Join(cells1, '|');
    } else {
      assert inner1 + [] == inner1 && cells1 == inner;
    }
  }

  lemma DelimiterExact(s: string)
    ensures IsTableDelimiter(s) <==> DelimiterLine(s)
  {
    if IsTableDelimiter(s) {
      DelimiterTaken(s);
    }
    if DelimiterLine(s) {
      var lead: string, bar: string, cells: seq<string>, end: string, trail: string :|
        DelimiterOf(s, lead, bar, cells, end, trail);
      DelimiterPut(s, lead, bar, cells, end, trail);
    }
  }
}
