/** Which lines form which block: the splitter as a function on lines, and the
    two facts its users rely on: the blocks cover the document, and a block cut
    out of the document is still exactly that block. */
module BlockScan {
  import opened Splitting
  import opened MarkdownLines

  datatype Kind = Frontmatter | Code | Table | List | Blockquote | Heading | ThematicBreak | Paragraph

  /** A block as a range of lines, both ends included. */
  datatype Span = Span(kind: Kind, first: nat, last: nat)

  /** The branches of the scanner, in order; two of them make headings. */
  datatype Shape = Fence | Grid | Items | Quote | Atx | Setext | Rule | Text

  function KindOf(s: Shape): Kind {
    match s
    case Fence => Code
    case Grid => Table
    case Items => List
    case Quote => Blockquote
    case Atx => Heading
    case Setext => Heading
    case Rule => ThematicBreak
    case Text => Paragraph
  }

  function ShapeAt(lines: seq<string>, i: nat): Shape
    requires i < |lines|
  {
    if IsFenceStart(lines[i]) then Fence
    else if IsTableStart(lines, i) then Grid
    else if IsListLine(lines[i]) then Items
    else if IsBlockquoteLine(lines[i]) then Quote
    else if IsAtxHeading(lines[i]) then Atx
    else if i + 1 < |lines| && IsSetextUnderline(lines[i + 1]) then Setext
    else if IsThematicBreak(lines[i]) then Rule
    else Text
  }

  /** Does the loop of a branch run over line `i`? */
  predicate Continues(s: Shape, lines: seq<string>, i: nat)
    requires i < |lines|
  {
    match s
    case Fence => !IsFenceStart(lines[i])
    case Grid => IsTableRow(lines[i])
    case Items => IsListContinuation(lines[i]) || IsBlank(lines[i])
    case Quote => IsBlockquoteLine(lines[i]) || IsBlank(lines[i])
    case Text => !IsBlank(lines[i]) && !StartsNewBlock(lines, i)
    case _ => false
  }

  /** The first line from `i` on that the loop does not run over. */
  function End(s: Shape, lines: seq<string>, i: nat): (e: nat)
    requires i <= |lines|
    ensures i <= e <= |lines|
    ensures forall j :: i <= j < e ==> Continues(s, lines, j)
    ensures e < |lines| ==> !Continues(s, lines, e)
    decreases |lines| - i
  {
    if i < |lines| && Continues(s, lines, i) then End(s, lines, i + 1) else i
  }

  function Trimmed(lines: seq<string>, first: nat, last: nat): (e: nat)
    requires first <= last < |lines|
    ensures first <= e <= last && (e == first || !IsBlank(lines[e]))
    ensures forall j :: e < j <= last ==> IsBlank(lines[j])
  {
    if first < last && IsBlank(lines[last]) then Trimmed(lines, first, last - 1) else last
  }

  /** How many lines the branch takes before its loop. */
  function Opening(s: Shape): nat {
    if s == Grid || s == Setext then 2 else 1
  }

  /** Where the scan goes on after the block that starts at line `i`. */
  function Next(lines: seq<string>, i: nat): (n: nat)
    requires i < |lines|
    ensures i < n <= |lines|
  {
    var s := ShapeAt(lines, i);
    var e := End(s, lines, i + Opening(s));
    if s == Fence && e < |lines| then e + 1 else e
  }

  function SpanAt(lines: seq<string>, i: nat): (b: Span)
    requires i < |lines|
    ensures b.first == i <= b.last < Next(lines, i)
  {
    var s, n := ShapeAt(lines, i), Next(lines, i);
    Span(KindOf(s), i, if s == Items || s == Quote then Trimmed(lines, i, n - 1) else n - 1)
  }

  function Scan(lines: seq<string>, i: nat): seq<Span>
    requires i <= |lines|
    decreases |lines| - i
  {
    if i == |lines| then []
    else if IsBlank(lines[i]) then Scan(lines, i + 1)
    else [SpanAt(lines, i)] + Scan(lines, Next(lines, i))
  }

  const FENCE := "---"

  /** The line that closes the frontmatter, or 0 when there is none. */
  function FrontmatterEnd(lines: seq<string>): (e: nat)
    requires |lines| > 0
    ensures e < |lines|
    ensures e > 0 ==> lines[0] == FENCE && lines[e] == FENCE && forall j :: 0 < j < e ==> lines[j] != FENCE
    ensures e == 0 ==> lines[0] != FENCE || forall j :: 0 < j < |lines| ==> lines[j] != FENCE
  {
    if lines[0] == FENCE then IndexFrom(lines, 1) else 0
  }

  function IndexFrom(lines: seq<string>, i: nat): (e: nat)
    requires 0 < i <= |lines|
    ensures e < |lines| && (e > 0 ==> i <= e && lines[e] == FENCE && forall j :: i <= j < e ==> lines[j] != FENCE)
    ensures e == 0 ==> forall j :: i <= j < |lines| ==> lines[j] != FENCE
    decreases |lines| - i
  {
    if i == |lines| then 0
    else if lines[i] == FENCE then i
    else IndexFrom(lines, i + 1)
  }

  function Spans(lines: seq<string>): seq<Span>
    requires |lines| > 0
  {
    var e := FrontmatterEnd(lines);
    if e > 0 then [Span(Frontmatter, 0, e)] + Scan(lines, e + 1) else Scan(lines, 0)
  }

  // ------------------------------------------------------------ the blocks cover the document

  predicate BlankBetween(lines: seq<string>, a: nat, b: nat)
    requires b <= |lines|
  {
    forall j :: a <= j < b ==> IsBlank(lines[j])
  }

  /** The spans are in order, do not overlap, and every line from `i` on that is
      in none of them is blank; each starts with a line that is not. */
  predicate Covers(spans: seq<Span>, lines: seq<string>, i: nat)
    requires i <= |lines|
    decreases |spans|
  {
    if spans == [] then BlankBetween(lines, i, |lines|)
    else
      var b := spans[0];
      && i <= b.first <= b.last < |lines|
      && BlankBetween(lines, i, b.first) && !IsBlank(lines[b.first])
      && Covers(spans[1..], lines, b.last + 1)
  }

  /** Blank lines before the rest may be counted with it. */
  lemma {:induction false} CoversEarlier(spans: seq<Span>, lines: seq<string>, i: nat, earlier: nat)
    requires earlier <= i <= |lines| && Covers(spans, lines, i) && BlankBetween(lines, earlier, i)
    ensures Covers(spans, lines, earlier)
  {
  }

  lemma {:induction false} ScanCovers(lines: seq<string>, i: nat)
    requires i <= |lines|
    ensures Covers(Scan(lines, i), lines, i)
    decreases |lines| - i
  {
    if i < |lines| {
      if IsBlank(lines[i]) {
        ScanCovers(lines, i + 1);
        CoversEarlier(Scan(lines, i + 1), lines, i + 1, i);
      } else {
        var b, n := SpanAt(lines, i), Next(lines, i);
        ScanCovers(lines, n);
        BlankAfter(lines, i);
        CoversEarlier(Scan(lines, n), lines, n, b.last + 1);
        CoversOneMore(b, Scan(lines, n), lines, i);
      }
    }
  }

  lemma BlankAfter(lines: seq<string>, i: nat)
    requires i < |lines|
    ensures BlankBetween(lines, SpanAt(lines, i).last + 1, Next(lines, i))
  {
  }

  lemma {:induction false} CoversOneMore(b: Span, rest: seq<Span>, lines: seq<string>, i: nat)
    requires i == b.first <= b.last < |lines| && !IsBlank(lines[i]) && Covers(rest, lines, b.last + 1)
    ensures Covers([b] + rest, lines, i)
  {
    assert ([b] + rest)[1..] == rest;
  }

  lemma FenceIsNotBlank()
    ensures !IsBlank(FENCE)
  {
    assert FENCE[0] == '-';
  }

  /** For every document the spans cover it. */
  lemma {:induction false} SpansCover(lines: seq<string>)
    requires |lines| > 0
    ensures Covers(Spans(lines), lines, 0)
  {
    var e := FrontmatterEnd(lines);
    if e > 0 {
      FenceIsNotBlank();
      ScanCovers(lines, e + 1);
      assert Spans(lines)[1..] == Scan(lines, e + 1);
    } else {
      ScanCovers(lines, 0);
    }
  }

  // ------------------------------------------------------------ a block is a block on its own

  /** The lines of a block. */
  function Cut(lines: seq<string>, b: Span): seq<string>
    requires b.first <= b.last < |lines|
  {
    lines[b.first..b.last + 1]
  }

  /** A look-ahead can only see less in the block alone. */
  lemma CutSeesLess(lines: seq<string>, b: Span, j: nat)
    requires b.first <= j <= b.last < |lines|
    ensures Cut(lines, b)[j - b.first] == lines[j]
    ensures IsTableStart(Cut(lines, b), j - b.first) ==> IsTableStart(lines, j)
    ensures j < b.last ==> (IsTableStart(Cut(lines, b), j - b.first) <==> IsTableStart(lines, j))
  {
    assert j < b.last ==> Cut(lines, b)[j - b.first + 1] == lines[j + 1];
  }

  /** A loop that ran over the lines of the block runs over all of them again. */
  lemma {:induction false} EndInCut(s: Shape, lines: seq<string>, b: Span, j: nat)
    requires b.first <= b.last < |lines| && b.first <= j <= b.last + 1
    requires forall k :: j <= k <= b.last ==> Continues(s, lines, k)
    ensures End(s, Cut(lines, b), j - b.first) == |Cut(lines, b)|
    decreases b.last + 1 - j
  {
    if j <= b.last {
      CutSeesLess(lines, b, j);
      assert Continues(s, lines, j);
      assert Continues(s, Cut(lines, b), j - b.first);
      EndInCut(s, lines, b, j + 1);
    }
  }

  /** The first line of the block takes the same branch again. */
  lemma ShapeInCut(lines: seq<string>, i: nat)
    requires i < |lines|
    ensures ShapeAt(Cut(lines, SpanAt(lines, i)), 0) == ShapeAt(lines, i)
  {
    var b := SpanAt(lines, i);
    CutSeesLess(lines, b, i);
    if b.last > i {
      assert Cut(lines, b)[1] == lines[i + 1];
    }
  }

  /** The scan of the block's own lines is that one block. */
  lemma ScanOfCut(lines: seq<string>, i: nat)
    requires i < |lines| && !IsBlank(lines[i])
    ensures var b := SpanAt(lines, i); var sub := Cut(lines, b);
      Scan(sub, 0) == [Span(b.kind, 0, |sub| - 1)]
  {
    var b, s, n := SpanAt(lines, i), ShapeAt(lines, i), Next(lines, i);
    var sub := Cut(lines, b);
    ShapeInCut(lines, i);
    assert sub[0] == lines[i];
    NextOfCut(lines, i);
    LastOfCut(lines, i);
    assert Scan(sub, |sub|) == [];
  }

  lemma NextOfCut(lines: seq<string>, i: nat)
    requires i < |lines|
    ensures var sub := Cut(lines, SpanAt(lines, i)); Next(sub, 0) == |sub|
  {
    ShapeInCut(lines, i);
    LoopInCut(lines, i);
  }

  lemma LastOfCut(lines: seq<string>, i: nat)
    requires i < |lines|
    ensures var sub := Cut(lines, SpanAt(lines, i)); SpanAt(sub, 0).last == |sub| - 1
  {
    var b := SpanAt(lines, i);
    var sub := Cut(lines, b);
    ShapeInCut(lines, i);
    NextOfCut(lines, i);
    assert sub[|sub| - 1] == lines[b.last];
  }

  lemma {:induction false} LoopInCut(lines: seq<string>, i: nat)
    requires i < |lines|
    ensures var s, b := ShapeAt(lines, i), SpanAt(lines, i); var sub := Cut(lines, b);
      && Opening(s) <= |sub|
      && End(s, sub, Opening(s)) ==
           if s == Fence && End(s, lines, i + 1) < |lines| then |sub| - 1 else |sub|
  {
    var s, b := ShapeAt(lines, i), SpanAt(lines, i);
    var e := End(s, lines, i + Opening(s));
    if s == Fence && e < |lines| {
      assert !Continues(s, lines, e) && b.last == e;
      forall k | i + 1 <= k < e ensures !IsFenceStart(lines[k]) {
        assert Continues(s, lines, k);
      }
      EndBeforeFence(lines, b, i + 1);
    } else {
      EndInCut(s, lines, b, i + Opening(s));
    }
  }

  /** A closed code block: the loop stops again at the closing fence. */
  lemma {:induction false} EndBeforeFence(lines: seq<string>, b: Span, j: nat)
    requires b.first < j <= b.last < |lines| && IsFenceStart(lines[b.last])
    requires forall k :: j <= k < b.last ==> !IsFenceStart(lines[k])
    ensures End(Fence, Cut(lines, b), j - b.first) == b.last - b.first
    decreases b.last - j
  {
    assert Cut(lines, b)[j - b.first] == lines[j];
    if j < b.last {
      EndBeforeFence(lines, b, j + 1);
    }
  }

  /** A line of three dashes heads a setext heading or is a thematic break. */
  lemma DashesShape(lines: seq<string>, i: nat)
    requires i < |lines| && lines[i] == FENCE
    ensures ShapeAt(lines, i) == Setext || ShapeAt(lines, i) == Rule
  {
    var s := lines[i];
    assert s[0] == '-' && s[1] == '-' && s[2] == '-';
    assert Lead(s) == 0 && Indented(s) == s;
    assert Occurrences(s[2..], '-') == 1 && s[1..][1..] == s[2..];
    assert Occurrences(s[1..], '-') == 2;
    assert IsRuleOf(s, '-');
    assert !StartsWith(s, "```") && !StartsWith(s, "~~~") && !StartsWith(s, ">");
  }

  /** Every block of the scan is what the scanner makes of its first line. */
  lemma {:induction false} ScanMember(lines: seq<string>, i: nat, k: nat)
    requires i <= |lines| && k < |Scan(lines, i)|
    ensures var b := Scan(lines, i)[k];
      b.first < |lines| && !IsBlank(lines[b.first]) && b == SpanAt(lines, b.first)
    decreases |lines| - i
  {
    if IsBlank(lines[i]) {
      ScanMember(lines, i + 1, k);
    } else if k > 0 {
      ScanMember(lines, Next(lines, i), k - 1);
    }
  }

  /** The two-line heading that reads as frontmatter when it stands alone. */
  predicate ReadsAsFrontmatter(b: Span, lines: seq<string>)
    requires b.first <= b.last < |lines|
  {
    b.kind == Heading && Cut(lines, b) == [FENCE, FENCE]
  }

  /** Alone, a scanned block has frontmatter only in that one case. */
  lemma FrontmatterOfCut(lines: seq<string>, i: nat)
    requires i < |lines|
    ensures var b := SpanAt(lines, i); var sub := Cut(lines, b);
      FrontmatterEnd(sub) == if ReadsAsFrontmatter(b, lines) then 1 else 0
  {
    var b := SpanAt(lines, i);
    var sub := Cut(lines, b);
    assert sub[0] == lines[i];
    if sub[0] == FENCE {
      DashesShape(lines, i);
      if ShapeAt(lines, i) == Setext {
        assert |sub| == 2 && sub == [sub[0], sub[1]];
      } else {
        assert |sub| == 1;
      }
    } else {
      assert sub != [FENCE, FENCE];
    }
  }

  lemma ResplitScanned(lines: seq<string>, i: nat)
    requires i < |lines| && !IsBlank(lines[i])
    ensures var b := SpanAt(lines, i); var sub := Cut(lines, b);
      Spans(sub) == [Span(if ReadsAsFrontmatter(b, lines) then Frontmatter else b.kind, 0, |sub| - 1)]
  {
    ScanOfCut(lines, i);
    FrontmatterOfCut(lines, i);
    var sub := Cut(lines, SpanAt(lines, i));
    if |sub| == 2 {
      assert Scan(sub, 2) == [];
    }
  }

  lemma ResplitFrontmatter(lines: seq<string>)
    requires |lines| > 0 && FrontmatterEnd(lines) > 0
    ensures var e := FrontmatterEnd(lines);
      Spans(Cut(lines, Span(Frontmatter, 0, e))) == [Span(Frontmatter, 0, e)]
  {
    var e := FrontmatterEnd(lines);
    var sub := Cut(lines, Span(Frontmatter, 0, e));
    assert forall j :: 0 <= j <= e ==> sub[j] == lines[j];
    assert FrontmatterEnd(sub) == e;
    assert Scan(sub, e + 1) == [];
  }

  /** Every block is the frontmatter or what the scanner makes of its first line. */
  predicate IsBlockOf(b: Span, lines: seq<string>)
    requires |lines| > 0
  {
    (FrontmatterEnd(lines) > 0 && b == Span(Frontmatter, 0, FrontmatterEnd(lines)))
    || (b.first < |lines| && !IsBlank(lines[b.first]) && b == SpanAt(lines, b.first))
  }

  lemma SpansMember(lines: seq<string>, k: nat)
    requires |lines| > 0 && k < |Spans(lines)|
    ensures IsBlockOf(Spans(lines)[k], lines)
  {
    var e := FrontmatterEnd(lines);
    if e == 0 {
      ScanMember(lines, 0, k);
    } else if k > 0 {
      ScanMember(lines, e + 1, k - 1);
    }
  }

  /** Cut out and split again, the block is one block of the same kind spanning
      all of its text; two lines of three dashes become frontmatter. */
  predicate SplitsAlone(lines: seq<string>, b: Span) {
    && b.first <= b.last < |lines|
    && Spans(Cut(lines, b)) ==
         [Span(if ReadsAsFrontmatter(b, lines) then Frontmatter else b.kind, 0, b.last - b.first)]
  }

  lemma ResplitBlock(lines: seq<string>, b: Span)
    requires |lines| > 0 && IsBlockOf(b, lines)
    ensures SplitsAlone(lines, b)
  {
    if b == Span(Frontmatter, 0, FrontmatterEnd(lines)) {
      ResplitFrontmatter(lines);
    } else {
      ResplitScanned(lines, b.first);
    }
  }

  /** Re-splitting is local, for every document and every block. */
  lemma Resplit(lines: seq<string>, k: nat)
    requires |lines| > 0 && k < |Spans(lines)|
    ensures SplitsAlone(lines, Spans(lines)[k])
  {
    SpansMember(lines, k);
    ResplitBlock(lines, Spans(lines)[k]);
  }

  lemma DashesUnderline()
    ensures IsSetextUnderline(FENCE)
  {
    var s := FENCE;
    assert s[0] == '-' && s[1] == '-' && s[2] == '-';
    assert Lead(s) == 0 && Indented(s) == s;
    assert s[1..][1..] == s[2..] && Run(s[2..], '-') == 1;
    assert Run(s[1..], '-') == 2;
  }

  lemma DashesPair(lines: seq<string>, i: nat)
    requires i + 2 == |lines| && lines[i] == lines[i + 1] == FENCE
    ensures Scan(lines, i) == [Span(Heading, i, i + 1)]
  {
    FenceIsNotBlank();
    DashesUnderline();
    DashesShape(lines, i);
    assert ShapeAt(lines, i) == Setext;
    assert Scan(lines, i + 2) == [];
  }

  /** ... and the exception is real: a blank line and two lines of dashes. */
  lemma ResplitException()
    ensures var lines := ["", FENCE, FENCE];
      Spans(lines) == [Span(Heading, 1, 2)] && ReadsAsFrontmatter(Span(Heading, 1, 2), lines)
  {
    var lines := ["", FENCE, FENCE];
    DashesPair(lines, 1);
    assert IsBlank(lines[0]) && lines[0] != FENCE;
    assert lines[1..3] == [FENCE, FENCE];
  }
}
