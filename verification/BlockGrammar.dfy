/** The splitter against a description of its result: which line starts which kind
    of block, and how far each kind goes.  Lines are described by their pieces, so
    nothing here rests on the line predicates of the program. */
module BlockGrammar {
  import opened Splitting
  import opened MarkdownLines
  import opened LineShapes
  import opened TableShapes
  import opened BlockScan

  ghost predicate TableHead(lines: seq<string>, i: nat)
    requires i < |lines|
  {
    i + 1 < |lines| && RowLine(lines[i]) && DelimiterLine(lines[i + 1])
  }

  /** The kind of the block that starts at a line: the first that fits. */
  ghost function KindAt(lines: seq<string>, i: nat): Kind
    requires i < |lines|
  {
    if FenceLine(lines[i]) then Code
    else if TableHead(lines, i) then Table
    else if ItemLine(lines[i]) then List
    else if QuoteLine(lines[i]) then Blockquote
    else if AtxLine(lines[i]) || (i + 1 < |lines| && UnderlineLine(lines[i + 1])) then Heading
    else if RuleLine(lines[i]) then ThematicBreak
    else Paragraph
  }

  /** The line ends a paragraph. */
  ghost predicate Interrupts(lines: seq<string>, i: nat)
    requires i < |lines|
  {
    || Whites(lines[i]) || FenceLine(lines[i]) || TableHead(lines, i) || ItemLine(lines[i]) || QuoteLine(lines[i])
    || AtxLine(lines[i]) || RuleLine(lines[i])
  }

  /** All lines from `i` up to `j` are white space. */
  predicate WhiteLines(lines: seq<string>, i: nat, j: nat)
    requires j <= |lines|
  {
    forall k :: i <= k < j ==> Whites(lines[k])
  }

  /** A code block goes to the next fence, or to the end. */
  ghost predicate CodeGoes(lines: seq<string>, i: nat, j: nat)
    requires i <= j < |lines|
  {
    (forall k :: i < k < j ==> !FenceLine(lines[k])) && (j == |lines| - 1 || (i < j && FenceLine(lines[j])))
  }

  /** A table has a head of two lines and all rows after it. */
  ghost predicate TableGoes(lines: seq<string>, i: nat, j: nat)
    requires i <= j < |lines|
  {
    i < j && (forall k :: i + 1 < k <= j ==> RowLine(lines[k])) && (j + 1 < |lines| ==> !RowLine(lines[j + 1]))
  }

  /** The lines that a quote or a list goes on over, besides white ones. */
  ghost predicate GoesOn(line: string, quotes: bool) {
    if quotes then QuoteLine(line) else ContinuationLine(line)
  }

  /** A list goes on over continuations and white lines, a quote over quote lines and
      white lines, and both end with a line that is not white before the first other line. */
  ghost predicate LooseGoes(lines: seq<string>, i: nat, j: nat, quotes: bool)
    requires i <= j < |lines|
  {
    && (forall k :: i < k <= j ==> GoesOn(lines[k], quotes) || Whites(lines[k]))
    && (i < j ==> !Whites(lines[j]))
    && forall k :: j < k < |lines| && WhiteLines(lines, j + 1, k) ==> !GoesOn(lines[k], quotes)
  }

  /** A paragraph goes up to the first line that interrupts it. */
  ghost predicate ParagraphGoes(lines: seq<string>, i: nat, j: nat)
    requires i <= j < |lines|
  {
    (forall k :: i < k <= j ==> !Interrupts(lines, k)) && (j + 1 < |lines| ==> Interrupts(lines, j + 1))
  }

  /** How far the block goes that starts at line `i`. */
  ghost predicate Goes(lines: seq<string>, i: nat, j: nat)
    requires i <= j < |lines|
  {
    match KindAt(lines, i)
    case Code => CodeGoes(lines, i, j)
    case Table => TableGoes(lines, i, j)
    case List => LooseGoes(lines, i, j, false)
    case Blockquote => LooseGoes(lines, i, j, true)
    case Heading => j == if AtxLine(lines[i]) then i else i + 1
    case ThematicBreak => j == i
    case _ => ParagraphGoes(lines, i, j)
  }

  /** The blocks of the lines from `i` on: each starts at the first line that is not
      white after the one before, and has the kind and the length described. */
  ghost predicate Described(spans: seq<Span>, lines: seq<string>, i: nat)
    requires i <= |lines|
    decreases |spans|
  {
    if spans == [] then WhiteLines(lines, i, |lines|)
    else
      var b := spans[0];
      && i <= b.first <= b.last < |lines|
      && WhiteLines(lines, i, b.first) && !Whites(lines[b.first])
      && b.kind == KindAt(lines, b.first) && Goes(lines, b.first, b.last)
      && Described(spans[1..], lines, b.last + 1)
  }

  /** Frontmatter is a line of three dashes that begins the text, up to the next one. */
  predicate HasFrontmatter(lines: seq<string>, e: nat) {
    0 < e < |lines| && lines[0] == "---" && lines[e] == "---" && forall k :: 0 < k < e ==> lines[k] != "---"
  }

  ghost predicate DescribedWhole(spans: seq<Span>, lines: seq<string>) {
    if exists e: nat :: HasFrontmatter(lines, e) then
      && spans != [] && spans[0].kind == Frontmatter && spans[0].first == 0 && HasFrontmatter(lines, spans[0].last)
      && Described(spans[1..], lines, spans[0].last + 1)
    else Described(spans, lines, 0)
  }

  // ------------------------------------------------------------ the program's predicates agree

  lemma StartsAgree(lines: seq<string>, i: nat)
    requires i < |lines|
    ensures IsTableStart(lines, i) <==> TableHead(lines, i)
    ensures IsBlank(lines[i]) || StartsNewBlock(lines, i) <==> Interrupts(lines, i)
  {
    BlankExact(lines[i]);
    FenceExact(lines[i]);
    ItemExact(lines[i]);
    QuoteExact(lines[i]);
    AtxExact(lines[i]);
    RuleExact(lines[i]);
    RowExact(lines[i]);
    if i + 1 < |lines| {
      DelimiterExact(lines[i + 1]);
    }
  }

  lemma KindAgrees(lines: seq<string>, i: nat)
    requires i < |lines|
    ensures KindOf(ShapeAt(lines, i)) == KindAt(lines, i)
    ensures KindAt(lines, i) == Heading ==> (ShapeAt(lines, i) == Atx <==> AtxLine(lines[i]))
  {
    StartsAgree(lines, i);
    FenceExact(lines[i]);
    ItemExact(lines[i]);
    QuoteExact(lines[i]);
    AtxExact(lines[i]);
    RuleExact(lines[i]);
    if i + 1 < |lines| {
      UnderlineExact(lines[i + 1]);
    }
  }

  /** The loop of each branch goes on exactly over the lines described. */
  lemma ContinuesAgrees(s: Shape, lines: seq<string>, i: nat)
    requires i < |lines|
    ensures Continues(s, lines, i) <==>
      match s
      case Fence => !FenceLine(lines[i])
      case Grid => RowLine(lines[i])
      case Items => ContinuationLine(lines[i]) || Whites(lines[i])
      case Quote => QuoteLine(lines[i]) || Whites(lines[i])
      case Text => !Interrupts(lines, i)
      case _ => false
  {
    BlankExact(lines[i]);
    match s
    case Fence => FenceExact(lines[i]);
    case Grid => RowExact(lines[i]);
    case Items => ContinuationExact(lines[i]);
    case Quote => QuoteExact(lines[i]);
    case Text => StartsAgree(lines, i);
    case _ =>
  }

  /** The loop ends at the first line from `i` on that it does not go on over. */
  lemma {:induction false} EndIs(s: Shape, lines: seq<string>, i: nat, e: nat)
    requires i <= e <= |lines| && (forall k :: i <= k < e ==> Continues(s, lines, k))
    requires e < |lines| ==> !Continues(s, lines, e)
    ensures End(s, lines, i) == e
    decreases e - i
  {
    if i < e {
      EndIs(s, lines, i + 1, e);
    }
  }

  // ------------------------------------------------------------ the scanner's blocks go as described

  /** What the end of a loop means for the lines. */
  lemma {:induction false} EndMeans(s: Shape, lines: seq<string>, i: nat)
    requires i <= |lines|
    ensures var e := End(s, lines, i);
      && (forall k :: i <= k < e ==> Continues(s, lines, k)) && (e < |lines| ==> !Continues(s, lines, e))
  {
  }

  lemma {:induction false} CodeEnds(lines: seq<string>, i: nat, j: nat)
    requires i <= j < |lines| && CodeGoes(lines, i, j)
    ensures End(Fence, lines, i + 1) == if i < j && FenceLine(lines[j]) then j else |lines|
  {
    var e := if i < j && FenceLine(lines[j]) then j else |lines|;
    forall k | i < k < e ensures Continues(Fence, lines, k) {
      ContinuesAgrees(Fence, lines, k);
    }
    if e < |lines| {
      ContinuesAgrees(Fence, lines, e);
    }
    EndIs(Fence, lines, i + 1, e);
  }

  lemma CodeGone(lines: seq<string>, i: nat, e: nat)
    requires i < e <= |lines| && e == End(Fence, lines, i + 1)
    ensures CodeGoes(lines, i, if e < |lines| then e else e - 1)
  {
    EndMeans(Fence, lines, i + 1);
    forall k | i < k < e ensures !FenceLine(lines[k]) {
      ContinuesAgrees(Fence, lines, k);
    }
    if e < |lines| {
      ContinuesAgrees(Fence, lines, e);
    }
  }

  lemma {:induction false} FenceLast(lines: seq<string>, i: nat)
    requires i < |lines| && ShapeAt(lines, i) == Fence
    ensures var e := End(Fence, lines, i + 1); SpanAt(lines, i).last == if e < |lines| then e else e - 1
  {
  }

  lemma CodeExact(lines: seq<string>, i: nat, j: nat)
    requires i <= j < |lines| && ShapeAt(lines, i) == Fence
    ensures CodeGoes(lines, i, j) <==> SpanAt(lines, i).last == j
  {
    FenceLast(lines, i);
    CodeGone(lines, i, End(Fence, lines, i + 1));
    if CodeGoes(lines, i, j) {
      CodeEnds(lines, i, j);
    }
  }

  lemma {:induction false} TableEnds(lines: seq<string>, i: nat, j: nat)
    requires i <= j < |lines| && TableGoes(lines, i, j)
    ensures End(Grid, lines, i + 2) == j + 1
  {
    forall k | i + 1 < k <= j ensures Continues(Grid, lines, k) {
      ContinuesAgrees(Grid, lines, k);
    }
    if j + 1 < |lines| {
      ContinuesAgrees(Grid, lines, j + 1);
    }
    EndIs(Grid, lines, i + 2, j + 1);
  }

  lemma TableGone(lines: seq<string>, i: nat)
    requires i + 1 < |lines|
    ensures TableGoes(lines, i, End(Grid, lines, i + 2) - 1)
  {
    var e := End(Grid, lines, i + 2);
    EndMeans(Grid, lines, i + 2);
    forall k | i + 1 < k < e ensures RowLine(lines[k]) {
      ContinuesAgrees(Grid, lines, k);
    }
    if e < |lines| {
      ContinuesAgrees(Grid, lines, e);
    }
  }

  lemma TableExact(lines: seq<string>, i: nat, j: nat)
    requires i <= j < |lines| && ShapeAt(lines, i) == Grid
    ensures TableGoes(lines, i, j) <==> SpanAt(lines, i).last == j
  {
    TableGone(lines, i);
    if TableGoes(lines, i, j) {
      TableEnds(lines, i, j);
    }
  }

  lemma {:induction false} ParagraphEnds(lines: seq<string>, i: nat, j: nat)
    requires i <= j < |lines| && ParagraphGoes(lines, i, j)
    ensures End(Text, lines, i + 1) == j + 1
  {
    forall k | i < k <= j ensures Continues(Text, lines, k) {
      ContinuesAgrees(Text, lines, k);
    }
    if j + 1 < |lines| {
      ContinuesAgrees(Text, lines, j + 1);
    }
    EndIs(Text, lines, i + 1, j + 1);
  }

  lemma ParagraphGone(lines: seq<string>, i: nat)
    requires i < |lines|
    ensures ParagraphGoes(lines, i, End(Text, lines, i + 1) - 1)
  {
    var e := End(Text, lines, i + 1);
    EndMeans(Text, lines, i + 1);
    forall k | i < k < e ensures !Interrupts(lines, k) {
      ContinuesAgrees(Text, lines, k);
    }
    if e < |lines| {
      ContinuesAgrees(Text, lines, e);
    }
  }

  lemma ParagraphExact(lines: seq<string>, i: nat, j: nat)
    requires i <= j < |lines| && ShapeAt(lines, i) == Text
    ensures ParagraphGoes(lines, i, j) <==> SpanAt(lines, i).last == j
  {
    ParagraphGone(lines, i);
    if ParagraphGoes(lines, i, j) {
      ParagraphEnds(lines, i, j);
    }
  }

  /** The first line from `i` on that is not white. */
  function FirstText(lines: seq<string>, i: nat): (e: nat)
    requires i <= |lines|
    ensures i <= e <= |lines| && WhiteLines(lines, i, e) && (e < |lines| ==> !Whites(lines[e]))
    decreases |lines| - i
  {
    if i < |lines| && Whites(lines[i]) then FirstText(lines, i + 1) else i
  }

  /** A continuation is never white. */
  lemma ContinuationIsText(s: string)
    requires ContinuationLine(s)
    ensures !Whites(s)
  {
    ContinuationExact(s);
    if IsListLine(s) {
      ItemExact(s);
      var lead: string, mark: string, rest: string :|
        Opens(s, lead, mark, rest) && IsMarker(mark) && rest != "" && White(rest[0]);
      assert s[|lead|] == mark[0];
    } else {
      SpaceIsWhite(s[Lead(s)]);
    }
  }

  lemma QuoteIsText(s: string)
    requires QuoteLine(s)
    ensures !Whites(s)
  {
    var lead: string, rest: string :| Opens(s, lead, ">", rest);
    assert s[|lead|] == '>';
  }

  function LooseShape(quotes: bool): Shape {
    if quotes then Shape.Quote else Items
  }

  lemma LooseAgrees(lines: seq<string>, k: nat, quotes: bool)
    requires k < |lines|
    ensures Continues(LooseShape(quotes), lines, k) <==> GoesOn(lines[k], quotes) || Whites(lines[k])
    ensures GoesOn(lines[k], quotes) ==> !Whites(lines[k])
  {
    ContinuesAgrees(LooseShape(quotes), lines, k);
    if GoesOn(lines[k], quotes) {
      if quotes {
        QuoteIsText(lines[k]);
      } else {
        ContinuationIsText(lines[k]);
      }
    }
  }

  /** The loop that starts at `i` ends at `e`. */
  ghost predicate LoopEnd(lines: seq<string>, i: nat, e: nat, quotes: bool) {
    && i <= e <= |lines|
    && (forall k :: i <= k < e ==> GoesOn(lines[k], quotes) || Whites(lines[k]))
    && (e < |lines| ==> !GoesOn(lines[e], quotes) && !Whites(lines[e]))
  }

  lemma {:induction false} LoopEnds(lines: seq<string>, i: nat, quotes: bool)
    requires i <= |lines|
    ensures LoopEnd(lines, i, End(LooseShape(quotes), lines, i), quotes)
  {
    var e := End(LooseShape(quotes), lines, i);
    EndMeans(LooseShape(quotes), lines, i);
    forall k | i <= k < e ensures GoesOn(lines[k], quotes) || Whites(lines[k]) {
      LooseAgrees(lines, k, quotes);
    }
    if e < |lines| {
      LooseAgrees(lines, e, quotes);
    }
  }

  /** Trimming gives back exactly the white lines at the end. */
  lemma {:induction false} TrimmedIs(lines: seq<string>, i: nat, last: nat, j: nat)
    requires i <= j <= last < |lines| && (i < j ==> !Whites(lines[j])) && WhiteLines(lines, j + 1, last + 1)
    ensures Trimmed(lines, i, last) == j
  {
    var t := Trimmed(lines, i, last);
    BlankExact(lines[j]);
    BlankExact(lines[t]);
    AmongWhite(lines, j + 1, last + 1, t);
  }

  lemma AmongWhite(lines: seq<string>, a: nat, b: nat, t: nat)
    requires t < |lines| && b <= |lines|
    ensures a <= t < b && WhiteLines(lines, a, b) ==> Whites(lines[t])
  {
  }

  lemma {:induction false} TrimmedMeans(lines: seq<string>, i: nat, last: nat)
    requires i <= last < |lines|
    ensures var t := Trimmed(lines, i, last);
      (i < t ==> !Whites(lines[t])) && WhiteLines(lines, t + 1, last + 1)
  {
    var t := Trimmed(lines, i, last);
    BlankExact(lines[t]);
    forall k | t < k <= last ensures Whites(lines[k]) {
      BlankExact(lines[k]);
    }
  }

  lemma LooseAt(lines: seq<string>, i: nat, j: nat, k: nat, quotes: bool)
    requires i <= j < |lines| && k < |lines|
    ensures LooseGoes(lines, i, j, quotes) && i < k <= j ==> GoesOn(lines[k], quotes) || Whites(lines[k])
  {
  }

  lemma LooseEnds(lines: seq<string>, i: nat, e: nat, j: nat, quotes: bool)
    requires i <= j < |lines| && i < e && LoopEnd(lines, i + 1, e, quotes) && LooseGoes(lines, i, j, quotes)
    ensures j < e && WhiteLines(lines, j + 1, e)
  {
    if e < |lines| {
      LooseAt(lines, i, j, e, quotes);
    }
    var k := FirstText(lines, j + 1);
    if k < |lines| {
      assert !GoesOn(lines[k], quotes) && !Whites(lines[k]);
    }
  }

  lemma LooseGone(lines: seq<string>, i: nat, e: nat, j: nat, quotes: bool)
    requires i <= j < e && LoopEnd(lines, i + 1, e, quotes)
    requires (i < j ==> !Whites(lines[j])) && WhiteLines(lines, j + 1, e)
    requires forall k :: 0 <= k < |lines| && GoesOn(lines[k], quotes) ==> !Whites(lines[k])
    ensures LooseGoes(lines, i, j, quotes)
  {
    forall k | j < k < |lines| && WhiteLines(lines, j + 1, k) ensures !GoesOn(lines[k], quotes) {
      AmongWhite(lines, j + 1, e, k);
      if e < |lines| {
        AmongWhite(lines, j + 1, k, e);
      }
    }
  }

  lemma LooseExact(lines: seq<string>, i: nat, j: nat, quotes: bool)
    requires i <= j < |lines| && ShapeAt(lines, i) == LooseShape(quotes)
    ensures LooseGoes(lines, i, j, quotes) <==> SpanAt(lines, i).last == j
  {
    var e := End(LooseShape(quotes), lines, i + 1);
    LoopEnds(lines, i + 1, quotes);
    LooseIsTrimmed(lines, i, e, j, quotes);
  }

  lemma TrimmedIsLoose(lines: seq<string>, i: nat, e: nat, j: nat, quotes: bool)
    requires i <= j < |lines| && i < e && LoopEnd(lines, i + 1, e, quotes) && Trimmed(lines, i, e - 1) == j
    ensures LooseGoes(lines, i, j, quotes)
  {
    TrimmedMeans(lines, i, e - 1);
    forall k | 0 <= k < |lines| && GoesOn(lines[k], quotes) ensures !Whites(lines[k]) {
      LooseAgrees(lines, k, quotes);
    }
    LooseGone(lines, i, e, j, quotes);
  }

  lemma LooseIsTrimmed(lines: seq<string>, i: nat, e: nat, j: nat, quotes: bool)
    requires i <= j < |lines| && i < e && LoopEnd(lines, i + 1, e, quotes)
    ensures LooseGoes(lines, i, j, quotes) <==> Trimmed(lines, i, e - 1) == j
  {
    if LooseGoes(lines, i, j, quotes) {
      LooseEnds(lines, i, e, j, quotes);
      TrimmedIs(lines, i, e - 1, j);
    }
    if Trimmed(lines, i, e - 1) == j {
      TrimmedIsLoose(lines, i, e, j, quotes);
    }
  }

  lemma GoesExact(lines: seq<string>, i: nat, j: nat)
    requires i <= j < |lines|
    ensures Goes(lines, i, j) <==> SpanAt(lines, i).last == j
  {
    KindAgrees(lines, i);
    match ShapeAt(lines, i)
    case Fence => CodeExact(lines, i, j);
    case Grid => TableExact(lines, i, j);
    case Items => LooseExact(lines, i, j, false);
    case Quote => LooseExact(lines, i, j, true);
    case Text => ParagraphExact(lines, i, j);
    case _ =>
  }

  // ------------------------------------------------------------ the whole document

  lemma SpanGoes(lines: seq<string>, b: Span)
    requires b.first < |lines| && b == SpanAt(lines, b.first)
    ensures b.first <= b.last < |lines| && b.kind == KindAt(lines, b.first) && Goes(lines, b.first, b.last)
  {
    KindAgrees(lines, b.first);
    GoesExact(lines, b.first, b.last);
  }

  /** White lines before the rest may be counted with it. */
  lemma {:induction false} DescribedEarlier(spans: seq<Span>, lines: seq<string>, i: nat, earlier: nat)
    requires earlier <= i <= |lines| && Described(spans, lines, i) && WhiteLines(lines, earlier, i)
    ensures Described(spans, lines, earlier)
  {
  }

  lemma BlankIsWhite(lines: seq<string>, a: nat, b: nat)
    requires b <= |lines| && BlankBetween(lines, a, b)
    ensures WhiteLines(lines, a, b)
  {
    forall k | a <= k < b ensures Whites(lines[k]) {
      BlankExact(lines[k]);
    }
  }

  lemma {:induction false} OneMore(lines: seq<string>, b: Span, n: nat, rest: seq<Span>)
    requires b.first < |lines| && !Whites(lines[b.first]) && b == SpanAt(lines, b.first) && n == Next(lines, b.first)
    requires Described(rest, lines, n)
    ensures Described([b] + rest, lines, b.first)
  {
    SpanGoes(lines, b);
    BlankAfter(lines, b.first);
    BlankIsWhite(lines, b.last + 1, n);
    DescribedEarlier(rest, lines, n, b.last + 1);
    assert ([b] + rest)[1..] == rest;
  }

  lemma {:induction false} ScanIsDescribed(lines: seq<string>, i: nat)
    requires i <= |lines|
    ensures Described(Scan(lines, i), lines, i)
    decreases |lines| - i
  {
    if i < |lines| {
      BlankExact(lines[i]);
      if IsBlank(lines[i]) {
        ScanIsDescribed(lines, i + 1);
        DescribedEarlier(Scan(lines, i + 1), lines, i + 1, i);
      } else {
        ScanIsDescribed(lines, Next(lines, i));
        OneMore(lines, SpanAt(lines, i), Next(lines, i), Scan(lines, Next(lines, i)));
      }
    }
  }

  /** The first line that is not white is one. */
  lemma {:induction false} FirstTextIs(lines: seq<string>, i: nat, a: nat)
    requires i <= a < |lines| && WhiteLines(lines, i, a) && !Whites(lines[a])
    ensures FirstText(lines, i) == a
  {
    AmongWhite(lines, i, FirstText(lines, i), a);
    if FirstText(lines, i) < |lines| {
      AmongWhite(lines, i, a, FirstText(lines, i));
    }
  }

  lemma {:induction false} FirstTextNone(lines: seq<string>, i: nat)
    requires i <= |lines| && WhiteLines(lines, i, |lines|)
    ensures FirstText(lines, i) == |lines|
    decreases |lines| - i
  {
    if i < |lines| {
      FirstTextNone(lines, i + 1);
    }
  }

  lemma {:induction false} FirstDescribed(spans: seq<Span>, lines: seq<string>, i: nat)
    requires i <= |lines| && Described(spans, lines, i)
    ensures if spans == [] then FirstText(lines, i) == |lines|
            else spans[0].first == FirstText(lines, i) < |lines| && spans[0] == SpanAt(lines, spans[0].first)
  {
    if spans == [] {
      FirstTextNone(lines, i);
    } else {
      FirstTextIs(lines, i, spans[0].first);
      KindAgrees(lines, spans[0].first);
      GoesExact(lines, spans[0].first, spans[0].last);
    }
  }

  /** The description leaves no choice. */
  lemma {:induction false} DescribedOnce(a: seq<Span>, b: seq<Span>, lines: seq<string>, i: nat)
    requires i <= |lines| && Described(a, lines, i) && Described(b, lines, i)
    ensures a == b
    decreases |a|
  {
    FirstDescribed(a, lines, i);
    FirstDescribed(b, lines, i);
    if a != [] {
      DescribedOnce(a[1..], b[1..], lines, a[0].last + 1);
      assert a == [a[0]] + a[1..] && b == [b[0]] + b[1..];
    }
  }

  lemma FrontmatterExact(lines: seq<string>)
    requires |lines| > 0
    ensures FrontmatterEnd(lines) > 0 ==> HasFrontmatter(lines, FrontmatterEnd(lines))
    ensures forall e: nat :: HasFrontmatter(lines, e) ==> FrontmatterEnd(lines) == e
  {
  }

  lemma SpansAreDescribed(lines: seq<string>)
    requires |lines| > 0
    ensures DescribedWhole(Spans(lines), lines)
  {
    var e := FrontmatterEnd(lines);
    FrontmatterExact(lines);
    if e > 0 {
      assert HasFrontmatter(lines, e);
      ScanIsDescribed(lines, e + 1);
      assert Spans(lines)[1..] == Scan(lines, e + 1);
    } else {
      ScanIsDescribed(lines, 0);
    }
  }

  lemma DescribedWholeOnce(a: seq<Span>, b: seq<Span>, lines: seq<string>)
    requires DescribedWhole(a, lines) && DescribedWhole(b, lines)
    ensures a == b
  {
    if exists e: nat :: HasFrontmatter(lines, e) {
      DescribedOnce(a[1..], b[1..], lines, a[0].last + 1);
      assert a == [a[0]] + a[1..] && b == [b[0]] + b[1..];
    } else {
      DescribedOnce(a, b, lines, 0);
    }
  }

  /** The splitter's result is the one result that fits the description: for every
      document and every list of blocks. */
  lemma SplitExact(spans: seq<Span>, lines: seq<string>)
    requires |lines| > 0
    ensures DescribedWhole(spans, lines) <==> spans == Spans(lines)
  {
    SpansAreDescribed(lines);
    if DescribedWhole(spans, lines) {
      DescribedWholeOnce(spans, Spans(lines), lines);
    }
  }
}
