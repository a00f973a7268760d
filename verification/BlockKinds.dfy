/** Which text makes which kind of block, on the text itself. */
module BlockKinds {
  import opened Splitting
  import opened MarkdownLines
  import opened LineShapes
  import opened TableShapes
  import opened BlockScan
  import opened BlockSplitter
  import opened BlockGrammar

  /** Every block but frontmatter has the kind of its first line and goes as far as
      this kind does. */
  lemma KindOfBlock(lines: seq<string>, k: nat)
    requires |lines| > 0 && k < |Spans(lines)| && Spans(lines)[k].kind != Frontmatter
    ensures var b := Spans(lines)[k];
      && b.first <= b.last < |lines| && !Whites(lines[b.first])
      && b.kind == KindAt(lines, b.first) && Goes(lines, b.first, b.last)
  {
    SpansMember(lines, k);
    var b := Spans(lines)[k];
    SpanGoes(lines, b);
    BlankExact(lines[b.first]);
  }

  /** The first line of a paragraph has none of the other starts. */
  lemma ParagraphLaw(lines: seq<string>, k: nat, lead: string, mark: string, rest: string)
    requires |lines| > 0 && k < |Spans(lines)| && Spans(lines)[k].kind == Paragraph
    requires Spans(lines)[k].first < |lines| && Opens(lines[Spans(lines)[k].first], lead, mark, rest)
    ensures mark !in {"```", "~~~", ">"}
    ensures IsMarker(mark) ==> rest == "" || !White(rest[0])
    ensures 1 <= |mark| <= 6 && AllOf(mark, '#') ==> rest != "" && !White(rest[0])
    ensures mark in {"*", "-", "_"} ==> !RuleRest(rest, mark[0])
  {
    KindOfBlock(lines, k);
    var s := lines[Spans(lines)[k].first];
    assert !FenceLine(s) && !QuoteLine(s) && !AtxLine(s) && !ItemLine(s);
    assert mark in {"*", "-", "_"} ==> mark == [mark[0]];
  }

  // ------------------------------------------------------------ the first block of a text

  /** The text begins with this line. */
  predicate Begins(content: string, line: string, rest: string) {
    content == line + rest && Without(line, '\n') && (rest == "" || rest[0] == '\n')
  }

  lemma {:induction false} FirstLine(content: string, line: string, rest: string)
    requires Begins(content, line, rest)
    ensures SplitOn(content, '\n')[0] == line
    ensures rest == "" <==> |SplitOn(content, '\n')| == 1
    ensures rest != "" ==> SplitOn(content, '\n')[1..] == SplitOn(rest[1..], '\n')
  {
    SplitWithout(line, '\n');
    if rest == "" {
      assert content == line;
    } else {
      assert content == line + ['\n'] + rest[1..];
      SplitConcat(line, rest[1..], '\n');
    }
  }

  /** The text's first two lines head a table. */
  ghost predicate HeadsTable(content: string) {
    TableHead(SplitOn(content, '\n'), 0)
  }

  /** The first block begins the text and is of this kind. */
  predicate FirstKind(content: string, kind: Kind) {
    Blocks(content) != [] && Blocks(content)[0].kind == kind && Blocks(content)[0].from == 0
  }

  lemma FirstSpan(lines: seq<string>)
    requires |lines| > 0 && !Whites(lines[0]) && lines[0] != "---"
    ensures Spans(lines) != [] && Spans(lines)[0].first == 0 && Spans(lines)[0].kind == KindAt(lines, 0)
  {
    BlankExact(lines[0]);
    SpanGoes(lines, SpanAt(lines, 0));
  }

  lemma {:induction false} FirstBlock(content: string)
    requires var line := SplitOn(content, '\n')[0]; !Whites(line) && line != "---"
    ensures FirstKind(content, KindAt(SplitOn(content, '\n'), 0))
  {
    var lines := SplitOn(content, '\n');
    FirstSpan(lines);
    SpansInRange(lines);
    assert Start(lines, 0) == 0;
  }

  lemma MarkedLine(line: string, lead: string, mark: string, rest: string)
    requires Opens(line, lead, mark, rest) && mark != "" && !White(mark[0])
    ensures !Whites(line) && (mark[0] != '-' ==> line != "---")
  {
    assert line[|lead|] == mark[0];
    assert line[0] == if lead == "" then mark[0] else lead[0];
  }

  /** A line that begins with three backquotes or tildes starts a code block. */
  lemma CodeLaw(content: string, lead: string, mark: string, more: string, rest: string)
    requires Opens(lead + (mark + more), lead, mark, more) && mark in {"```", "~~~"}
    requires Begins(content, lead + (mark + more), rest)
    ensures FirstKind(content, Code)
  {
    FirstLine(content, lead + (mark + more), rest);
    MarkedLine(lead + (mark + more), lead, mark, more);
    FirstBlock(content);
  }

  /** ... with `>` a quote, unless it heads a table, */
  lemma QuoteLaw(content: string, lead: string, more: string, rest: string)
    requires Opens(lead + (">" + more), lead, ">", more) && Begins(content, lead + (">" + more), rest)
    requires !HeadsTable(content)
    ensures FirstKind(content, Blockquote)
  {
    var line := lead + (">" + more);
    FirstLine(content, line, rest);
    MarkedLine(line, lead, ">", more);
    FirstBlock(content);
    NoOtherMark(line, lead, ">", more);
    assert QuoteLine(line);
  }

  /** A line with this first mark has no other start that begins differently. */
  lemma NoOtherMark(line: string, lead: string, mark: string, more: string)
    requires Opens(line, lead, mark, more) && mark != "" && !White(mark[0])
    ensures mark[0] !in {'`', '~'} ==> !FenceLine(line)
    ensures mark[0] != '>' ==> !QuoteLine(line)
    ensures mark[0] != '#' ==> !AtxLine(line)
    ensures mark[0] !in {'-', '+', '*'} && !('0' <= mark[0] <= '9') ==> !ItemLine(line)
  {
    OpensLead(line, lead, mark, more);
    assert Indented(line)[0] == mark[0];
    FenceExact(line);
    QuoteExact(line);
    AtxExact(line);
    ItemExact(line);
  }

  /** ... with one to six `#` before white space or the end a heading, */
  lemma HeadingLaw(content: string, lead: string, marks: string, more: string, rest: string)
    requires Opens(lead + (marks + more), lead, marks, more) && 1 <= |marks| <= 6 && AllOf(marks, '#')
    requires (more == "" || White(more[0])) && Begins(content, lead + (marks + more), rest) && !HeadsTable(content)
    ensures FirstKind(content, Heading)
  {
    var line := lead + (marks + more);
    FirstLine(content, line, rest);
    MarkedLine(line, lead, marks, more);
    FirstBlock(content);
    NoOtherMark(line, lead, marks, more);
    AtxHas(line, lead, marks, more);
  }

  /** ... with a marker before white space a list, */
  lemma ListLaw(content: string, lead: string, mark: string, more: string, rest: string)
    requires Opens(lead + (mark + more), lead, mark, more) && IsMarker(mark) && more != "" && White(more[0])
    requires Begins(content, lead + (mark + more), rest) && !HeadsTable(content)
    ensures FirstKind(content, List)
  {
    var line := lead + (mark + more);
    FirstLine(content, line, rest);
    MarkedLine(line, lead, mark, more);
    MarkerFirst(line, lead, mark, more);
    FirstBlock(content);
    NoOtherMark(line, lead, mark, more);
    ItemHas(line, lead, mark, more);
  }

  lemma ItemHas(line: string, lead: string, mark: string, more: string)
    requires Opens(line, lead, mark, more) && IsMarker(mark) && more != "" && White(more[0])
    ensures ItemLine(line)
  {
  }

  lemma MarkerFirst(line: string, lead: string, mark: string, more: string)
    requires Opens(line, lead, mark, more) && IsMarker(mark) && more != "" && White(more[0])
    ensures mark[0] in {'-', '+', '*'} || '0' <= mark[0] <= '9'
    ensures line != "---"
  {
    assert line[|lead| + |mark|] == more[0];
  }

  /** ... a row before a delimiter line a table, */
  lemma {:induction false} TableLaw(content: string)
    requires HeadsTable(content) && !FenceLine(SplitOn(content, '\n')[0])
    ensures FirstKind(content, Table)
  {
    var line := SplitOn(content, '\n')[0];
    RowIsText(line);
    FirstBlock(content);
  }

  lemma RowIsText(line: string)
    requires RowLine(line)
    ensures !Whites(line) && line != "---"
  {
    RowExact(line);
    var i :| 0 <= i < |line| && line[i] == '|' && TableLeft(line[..i]) && TableRight(line[i + 1..]);
    assert !White(line[i]);
  }

  /** ... three or more of one mark with white space in between, where it is no item
      and no underline follows, a thematic break, */
  lemma {:induction false} RuleLaw(content: string, lead: string, c: char, more: string, rest: string)
    requires var line := lead + ([c] + more);
      && Opens(line, lead, [c], more) && c in {'*', '-', '_'} && RuleRest(more, c)
      && Begins(content, line, rest) && !ItemLine(line) && line != "---"
    requires var lines := SplitOn(content, '\n'); !HeadsTable(content) && (|lines| > 1 ==> !UnderlineLine(lines[1]))
    ensures FirstKind(content, ThematicBreak)
  {
    var line := lead + ([c] + more);
    FirstLine(content, line, rest);
    MarkedLine(line, lead, [c], more);
    FirstBlock(content);
    NoOtherMark(line, lead, [c], more);
    RuleHas(line, lead, c, more);
  }

  /** ... a line before an underline, where no other start comes first, a heading, */
  lemma {:induction false} UnderlinedLaw(content: string)
    requires var lines := SplitOn(content, '\n');
      && |lines| > 1 && !Whites(lines[0]) && lines[0] != "---" && UnderlineLine(lines[1]) && !HeadsTable(content)
      && !FenceLine(lines[0]) && !ItemLine(lines[0]) && !QuoteLine(lines[0])
    ensures FirstKind(content, Heading)
  {
    FirstBlock(content);
  }

  /** ... and any other line that is not white a paragraph. */
  lemma {:induction false} OtherwiseParagraph(content: string)
    requires var lines := SplitOn(content, '\n');
      && !Whites(lines[0]) && !Interrupts(lines, 0) && (|lines| > 1 ==> !UnderlineLine(lines[1]))
    ensures FirstKind(content, Paragraph)
  {
    var lines := SplitOn(content, '\n');
    if lines[0] == "---" {
      DashesAreRule();
    } else {
      FirstBlock(content);
    }
  }

  lemma DashesAreRule()
    ensures RuleLine("---")
  {
    assert "--"[0] == '-' && "--"[1] == '-';
    assert RuleRest("--", '-');
    assert Opens("---", "", ['-'], "--");
    RuleHas("---", "", '-', "--");
  }
}
