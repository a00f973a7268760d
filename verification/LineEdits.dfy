/** The toolbar edits that work on whole lines: indent, outdent and the ordered
    list toggle, and when doing one after the other restores the text. */
module LineEdits {
  import opened Splitting
  import opened MarkdownLines
  import opened Decimals

  datatype State = State(text: string, selectionStart: nat, selectionEnd: nat)

  predicate Valid(s: State) {
    s.selectionStart <= |s.text| && s.selectionEnd <= |s.text|
  }

  function From(s: State): nat {
    if s.selectionStart < s.selectionEnd then s.selectionStart else s.selectionEnd
  }

  function To(s: State): nat {
    if s.selectionStart < s.selectionEnd then s.selectionEnd else s.selectionStart
  }

  /** One past the last newline at or before `p`, 0 when there is none. */
  function AfterNewline(text: string, p: nat): (i: nat)
    ensures i <= |text| && i <= p + 1
    ensures i > 0 ==> text[i - 1] == '\n'
    ensures forall j :: i <= j <= p && j < |text| ==> text[j] != '\n'
    decreases p
  {
    if p < |text| && text[p] == '\n' then p + 1
    else if p == 0 then 0
    else AfterNewline(text, p - 1)
  }

  /** The first newline at or after `p`, the end of the text when there is none. */
  function NextNewline(text: string, p: nat): (i: nat)
    requires p <= |text|
    ensures p <= i <= |text|
    ensures i < |text| ==> text[i] == '\n'
    ensures forall j :: p <= j < i ==> text[j] != '\n'
    decreases |text| - p
  {
    if p == |text| || text[p] == '\n' then p else NextNewline(text, p + 1)
  }

  function Slice(text: string, start: nat, end: nat): string
    requires start <= |text| && end <= |text|
  {
    if start <= end then text[start..end] else ""
  }

  datatype LineBlock = LineBlock(start: nat, end: nat, value: string)

  function SelectedLineBlock(s: State): (b: LineBlock)
    requires Valid(s)
    ensures b.start <= |s.text| && b.end <= |s.text|
  {
    var start := AfterNewline(s.text, if From(s) > 0 then From(s) - 1 else 0);
    var end := NextNewline(s.text, To(s));
    LineBlock(start, end, Slice(s.text, start, end))
  }

  function ReplaceRange(s: State, start: nat, end: nat, value: string, selectionStart: nat, selectionEnd: nat): State
    requires start <= |s.text| && end <= |s.text|
  {
    State(s.text[..start] + value + s.text[end..], selectionStart, selectionEnd)
  }

  /** Puts new lines in the place of the selected ones and selects them. */
  function WithLines(s: State, lines: seq<string>): State
    requires Valid(s) && |lines| > 0
  {
    var b := SelectedLineBlock(s);
    var next := Join(lines, '\n');
    ReplaceRange(s, b.start, b.end, next, b.start, b.start + |next|)
  }

  function SelectedLines(s: State): (lines: seq<string>)
    requires Valid(s)
    ensures |lines| > 0
  {
    SplitOn(SelectedLineBlock(s).value, '\n')
  }

  // ------------------------------------------------------------ the edits

  function IndentLine(line: string): string {
    if line == "" then line else "  " + line
  }

  /** Removes one or two spaces, or a tab. */
  function OutdentLine(line: string): string {
    if StartsWith(line, "  ") then line[2..]
    else if StartsWith(line, " ") || StartsWith(line, "\t") then line[1..]
    else line
  }

  function IndentAll(lines: seq<string>): (r: seq<string>)
    ensures |r| == |lines|
  {
    seq(|lines|, i requires 0 <= i < |lines| => IndentLine(lines[i]))
  }

  function OutdentAll(lines: seq<string>): (r: seq<string>)
    ensures |r| == |lines|
  {
    seq(|lines|, i requires 0 <= i < |lines| => OutdentLine(lines[i]))
  }

  function IndentLines(s: State): State
    requires Valid(s)
  {
    WithLines(s, IndentAll(SelectedLines(s)))
  }

  function OutdentLines(s: State): State
    requires Valid(s)
  {
    WithLines(s, OutdentAll(SelectedLines(s)))
  }

  /** The number, its dot or parenthesis, and the white space after it. */
  predicate IsOrdered(line: string) {
    var t := Indented(line);
    var d := Digits(t);
    d > 0 && d + 1 < |t| && t[d] in {'.', ')'} && IsSpace(t[d + 1])
  }

  predicate IsBullet(line: string) {
    var t := Indented(line);
    |t| > 1 && t[0] in {'-', '*', '+'} && IsSpace(t[1])
  }

  function Indent(line: string): string {
    line[..Lead(line)]
  }

  function StripOrdered(line: string): string {
    if IsOrdered(line) then Indent(line) + Indented(Indented(line)[Digits(Indented(line)) + 1..]) else line
  }

  function StripListPrefix(line: string): string {
    if IsBullet(line) then Indent(line) + Indented(Indented(line)[1..]) else StripOrdered(line)
  }

  predicate AllOrdered(lines: seq<string>) {
    forall i :: 0 <= i < |lines| ==> IsBlank(lines[i]) || IsOrdered(lines[i])
  }

  function Numbered(line: string, i: nat): string {
    Indent(line) + (Decimal(i + 1) + (". " + Indented(StripListPrefix(line))))
  }

  function ToggleLine(line: string, i: nat, allOrdered: bool): string {
    if IsBlank(line) then line
    else if allOrdered then StripOrdered(line)
    else Numbered(line, i)
  }

  function ToggleAll(lines: seq<string>): (r: seq<string>)
    ensures |r| == |lines|
  {
    seq(|lines|, i requires 0 <= i < |lines| => ToggleLine(lines[i], i, AllOrdered(lines)))
  }

  function ToggleOrderedList(s: State): State
    requires Valid(s)
  {
    WithLines(s, ToggleAll(SelectedLines(s)))
  }

  // ------------------------------------------------------------ selecting the same lines again

  /** The caret stands before a newline that begins the text.  The search for the
      newline before the selection then finds that very newline, so the block
      starts after it ends. */
  predicate CaretBeforeFirstNewline(s: State) {
    To(s) == 0 && s.text != "" && s.text[0] == '\n'
  }

  /** Apart from that case the selected lines are a stretch of the text between
      newlines or ends, and a block at the very start does not begin with a newline. */
  lemma BlockFlanks(s: State)
    requires Valid(s) && !CaretBeforeFirstNewline(s)
    ensures var b := SelectedLineBlock(s);
      && b.start <= b.end <= |s.text| && b.value == s.text[b.start..b.end]
      && (b.start > 0 ==> s.text[b.start - 1] == '\n')
      && (b.end < |s.text| ==> s.text[b.end] == '\n')
      && (b.start == 0 ==> s.text == "" || s.text[0] != '\n')
  {
  }

  lemma BlockIsWholeLines(s: State)
    requires Valid(s) && !CaretBeforeFirstNewline(s)
    ensures var b := SelectedLineBlock(s);
      && b.start <= b.end <= |s.text|
      && s.text == s.text[..b.start] + b.value + s.text[b.end..]
      && (b.start == 0 ==> s.text == b.value + s.text[b.end..] && (s.text == "" || s.text[0] != '\n'))
  {
    BlockFlanks(s);
    var b := SelectedLineBlock(s);
    assert s.text == s.text[..b.start] + s.text[b.start..b.end] + s.text[b.end..];
  }

  /** Whole lines put in place of the selected ones are what is selected next. */
  lemma Reselected(head: string, value: string, tail: string)
    requires head != "" ==> head[|head| - 1] == '\n'
    requires tail != "" ==> tail[0] == '\n'
    requires head == "" && value + tail != "" ==> (value + tail)[0] != '\n'
    ensures SelectedLineBlock(State(head + value + tail, |head|, |head| + |value|))
         == LineBlock(|head|, |head| + |value|, value)
  {
    var s := State(head + value + tail, |head|, |head| + |value|);
    var text := s.text;
    var b := SelectedLineBlock(s);
    if head == "" {
      assert text == value + tail;
      assert b.start == 0;
    } else {
      assert text[|head| - 1] == '\n';
    }
    if tail != "" {
      assert text[|head| + |value|] == tail[0];
    }
    assert text[|head|..|head| + |value|] == value;
  }

  /** New lines for old do not begin with a newline where the old ones did not. */
  lemma {:induction false} NoNewlineInFront(value: string, lines: seq<string>, tail: string)
    requires |lines| == |SplitOn(value, '\n')| && AllWithout(lines, '\n')
    requires lines[0] == "" <==> SplitOn(value, '\n')[0] == ""
    requires tail != "" ==> tail[0] == '\n'
    requires value + tail == "" || (value + tail)[0] != '\n'
    ensures Join(lines, '\n') + tail == "" || (Join(lines, '\n') + tail)[0] != '\n'
  {
    if value == "" {
      assert value + tail == tail;
    } else {
      assert (value + tail)[0] == value[0];
      assert SplitOn(value, '\n')[0] != "";
      assert Join(lines, '\n')[0] == lines[0][0];
    }
  }

  lemma ThreeParts(head: string, value: string, tail: string)
    ensures (head + value + tail)[..|head|] == head
    ensures (head + value + tail)[|head| + |value|..] == tail
  {
  }

  /** The text after an edit would begin with a newline where the block began. */
  predicate OpensWithNewline(s: State, next: string)
    requires Valid(s)
  {
    var b := SelectedLineBlock(s);
    var rest := next + s.text[b.end..];
    b.start == 0 && rest != "" && rest[0] == '\n'
  }

  /** Replacing the selected block changes nothing else, for any new value, and
      selects the new value exactly unless the text then begins with a newline. */
  lemma AfterReplacing(s: State, next: string)
    requires Valid(s) && !CaretBeforeFirstNewline(s)
    ensures var b := SelectedLineBlock(s);
      var s1 := ReplaceRange(s, b.start, b.end, next, b.start, b.start + |next|);
      && b.start <= b.end && Valid(s1)
      && s1.text[..b.start] == s.text[..b.start]
      && s1.text[b.start + |next|..] == s.text[b.end..]
      && (SelectedLineBlock(s1) == LineBlock(b.start, b.start + |next|, next) <==> !OpensWithNewline(s, next))
  {
    BlockFlanks(s);
    var b := SelectedLineBlock(s);
    var head, tail := s.text[..b.start], s.text[b.end..];
    assert ReplaceRange(s, b.start, b.end, next, b.start, b.start + |next|)
        == State(head + next + tail, |head|, |head| + |next|);
    ThreeParts(head, next, tail);
    if OpensWithNewline(s, next) {
      SelectsElsewhere(next, tail);
      assert head + next + tail == next + tail;
    } else {
      Reselected(head, next, tail);
    }
  }

  lemma SelectsElsewhere(value: string, tail: string)
    requires value + tail != "" && (value + tail)[0] == '\n'
    ensures SelectedLineBlock(State(value + tail, 0, |value|)).start == 1
  {
  }

  /** A line edit that leaves the first line empty just if it was. */
  predicate KeepsFirst(s: State, lines: seq<string>)
    requires Valid(s)
  {
    |lines| == |SelectedLines(s)| && AllWithout(lines, '\n') && (lines[0] == "" <==> SelectedLines(s)[0] == "")
  }

  lemma {:induction false} NoNewlineAtStart(s: State, lines: seq<string>)
    requires Valid(s) && !CaretBeforeFirstNewline(s) && KeepsFirst(s, lines)
    ensures !OpensWithNewline(s, Join(lines, '\n'))
  {
    BlockFlanks(s);
    BlockIsWholeLines(s);
    var b := SelectedLineBlock(s);
    if b.start == 0 {
      NoNewlineInFront(b.value, lines, s.text[b.end..]);
    }
  }

  /** Every line edit, whatever lines it puts in, changes the selected lines only;
      it selects what it wrote exactly unless the text then begins with a newline. */
  lemma {:induction false} AfterEdit(s: State, lines: seq<string>)
    requires Valid(s) && !CaretBeforeFirstNewline(s) && |lines| > 0 && AllWithout(lines, '\n')
    ensures var b, next, s1 := SelectedLineBlock(s), Join(lines, '\n'), WithLines(s, lines);
      && b.start <= b.end && Valid(s1)
      && s1.text[..b.start] == s.text[..b.start]
      && s1.text[b.start + |next|..] == s.text[b.end..]
      && (SelectedLineBlock(s1) == LineBlock(b.start, b.start + |next|, next) <==> !OpensWithNewline(s, next))
      && (!OpensWithNewline(s, next) ==> SelectedLines(s1) == lines)
  {
    AfterReplacing(s, Join(lines, '\n'));
    SplitJoin(lines, '\n');
  }

  /** The toolbar's three line edits change nothing outside the selected lines. */
  lemma OnlySelectedLinesChange(s: State, s1: State)
    requires Valid(s) && !CaretBeforeFirstNewline(s)
    requires s1 == IndentLines(s) || s1 == OutdentLines(s) || s1 == ToggleOrderedList(s)
    ensures var b := SelectedLineBlock(s); var end := |s1.text| - (|s.text| - b.end);
      && b.start <= b.end && b.start <= end
      && s1.text[..b.start] == s.text[..b.start] && s1.text[end..] == s.text[b.end..]
  {
    BlockFlanks(s);
    AfterReplacing(s, Join(IndentAll(SelectedLines(s)), '\n'));
    AfterReplacing(s, Join(OutdentAll(SelectedLines(s)), '\n'));
    AfterReplacing(s, Join(ToggleAll(SelectedLines(s)), '\n'));
  }

  /** Two line edits in a row: the second works on exactly what the first wrote. */
  lemma {:induction false} EditTwice(s: State, first: seq<string>, second: seq<string>)
    requires Valid(s) && !CaretBeforeFirstNewline(s) && |second| > 0
    requires KeepsFirst(s, first)
    requires Join(second, '\n') == SelectedLineBlock(s).value
    ensures var s1 := WithLines(s, first);
      Valid(s1) && SelectedLines(s1) == first && WithLines(s1, second).text == s.text
  {
    NoNewlineAtStart(s, first);
    AfterEdit(s, first);
    BlockIsWholeLines(s);
  }

  // ------------------------------------------------------------ doing and undoing

  /** With the caret before a newline that begins the text, every edit that
      leaves an empty line empty adds a newline to the text. */
  lemma EdgeDuplicates(s: State, lines: seq<string>)
    requires Valid(s) && CaretBeforeFirstNewline(s) && lines == [""]
    ensures SelectedLines(s) == [""]
    ensures WithLines(s, lines) == State("\n" + s.text, 1, 1)
  {
    var b := SelectedLineBlock(s);
    assert b.start == 1 && b.end == 0;
    assert s.text[..1] == "\n";
  }

  /** ... and so does the next one: it now sees an empty line of its own. */
  lemma EdgeSecond(s: State, lines: seq<string>)
    requires s.text != "" && s.text[0] == '\n' && lines == [""]
    ensures var s1 := State("\n" + s.text, 1, 1);
      SelectedLines(s1) == [""] && WithLines(s1, lines).text == s1.text
  {
    var s1 := State("\n" + s.text, 1, 1);
    assert s1.text[0] == '\n' && s1.text[1] == '\n';
    var b := SelectedLineBlock(s1);
    assert b.start == 1 && b.end == 1;
  }

  lemma IndentAllLines(lines: seq<string>)
    requires AllWithout(lines, '\n')
    ensures AllWithout(IndentAll(lines), '\n') && OutdentAll(IndentAll(lines)) == lines
  {
    forall i | 0 <= i < |lines| ensures OutdentLine(IndentLine(lines[i])) == lines[i] {
      if lines[i] != "" {
        assert ("  " + lines[i])[2..] == lines[i];
      }
    }
  }

  /** Outdenting after indenting restores the text, exactly unless the caret
      stands before a newline that begins the text. */
  lemma OutdentUndoesIndent(s: State)
    requires Valid(s)
    ensures Valid(IndentLines(s))
    ensures OutdentLines(IndentLines(s)).text == s.text <==> !CaretBeforeFirstNewline(s)
  {
    var lines := SelectedLines(s);
    if CaretBeforeFirstNewline(s) {
      EdgeDuplicates(s, [""]);
      assert IndentAll([""]) == [""] && OutdentAll([""]) == [""];
      EdgeSecond(s, [""]);
    } else {
      var value := SelectedLineBlock(s).value;
      JoinSplit(value, '\n');
      IndentAllLines(lines);
      EditTwice(s, IndentAll(lines), lines);
    }
  }

  predicate HasListPrefix(line: string) {
    IsBullet(line) || IsOrdered(line)
  }

  lemma {:induction false} LeadAfter(ws: string, rest: string)
    requires AllSpace(ws) && (rest == "" || !IsSpace(rest[0]))
    ensures Lead(ws + rest) == |ws| && Indented(ws + rest) == rest
    decreases |ws|
  {
    if ws == "" {
      assert ws + rest == rest;
    } else {
      LeadAfter(ws[1..], rest);
      assert (ws + rest)[1..] == ws[1..] + rest;
    }
  }

  lemma {:induction false} DigitsAfter(digits: string, rest: string)
    requires forall i :: 0 <= i < |digits| ==> IsDigit(digits[i])
    requires rest == "" || !IsDigit(rest[0])
    ensures Digits(digits + rest) == |digits|
    decreases |digits|
  {
    if digits == "" {
      assert digits + rest == rest;
    } else {
      DigitsAfter(digits[1..], rest);
      assert (digits + rest)[1..] == digits[1..] + rest;
    }
  }

  lemma NumberTail(number: string, rest: string)
    requires number != "" && forall i :: 0 <= i < |number| ==> IsDigit(number[i])
    requires rest != "" && !IsSpace(rest[0])
    ensures var tail := number + (". " + rest); var d := |number|;
      && d + 1 < |tail| && Digits(tail) == d && tail[d] == '.' && tail[d + 1] == ' '
      && Indented(tail[d + 1..]) == rest && !IsSpace(tail[0])
  {
    var tail, d := number + (". " + rest), |number|;
    DigitsAfter(number, ". " + rest);
    assert tail[d..] == ". " + rest;
    assert tail[d + 1..] == " " + rest;
    LeadAfter(" ", rest);
  }

  lemma NumberedLine(indent: string, number: string, rest: string)
    requires AllSpace(indent) && rest != "" && !IsSpace(rest[0])
    requires number != "" && forall i :: 0 <= i < |number| ==> IsDigit(number[i])
    ensures var line := indent + (number + (". " + rest));
      && IsOrdered(line) && StripOrdered(line) == indent + rest
      && !IsBlank(line)
  {
    var tail := number + (". " + rest);
    NumberTail(number, rest);
    LeadAfter(indent, tail);
    assert (indent + tail)[..|indent|] == indent;
    assert (indent + tail)[|indent|] == tail[0];
  }

  lemma {:induction false} LeadOfBlank(line: string)
    requires Lead(line) == |line|
    ensures IsBlank(line)
  {
    assert line[..Lead(line)] == line;
  }

  /** Numbering a line without list prefix makes it an ordered item, and taking
      the number away restores it. */
  lemma StripUndoesNumber(line: string, i: nat)
    requires !IsBlank(line) && !HasListPrefix(line)
    ensures IsOrdered(Numbered(line, i)) && StripOrdered(Numbered(line, i)) == line
    ensures !IsBlank(Numbered(line, i))
  {
    IndentedParts(line);
    assert StripListPrefix(line) == line;
    var indent, rest := Indent(line), Indented(line);
    NumberedLine(indent, Decimal(i + 1), rest);
  }

  lemma IndentedParts(line: string)
    requires !IsBlank(line)
    ensures Indented(line) != "" && !IsSpace(Indented(line)[0])
    ensures Indent(line) + Indented(line) == line && AllSpace(Indent(line))
  {
    if Lead(line) == |line| {
      LeadOfBlank(line);
    }
  }

  lemma NumberedWithoutNewline(line: string, i: nat)
    requires Without(line, '\n') && !IsBlank(line) && !HasListPrefix(line)
    ensures Without(Numbered(line, i), '\n')
  {
    var number := Decimal(i + 1);
    assert Without(number, '\n');
    assert Without(Indent(line), '\n') && Without(Indented(line), '\n');
  }

  /** No selected line that is not blank has a list prefix. */
  predicate Plain(lines: seq<string>) {
    forall i :: 0 <= i < |lines| ==> IsBlank(lines[i]) || !HasListPrefix(lines[i])
  }

  lemma ToggleAllTwice(lines: seq<string>)
    requires Plain(lines) && AllWithout(lines, '\n')
    ensures AllWithout(ToggleAll(lines), '\n') && ToggleAll(ToggleAll(lines)) == lines
    ensures forall i :: 0 <= i < |lines| ==> (ToggleAll(lines)[i] == "" <==> lines[i] == "")
  {
    var once := ToggleAll(lines);
    forall i | 0 <= i < |lines|
      ensures Without(once[i], '\n') && (once[i] == "" <==> lines[i] == "")
      ensures IsBlank(once[i]) || IsOrdered(once[i])
      ensures ToggleLine(once[i], i, true) == lines[i]
    {
      if !IsBlank(lines[i]) {
        assert !AllOrdered(lines);
        StripUndoesNumber(lines[i], i);
        NumberedWithoutNewline(lines[i], i);
      }
    }
    assert AllOrdered(once);
  }

  /** Toggling the ordered list twice restores a text whose selected lines had no
      list prefix, exactly unless the caret stands before a newline that begins it. */
  lemma ToggleTwice(s: State)
    requires Valid(s) && Plain(SelectedLines(s))
    ensures Valid(ToggleOrderedList(s))
    ensures ToggleOrderedList(ToggleOrderedList(s)).text == s.text <==> !CaretBeforeFirstNewline(s)
  {
    var lines := SelectedLines(s);
    if CaretBeforeFirstNewline(s) {
      EdgeDuplicates(s, [""]);
      assert ToggleAll([""]) == [""];
      EdgeSecond(s, [""]);
    } else {
      JoinSplit(SelectedLineBlock(s).value, '\n');
      ToggleAllTwice(lines);
      EditTwice(s, ToggleAll(lines), lines);
    }
  }
}
