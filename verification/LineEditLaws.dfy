/** What the three line edits write, line by line. */
module LineEditLaws {
  import opened Splitting
  import opened MarkdownLines
  import opened Decimals
  import opened LineEdits
  import opened Numerals

  /** The lines that are edited are those that the selection touches, and no others;
      only an empty first line is left out of a selection that begins with it. */
  lemma SelectedExact(s: State)
    requires Valid(s) && !CaretBeforeFirstNewline(s)
    ensures var b := SelectedLineBlock(s);
      var least := if s.selectionStart < s.selectionEnd then s.selectionStart else s.selectionEnd;
      var most := if s.selectionStart < s.selectionEnd then s.selectionEnd else s.selectionStart;
      && most <= b.end <= |s.text|
      && (b.start <= least <==> !(least == 0 && s.text != "" && s.text[0] == '\n'))
      && (b.start > least ==> b.start == 1)
      && (b.start == 0 || s.text[b.start - 1] == '\n') && (b.end == |s.text| || s.text[b.end] == '\n')
      && (forall p :: b.start <= p < b.end && s.text[p] == '\n' ==> least <= p < most)
  {
    BlockFlanks(s);
  }

  /** The lines that are selected after an edit are the lines it wrote. */
  lemma EditWrites(s: State, lines: seq<string>)
    requires Valid(s) && !CaretBeforeFirstNewline(s) && KeepsFirst(s, lines)
    ensures Valid(WithLines(s, lines)) && SelectedLines(WithLines(s, lines)) == lines
  {
    NoNewlineAtStart(s, lines);
    AfterEdit(s, lines);
  }

  lemma SelectedWithout(s: State)
    requires Valid(s)
    ensures AllWithout(SelectedLines(s), '\n')
  {
    JoinSplit(SelectedLineBlock(s).value, '\n');
  }

  /** Indenting puts two spaces before every selected line that is not empty. */
  lemma IndentLaw(s: State, i: nat)
    requires Valid(s) && !CaretBeforeFirstNewline(s) && i < |SelectedLines(s)|
    ensures Valid(IndentLines(s)) && |SelectedLines(IndentLines(s))| == |SelectedLines(s)|
    ensures var line, indented := SelectedLines(s)[i], SelectedLines(IndentLines(s))[i];
      indented == if line == "" then "" else "  " + line
  {
    SelectedWithout(s);
    IndentAllLines(SelectedLines(s));
    EditWrites(s, IndentAll(SelectedLines(s)));
  }

  lemma OutdentAllLines(lines: seq<string>)
    requires AllWithout(lines, '\n')
    ensures AllWithout(OutdentAll(lines), '\n')
  {
    forall i | 0 <= i < |lines| ensures Without(OutdentLine(lines[i]), '\n') {
    }
  }

  /** Outdenting takes one or two leading spaces or one tab from every selected line. */
  lemma OutdentLaw(line: string)
    ensures var r := OutdentLine(line);
      || line == "  " + r || line == "\t" + r
      || (line == " " + r && (r == "" || r[0] != ' '))
      || (line == r && (r == "" || (r[0] != ' ' && r[0] != '\t')))
  {
  }

  /** A line as indentation and the rest, which does not begin with white space. */
  predicate Parts(line: string, indent: string, rest: string) {
    line == indent + rest && AllSpace(indent) && rest != "" && !IsSpace(rest[0])
  }

  lemma PartsOf(line: string, indent: string, rest: string)
    requires Parts(line, indent, rest)
    ensures Indent(line) == indent && Indented(line) == rest && !IsBlank(line)
  {
    LeadAfter(indent, rest);
    assert line[|indent|] == rest[0];
  }

  /** Toggling numbers the selected lines: the line at `i` that is not blank gets the
      number `i + 1`, a dot and a space after its indentation. */
  lemma {:induction false} NumberLaw(line: string, i: nat, indent: string, rest: string)
    requires Parts(line, indent, rest) && !HasListPrefix(line)
    ensures ToggleLine(line, i, false) == indent + (Decimal(i + 1) + (". " + rest))
    ensures Number(Decimal(i + 1)) == i + 1 && Decimal(i + 1)[0] != '0'
  {
    PartsOf(line, indent, rest);
    DecimalDenotes(i + 1);
  }

  /** White space, a bullet and white space. */
  predicate BulletAt(line: string, n: nat) {
    n + 1 < |line| && AllSpace(line[..n]) && line[n] in {'-', '*', '+'} && IsSpace(line[n + 1])
  }

  /** White space, digits, a dot or parenthesis, and white space. */
  predicate NumberAt(line: string, n: nat, m: nat) {
    && n < m && m + 1 < |line| && AllSpace(line[..n]) && line[m] in {'.', ')'} && IsSpace(line[m + 1])
    && forall i :: n <= i < m ==> IsDigit(line[i])
  }

  /** Which lines are items with a bullet, */
  lemma BulletExact(line: string)
    ensures IsBullet(line) <==> exists n: nat :: BulletAt(line, n)
  {
    if IsBullet(line) {
      assert BulletAt(line, Lead(line));
    }
    if n: nat :| BulletAt(line, n) {
      LeadIs(line, n);
    }
  }

  /** ... and which with a number. */
  lemma NumberExact(line: string)
    ensures IsOrdered(line) <==> exists n: nat, m: nat :: NumberAt(line, n, m)
  {
    if IsOrdered(line) {
      NumberFound(line);
    }
    if n: nat, m: nat :| NumberAt(line, n, m) {
      NumberThere(line, n, m);
    }
  }

  lemma {:induction false} NumberFound(line: string)
    requires IsOrdered(line)
    ensures NumberAt(line, Lead(line), Lead(line) + Digits(Indented(line)))
  {
    FoundAt(line, Lead(line), Indented(line), Digits(Indented(line)));
  }

  lemma FoundAt(line: string, n: nat, t: string, d: nat)
    requires n <= |line| && t == line[n..] && AllSpace(line[..n])
    requires d > 0 && d + 1 < |t| && t[d] in {'.', ')'} && IsSpace(t[d + 1])
    requires forall i :: 0 <= i < d ==> IsDigit(t[i])
    ensures NumberAt(line, n, n + d)
  {
    assert forall i :: n <= i < n + d ==> line[i] == t[i - n];
  }

  lemma NumberThere(line: string, n: nat, m: nat)
    requires NumberAt(line, n, m)
    ensures IsOrdered(line)
  {
    assert IsDigit(line[n]);
    LeadIs(line, n);
    DigitsAfter(line[n..m], line[m..]);
    assert line[n..] == line[n..m] + line[m..];
  }

  lemma {:induction false} LeadIs(line: string, n: nat)
    requires n < |line| && AllSpace(line[..n]) && !IsSpace(line[n])
    ensures Lead(line) == n && Indented(line) == line[n..]
  {
    LeadAfter(line[..n], line[n..]);
    assert line == line[..n] + line[n..];
  }

  /** ... in place of a bullet, */
  lemma {:induction false} NumberBullet(line: string, i: nat, indent: string, mark: char, gap: string, rest: string)
    requires mark in {'-', '*', '+'} && gap != "" && AllSpace(gap) && (rest == "" || !IsSpace(rest[0]))
    requires AllSpace(indent) && line == indent + ([mark] + (gap + rest))
    ensures ToggleLine(line, i, false) == indent + (Decimal(i + 1) + (". " + rest))
  {
    var tail := [mark] + (gap + rest);
    PartsOf(line, indent, tail);
    assert tail[1..] == gap + rest && tail[1] == gap[0];
    LeadAfter(gap, rest);
    LeadAfter(indent, rest);
    assert StripListPrefix(line) == indent + rest;
  }

  /** A number, a mark and white space. */
  predicate IsNumbering(number: string, mark: char, gap: string) {
    && number != "" && (forall j :: 0 <= j < |number| ==> IsDigit(number[j])) && mark in {'.', ')'}
    && gap != "" && AllSpace(gap)
  }

  /** A line as indentation, numbering and the rest. */
  predicate ItemParts(line: string, indent: string, number: string, mark: char, gap: string, rest: string) {
    && IsNumbering(number, mark, gap) && (rest == "" || !IsSpace(rest[0]))
    && AllSpace(indent) && line == indent + (number + ([mark] + (gap + rest)))
  }

  lemma {:induction false} TailParts(tail: string, number: string, mark: char, gap: string, rest: string)
    requires IsNumbering(number, mark, gap) && (rest == "" || !IsSpace(rest[0]))
    requires tail == number + ([mark] + (gap + rest))
    ensures tail != "" && IsDigit(tail[0]) && Digits(tail) == |number| && |number| + 1 < |tail|
    ensures tail[|number|] == mark && IsSpace(tail[|number| + 1]) && Indented(tail[|number| + 1..]) == rest
  {
    assert tail[0] == number[0];
    DigitsAfter(number, [mark] + (gap + rest));
    assert tail[|number|] == mark && tail[|number| + 1] == gap[0];
    assert tail[|number| + 1..] == gap + rest;
    LeadAfter(gap, rest);
  }

  lemma Unnumbered(line: string, indent: string, number: string, mark: char, gap: string, rest: string)
    requires ItemParts(line, indent, number, mark, gap, rest)
    ensures !IsBlank(line) && !IsBullet(line) && IsOrdered(line) && Indent(line) == indent
    ensures StripOrdered(line) == indent + rest
  {
    var tail := number + ([mark] + (gap + rest));
    TailParts(tail, number, mark, gap, rest);
    UnnumberedTail(line, indent, tail, |number|, rest);
  }

  lemma {:induction false} UnnumberedTail(line: string, indent: string, tail: string, d: nat, rest: string)
    requires AllSpace(indent) && line == indent + tail && tail != "" && IsDigit(tail[0]) && d == Digits(tail) > 0
    requires d + 1 < |tail| && tail[d] in {'.', ')'} && IsSpace(tail[d + 1]) && Indented(tail[d + 1..]) == rest
    ensures !IsBlank(line) && !IsBullet(line) && IsOrdered(line) && Indent(line) == indent
    ensures StripOrdered(line) == indent + rest
  {
    PartsOf(line, indent, tail);
    StripIs(line, tail, d, rest);
  }

  lemma {:induction false} StripIs(line: string, t: string, d: nat, rest: string)
    requires t == Indented(line) && d == Digits(t)
    requires d > 0 && d + 1 < |t| && t[d] in {'.', ')'} && IsSpace(t[d + 1]) && Indented(t[d + 1..]) == rest
    ensures IsOrdered(line) && !IsBullet(line) && StripOrdered(line) == Indent(line) + rest
  {
  }

  /** ... or of another number, */
  lemma {:induction false} NumberAnew(line: string, i: nat, indent: string, number: string, mark: char, gap: string,
                                      rest: string)
    requires ItemParts(line, indent, number, mark, gap, rest)
    ensures ToggleLine(line, i, false) == indent + (Decimal(i + 1) + (". " + rest))
  {
    Unnumbered(line, indent, number, mark, gap, rest);
    LeadAfter(indent, rest);
  }

  /** ... and takes the numbers off when every selected line has one. */
  lemma UnnumberLaw(line: string, i: nat, indent: string, number: string, mark: char, gap: string, rest: string)
    requires ItemParts(line, indent, number, mark, gap, rest)
    ensures ToggleLine(line, i, true) == indent + rest
  {
    Unnumbered(line, indent, number, mark, gap, rest);
  }

  /** Blank lines stay as they are, and the toggle takes numbers off exactly if every
      line that is not blank has one. */
  lemma ToggleLaw(lines: seq<string>, i: nat)
    requires i < |lines|
    ensures IsBlank(lines[i]) ==> ToggleAll(lines)[i] == lines[i]
    ensures var all := forall j :: 0 <= j < |lines| ==> IsBlank(lines[j]) || IsOrdered(lines[j]);
      ToggleAll(lines)[i] == ToggleLine(lines[i], i, all)
  {
  }
}
