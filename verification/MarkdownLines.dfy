/** Lines of a Markdown document: cutting a text at its newlines, where each
    line starts, and the line predicates of the block splitter.

    Each predicate accepts exactly the lines of the source's regular expression,
    with JavaScript's meaning of `\s`, `\d` and `.`. */
module MarkdownLines {
  import opened Splitting

  // ------------------------------------------------------------ characters

  /** `\s` of a JavaScript regular expression. */
  predicate IsSpace(c: char) {
    c in {' ', '\t', '\n', '\r', '\U{000B}', '\U{000C}', '\U{00A0}', '\U{1680}', '\U{2028}', '\U{2029}',
          '\U{202F}', '\U{205F}', '\U{3000}', '\U{FEFF}'}
    || '\U{2000}' <= c <= '\U{200A}'
  }

  /** The characters `.` does not match. */
  predicate IsTerminator(c: char) {
    c in {'\n', '\r', '\U{2028}', '\U{2029}'}
  }

  predicate AllSpace(s: string) {
    forall i :: 0 <= i < |s| ==> IsSpace(s[i])
  }

  predicate NoTerminator(s: string) {
    forall i :: 0 <= i < |s| ==> !IsTerminator(s[i])
  }

  /** How many characters of white space a line starts with. */
  function Lead(s: string): (n: nat)
    ensures n <= |s| && AllSpace(s[..n]) && (n < |s| ==> !IsSpace(s[n]))
  {
    if s == "" || !IsSpace(s[0]) then 0
    else
      var n := Lead(s[1..]);
      assert s[..1 + n] == [s[0]] + s[1..][..n];
      1 + n
  }

  function Run(s: string, c: char): (n: nat)
    ensures n <= |s| && (forall i :: 0 <= i < n ==> s[i] == c) && (n < |s| ==> s[n] != c)
  {
    if s == "" || s[0] != c then 0 else 1 + Run(s[1..], c)
  }

  function Digits(s: string): (n: nat)
    ensures n <= |s| && (forall i :: 0 <= i < n ==> '0' <= s[i] <= '9') && (n < |s| ==> !('0' <= s[n] <= '9'))
  {
    if s == "" || !('0' <= s[0] <= '9') then 0 else 1 + Digits(s[1..])
  }

  function Occurrences(s: string, c: char): nat {
    if s == "" then 0 else (if s[0] == c then 1 else 0) + Occurrences(s[1..], c)
  }

  // ------------------------------------------------------------ where lines start

  /** The offset of line `i`; one past the text and its end for `i == |lines|`. */
  function Start(lines: seq<string>, i: nat): nat
    requires i <= |lines|
  {
    if i == 0 then 0 else Start(lines, i - 1) + |lines[i - 1]| + 1
  }

  lemma {:induction false} StartTail(lines: seq<string>, i: nat)
    requires 0 < i <= |lines|
    ensures Start(lines, i) == |lines[0]| + 1 + Start(lines[1..], i - 1)
  {
    if i > 1 {
      StartTail(lines, i - 1);
    } else {
      assert Start(lines, 0) == 0;
    }
  }

  lemma {:induction false} StartMonotone(lines: seq<string>, i: nat, j: nat)
    requires i < j <= |lines|
    ensures Start(lines, i) + |lines[i]| < Start(lines, j)
    decreases j
  {
    if i < j - 1 {
      StartMonotone(lines, i, j - 1);
    }
  }

  lemma {:induction false} JoinLength(lines: seq<string>)
    requires |lines| > 0
    ensures |Join(lines, '\n')| + 1 == Start(lines, |lines|)
  {
    StartTail(lines, |lines|);
    if |lines| > 1 {
      JoinLength(lines[1..]);
    }
  }

  /** A prefix of the lines is a prefix of the text. */
  lemma {:induction false} SliceFromStart(lines: seq<string>, b: nat)
    requires b < |lines|
    ensures Start(lines, b) + |lines[b]| <= |Join(lines, '\n')|
    ensures Join(lines, '\n')[..Start(lines, b) + |lines[b]|] == Join(lines[..b + 1], '\n')
    decreases |lines|
  {
    var text, first := Join(lines, '\n'), lines[0];
    if b == 0 {
      assert lines[..1] == [first];
    } else {
      var rest := lines[1..];
      SliceFromStart(rest, b - 1);
      StartTail(lines, b);
      var head := first + ['\n'];
      var n := Start(rest, b - 1) + |rest[b - 1]|;
      assert lines[..b + 1][1..] == rest[..b] && lines[..b + 1][0] == first;
      assert text == head + Join(rest, '\n');
      assert text[..|head| + n] == head + Join(rest, '\n')[..n];
    }
  }

  /** Consecutive lines joined are a slice of the text. */
  lemma {:induction false} SliceOfLines(lines: seq<string>, a: nat, b: nat)
    requires a <= b < |lines|
    ensures Start(lines, a) <= Start(lines, b) + |lines[b]| <= |Join(lines, '\n')|
    ensures Join(lines, '\n')[Start(lines, a)..Start(lines, b) + |lines[b]|] == Join(lines[a..b + 1], '\n')
    decreases |lines|
  {
    SliceFromStart(lines, b);
    if a == 0 {
      assert lines[0..b + 1] == lines[..b + 1];
      assert Start(lines, 0) == 0;
    } else {
      var text, rest := Join(lines, '\n'), lines[1..];
      SliceOfLines(rest, a - 1, b - 1);
      StartTail(lines, a);
      StartTail(lines, b);
      var cut := |lines[0]| + 1;
      assert rest[a - 1..b] == lines[a..b + 1];
      assert text == (lines[0] + ['\n']) + Join(rest, '\n');
      SliceAfter(lines[0] + ['\n'], Join(rest, '\n'), Start(rest, a - 1), Start(rest, b - 1) + |rest[b - 1]|);
    }
  }

  lemma SliceAfter(head: string, tail: string, i: nat, j: nat)
    requires i <= j <= |tail|
    ensures (head + tail)[|head| + i..|head| + j] == tail[i..j]
  {
  }

  /** The line a position belongs to; a newline belongs to the line it ends. */
  function LineAt(lines: seq<string>, p: nat): (j: nat)
    requires |lines| > 0 && p < Start(lines, |lines|)
    ensures j < |lines|
  {
    LastLineFrom(lines, p, |lines| - 1)
  }

  function LastLineFrom(lines: seq<string>, p: nat, j: nat): (k: nat)
    requires j < |lines|
    ensures k <= j && Start(lines, k) <= p && (k < j ==> p < Start(lines, k + 1))
  {
    if Start(lines, j) <= p then j else LastLineFrom(lines, p, j - 1)
  }

  lemma {:induction false} CharAt(lines: seq<string>, p: nat)
    requires |lines| > 0 && p < |Join(lines, '\n')|
    ensures p < Start(lines, |lines|)
    ensures var j := LineAt(lines, p);
      && Start(lines, j) <= p <= Start(lines, j) + |lines[j]|
      && Join(lines, '\n')[p] ==
           if p == Start(lines, j) + |lines[j]| then '\n' else lines[j][p - Start(lines, j)]
  {
    JoinLength(lines);
    var j := LineAt(lines, p);
    var text := Join(lines, '\n');
    SliceOfLines(lines, j, j);
    assert lines[j..j + 1] == [lines[j]];
    if p < Start(lines, j) + |lines[j]| {
      assert text[p] == text[Start(lines, j)..Start(lines, j) + |lines[j]|][p - Start(lines, j)];
    } else {
      assert j < |lines| - 1;
      SliceOfLines(lines, j, j + 1);
      assert lines[j..j + 2] == [lines[j], lines[j + 1]];
      assert lines[j..j + 2][1..] == [lines[j + 1]];
      assert text[p] == text[Start(lines, j)..Start(lines, j + 1) + |lines[j + 1]|][p - Start(lines, j)];
    }
  }

  // ------------------------------------------------------------ line predicates

  predicate IsBlank(s: string) {
    AllSpace(s)
  }

  /** What follows the indentation, when that is at most three wide. */
  function Indented(s: string): string {
    s[Lead(s)..]
  }

  predicate IsFenceStart(s: string) {
    Lead(s) <= 3 && (StartsWith(Indented(s), "```") || StartsWith(Indented(s), "~~~"))
  }

  predicate IsAtxHeading(s: string) {
    var t := Indented(s);
    var h := Run(t, '#');
    Lead(s) <= 3 && 1 <= h <= 6 && (h == |t| || IsSpace(t[h]))
  }

  predicate IsUnderline(t: string, c: char) {
    Run(t, c) > 0 && IsBlank(t[Run(t, c)..])
  }

  predicate IsSetextUnderline(s: string) {
    Lead(s) <= 3 && (IsUnderline(Indented(s), '=') || IsUnderline(Indented(s), '-'))
  }

  predicate IsRuleOf(t: string, c: char) {
    Occurrences(t, c) >= 3 && t[0] == c && forall i :: 0 <= i < |t| ==> t[i] == c || IsSpace(t[i])
  }

  predicate IsThematicBreak(s: string) {
    var t := Indented(s);
    Lead(s) <= 3 && (IsRuleOf(t, '*') || IsRuleOf(t, '-') || IsRuleOf(t, '_'))
  }

  predicate IsBlockquoteLine(s: string) {
    Lead(s) <= 3 && StartsWith(Indented(s), ">")
  }

  predicate IsListLine(s: string) {
    var t := Indented(s);
    var d := Digits(t);
    Lead(s) <= 3 &&
    ((|t| > 1 && t[0] in {'-', '+', '*'} && IsSpace(t[1]))
     || (1 <= d <= 9 && d + 1 < |t| && t[d] in {'.', ')'} && IsSpace(t[d + 1])))
  }

  predicate IsListContinuation(s: string) {
    IsListLine(s) || (2 <= Lead(s) < |s|)
  }

  /** `\s*\|?.+` and `.+\|?\s*`; the optional bar is one more character of `.+`. */
  predicate TableLeft(s: string) {
    exists k :: 0 <= k <= Lead(s) && k < |s| && NoTerminator(s[k..])
  }

  predicate TableRight(s: string) {
    exists k :: 0 < k <= |s| && NoTerminator(s[..k]) && IsBlank(s[k..])
  }

  predicate IsTableRow(s: string) {
    exists i :: 0 <= i < |s| && s[i] == '|' && TableLeft(s[..i]) && TableRight(s[i + 1..])
  }

  function WithoutColon(s: string): string {
    if StartsWith(s, ":") then s[1..] else s
  }

  /** `\s*:?-{1,}:?\s*` */
  predicate IsDelimiterCell(s: string) {
    var t := WithoutColon(Indented(s));
    Run(t, '-') > 0 && IsBlank(WithoutColon(t[Run(t, '-')..]))
  }

  /** At least two cells between bars, with an optional bar at either end. */
  predicate IsTableDelimiter(s: string) {
    var parts := SplitOn(s, '|');
    var left := if IsBlank(parts[0]) then parts[1..] else parts;
    var cells := if left != [] && IsBlank(left[|left| - 1]) then left[..|left| - 1] else left;
    |cells| >= 2 && forall i :: 0 <= i < |cells| ==> IsDelimiterCell(cells[i])
  }

  predicate IsTableStart(lines: seq<string>, index: nat)
    requires index < |lines|
  {
    index + 1 < |lines| && IsTableRow(lines[index]) && IsTableDelimiter(lines[index + 1])
  }

  predicate StartsNewBlock(lines: seq<string>, index: nat)
    requires index < |lines|
  {
    || IsFenceStart(lines[index])
    || IsTableStart(lines, index)
    || IsListLine(lines[index])
    || IsBlockquoteLine(lines[index])
    || IsAtxHeading(lines[index])
    || IsThematicBreak(lines[index])
  }
}
