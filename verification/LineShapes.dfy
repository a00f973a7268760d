/** What the lines of Markdown look like, each line taken apart into its pieces as
    the source's regular expressions do, and that the line predicates of the
    splitter accept exactly these lines. */
module LineShapes {
  import opened Splitting
  import opened MarkdownLines

  // ------------------------------------------------------------ pieces

  /** `\s`: the white space and line terminators of ECMAScript, by code point. */
  predicate White(c: char) {
    var code := c as int;
    || 0x9 <= code <= 0xD || code == 0x20 || code == 0xA0 || code == 0x1680 || 0x2000 <= code <= 0x200A
    || code == 0x2028 || code == 0x2029 || code == 0x202F || code == 0x205F || code == 0x3000 || code == 0xFEFF
  }

  /** `\s*`. */
  predicate Whites(s: string) {
    forall i :: 0 <= i < |s| ==> White(s[i])
  }

  /** `.+`. */
  predicate Dots(s: string) {
    s != "" && forall i :: 0 <= i < |s| ==> s[i] as int !in {0xA, 0xD, 0x2028, 0x2029}
  }

  predicate AllOf(s: string, c: char) {
    forall i :: 0 <= i < |s| ==> s[i] == c
  }

  /** Up to three characters of white space, the mark, the rest. */
  predicate Opens(s: string, lead: string, mark: string, rest: string) {
    |lead| <= 3 && Whites(lead) && s == lead + (mark + rest)
  }

  // ------------------------------------------------------------ lines

  ghost predicate FenceLine(s: string) {
    exists lead: string, rest: string :: Opens(s, lead, "```", rest) || Opens(s, lead, "~~~", rest)
  }

  ghost predicate QuoteLine(s: string) {
    exists lead: string, rest: string :: Opens(s, lead, ">", rest)
  }

  /** One to six `#`, then white space or the end. */
  ghost predicate AtxLine(s: string) {
    exists lead: string, marks: string, rest: string ::
      Opens(s, lead, marks, rest) && 1 <= |marks| <= 6 && AllOf(marks, '#') && (rest == "" || White(rest[0]))
  }

  /** A bullet, or one to nine digits and a dot or a parenthesis. */
  predicate IsMarker(mark: string) {
    || mark == "-" || mark == "+" || mark == "*"
    || (2 <= |mark| <= 10 && mark[|mark| - 1] in {'.', ')'} && forall i :: 0 <= i < |mark| - 1 ==> '0' <= mark[i] <= '9')
  }

  ghost predicate ItemLine(s: string) {
    exists lead: string, mark: string, rest: string ::
      Opens(s, lead, mark, rest) && IsMarker(mark) && rest != "" && White(rest[0])
  }

  ghost predicate UnderlineLine(s: string) {
    exists lead: string, marks: string, rest: string ::
      Opens(s, lead, marks, rest) && marks != "" && (AllOf(marks, '=') || AllOf(marks, '-')) && Whites(rest)
  }

  /** At least three of one mark, and otherwise only white space. */
  predicate RuleRest(rest: string, c: char) {
    && (forall i :: 0 <= i < |rest| ==> rest[i] == c || White(rest[i]))
    && exists i, j :: 0 <= i < j < |rest| && rest[i] == c && rest[j] == c
  }

  ghost predicate RuleLine(s: string) {
    exists lead: string, c: char, rest: string ::
      Opens(s, lead, [c], rest) && c in {'*', '-', '_'} && RuleRest(rest, c)
  }

  /** An item line, or something after at least two characters of white space. */
  ghost predicate ContinuationLine(s: string) {
    ItemLine(s)
    || exists lead: string, rest: string :: s == lead + rest && |lead| >= 2 && Whites(lead) && rest != "" && !White(rest[0])
  }

  // ------------------------------------------------------------ the predicates accept them

  lemma SpaceIsWhite(c: char)
    ensures IsSpace(c) <==> White(c)
  {
  }

  lemma SpacesAreWhites(s: string)
    ensures AllSpace(s) <==> Whites(s)
  {
    forall i | 0 <= i < |s| ensures IsSpace(s[i]) <==> White(s[i]) {
      SpaceIsWhite(s[i]);
    }
  }

  /** The first characters of a mark that is not white space fix the pieces. */
  lemma {:induction false} OpensLead(s: string, lead: string, mark: string, rest: string)
    requires Whites(lead) && s == lead + (mark + rest) && mark != "" && !White(mark[0])
    ensures Lead(s) == |lead| && Indented(s) == mark + rest
  {
    SpacesAreWhites(lead);
    SpaceIsWhite(mark[0]);
    LeadOf(lead, mark + rest);
    assert s[|lead|..] == mark + rest;
  }

  lemma {:induction false} LeadOf(lead: string, rest: string)
    requires AllSpace(lead) && (rest == "" || !IsSpace(rest[0]))
    ensures Lead(lead + rest) == |lead|
    decreases |lead|
  {
    if lead == "" {
      assert lead + rest == rest;
    } else {
      LeadOf(lead[1..], rest);
      assert (lead + rest)[1..] == lead[1..] + rest;
    }
  }

  /** Any line taken apart after its indentation. */
  lemma {:induction false} Taken(s: string, n: nat)
    requires n <= |Indented(s)|
    ensures var lead, mark, rest := s[..Lead(s)], Indented(s)[..n], Indented(s)[n..];
      Whites(lead) && s == lead + (mark + rest) && |lead| == Lead(s)
  {
    SpacesAreWhites(s[..Lead(s)]);
    assert Indented(s) == Indented(s)[..n] + Indented(s)[n..];
  }

  lemma {:induction false} MarkExact(s: string, mark: string)
    requires mark != "" && !White(mark[0])
    ensures Lead(s) <= 3 && StartsWith(Indented(s), mark) <==> exists lead: string, rest: string :: Opens(s, lead, mark, rest)
  {
    if Lead(s) <= 3 && StartsWith(Indented(s), mark) {
      Taken(s, |mark|);
      assert Indented(s)[..|mark|] == mark;
      assert Opens(s, s[..Lead(s)], mark, Indented(s)[|mark|..]);
    }
    if lead: string, rest: string :| Opens(s, lead, mark, rest) {
      OpensLead(s, lead, mark, rest);
    }
  }

  lemma FenceExact(s: string)
    ensures IsFenceStart(s) <==> FenceLine(s)
  {
    MarkExact(s, "```");
    MarkExact(s, "~~~");
  }

  lemma QuoteExact(s: string)
    ensures IsBlockquoteLine(s) <==> QuoteLine(s)
  {
    MarkExact(s, ">");
  }

  lemma {:induction false} RunOf(marks: string, c: char, rest: string)
    requires AllOf(marks, c) && (rest == "" || rest[0] != c)
    ensures Run(marks + rest, c) == |marks|
    decreases |marks|
  {
    if marks == "" {
      assert marks + rest == rest;
    } else {
      RunOf(marks[1..], c, rest);
      assert (marks + rest)[1..] == marks[1..] + rest;
    }
  }

  lemma AtxTaken(s: string)
    requires IsAtxHeading(s)
    ensures AtxLine(s)
  {
    var t := Indented(s);
    var h := Run(t, '#');
    Taken(s, h);
    if h < |t| {
      SpaceIsWhite(t[h]);
      assert t[h..][0] == t[h];
    }
    AtxHas(s, s[..Lead(s)], t[..h], t[h..]);
  }

  lemma AtxHas(s: string, lead: string, marks: string, rest: string)
    requires Opens(s, lead, marks, rest) && 1 <= |marks| <= 6 && AllOf(marks, '#') && (rest == "" || White(rest[0]))
    ensures AtxLine(s)
  {
  }

  lemma AtxPut(s: string, lead: string, marks: string, rest: string)
    requires Opens(s, lead, marks, rest) && 1 <= |marks| <= 6 && AllOf(marks, '#') && (rest == "" || White(rest[0]))
    ensures IsAtxHeading(s)
  {
    OpensLead(s, lead, marks, rest);
    RunOf(marks, '#', rest);
    if rest != "" {
      SpaceIsWhite(rest[0]);
      assert Indented(s)[|marks|] == rest[0];
    }
  }

  lemma AtxExact(s: string)
    ensures IsAtxHeading(s) <==> AtxLine(s)
  {
    if IsAtxHeading(s) {
      AtxTaken(s);
    }
    if lead: string, marks: string, rest: string :|
       Opens(s, lead, marks, rest) && 1 <= |marks| <= 6 && AllOf(marks, '#') && (rest == "" || White(rest[0])) {
      AtxPut(s, lead, marks, rest);
    }
  }

  lemma {:induction false} UnderlineOf(s: string, c: char)
    requires c == '=' || c == '-'
    ensures Lead(s) <= 3 && IsUnderline(Indented(s), c) <==>
      exists lead: string, marks: string, rest: string ::
        Opens(s, lead, marks, rest) && marks != "" && AllOf(marks, c) && Whites(rest)
  {
    var t := Indented(s);
    var h := Run(t, c);
    if Lead(s) <= 3 && IsUnderline(t, c) {
      Taken(s, h);
      SpacesAreWhites(t[h..]);
      assert Opens(s, s[..Lead(s)], t[..h], t[h..]) && AllOf(t[..h], c);
    }
    if lead: string, marks: string, rest: string :|
       Opens(s, lead, marks, rest) && marks != "" && AllOf(marks, c) && Whites(rest) {
      OpensLead(s, lead, marks, rest);
      RunOf(marks, c, rest);
      SpacesAreWhites(rest);
      assert t[|marks|..] == rest;
    }
  }

  lemma UnderlineExact(s: string)
    ensures IsSetextUnderline(s) <==> UnderlineLine(s)
  {
    UnderlineOf(s, '=');
    UnderlineOf(s, '-');
    if UnderlineLine(s) {
      var lead: string, marks: string, rest: string :|
        Opens(s, lead, marks, rest) && marks != "" && (AllOf(marks, '=') || AllOf(marks, '-')) && Whites(rest);
    }
    if lead: string, marks: string, rest: string :|
       Opens(s, lead, marks, rest) && marks != "" && AllOf(marks, '=') && Whites(rest) {
      assert UnderlineLine(s);
    }
    if lead: string, marks: string, rest: string :|
       Opens(s, lead, marks, rest) && marks != "" && AllOf(marks, '-') && Whites(rest) {
      assert UnderlineLine(s);
    }
  }

  // ------------------------------------------------------------ items and their continuations

  lemma {:induction false} DigitsOf(digits: string, rest: string)
    requires forall i :: 0 <= i < |digits| ==> '0' <= digits[i] <= '9'
    requires rest == "" || !('0' <= rest[0] <= '9')
    ensures Digits(digits + rest) == |digits|
    decreases |digits|
  {
    if digits == "" {
      assert digits + rest == rest;
    } else {
      DigitsOf(digits[1..], rest);
      assert (digits + rest)[1..] == digits[1..] + rest;
    }
  }

  lemma {:induction false} ItemTaken(s: string, n: nat)
    requires Lead(s) <= 3 && n < |Indented(s)| && IsMarker(Indented(s)[..n]) && IsSpace(Indented(s)[n])
    ensures ItemLine(s)
  {
    var t := Indented(s);
    Taken(s, n);
    SpaceIsWhite(t[n]);
    assert t[n..][0] == t[n];
    assert Opens(s, s[..Lead(s)], t[..n], t[n..]);
  }

  lemma ItemPut(s: string, lead: string, mark: string, rest: string)
    requires Opens(s, lead, mark, rest) && IsMarker(mark) && rest != "" && White(rest[0])
    ensures IsListLine(s)
  {
    OpensLead(s, lead, mark, rest);
    SpaceIsWhite(rest[0]);
    var t, n := Indented(s), |mark|;
    assert t[n] == rest[0];
    if n == 1 {
      assert t[0] == mark[0];
    } else {
      var digits, tail := mark[..n - 1], [mark[n - 1]] + rest;
      assert t == digits + tail;
      DigitsOf(digits, tail);
      assert t[n - 1] == mark[n - 1];
    }
  }

  lemma ItemExact(s: string)
    ensures IsListLine(s) <==> ItemLine(s)
  {
    if IsListLine(s) {
      var t := Indented(s);
      var d := Digits(t);
      if 1 <= d <= 9 && d + 1 < |t| && t[d] in {'.', ')'} && IsSpace(t[d + 1]) {
        assert t[..d + 1][d] == t[d];
        ItemTaken(s, d + 1);
      } else {
        assert t[..1] == [t[0]];
        ItemTaken(s, 1);
      }
    }
    if lead: string, mark: string, rest: string :|
       Opens(s, lead, mark, rest) && IsMarker(mark) && rest != "" && White(rest[0]) {
      ItemPut(s, lead, mark, rest);
    }
  }

  lemma ContinuationExact(s: string)
    ensures IsListContinuation(s) <==> ContinuationLine(s)
  {
    ItemExact(s);
    if 2 <= Lead(s) < |s| {
      var lead, rest := s[..Lead(s)], s[Lead(s)..];
      SpacesAreWhites(lead);
      SpaceIsWhite(rest[0]);
      assert s == lead + rest;
    }
    if lead: string, rest: string :| s == lead + rest && |lead| >= 2 && Whites(lead) && rest != "" && !White(rest[0]) {
      SpacesAreWhites(lead);
      SpaceIsWhite(rest[0]);
      LeadOf(lead, rest);
    }
  }

  // ------------------------------------------------------------ rules

  lemma {:induction false} TwoOccur(s: string, c: char)
    ensures Occurrences(s, c) >= 1 <==> exists i :: 0 <= i < |s| && s[i] == c
    ensures Occurrences(s, c) >= 2 <==> exists i, j :: 0 <= i < j < |s| && s[i] == c && s[j] == c
  {
    if s != "" {
      TwoOccur(s[1..], c);
      if i :| 0 <= i < |s[1..]| && s[1..][i] == c {
        assert s[i + 1] == c;
      }
      if i, j :| 0 <= i < j < |s[1..]| && s[1..][i] == c && s[1..][j] == c {
        assert s[i + 1] == c && s[j + 1] == c;
      }
      if i, j :| 0 <= i < j < |s| && s[i] == c && s[j] == c {
        assert s[1..][j - 1] == c;
        assert i > 0 ==> s[1..][i - 1] == c;
      }
      if i :| 0 <= i < |s| && s[i] == c {
        assert i > 0 ==> s[1..][i - 1] == c;
      }
    }
  }

  lemma RuleOfExact(t: string, c: char)
    ensures IsRuleOf(t, c) <==> t != "" && t[0] == c && RuleRest(t[1..], c)
  {
    if t != "" && t[0] == c {
      var rest := t[1..];
      TwoOccur(rest, c);
      assert Occurrences(t, c) == 1 + Occurrences(rest, c);
      forall i | 0 <= i < |t| ensures IsSpace(t[i]) <==> White(t[i]) {
        SpaceIsWhite(t[i]);
      }
      assert forall i :: 0 <= i < |rest| ==> rest[i] == t[i + 1];
      assert forall i :: 0 < i < |t| ==> t[i] == rest[i - 1];
    }
  }

  lemma FirstChar(t: string, c: char)
    requires t != "" && t[0] == c
    ensures t[..1] == [c]
  {
  }

  lemma {:induction false} RuleTaken(s: string, c: char)
    requires Lead(s) <= 3 && IsRuleOf(Indented(s), c) && c in {'*', '-', '_'}
    ensures RuleLine(s)
  {
    var t := Indented(s);
    RuleOfExact(t, c);
    Taken(s, 1);
    FirstChar(t, c);
    RuleHas(s, s[..Lead(s)], c, t[1..]);
  }

  lemma RuleHas(s: string, lead: string, c: char, rest: string)
    requires Opens(s, lead, [c], rest) && c in {'*', '-', '_'} && RuleRest(rest, c)
    ensures RuleLine(s)
  {
  }

  lemma RuleExact(s: string)
    ensures IsThematicBreak(s) <==> RuleLine(s)
  {
    if IsThematicBreak(s) {
      RuleTaken(s, if IsRuleOf(Indented(s), '*') then '*' else if IsRuleOf(Indented(s), '-') then '-' else '_');
    }
    if lead: string, c: char, rest: string :| Opens(s, lead, [c], rest) && c in {'*', '-', '_'} && RuleRest(rest, c) {
      OpensLead(s, lead, [c], rest);
      assert Indented(s)[1..] == rest;
      RuleOfExact(Indented(s), c);
    }
  }

  lemma BlankExact(s: string)
    ensures IsBlank(s) <==> Whites(s)
  {
    SpacesAreWhites(s);
  }
}
