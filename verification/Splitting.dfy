/** Cutting a text at a separator and joining the parts again. */
module Splitting {

  predicate StartsWith(s: string, p: string) {
    |p| <= |s| && forall i :: 0 <= i < |p| ==> s[i] == p[i]
  }

  function SplitOn(s: string, c: char): (parts: seq<string>)
    ensures |parts| > 0
  {
    if s == "" then [""]
    else
      var rest := SplitOn(s[1..], c);
      if s[0] == c then [""] + rest else [[s[0]] + rest[0]] + rest[1..]
  }

  function Join(parts: seq<string>, c: char): string
    requires |parts| > 0
  {
    if |parts| == 1 then parts[0] else parts[0] + [c] + Join(parts[1..], c)
  }

  lemma Regroup<T>(a: seq<T>, b: seq<T>, c: seq<T>)
    ensures (a + b) + c == a + (b + c)
  {
  }

  predicate Without(s: string, c: char) {
    forall i :: 0 <= i < |s| ==> s[i] != c
  }

  predicate AllWithout(parts: seq<string>, c: char) {
    forall i :: 0 <= i < |parts| ==> Without(parts[i], c)
  }

  lemma {:induction false} JoinSplit(s: string, c: char)
    ensures Join(SplitOn(s, c), c) == s && AllWithout(SplitOn(s, c), c)
  {
    if s != "" {
      JoinSplit(s[1..], c);
      var rest := SplitOn(s[1..], c);
      if s[0] == c {
        assert ([""] + rest)[1..] == rest;
      } else if |rest| > 1 {
        assert ([[s[0]] + rest[0]] + rest[1..])[1..] == rest[1..];
      }
    }
  }

  lemma {:induction false} SplitConcat(a: string, b: string, c: char)
    ensures SplitOn(a + [c] + b, c) == SplitOn(a, c) + SplitOn(b, c)
    decreases |a|
  {
    var whole := a + [c] + b;
    if a == "" {
      assert whole[1..] == b && whole[0] == c;
    } else {
      SplitConcat(a[1..], b, c);
      assert whole[0] == a[0] && whole[1..] == a[1..] + [c] + b;
      PrefixParts(a[0], SplitOn(a[1..], c), SplitOn(b, c));
    }
  }

  lemma PrefixParts(first: char, a: seq<string>, b: seq<string>)
    requires |a| > 0
    ensures [[first] + (a + b)[0]] + (a + b)[1..] == [[first] + a[0]] + a[1..] + b
    ensures [""] + (a + b) == [""] + a + b
  {
    assert (a + b)[1..] == a[1..] + b;
  }

  lemma {:induction false} SplitWithout(s: string, c: char)
    requires Without(s, c)
    ensures SplitOn(s, c) == [s]
  {
    if s != "" {
      SplitWithout(s[1..], c);
      assert s == [s[0]] + s[1..];
    }
  }

  lemma {:induction false} SplitJoin(parts: seq<string>, c: char)
    requires |parts| > 0 && AllWithout(parts, c)
    ensures SplitOn(Join(parts, c), c) == parts
  {
    SplitWithout(parts[0], c);
    if |parts| > 1 {
      SplitJoin(parts[1..], c);
      SplitConcat(parts[0], Join(parts[1..], c), c);
    }
  }
}
