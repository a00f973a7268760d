/** `computeChanges`: one replacement that turns the old text into the new one. */
module TextDiff {

  /** Replace `old[from..to]` by `insert`. */
  datatype Change = Change(from: nat, to: nat, insert: string)

  predicate Fits(c: Change, text: string) {
    c.from <= c.to <= |text|
  }

  function Apply(c: Change, text: string): string
    requires Fits(c, text)
  {
    text[..c.from] + c.insert + text[c.to..]
  }

  function ApplyAll(cs: seq<Change>, text: string): string
    requires |cs| <= 1 && forall c :: c in cs ==> Fits(c, text)
  {
    if cs == [] then text else Apply(cs[0], text)
  }

  predicate SamePrefix(a: string, b: string, n: nat) {
    n <= |a| && n <= |b| && a[..n] == b[..n]
  }

  predicate SameSuffix(a: string, b: string, n: nat) {
    n <= |a| && n <= |b| && a[|a| - n..] == b[|b| - n..]
  }

  /** A replacement that turns `before` into `after`. */
  predicate Turns(c: Change, before: string, after: string) {
    Fits(c, before) && Apply(c, before) == after
  }

  /** It does so, and no other replacement that does deletes or inserts fewer characters. */
  ghost predicate Minimal(c: Change, before: string, after: string) {
    && Turns(c, before, after)
    && forall other: Change :: Turns(other, before, after) ==>
         c.to - c.from <= other.to - other.from && |c.insert| <= |other.insert|
  }

  /** No change when the texts are equal, else one minimal replacement. */
  method ComputeChanges(before: string, after: string) returns (cs: seq<Change>)
    ensures if before == after then cs == [] else |cs| == 1 && Minimal(cs[0], before, after)
    ensures (forall c :: c in cs ==> Fits(c, before)) && ApplyAll(cs, before) == after
  {
    var prefix := 0;
    var minLen := if |before| < |after| then |before| else |after|;
    while prefix < minLen && before[prefix] == after[prefix]
      invariant prefix <= minLen && SamePrefix(before, after, prefix)
    {
      prefix := prefix + 1;
    }
    if prefix == |before| && prefix == |after| {
      return [];
    }
    var suffix := CommonSuffix(before, after, minLen - prefix);
    EditIsCorrect(before, after, prefix, suffix);
    var c := Change(prefix, |before| - suffix, after[prefix..|after| - suffix]);
    forall other: Change | Turns(other, before, after)
      ensures c.to - c.from <= other.to - other.from && |c.insert| <= |other.insert|
    {
      EditIsMinimal(before, after, prefix, suffix, other);
    }
    return [c];
  }

  /** The longest common suffix of at most `limit` characters. */
  method CommonSuffix(before: string, after: string, limit: nat) returns (suffix: nat)
    requires limit <= |before| && limit <= |after|
    ensures suffix <= limit && SameSuffix(before, after, suffix)
    ensures suffix < limit ==> before[|before| - 1 - suffix] != after[|after| - 1 - suffix]
  {
    suffix := 0;
    while suffix < limit && before[|before| - 1 - suffix] == after[|after| - 1 - suffix]
      invariant suffix <= limit && SameSuffix(before, after, suffix)
    {
      suffix := suffix + 1;
    }
  }

  lemma EditIsCorrect(before: string, after: string, prefix: nat, suffix: nat)
    requires SamePrefix(before, after, prefix) && SameSuffix(before, after, suffix)
    requires prefix + suffix <= |before| && prefix + suffix <= |after|
    ensures Turns(Change(prefix, |before| - suffix, after[prefix..|after| - suffix]), before, after)
  {
  }

  /** Whoever keeps more in front and behind would keep two characters that differ. */
  lemma EditIsMinimal(before: string, after: string, prefix: nat, suffix: nat, other: Change)
    requires prefix + suffix <= |before| && prefix + suffix <= |after|
    requires prefix < |before| && prefix < |after| ==> before[prefix] != after[prefix]
    requires prefix + suffix < |before| && prefix + suffix < |after| ==>
      before[|before| - 1 - suffix] != after[|after| - 1 - suffix]
    requires Turns(other, before, after)
    ensures |before| - suffix - prefix <= other.to - other.from
    ensures |after| - suffix - prefix <= |other.insert|
  {
    var kept := |before| - other.to;
    assert |after| == other.from + |other.insert| + kept;
    assert forall i :: 0 <= i < other.from ==> after[i] == before[i];
    assert forall i :: |after| - kept <= i < |after| ==> after[i] == before[i - |after| + |before|];
  }
}
