/** Instants and their RFC3339Nano text.

    An instant is a number of nanoseconds since 1970-01-01T00:00:00Z.  Its text
    is the one Go's `time.RFC3339Nano` layout gives in UTC (section 5.1 and 5.6
    of RFC 3339): a date and time of fixed width, then the fraction of the
    second without its trailing zeros, then `Z`.  SQLite compares such texts
    byte by byte; this module proves how far that order is the order of time. */
module Instants {
  import opened Basics
  import opened Decimals

  const NANOS: nat := 1_000_000_000
  const DAY: nat := 86_400

  function Second(t: Instant): nat {
    t / NANOS
  }

  // ------------------------------------------------------------ text order

  /** The byte order of texts. */
  predicate TextLess(a: string, b: string) {
    b != "" && (a == "" || a[0] < b[0] || (a[0] == b[0] && TextLess(a[1..], b[1..])))
  }

  predicate TextLeq(a: string, b: string) {
    a == b || TextLess(a, b)
  }

  lemma {:induction false} TextLessAsymmetric(a: string, b: string)
    requires TextLess(a, b)
    ensures !TextLess(b, a) && a != b
  {
    if a != "" && a[0] == b[0] {
      TextLessAsymmetric(a[1..], b[1..]);
    }
  }

  /** Equal-length heads that differ decide. */
  lemma {:induction false} HeadDecides(a: string, b: string, c: string, d: string)
    requires |a| == |b| && TextLess(a, b)
    ensures TextLess(a + c, b + d)
  {
    assert (a + c)[0] == a[0] && (b + d)[0] == b[0];
    if a[0] == b[0] {
      HeadDecides(a[1..], b[1..], c, d);
      assert (a + c)[1..] == a[1..] + c && (b + d)[1..] == b[1..] + d;
    }
  }

  /** Equal heads leave the decision to the tails. */
  lemma {:induction false} TailDecides(p: string, c: string, d: string)
    requires TextLess(c, d)
    ensures TextLess(p + c, p + d)
  {
    if p == "" {
      assert p + c == c && p + d == d;
    } else {
      TailDecides(p[1..], c, d);
      assert (p + c)[1..] == p[1..] + c && (p + d)[1..] == p[1..] + d;
    }
  }

  // ------------------------------------------------------------ decimal digits

  function Pow10(w: nat): nat {
    if w == 0 then 1 else 10 * Pow10(w - 1)
  }

  /** The last `w` decimal digits of `n`. */
  function Pad(n: nat, w: nat): (s: string)
    ensures |s| == w && forall i :: 0 <= i < w ==> IsDigit(s[i])
  {
    if w == 0 then "" else Pad(n / 10, w - 1) + [Digit(n % 10)]
  }

  lemma {:induction false} PadLess(a: nat, b: nat, w: nat)
    requires a < b < Pow10(w)
    ensures TextLess(Pad(a, w), Pad(b, w))
  {
    if a / 10 < b / 10 {
      PadLess(a / 10, b / 10, w - 1);
      HeadDecides(Pad(a / 10, w - 1), Pad(b / 10, w - 1), [Digit(a % 10)], [Digit(b % 10)]);
    } else {
      assert a / 10 == b / 10 && a % 10 < b % 10;
      assert TextLess([Digit(a % 10)], [Digit(b % 10)]);
      TailDecides(Pad(a / 10, w - 1), [Digit(a % 10)], [Digit(b % 10)]);
    }
  }

  // ------------------------------------------------------------ the calendar

  predicate Leap(y: nat) {
    y % 4 == 0 && (y % 100 != 0 || y % 400 == 0)
  }

  function MonthDays(y: nat, m: nat): (d: nat)
    ensures 28 <= d <= 31
  {
    if m == 2 then (if Leap(y) then 29 else 28)
    else if m in {4, 6, 9, 11} then 30
    else 31
  }

  /** Days from the first of month `m` to the end of the year. */
  function DaysFrom(y: nat, m: nat): nat
    decreases 13 - m
  {
    if m > 12 then 0 else MonthDays(y, m) + DaysFrom(y, m + 1)
  }

  /** The year a day falls in, and which day of that year it is. */
  function YearAndDay(days: nat, y: nat): ((nat, nat))
    decreases days
  {
    if days < DaysFrom(y, 1) then (y, days)
    else (assert DaysFrom(y, 1) >= MonthDays(y, 1); YearAndDay(days - DaysFrom(y, 1), y + 1))
  }

  function MonthAndDay(days: nat, y: nat, m: nat): ((nat, nat))
    requires m <= 12 && days < DaysFrom(y, m)
    decreases 13 - m
  {
    if days < MonthDays(y, m) then (m, days + 1) else MonthAndDay(days - MonthDays(y, m), y, m + 1)
  }

  lemma {:induction false} YearAndDayInYear(days: nat, y: nat)
    ensures var (year, day) := YearAndDay(days, y); day < DaysFrom(year, 1)
    decreases days
  {
    assert DaysFrom(y, 1) >= MonthDays(y, 1);
    if DaysFrom(y, 1) <= days {
      YearAndDayInYear(days - DaysFrom(y, 1), y + 1);
    }
  }

  lemma {:induction false} YearAndDayOrder(a: nat, b: nat, y: nat)
    requires a < b
    ensures var (ya, da) := YearAndDay(a, y); var (yb, db) := YearAndDay(b, y);
      y <= ya && (ya < yb || (ya == yb && da < db))
    decreases a
  {
    var whole := DaysFrom(y, 1);
    assert whole >= MonthDays(y, 1);
    if whole <= a {
      YearAndDayOrder(a - whole, b - whole, y + 1);
    } else if whole <= b {
      YearAndDayFrom(b - whole, y + 1);
    }
  }

  lemma {:induction false} YearAndDayFrom(days: nat, y: nat)
    ensures YearAndDay(days, y).0 >= y
    decreases days
  {
    assert DaysFrom(y, 1) >= MonthDays(y, 1);
    if DaysFrom(y, 1) <= days {
      YearAndDayFrom(days - DaysFrom(y, 1), y + 1);
    }
  }

  lemma {:induction false} MonthAndDayOrder(a: nat, b: nat, y: nat, m: nat)
    requires m <= 12 && a < b < DaysFrom(y, m)
    ensures var (ma, da) := MonthAndDay(a, y, m); var (mb, db) := MonthAndDay(b, y, m);
      && m <= ma <= 12 && m <= mb <= 12 && 1 <= da <= 31 && 1 <= db <= 31
      && (ma < mb || (ma == mb && da < db))
    decreases 13 - m
  {
    var month := MonthDays(y, m);
    if month <= a {
      MonthAndDayOrder(a - month, b - month, y, m + 1);
    } else if month <= b {
      MonthAndDayBounds(b - month, y, m + 1);
    }
  }

  lemma {:induction false} MonthAndDayBounds(days: nat, y: nat, m: nat)
    requires m <= 12 && days < DaysFrom(y, m)
    ensures var (month, day) := MonthAndDay(days, y, m); m <= month <= 12 && 1 <= day <= 31
    decreases 13 - m
  {
    if MonthDays(y, m) <= days {
      MonthAndDayBounds(days - MonthDays(y, m), y, m + 1);
    }
  }

  function Year(second: nat): nat {
    YearAndDay(second / DAY, 1970).0
  }

  /** The layout has four digits for the year. */
  predicate Writable(t: Instant) {
    Year(Second(t)) <= 9999
  }

  lemma WritableBefore(a: Instant, b: Instant)
    requires a <= b && Writable(b)
    ensures Writable(a)
  {
    var da, db := Second(a) / DAY, Second(b) / DAY;
    if da < db {
      YearAndDayOrder(da, db, 1970);
    } else {
      assert da == db;
    }
  }

  // ------------------------------------------------------------ date and time

  function MinuteText(second: nat): string {
    Pad(second / 60 % 60, 2) + (":" + Pad(second % 60, 2))
  }

  function TimeText(second: nat): string {
    Pad(second / 3600 % 24, 2) + (":" + MinuteText(second))
  }

  function DateText(day: nat): string {
    var (y, ofYear) := YearAndDay(day, 1970);
    YearAndDayInYear(day, 1970);
    var (m, d) := MonthAndDay(ofYear, y, 1);
    Pad(y, 4) + ("-" + (Pad(m, 2) + ("-" + Pad(d, 2))))
  }

  function Stamp(second: nat): (s: string)
    ensures |s| == 19
  {
    DateText(second / DAY) + ("T" + TimeText(second))
  }

  /** A field, a separator, the rest: the field decides, or else the rest. */
  lemma {:induction false} FieldDecides(a: nat, b: nat, w: nat, sep: string, c: string, d: string)
    requires a < b < Pow10(w) || (a == b && TextLess(c, d))
    ensures TextLess(Pad(a, w) + (sep + c), Pad(b, w) + (sep + d))
  {
    if a < b {
      PadLess(a, b, w);
      HeadDecides(Pad(a, w), Pad(b, w), sep + c, sep + d);
    } else {
      TailDecides(sep, c, d);
      TailDecides(Pad(a, w), sep + c, sep + d);
    }
  }

  lemma Pow10Values()
    ensures Pow10(2) == 100 && Pow10(4) == 10_000
  {
    assert Pow10(1) == 10;
    assert Pow10(2) == 100;
    assert Pow10(3) == 1000;
  }

  /** Within one day, hour, minute and second are ordered like the seconds. */
  lemma ClockOrder(a: nat, b: nat)
    requires a / DAY == b / DAY && a < b
    ensures var (ha, hb) := (a / 3600 % 24, b / 3600 % 24);
      var (ma, mb) := (a / 60 % 60, b / 60 % 60);
      ha < hb || (ha == hb && (ma < mb || (ma == mb && a % 60 < b % 60)))
  {
    assert a / 3600 <= b / 3600 && a / 60 <= b / 60;
    assert a / 3600 / 24 == a / DAY && b / 3600 / 24 == b / DAY;
    assert a / 60 / 60 == a / 3600 && b / 60 / 60 == b / 3600;
  }

  lemma MinuteTextOrder(a: nat, b: nat)
    requires a / 60 % 60 < b / 60 % 60 || (a / 60 % 60 == b / 60 % 60 && a % 60 < b % 60)
    ensures TextLess(MinuteText(a), MinuteText(b))
  {
    Pow10Values();
    if a / 60 % 60 == b / 60 % 60 {
      PadLess(a % 60, b % 60, 2);
    }
    FieldDecides(a / 60 % 60, b / 60 % 60, 2, ":", Pad(a % 60, 2), Pad(b % 60, 2));
  }

  lemma TimeTextOrder(a: nat, b: nat)
    requires a / DAY == b / DAY && a < b
    ensures TextLess(TimeText(a), TimeText(b))
  {
    Pow10Values();
    ClockOrder(a, b);
    if a / 3600 % 24 == b / 3600 % 24 {
      MinuteTextOrder(a, b);
    }
    FieldDecides(a / 3600 % 24, b / 3600 % 24, 2, ":", MinuteText(a), MinuteText(b));
  }

  lemma {:induction false} DateTextOrder(a: nat, b: nat)
    requires a < b && YearAndDay(b, 1970).0 <= 9999
    ensures TextLess(DateText(a), DateText(b))
  {
    Pow10Values();
    YearAndDayOrder(a, b, 1970);
    YearAndDayInYear(a, 1970);
    YearAndDayInYear(b, 1970);
    var (ya, oa) := YearAndDay(a, 1970);
    var (yb, ob) := YearAndDay(b, 1970);
    var (ma, da) := MonthAndDay(oa, ya, 1);
    var (mb, db) := MonthAndDay(ob, yb, 1);
    if ya == yb {
      MonthAndDayOrder(oa, ob, ya, 1);
      if ma == mb {
        PadLess(da, db, 2);
      }
      FieldDecides(ma, mb, 2, "-", Pad(da, 2), Pad(db, 2));
    }
    FieldDecides(ya, yb, 4, "-", Pad(ma, 2) + ("-" + Pad(da, 2)), Pad(mb, 2) + ("-" + Pad(db, 2)));
  }

  /** Date and time texts are in order of time, over the whole calendar. */
  lemma StampOrder(a: nat, b: nat)
    requires a < b && Year(b) <= 9999
    ensures TextLess(Stamp(a), Stamp(b))
  {
    if a / DAY < b / DAY {
      DateTextOrder(a / DAY, b / DAY);
      HeadDecides(DateText(a / DAY), DateText(b / DAY), "T" + TimeText(a), "T" + TimeText(b));
    } else {
      TimeTextOrder(a, b);
      TailDecides("T", TimeText(a), TimeText(b));
      TailDecides(DateText(a / DAY), "T" + TimeText(a), "T" + TimeText(b));
    }
  }

  // ------------------------------------------------------------ the fraction

  /** A digit text without its trailing zeros. */
  function Trim(s: string): string {
    if s == "" then ""
    else if Trim(s[1..]) == "" && s[0] == '0' then ""
    else [s[0]] + Trim(s[1..])
  }

  function FractionDigits(t: Instant): string {
    Trim(Pad(t % NANOS, 9))
  }

  function Fraction(digits: string): string {
    if digits == "" then "Z" else "." + digits + "Z"
  }

  function Format(t: Instant): string {
    Stamp(Second(t)) + Fraction(FractionDigits(t))
  }

  predicate ProperPrefix(a: string, b: string) {
    |a| < |b| && b[..|a|] == a
  }

  /** Trimmed digit texts followed by `Z` are in the order of the untrimmed
      ones, except that a text sorts after all its own extensions. */
  lemma {:induction false} TrimOrder(a: string, b: string)
    requires |a| == |b| && TextLess(a, b)
    requires forall i :: 0 <= i < |a| ==> IsDigit(a[i]) && IsDigit(b[i])
    ensures Trim(b) != ""
    ensures if ProperPrefix(Trim(a), Trim(b)) then TextLess(Trim(b) + "Z", Trim(a) + "Z")
            else TextLess(Trim(a) + "Z", Trim(b) + "Z")
  {
    var x, y, ta, tb := a[0], b[0], Trim(a), Trim(b);
    if x == y {
      TrimOrder(a[1..], b[1..]);
    }
    assert tb == [y] + Trim(b[1..]) && (tb + "Z")[0] == y;
    if ta == "" {
      assert ta + "Z" == "Z";
      assert y < 'Z';
    } else {
      assert ta == [x] + Trim(a[1..]) && (ta + "Z")[0] == x;
      assert (ta + "Z")[1..] == Trim(a[1..]) + "Z" && (tb + "Z")[1..] == Trim(b[1..]) + "Z";
      if x == y {
        assert ta[1..] == Trim(a[1..]) && tb[1..] == Trim(b[1..]);
        assert ProperPrefix(ta, tb) <==> ProperPrefix(ta[1..], tb[1..]) by {
          if ProperPrefix(ta, tb) {
            assert tb[1..][..|ta| - 1] == tb[..|ta|][1..];
          }
          if ProperPrefix(ta[1..], tb[1..]) {
            assert tb[..|ta|] == [tb[0]] + tb[1..][..|ta| - 1];
          }
        }
      }
    }
  }

  lemma {:induction false} FractionOrder(a: string, b: string)
    requires TextLess(a + "Z", b + "Z")
    requires forall i :: 0 <= i < |a| ==> IsDigit(a[i])
    requires forall i :: 0 <= i < |b| ==> IsDigit(b[i])
    ensures TextLess(Fraction(a), Fraction(b))
  {
    if a != "" && b != "" {
      TailDecides(".", a + "Z", b + "Z");
      assert "." + (a + "Z") == "." + a + "Z" && "." + (b + "Z") == "." + b + "Z";
    } else if a == "" {
      assert a + "Z" == "Z" && TextLess("Z", b + "Z");
    } else {
      assert ("." + a + "Z")[0] == '.';
    }
  }

  lemma {:induction false} TrimDigits(s: string)
    requires forall i :: 0 <= i < |s| ==> IsDigit(s[i])
    ensures forall i :: 0 <= i < |Trim(s)| ==> IsDigit(Trim(s)[i])
  {
    if s != "" {
      TrimDigits(s[1..]);
    }
  }

  // ------------------------------------------------------------ text order and time order

  lemma NineDigits()
    ensures Pow10(9) == NANOS
  {
    assert Pow10(3) == 1000;
    assert Pow10(6) == 1_000_000;
  }

  /** The one way in which the texts of two instants are out of order: same
      second, and the earlier fraction is a proper prefix of the later one. */
  predicate OutOfOrder(earlier: Instant, later: Instant) {
    Second(earlier) == Second(later) && ProperPrefix(FractionDigits(earlier), FractionDigits(later))
  }

  /** Exactly how the text order of two instants relates to their order in time. */
  lemma TextOrderIsTimeOrder(a: Instant, b: Instant)
    requires a < b && Writable(b)
    ensures TextLess(Format(a), Format(b)) <==> !OutOfOrder(a, b)
    ensures TextLess(Format(b), Format(a)) <==> OutOfOrder(a, b)
  {
    var fa, fb := FractionDigits(a), FractionDigits(b);
    if Second(a) < Second(b) {
      StampOrder(Second(a), Second(b));
      HeadDecides(Stamp(Second(a)), Stamp(Second(b)), Fraction(fa), Fraction(fb));
    } else {
      var na, nb := a % NANOS, b % NANOS;
      NineDigits();
      PadLess(na, nb, 9);
      TrimOrder(Pad(na, 9), Pad(nb, 9));
      TrimDigits(Pad(na, 9));
      TrimDigits(Pad(nb, 9));
      if ProperPrefix(fa, fb) {
        FractionOrder(fb, fa);
        TailDecides(Stamp(Second(a)), Fraction(fb), Fraction(fa));
      } else {
        FractionOrder(fa, fb);
        TailDecides(Stamp(Second(a)), Fraction(fa), Fraction(fb));
      }
    }
    if TextLess(Format(a), Format(b)) {
      TextLessAsymmetric(Format(a), Format(b));
    } else {
      TextLessAsymmetric(Format(b), Format(a));
    }
  }

  /** Reading a text back cannot give a different instant. */
  lemma FormatInjective(a: Instant, b: Instant)
    requires Writable(a) && Writable(b) && Format(a) == Format(b)
    ensures a == b
  {
    if a < b {
      TextOrderIsTimeOrder(a, b);
      if TextLess(Format(a), Format(b)) { TextLessAsymmetric(Format(a), Format(b)); }
    } else if b < a {
      TextOrderIsTimeOrder(b, a);
      if TextLess(Format(a), Format(b)) { TextLessAsymmetric(Format(a), Format(b)); }
    }
  }

  /** With equally many fraction digits the text order is the time order. */
  lemma SameWidthInOrder(a: Instant, b: Instant)
    requires Writable(a) && Writable(b) && |FractionDigits(a)| == |FractionDigits(b)|
    ensures TextLess(Format(a), Format(b)) <==> a < b
  {
    if a < b {
      TextOrderIsTimeOrder(a, b);
    } else if b < a {
      TextOrderIsTimeOrder(b, a);
      TextLessAsymmetric(Format(b), Format(a));
    } else if TextLess(Format(a), Format(b)) {
      TextLessAsymmetric(Format(a), Format(b));
    }
  }

  /** The comparison `expires <= now` on texts errs by less than one second in
      either direction, and never across whole seconds. */
  lemma TextLeqWithinASecond(expires: Instant, now: Instant)
    requires Writable(expires) && Writable(now)
    ensures TextLeq(Format(expires), Format(now)) ==> Second(expires) <= Second(now) && expires < now + NANOS
    ensures !TextLeq(Format(expires), Format(now)) ==> Second(now) <= Second(expires) && now < expires + NANOS
    ensures TextLeq(Format(expires), Format(now)) <==>
            expires == now || (expires < now && !OutOfOrder(expires, now)) || (now < expires && OutOfOrder(now, expires))
  {
    if expires < now {
      TextOrderIsTimeOrder(expires, now);
      if Format(expires) == Format(now) { FormatInjective(expires, now); }
    } else if now < expires {
      TextOrderIsTimeOrder(now, expires);
      if Format(expires) == Format(now) { FormatInjective(expires, now); }
    }
  }

  lemma {:induction false} PadZero(w: nat)
    ensures forall i :: 0 <= i < w ==> Pad(0, w)[i] == '0'
  {
    if w > 0 {
      PadZero(w - 1);
    }
  }

  lemma {:induction false} TrimZeros(s: string)
    requires forall i :: 0 <= i < |s| ==> s[i] == '0'
    ensures Trim(s) == ""
  {
    if s != "" {
      TrimZeros(s[1..]);
    }
  }

  /** The exception happens: at a whole second, every later instant of that
      second has a smaller text. */
  lemma WholeSecondOutOfOrder(now: Instant, later: Instant)
    requires now % NANOS == 0 && now < later && Second(now) == Second(later)
    ensures OutOfOrder(now, later)
  {
    PadZero(9);
    TrimZeros(Pad(0, 9));
    NineDigits();
    PadLess(0, later % NANOS, 9);
    TrimOrder(Pad(0, 9), Pad(later % NANOS, 9));
  }
}
