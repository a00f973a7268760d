/** What the texts of instants say: date, time and fraction, read back with the
    calendar in closed form. */
module InstantTexts {
  import opened Basics
  import opened Decimals
  import opened Instants
  import opened Numerals
  import opened Splitting

  // ------------------------------------------------------------ the calendar in closed form

  /** Days from the first day of 1970 to the first day of year `y`: 365 a year, and
      one more for each fourth year but the centuries, and for each fourth century. */
  function DaysToYear(y: nat): int
    requires y > 0
  {
    365 * (y - 1970) + ((y - 1) / 4 - 492) - ((y - 1) / 100 - 19) + ((y - 1) / 400 - 4)
  }

  const MONTHS := [0, 31, 59, 90, 120, 151, 181, 212, 243, 273, 304, 334, 365]

  /** Days from the first day of the year to the first day of month `m`. */
  function DaysToMonth(y: nat, m: nat): int
    requires y > 0 && 1 <= m <= 13
  {
    MONTHS[m - 1] + if m > 2 then DaysToYear(y + 1) - DaysToYear(y) - 365 else 0
  }

  function DaysTo(y: nat, m: nat, d: nat): int
    requires y > 0 && 1 <= m <= 12
  {
    DaysToYear(y) + DaysToMonth(y, m) + d - 1
  }

  lemma FourthYears(y: nat)
    requires y > 0
    ensures y / 4 - (y - 1) / 4 == if y % 4 == 0 then 1 else 0
  {
  }

  lemma Centuries(y: nat)
    requires y > 0
    ensures y / 100 - (y - 1) / 100 == if y % 100 == 0 then 1 else 0
  {
  }

  lemma FourthCenturies(y: nat)
    requires y > 0
    ensures y / 400 - (y - 1) / 400 == if y % 400 == 0 then 1 else 0
  {
  }

  lemma Hundreds(q: nat)
    ensures 400 * q % 100 == 0 && 100 * q % 4 == 0
  {
    assert 400 * q == 100 * (4 * q) && 100 * q == 4 * (25 * q);
  }

  lemma Multiples(y: nat)
    ensures y % 400 == 0 ==> y % 100 == 0
    ensures y % 100 == 0 ==> y % 4 == 0
  {
    if y % 400 == 0 {
      assert y == 400 * (y / 400);
      Hundreds(y / 400);
    }
    if y % 100 == 0 {
      assert y == 100 * (y / 100);
      Hundreds(y / 100);
    }
  }

  /** A year has 366 days exactly if it is a leap year. */
  lemma YearLength(y: nat)
    requires y > 0
    ensures DaysToYear(y + 1) - DaysToYear(y) == if Leap(y) then 366 else 365
  {
    FourthYears(y);
    Centuries(y);
    FourthCenturies(y);
    Multiples(y);
  }

  lemma MonthLength(y: nat, m: nat)
    requires y > 0 && 1 <= m <= 12
    ensures DaysToMonth(y, m + 1) - DaysToMonth(y, m) == MonthDays(y, m)
  {
    YearLength(y);
  }

  lemma {:induction false} MonthsFrom(y: nat, m: nat)
    requires y > 0 && 1 <= m <= 13
    ensures DaysFrom(y, m) == DaysToYear(y + 1) - DaysToYear(y) - DaysToMonth(y, m)
    decreases 13 - m
  {
    if m <= 12 {
      MonthLength(y, m);
      MonthsFrom(y, m + 1);
    } else {
      YearLength(y);
    }
  }

  lemma {:induction false} YearOfDay(days: nat, y: nat)
    requires y > 0
    ensures var (year, day) := YearAndDay(days, y);
      && year >= y && day < DaysFrom(year, 1) && days == DaysToYear(year) - DaysToYear(y) + day
    decreases days
  {
    MonthsFrom(y, 1);
    assert DaysFrom(y, 1) >= MonthDays(y, 1);
    if days >= DaysFrom(y, 1) {
      YearOfDay(days - DaysFrom(y, 1), y + 1);
    }
  }

  lemma {:induction false} MonthOfDay(day: nat, y: nat, m: nat)
    requires y > 0 && 1 <= m <= 12 && day < DaysFrom(y, m)
    ensures var (month, d) := MonthAndDay(day, y, m);
      && m <= month <= 12 && 1 <= d <= MonthDays(y, month)
      && day == DaysToMonth(y, month) - DaysToMonth(y, m) + d - 1
    decreases 13 - m
  {
    MonthLength(y, m);
    if day >= MonthDays(y, m) {
      MonthOfDay(day - MonthDays(y, m), y, m + 1);
    }
  }

  // ------------------------------------------------------------ reading a text back

  predicate AllDigits(s: string) {
    forall i :: 0 <= i < |s| ==> IsDigit(s[i])
  }

  /** `yyyy-mm-ddThh:mm:ss`. */
  predicate HasLayout(s: string) {
    && |s| == 19 && s[4] == '-' && s[7] == '-' && s[10] == 'T' && s[13] == ':' && s[16] == ':'
    && AllDigits(s[..4]) && AllDigits(s[5..7]) && AllDigits(s[8..10])
    && AllDigits(s[11..13]) && AllDigits(s[14..16]) && AllDigits(s[17..])
  }

  /** The fields name a day of the calendar and a time of the day. */
  predicate IsDateTime(s: string)
    requires HasLayout(s)
  {
    var y, m, d := Number(s[..4]), Number(s[5..7]), Number(s[8..10]);
    && y > 0 && 1 <= m <= 12 && 1 <= d <= DaysToMonth(y, m + 1) - DaysToMonth(y, m)
    && Number(s[11..13]) < 24 && Number(s[14..16]) < 60 && Number(s[17..]) < 60
  }

  /** The second they denote. */
  function SecondOf(s: string): int
    requires HasLayout(s) && IsDateTime(s)
  {
    86_400 * DaysTo(Number(s[..4]), Number(s[5..7]), Number(s[8..10]))
    + 3600 * Number(s[11..13]) + 60 * Number(s[14..16]) + Number(s[17..])
  }

  lemma Three(a: string, x: string, b: string, y: string, c: string)
    requires |x| == 1 && |y| == 1
    ensures var s := a + (x + (b + (y + c)));
      && |s| == |a| + |b| + |c| + 2 && s[..|a|] == a && s[|a|] == x[0]
      && s[|a| + 1..|a| + 1 + |b|] == b && s[|a| + 1 + |b|] == y[0] && s[|a| + |b| + 2..] == c
  {
  }

  lemma {:induction false} DateDenotes(day: nat)
    requires YearAndDay(day, 1970).0 <= 9999
    ensures var s := DateText(day);
      && |s| == 10 && s[4] == '-' && s[7] == '-'
      && AllDigits(s[..4]) && AllDigits(s[5..7]) && AllDigits(s[8..])
    ensures var s := DateText(day); var y, m, d := Number(s[..4]), Number(s[5..7]), Number(s[8..]);
      && y > 0 && 1 <= m <= 12 && 1 <= d <= DaysToMonth(y, m + 1) - DaysToMonth(y, m)
      && DaysTo(y, m, d) == day
  {
    Pow10Values();
    YearOfDay(day, 1970);
    var (y, ofYear) := YearAndDay(day, 1970);
    MonthOfDay(ofYear, y, 1);
    var (m, d) := MonthAndDay(ofYear, y, 1);
    MonthLength(y, m);
    PadDenotes(y, 4);
    PadDenotes(m, 2);
    PadDenotes(d, 2);
    Three(Pad(y, 4), "-", Pad(m, 2), "-", Pad(d, 2));
  }

  lemma Clock(second: nat)
    ensures second == 86_400 * (second / DAY) + 3600 * (second / 3600 % 24) + 60 * (second / 60 % 60) + second % 60
  {
    assert second / 3600 / 24 == second / DAY;
    assert second / 60 / 60 == second / 3600;
  }

  lemma TimeDenotes(second: nat)
    ensures var s := TimeText(second);
      && |s| == 8 && s[2] == ':' && s[5] == ':'
      && AllDigits(s[..2]) && AllDigits(s[3..5]) && AllDigits(s[6..])
      && Number(s[..2]) == second / 3600 % 24 && Number(s[3..5]) == second / 60 % 60 && Number(s[6..]) == second % 60
  {
    Pow10Values();
    PadDenotes(second / 3600 % 24, 2);
    PadDenotes(second / 60 % 60, 2);
    PadDenotes(second % 60, 2);
    Three(Pad(second / 3600 % 24, 2), ":", Pad(second / 60 % 60, 2), ":", Pad(second % 60, 2));
  }

  lemma Fields(date: string, time: string)
    requires |date| == 10 && |time| == 8
    ensures var s := date + ("T" + time);
      && |s| == 19 && s[4] == date[4] && s[7] == date[7] && s[10] == 'T' && s[13] == time[2] && s[16] == time[5]
      && s[..4] == date[..4] && s[5..7] == date[5..7] && s[8..10] == date[8..]
      && s[11..13] == time[..2] && s[14..16] == time[3..5] && s[17..] == time[6..]
  {
  }

  /** Date and time texts denote the second they were made from, by the calendar in
      closed form. */
  lemma StampDenotes(second: nat)
    requires Year(second) <= 9999
    ensures HasLayout(Stamp(second)) && IsDateTime(Stamp(second)) && SecondOf(Stamp(second)) == second
  {
    DateDenotes(second / DAY);
    TimeDenotes(second);
    Fields(DateText(second / DAY), TimeText(second));
    Clock(second);
  }

  // ------------------------------------------------------------ the fraction

  lemma {:induction false} NumberConcat(a: string, b: string)
    requires AllDigits(a) && AllDigits(b)
    ensures AllDigits(a + b) && Number(a + b) == Number(a) * Pow10(|b|) + Number(b)
    decreases |b|
  {
    if b == "" {
      assert a + b == a;
    } else {
      var n := |b| - 1;
      NumberConcat(a, b[..n]);
      assert (a + b)[..|a + b| - 1] == a + b[..n];
      assert (a + b)[|a + b| - 1] == b[n];
      TenTimes(Number(a), Pow10(n), Number(b[..n]));
    }
  }

  lemma TenTimes(a: nat, p: nat, b: nat)
    ensures 10 * (a * p + b) == a * (10 * p) + 10 * b
  {
    assert 10 * (a * p) == a * (10 * p);
  }

  lemma {:induction false} ZerosDenote(s: string)
    requires forall i :: 0 <= i < |s| ==> s[i] == '0'
    ensures AllDigits(s) && Number(s) == 0
  {
    if s != "" {
      ZerosDenote(s[..|s| - 1]);
    }
  }

  /** A trimmed text is what stands before the trailing zeros. */
  lemma {:induction false} TrimmedZeros(s: string)
    ensures |Trim(s)| <= |s| && Trim(s) == s[..|Trim(s)|]
    ensures forall i :: |Trim(s)| <= i < |s| ==> s[i] == '0'
    ensures Trim(s) != "" ==> Trim(s)[|Trim(s)| - 1] != '0'
  {
    if s != "" {
      TrimmedZeros(s[1..]);
      if Trim(s) != "" {
        assert s[..|Trim(s)|] == [s[0]] + s[1..][..|Trim(s[1..])|];
        assert Trim(s[1..]) != "" ==> Trim(s)[|Trim(s)| - 1] == Trim(s[1..])[|Trim(s[1..])| - 1];
      }
    }
  }

  /** The digits of the fraction denote the nanoseconds and do not end in a zero. */
  lemma FractionDenotes(t: Instant)
    ensures var f := FractionDigits(t);
      && |f| <= 9 && AllDigits(f) && Number(f) * Pow10(9 - |f|) == t % NANOS
      && (f != "" ==> f[|f| - 1] != '0')
  {
    NineDigits();
    var s := Pad(t % NANOS, 9);
    PadDenotes(t % NANOS, 9);
    TrimmedZeros(s);
    var f := Trim(s);
    assert s == f + s[|f|..];
    ZerosDenote(s[|f|..]);
    NumberConcat(f, s[|f|..]);
  }

  /** Reading a text of RFC 3339 in UTC with at most nine digits of a fraction. */
  predicate IsText(s: string) {
    && |s| >= 20 && HasLayout(s[..19]) && IsDateTime(s[..19]) && s[|s| - 1] == 'Z'
    && (|s| > 20 ==> |s| > 21 && s[19] == '.' && |s| <= 30 && AllDigits(s[20..|s| - 1]))
  }

  function FractionOf(s: string): string
    requires IsText(s)
  {
    if |s| == 20 then "" else s[20..|s| - 1]
  }

  function InstantOf(s: string): int
    requires IsText(s)
  {
    SecondOf(s[..19]) * NANOS + Number(FractionOf(s)) * Pow10(9 - |FractionOf(s)|)
  }

  lemma Around(stamp: string, f: string)
    requires |stamp| == 19
    ensures var s := stamp + ("." + (f + "Z"));
      && |s| == 21 + |f| && s[..19] == stamp && s[19] == '.' && s[20..|s| - 1] == f && s[|s| - 1] == 'Z'
  {
  }

  lemma Ends(stamp: string, f: string)
    requires |stamp| == 19
    ensures var s := stamp + Fraction(f);
      && s[..19] == stamp && s[|s| - 1] == 'Z' && |s| == (if f == "" then 20 else 21 + |f|)
      && (f != "" ==> s[19] == '.' && s[20..|s| - 1] == f)
  {
    if f != "" {
      Regroup(".", f, "Z");
      Around(stamp, f);
    }
  }

  lemma WithFraction(stamp: string, f: string)
    requires HasLayout(stamp) && IsDateTime(stamp) && |f| <= 9 && AllDigits(f)
    ensures var s := stamp + Fraction(f); IsText(s) && FractionOf(s) == f && s[..19] == stamp
  {
    Ends(stamp, f);
    Assembled(stamp + Fraction(f), stamp, f);
  }

  lemma Assembled(s: string, stamp: string, f: string)
    requires HasLayout(stamp) && IsDateTime(stamp) && |f| <= 9 && AllDigits(f)
    requires |s| == (if f == "" then 20 else 21 + |f|) && s[..19] == stamp && s[|s| - 1] == 'Z'
    requires f != "" ==> s[19] == '.' && s[20..|s| - 1] == f
    ensures IsText(s) && FractionOf(s) == f
  {
  }

  /** The text of an instant denotes it: reading it back by the rules of RFC 3339
      and of the calendar in closed form gives the instant. */
  lemma FormatDenotes(t: Instant)
    requires Writable(t)
    ensures IsText(Format(t)) && InstantOf(Format(t)) == t
    ensures var f := FractionOf(Format(t)); f != "" ==> f[|f| - 1] != '0'
  {
    StampDenotes(Second(t));
    FractionDenotes(t);
    WithFraction(Stamp(Second(t)), FractionDigits(t));
    DenotesBoth(Format(t), Stamp(Second(t)), FractionDigits(t), t);
  }

  lemma {:induction false} DenotesBoth(s: string, stamp: string, f: string, t: Instant)
    requires IsText(s) && s[..19] == stamp && FractionOf(s) == f && |f| <= 9
    requires HasLayout(stamp) && IsDateTime(stamp) && SecondOf(stamp) == t / NANOS
    requires AllDigits(f) && Number(f) * Pow10(9 - |f|) == t % NANOS
    ensures InstantOf(s) == t
  {
  }
}
