/** The date filter and folder name: the Wednesday before today
    (main.py `get_previous_wednesday`), and its `YYYYMMDD` rendering.

    A day is a proleptic Gregorian ordinal as Python's `date.toordinal()`
    counts it: day 1 is 0001-01-01, a Monday. "Today" is a parameter. */
module Wednesday {
  import opened Text


  const Wednesday: int := 2

  /** `date.weekday()`: Monday is 0, Sunday is 6. */
  function Weekday(day: int): (w: int)
    ensures 0 <= w < 7
  {
    (day + 6) % 7
  }

  /** `(weekday - 2) % 7`, with 0 replaced by 7: how many days back the
      previous Wednesday lies. Python's `%` floors and Dafny's is Euclidean;
      with the positive divisor 7 they agree. */
  function DaysBack(weekday: int): (n: int)
    requires 0 <= weekday < 7
    ensures 1 <= n <= 7
    ensures n == 7 <==> weekday == Wednesday
    ensures (weekday - n) % 7 == Wednesday
  {
    var sinceWednesday := (weekday - 2) % 7;
    if sinceWednesday == 0 then 7 else sinceWednesday
  }

  /** The day `get_previous_wednesday` picks: a Wednesday strictly before
      today, the latest such day, which is a full week back when today is
      itself a Wednesday. */
  function PreviousWednesday(today: int): (r: int)
    ensures Weekday(r) == Wednesday
    ensures today - 7 <= r < today
    ensures r == today - 7 <==> Weekday(today) == Wednesday
    ensures forall d :: r < d < today ==> Weekday(d) != Wednesday
  {
    var n := DaysBack(Weekday(today));
    WeekdayBack(today, n);
    forall d | today - n < d < today
      ensures Weekday(d) != Wednesday
    {
      WeekdaysWithinAWeekDiffer(today - n, d);
    }
    today - n
  }

  /** Going `k` days back, for up to a week, takes the weekday back by `k`, modulo 7. */
  lemma WeekdayBack(day: int, k: int)
    requires 0 <= k <= 7
    ensures Weekday(day - k) == (Weekday(day) - k) % 7
  {
    var q, w := (day + 6) / 7, (day + 6) % 7;
    assert day + 6 == 7 * q + w;
    if k <= w {
      assert day - k + 6 == 7 * q + (w - k);
    } else {
      assert day - k + 6 == 7 * (q - 1) + (w - k + 7);
    }
  }

  /** Two different days less than a week apart fall on different weekdays. */
  lemma WeekdaysWithinAWeekDiffer(a: int, b: int)
    requires a < b < a + 7
    ensures Weekday(a) != Weekday(b)
  {
    WeekdayBack(b, b - a);
    assert b - (b - a) == a;
  }

  /** From Thursday to the following Wednesday the answer stays the same. */
  lemma SameWeekSameAnswer(today: int)
    requires Weekday(today) != Wednesday
    ensures PreviousWednesday(today + 1) == PreviousWednesday(today)
  {
    var r, r1 := PreviousWednesday(today), PreviousWednesday(today + 1);
    if r < r1 {
      WeekdaysWithinAWeekDiffer(r, r1);
    } else if r1 < r {
      WeekdaysWithinAWeekDiffer(r1, r);
    }
  }

  /** From a Wednesday to the Thursday after it the answer moves on by a
      week, to that Wednesday itself: with SameWeekSameAnswer, the folder
      name changes once a week, on Thursdays. */
  lemma ChangesOnThursday(today: int)
    requires Weekday(today) == Wednesday
    ensures PreviousWednesday(today) == today - 7
    ensures PreviousWednesday(today + 1) == today
  {
  }

  // The `YYYYMMDD` rendering (strftime("%Y%m%d")).

  datatype CivilDate = CivilDate(year: int, month: int, day: int)

  /** Dates this model renders: four-digit years and in-range month and day. */
  predicate Renderable(d: CivilDate)
  {
    1000 <= d.year <= 9999 && 1 <= d.month <= 12 && 1 <= d.day <= 31
  }

  /** The number a string of decimal digits denotes. */
  function DigitsValue(s: string): nat
    requires forall i :: 0 <= i < |s| ==> IsDigit(s[i])
  {
    if s == [] then 0 else 10 * DigitsValue(s[..|s| - 1]) + DigitValue(s[|s| - 1])
  }

  lemma {:induction false} DigitsRoundTrip(n: nat, width: nat)
    requires n < Pow10(width)
    ensures DigitsValue(Digits(n, width)) == n
  {
    if width > 0 {
      var s := Digits(n, width);
      assert s[..|s| - 1] == Digits(n / 10, width - 1);
      DigitsRoundTrip(n / 10, width - 1);
    }
  }

  /** `strftime("%Y%m%d")`: eight decimal digits. */
  function DateStamp(d: CivilDate): (s: string)
    requires Renderable(d)
    ensures |s| == 8
    ensures forall i :: 0 <= i < |s| ==> IsDigit(s[i])
  {
    Digits(d.year, 4) + Digits(d.month, 2) + Digits(d.day, 2)
  }

  /** Reads a stamp back as year, month and day. */
  function ParseStamp(s: string): CivilDate
    requires |s| == 8 && forall i :: 0 <= i < |s| ==> IsDigit(s[i])
  {
    CivilDate(DigitsValue(s[..4]), DigitsValue(s[4..6]), DigitsValue(s[6..]))
  }

  /** The stamp determines the date: rendering then reading gives the date back. */
  lemma StampRoundTrip(d: CivilDate)
    requires Renderable(d)
    ensures ParseStamp(DateStamp(d)) == d
  {
    var s := DateStamp(d);
    assert s[..4] == Digits(d.year, 4);
    assert s[4..6] == Digits(d.month, 2);
    assert s[6..] == Digits(d.day, 2);
    DigitsRoundTrip(d.year, 4);
    DigitsRoundTrip(d.month, 2);
    DigitsRoundTrip(d.day, 2);
  }

  /** Different dates give different stamps, so no two days share a folder. */
  lemma StampInjective(d1: CivilDate, d2: CivilDate)
    requires Renderable(d1) && Renderable(d2) && d1 != d2
    ensures DateStamp(d1) != DateStamp(d2)
  {
    StampRoundTrip(d1);
    StampRoundTrip(d2);
  }
}
