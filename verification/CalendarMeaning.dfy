/** What the calendar's decisions mean, in terms of texts, years and weekdays alone. */
module CalendarMeaning {
  import opened Wrappers
  import opened Decimal
  import opened CivilDate
  import opened Calendar

  // ---------------------------------------------------------------- years

  /** The year is the number of a key, and has four digits itself. */
  ghost predicate InSnapshot(s: Snapshot, year: int)
    requires ValidSnapshot(s)
  {
    year >= 1000 && exists k :: k in s.years && Value(k) == year
  }

  /** A year is covered exactly in that case: a key with a leading zero covers nothing. */
  lemma CoveredMeans(s: Snapshot, year: int)
    requires ValidSnapshot(s)
    ensures Covered(s, year) <==> InSnapshot(s, year)
  {
    if Covered(s, year) {
      PrintThenRead(year);
      FourDigits(Print(year));
    }
    if year >= 1000 && exists k :: k in s.years && Value(k) == year {
      var k :| k in s.years && Value(k) == year;
      FourDigits(k);
      ReadThenPrint(k);
    }
  }

  lemma FourDigits(k: string)
    requires AllDigits(k) && |k| == 4
    ensures Value(k) >= 1000 <==> k[0] != '0'
  {
    LeadingDigit(k);
    assert Pow10(3) == 10 * Pow10(2) && Pow10(2) == 10 * Pow10(1) && Pow10(1) == 10 * Pow10(0);
    hide Value;
    var d := DigitValue(k[0]);
    assert d >= 1 ==> d * 1000 >= 1000;
  }

  lemma {:induction false} LastCoveredIsMax(keys: seq<string>)
    requires keys != [] && forall k :: k in keys ==> AllDigits(k)
    ensures exists k :: k in keys && Value(k) == LastCovered(keys)
    ensures forall k :: k in keys ==> Value(k) <= LastCovered(keys)
  {
    hide Value;
    assert keys == [keys[0]] + keys[1..];
    if |keys| > 1 {
      LastCoveredIsMax(keys[1..]);
      var k :| k in keys[1..] && Value(k) == LastCovered(keys[1..]);
      assert k in keys && keys[0] in keys;
    }
  }

  // ---------------------------------------------------------------- closures

  /** The last date of its year that is no weekend day. */
  ghost predicate LastWeekday(d: Date)
    requires Valid(d)
  {
    !IsWeekend(d) && forall e :: Valid(e) && e.year == d.year && Earlier(d, e) ==> IsWeekend(e)
  }

  lemma YearEndIs(d: Date)
    requires Valid(d)
    ensures d == YearEnd(d.year) <==> LastWeekday(d)
  {
    forall e | Valid(e) && e.year == d.year && Earlier(YearEnd(d.year), e) ensures IsWeekend(e) {
      YearEndIsLastWeekday(d.year, e);
    }
    YearEndIsLastWeekday(d.year, d);
    hide IsWeekend, YearEnd;
  }

  /** Month and day of the holidays of every year. */
  const FIXED: set<string> := {"0101", "0301", "0501", "0505", "0606", "0815", "1003", "1225"}

  predicate Holiday(d: Date)
    requires Valid(d)
  {
    var text := Format(d)[4..];
    text in FIXED || (text == "1009" && d.year >= 2013) || (text == "0717" && d.year >= 2026)
  }

  lemma IsDay(d: Date, month: nat, day: nat)
    requires Valid(d) && month < 100 && day < 100
    ensures Format(d)[4..] == Digits2(month) + Digits2(day) <==> d.month == month && d.day == day
  {
    var f, a, b := Format(d), Digits2(month), Digits2(day);
    ParseFormat(d);
    Value2(a);
    Value2(b);
    assert Value(a) == month && Value(b) == day;
    hide Format, Digits2, Value;
    assert f[4..] == f[4..6] + f[6..];
    if f[4..] == a + b {
      assert f[4..][..2] == f[4..6] && (a + b)[..2] == a;
      assert f[4..][2..] == f[6..] && (a + b)[2..] == b;
    }
    if d.month == month && d.day == day {
      LessIsNumeric(f[4..6], a);
      LessIsNumeric(f[6..], b);
      assert f[4..] == a + b;
    }
  }

  lemma HolidayMeans(d: Date)
    requires Valid(d)
    ensures FixedHoliday(d) <==> Holiday(d)
  {
    IsDay(d, 1, 1);
    IsDay(d, 3, 1);
    IsDay(d, 5, 1);
    IsDay(d, 5, 5);
    IsDay(d, 6, 6);
    IsDay(d, 8, 15);
    IsDay(d, 10, 3);
    IsDay(d, 12, 25);
    IsDay(d, 10, 9);
    IsDay(d, 7, 17);
    DayTexts();
    hide Format, Digits2;
  }

  lemma DayTexts()
    ensures Digits2(1) + Digits2(1) == "0101" && Digits2(3) + Digits2(1) == "0301"
    ensures Digits2(5) + Digits2(1) == "0501" && Digits2(5) + Digits2(5) == "0505"
    ensures Digits2(6) + Digits2(6) == "0606" && Digits2(8) + Digits2(15) == "0815"
    ensures Digits2(10) + Digits2(3) == "1003" && Digits2(12) + Digits2(25) == "1225"
    ensures Digits2(10) + Digits2(9) == "1009" && Digits2(7) + Digits2(17) == "0717"
  {}

  // ---------------------------------------------------------------- selections

  /** Weekend days, listed closures, and in years after all that are covered the fixed
      holidays and the last weekday. */
  ghost predicate Closed(d: Date, s: Snapshot)
    requires Valid(d) && ValidSnapshot(s)
  {
    || IsWeekend(d)
    || (InSnapshot(s, d.year) && Print(d.year) in s.years && Format(d) in s.years[Print(d.year)])
    || (!InSnapshot(s, d.year) && (forall k :: k in s.years ==> Value(k) < d.year) && (Holiday(d) || LastWeekday(d)))
  }

  lemma ClosedMeans(d: Date, s: Snapshot)
    requires Valid(d) && ValidSnapshot(s)
    ensures Classify(d, s).NonTrading? <==> Closed(d, s)
    ensures Classify(d, s).Trading? <==> !Closed(d, s) && InSnapshot(s, d.year)
  {
    CoveredMeans(s, d.year);
    LastCoveredIsMax(s.keys);
    HolidayMeans(d);
    YearEndIs(d);
    hide IsWeekend, Format, Print, Value, FixedHoliday, Holiday, LastWeekday, YearEnd, LastCovered;
    assert d.year > LastCovered(s.keys) <==> forall k :: k in s.years ==> Value(k) < d.year;
  }

  /** Which dates a selection skips, asks for and is unsure about, and in which order. */
  lemma SelectionMeans(dates: seq<Date>, s: Snapshot, d: Date)
    requires ValidSnapshot(s) && (forall e :: e in dates ==> Valid(e)) && Valid(d)
    ensures d in Pick(dates, s, {NonTrading}) <==> d in dates && Closed(d, s)
    ensures d in Pick(dates, s, {Trading, Unknown}) <==> d in dates && !Closed(d, s)
    ensures d in Pick(dates, s, {Unknown}) <==> d in dates && !Closed(d, s) && !InSnapshot(s, d.year)
  {
    InPick(dates, s, {NonTrading}, d);
    InPick(dates, s, {Trading, Unknown}, d);
    InPick(dates, s, {Unknown}, d);
    ClosedMeans(d, s);
    hide Pick, Closed, InSnapshot, Classify;
    var status := Classify(d, s);
    assert status in {NonTrading} <==> status.NonTrading?;
    assert status in {Unknown} <==> status.Unknown?;
    assert status in {Trading, Unknown} <==> !status.NonTrading?;
  }

  lemma InPick(dates: seq<Date>, s: Snapshot, wanted: set<Status>, d: Date)
    requires ValidSnapshot(s) && (forall e :: e in dates ==> Valid(e)) && Valid(d)
    ensures d in Pick(dates, s, wanted) <==> d in dates && Classify(d, s) in wanted
  {
    PickCount(dates, s, wanted, d);
    hide Pick, Classify;
    assert d in multiset(Pick(dates, s, wanted)) <==> d in Pick(dates, s, wanted);
    assert d in multiset(dates) <==> d in dates;
  }

  ghost predicate Rising(dates: seq<Date>) {
    && (forall k :: 0 <= k < |dates| ==> Valid(dates[k]))
    && forall j, k :: 0 <= j < k < |dates| ==> Earlier(dates[j], dates[k])
  }

  /** Each list of a selection is in date order. */
  lemma {:induction false} PickRises(dates: seq<Date>, s: Snapshot, wanted: set<Status>)
    requires ValidSnapshot(s) && (forall d :: d in dates ==> Valid(d)) && Rising(dates)
    ensures Rising(Pick(dates, s, wanted))
    ensures forall d :: d in Pick(dates, s, wanted) ==> d in dates
  {
    hide Classify, Earlier, Valid, ValidSnapshot;
    if dates != [] {
      var head, last := dates[..|dates| - 1], dates[|dates| - 1];
      PickRises(head, s, wanted);
      var kept := Pick(head, s, wanted);
      forall k | 0 <= k < |kept| ensures Earlier(kept[k], last) {
        assert kept[k] in head;
        var j :| 0 <= j < |head| && head[j] == kept[k];
        assert dates[j] == head[j];
      }
    }
  }
}
