/** Proleptic Gregorian dates and the eight-digit text the SDK carries them in. */
module CivilDate {
  import opened Wrappers
  import opened Decimal

  datatype Date = Date(year: int, month: int, day: int)

  const MAX_YEAR := 9999

  predicate IsLeap(y: int) { y % 4 == 0 && (y % 100 != 0 || y % 400 == 0) }

  function DaysInMonth(y: int, m: int): (n: int)
    requires 1 <= m <= 12
    ensures 28 <= n <= 31
  {
    if m == 2 then (if IsLeap(y) then 29 else 28)
    else if m == 4 || m == 6 || m == 9 || m == 11 then 30
    else 31
  }

  /** Long months are the odd ones before August and the even ones from August on; a
      February is long in years divisible by 4, of the centuries only those by 16. */
  lemma MonthLengths(y: int, m: int)
    requires 1 <= m <= 12
    ensures m != 2 ==> DaysInMonth(y, m) == 30 + (m + m / 8) % 2
    ensures m == 2 ==> DaysInMonth(y, m) == if y % 4 == 0 && (y % 25 != 0 || y % 16 == 0) then 29 else 28
  {
    LeapBy16(y);
    hide IsLeap;
  }

  lemma LeapBy16(y: int)
    ensures IsLeap(y) <==> y % 4 == 0 && (y % 25 != 0 || y % 16 == 0)
  {
    By100(y);
    By400(y);
  }

  lemma By100(y: int)
    ensures y % 100 == 0 <==> y % 4 == 0 && y % 25 == 0
  {
    if y % 100 == 0 { Times100(y / 100); }
    if y % 4 == 0 && y % 25 == 0 { From4And25(y, y / 4, y / 25); }
  }

  lemma Times100(k: int)
    ensures 100 * k % 4 == 0 && 100 * k % 25 == 0
  {
    assert 100 * k == 4 * (25 * k) == 25 * (4 * k);
  }

  lemma From4And25(y: int, a: int, b: int)
    requires y == 4 * a == 25 * b
    ensures y % 100 == 0
  {
    var k := a - 6 * b;
    assert y == 100 * k;
  }

  lemma By400(y: int)
    ensures y % 400 == 0 <==> y % 16 == 0 && y % 25 == 0
  {
    if y % 400 == 0 { Times400(y / 400); }
    if y % 16 == 0 && y % 25 == 0 { From16And25(y, y / 16, y / 25); }
  }

  lemma Times400(k: int)
    ensures 400 * k % 16 == 0 && 400 * k % 25 == 0
  {
    assert 400 * k == 16 * (25 * k) == 25 * (16 * k);
  }

  lemma From16And25(y: int, a: int, b: int)
    requires y == 16 * a == 25 * b
    ensures y % 400 == 0
  {
    var k := 11 * b - 7 * a;
    assert y == 400 * k;
  }

  /** A date whose year is positive and fits four digits. */
  predicate Valid(d: Date) {
    1 <= d.year <= MAX_YEAR && 1 <= d.month <= 12 && 1 <= d.day <= DaysInMonth(d.year, d.month)
  }

  const FIRST := Date(1, 1, 1)
  const LAST := Date(MAX_YEAR, 12, 31)

  function DaysBeforeMonth(y: int, m: int): int
    requires 1 <= m <= 12
    decreases m
  {
    if m == 1 then 0 else DaysBeforeMonth(y, m - 1) + DaysInMonth(y, m - 1)
  }

  function DaysBeforeYear(y: int): int { 365 * (y - 1) + (y - 1) / 4 - (y - 1) / 100 + (y - 1) / 400 }

  /** Days counted from 1 January of year 1, which is day 1 and a Monday. */
  function DayNumber(d: Date): int
    requires 1 <= d.month <= 12
  {
    DaysBeforeYear(d.year) + DaysBeforeMonth(d.year, d.month) + d.day
  }

  predicate Earlier(d: Date, e: Date) {
    d.year < e.year || (d.year == e.year && (d.month < e.month || (d.month == e.month && d.day < e.day)))
  }

  /** `checked_add(1.day())` below the last supported date. */
  function Next(d: Date): Date
    requires Valid(d)
  {
    if d.day < DaysInMonth(d.year, d.month) then d.(day := d.day + 1)
    else if d.month < 12 then Date(d.year, d.month + 1, 1)
    else Date(d.year + 1, 1, 1)
  }

  /** `checked_add(-1.day())`; it may leave year 1 backwards. */
  function Previous(d: Date): Date
    requires Valid(d)
  {
    if d.day > 1 then d.(day := d.day - 1)
    else if d.month > 1 then Date(d.year, d.month - 1, DaysInMonth(d.year, d.month - 1))
    else Date(d.year - 1, 12, 31)
  }

  lemma LeapDays(y: int)
    ensures y / 4 - (y - 1) / 4 == (if y % 4 == 0 then 1 else 0)
    ensures y / 100 - (y - 1) / 100 == (if y % 100 == 0 then 1 else 0)
    ensures y / 400 - (y - 1) / 400 == (if y % 400 == 0 then 1 else 0)
  {}

  lemma YearLength(y: int)
    ensures DaysBeforeYear(y + 1) - DaysBeforeYear(y) == (if IsLeap(y) then 366 else 365)
    ensures DaysBeforeMonth(y, 12) + 31 == (if IsLeap(y) then 366 else 365)
  {
    LeapDays(y);
    MonthSums(y);
    Multiples(y);
    hide DaysBeforeMonth;
    assert DaysBeforeYear(y + 1) == 365 * y + y / 4 - y / 100 + y / 400;
  }

  lemma Multiples(y: int)
    ensures y % 400 == 0 ==> y % 100 == 0
    ensures y % 100 == 0 ==> y % 4 == 0
  {}

  lemma MonthSums(y: int)
    ensures DaysBeforeMonth(y, 12) + 31 == (if IsLeap(y) then 366 else 365)
  {
    assert DaysBeforeMonth(y, 3) == 31 + DaysInMonth(y, 2);
    assert DaysBeforeMonth(y, 6) == DaysBeforeMonth(y, 3) + 31 + 30 + 31;
    assert DaysBeforeMonth(y, 9) == DaysBeforeMonth(y, 6) + 30 + 31 + 31;
    assert DaysBeforeMonth(y, 12) == DaysBeforeMonth(y, 9) + 30 + 31 + 30;
  }

  lemma NextIsOneLater(d: Date)
    requires Valid(d)
    ensures DayNumber(Next(d)) == DayNumber(d) + 1
    ensures d != LAST <==> Valid(Next(d))
  {
    if d.day == DaysInMonth(d.year, d.month) && d.month == 12 {
      YearLength(d.year);
      hide DaysBeforeYear;
      assert DaysBeforeMonth(d.year + 1, 1) == 0;
    } else {
      hide DaysBeforeYear;
    }
  }

  lemma PreviousIsOneEarlier(d: Date)
    requires Valid(d)
    ensures d != FIRST ==> Valid(Previous(d)) && DayNumber(Previous(d)) == DayNumber(d) - 1
    ensures d == FIRST ==> !Valid(Previous(d))
  {
    if d != FIRST {
      assert Next(Previous(d)) == d;
      NextIsOneLater(Previous(d));
    }
  }

  lemma {:induction false} MonthsGrow(y: int, m: int, n: int)
    requires 1 <= m < n <= 12
    ensures DaysBeforeMonth(y, m) + DaysInMonth(y, m) <= DaysBeforeMonth(y, n)
    decreases n
  {
    if m + 1 < n { MonthsGrow(y, m, n - 1); }
  }

  lemma {:induction false} YearsGrow(y: int, z: int)
    requires y < z
    ensures DaysBeforeYear(y) + (if IsLeap(y) then 366 else 365) <= DaysBeforeYear(z)
    decreases z - y
  {
    YearLength(z - 1);
    if y + 1 < z { YearsGrow(y, z - 1); }
  }

  lemma EarlierIsSmaller(d: Date, e: Date)
    requires Valid(d) && Valid(e) && Earlier(d, e)
    ensures DayNumber(d) < DayNumber(e)
  {
    if d.year < e.year {
      YearsGrow(d.year, e.year);
      YearLength(d.year);
      if d.month < 12 { MonthsGrow(d.year, d.month, 12); }
      if 1 < e.month { MonthsGrow(e.year, 1, e.month); }
    } else if d.month < e.month {
      MonthsGrow(d.year, d.month, e.month);
    }
  }

  /** Calendar order, day counting and equality agree. */
  lemma OrderIsDayOrder(d: Date, e: Date)
    requires Valid(d) && Valid(e)
    ensures Earlier(d, e) <==> DayNumber(d) < DayNumber(e)
    ensures d == e <==> DayNumber(d) == DayNumber(e)
  {
    if Earlier(d, e) { EarlierIsSmaller(d, e); } else if Earlier(e, d) { EarlierIsSmaller(e, d); }
  }

  predicate IsWeekend(d: Date)
    requires 1 <= d.month <= 12
  {
    (DayNumber(d) - 1) % 7 >= 5
  }

  /** The weekday count starts right: 1 January 2000 was a Saturday, and the weekend days are
      those that many whole weeks, or whole weeks and a day, away from it. */
  lemma WeekendMeans(d: Date)
    requires 1 <= d.month <= 12
    ensures IsWeekend(d) <==> (DayNumber(d) - DayNumber(Date(2000, 1, 1))) % 7 in {0, 1}
  {
    assert DayNumber(Date(2000, 1, 1)) == 730_120;
    var n := DayNumber(d);
    assert (n - 730_120) % 7 == (n - 6) % 7;
    hide DayNumber;
  }

  // ---------------------------------------------------------------- eight-digit text

  function Digits4(n: nat): (s: string)
    requires n < 10000
    ensures |s| == 4 && AllDigits(s)
  {
    [DigitChar(n / 1000), DigitChar(n / 100 % 10), DigitChar(n / 10 % 10), DigitChar(n % 10)]
  }

  function Digits2(n: nat): (s: string)
    requires n < 100
    ensures |s| == 2 && AllDigits(s)
  {
    [DigitChar(n / 10), DigitChar(n % 10)]
  }

  /** `strftime("%Y%m%d")`. */
  function Format(d: Date): (s: string)
    requires Valid(d)
    ensures |s| == 8 && AllDigits(s)
  {
    Digits4(d.year) + Digits2(d.month) + Digits2(d.day)
  }

  /** `TradingDate::parse`. */
  function Parse(s: string): Option<Date> {
    if |s| == 8 && AllDigits(s) then
      var d := Date(Value(s[..4]), Value(s[4..6]), Value(s[6..]));
      if Valid(d) then Some(d) else None
    else None
  }

  lemma Value2(s: string)
    requires AllDigits(s) && |s| == 2
    ensures Value(s) == 10 * DigitValue(s[0]) + DigitValue(s[1])
  {
    assert s[..1][..0] == [];
    assert Value(s[..1]) == DigitValue(s[0]);
  }

  lemma Value4(s: string)
    requires AllDigits(s) && |s| == 4
    ensures Value(s) == 1000 * DigitValue(s[0]) + 100 * DigitValue(s[1]) + 10 * DigitValue(s[2]) + DigitValue(s[3])
  {
    assert s[..3][..2] == s[..2];
    Value2(s[..2]);
  }

  /** Every supported date has one text and every accepted text is that of its date. */
  lemma TextRoundTrip(d: Date, s: string)
    requires Valid(d)
    ensures Parse(Format(d)) == Some(d)
    ensures Parse(s) == Some(d) ==> s == Format(d)
  {
    ParseFormat(d);
    if Parse(s) == Some(d) {
      var f := Format(d);
      LessIsNumeric(s[..4], f[..4]);
      LessIsNumeric(s[4..6], f[4..6]);
      LessIsNumeric(s[6..], f[6..]);
      assert s == s[..4] + s[4..6] + s[6..] && f == f[..4] + f[4..6] + f[6..];
    }
  }

  lemma DigitsOf(n: nat)
    ensures n == 1000 * (n / 1000) + 100 * (n / 100 % 10) + 10 * (n / 10 % 10) + n % 10
  {
    var a, b, c := n / 10, n / 100, n / 1000;
    assert n == 10 * a + n % 10 && a == 10 * b + a % 10 && b == 10 * c + b % 10;
  }

  lemma Digits4Value(n: nat)
    requires n < 10000
    ensures Value(Digits4(n)) == n
  {
    Value4(Digits4(n));
    DigitsOf(n);
    hide Value;
  }

  lemma ParseFormat(d: Date)
    requires Valid(d)
    ensures var f := Format(d); Value(f[..4]) == d.year && Value(f[4..6]) == d.month && Value(f[6..]) == d.day
    ensures Parse(Format(d)) == Some(d)
  {
    var f := Format(d);
    assert f[..4] == Digits4(d.year) && f[4..6] == Digits2(d.month) && f[6..] == Digits2(d.day);
    Digits4Value(d.year);
    Value2(Digits2(d.month));
    Value2(Digits2(d.day));
  }

  lemma Value8(s: string)
    requires AllDigits(s) && |s| == 8
    ensures Value(s) == 10000 * Value(s[..4]) + 100 * Value(s[4..6]) + Value(s[6..])
  {
    assert s[..7][..6] == s[..6] && s[..6][..5] == s[..5] && s[..5][..4] == s[..4];
    assert Value(s) == 10 * Value(s[..7]) + DigitValue(s[7]);
    assert Value(s[..7]) == 10 * Value(s[..6]) + DigitValue(s[6]);
    assert Value(s[..6]) == 10 * Value(s[..5]) + DigitValue(s[5]);
    assert Value(s[..5]) == 10 * Value(s[..4]) + DigitValue(s[4]);
    Value2(s[4..6]);
    Value2(s[6..]);
  }

  /** The derived string order on trading dates is chronological order. */
  lemma TextOrderIsChronological(s: string, t: string)
    requires Parse(s).Some? && Parse(t).Some?
    ensures Less(s, t) <==> DayNumber(Parse(s).value) < DayNumber(Parse(t).value)
    ensures s == t <==> Parse(s) == Parse(t)
  {
    var d, e := Parse(s).value, Parse(t).value;
    Value8(s);
    Value8(t);
    LessIsNumeric(s, t);
    OrderIsDayOrder(d, e);
    TextRoundTrip(d, s);
    TextRoundTrip(d, t);
  }
}
