/** Which dates trade, which range is asked for, and the latest verified session. */
module Calendar {
  import opened Wrappers
  import opened Decimal
  import opened CivilDate

  datatype Status = Trading | NonTrading | Unknown

  datatype Error = CalendarInvalid | InvalidArgument | InvalidDate

  /** The checked snapshot: closures by year; `keys` lists the covered years. */
  datatype Snapshot = Snapshot(years: map<string, set<string>>, keys: seq<string>)

  /** What `validate_snapshot` leaves to rely on. */
  ghost predicate ValidSnapshot(s: Snapshot) {
    && s.keys != []
    && (forall k :: k in s.keys <==> k in s.years)
    && (forall k :: k in s.keys ==> |k| == 4 && AllDigits(k))
  }

  function LastCovered(keys: seq<string>): int
    requires keys != [] && forall k :: k in keys ==> AllDigits(k)
  {
    if |keys| == 1 then Value(keys[0])
    else
      var rest := LastCovered(keys[1..]);
      if Value(keys[0]) > rest then Value(keys[0]) else rest
  }

  predicate Covered(s: Snapshot, year: int) { year > 0 && Print(year) in s.years }

  // ---------------------------------------------------------------- closures

  /** The loop of `year_end_closure`. */
  method YearEndClosure(year: int) returns (date: Date)
    requires 1 <= year <= MAX_YEAR
    ensures date == YearEnd(year)
  {
    date := Date(year, 12, 31);
    LastDaysDiffer(year);
    while IsWeekend(date)
      invariant date.year == year && date.month == 12 && 29 <= date.day <= 31
      invariant forall day :: date.day < day <= 31 ==> IsWeekend(Date(year, 12, day))
      decreases date.day
    {
      date := Previous(date);
    }
  }

  function YearEnd(year: int): (d: Date)
    requires 1 <= year <= MAX_YEAR
    ensures Valid(d)
  {
    if !IsWeekend(Date(year, 12, 31)) then Date(year, 12, 31)
    else if !IsWeekend(Date(year, 12, 30)) then Date(year, 12, 30)
    else Date(year, 12, 29)
  }

  lemma LastDaysDiffer(year: int)
    ensures DayNumber(Date(year, 12, 30)) == DayNumber(Date(year, 12, 31)) - 1
    ensures DayNumber(Date(year, 12, 29)) == DayNumber(Date(year, 12, 31)) - 2
    ensures !(IsWeekend(Date(year, 12, 31)) && IsWeekend(Date(year, 12, 30)) && IsWeekend(Date(year, 12, 29)))
  {
    assert DayNumber(Date(year, 12, 30)) == DayNumber(Date(year, 12, 31)) - 1;
    assert DayNumber(Date(year, 12, 29)) == DayNumber(Date(year, 12, 31)) - 2;
    hide DayNumber;
    NoThreeInARow(DayNumber(Date(year, 12, 31)));
  }

  lemma NoThreeInARow(n: int)
    ensures (n - 1) % 7 < 5 || (n - 2) % 7 < 5 || (n - 3) % 7 < 5
  {}

  /** The closing session is on the last weekday of the year: a weekday, after which the
      year has only weekend days, at most two of them. */
  lemma YearEndIsLastWeekday(year: int, d: Date)
    requires 1 <= year <= MAX_YEAR && Valid(d) && d.year == year
    ensures YearEnd(year).year == year && YearEnd(year).month == 12 && YearEnd(year).day >= 29
    ensures !IsWeekend(YearEnd(year))
    ensures Earlier(YearEnd(year), d) ==> IsWeekend(d)
  {
    LastDaysDiffer(year);
    hide DayNumber;
  }

  predicate FixedHoliday(d: Date) {
    || (d.month, d.day) in {(1, 1), (3, 1), (5, 1), (5, 5), (6, 6), (8, 15), (10, 3), (12, 25)}
    || (d.year >= 2013 && d.month == 10 && d.day == 9)
    || (d.year >= 2026 && d.month == 7 && d.day == 17)
  }

  /** `fallback_closure`. */
  predicate FallbackClosure(d: Date, lastCovered: int)
    requires Valid(d)
  {
    d.year > lastCovered && (FixedHoliday(d) || d == YearEnd(d.year))
  }

  function Classify(d: Date, s: Snapshot): Status
    requires Valid(d) && ValidSnapshot(s)
  {
    if IsWeekend(d) then NonTrading
    else if Covered(s, d.year) then if Format(d) in s.years[Print(d.year)] then NonTrading else Trading
    else if FallbackClosure(d, LastCovered(s.keys)) then NonTrading
    else Unknown
  }

  /** A date is verified, one way or the other, exactly if its year is covered, it falls on
      a weekend, or it is a fallback closure of a later year; only a weekday of a covered
      year is ever called a trading day. */
  lemma ClassifyMeans(d: Date, s: Snapshot)
    requires Valid(d) && ValidSnapshot(s)
    ensures Classify(d, s).Trading? <==> !IsWeekend(d) && Covered(s, d.year) && Format(d) !in s.years[Print(d.year)]
    ensures Classify(d, s).Unknown? <==>
              (!IsWeekend(d) && !Covered(s, d.year)
               && !(d.year > LastCovered(s.keys) && (FixedHoliday(d) || d == YearEnd(d.year))))
  {}

  // ---------------------------------------------------------------- ranges

  const MAX_DAYS: nat := 10_000

  datatype DateRange = DateRange(from: Date, to: Date)

  /** `DateRange::new` on two accepted date texts. */
  function NewRange(from: string, to: string): Result<DateRange, Error>
    requires Parse(from).Some? && Parse(to).Some?
  {
    if Less(to, from) then Failure(InvalidArgument)
    else if DayNumber(Parse(to).value) - DayNumber(Parse(from).value) >= MAX_DAYS then Failure(InvalidArgument)
    else Success(DateRange(Parse(from).value, Parse(to).value))
  }

  /** Comparing the texts compares the days: a range is accepted exactly if it is between
      one and 10,000 days long. */
  lemma RangeIsChronological(from: string, to: string)
    requires Parse(from).Some? && Parse(to).Some?
    ensures NewRange(from, to).Success? <==>
              1 <= DayNumber(Parse(to).value) - DayNumber(Parse(from).value) + 1 <= 10_000
  {
    TextOrderIsChronological(to, from);
    hide Parse, DayNumber, Less;
  }

  datatype Selection = Selection(requested: seq<Date>, trading: seq<Date>, skipped: seq<Date>,
                                 fallbackYears: set<int>, unverified: seq<Date>)

  function Pick(dates: seq<Date>, s: Snapshot, wanted: set<Status>): seq<Date>
    requires ValidSnapshot(s) && forall d :: d in dates ==> Valid(d)
  {
    if dates == [] then []
    else
      var last := dates[|dates| - 1];
      Pick(dates[..|dates| - 1], s, wanted) + (if Classify(last, s) in wanted then [last] else [])
  }

  function Uncovered(dates: seq<Date>, s: Snapshot): set<int> { set d | d in dates && !Covered(s, d.year) :: d.year }

  /** Every civil date of the range once, in order, split by status. */
  ghost predicate Selects(s: Snapshot, range: DateRange, sel: Selection)
    requires ValidSnapshot(s) && Valid(range.from) && Valid(range.to)
  {
    && Consecutive(range, sel.requested)
    && sel.trading == Pick(sel.requested, s, {Trading, Unknown})
    && sel.skipped == Pick(sel.requested, s, {NonTrading})
    && sel.unverified == Pick(sel.requested, s, {Unknown})
    && sel.fallbackYears == Uncovered(sel.requested, s)
  }

  ghost predicate Consecutive(range: DateRange, dates: seq<Date>)
    requires Valid(range.from) && Valid(range.to)
  {
    && |dates| == DayNumber(range.to) - DayNumber(range.from) + 1
    && forall k :: 0 <= k < |dates| ==> Valid(dates[k]) && DayNumber(dates[k]) == DayNumber(range.from) + k
  }

  /** `select_range`; stepping past the last supported date is an error. */
  method SelectRange(s: Snapshot, range: DateRange) returns (r: Result<Selection, Error>)
    requires ValidSnapshot(s) && Valid(range.from) && Valid(range.to) && !Earlier(range.to, range.from)
    ensures r.Failure? <==> range.to == LAST
    ensures r.Success? ==> Selects(s, range, r.value)
  {
    hide DayNumber, Classify, Covered, ValidSnapshot;
    var current := range.from;
    var requested, trading, skipped, unverified: seq<Date> := [], [], [], [];
    var fallbackYears: set<int> := {};
    OrderIsDayOrder(range.to, current);
    while !Earlier(range.to, current)
      invariant Valid(current) && DayNumber(current) == DayNumber(range.from) + |requested|
      invariant DayNumber(current) <= DayNumber(range.to) + 1
      invariant forall k :: 0 <= k < |requested| ==>
                  Valid(requested[k]) && DayNumber(requested[k]) == DayNumber(range.from) + k
      invariant trading == Pick(requested, s, {Trading, Unknown}) && skipped == Pick(requested, s, {NonTrading})
      invariant unverified == Pick(requested, s, {Unknown}) && fallbackYears == Uncovered(requested, s)
      decreases DayNumber(range.to) - DayNumber(current)
    {
      OrderIsDayOrder(range.to, current);
      if !Covered(s, current.year) { fallbackYears := fallbackYears + {current.year}; }
      assert (requested + [current])[..|requested|] == requested;
      requested := requested + [current];
      match Classify(current, s) {
        case Trading => trading := trading + [current];
        case NonTrading => skipped := skipped + [current];
        case Unknown => unverified := unverified + [current]; trading := trading + [current];
      }
      NextIsOneLater(current);
      OrderIsDayOrder(current, LAST);
      OrderIsDayOrder(range.to, LAST);
      if current == LAST { return Failure(CalendarInvalid); }
      current := Next(current);
    }
    OrderIsDayOrder(range.to, current);
    r := Success(Selection(requested, trading, skipped, fallbackYears, unverified));
  }

  lemma EitherWay(st: Status)
    ensures st in {Trading, Unknown} <==> st !in {NonTrading}
  {}

  /** Each date is kept as often as it was listed, or not at all. */
  lemma {:induction false} PickCount(dates: seq<Date>, s: Snapshot, wanted: set<Status>, d: Date)
    requires ValidSnapshot(s) && Valid(d) && forall e :: e in dates ==> Valid(e)
    ensures multiset(Pick(dates, s, wanted))[d] == (if Classify(d, s) in wanted then multiset(dates)[d] else 0)
  {
    hide Classify;
    if dates != [] {
      var head, last := dates[..|dates| - 1], dates[|dates| - 1];
      PickCount(head, s, wanted, d);
      assert dates == head + [last];
    }
  }

  lemma {:induction false} PickValid(dates: seq<Date>, s: Snapshot, wanted: set<Status>)
    requires ValidSnapshot(s) && forall e :: e in dates ==> Valid(e)
    ensures forall e :: e in Pick(dates, s, wanted) ==> Valid(e)
  {
    hide Classify;
    if dates != [] { PickValid(dates[..|dates| - 1], s, wanted); }
  }

  lemma InOneOfBoth(dates: seq<Date>, s: Snapshot, d: Date)
    requires ValidSnapshot(s) && forall e :: e in dates ==> Valid(e)
    ensures multiset(Pick(dates, s, {Trading, Unknown}))[d] + multiset(Pick(dates, s, {NonTrading}))[d]
            == multiset(dates)[d]
  {
    if Valid(d) {
      PickCount(dates, s, {Trading, Unknown}, d);
      PickCount(dates, s, {NonTrading}, d);
      EitherWay(Classify(d, s));
    } else {
      PickValid(dates, s, {Trading, Unknown});
      PickValid(dates, s, {NonTrading});
      assert d !in Pick(dates, s, {Trading, Unknown}) && d !in Pick(dates, s, {NonTrading}) && d !in dates;
    }
    hide *;
  }

  /** Conservation: each requested date is in exactly one of the two lists. */
  lemma PickSplits(dates: seq<Date>, s: Snapshot)
    requires ValidSnapshot(s) && forall d :: d in dates ==> Valid(d)
    ensures multiset(Pick(dates, s, {Trading, Unknown})) + multiset(Pick(dates, s, {NonTrading})) == multiset(dates)
    ensures |Pick(dates, s, {Trading, Unknown})| + |Pick(dates, s, {NonTrading})| == |dates|
  {
    var asked, left := Pick(dates, s, {Trading, Unknown}), Pick(dates, s, {NonTrading});
    forall d ensures multiset(asked)[d] + multiset(left)[d] == multiset(dates)[d] { InOneOfBoth(dates, s, d); }
    hide *;
    assert multiset(asked) + multiset(left) == multiset(dates);
    assert |multiset(asked) + multiset(left)| == |asked| + |left|;
  }

  function Outside(dates: seq<Date>, s: Snapshot): seq<Date> {
    if dates == [] then []
    else Outside(Front(dates), s) + (if Covered(s, Last(dates).year) then [] else [Last(dates)])
  }

  lemma {:induction false} OutsideOfPick(dates: seq<Date>, s: Snapshot)
    requires ValidSnapshot(s) && forall d :: d in dates ==> Valid(d)
    ensures Pick(dates, s, {Unknown}) == Outside(Pick(dates, s, {Trading, Unknown}), s)
  {
    if dates != [] {
      var head, last := Front(dates), Last(dates);
      OutsideOfPick(head, s);
      ClassifyMeans(last, s);
      var st := Classify(last, s);
      assert st in {Unknown} <==> st.Unknown?;
      assert st in {Trading, Unknown} <==> st.Trading? || st.Unknown?;
      assert head == dates[..|dates| - 1] && last == dates[|dates| - 1];
      hide Classify, Covered, IsWeekend, Format, Print, ValidSnapshot;
      var asked := Pick(head, s, {Trading, Unknown});
      OutsideAppend(asked, last, s);
      if st.NonTrading? {
        assert Pick(dates, s, {Trading, Unknown}) == asked;
        assert Pick(dates, s, {Unknown}) == Pick(head, s, {Unknown});
      } else {
        assert Pick(dates, s, {Trading, Unknown}) == asked + [last];
        assert st.Unknown? <==> !Covered(s, last.year);
      }
    }
  }

  lemma OutsideAppend(dates: seq<Date>, d: Date, s: Snapshot)
    ensures Outside(dates + [d], s) == Outside(dates, s) + (if Covered(s, d.year) then [] else [d])
  {
    hide Covered;
    assert Front(dates + [d]) == dates;
  }

  lemma UncoveredHas(dates: seq<Date>, s: Snapshot, d: Date)
    requires d in dates
    ensures Covered(s, d.year) || d.year in Uncovered(dates, s)
  {}

  lemma AskedIsOpen(dates: seq<Date>, s: Snapshot, d: Date)
    requires ValidSnapshot(s) && (forall e :: e in dates ==> Valid(e)) && Uncovered(dates, s) == {}
    requires d in Pick(dates, s, {Trading, Unknown})
    ensures Valid(d) && !IsWeekend(d) && Covered(s, d.year) && Format(d) !in s.years[Print(d.year)]
  {
    PickValid(dates, s, {Trading, Unknown});
    PickCount(dates, s, {Trading, Unknown}, d);
    assert d in multiset(Pick(dates, s, {Trading, Unknown}));
    assert d in dates && !Classify(d, s).NonTrading?;
    ClassifyMeans(d, s);
    hide Classify, Format, Print, IsWeekend, ValidSnapshot, Pick;
    UncoveredHas(dates, s, d);
  }

  /** The undecided dates are exactly those asked for outside the covered years.  So a
      selection without fallback years has none, and every date it asks for is a weekday
      that the snapshot does not list as closed. */
  lemma UnverifiedAreUncovered(dates: seq<Date>, s: Snapshot)
    requires ValidSnapshot(s) && forall d :: d in dates ==> Valid(d)
    ensures Pick(dates, s, {Unknown}) == Outside(Pick(dates, s, {Trading, Unknown}), s)
    ensures Uncovered(dates, s) == {} ==> Pick(dates, s, {Unknown}) == []
    ensures Uncovered(dates, s) == {} ==> forall d :: d in Pick(dates, s, {Trading, Unknown}) ==>
              Valid(d) && !IsWeekend(d) && Covered(s, d.year) && Format(d) !in s.years[Print(d.year)]
  {
    OutsideOfPick(dates, s);
    if Uncovered(dates, s) == {} {
      forall d | d in Pick(dates, s, {Trading, Unknown})
        ensures Valid(d) && !IsWeekend(d) && Covered(s, d.year) && Format(d) !in s.years[Print(d.year)]
      {
        AskedIsOpen(dates, s, d);
      }
      hide Pick, Format, Print, IsWeekend, Covered;
      NoneOutside(Pick(dates, s, {Trading, Unknown}), s);
    }
  }

  lemma {:induction false} NoneOutside(dates: seq<Date>, s: Snapshot)
    requires forall d :: d in dates ==> Covered(s, d.year)
    ensures Outside(dates, s) == []
  {
    hide Covered;
    if dates != [] { NoneOutside(Front(dates), s); }
  }

  /** The dates `select_range` lists are each civil date of the range, exactly once. */
  lemma EveryDateOnce(range: DateRange, dates: seq<Date>, d: Date)
    requires Valid(range.from) && Valid(range.to) && Valid(d) && !Earlier(range.to, range.from)
    requires Consecutive(range, dates)
    ensures multiset(dates)[d] == (if Earlier(d, range.from) || Earlier(range.to, d) then 0 else 1)
  {
    OrderIsDayOrder(d, range.from);
    OrderIsDayOrder(range.to, d);
    var k := DayNumber(d) - DayNumber(range.from);
    if 0 <= k < |dates| {
      OrderIsDayOrder(dates[k], d);
      OnlyAt(dates, k, range.from);
    } else {
      assert d !in dates;
    }
  }

  lemma OnlyAt(dates: seq<Date>, k: nat, from: Date)
    requires k < |dates| && Valid(from)
    requires forall j :: 0 <= j < |dates| ==> Valid(dates[j]) && DayNumber(dates[j]) == DayNumber(from) + j
    ensures multiset(dates)[dates[k]] == 1
  {
    assert dates == dates[..k] + [dates[k]] + dates[k + 1..];
    assert dates[k] !in dates[..k] && dates[k] !in dates[k + 1..];
  }

  // ---------------------------------------------------------------- the latest session

  datatype Recent = Recent(date: Date, fallbackYears: set<int>, unverified: seq<Date>)

  const LOOK_BACK: nat := 370

  ghost predicate NoneTrades(s: Snapshot, low: int, high: int)
    requires ValidSnapshot(s)
  {
    forall d :: Valid(d) && low <= DayNumber(d) < high ==> !Classify(d, s).Trading?
  }

  /** The list holds exactly the undecided dates from `low` up, latest first. */
  ghost predicate ListsUnknown(s: Snapshot, dates: seq<Date>, low: int, high: int)
    requires ValidSnapshot(s)
  {
    && (forall k :: 0 <= k < |dates| ==>
          Valid(dates[k]) && low <= DayNumber(dates[k]) < high && Classify(dates[k], s).Unknown?)
    && (forall d :: Valid(d) && low <= DayNumber(d) < high && Classify(d, s).Unknown? ==> d in dates)
    && (forall j, k :: 0 <= j < k < |dates| ==> DayNumber(dates[k]) < DayNumber(dates[j]))
  }

  /** Exactly the years of the dates from `low` up that the snapshot does not cover. */
  ghost predicate ListsUncovered(s: Snapshot, years: set<int>, low: int, high: int) {
    && (forall d :: Valid(d) && low <= DayNumber(d) < high && !Covered(s, d.year) ==> d.year in years)
    && (forall y :: y in years ==> exists d :: IsUncovered(s, d, y, low, high))
  }

  ghost predicate IsUncovered(s: Snapshot, d: Date, year: int, low: int, high: int) {
    Valid(d) && low <= DayNumber(d) < high && d.year == year && !Covered(s, year)
  }

  /** `resolve_recent`: the latest verified trading date before today, with the undecided
      dates and the uncovered years passed on the way.  It fails exactly if there is no
      such date within 370 days; the error is that of an invalid date if they reach back
      behind the calendar's first one. */
  method ResolveRecent(s: Snapshot, today: Date) returns (r: Result<Recent, Error>)
    requires ValidSnapshot(s) && Valid(today)
    ensures r.Failure? <==> NoneTrades(s, DayNumber(today) - 370, DayNumber(today))
    ensures r.Failure? ==> r.error == if DayNumber(today) <= 370 then InvalidDate else CalendarInvalid
    ensures r.Success? ==>
              && Valid(r.value.date) && Classify(r.value.date, s).Trading?
              && DayNumber(today) - 370 <= DayNumber(r.value.date) < DayNumber(today)
              && NoneTrades(s, DayNumber(r.value.date) + 1, DayNumber(today))
              && ListsUnknown(s, r.value.unverified, DayNumber(r.value.date) + 1, DayNumber(today))
              && ListsUncovered(s, r.value.fallbackYears, DayNumber(r.value.date), DayNumber(today))
  {
    hide DayNumber, Classify, Covered, ValidSnapshot;
    PreviousIsOneEarlier(today);
    FirstDay();
    ghost var high := DayNumber(today);
    ghost var low := high;
    AtToday(s, high);
    hide NoneTrades, ListsUnknown, ListsUncovered;
    var current := Previous(today);
    var fallbackYears: set<int> := {};
    var unverified: seq<Date> := [];
    for i := 0 to LOOK_BACK
      invariant low == high - i && if Valid(current) then DayNumber(current) == low - 1 else low == 1
      invariant NoneTrades(s, low, high)
      invariant ListsUnknown(s, unverified, low, high)
      invariant ListsUncovered(s, fallbackYears, low, high)
    {
      if !Valid(current) {
        NoneEarlier(s, high - LOOK_BACK, high);
        return Failure(InvalidDate);
      }
      YearsFurther(s, fallbackYears, current, high);
      if !Covered(s, current.year) { fallbackYears := fallbackYears + {current.year}; }
      var status := Classify(current, s);
      if status.Trading? {
        OneTrades(s, current, high - LOOK_BACK, high);
        return Success(Recent(current, fallbackYears, unverified));
      }
      OneFurther(s, unverified, current, high);
      if status.Unknown? { unverified := unverified + [current]; }
      low := DayNumber(current);
      PreviousIsOneEarlier(current);
      current := Previous(current);
    }
    if Valid(current) { NotBeforeFirst(current); }
    r := Failure(CalendarInvalid);
  }

  lemma NotBeforeFirst(d: Date)
    requires Valid(d)
    ensures DayNumber(d) >= 1
  {
    NothingBefore();
    FirstDay();
  }

  lemma FirstDay()
    ensures DayNumber(FIRST) == 1
  {}

  lemma AtToday(s: Snapshot, today: int)
    requires ValidSnapshot(s)
    ensures NoneTrades(s, today, today) && ListsUnknown(s, [], today, today) && ListsUncovered(s, {}, today, today)
  {
    hide DayNumber, Classify, Covered, ValidSnapshot;
  }

  lemma NoneEarlier(s: Snapshot, low: int, high: int)
    requires ValidSnapshot(s) && NoneTrades(s, 1, high)
    ensures NoneTrades(s, low, high)
  {
    NothingBefore();
    FirstDay();
    hide DayNumber, Classify, ValidSnapshot;
  }

  lemma OneTrades(s: Snapshot, d: Date, low: int, high: int)
    requires ValidSnapshot(s) && Valid(d) && low <= DayNumber(d) < high && Classify(d, s).Trading?
    ensures !NoneTrades(s, low, high)
  {
    hide DayNumber, Classify, ValidSnapshot;
  }

  lemma YearsFurther(s: Snapshot, years: set<int>, d: Date, high: int)
    requires Valid(d) && DayNumber(d) < high && ListsUncovered(s, years, DayNumber(d) + 1, high)
    ensures ListsUncovered(s, if Covered(s, d.year) then years else years + {d.year}, DayNumber(d), high)
  {
    hide DayNumber, Covered;
    SameNumberSameDate(d);
    var more := if Covered(s, d.year) then years else years + {d.year};
    forall y | y in more ensures exists e :: IsUncovered(s, e, y, DayNumber(d), high) {
      if y in years {
        var e :| IsUncovered(s, e, y, DayNumber(d) + 1, high);
        assert IsUncovered(s, e, y, DayNumber(d), high);
      } else {
        assert IsUncovered(s, d, y, DayNumber(d), high);
      }
    }
  }

  lemma OneFurther(s: Snapshot, dates: seq<Date>, d: Date, high: int)
    requires ValidSnapshot(s) && Valid(d) && DayNumber(d) < high && !Classify(d, s).Trading?
    requires NoneTrades(s, DayNumber(d) + 1, high) && ListsUnknown(s, dates, DayNumber(d) + 1, high)
    ensures NoneTrades(s, DayNumber(d), high)
    ensures ListsUnknown(s, if Classify(d, s).Unknown? then dates + [d] else dates, DayNumber(d), high)
  {
    hide DayNumber, Classify, ValidSnapshot;
    SameNumberSameDate(d);
    forall e | Valid(e) && DayNumber(d) <= DayNumber(e) < high && Classify(e, s).Unknown?
      ensures e in (if Classify(d, s).Unknown? then dates + [d] else dates)
    {
      if e != d { assert DayNumber(d) < DayNumber(e); assert e in dates; }
    }
  }

  lemma SameNumberSameDate(d: Date)
    requires Valid(d)
    ensures forall e :: Valid(e) && DayNumber(e) == DayNumber(d) ==> e == d
  {
    forall e | Valid(e) && DayNumber(e) == DayNumber(d) ensures e == d { OrderIsDayOrder(d, e); }
  }

  lemma NothingBefore()
    ensures forall d :: Valid(d) ==> DayNumber(d) >= DayNumber(FIRST)
  {
    forall d | Valid(d) ensures DayNumber(d) >= DayNumber(FIRST) { OrderIsDayOrder(d, FIRST); }
  }
}
