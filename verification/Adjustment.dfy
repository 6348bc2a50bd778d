/**
  Backward price adjustment.  A row's reference price is the close it is compared with;
  where that differs from the previous close the whole earlier history is rescaled.
  Every refusal of a row carries the same error code, so the order of the checks is
  not observable here.
*/
module Adjustment {
  import opened Wrappers
  import opened Decimal
  import opened Rational
  import CivilDate
  import PriceText

  type Row = map<string, string>

  datatype Failed = Incomplete | Inconsistent

  datatype Parsed = Parsed(row: Row, date: string, name: string, market: string, close: nat, reference: nat,
                           open: nat, high: nat, low: nat, volume: Option<nat>, shares: Option<nat>)

  datatype Transition = Transition(date: string, previousClose: nat, previousDate: string, ratio: Ratio, reference: nat)

  datatype Adjusted = Adjusted(rows: seq<Row>, asOf: string, transitions: seq<Transition>)

  // ---------------------------------------------------------------- rounding

  /** `rounded_product`. */
  function RoundedProduct(value: nat, f: Ratio): nat
    requires f.den > 0
  {
    if value == 0 then 0 else (value * f.num + f.den / 2) / f.den
  }

  /** `rounded_signed_ratio`: halves go away from zero. */
  function RoundedSigned(n: int, d: nat): int
    requires d > 0
  {
    if n < 0 then -((-n + d / 2) / d) else (n + d / 2) / d
  }

  /** Nearest integer, halves away from zero, for either sign. */
  lemma SignedNearest(n: int, d: nat)
    requires d > 0
    ensures RoundedSigned(-n, d) == -RoundedSigned(n, d)
    ensures n >= 0 ==> 2 * (d * RoundedSigned(n, d)) <= 2 * n + d && 2 * n < 2 * (d * RoundedSigned(n, d)) + d
  {
    if n >= 0 { DivisionBounds(n + d / 2, d); }
  }

  lemma DivisionBounds(n: nat, d: nat)
    requires d > 0
    ensures d * (n / d) <= n < d * (n / d) + d
  {}

  /** The nearest integer, the upper one when two are equally near. */
  lemma NearestHalfUp(value: nat, f: Ratio)
    requires f.den > 0
    ensures 2 * (f.den * RoundedProduct(value, f)) <= 2 * (value * f.num) + f.den
    ensures 2 * (value * f.num) < 2 * (f.den * RoundedProduct(value, f)) + f.den
  {
    DivisionBounds(value * f.num + f.den / 2, f.den);
  }

  lemma QuotientGrows(m: nat, n: nat, d: nat)
    requires d > 0 && m <= n
    ensures m / d <= n / d
  {
    DivisionBounds(m, d);
    DivisionBounds(n, d);
    if m / d > n / d { Grows(d, m / d - n / d); }
  }

  lemma RoundingGrows(v: nat, w: nat, f: Ratio)
    requires f.den > 0 && v <= w
    ensures RoundedProduct(v, f) <= RoundedProduct(w, f)
  {
    if v > 0 {
      assert v * f.num <= w * f.num;
      QuotientGrows(v * f.num + f.den / 2, w * f.num + f.den / 2, f.den);
    }
  }

  // ---------------------------------------------------------------- rows

  function Get(row: Row, field: string): Option<string> { if field in row then Some(row[field]) else None }

  predicate Named(row: Row, field: string) { field in row && row[field] != "" }

  function Optionally(row: Row, field: string): Result<Option<nat>, PriceText.Error> {
    if field !in row then Success(None)
    else match PriceText.ExactNonnegative(Some(row[field]))
         case Success(n) => Success(Some(n))
         case Failure(e) => Failure(e)
  }

  /** `validate_ohlc`. */
  predicate ValidOhlc(open: nat, high: nat, low: nat, close: nat, volume: Option<nat>) {
    && close > 0
    && if open == 0 || high == 0 || low == 0 then open == high == low == 0 && volume == Some(0)
       else low <= open && low <= close && open <= high && close <= high && low <= high
  }

  /** Prices of a day with trades, or those of a suspended day. */
  lemma OhlcMeans(open: nat, high: nat, low: nat, close: nat, volume: Option<nat>)
    ensures ValidOhlc(open, high, low, close, volume) <==>
              || (0 < low <= open <= high && low <= close <= high)
              || (open == high == low == 0 < close && volume == Some(0))
  {}

  predicate RateAgrees(row: Row, change: int, reference: nat)
    requires reference > 0
  {
    "FLUC_RT" in row ==> PriceText.RateHundredths(row["FLUC_RT"]) == Success(RoundedSigned(change * 10_000, reference))
  }

  predicate CapAgrees(close: nat, shares: Option<nat>, cap: Option<nat>) {
    shares.Some? && cap.Some? ==> close * shares.value == cap.value
  }

  predicate Identified(row: Row, code: string) {
    && "BAS_DD" in row && CivilDate.Parse(row["BAS_DD"]).Some?
    && Named(row, "ISU_CD") && Named(row, "ISU_NM") && Named(row, "MKT_NM") && row["ISU_CD"] == code
  }

  function ParseRow(row: Row, code: string): Result<Parsed, Failed> {
    if !Identified(row, code) then Failure(Inconsistent)
    else
      var close := PriceText.ExactNonnegative(Get(row, "TDD_CLSPRC"));
      var change := PriceText.ExactInteger(Get(row, "CMPPREVDD_PRC"), true);
      if close.Failure? || change.Failure? || close.value - change.value <= 0 then Failure(Inconsistent)
      else
        var reference := close.value - change.value;
        var open := PriceText.ExactNonnegative(Get(row, "TDD_OPNPRC"));
        var high := PriceText.ExactNonnegative(Get(row, "TDD_HGPRC"));
        var low := PriceText.ExactNonnegative(Get(row, "TDD_LWPRC"));
        var volume := Optionally(row, "ACC_TRDVOL");
        var shares := Optionally(row, "LIST_SHRS");
        var cap := Optionally(row, "MKTCAP");
        if !RateAgrees(row, change.value, reference) || open.Failure? || high.Failure? || low.Failure?
           || volume.Failure? || shares.Failure? || cap.Failure?
           || !ValidOhlc(open.value, high.value, low.value, close.value, volume.value)
           || !CapAgrees(close.value, shares.value, cap.value) then Failure(Inconsistent)
        else Success(Parsed(row, row["BAS_DD"], row["ISU_NM"], row["MKT_NM"], close.value, reference,
                            open.value, high.value, low.value, volume.value, shares.value))
  }

  /** A number field that may be missing. */
  predicate Holds(row: Row, field: string, value: Option<nat>) {
    if field in row then value.Some? && PriceText.ExactNonnegative(Some(row[field])) == Success(value.value)
    else value.None?
  }

  predicate HoldsPrice(row: Row, field: string, value: nat) {
    field in row && PriceText.ExactNonnegative(Some(row[field])) == Success(value)
  }

  /** The row of security `code` with these numbers, which agree with each other. */
  predicate Describes(row: Row, code: string, p: Parsed, change: int, cap: Option<nat>) {
    && p.row == row
    && "BAS_DD" in row && row["BAS_DD"] == p.date && CivilDate.Parse(p.date).Some?
    && "ISU_CD" in row && row["ISU_CD"] == code != ""
    && "ISU_NM" in row && row["ISU_NM"] == p.name != ""
    && "MKT_NM" in row && row["MKT_NM"] == p.market != ""
    && HoldsPrice(row, "TDD_CLSPRC", p.close) && HoldsPrice(row, "TDD_OPNPRC", p.open)
    && HoldsPrice(row, "TDD_HGPRC", p.high) && HoldsPrice(row, "TDD_LWPRC", p.low)
    && "CMPPREVDD_PRC" in row && PriceText.ExactInteger(Some(row["CMPPREVDD_PRC"]), true) == Success(change)
    && Holds(row, "ACC_TRDVOL", p.volume) && Holds(row, "LIST_SHRS", p.shares) && Holds(row, "MKTCAP", cap)
    && p.reference == p.close - change && p.reference > 0
    && ("FLUC_RT" in row ==>
          PriceText.RateHundredths(row["FLUC_RT"]) == Success(RoundedSigned(change * 10_000, p.reference)))
    && (p.shares.Some? && cap.Some? ==> p.close * p.shares.value == cap.value)
    && (|| (0 < p.low <= p.open <= p.high && p.low <= p.close <= p.high)
        || (p.open == p.high == p.low == 0 < p.close && p.volume == Some(0)))
  }

  lemma DescribedIsParsed(row: Row, code: string, p: Parsed, change: int, cap: Option<nat>)
    requires Describes(row, code, p, change, cap)
    ensures ParseRow(row, code) == Success(p)
  {
    OhlcMeans(p.open, p.high, p.low, p.close, p.volume);
    hide PriceText.ExactNonnegative, PriceText.ExactInteger, PriceText.RateHundredths, CivilDate.Parse, ValidOhlc;
    hide RoundedSigned;
  }

  lemma ParsedIsDescribed(row: Row, code: string) returns (change: int, cap: Option<nat>)
    requires ParseRow(row, code).Success?
    ensures Describes(row, code, ParseRow(row, code).value, change, cap)
  {
    change := PriceText.ExactInteger(Get(row, "CMPPREVDD_PRC"), true).value;
    cap := Optionally(row, "MKTCAP").value;
    var p := ParseRow(row, code).value;
    OhlcMeans(p.open, p.high, p.low, p.close, p.volume);
    MissingIsRefused();
    hide PriceText.ExactNonnegative, PriceText.ExactInteger, PriceText.RateHundredths, CivilDate.Parse, ValidOhlc;
    hide RoundedSigned;
  }

  lemma MissingIsRefused()
    ensures PriceText.ExactNonnegative(None).Failure? && PriceText.ExactInteger(None, true).Failure?
  {}

  /** A row is accepted exactly if its fields describe a day, and is read as that day. */
  lemma ParseRowMeans(row: Row, code: string, p: Parsed)
    ensures ParseRow(row, code) == Success(p) <==> exists change, cap :: Describes(row, code, p, change, cap)
  {
    hide ParseRow, Describes;
    if ParseRow(row, code) == Success(p) { var change, cap := ParsedIsDescribed(row, code); }
    forall change, cap | Describes(row, code, p, change, cap) ensures ParseRow(row, code) == Success(p) {
      DescribedIsParsed(row, code, p, change, cap);
    }
  }

  predicate Good(p: Parsed) {
    && p.close > 0 && p.reference > 0 && ValidOhlc(p.open, p.high, p.low, p.close, p.volume)
    && CivilDate.Parse(p.date).Some? && "BAS_DD" in p.row && p.row["BAS_DD"] == p.date
  }

  lemma ParsedIsGood(row: Row, code: string)
    ensures ParseRow(row, code).Success? ==> Good(ParseRow(row, code).value) && ParseRow(row, code).value.row == row
  {
    hide PriceText.ExactNonnegative, PriceText.ExactInteger, Optionally, RateAgrees, CapAgrees, CivilDate.Parse;
  }

  ghost predicate AllGood(p: seq<Parsed>) { forall k :: 0 <= k < |p| ==> Good(p[k]) }

  // ---------------------------------------------------------------- boundaries

  predicate Moves(previous: Parsed, current: Parsed) { current.reference != previous.close }

  predicate Suspended(p: Parsed) { p.open == p.high == p.low == 0 }

  function Boundary(previous: Parsed, current: Parsed): (r: Ratio)
    requires Good(previous) && Good(current)
    ensures Reduced(r)
  {
    ReduceMeaning(current.reference, previous.close);
    if Moves(previous, current) then Reduce(current.reference, previous.close).value else ONE
  }

  function Distance(x: nat, y: nat): nat { if x >= y then x - y else y - x }

  /** After a suspension a move must be explained by the number of listed shares. */
  predicate Explained(previous: Parsed, current: Parsed)
    requires Good(previous) && Good(current)
  {
    Moves(previous, current) && Suspended(previous) ==>
      && previous.shares.Some? && current.shares.Some?
      && Distance(Boundary(previous, current).num * current.shares.value,
                  Boundary(previous, current).den * previous.shares.value) < Boundary(previous, current).num
  }

  lemma DistanceScales(g: nat, x: nat, y: nat, n: nat)
    requires g > 0
    ensures Distance(g * x, g * y) < g * n <==> Distance(x, y) < n
  {
    var d := Distance(x, y);
    assert Distance(g * x, g * y) == g * d by {
      if x >= y { assert g * x - g * y == g * (x - y) >= 0; } else { assert g * y - g * x == g * (y - x) > 0; }
    }
    if d < n { Grows(g, n - d); assert g * (n - d) == g * n - g * d; }
    if d >= n { assert g * (d - n) == g * d - g * n; }
  }

  lemma Regrouped(g: nat, a: nat, b: nat)
    ensures g * a * b == g * (a * b)
  {}

  /** The share check does not depend on the ratio being reduced: it compares, to within
      one share, the new number of shares with the old one rescaled by the price move. */
  lemma ExplainedMeans(previous: Parsed, current: Parsed)
    requires Good(previous) && Good(current) && Moves(previous, current) && Suspended(previous)
    ensures Explained(previous, current) <==>
              (previous.shares.Some? && current.shares.Some?
               && Distance(current.reference * current.shares.value, previous.close * previous.shares.value)
                  < current.reference)
  {
    if previous.shares.Some? && current.shares.Some? {
      CofactorsCoprime(current.reference, previous.close);
      var g := Gcd(current.reference, previous.close);
      var num, den := current.reference / g, previous.close / g;
      assert Boundary(previous, current) == Ratio(num, den);
      Regrouped(g, num, current.shares.value);
      Regrouped(g, den, previous.shares.value);
      DistanceScales(g, num * current.shares.value, den * previous.shares.value, num);
    }
  }

  function TransitionAt(previous: Parsed, current: Parsed): Transition
    requires Good(previous) && Good(current)
  {
    Transition(current.date, previous.close, previous.date, Boundary(previous, current), current.reference)
  }

  function Transitions(p: seq<Parsed>, k: nat): seq<Transition>
    requires AllGood(p) && k <= |p|
  {
    if k <= 1 then []
    else Transitions(p, k - 1) + (if Moves(p[k - 2], p[k - 1]) then [TransitionAt(p[k - 2], p[k - 1])] else [])
  }

  lemma BoundaryMeaning(previous: Parsed, current: Parsed)
    requires Good(previous) && Good(current)
    ensures Boundary(previous, current).num * previous.close == current.reference * Boundary(previous, current).den
    ensures Boundary(previous, current) == ONE <==> !Moves(previous, current)
  {
    ReduceMeaning(current.reference, previous.close);
  }

  // ---------------------------------------------------------------- factors

  function Factor(p: seq<Parsed>, i: nat): (f: Ratio)
    requires AllGood(p) && i < |p|
    ensures Reduced(f)
    decreases |p| - i
  {
    if i == |p| - 1 then ONE
    else
      MultiplyMeaning(Factor(p, i + 1), Boundary(p[i], p[i + 1]));
      Multiply(Factor(p, i + 1), Boundary(p[i], p[i + 1])).value
  }

  /** The product of the closes before each later boundary. */
  function Closes(p: seq<Parsed>, i: nat): nat
    requires i < |p|
    decreases |p| - i
  {
    if i == |p| - 1 then 1 else p[i].close * Closes(p, i + 1)
  }

  function References(p: seq<Parsed>, i: nat): nat
    requires i < |p|
    decreases |p| - i
  {
    if i == |p| - 1 then 1 else p[i + 1].reference * References(p, i + 1)
  }

  lemma CancelRight(x: int, y: int, d: nat)
    requires d > 0 && x * d == y * d
    ensures x == y
  {
    UniqueQuotient(d, x, y, 0);
  }

  lemma Chain(n: nat, d: nat, n': nat, d': nat, bn: nat, bd: nat, close: nat, ref: nat, c: nat, r: nat)
    requires n * (d' * bd) == (n' * bn) * d && bn * close == ref * bd && n' * c == d' * r && d' > 0 && bd > 0
    ensures n * (close * c) == d * (ref * r)
  {
    calc {
      (n * (close * c)) * (d' * bd);
      (n * (d' * bd)) * (close * c);
      ((n' * bn) * d) * (close * c);
      { Shuffle(n', bn, d, close, c); }
      d * ((bn * close) * (n' * c));
      d * ((ref * bd) * (d' * r));
      { Shuffle2(d, ref, bd, d', r); }
      (d * (ref * r)) * (d' * bd);
    }
    Positive(d', bd);
    CancelRight(n * (close * c), d * (ref * r), d' * bd);
  }

  lemma Shuffle(n': nat, bn: nat, d: nat, close: nat, c: nat)
    ensures ((n' * bn) * d) * (close * c) == d * ((bn * close) * (n' * c))
  {
    assert (n' * bn) * (close * c) == (bn * close) * (n' * c);
  }

  lemma Shuffle2(d: nat, ref: nat, bd: nat, d': nat, r: nat)
    ensures d * ((ref * bd) * (d' * r)) == (d * (ref * r)) * (d' * bd)
  {
    assert (ref * bd) * (d' * r) == (ref * r) * (d' * bd);
  }

  /** Each factor is the product of the later boundary ratios, in lowest terms. */
  lemma {:induction false} FactorClosedForm(p: seq<Parsed>, i: nat)
    requires AllGood(p) && i < |p|
    ensures Reduced(Factor(p, i))
    ensures Factor(p, i).num * Closes(p, i) == Factor(p, i).den * References(p, i)
    decreases |p| - i
  {
    if i < |p| - 1 {
      FactorClosedForm(p, i + 1);
      var f, g, b := Factor(p, i), Factor(p, i + 1), Boundary(p[i], p[i + 1]);
      MultiplyMeaning(g, b);
      BoundaryMeaning(p[i], p[i + 1]);
      Chain(f.num, f.den, g.num, g.den, b.num, b.den, p[i].close, p[i + 1].reference,
            Closes(p, i + 1), References(p, i + 1));
    }
  }

  /** Across a boundary the unrounded adjusted close and the adjusted reference price are
      the same number, so each adjusted day return is `close / reference` exactly. */
  lemma ReturnPreserved(p: seq<Parsed>, j: nat)
    requires AllGood(p) && 0 < j < |p|
    ensures Factor(p, j - 1).num * p[j - 1].close * Factor(p, j).den
            == Factor(p, j).num * p[j].reference * Factor(p, j - 1).den
  {
    var f, g, b := Factor(p, j - 1), Factor(p, j), Boundary(p[j - 1], p[j]);
    MultiplyMeaning(g, b);
    BoundaryMeaning(p[j - 1], p[j]);
    Across(f.num, f.den, g.num, g.den, b.num, b.den, p[j - 1].close, p[j].reference);
  }

  lemma Across(n: nat, d: nat, n': nat, d': nat, bn: nat, bd: nat, close: nat, ref: nat)
    requires n * (d' * bd) == (n' * bn) * d && bn * close == ref * bd && bd > 0
    ensures n * close * d' == n' * ref * d
  {
    calc {
      (n * close * d') * bd;
      (n * (d' * bd)) * close;
      ((n' * bn) * d) * close;
      (n' * d) * (bn * close);
      (n' * d) * (ref * bd);
      (n' * ref * d) * bd;
    }
    CancelRight(n * close * d', n' * ref * d, bd);
  }

  // ---------------------------------------------------------------- adjusted rows

  predicate AdjustedOk(p: Parsed, f: Ratio)
    requires f.den > 0
  {
    ValidOhlc(RoundedProduct(p.open, f), RoundedProduct(p.high, f), RoundedProduct(p.low, f),
              RoundedProduct(p.close, f), p.volume)
  }

  function AdjustedRow(p: Parsed, f: Ratio): Row
    requires f.den > 0
  {
    p.row["ADJ_TDD_OPNPRC" := Print(RoundedProduct(p.open, f))]
         ["ADJ_TDD_HGPRC" := Print(RoundedProduct(p.high, f))]
         ["ADJ_TDD_LWPRC" := Print(RoundedProduct(p.low, f))]
         ["ADJ_TDD_CLSPRC" := Print(RoundedProduct(p.close, f))]
         ["ADJ_FACTOR" := Print(f.num) + "/" + Print(f.den)]
  }

  /** Rounding keeps the price order, so the second check rejects a row exactly when a
      price that was positive rounds to zero: the low, or the close of a suspended row. */
  lemma SecondCheck(p: Parsed, f: Ratio)
    requires Good(p) && Reduced(f)
    ensures AdjustedOk(p, f) <==> RoundedProduct(if Suspended(p) then p.close else p.low, f) > 0
  {
    if !Suspended(p) {
      RoundingGrows(p.low, p.open, f);
      RoundingGrows(p.low, p.close, f);
      RoundingGrows(p.open, p.high, f);
      RoundingGrows(p.close, p.high, f);
      RoundingGrows(p.low, p.high, f);
    }
    hide RoundedProduct;
    assert RoundedProduct(0, f) == 0 by { RoundsZero(f); }
  }

  lemma RoundsZero(f: Ratio)
    requires f.den > 0
    ensures RoundedProduct(0, f) == 0
  {}

  predicate AllParse(rows: seq<Row>, code: string) {
    forall k :: 0 <= k < |rows| ==> ParseRow(rows[k], code).Success?
  }

  function ParsedRows(rows: seq<Row>, code: string): (p: seq<Parsed>)
    requires AllParse(rows, code)
    ensures |p| == |rows| && AllGood(p)
    ensures forall k :: 0 <= k < |rows| ==> ParseRow(rows[k], code) == Success(p[k])
  {
    assert forall k :: 0 <= k < |rows| ==> Good(ParseRow(rows[k], code).value) by {
      forall k | 0 <= k < |rows| ensures Good(ParseRow(rows[k], code).value) { ParsedIsGood(rows[k], code); }
    }
    hide Good, ParseRow;
    seq(|rows|, k requires 0 <= k < |rows| => ParseRow(rows[k], code).value)
  }

  predicate OneSecurity(p: seq<Parsed>) {
    forall k :: 0 <= k < |p| ==> p[k].name == p[0].name && p[k].market == p[0].market
  }

  predicate DatesRise(p: seq<Parsed>) { forall k :: 0 < k < |p| ==> Less(p[k - 1].date, p[k].date) }

  ghost predicate AllExplained(p: seq<Parsed>)
    requires AllGood(p)
  {
    forall k :: 0 < k < |p| ==> Explained(p[k - 1], p[k])
  }

  ghost predicate AllAdjustable(p: seq<Parsed>)
    requires AllGood(p)
  {
    forall k :: 0 <= k < |p| ==> AdjustedOk(p[k], Factor(p, k))
  }

  ghost predicate Acceptable(p: seq<Parsed>)
    requires AllGood(p)
  {
    OneSecurity(p) && DatesRise(p) && AllExplained(p) && AllAdjustable(p)
  }

  function AdjustedRows(p: seq<Parsed>): (r: seq<Row>)
    requires AllGood(p)
    ensures |r| == |p| && forall k :: 0 <= k < |p| ==> r[k] == AdjustedRow(p[k], Factor(p, k))
  {
    seq(|p|, k requires 0 <= k < |p| => AdjustedRow(p[k], Factor(p, k)))
  }

  /** What `adjust_stock_rows` computes. */
  ghost function Adjust(rows: seq<Row>, code: string): Result<Adjusted, Failed> {
    if rows == [] then Failure(Incomplete)
    else if !AllParse(rows, code) then Failure(Inconsistent)
    else
      var p := ParsedRows(rows, code);
      if Acceptable(p) then Success(Adjusted(AdjustedRows(p), p[|p| - 1].date, Transitions(p, |p|)))
      else Failure(Inconsistent)
  }
}
