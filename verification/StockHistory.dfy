/** `adjust_stock_rows` as it runs, and what its whole result promises. */
module StockHistory {
  import opened Wrappers
  import opened Decimal
  import opened Rational
  import opened Adjustment
  import CivilDate
  import PriceText

  // ---------------------------------------------------------------- the loops

  lemma TheParsedRows(rows: seq<Row>, code: string, p: seq<Parsed>)
    requires |p| == |rows| && forall k :: 0 <= k < |rows| ==> ParseRow(rows[k], code) == Success(p[k])
    ensures p == ParsedRows(rows, code)
  {
    hide ParseRow, Good;
    var q := ParsedRows(rows, code);
    forall k | 0 <= k < |p| ensures p[k] == q[k] {
      assert ParseRow(rows[k], code) == Success(q[k]);
    }
  }

  method ParseAll(rows: seq<Row>, code: string) returns (r: Result<seq<Parsed>, Failed>)
    ensures r.Success? <==> AllParse(rows, code)
    ensures r.Success? ==> r.value == ParsedRows(rows, code)
    ensures r.Failure? ==> r.error == Inconsistent
  {
    hide ParseRow, Good;
    var parsed: seq<Parsed> := [];
    for i := 0 to |rows|
      invariant |parsed| == i
      invariant forall k :: 0 <= k < i ==> ParseRow(rows[k], code) == Success(parsed[k])
    {
      var one := ParseRow(rows[i], code);
      if one.Failure? {
        RefusedAs(rows[i], code);
        return Failure(one.error);
      }
      parsed := parsed + [one.value];
    }
    TheParsedRows(rows, code, parsed);
    r := Success(parsed);
  }

  lemma RefusedAs(row: Row, code: string)
    ensures ParseRow(row, code).Failure? ==> ParseRow(row, code).error == Inconsistent
  {
    hide PriceText.ExactNonnegative, PriceText.ExactInteger, Optionally, RateAgrees, CapAgrees, ValidOhlc, Identified;
  }

  method CheckIdentity(p: seq<Parsed>) returns (ok: bool)
    requires |p| > 0
    ensures ok <==> OneSecurity(p) && DatesRise(p)
  {
    hide Less;
    for i := 0 to |p|
      invariant forall k :: 0 <= k < i ==> p[k].name == p[0].name && p[k].market == p[0].market
      invariant forall k :: 0 < k < i ==> Less(p[k - 1].date, p[k].date)
    {
      if p[i].name != p[0].name || p[i].market != p[0].market { return false; }
      if i > 0 && !Less(p[i - 1].date, p[i].date) { return false; }
    }
    ok := true;
  }

  /** The body of the boundary loop where the reference price has moved. */
  method CheckMove(previous: Parsed, current: Parsed) returns (ok: bool, ratio: Ratio)
    requires Good(previous) && Good(current) && Moves(previous, current)
    ensures ok <==> Explained(previous, current)
    ensures ok ==> ratio == Boundary(previous, current)
  {
    ReduceMeaning(current.reference, previous.close);
    ratio := Reduce(current.reference, previous.close).value;
    var followsSuspension := previous.open == 0 && previous.high == 0 && previous.low == 0;
    hide Reduce, Gcd;
    if followsSuspension {
      if previous.shares.None? || current.shares.None? { return false, ratio; }
      var left := ratio.num * current.shares.value;
      var right := ratio.den * previous.shares.value;
      var difference := if left >= right then left - right else right - left;
      if difference >= ratio.num { return false, ratio; }
    }
    ok := true;
  }

  lemma Unmoved(previous: Parsed, current: Parsed)
    requires Good(previous) && Good(current) && !Moves(previous, current)
    ensures Boundary(previous, current) == ONE && Explained(previous, current)
  {}

  /** The boundary loop: fills `ratios` and lists the transitions. */
  method FindBoundaries(p: seq<Parsed>) returns (ok: bool, ratios: seq<Ratio>, transitions: seq<Transition>)
    requires AllGood(p) && |p| > 0
    ensures ok <==> AllExplained(p)
    ensures ok ==> |ratios| == |p| && transitions == Transitions(p, |p|)
    ensures ok ==> forall j :: 0 < j < |p| ==> ratios[j] == Boundary(p[j - 1], p[j])
  {
    hide Good, Boundary, Explained, Reduced;
    ratios := seq(|p|, _ => ONE);
    transitions := [];
    for i := 1 to |p|
      invariant |ratios| == |p| && transitions == Transitions(p, i)
      invariant forall j :: 0 < j < i ==> ratios[j] == Boundary(p[j - 1], p[j]) && Explained(p[j - 1], p[j])
      invariant forall j :: i <= j < |p| ==> ratios[j] == ONE
    {
      var previous, current := p[i - 1], p[i];
      if current.reference != previous.close {
        var fine, ratio := CheckMove(previous, current);
        if !fine { return false, ratios, transitions; }
        var transition := Transition(current.date, previous.close, previous.date, ratio, current.reference);
        assert transition == TransitionAt(previous, current);
        transitions := transitions + [transition];
        ratios := ratios[i := ratio];
      } else {
        Unmoved(previous, current);
      }
    }
    ok := true;
  }

  /** The backward loop over `factors`; `multiply` never fails here. */
  method Accumulate(p: seq<Parsed>, ratios: seq<Ratio>) returns (factors: seq<Ratio>)
    requires AllGood(p) && |p| > 0 && |ratios| == |p|
    requires forall j :: 0 < j < |p| ==> ratios[j] == Boundary(p[j - 1], p[j])
    ensures |factors| == |p| && forall i :: 0 <= i < |p| ==> factors[i] == Factor(p, i)
  {
    factors := seq(|p|, _ => ONE);
    var accumulated := ONE;
    var index := |p|;
    while index > 0
      invariant 0 <= index <= |p| == |factors|
      invariant forall i :: index <= i < |p| ==> factors[i] == Factor(p, i)
      invariant index > 0 ==> accumulated == Factor(p, index - 1)
    {
      index := index - 1;
      factors := factors[index := accumulated];
      if index > 0 {
        assert ratios[index] == Boundary(p[index - 1], p[index]);
        MultiplyMeaning(accumulated, ratios[index]);
        accumulated := Multiply(accumulated, ratios[index]).value;
      }
    }
  }

  method AdjustAll(p: seq<Parsed>, factors: seq<Ratio>) returns (ok: bool, adjusted: seq<Row>)
    requires AllGood(p) && |factors| == |p| && forall i :: 0 <= i < |p| ==> factors[i] == Factor(p, i)
    ensures ok <==> AllAdjustable(p)
    ensures ok ==> adjusted == AdjustedRows(p)
  {
    hide Good, AdjustedRow, AdjustedOk;
    adjusted := [];
    for i := 0 to |p|
      invariant |adjusted| == i
      invariant forall k :: 0 <= k < i ==>
                  AdjustedOk(p[k], Factor(p, k)) && adjusted[k] == AdjustedRow(p[k], Factor(p, k))
    {
      assert factors[i] == Factor(p, i);
      if !AdjustedOk(p[i], factors[i]) { return false, adjusted; }
      adjusted := adjusted + [AdjustedRow(p[i], factors[i])];
    }
    ok := true;
  }

  method AdjustStockRows(rows: seq<Row>, code: string) returns (r: Result<Adjusted, Failed>)
    ensures r == Adjust(rows, code)
  {
    if rows == [] { return Failure(Incomplete); }
    hide AllParse, AllGood, AllExplained, OneSecurity, DatesRise, AllAdjustable, Transitions, Factor, AdjustedRows;
    AdjustIs(rows, code);
    hide Adjust;
    var all := ParseAll(rows, code);
    if all.Failure? { return Failure(all.error); }
    var p := all.value;
    var stable := CheckIdentity(p);
    if !stable { return Failure(Inconsistent); }
    var explained, ratios, transitions := FindBoundaries(p);
    if !explained { return Failure(Inconsistent); }
    var factors := Accumulate(p, ratios);
    var fine, adjusted := AdjustAll(p, factors);
    if !fine { return Failure(Inconsistent); }
    r := Success(Adjusted(adjusted, p[|p| - 1].date, transitions));
  }

  lemma AdjustIs(rows: seq<Row>, code: string)
    requires rows != []
    ensures !AllParse(rows, code) ==> Adjust(rows, code) == Failure(Inconsistent)
    ensures AllParse(rows, code) ==>
              var p := ParsedRows(rows, code);
              Adjust(rows, code)
              == if OneSecurity(p) && DatesRise(p) && AllExplained(p) && AllAdjustable(p)
                 then Success(Adjusted(AdjustedRows(p), p[|p| - 1].date, Transitions(p, |p|)))
                 else Failure(Inconsistent)
  {
    hide AllParse, AllExplained, OneSecurity, DatesRise, AllAdjustable, Transitions, AdjustedRows, Good;
  }

  // ---------------------------------------------------------------- what the result promises

  lemma {:induction false} TransitionsAre(p: seq<Parsed>, k: nat, t: Transition)
    requires AllGood(p) && k <= |p|
    ensures t in Transitions(p, k) <==> exists j :: 0 < j < k && MovesTo(p[j - 1], p[j], t)
  {
    hide Good, Moves, TransitionAt;
    if k > 1 {
      TransitionsAre(p, k - 1, t);
      var a, b := p[k - 2], p[k - 1];
      var earlier := Transitions(p, k - 1);
      assert Transitions(p, k) == earlier + (if Moves(a, b) then [TransitionAt(a, b)] else []);
      assert t in Transitions(p, k) <==> t in earlier || MovesTo(a, b, t);
      hide Transitions, MovesTo;
    }
  }

  predicate MovesTo(p: Parsed, q: Parsed, t: Transition)
    requires Good(p) && Good(q)
  {
    Moves(p, q) && t == TransitionAt(p, q)
  }

  /** `t` records that the price was rebased between row `j - 1` and row `j`. */
  predicate Records(p: seq<Parsed>, j: int, t: Transition) {
    && 0 < j < |p| && p[j].reference != p[j - 1].close
    && t.date == p[j].date && t.previousDate == p[j - 1].date
    && t.previousClose == p[j - 1].close && t.reference == p[j].reference
    && Reduced(t.ratio) && t.ratio.num * p[j - 1].close == p[j].reference * t.ratio.den
  }

  lemma RecordsIs(p: seq<Parsed>, j: int, t: Transition)
    requires AllGood(p) && 0 < j < |p|
    ensures Records(p, j, t) <==> MovesTo(p[j - 1], p[j], t)
  {
    var b := Boundary(p[j - 1], p[j]);
    BoundaryMeaning(p[j - 1], p[j]);
    hide Boundary, ValidOhlc;
    if Records(p, j, t) {
      SameNumber(t.ratio, b, p[j].reference, p[j - 1].close);
    }
    hide Reduced;
  }

  /** The transitions are exactly the boundaries whose reference price differs from the
      close before, each recorded with its dates, prices and reduced ratio. */
  lemma TransitionsExact(p: seq<Parsed>, t: Transition)
    requires AllGood(p)
    ensures t in Transitions(p, |p|) <==> exists j :: Records(p, j, t)
  {
    TransitionsAre(p, |p|, t);
    hide Good, Transitions;
    if j :| Records(p, j, t) {
      RecordsIs(p, j, t);
    }
    if j :| 0 < j < |p| && MovesTo(p[j - 1], p[j], t) {
      RecordsIs(p, j, t);
    }
    hide Records, MovesTo;
  }

  lemma {:induction false} DatesApart(p: seq<Parsed>, i: nat, j: nat)
    requires DatesRise(p) && i < j < |p|
    ensures Less(p[i].date, p[j].date)
  {
    if i < j - 1 {
      DatesApart(p, i, j - 1);
      LessTransitive(p[i].date, p[j - 1].date, p[j].date);
    }
  }

  lemma {:induction false} DateOfTransition(p: seq<Parsed>, k: nat, t: Transition) returns (j: nat)
    requires AllGood(p) && k <= |p| && t in Transitions(p, k)
    ensures 0 < j < k && t.date == p[j].date
  {
    hide Good, Boundary;
    if t in Transitions(p, k - 1) { j := DateOfTransition(p, k - 1, t); } else { j := k - 1; }
  }

  lemma BeforeTheRest(p: seq<Parsed>, k: nat, t: Transition)
    requires AllGood(p) && DatesRise(p) && 0 < k <= |p| && t in Transitions(p, k - 1)
    ensures Less(t.date, p[k - 1].date)
  {
    var j := DateOfTransition(p, k - 1, t);
    DatesApart(p, j, k - 1);
  }

  /** They are listed in date order. */
  lemma {:induction false} TransitionsInOrder(p: seq<Parsed>, k: nat)
    requires AllGood(p) && DatesRise(p) && k <= |p|
    ensures forall a, b :: 0 <= a < b < |Transitions(p, k)| ==>
              Less(Transitions(p, k)[a].date, Transitions(p, k)[b].date)
  {
    hide Good, Boundary, Less, DatesRise;
    if k > 1 {
      TransitionsInOrder(p, k - 1);
      var head := Transitions(p, k - 1);
      forall a | 0 <= a < |head| ensures Less(head[a].date, p[k - 1].date) {
        assert head[a] in head;
        BeforeTheRest(p, k, head[a]);
      }
    }
  }

  /** From the last transition on nothing is rescaled: the factor is one and the adjusted
      prices are the raw ones. */
  lemma {:induction false} UntouchedSinceLastTransition(p: seq<Parsed>, i: nat)
    requires AllGood(p) && i < |p|
    requires forall j :: i < j < |p| ==> !Moves(p[j - 1], p[j])
    ensures Factor(p, i) == ONE
    ensures forall v: nat :: RoundedProduct(v, Factor(p, i)) == v
    ensures AdjustedOk(p[i], Factor(p, i))
    decreases |p| - i
  {
    if i < |p| - 1 {
      UntouchedSinceLastTransition(p, i + 1);
      BoundaryMeaning(p[i], p[i + 1]);
      MultiplyMeaning(ONE, ONE);
      OneTimesOne();
    }
    forall v: nat ensures RoundedProduct(v, ONE) == v { OneKeeps(v); }
  }

  lemma OneTimesOne()
    ensures Multiply(ONE, ONE) == Success(ONE)
  {
    assert Gcd(1, 1) == Gcd(1, 0) == 1;
  }

  lemma OneKeeps(v: nat)
    ensures RoundedProduct(v, ONE) == v
  {}

  /** Older rows in front change no later factor. */
  lemma {:induction false} FactorOfSuffix(older: seq<Parsed>, p: seq<Parsed>, i: nat)
    requires AllGood(older + p) && AllGood(p) && i < |p|
    ensures Factor(older + p, |older| + i) == Factor(p, i)
    decreases |p| - i
  {
    hide Good, Multiply, Boundary;
    var q := older + p;
    assert q[|older| + i] == p[i];
    if i < |p| - 1 {
      assert q[|older| + i + 1] == p[i + 1];
      FactorOfSuffix(older, p, i + 1);
    }
  }

  lemma {:induction false} TransitionsOfSuffix(older: seq<Parsed>, p: seq<Parsed>, k: nat)
    requires AllGood(older + p) && AllGood(p) && 1 <= k <= |p|
    ensures Transitions(older + p, |older| + k) == Transitions(older + p, |older| + 1) + Transitions(p, k)
  {
    hide Good, TransitionAt;
    if k > 1 {
      TransitionsOfSuffix(older, p, k - 1);
      var q := older + p;
      assert q[|older| + k - 2] == p[k - 2] && q[|older| + k - 1] == p[k - 1];
    }
  }

  lemma SuffixAcceptable(older: seq<Parsed>, p: seq<Parsed>)
    requires AllGood(older + p) && AllGood(p) && Acceptable(older + p)
    ensures Acceptable(p)
  {
    var q := older + p;
    var n := |older|;
    hide Good, Factor, AdjustedOk, Explained, Less;
    forall k | 0 <= k < |p| ensures q[n + k] == p[k] {}
    forall k | 0 <= k < |p| ensures AdjustedOk(p[k], Factor(p, k)) {
      FactorOfSuffix(older, p, k);
      assert AdjustedOk(q[n + k], Factor(q, n + k));
    }
    forall k | 0 < k < |p| ensures Explained(p[k - 1], p[k]) && Less(p[k - 1].date, p[k].date) {
      assert q[n + k - 1] == p[k - 1] && q[n + k] == p[k];
    }
    forall k | 0 <= k < |p| ensures p[k].name == p[0].name && p[k].market == p[0].market {
      assert q[n + k] == p[k] && q[n] == p[0];
    }
  }

  lemma ParsedSuffix(older: seq<Row>, rows: seq<Row>, code: string)
    requires AllParse(older + rows, code)
    ensures AllParse(older, code) && AllParse(rows, code)
    ensures ParsedRows(older + rows, code) == ParsedRows(older, code) + ParsedRows(rows, code)
  {
    hide ParseRow, Good;
    var all := older + rows;
    forall k | 0 <= k < |older| ensures ParseRow(older[k], code).Success? { assert all[k] == older[k]; }
    forall k | 0 <= k < |rows| ensures ParseRow(rows[k], code).Success? { assert all[|older| + k] == rows[k]; }
    TheParsedRows(all, code, ParsedRows(older, code) + ParsedRows(rows, code));
  }

  /** Backward stability: asking for an earlier start changes no adjusted row of the later
      history, nor its as-of date, and only adds earlier transitions; and whatever made
      the longer history acceptable makes the shorter one so. */
  lemma OlderRowsChangeNothing(older: seq<Row>, rows: seq<Row>, code: string)
    requires rows != [] && Adjust(older + rows, code).Success?
    ensures Adjust(rows, code).Success?
    ensures |Adjust(older + rows, code).value.rows| == |older| + |Adjust(rows, code).value.rows|
    ensures Adjust(older + rows, code).value.rows[|older|..] == Adjust(rows, code).value.rows
    ensures Adjust(older + rows, code).value.asOf == Adjust(rows, code).value.asOf
    ensures exists earlier ::
              Adjust(older + rows, code).value.transitions == earlier + Adjust(rows, code).value.transitions
  {
    hide *;
    AdjustSucceeds(older + rows, code);
    ParsedSuffix(older, rows, code);
    var before, p := ParsedRows(older, code), ParsedRows(rows, code);
    WhenAdjusted(older + rows, code);
    SuffixAcceptable(before, p);
    WhenAdjusted(rows, code);
    TransitionsOfSuffix(before, p, |p|);
    RowsOfSuffix(before, p);
    assert (before + p)[|before| + |p| - 1] == p[|p| - 1];
  }

  lemma AdjustSucceeds(rows: seq<Row>, code: string)
    requires Adjust(rows, code).Success?
    ensures rows != [] && AllParse(rows, code) && Acceptable(ParsedRows(rows, code))
  {
    hide AllParse, Acceptable, Good, AdjustedRows, Transitions;
  }

  lemma WhenAdjusted(rows: seq<Row>, code: string)
    requires rows != [] && AllParse(rows, code) && Acceptable(ParsedRows(rows, code))
    ensures var p := ParsedRows(rows, code);
            Adjust(rows, code) == Success(Adjusted(AdjustedRows(p), p[|p| - 1].date, Transitions(p, |p|)))
  {
    hide AllParse, Acceptable, Good, AdjustedRows, Transitions;
  }

  lemma RowsOfSuffix(older: seq<Parsed>, p: seq<Parsed>)
    requires AllGood(older + p) && AllGood(p)
    ensures AdjustedRows(older + p)[|older|..] == AdjustedRows(p)
  {
    hide Good, Factor, AdjustedRow;
    forall k | 0 <= k < |p| ensures AdjustedRows(older + p)[|older| + k] == AdjustedRows(p)[k] {
      assert (older + p)[|older| + k] == p[k];
      FactorOfSuffix(older, p, k);
    }
  }

  // ---------------------------------------------------------------- from raw fields to output fields

  /** The output field holds the print of the rounded product of the raw price. */
  predicate Rescaled(raw: Row, out: Row, field: string, added: string, f: Ratio)
    requires f.den > 0
  {
    && field in raw && PriceText.ExactNonnegative(Some(raw[field])).Success?
    && added in out
    && out[added] == Print(RoundedProduct(PriceText.ExactNonnegative(Some(raw[field])).value, f))
  }

  const ADDED: set<string> :=
    {"ADJ_TDD_OPNPRC", "ADJ_TDD_HGPRC", "ADJ_TDD_LWPRC", "ADJ_TDD_CLSPRC", "ADJ_FACTOR"}

  ghost predicate OutputOf(raw: Row, out: Row, f: Ratio)
    requires f.den > 0
  {
    && Rescaled(raw, out, "TDD_OPNPRC", "ADJ_TDD_OPNPRC", f) && Rescaled(raw, out, "TDD_HGPRC", "ADJ_TDD_HGPRC", f)
    && Rescaled(raw, out, "TDD_LWPRC", "ADJ_TDD_LWPRC", f) && Rescaled(raw, out, "TDD_CLSPRC", "ADJ_TDD_CLSPRC", f)
    && "ADJ_FACTOR" in out && out["ADJ_FACTOR"] == Print(f.num) + "/" + Print(f.den)
    && forall field :: field !in ADDED ==>
         (field in out <==> field in raw) && (field in raw ==> out[field] == raw[field])
  }

  lemma AddedFields(p: Parsed, f: Ratio)
    requires f.den > 0
    ensures var out := AdjustedRow(p, f);
            && out.Keys == p.row.Keys + ADDED
            && out["ADJ_TDD_OPNPRC"] == Print(RoundedProduct(p.open, f))
            && out["ADJ_TDD_HGPRC"] == Print(RoundedProduct(p.high, f))
            && out["ADJ_TDD_LWPRC"] == Print(RoundedProduct(p.low, f))
            && out["ADJ_TDD_CLSPRC"] == Print(RoundedProduct(p.close, f))
            && out["ADJ_FACTOR"] == Print(f.num) + "/" + Print(f.den)
            && forall field :: field !in ADDED && field in p.row ==> out[field] == p.row[field]
  {
    hide Print, RoundedProduct;
    FiveFields(p.row, Print(RoundedProduct(p.open, f)), Print(RoundedProduct(p.high, f)),
               Print(RoundedProduct(p.low, f)), Print(RoundedProduct(p.close, f)),
               Print(f.num) + "/" + Print(f.den), AdjustedRow(p, f));
  }

  lemma RowOutput(raw: Row, code: string, f: Ratio)
    requires ParseRow(raw, code).Success? && f.den > 0
    ensures OutputOf(raw, AdjustedRow(ParseRow(raw, code).value, f), f)
  {
    hide ParseRow, AdjustedRow, Print, RoundedProduct, Rescaled, Describes;
    var change, cap := ParsedIsDescribed(raw, code);
    var p := ParseRow(raw, code).value;
    ParsedIsGood(raw, code);
    AddedFields(p, f);
    FourPrices(raw, AdjustedRow(p, f), code, p, change, cap, f);
  }

  lemma FiveFields(raw: Row, open: string, high: string, low: string, close: string, factor: string, out: Row)
    requires out == raw["ADJ_TDD_OPNPRC" := open]["ADJ_TDD_HGPRC" := high]["ADJ_TDD_LWPRC" := low]
                       ["ADJ_TDD_CLSPRC" := close]["ADJ_FACTOR" := factor]
    ensures out.Keys == raw.Keys + ADDED
    ensures out["ADJ_TDD_OPNPRC"] == open && out["ADJ_TDD_HGPRC"] == high && out["ADJ_TDD_LWPRC"] == low
    ensures out["ADJ_TDD_CLSPRC"] == close && out["ADJ_FACTOR"] == factor
    ensures forall field :: field !in ADDED && field in raw ==> out[field] == raw[field]
  {
    var a, b, c, d, e := "ADJ_TDD_OPNPRC", "ADJ_TDD_HGPRC", "ADJ_TDD_LWPRC", "ADJ_TDD_CLSPRC", "ADJ_FACTOR";
    assert a[8] == 'O' && b[8] == 'H' && c[8] == 'L' && d[8] == 'C' && |e| == 10;
  }

  lemma FourPrices(raw: Row, out: Row, code: string, p: Parsed, change: int, cap: Option<nat>, f: Ratio)
    requires Describes(raw, code, p, change, cap) && f.den > 0 && out.Keys == raw.Keys + ADDED
    requires out["ADJ_TDD_OPNPRC"] == Print(RoundedProduct(p.open, f))
    requires out["ADJ_TDD_HGPRC"] == Print(RoundedProduct(p.high, f))
    requires out["ADJ_TDD_LWPRC"] == Print(RoundedProduct(p.low, f))
    requires out["ADJ_TDD_CLSPRC"] == Print(RoundedProduct(p.close, f))
    ensures Rescaled(raw, out, "TDD_OPNPRC", "ADJ_TDD_OPNPRC", f) && Rescaled(raw, out, "TDD_HGPRC", "ADJ_TDD_HGPRC", f)
    ensures Rescaled(raw, out, "TDD_LWPRC", "ADJ_TDD_LWPRC", f) && Rescaled(raw, out, "TDD_CLSPRC", "ADJ_TDD_CLSPRC", f)
  {
    hide PriceText.ExactNonnegative, PriceText.ExactInteger, RoundedProduct, Print, CivilDate.Parse;
    hide PriceText.RateHundredths, RoundedSigned, Holds;
  }

  /** Every output row is its raw row with five fields added or replaced: each price field
      times the row's factor, rounded and printed, and the factor itself. */
  lemma OutputFields(rows: seq<Row>, code: string, k: nat)
    requires Adjust(rows, code).Success? && k < |rows|
    ensures AllParse(rows, code) && |Adjust(rows, code).value.rows| == |rows|
    ensures OutputOf(rows[k], Adjust(rows, code).value.rows[k], Factor(ParsedRows(rows, code), k))
    ensures Adjust(rows, code).value.asOf == ParsedRows(rows, code)[|rows| - 1].date
  {
    hide *;
    AdjustSucceeds(rows, code);
    WhenAdjusted(rows, code);
    var p := ParsedRows(rows, code);
    OneRowOutput(rows, code, k);
  }

  /** The transitions an adjustment reports are the recorded ones, in date order. */
  lemma ReportedTransitions(rows: seq<Row>, code: string, t: Transition)
    requires Adjust(rows, code).Success?
    ensures AllParse(rows, code)
    ensures var reported := Adjust(rows, code).value.transitions;
            && (t in reported <==> exists j :: Records(ParsedRows(rows, code), j, t))
            && forall a, b :: 0 <= a < b < |reported| ==> Less(reported[a].date, reported[b].date)
  {
    hide *;
    AdjustSucceeds(rows, code);
    WhenAdjusted(rows, code);
    var p := ParsedRows(rows, code);
    DatesOfAccepted(p);
    TransitionsExact(p, t);
    TransitionsInOrder(p, |p|);
  }

  lemma DatesOfAccepted(p: seq<Parsed>)
    requires AllGood(p) && Acceptable(p)
    ensures DatesRise(p)
  {
    hide AllExplained, AllAdjustable, OneSecurity;
  }

  lemma OneRowOutput(rows: seq<Row>, code: string, k: nat)
    requires AllParse(rows, code) && k < |rows|
    ensures OutputOf(rows[k], AdjustedRows(ParsedRows(rows, code))[k], Factor(ParsedRows(rows, code), k))
  {
    hide ParseRow, Good, Factor, AdjustedRow, OutputOf;
    var p := ParsedRows(rows, code);
    assert ParseRow(rows[k], code) == Success(p[k]);
    RowOutput(rows[k], code, Factor(p, k));
  }

  predicate OneName(p: seq<Parsed>) {
    forall j, k :: 0 <= j < |p| && 0 <= k < |p| ==> p[j].name == p[k].name && p[j].market == p[k].market
  }

  ghost predicate NoPriceVanishes(p: seq<Parsed>)
    requires AllGood(p)
  {
    forall k :: 0 <= k < |p| ==> RoundedProduct(if p[k].low == 0 then p[k].close else p[k].low, Factor(p, k)) > 0
  }

  /** A history is adjusted exactly if it is not empty, each row describes a day of the
      security, all carry one name and one market, the dates strictly rise, each move after
      a suspension is explained by the listed shares, and no price rounds away. */
  lemma AdjustsExactly(rows: seq<Row>, code: string)
    ensures Adjust(rows, code) == Failure(Incomplete) <==> rows == []
    ensures Adjust(rows, code).Success? <==>
              (rows != [] && AllParse(rows, code)
               && OneName(ParsedRows(rows, code)) && DatesRise(ParsedRows(rows, code))
               && AllExplained(ParsedRows(rows, code)) && NoPriceVanishes(ParsedRows(rows, code)))
  {
    if rows != [] && AllParse(rows, code) {
      var p := ParsedRows(rows, code);
      assert OneSecurity(p) <==> OneName(p) by { hide AllGood; }
      VanishMeans(p);
    }
    hide AllParse, OneSecurity, DatesRise, AllExplained, AllAdjustable, AllGood, NoPriceVanishes, OneName;
    hide AdjustedRows, Transitions;
  }

  lemma VanishMeans(p: seq<Parsed>)
    requires AllGood(p)
    ensures AllAdjustable(p) <==> NoPriceVanishes(p)
  {
    hide Factor, AdjustedOk, RoundedProduct;
    forall k | 0 <= k < |p|
      ensures AdjustedOk(p[k], Factor(p, k))
         <==> RoundedProduct(if p[k].low == 0 then p[k].close else p[k].low, Factor(p, k)) > 0
    {
      SecondCheck(p[k], Factor(p, k));
      assert Suspended(p[k]) <==> p[k].low == 0;
    }
  }
}
