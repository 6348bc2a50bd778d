/** Reducing one outcome per trading date to a range result. */
module RangeReduce {
  import opened Wrappers
  import opened CivilDate
  import A = Adjustment
  import Calendar
  import StockHistory

  datatype Kind =
    | Cancelled | Internal | Timeout | RateLimit | Authentication | Approval | Offline | LocalState | Network
    | Upstream | InvalidResponse | Integrity | InvalidRequest

  /** `tag` stands for everything else an error carries. */
  datatype KrxError = KrxError(kind: Kind, tag: int)

  const COMPOSITE_PRIORITY: seq<Kind> :=
    [Cancelled, Internal, Timeout, RateLimit, Authentication, Approval, Offline, LocalState, Network,
     Upstream, InvalidResponse, Integrity]

  datatype QueryResult = QueryResult(rows: seq<A.Row>, provenance: int)

  datatype Outcome = Outcome(date: Date, result: Result<QueryResult, KrxError>)

  datatype DateFailure = DateFailure(id: Date, error: KrxError)

  datatype State = Complete | Partial | Empty | Failed

  datatype RangeResult = RangeResult(
    success: bool,
    data: seq<A.Row>,
    state: State,
    requested: seq<Date>,
    succeeded: seq<Date>,
    failed: seq<DateFailure>,
    skipped: seq<Date>,
    provenance: map<Date, int>,
    error: Option<KrxError>,
    fetchedDays: nat,
    failedDays: nat,
    adjustment: Option<A.Adjusted>)

  predicate CallWide(e: KrxError) { e.kind in {Cancelled, InvalidRequest, LocalState, Internal} }

  // ---------------------------------------------------------------- primary errors

  function FirstOfKind(errors: seq<KrxError>, kind: Kind): Option<KrxError> {
    if errors == [] then None else if errors[0].kind == kind then Some(errors[0]) else FirstOfKind(errors[1..], kind)
  }

  function ByPriority(errors: seq<KrxError>, priority: seq<Kind>): Option<KrxError> {
    if priority == [] then None
    else match FirstOfKind(errors, priority[0])
         case Some(e) => Some(e)
         case None => ByPriority(errors, priority[1..])
  }

  /** `primary_error` on the failures' errors. */
  function PrimaryError(errors: seq<KrxError>): Option<KrxError> { ByPriority(errors, COMPOSITE_PRIORITY) }

  /** `primary_call_wide_error`. */
  function PrimaryCallWideError(errors: seq<KrxError>): Option<KrxError> {
    match ByPriority(errors, COMPOSITE_PRIORITY)
    case Some(e) => Some(e)
    case None => if errors == [] then None else Some(errors[0])
  }

  lemma {:induction false} FirstOfKindMeans(errors: seq<KrxError>, kind: Kind)
    ensures FirstOfKind(errors, kind).Some? <==> exists e :: e in errors && e.kind == kind
    ensures FirstOfKind(errors, kind).Some? ==>
              FirstOfKind(errors, kind).value in errors && FirstOfKind(errors, kind).value.kind == kind
  {
    if errors != [] { FirstOfKindMeans(errors[1..], kind); }
  }

  /** How urgent a kind is to report; an invalid request comes last of all. */
  function Urgency(kind: Kind): nat {
    match kind
    case Cancelled => 0
    case Internal => 1
    case Timeout => 2
    case RateLimit => 3
    case Authentication => 4
    case Approval => 5
    case Offline => 6
    case LocalState => 7
    case Network => 8
    case Upstream => 9
    case InvalidResponse => 10
    case Integrity => 11
    case InvalidRequest => 12
  }

  /** `e` is the first of the errors that nothing in the list is more urgent than. */
  ghost predicate IsMostUrgent(errors: seq<KrxError>, e: KrxError) {
    exists k :: 0 <= k < |errors| && errors[k] == e && MostUrgentAt(errors, k)
  }

  predicate MostUrgentAt(errors: seq<KrxError>, k: nat)
    requires k < |errors|
  {
    && (forall j :: 0 <= j < k ==> Urgency(errors[k].kind) < Urgency(errors[j].kind))
    && (forall j :: k <= j < |errors| ==> Urgency(errors[k].kind) <= Urgency(errors[j].kind))
  }

  lemma {:induction false} FirstOfKindAt(errors: seq<KrxError>, kind: Kind) returns (k: nat)
    requires FirstOfKind(errors, kind).Some?
    ensures k < |errors| && errors[k] == FirstOfKind(errors, kind).value && errors[k].kind == kind
    ensures forall j :: 0 <= j < k ==> errors[j].kind != kind
  {
    if errors[0].kind == kind {
      k := 0;
    } else {
      var l := FirstOfKindAt(errors[1..], kind);
      k := l + 1;
    }
  }

  lemma {:induction false} PriorityFromRank(errors: seq<KrxError>, n: nat)
    requires n <= |COMPOSITE_PRIORITY| && forall e :: e in errors ==> Urgency(e.kind) >= n
    ensures match ByPriority(errors, COMPOSITE_PRIORITY[n..])
            case Some(e) => IsMostUrgent(errors, e) && !e.kind.InvalidRequest?
            case None => forall e :: e in errors ==> e.kind.InvalidRequest?
    decreases |COMPOSITE_PRIORITY| - n
  {
    if n < |COMPOSITE_PRIORITY| {
      var kind := COMPOSITE_PRIORITY[n];
      UrgencyIsPlace(n);
      FirstOfKindMeans(errors, kind);
      if FirstOfKind(errors, kind).Some? {
        var k := FirstOfKindAt(errors, kind);
        hide FirstOfKind;
        forall j | 0 <= j < |errors| ensures Urgency(kind) <= Urgency(errors[j].kind) { assert errors[j] in errors; }
        forall j | 0 <= j < k ensures Urgency(kind) < Urgency(errors[j].kind) { UrgenciesDiffer(kind, errors[j].kind); }
        assert MostUrgentAt(errors, k);
      } else {
        forall e | e in errors ensures Urgency(e.kind) >= n + 1 { UrgenciesDiffer(kind, e.kind); }
        PriorityFromRank(errors, n + 1);
      }
      assert COMPOSITE_PRIORITY[n..][1..] == COMPOSITE_PRIORITY[n + 1..];
    }
  }

  lemma UrgenciesDiffer(a: Kind, b: Kind)
    ensures Urgency(a) == Urgency(b) ==> a == b
  {}

  lemma UrgencyIsPlace(n: nat)
    requires n < |COMPOSITE_PRIORITY|
    ensures Urgency(COMPOSITE_PRIORITY[n]) == n
  {
    assert n in {0, 1, 2, 3, 4, 5, 6, 7, 8, 9, 10, 11};
  }

  /** The error reported for a range is the first of the most urgent ones, by the kinds in
      the order cancelled, internal, timeout, rate limit, authentication, approval, offline,
      local state, network, upstream, invalid response, integrity. Only errors of the whole
      call fall back to an invalid request. */
  lemma PrimaryErrorMeans(errors: seq<KrxError>)
    ensures PrimaryError(errors).Some? <==> exists e :: e in errors && !e.kind.InvalidRequest?
    ensures PrimaryError(errors).Some? ==> IsMostUrgent(errors, PrimaryError(errors).value)
    ensures PrimaryCallWideError(errors).Some? <==> errors != []
    ensures PrimaryCallWideError(errors).Some? ==> IsMostUrgent(errors, PrimaryCallWideError(errors).value)
  {
    hide ByPriority, Urgency;
    assert COMPOSITE_PRIORITY[0..] == COMPOSITE_PRIORITY;
    assert forall e :: e in errors ==> Urgency(e.kind) >= 0;
    PriorityFromRank(errors, 0);
    if PrimaryError(errors).None? && errors != [] {
      assert forall j :: 0 <= j < |errors| ==> errors[j] in errors;
      assert MostUrgentAt(errors, 0);
    }
  }

  // ---------------------------------------------------------------- the parts of a list of outcomes

  function Dates(outcomes: seq<Outcome>): (r: seq<Date>)
    ensures |r| == |outcomes|
  {
    seq(|outcomes|, k requires 0 <= k < |outcomes| => outcomes[k].date)
  }

  predicate Answered(o: Outcome) { o.result.Success? }

  predicate HasRows(o: Outcome) { o.result.Success? && o.result.value.rows != [] }

  predicate FailedAlone(o: Outcome) { o.result.Failure? && !CallWide(o.result.error) }

  function Succeeded(o: seq<Outcome>): seq<Date> {
    if o == [] then [] else Succeeded(Front(o)) + (if HasRows(Last(o)) then [Last(o).date] else [])
  }

  function EmptyDates(o: seq<Outcome>): seq<Date> {
    if o == [] then []
    else EmptyDates(Front(o)) + (if Answered(Last(o)) && !HasRows(Last(o)) then [Last(o).date] else [])
  }

  function Failures(o: seq<Outcome>): seq<DateFailure> {
    if o == [] then []
    else Failures(Front(o)) + (if FailedAlone(Last(o)) then [DateFailure(Last(o).date, Last(o).result.error)] else [])
  }

  function CallWideErrors(o: seq<Outcome>): seq<KrxError> {
    if o == [] then []
    else
      CallWideErrors(Front(o))
      + (if Last(o).result.Failure? && CallWide(Last(o).result.error) then [Last(o).result.error] else [])
  }

  function AllRows(o: seq<Outcome>): seq<A.Row> {
    if o == [] then [] else AllRows(Front(o)) + (if Answered(Last(o)) then Last(o).result.value.rows else [])
  }

  function Fetched(o: seq<Outcome>): nat {
    if o == [] then 0 else Fetched(Front(o)) + (if Answered(Last(o)) then 1 else 0)
  }

  function Provenance(o: seq<Outcome>): map<Date, int> {
    if o == [] then map[]
    else if Answered(Last(o)) then Provenance(Front(o))[Last(o).date := Last(o).result.value.provenance]
    else Provenance(Front(o))
  }

  function Ids(f: seq<DateFailure>): (r: seq<Date>)
    ensures |r| == |f|
  {
    seq(|f|, k requires 0 <= k < |f| => f[k].id)
  }

  function Errors(f: seq<DateFailure>): (r: seq<KrxError>)
    ensures |r| == |f|
  {
    seq(|f|, k requires 0 <= k < |f| => f[k].error)
  }

  /** `completeness::reduce`. */
  function StateOf(succeeded: seq<Date>, failed: seq<DateFailure>, skipped: seq<Date>, hasData: bool): State {
    if failed == [] then if hasData then Complete else Empty
    else if succeeded == [] && skipped == [] then Failed
    else Partial
  }

  /** The raw result when no error concerns the whole call. */
  function RawResult(sel: Calendar.Selection, o: seq<Outcome>): RangeResult {
    var skipped := sel.skipped + EmptyDates(o);
    var state := StateOf(Succeeded(o), Failures(o), skipped, AllRows(o) != []);
    RangeResult(!state.Failed?, if state.Failed? then [] else AllRows(o), state,
                sel.requested, Succeeded(o), Failures(o), skipped,
                Provenance(o), if state.Failed? then PrimaryError(Errors(Failures(o))) else None,
                if state.Failed? then 0 else Fetched(o), |Failures(o)|, None)
  }

  // ---------------------------------------------------------------- conservation

  lemma {:induction false} EachDateOnce(o: seq<Outcome>, d: Date)
    requires CallWideErrors(o) == []
    ensures multiset(Succeeded(o))[d] + multiset(EmptyDates(o))[d] + multiset(Ids(Failures(o)))[d]
            == multiset(Dates(o))[d]
  {
    if o != [] {
      var head, last := Front(o), Last(o);
      EachDateOnce(head, d);
      DatesGrow(o);
      IdsGrow(o);
      CountAppend(Dates(head), last.date, d);
      CountAppend(Succeeded(head), last.date, d);
      CountAppend(EmptyDates(head), last.date, d);
      CountAppend(Ids(Failures(head)), last.date, d);
      hide Dates, Ids, Failures;
    }
  }

  lemma DatesGrow(o: seq<Outcome>)
    requires o != []
    ensures Dates(o) == Dates(Front(o)) + [Last(o).date]
  {
    var n := |o| - 1;
    assert forall k :: 0 <= k < n ==> Dates(o)[k] == Dates(Front(o))[k];
    assert Dates(o)[n] == Last(o).date;
  }

  lemma IdsGrow(o: seq<Outcome>)
    requires o != []
    ensures Ids(Failures(o)) == Ids(Failures(Front(o))) + (if FailedAlone(Last(o)) then [Last(o).date] else [])
  {
    var f := Failures(Front(o));
    if FailedAlone(Last(o)) {
      var one := DateFailure(Last(o).date, Last(o).result.error);
      assert Failures(o) == f + [one];
      IdsAppend(f, one);
    }
  }

  lemma IdsAppend(f: seq<DateFailure>, one: DateFailure)
    ensures Ids(f + [one]) == Ids(f) + [one.id]
  {}

  lemma CountAppend(s: seq<Date>, x: Date, d: Date)
    ensures multiset(s + [x])[d] == multiset(s)[d] + (if x == d then 1 else 0)
  {}

  lemma {:induction false} Counts(o: seq<Outcome>)
    requires CallWideErrors(o) == []
    ensures Fetched(o) == |Succeeded(o)| + |EmptyDates(o)| && Fetched(o) + |Failures(o)| == |o|
  {
    if o != [] { Counts(Front(o)); }
  }

  lemma {:induction false} ProvenanceKeys(o: seq<Outcome>, d: Date)
    ensures d in Provenance(o) <==> d in Succeeded(o) || d in EmptyDates(o)
  {
    if o != [] { ProvenanceKeys(Front(o), d); }
  }

  lemma {:induction false} FailuresStandAlone(o: seq<Outcome>)
    ensures forall f :: f in Failures(o) ==> !CallWide(f.error)
  {
    if o != [] { FailuresStandAlone(Front(o)); }
  }

  /** Conservation across selection and reduction: the succeeded, failed and skipped dates
      together are the requested dates, each counted once; the dates with a provenance are
      the fetched ones; fetched and failed days add up to the trading days. */
  lemma DatesConserved(sel: Calendar.Selection, o: seq<Outcome>)
    requires CallWideErrors(o) == [] && Dates(o) == sel.trading
    requires multiset(sel.trading) + multiset(sel.skipped) == multiset(sel.requested)
    ensures var r := RawResult(sel, o);
            && r.requested == sel.requested
            && multiset(r.succeeded) + multiset(Ids(r.failed)) + multiset(r.skipped) == multiset(r.requested)
            && (forall d :: d in r.provenance <==> d in Succeeded(o) || d in EmptyDates(o))
            && Fetched(o) + r.failedDays == |sel.trading|
  {
    Partition(sel.trading, sel.skipped, sel.requested, o);
    forall d ensures d in Provenance(o) <==> d in Succeeded(o) || d in EmptyDates(o) { ProvenanceKeys(o, d); }
    Counts(o);
    hide Succeeded, EmptyDates, Failures, Provenance, Fetched, AllRows, StateOf, PrimaryError;
    assert |Dates(o)| == |o|;
  }

  /** From a range to its result: each civil date of the range is in exactly one place
      among the succeeded, failed and skipped dates, and no other date is in any. */
  lemma EachDateOfTheRangeOnce(s: Calendar.Snapshot, range: Calendar.DateRange, sel: Calendar.Selection,
                               o: seq<Outcome>, d: Date)
    requires Calendar.ValidSnapshot(s) && Valid(range.from) && Valid(range.to) && !Earlier(range.to, range.from)
    requires Calendar.Selects(s, range, sel) && Dates(o) == sel.trading && CallWideErrors(o) == [] && Valid(d)
    ensures var r := RawResult(sel, o);
            multiset(r.succeeded)[d] + multiset(Ids(r.failed))[d] + multiset(r.skipped)[d]
            == if Earlier(d, range.from) || Earlier(range.to, d) then 0 else 1
  {
    var r := RawResult(sel, o);
    assert r.requested == sel.requested;
    hide RawResult, Calendar.Pick, DayNumber;
    Calendar.PickSplits(sel.requested, s);
    DatesConserved(sel, o);
    Calendar.EveryDateOnce(range, sel.requested, d);
    hide *;
    var a, b, c := multiset(r.succeeded), multiset(Ids(r.failed)), multiset(r.skipped);
    assert (a + b + c)[d] == a[d] + b[d] + c[d];
  }

  lemma Partition(trading: seq<Date>, skipped: seq<Date>, requested: seq<Date>, o: seq<Outcome>)
    requires CallWideErrors(o) == [] && Dates(o) == trading
    requires multiset(trading) + multiset(skipped) == multiset(requested)
    ensures multiset(Succeeded(o)) + multiset(Ids(Failures(o))) + multiset(skipped + EmptyDates(o))
            == multiset(requested)
  {
    var a, b, c := multiset(Succeeded(o)), multiset(Ids(Failures(o))), multiset(skipped + EmptyDates(o));
    forall d ensures a[d] + b[d] + c[d] == multiset(requested)[d] {
      EachDateOnce(o, d);
      CountsAdd(trading, skipped, requested, d);
      CountsAdd(skipped, EmptyDates(o), skipped + EmptyDates(o), d);
    }
    hide *;
  }

  lemma CountsAdd(a: seq<Date>, b: seq<Date>, c: seq<Date>, d: Date)
    requires multiset(a) + multiset(b) == multiset(c)
    ensures multiset(a)[d] + multiset(b)[d] == multiset(c)[d]
  {
    assert (multiset(a) + multiset(b))[d] == multiset(c)[d];
  }

  /** A failed range fetched nothing, so setting its fetched days to zero changes nothing;
      it fails exactly when some date failed and none succeeded or was skipped; and it
      carries an error exactly then. */
  lemma FailedFetchedNothing(sel: Calendar.Selection, o: seq<Outcome>)
    requires CallWideErrors(o) == []
    ensures var r := RawResult(sel, o);
            && r.fetchedDays == Fetched(o)
            && (r.state.Failed? <==> r.failed != [] && r.succeeded == [] && r.skipped == [])
            && r.data == AllRows(o) && (r.state.Failed? ==> r.data == [])
            && (r.error.Some? <==> r.state.Failed?) && (r.success <==> !r.state.Failed?)
            && (r.error.Some? ==> IsMostUrgent(Errors(r.failed), r.error.value))
  {
    Counts(o);
    var r := RawResult(sel, o);
    if r.state.Failed? {
      NoRows(o);
      FailuresStandAlone(o);
      var errors := Errors(Failures(o));
      forall e | e in errors ensures !CallWide(e) {
        var k :| 0 <= k < |errors| && errors[k] == e;
        assert Failures(o)[k] in Failures(o);
      }
      PrimaryErrorMeans(errors);
    }
  }

  lemma {:induction false} NoRows(o: seq<Outcome>)
    requires Succeeded(o) == []
    ensures AllRows(o) == []
  {
    if o != [] { NoRows(Front(o)); }
  }

  lemma {:induction false} RowsInOrder(a: seq<Outcome>, b: seq<Outcome>)
    ensures AllRows(a + b) == AllRows(a) + AllRows(b)
    decreases |b|
  {
    if b == [] {
      assert a + b == a;
    } else {
      RowsInOrder(a, Front(b));
      assert Front(a + b) == a + Front(b) && Last(a + b) == Last(b);
    }
  }

  lemma {:induction false} AnsweredInOrder(a: seq<Outcome>, b: seq<Outcome>)
    ensures Succeeded(a + b) == Succeeded(a) + Succeeded(b)
    ensures EmptyDates(a + b) == EmptyDates(a) + EmptyDates(b)
    decreases |b|
  {
    if b == [] {
      assert a + b == a;
    } else {
      AnsweredInOrder(a, Front(b));
      assert Front(a + b) == a + Front(b) && Last(a + b) == Last(b);
    }
  }

  lemma {:induction false} FailedInOrder(a: seq<Outcome>, b: seq<Outcome>)
    ensures Failures(a + b) == Failures(a) + Failures(b)
    ensures CallWideErrors(a + b) == CallWideErrors(a) + CallWideErrors(b)
    decreases |b|
  {
    if b == [] {
      assert a + b == a;
    } else {
      FailedInOrder(a, Front(b));
      assert Front(a + b) == a + Front(b) && Last(a + b) == Last(b);
    }
  }

  /** The lists a reduction collects are in the order of the outcomes: they are put together
      from the parts of any two halves. */
  lemma InOutcomeOrder(a: seq<Outcome>, b: seq<Outcome>)
    ensures AllRows(a + b) == AllRows(a) + AllRows(b)
    ensures Succeeded(a + b) == Succeeded(a) + Succeeded(b)
    ensures EmptyDates(a + b) == EmptyDates(a) + EmptyDates(b)
    ensures Failures(a + b) == Failures(a) + Failures(b)
    ensures CallWideErrors(a + b) == CallWideErrors(a) + CallWideErrors(b)
  {
    hide *;
    RowsInOrder(a, b);
    AnsweredInOrder(a, b);
    FailedInOrder(a, b);
  }

  /** What one outcome contributes. Errors of the four kinds that concern the whole call
      fail no date. */
  lemma OneOutcome(d: Date, q: QueryResult, e: KrxError)
    ensures var o := [Outcome(d, Success(q))];
            && AllRows(o) == q.rows && Succeeded(o) == (if q.rows == [] then [] else [d])
            && EmptyDates(o) == (if q.rows == [] then [d] else [])
            && Failures(o) == [] && CallWideErrors(o) == []
    ensures var o := [Outcome(d, Failure(e))];
            var wide := e.kind.Cancelled? || e.kind.InvalidRequest? || e.kind.LocalState? || e.kind.Internal?;
            && AllRows(o) == [] && Succeeded(o) == [] && EmptyDates(o) == []
            && Failures(o) == (if wide then [] else [DateFailure(d, e)])
            && CallWideErrors(o) == (if wide then [e] else [])
  {
    assert Front([Outcome(d, Success(q))]) == [] && Front([Outcome(d, Failure(e))]) == [];
  }

  lemma {:induction false} InItsPart(o: seq<Outcome>, k: nat)
    requires CallWideErrors(o) == [] && k < |o|
    ensures match o[k].result
            case Failure(e) => DateFailure(o[k].date, e) in Failures(o)
            case Success(q) => o[k].date in if q.rows == [] then EmptyDates(o) else Succeeded(o)
  {
    if k < |o| - 1 { InItsPart(Front(o), k); }
  }

  /** Where the date of one outcome ends up. */
  lemma OutcomeIsPlaced(sel: Calendar.Selection, o: seq<Outcome>, k: nat)
    requires CallWideErrors(o) == [] && k < |o|
    ensures match o[k].result
            case Failure(e) => DateFailure(o[k].date, e) in RawResult(sel, o).failed
            case Success(q) =>
              o[k].date in if q.rows == [] then RawResult(sel, o).skipped else RawResult(sel, o).succeeded
  {
    InItsPart(o, k);
    hide AllRows, Succeeded, EmptyDates, Failures, CallWideErrors, Provenance, Fetched, StateOf, PrimaryError;
  }

  /** Every fetched date, with rows or without, keeps the provenance of its own answer. */
  lemma {:induction false} ProvenanceIsItsOwn(o: seq<Outcome>, k: nat)
    requires k < |o| && Answered(o[k]) && forall i, j :: 0 <= i < j < |o| ==> o[i].date != o[j].date
    ensures o[k].date in Provenance(o) && Provenance(o)[o[k].date] == o[k].result.value.provenance
  {
    if k < |o| - 1 { ProvenanceIsItsOwn(Front(o), k); }
  }

  predicate NoneFailed(o: seq<Outcome>) { forall k :: 0 <= k < |o| ==> o[k].result.Success? }

  predicate SomeRows(o: seq<Outcome>) {
    exists k :: 0 <= k < |o| && o[k].result.Success? && o[k].result.value.rows != []
  }

  predicate NoneAnswered(o: seq<Outcome>) { forall k :: 0 <= k < |o| ==> o[k].result.Failure? }

  /** The four states in terms of the answers: without a failed date a range is complete if
      some date had rows and empty otherwise; with one it is failed if no date was answered
      and none skipped, and partial otherwise. */
  lemma StateMeans(sel: Calendar.Selection, o: seq<Outcome>)
    requires CallWideErrors(o) == []
    ensures RawResult(sel, o).state ==
            if NoneFailed(o) then if SomeRows(o) then Complete else Empty
            else if NoneAnswered(o) && sel.skipped == [] then Failed else Partial
  {
    PartsMean(o);
    assert sel.skipped + EmptyDates(o) == [] <==> sel.skipped == [] && EmptyDates(o) == [];
  }

  lemma {:induction false} PartsMean(o: seq<Outcome>)
    requires CallWideErrors(o) == []
    ensures Failures(o) == [] <==> NoneFailed(o)
    ensures AllRows(o) != [] <==> SomeRows(o)
    ensures Succeeded(o) == [] && EmptyDates(o) == [] <==> NoneAnswered(o)
  {
    if o != [] {
      var head, last := Front(o), Last(o);
      PartsMean(head);
      assert o == head + [last];
      assert NoneFailed(o) <==> NoneFailed(head) && last.result.Success?;
      assert NoneAnswered(o) <==> NoneAnswered(head) && last.result.Failure?;
      SomeRowsGrow(head, last);
    }
  }

  lemma SomeRowsGrow(head: seq<Outcome>, last: Outcome)
    ensures SomeRows(head + [last]) <==> SomeRows(head) || HasRows(last)
  {
    var o := head + [last];
    if SomeRows(head) {
      var k :| 0 <= k < |head| && head[k].result.Success? && head[k].result.value.rows != [];
      assert o[k] == head[k];
    }
    assert o[|head|] == last;
  }

  // ---------------------------------------------------------------- adjusted ranges

  const ADJUSTMENT_INCOMPLETE := KrxError(Integrity, 1)
  const ADJUSTMENT_INCONSISTENT := KrxError(Integrity, 2)

  function AdjustmentFailure(r: RangeResult, e: KrxError): RangeResult {
    r.(success := false, data := [], state := Failed, error := Some(e), adjustment := None)
  }

  predicate IsSecurity(row: A.Row, code: string) {
    ("ISU_CD" in row && row["ISU_CD"] == code) || ("ISU_SRT_CD" in row && row["ISU_SRT_CD"] == code)
  }

  function OfSecurity(rows: seq<A.Row>, code: string): seq<A.Row> {
    if rows == [] then []
    else OfSecurity(Front(rows), code) + (if IsSecurity(Last(rows), code) then [Last(rows)] else [])
  }

  predicate Observed(rows: seq<A.Row>, d: Date)
    requires Valid(d)
  {
    exists k :: 0 <= k < |rows| && "BAS_DD" in rows[k] && rows[k]["BAS_DD"] == Format(d)
  }

  predicate Untouched(r: RangeResult) {
    (r.state.Empty? && r.succeeded == [] && r.data == [] && r.fetchedDays == 0) || r.state.Failed?
  }

  predicate Adjustable(r: RangeResult, code: string)
    requires forall d :: d in r.succeeded ==> Valid(d)
  {
    && r.fetchedDays <= |r.succeeded| && r.state.Complete?
    && forall d :: d in r.succeeded ==> Observed(OfSecurity(r.data, code), d)
  }

  /** `apply_adjustment`. */
  ghost function ApplyAdjustment(r: RangeResult, code: string): RangeResult
    requires forall d :: d in r.succeeded ==> Valid(d)
  {
    if Untouched(r) then r
    else if !Adjustable(r, code) then AdjustmentFailure(r, ADJUSTMENT_INCOMPLETE)
    else match A.Adjust(OfSecurity(r.data, code), code)
         case Success(a) => r.(data := a.rows, adjustment := Some(a))
         case Failure(Incomplete) => AdjustmentFailure(r, ADJUSTMENT_INCOMPLETE)
         case Failure(Inconsistent) => AdjustmentFailure(r, ADJUSTMENT_INCONSISTENT)
  }

  /** Adjustment never changes which dates succeeded, failed or were skipped. Prices are
      adjusted exactly for a complete range in which every fetched date shows the security
      and whose history the price adjustment accepts. A failed range, and an empty one in
      which nothing was fetched, stay as they are; everything else ends as a failure, called
      inconsistent only if the adjustment said so. */
  lemma AdjustedMeansComplete(r: RangeResult, code: string)
    requires (forall d :: d in r.succeeded ==> Valid(d)) && r.adjustment.None?
    ensures var a := ApplyAdjustment(r, code);
            var shown := r.state.Complete? && r.fetchedDays <= |r.succeeded|
                         && forall d :: d in r.succeeded ==> Observed(OfSecurity(r.data, code), d);
            var adjusted := A.Adjust(OfSecurity(r.data, code), code);
            && a.requested == r.requested && a.succeeded == r.succeeded
            && a.failed == r.failed && a.skipped == r.skipped
            && a.provenance == r.provenance && a.fetchedDays == r.fetchedDays && a.failedDays == r.failedDays
            && (a.adjustment.Some? <==> shown && adjusted.Success?)
            && (a.adjustment.Some? ==>
                  adjusted == Success(a.adjustment.value) && a.data == a.adjustment.value.rows
                  && a.state == r.state && a.success == r.success && a.error == r.error)
            && (a.adjustment.None? ==>
                  if r.state.Failed?
                     || (r.state.Empty? && r.succeeded == [] && r.data == [] && r.fetchedDays == 0) then a == r
                  else
                    && !a.success && a.data == [] && a.state.Failed?
                    && a.error == Some(if shown && adjusted == Failure(A.Inconsistent) then ADJUSTMENT_INCONSISTENT
                                       else ADJUSTMENT_INCOMPLETE))
    ensures ADJUSTMENT_INCOMPLETE != ADJUSTMENT_INCONSISTENT
  {
    hide A.Adjust, Observed, OfSecurity;
  }

  /** The rows of the security are those that name its code as the standard or the short one,
      in their order; a date shows the security if one of them bears it. */
  lemma {:induction false} OfSecurityMeans(rows: seq<A.Row>, code: string, more: seq<A.Row>)
    ensures forall r :: r in OfSecurity(rows, code) <==>
              r in rows && (("ISU_CD" in r && r["ISU_CD"] == code) || ("ISU_SRT_CD" in r && r["ISU_SRT_CD"] == code))
    ensures OfSecurity(more + rows, code) == OfSecurity(more, code) + OfSecurity(rows, code)
  {
    if rows == [] {
      assert more + rows == more;
    } else {
      OfSecurityMeans(Front(rows), code, more);
      assert rows == Front(rows) + [Last(rows)];
      assert Front(more + rows) == more + Front(rows) && Last(more + rows) == Last(rows);
    }
  }

  lemma ShownMeans(rows: seq<A.Row>, code: string, d: Date)
    requires Valid(d)
    ensures Observed(OfSecurity(rows, code), d) <==>
              exists r :: r in rows && IsSecurity(r, code) && "BAS_DD" in r && r["BAS_DD"] == Format(d)
  {
    OfSecurityMeans(rows, code, []);
    var own := OfSecurity(rows, code);
    if r :| r in rows && IsSecurity(r, code) && "BAS_DD" in r && r["BAS_DD"] == Format(d) {
      assert r in own;
    }
    hide OfSecurity, Format;
  }

  // ---------------------------------------------------------------- the loop

  datatype Mode = Raw | AdjustedFor(code: string)

  const INTERNAL := KrxError(Internal, 0)

  method FilterRows(rows: seq<A.Row>, code: string) returns (r: seq<A.Row>)
    ensures r == OfSecurity(rows, code)
  {
    r := [];
    for i := 0 to |rows|
      invariant r == OfSecurity(rows[..i], code)
    {
      assert Front(rows[..i + 1]) == rows[..i];
      if IsSecurity(rows[i], code) { r := r + [rows[i]]; }
    }
    assert rows[..|rows|] == rows;
  }

  method Adjusted(range: RangeResult, code: string) returns (r: RangeResult)
    requires forall d :: d in range.succeeded ==> Valid(d)
    ensures r == ApplyAdjustment(range, code)
  {
    hide A.Adjust, Observed, OfSecurity;
    if range.state.Empty? && range.succeeded == [] && range.data == [] && range.fetchedDays == 0 { return range; }
    if range.state.Failed? { return range; }
    if range.fetchedDays > |range.succeeded| { return AdjustmentFailure(range, ADJUSTMENT_INCOMPLETE); }
    if !range.state.Complete? { return AdjustmentFailure(range, ADJUSTMENT_INCOMPLETE); }
    var rows := FilterRows(range.data, code);
    var missing := exists d :: d in range.succeeded && !Observed(rows, d);
    if missing { return AdjustmentFailure(range, ADJUSTMENT_INCOMPLETE); }
    var adjusted := StockHistory.AdjustStockRows(rows, code);
    match adjusted {
      case Success(a) => r := range.(data := a.rows, adjustment := Some(a));
      case Failure(Incomplete) => r := AdjustmentFailure(range, ADJUSTMENT_INCOMPLETE);
      case Failure(Inconsistent) => r := AdjustmentFailure(range, ADJUSTMENT_INCONSISTENT);
    }
  }

  /** `reduce`. */
  method Reduce(sel: Calendar.Selection, outcomes: seq<Outcome>, mode: Mode) returns (r: Result<RangeResult, KrxError>)
    requires forall o :: o in outcomes ==> Valid(o.date)
    ensures Dates(outcomes) != sel.trading ==> r == Failure(INTERNAL)
    ensures Dates(outcomes) == sel.trading && CallWideErrors(outcomes) != [] ==>
              r == Failure(PrimaryCallWideError(CallWideErrors(outcomes)).value)
    ensures Dates(outcomes) == sel.trading && CallWideErrors(outcomes) == [] ==>
              && (forall d :: d in Succeeded(outcomes) ==> Valid(d))
              && r == Success(if mode.Raw? then RawResult(sel, outcomes)
                              else ApplyAdjustment(RawResult(sel, outcomes), mode.code))
  {
    SucceededValid(outcomes);
    if Dates(outcomes) != sel.trading { return Failure(INTERNAL); }
    var rows: seq<A.Row> := [];
    var succeeded, skipped: seq<Date> := [], sel.skipped;
    var failed: seq<DateFailure> := [];
    var provenance: map<Date, int> := map[];
    var fetchedDays: nat := 0;
    var callWide: seq<KrxError> := [];
    for i := 0 to |outcomes|
      invariant rows == AllRows(outcomes[..i]) && succeeded == Succeeded(outcomes[..i])
      invariant skipped == sel.skipped + EmptyDates(outcomes[..i]) && failed == Failures(outcomes[..i])
      invariant provenance == Provenance(outcomes[..i]) && fetchedDays == Fetched(outcomes[..i])
      invariant callWide == CallWideErrors(outcomes[..i])
    {
      assert Front(outcomes[..i + 1]) == outcomes[..i];
      var o := outcomes[i];
      match o.result {
        case Success(result) =>
          fetchedDays := fetchedDays + 1;
          provenance := provenance[o.date := result.provenance];
          if result.rows == [] { skipped := skipped + [o.date]; } else { succeeded := succeeded + [o.date]; }
          rows := rows + result.rows;
        case Failure(error) =>
          if CallWide(error) {
            callWide := callWide + [error];
          } else {
            failed := failed + [DateFailure(o.date, error)];
          }
      }
    }
    assert outcomes[..|outcomes|] == outcomes;
    var primary := PrimaryCallWideError(callWide);
    PrimaryErrorMeans(callWide);
    if primary.Some? { return Failure(primary.value); }
    var state := StateOf(succeeded, failed, skipped, rows != []);
    var range := RangeResult(!state.Failed?, if state.Failed? then [] else rows, state,
                             sel.requested, succeeded, failed, skipped,
                             provenance, if state.Failed? then PrimaryError(Errors(failed)) else None,
                             if state.Failed? then 0 else fetchedDays, |failed|, None);
    if mode.Raw? { return Success(range); }
    var adjusted := Adjusted(range, mode.code);
    r := Success(adjusted);
  }

  lemma {:induction false} SucceededValid(o: seq<Outcome>)
    requires forall x :: x in o ==> Valid(x.date)
    ensures forall d :: d in Succeeded(o) ==> Valid(d)
  {
    if o != [] { SucceededValid(Front(o)); }
  }
}
