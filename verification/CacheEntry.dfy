/**
  One cached response: what the two entry formats store and when a stored entry is
  accepted.  Times are nanoseconds since 1970, dates are day numbers of `CivilDate`.
  JSON text and digests are abstracted: a file is the value it parses to.
*/
module CacheEntry {
  import opened Wrappers
  import CivilDate

  const NS_PER_MS := 1_000_000
  const NS_PER_SECOND := 1_000_000_000
  const NS_PER_DAY := 86_400 * NS_PER_SECOND
  const KST_OFFSET := 9 * 3600 * NS_PER_SECOND
  const FUTURE_SKEW := 5 * 60 * NS_PER_SECOND
  const EPOCH_DAY := 719_163
  const LAST_DAY := 3_652_059

  /** The instants a `jiff::Timestamp` can hold. */
  const MIN_INSTANT := -377_705_023_201 * NS_PER_SECOND
  const MAX_INSTANT := 253_402_207_200 * NS_PER_SECOND + 999_999_999

  /** The first instant whose year prints with four digits and no sign. */
  const YEAR_ZERO := -62_167_219_200 * NS_PER_SECOND

  type Row = map<string, string>

  /** A JSON value in the place of a row; a field that is not a string is `None`. */
  datatype Value = Object(fields: map<string, Option<string>>) | NotObject

  datatype Key = Key(operation: string, endpoint: string, contract: string, fields: set<string>,
                     params: seq<(string, string)>, day: int)

  /** What a file at an entry's path may hold. `fetchedAt` is absent if it does not parse. */
  datatype Content =
    | V1(version: nat, endpoint: string, params: seq<(string, string)>, fetchedAt: Option<int>, rows: seq<Value>)
    | V2(version: nat, operation: string, contract: string, params: seq<(string, string)>,
         fetchedAt: Option<int>, rows: seq<Value>)
    | Garbage
    | Oversized

  datatype Freshness = Fresh | Stale

  datatype Entry = Entry(rows: seq<Row>, fetchedAt: int, freshness: Freshness)

  datatype Error = CacheReadFailed | CacheWriteFailed

  // ---------------------------------------------------------------- time

  predicate Representable(t: int) { MIN_INSTANT <= t <= MAX_INSTANT }

  function TodayInKorea(now: int): int { EPOCH_DAY + (now + KST_OFFSET) / NS_PER_DAY }

  /** `is_historical`; `None` where the calendar does not reach. */
  function IsHistorical(day: int, now: int): Option<bool> {
    if !Representable(now + KST_OFFSET) || !(1 <= TodayInKorea(now) <= LAST_DAY) then None
    else Some(day < TodayInKorea(now))
  }

  lemma CalendarConstants()
    ensures CivilDate.DayNumber(CivilDate.Date(1970, 1, 1)) == EPOCH_DAY
    ensures CivilDate.DayNumber(CivilDate.LAST) == LAST_DAY
    ensures CivilDate.DayNumber(CivilDate.FIRST) == 1
  {
    CivilDate.MonthSums(9999);
  }

  /** Midnight of a civil date in Greenwich. */
  function Midnight(year: int, month: int, day: int): int
    requires 1 <= month <= 12
  {
    (CivilDate.DayNumber(CivilDate.Date(year, month, day)) - EPOCH_DAY) * NS_PER_DAY
  }

  /** The first four-digit year begins where it should, and the instants that can be held
      reach from 1:59:59 on 2 January -9999 to the end of the second before 22:00:01 on
      30 December 9999. */
  lemma InstantConstants()
    ensures YEAR_ZERO == Midnight(0, 1, 1)
    ensures MIN_INSTANT == Midnight(-9999, 1, 2) + (3_600 + 59 * 60 + 59) * NS_PER_SECOND
    ensures MAX_INSTANT == Midnight(9999, 12, 30) + (22 * 3_600 + 1) * NS_PER_SECOND - 1
  {
    FarYears();
    CivilDate.MonthSums(9999);
    assert CivilDate.DayNumber(CivilDate.Date(0, 1, 1)) == -365;
    assert CivilDate.DayNumber(CivilDate.Date(-9999, 1, 2)) == -3_652_423;
    assert CivilDate.DayNumber(CivilDate.Date(9999, 12, 30)) == 3_652_058;
  }

  lemma FarYears()
    ensures CivilDate.DaysBeforeYear(0) == -366
    ensures CivilDate.DaysBeforeYear(-9999) == -3_652_425
    ensures CivilDate.DaysBeforeYear(9999) == 3_651_694
  {}

  /** A date is historical from the Korean midnight that ends it, as long as the Korean clock
      shows an instant that can be held and a year from 1 on. */
  lemma HistoricalMeans(day: int, now: int)
    ensures IsHistorical(day, now).Some? <==>
              && MIN_INSTANT <= now + 32_400_000_000_000 <= MAX_INSTANT
              && now >= (1 - 719_163) * 86_400_000_000_000 - 32_400_000_000_000
    ensures IsHistorical(day, now).Some? ==>
              (IsHistorical(day, now).value <==>
               now >= (day + 1 - 719_163) * 86_400_000_000_000 - 32_400_000_000_000)
  {
    var n := now + 32_400_000_000_000;
    var q := n / 86_400_000_000_000;
    assert q * 86_400_000_000_000 <= n < (q + 1) * 86_400_000_000_000;
  }

  /** Milliseconds, cut toward zero. */
  function TruncMs(t: int): int { if t >= 0 then t / NS_PER_MS else -(-t / NS_PER_MS) }

  /** `canonical_cache_timestamp`. */
  function Canonical(t: int): Option<int> { if Representable(t) then Some(TruncMs(t)) else None }

  /** `format_timestamp` and what `parse_timestamp` makes of its text: a year before 0
      prints with a sign and is not read back. */
  function Written(t: int): Option<Option<int>> {
    match Canonical(t)
    case None => None
    case Some(ms) => Some(if ms * NS_PER_MS >= YEAR_ZERO then Some(ms * NS_PER_MS) else None)
  }

  lemma TruncBounds(t: int)
    ensures t >= 0 ==> TruncMs(t) * NS_PER_MS <= t < TruncMs(t) * NS_PER_MS + NS_PER_MS
    ensures t < 0 ==> t <= TruncMs(t) * NS_PER_MS < t + NS_PER_MS && TruncMs(t) <= 0
    ensures t >= 0 ==> TruncMs(t) >= 0
    ensures TruncMs(TruncMs(t) * NS_PER_MS) == TruncMs(t)
    ensures Representable(t) ==> Representable(TruncMs(t) * NS_PER_MS)
  {}

  // ---------------------------------------------------------------- rows

  /** `decode_row`: exactly the contract's fields, all strings. */
  predicate DecodesRow(fields: set<string>, v: Value) {
    v.Object? && v.fields.Keys == fields && forall f :: f in v.fields ==> v.fields[f].Some?
  }

  function DecodeRow(fields: set<string>, v: Value): Row
    requires DecodesRow(fields, v)
  {
    map f | f in v.fields :: v.fields[f].value
  }

  predicate DecodesRows(fields: set<string>, rows: seq<Value>) {
    forall k :: 0 <= k < |rows| ==> DecodesRow(fields, rows[k])
  }

  function DecodeRows(fields: set<string>, rows: seq<Value>): (r: seq<Row>)
    requires DecodesRows(fields, rows)
    ensures |r| == |rows|
  {
    seq(|rows|, k requires 0 <= k < |rows| => DecodeRow(fields, rows[k]))
  }

  /** `row_value`. */
  function RowValue(row: Row): Value { Object(map f | f in row :: Some(row[f])) }

  function RowValues(rows: seq<Row>): (r: seq<Value>)
    ensures |r| == |rows| && forall k :: 0 <= k < |rows| ==> r[k] == RowValue(rows[k])
  {
    seq(|rows|, k requires 0 <= k < |rows| => RowValue(rows[k]))
  }

  predicate Conforming(fields: set<string>, rows: seq<Row>) { forall k :: 0 <= k < |rows| ==> rows[k].Keys == fields }

  lemma RowsRoundTrip(fields: set<string>, rows: seq<Row>)
    ensures DecodesRows(fields, RowValues(rows)) <==> Conforming(fields, rows)
    ensures Conforming(fields, rows) ==> DecodeRows(fields, RowValues(rows)) == rows
  {
    forall k | 0 <= k < |rows|
      ensures DecodesRow(fields, RowValues(rows)[k]) <==> rows[k].Keys == fields
      ensures rows[k].Keys == fields ==> DecodeRow(fields, RowValues(rows)[k]) == rows[k]
    {
      RowRoundTrip(fields, rows[k]);
    }
  }

  lemma RowRoundTrip(fields: set<string>, row: Row)
    ensures DecodesRow(fields, RowValue(row)) <==> row.Keys == fields
    ensures row.Keys == fields ==> DecodeRow(fields, RowValue(row)) == row
  {
    assert RowValue(row).fields.Keys == row.Keys;
  }

  // ---------------------------------------------------------------- decoding

  function Age(fetchedAt: int, maxAge: nat, now: int): Freshness {
    if (if now >= fetchedAt then now - fetchedAt else 0) >= maxAge then Stale else Fresh
  }

  /** `cache_result`. */
  function CacheResult(key: Key, fetchedAt: Option<int>, rows: seq<Value>, maxAge: nat, now: int): Option<Entry> {
    if fetchedAt.None? || fetchedAt.value - now > FUTURE_SKEW || !DecodesRows(key.fields, rows) || rows == [] then None
    else Some(Entry(DecodeRows(key.fields, rows), fetchedAt.value, Age(fetchedAt.value, maxAge, now)))
  }

  function DecodeV1(key: Key, c: Content, maxAge: nat, now: int): Option<Entry> {
    if !c.V1? || c.version != 1 || c.endpoint != key.endpoint || c.params != key.params || c.rows == []
       || IsHistorical(key.day, now) != Some(true) then None
    else CacheResult(key, c.fetchedAt, c.rows, maxAge, now)
  }

  function DecodeV2(key: Key, c: Content, maxAge: nat, now: int): Option<Entry> {
    if !c.V2? || c.version != 2 || c.operation != key.operation || c.contract != key.contract || c.params != key.params
       || c.rows == [] || IsHistorical(key.day, now) != Some(true) then None
    else CacheResult(key, c.fetchedAt, c.rows, maxAge, now)
  }

  /** The entry that `write_v2_outcome` serialises. */
  function Encode(key: Key, rows: seq<Row>, fetchedAt: Option<int>): Content {
    V2(2, key.operation, key.contract, key.params, fetchedAt, RowValues(rows))
  }

  lemma ValuesOfDecoded(fields: set<string>, rows: seq<Value>)
    requires DecodesRows(fields, rows)
    ensures RowValues(DecodeRows(fields, rows)) == rows
  {
    forall k | 0 <= k < |rows| ensures RowValue(DecodeRow(fields, rows[k])) == rows[k] {
      assert DecodesRow(fields, rows[k]);
      assert RowValue(DecodeRow(fields, rows[k])).fields == rows[k].fields;
    }
  }

  /** What makes an entry acceptable to a reader, whatever the format of its file. */
  predicate Readable(key: Key, e: Entry, maxAge: nat, now: int) {
    && e.rows != [] && Conforming(key.fields, e.rows) && IsHistorical(key.day, now) == Some(true)
    && e.fetchedAt <= now + 300 * NS_PER_SECOND
    && (e.freshness.Stale? <==> maxAge == 0 || now - e.fetchedAt >= maxAge)
  }

  /** A file decodes to an entry exactly if it is that entry's own text in its format, with
      the key's identity, and the entry is acceptable now. */
  lemma DecodesExactly(key: Key, c: Content, maxAge: nat, now: int, e: Entry)
    ensures DecodeV1(key, c, maxAge, now) == Some(e) <==>
              && c == V1(1, key.endpoint, key.params, Some(e.fetchedAt), RowValues(e.rows))
              && Readable(key, e, maxAge, now)
    ensures DecodeV2(key, c, maxAge, now) == Some(e) <==>
              && c == V2(2, key.operation, key.contract, key.params, Some(e.fetchedAt), RowValues(e.rows))
              && Readable(key, e, maxAge, now)
  {
    RowsRoundTrip(key.fields, e.rows);
    if (c.V1? || c.V2?) && DecodesRows(key.fields, c.rows) {
      ValuesOfDecoded(key.fields, c.rows);
      DecodedRowsConform(key, c.rows);
    }
    hide DecodesRows, DecodeRows, RowValues, Conforming, IsHistorical;
    assert |RowValues(e.rows)| == |e.rows|;
  }

  /** What a later reader makes of a written entry: the same rows, the time cut to
      milliseconds, and stale exactly from `maxAge` on.  It is refused only if the time
      does not print as a four-digit year or, before 1970, if cutting the time moved it
      past the allowed skew. */
  lemma RoundTrip(key: Key, rows: seq<Row>, fetchedAt: int, maxAge: nat, later: int)
    requires rows != [] && Conforming(key.fields, rows) && IsHistorical(key.day, later) == Some(true)
    requires Written(fetchedAt).Some?
    ensures var cut := TruncMs(fetchedAt) * NS_PER_MS;
            DecodeV2(key, Encode(key, rows, Written(fetchedAt).value), maxAge, later)
            == if cut >= YEAR_ZERO && cut - later <= FUTURE_SKEW
               then Some(Entry(rows, cut, if later - cut >= maxAge || maxAge == 0 then Stale else Fresh)) else None
  {
    RowsRoundTrip(key.fields, rows);
    hide TruncMs, DecodesRows, DecodeRows, RowValues, Conforming, IsHistorical;
    assert |RowValues(rows)| == |rows|;
  }

  /** After 1970 the writer's own check is enough: what it accepted is read back by every
      reader whose clock has not gone back. */
  lemma WrittenIsRead(key: Key, rows: seq<Row>, fetchedAt: int, now: int, maxAge: nat, later: int)
    requires rows != [] && Conforming(key.fields, rows) && IsHistorical(key.day, later) == Some(true)
    requires Written(fetchedAt).Some? && fetchedAt - now <= FUTURE_SKEW && 0 <= now <= later && fetchedAt >= YEAR_ZERO
    ensures DecodeV2(key, Encode(key, rows, Written(fetchedAt).value), maxAge, later).Some?
  {
    RoundTrip(key, rows, fetchedAt, maxAge, later);
    TruncBounds(fetchedAt);
    hide DecodeV2, Encode;
  }

  // ---------------------------------------------------------------- refresh generations

  /** `same_refresh_generation`. */
  predicate SameGeneration(e: Entry, f: Entry) {
    Canonical(e.fetchedAt).Some? && Canonical(f.fetchedAt).Some?
    && Canonical(e.fetchedAt) == Canonical(f.fetchedAt) && e.rows == f.rows
  }

  /** Two entries of one generation have the same rows and, from 1970 on, were fetched in the
      same millisecond. */
  lemma GenerationMeans(e: Entry, f: Entry)
    requires 0 <= e.fetchedAt <= MAX_INSTANT && 0 <= f.fetchedAt <= MAX_INSTANT
    ensures SameGeneration(e, f) <==> e.rows == f.rows && e.fetchedAt / 1_000_000 == f.fetchedAt / 1_000_000
  {}

  /** Promotion writes the rows and the cut time of a version 1 entry; whoever reads the
      result sees the generation of the entry it came from. */
  lemma PromotionKeepsGeneration(key: Key, v1: Content, maxAge: nat, now: int, maxAge': nat, later: int)
    requires DecodeV1(key, v1, maxAge, now).Some?
    requires var e := DecodeV1(key, v1, maxAge, now).value;
             && Written(e.fetchedAt).Some?
             && DecodeV2(key, Encode(key, e.rows, Written(e.fetchedAt).value), maxAge', later).Some?
    ensures var e := DecodeV1(key, v1, maxAge, now).value;
            SameGeneration(e, DecodeV2(key, Encode(key, e.rows, Written(e.fetchedAt).value), maxAge', later).value)
  {
    var e := DecodeV1(key, v1, maxAge, now).value;
    DecodedRowsConform(key, v1.rows);
    RoundTrip(key, e.rows, e.fetchedAt, maxAge', later);
    TruncBounds(e.fetchedAt);
    hide TruncMs, RowValues, DecodeRows, DecodesRows, Conforming, IsHistorical;
  }

  lemma DecodedRowsConform(key: Key, rows: seq<Value>)
    requires DecodesRows(key.fields, rows)
    ensures Conforming(key.fields, DecodeRows(key.fields, rows))
  {
    forall k | 0 <= k < |rows| ensures DecodeRow(key.fields, rows[k]).Keys == key.fields {
      assert DecodesRow(key.fields, rows[k]);
    }
  }
}
