/** Whole histories of one cached response: reads, promotions, refreshes, clean-ups, process
    deaths and power losses, one operation after the other. */
module CacheRuns {
  import opened Wrappers
  import opened CacheEntry
  import opened CacheStore
  import opened CacheSafety
  import AtomicWrite

  datatype Op =
    | Read(quarantine: bool)
    | Promote
    | Refresh(rows: seq<Row>, fetchedAt: int)
    | Cleanup
    | PowerLoss(back1: bool, back2: bool)

  /** The process dies after `stop` changes, if the operation has more. */
  datatype Event = Event(op: Op, now: int, script: Script, stop: nat)

  function Settle(s: Slot, back: bool): Slot { if back then Slot(s.stable, s.stable) else Slot(s.visible, s.visible) }

  /** A version 1 hit is promoted, a version 2 hit cleans up; `finish_cache_hit`. */
  function OpStates(key: Key, d: Disk, e: Event): (r: seq<Disk>)
    ensures r != []
  {
    match e.op
    case Read(quarantine) => ReadStates(key, d, e.now, quarantine, e.script)
    case Promote =>
      if ValidV1(key, d.v1.visible, e.now) && !ValidV2(key, d.v2.visible, e.now) then
        var entry := DecodeV1(key, d.v1.visible.value, 0, e.now).value;
        PromoteStates(key, d, Hit(entry, VersionOne, d.v1.visible.value), e.now, e.script)
      else [d]
    case Refresh(rows, fetchedAt) => RefreshStates(key, d, rows, fetchedAt, e.now, e.script)
    case Cleanup => if ValidV2(key, d.v2.visible, e.now) then DropStates(key, d, e.now, e.script) else [d]
    case PowerLoss(back1, back2) => [Disk(Settle(d.v1, back1), Settle(d.v2, back2))]
  }

  function After(key: Key, d: Disk, e: Event): Disk {
    var states := OpStates(key, d, e);
    states[if e.stop < |states| then e.stop else |states| - 1]
  }

  /** What the callers see to: rows come from the conformer, times from a clock of our era. */
  predicate Proper(key: Key, d: Disk, e: Event) {
    && 0 <= e.now && IsHistorical(key.day, e.now) == Some(true)
    && (e.op.Refresh? ==> Conforming(key.fields, e.op.rows) && YEAR_ZERO <= e.op.fetchedAt)
    && (e.op.Promote? && ValidV1(key, d.v1.visible, e.now) ==>
          YEAR_ZERO <= DecodeV1(key, d.v1.visible.value, 0, e.now).value.fetchedAt)
  }

  ghost predicate IsRun(key: Key, disks: seq<Disk>, events: seq<Event>) {
    && |disks| == |events| + 1
    && (forall k :: 0 <= k < |events| ==>
          disks[k + 1] == After(key, disks[k], events[k]) && Proper(key, disks[k], events[k]))
    && (forall j, k :: 0 <= j < k < |events| ==> events[j].now <= events[k].now)
  }

  /** A valid entry stays valid as time goes on. */
  lemma ValidLater(key: Key, c: Option<Content>, now: int, later: int)
    requires now <= later && IsHistorical(key.day, later) == Some(true)
    ensures ValidV1(key, c, now) ==> ValidV1(key, c, later)
    ensures ValidV2(key, c, now) ==> ValidV2(key, c, later)
  {
    hide IsHistorical, DecodesRows, DecodeRows;
  }

  lemma SurvivesLater(key: Key, d: Disk, now: int, later: int)
    requires Survives(key, d, now) && now <= later && IsHistorical(key.day, later) == Some(true)
    ensures Survives(key, d, later)
  {
    ValidLater(key, d.v1.visible, now, later);
    ValidLater(key, d.v1.stable, now, later);
    ValidLater(key, d.v2.visible, now, later);
    ValidLater(key, d.v2.stable, now, later);
    hide ValidV1, ValidV2;
  }

  lemma PromotionKeeps(key: Key, d: Disk, e: Event, f: Disk)
    requires Survives(key, d, e.now) && e.op.Promote? && Proper(key, d, e) && f in OpStates(key, d, e)
    ensures Survives(key, f, e.now)
  {
    if f != d {
      var source := d.v1.visible.value;
      var entry := DecodeV1(key, source, 0, e.now).value;
      DecodedRowsConform(key, source.rows);
      var hit := Hit(entry, VersionOne, source);
      var first := WriteV2States(key, d, entry.rows, entry.fetchedAt, e.now, e.script);
      if Written(entry.fetchedAt).Some? {
        WrittenIsRead(key, entry.rows, entry.fetchedAt, e.now, 0, e.now);
        var c := Encode(key, entry.rows, Written(entry.fetchedAt).value);
        assert ValidV2(key, Some(c), e.now);
        hide DecodeV1, DecodeV2, Encode, Written;
        if f in first {
          PutV2Slots(d, c, e.script.write, f);
        } else {
          PutV2Ends(d, c);
          TakeKeepsOther(key, Last(first), source, e.script.remove, e.now);
        }
      }
    }
  }

  /** The clean-up gets as far as unlinking the version 1 file. */
  predicate Unlinks(e: Event) { !e.script.readFails && !e.script.remove.Refused? && e.stop >= 1 }

  predicate Loses(key: Key, d: Disk, e: Event) {
    e.op.Cleanup? && Unlinks(e) && ValidV2(key, d.v2.visible, e.now) && !ValidV2(key, d.v2.stable, e.now)
  }

  lemma CleanupSurvives(key: Key, d: Disk, e: Event)
    requires Survives(key, d, e.now) && e.op.Cleanup?
    ensures Survives(key, After(key, d, e), e.now) <==> !Loses(key, d, e)
    ensures Loses(key, d, e) ==> After(key, d, e).v1.visible.None? && After(key, d, e).v2 == d.v2
  {
    assert ValidV1(key, d.v1.visible, e.now) ==> !d.v1.visible.value.Oversized?;
    hide DecodeV1, DecodeV2;
    if ValidV2(key, d.v2.visible, e.now) {
      DropKeepsV2(key, d, e.now, e.script);
    }
  }

  lemma StepSurvives(key: Key, d: Disk, e: Event)
    requires Survives(key, d, e.now) && Proper(key, d, e)
    ensures Survives(key, After(key, d, e), e.now) <==> !Loses(key, d, e)
  {
    var f := After(key, d, e);
    assert f in OpStates(key, d, e);
    hide After, ValidV1, ValidV2;
    match e.op
    case Read(quarantine) => ReadingLosesNothing(key, d, e.now, quarantine, e.script, f);
    case Promote => PromotionKeeps(key, d, e, f);
    case Refresh(rows, fetchedAt) => RefreshIsLossless(key, d, rows, fetchedAt, e.now, e.script, f);
    case Cleanup => CleanupSurvives(key, d, e);
    case PowerLoss(_, _) =>
  }

  // ---------------------------------------------------------------- what the calls reported

  /** The outcome of the write inside a call; `None` if it failed or there was none. */
  function Reported(key: Key, d: Disk, e: Event): Option<WriteResult> {
    match e.op
    case Refresh(rows, fetchedAt) => Succeeded(WriteV2Result(key, rows, fetchedAt, e.now, e.script))
    case Promote =>
      if ValidV1(key, d.v1.visible, e.now) && !ValidV2(key, d.v2.visible, e.now) then
        var entry := DecodeV1(key, d.v1.visible.value, 0, e.now).value;
        Succeeded(WriteV2Result(key, entry.rows, entry.fetchedAt, e.now, e.script))
      else None
    case _ => None
  }

  function Succeeded(r: Result<WriteResult, Error>): Option<WriteResult> {
    match r
    case Success(w) => Some(w)
    case Failure(_) => None
  }

  /** What a caller knows of the version 2 file: that it is there, and that it is synced. */
  datatype Known = Known(written: bool, synced: bool)

  /** A write is there after its rename and synced after its directory sync, if the process
      lived that long; a power loss keeps what was there, or what was synced. */
  function Learn(h: Known, e: Event, reported: Option<WriteResult>): Known {
    if e.op.PowerLoss? then if e.op.back2 then Known(h.synced, h.synced) else Known(h.written, h.written)
    else match reported
         case Some(Durable) =>
           if e.stop >= 2 then Known(true, true) else if e.stop == 1 then Known(true, h.synced) else h
         case Some(CommittedNotSynced) => if e.stop >= 1 then Known(true, h.synced) else h
         case _ => h
  }

  /** Knowledge after the first `k` events, from whether an entry was there at the start. */
  function Learned(key: Key, disks: seq<Disk>, events: seq<Event>, k: nat): Known
    requires |disks| == |events| + 1 && k < |events|
  {
    if k == 0 then
      var there := ValidV2(key, disks[0].v2.visible, events[0].now);
      Known(there, there)
    else Learn(Learned(key, disks, events, k - 1), events[k - 1], Reported(key, disks[k - 1], events[k - 1]))
  }

  /** A clean-up that unlinks behind a version 2 file that is there and not synced. */
  predicate Careless(e: Event, h: Known) { e.op.Cleanup? && Unlinks(e) && h.written && !h.synced }

  /** Valid from now on or never. */
  ghost predicate Fixed(key: Key, c: Option<Content>, now: int) {
    ValidV2(key, c, now) || forall t :: t >= now ==> !ValidV2(key, c, t)
  }

  ghost predicate Agrees(key: Key, d: Disk, now: int, h: Known) {
    && (ValidV2(key, d.v2.visible, now) <==> h.written) && (ValidV2(key, d.v2.stable, now) <==> h.synced)
    && Fixed(key, d.v2.visible, now) && Fixed(key, d.v2.stable, now) && (h.synced ==> h.written)
  }

  /** At the start the version 2 file is as its last sync left it, and what is no entry
      will not become one. */
  ghost predicate Started(key: Key, disks: seq<Disk>, events: seq<Event>) {
    && |events| > 0 && |disks| == |events| + 1
    && disks[0].v2.visible == disks[0].v2.stable && Fixed(key, disks[0].v2.visible, events[0].now)
  }

  lemma AgreesLater(key: Key, d: Disk, now: int, h: Known, later: int)
    requires Agrees(key, d, now, h) && now <= later && IsHistorical(key.day, later) == Some(true)
    ensures Agrees(key, d, later, h)
  {
    ValidLater(key, d.v2.visible, now, later);
    ValidLater(key, d.v2.stable, now, later);
    hide ValidV2;
  }

  /** How the version 2 file changes while a new entry is written. */
  lemma WriteAgrees(key: Key, d: Disk, e: Event, rows: seq<Row>, fetchedAt: int, h: Known, f: Disk)
    requires Agrees(key, d, e.now, h) && Conforming(key.fields, rows) && 0 <= e.now && YEAR_ZERO <= fetchedAt
    requires e.op.Promote? || e.op.Refresh?
    requires var states := WriteV2States(key, d, rows, fetchedAt, e.now, e.script);
             f.v2 == states[if e.stop < |states| then e.stop else |states| - 1].v2
    ensures Agrees(key, f, e.now, Learn(h, e, Succeeded(WriteV2Result(key, rows, fetchedAt, e.now, e.script))))
  {
    var w := WriteV2Result(key, rows, fetchedAt, e.now, e.script);
    if w.Success? && !w.value.Skipped? {
      WrittenIsRead(key, rows, fetchedAt, e.now, 0, e.now);
      var c := Encode(key, rows, Written(fetchedAt).value);
      assert ValidV2(key, Some(c), e.now);
    }
    hide DecodeV2, Encode, Written, Fixed;
    hide IsHistorical;
  }

  lemma PromoteAgrees(key: Key, d: Disk, e: Event, h: Known)
    requires Agrees(key, d, e.now, h) && Proper(key, d, e) && e.op.Promote?
    ensures Agrees(key, After(key, d, e), e.now, Learn(h, e, Reported(key, d, e)))
  {
    if ValidV1(key, d.v1.visible, e.now) && !ValidV2(key, d.v2.visible, e.now) {
      var source := d.v1.visible.value;
      var entry := DecodeV1(key, source, 0, e.now).value;
      DecodedRowsConform(key, source.rows);
      var first := WriteV2States(key, d, entry.rows, entry.fetchedAt, e.now, e.script);
      TakeKeepsOther(key, Last(first), source, e.script.remove, e.now);
      var n := if e.stop < |first| then e.stop else |first| - 1;
      hide DecodeV1, DecodeV2, Encode, Written, Agrees, Learn, WriteV2States, WriteV2Result;
      AfterFirst(PromoteStates(key, d, Hit(entry, VersionOne, source), e.now, e.script), first, e.stop);
      WriteAgrees(key, d, e, entry.rows, entry.fetchedAt, h, After(key, d, e));
    }
  }

  lemma RefreshAgrees(key: Key, d: Disk, e: Event, h: Known)
    requires Agrees(key, d, e.now, h) && Proper(key, d, e) && e.op.Refresh?
    ensures Agrees(key, After(key, d, e), e.now, Learn(h, e, Reported(key, d, e)))
  {
    var first := WriteV2States(key, d, e.op.rows, e.op.fetchedAt, e.now, e.script);
    DropKeepsV2(key, Last(first), e.now, e.script);
    hide DropStates, Agrees, Learn, WriteV2States, WriteV2Result;
    AfterFirst(RefreshStates(key, d, e.op.rows, e.op.fetchedAt, e.now, e.script), first, e.stop);
    WriteAgrees(key, d, e, e.op.rows, e.op.fetchedAt, h, After(key, d, e));
  }

  /** What follows the write leaves the version 2 file alone. */
  lemma AfterFirst(all: seq<Disk>, first: seq<Disk>, stop: nat)
    requires first != [] && |first| <= |all| && all[..|first|] == first
    requires forall k :: |first| <= k < |all| ==> all[k].v2 == Last(first).v2
    ensures all[if stop < |all| then stop else |all| - 1].v2 == first[if stop < |first| then stop else |first| - 1].v2
  {
    var n := if stop < |all| then stop else |all| - 1;
    if n < |first| { assert all[n] == all[..|first|][n]; }
  }

  lemma ReadAgrees(key: Key, d: Disk, e: Event, h: Known)
    requires Agrees(key, d, e.now, h) && e.op.Read?
    ensures Agrees(key, After(key, d, e), e.now, h)
  {
    hide DecodeV1, DecodeV2;
    var f := After(key, d, e);
    assert f in OpStates(key, d, e);
    if f.v2 != d.v2 {
      ReadTakesInvalid(key, d, e.now, e.op.quarantine, e.script, f);
    }
  }

  lemma ReadTakesInvalid(key: Key, d: Disk, now: int, quarantine: bool, script: Script, f: Disk)
    requires f in ReadStates(key, d, now, quarantine, script)
    ensures f.v2 == d.v2 || (!ValidV2(key, d.v2.visible, now) && f.v2.visible.None?)
    ensures f.v2.stable.None? || f.v2.stable == d.v2.stable
  {
    hide DecodeV1, DecodeV2;
    if !script.readV2Fails && !ValidV2(key, d.v2.visible, now) && quarantine {
      var first := if d.v2.visible.Some? then TakeV2States(d, d.v2.visible.value, script.quarantineV2) else [d];
      var last := Last(first);
      if last.v1.visible.Some? { TakeKeepsOther(key, last, last.v1.visible.value, script.quarantine, now); }
      assert f in first || f.v2 == last.v2;
    }
  }

  lemma OtherAgrees(key: Key, d: Disk, e: Event, h: Known)
    requires Agrees(key, d, e.now, h) && (e.op.Cleanup? || e.op.PowerLoss?)
    ensures Agrees(key, After(key, d, e), e.now, Learn(h, e, Reported(key, d, e)))
  {
    DropKeepsV2(key, d, e.now, e.script);
    hide DecodeV1, DecodeV2, DropStates;
    assert After(key, d, e) in OpStates(key, d, e);
  }

  /** The calls' reports tell exactly whether a valid version 2 entry is there and synced. */
  lemma StepAgrees(key: Key, d: Disk, e: Event, h: Known)
    requires Agrees(key, d, e.now, h) && Proper(key, d, e)
    ensures Agrees(key, After(key, d, e), e.now, Learn(h, e, Reported(key, d, e)))
  {
    hide After, Agrees, Proper;
    match e.op
    case Read(_) => ReadAgrees(key, d, e, h);
    case Promote => PromoteAgrees(key, d, e, h);
    case Refresh(_, _) => RefreshAgrees(key, d, e, h);
    case Cleanup => OtherAgrees(key, d, e, h);
    case PowerLoss(_, _) => OtherAgrees(key, d, e, h);
  }

  lemma RunEvent(key: Key, disks: seq<Disk>, events: seq<Event>, k: nat)
    requires IsRun(key, disks, events) && k < |events|
    ensures disks[k + 1] == After(key, disks[k], events[k]) && Proper(key, disks[k], events[k])
    ensures IsHistorical(key.day, events[k].now) == Some(true)
    ensures k > 0 ==> events[k - 1].now <= events[k].now
  {
    hide After, IsHistorical;
  }

  lemma {:induction false} ReportsTell(key: Key, disks: seq<Disk>, events: seq<Event>, k: nat)
    requires IsRun(key, disks, events) && Started(key, disks, events) && k < |events|
    ensures Agrees(key, disks[k], events[k].now, Learned(key, disks, events, k))
  {
    if k > 0 {
      ReportsTell(key, disks, events, k - 1);
      RunEvent(key, disks, events, k - 1);
      RunEvent(key, disks, events, k);
      hide Agrees, After, Proper, IsRun, Started, Learn, Reported, IsHistorical;
      var h := Learned(key, disks, events, k - 1);
      StepAgrees(key, disks[k - 1], events[k - 1], h);
      AgreesLater(key, disks[k], events[k - 1].now, Learned(key, disks, events, k), events[k].now);
    }
  }

  // ---------------------------------------------------------------- when an entry is lost

  /** A step of a history loses the entry exactly if it is a clean-up that unlinks the
      version 1 file while, by what the calls before it reported, the version 2 file is
      there and not synced. */
  lemma LossIsCareless(key: Key, disks: seq<Disk>, events: seq<Event>, k: nat)
    requires IsRun(key, disks, events) && Started(key, disks, events) && k < |events|
    requires Survives(key, disks[k], events[k].now)
    ensures !Survives(key, disks[k + 1], events[k].now) <==> Careless(events[k], Learned(key, disks, events, k))
  {
    ReportsTell(key, disks, events, k);
    RunEvent(key, disks, events, k);
    hide IsRun, Started, Survives, After, Proper, Learned, Fixed, ValidV2;
    StepSurvives(key, disks[k], events[k]);
  }

  /** What a careless clean-up has lost stays lost until something is written. */
  lemma LostForGood(key: Key, d: Disk, e: Event, h: Known, later: int)
    requires Survives(key, d, e.now) && Agrees(key, d, e.now, h) && Careless(e, h) && later >= e.now
    ensures !Survives(key, After(key, d, e), later)
  {
    CleanupSurvives(key, d, e);
    hide After;
  }

  lemma NextSurvives(key: Key, disks: seq<Disk>, events: seq<Event>, n: nat)
    requires IsRun(key, disks, events) && Started(key, disks, events) && 0 < n < |events|
    requires Survives(key, disks[n - 1], events[n - 1].now)
    ensures Survives(key, disks[n], events[n].now) <==> !Careless(events[n - 1], Learned(key, disks, events, n - 1))
  {
    LossIsCareless(key, disks, events, n - 1);
    RunEvent(key, disks, events, n - 1);
    RunEvent(key, disks, events, n);
    ReportsTell(key, disks, events, n - 1);
    hide Survives, Careless, Learned, Agrees, After, Proper, IsRun, Started, IsHistorical;
    var d, e, h := disks[n - 1], events[n - 1], Learned(key, disks, events, n - 1);
    if Careless(e, h) {
      LostForGood(key, d, e, h, events[n].now);
    } else {
      SurvivesLater(key, disks[n], e.now, events[n].now);
    }
  }

  /** Over any history of reads, promotions, refreshes, clean-ups, process deaths and power
      losses a durable entry survives throughout exactly if no clean-up is careless. */
  lemma {:induction false} EntrySurvivesHistory(key: Key, disks: seq<Disk>, events: seq<Event>, n: nat)
    requires IsRun(key, disks, events) && Started(key, disks, events) && n < |events|
    requires Survives(key, disks[0], events[0].now)
    ensures (forall k :: 0 <= k <= n ==> Survives(key, disks[k], events[k].now))
       <==> (forall k :: 0 <= k < n ==> !Careless(events[k], Learned(key, disks, events, k)))
  {
    assert |disks| == |events| + 1;
    hide *;
    if n > 0 {
      EntrySurvivesHistory(key, disks, events, n - 1);
      if Survives(key, disks[n - 1], events[n - 1].now) { NextSurvives(key, disks, events, n); }
    }
  }

  /** The proviso on promoted times is needed: with every call succeeding, a promotion keeps
      the entry exactly if its time, cut to milliseconds, still prints as a year. */
  lemma PromotionKeepsFromYearZero(key: Key, d: Disk, e: Event)
    requires e.op.Promote? && 0 <= e.now && IsHistorical(key.day, e.now) == Some(true) && e.stop >= 4
    requires ValidV1(key, d.v1.visible, e.now) && !ValidV2(key, d.v2.visible, e.now)
    requires e.script.fits && e.script.write == AtomicWrite.Durable && e.script.remove == Done
    requires Written(DecodeV1(key, d.v1.visible.value, 0, e.now).value.fetchedAt).Some?
    ensures var entry := DecodeV1(key, d.v1.visible.value, 0, e.now).value;
            Survives(key, After(key, d, e), e.now) <==> TruncMs(entry.fetchedAt) * NS_PER_MS >= YEAR_ZERO
  {
    var source := d.v1.visible.value;
    var entry := DecodeV1(key, source, 0, e.now).value;
    DecodedRowsConform(key, source.rows);
    RoundTrip(key, entry.rows, entry.fetchedAt, 0, e.now);
    TruncBounds(entry.fetchedAt);
    var c := Encode(key, entry.rows, Written(entry.fetchedAt).value);
    assert WriteV2Result(key, entry.rows, entry.fetchedAt, e.now, e.script) == Success(Durable);
    assert !source.Oversized?;
    hide DecodeV1, DecodeV2, Encode, Written, TruncMs, IsHistorical;
    var first := PutV2States(d, c, e.script.write);
    var durable := d.(v2 := Slot(Some(c), Some(c)));
    PutV2Ends(d, c);
    var rest := TakeV1States(durable, source, Done);
    assert |first| == 3 && |rest| == 3;
    assert After(key, d, e) == durable.(v1 := Slot(None, None));
  }

  const OLD_KEY := Key("op", "/path", "contract", {"F"}, [("basDd", "00010101")], 1)
  const OLD_FETCH := YEAR_ZERO - 3600 * NS_PER_SECOND
  const OLD_ENTRY := V1(1, "/path", [("basDd", "00010101")], Some(OLD_FETCH), [Object(map["F" := Some("1")])])

  /** Such an entry, one hour before year 0, is accepted; promoting it, with every call
      succeeding, leaves no version 1 file and a version 2 file that is never an entry. */
  lemma EntryBeforeYearZeroIsLost(script: Script)
    requires script.fits && script.write == AtomicWrite.Durable && script.remove == Done && !script.readFails
    ensures var before := Disk(Slot(Some(OLD_ENTRY), Some(OLD_ENTRY)), Slot(None, None));
            var after := After(OLD_KEY, before, Event(Promote, 0, script, 4));
            && ValidV1(OLD_KEY, Some(OLD_ENTRY), 0) && Survives(OLD_KEY, before, 0)
            && after.v1 == Slot(None, None) && after.v2.visible == after.v2.stable
            && forall later :: !ValidV2(OLD_KEY, after.v2.visible, later)
  {
    var before := Disk(Slot(Some(OLD_ENTRY), Some(OLD_ENTRY)), Slot(None, None));
    var e := Event(Promote, 0, script, 4);
    var fields := map["F" := Some("1")];
    assert fields.Keys == {"F"};
    assert OLD_ENTRY.rows[0] == Object(fields) && DecodesRow({"F"}, Object(fields));
    assert IsHistorical(1, 0) == Some(true);
    assert DecodeV1(OLD_KEY, OLD_ENTRY, 0, 0).Some?;
    var entry := DecodeV1(OLD_KEY, OLD_ENTRY, 0, 0).value;
    assert Written(OLD_FETCH) == Some(None);
    var c := Encode(OLD_KEY, entry.rows, None);
    hide DecodeV1, DecodesRows, DecodeRows, IsHistorical;
    assert WriteV2Result(OLD_KEY, entry.rows, OLD_FETCH, 0, script) == Success(Durable);
    PutV2Ends(before, c);
    var durable := before.(v2 := Slot(Some(c), Some(c)));
    assert |PutV2States(before, c, script.write)| == 3 && |TakeV1States(durable, OLD_ENTRY, Done)| == 3;
    assert After(OLD_KEY, before, e) == durable.(v1 := Slot(None, None));
  }
}
