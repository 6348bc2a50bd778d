/**
  The two files of one cached response and the operations on them.  `stable` is what the
  last directory sync left; a power loss keeps either `visible` or `stable`, for each
  file on its own (`AtomicWrite` proves this of a replacement).  The conditional removal
  and renaming of a file compare and act in one step.
*/
module CacheStore {
  import opened Wrappers
  import opened CacheEntry
  import AtomicWrite

  datatype Slot = Slot(visible: Option<Content>, stable: Option<Content>)

  datatype Disk = Disk(v1: Slot, v2: Slot)

  datatype Version = VersionOne | VersionTwo

  datatype Hit = Hit(entry: Entry, version: Version, source: Content)

  datatype CacheRead = Found(hit: Hit) | Miss | Invalid

  datatype WriteResult = Skipped | Durable | CommittedNotSynced

  /** How a conditional removal or rename of an unchanged file goes. */
  datatype Move = Done | Refused | NotSynced

  // ---------------------------------------------------------------- one file

  /** `change_observed_file` seen from the directory it takes the file out of. */
  function Taken(s: Slot, observed: Content, move: Move): Slot {
    if observed.Oversized? || s.visible != Some(observed) then s
    else match move
         case Done => Slot(None, None)
         case Refused => s
         case NotSynced => s.(visible := None)
  }

  function TakenResult(s: Slot, observed: Content, move: Move): Result<bool, Error> {
    if observed.Oversized? || s.visible != Some(observed) then Success(false)
    else if move.Done? then Success(true) else Failure(CacheWriteFailed)
  }

  /** The states a removal passes through. */
  function TakeStates(s: Slot, observed: Content, move: Move): (r: seq<Slot>)
    ensures |r| > 0 && r[|r| - 1] == Taken(s, observed, move)
  {
    if observed.Oversized? || s.visible != Some(observed) || move.Refused? then [s]
    else if move.NotSynced? then [s, s.(visible := None)]
    else [s, s.(visible := None), Slot(None, None)]
  }

  /** The states a replacement passes through, as readers and crashes see them. */
  function PutStates(s: Slot, c: Content, outcome: AtomicWrite.Outcome): (r: seq<Slot>)
    ensures |r| > 0
  {
    match outcome
    case NotCommitted => [s]
    case CommittedNotSynced => [s, s.(visible := Some(c))]
    case Durable => [s, s.(visible := Some(c)), Slot(Some(c), Some(c))]
  }

  // ---------------------------------------------------------------- what survives

  predicate ValidV1(key: Key, c: Option<Content>, now: int) { c.Some? && DecodeV1(key, c.value, 0, now).Some? }

  predicate ValidV2(key: Key, c: Option<Content>, now: int) { c.Some? && DecodeV2(key, c.value, 0, now).Some? }

  /** Whatever a power loss leaves of the two files, one of them is a valid entry. */
  predicate Survives(key: Key, d: Disk, now: int) {
    || (ValidV1(key, d.v1.visible, now) && ValidV1(key, d.v1.stable, now))
    || (ValidV2(key, d.v2.visible, now) && ValidV2(key, d.v2.stable, now))
  }

  ghost predicate AfterCrash(d: Disk, c1: Option<Content>, c2: Option<Content>) {
    (c1 == d.v1.visible || c1 == d.v1.stable) && (c2 == d.v2.visible || c2 == d.v2.stable)
  }

  lemma SurvivesMeans(key: Key, d: Disk, now: int)
    ensures Survives(key, d, now) <==>
              forall c1, c2 :: AfterCrash(d, c1, c2) ==> ValidV1(key, c1, now) || ValidV2(key, c2, now)
  {
    if !Survives(key, d, now) {
      var c1 := if ValidV1(key, d.v1.visible, now) then d.v1.stable else d.v1.visible;
      var c2 := if ValidV2(key, d.v2.visible, now) then d.v2.stable else d.v2.visible;
      assert AfterCrash(d, c1, c2);
    }
    hide ValidV1, ValidV2;
  }

  /** Validity does not depend on the age a reader tolerates. */
  lemma ValidAtAnyAge(key: Key, c: Content, age: nat, age': nat, now: int)
    ensures DecodeV1(key, c, age, now).Some? <==> DecodeV1(key, c, age', now).Some?
    ensures DecodeV2(key, c, age, now).Some? <==> DecodeV2(key, c, age', now).Some?
  {
    hide IsHistorical, DecodesRows, DecodeRows;
  }

  // ---------------------------------------------------------------- the class

  /** The environment's answers during one operation. */
  datatype Script = Script(
    fits: bool,                       // the serialised entry is within its bound
    write: AtomicWrite.Outcome,
    readFails: bool,                  // an I/O error reading the version 1 file
    quarantine: Move,
    remove: Move,
    readV2Fails: bool,
    quarantineV2: Move)

  class CacheFiles {
    const key: Key
    var disk: Disk
    ghost var seen: seq<Disk>         // every state so far, the present one last

    constructor (key: Key, initial: Disk)
      ensures this.key == key && disk == initial && seen == [initial] && Current()
    {
      this.key := key;
      disk := initial;
      seen := [initial];
    }

    ghost predicate Current()
      reads this
    {
      seen != [] && seen[|seen| - 1] == disk
    }

    method PutV2(c: Content, outcome: AtomicWrite.Outcome)
      requires Current()
      modifies this
      ensures Current() && seen == old(seen) + Tail(PutV2States(old(disk), c, outcome))
      ensures disk == Last(PutV2States(old(disk), c, outcome))
    {
      if outcome.NotCommitted? { return; }
      disk := disk.(v2 := disk.v2.(visible := Some(c)));
      seen := seen + [disk];
      if outcome.CommittedNotSynced? { return; }
      disk := disk.(v2 := Slot(Some(c), Some(c)));
      seen := seen + [disk];
    }

    /** `remove_if_unchanged` or `rename_if_unchanged` on the version 1 file. */
    method TakeV1(observed: Content, move: Move) returns (r: Result<bool, Error>)
      requires Current()
      modifies this
      ensures Current() && r == TakenResult(old(disk).v1, observed, move)
      ensures seen == old(seen) + Tail(TakeV1States(old(disk), observed, move))
      ensures disk == Last(TakeV1States(old(disk), observed, move))
    {
      if observed.Oversized? || disk.v1.visible != Some(observed) { return Success(false); }
      if move.Refused? { return Failure(CacheWriteFailed); }
      disk := disk.(v1 := disk.v1.(visible := None));
      seen := seen + [disk];
      if move.NotSynced? { return Failure(CacheWriteFailed); }
      disk := disk.(v1 := Slot(None, None));
      seen := seen + [disk];
      r := Success(true);
    }

    /** `write_v2_outcome`. */
    method WriteV2(rows: seq<Row>, fetchedAt: int, now: int, script: Script) returns (r: Result<WriteResult, Error>)
      requires Current()
      modifies this
      ensures Current() && r == WriteV2Result(key, rows, fetchedAt, now, script)
      ensures seen == old(seen) + Tail(WriteV2States(key, old(disk), rows, fetchedAt, now, script))
      ensures disk == Last(WriteV2States(key, old(disk), rows, fetchedAt, now, script))
    {
      if rows == [] { return Success(Skipped); }
      var historical := IsHistorical(key.day, now);
      if historical.None? { return Failure(CacheWriteFailed); }
      if !historical.value { return Success(Skipped); }
      if fetchedAt - now > FUTURE_SKEW { return Failure(CacheWriteFailed); }
      var stamp := Written(fetchedAt);
      if stamp.None? { return Failure(CacheWriteFailed); }
      if !script.fits { return Failure(CacheWriteFailed); }
      PutV2(Encode(key, rows, stamp.value), script.write);
      match script.write {
        case Durable => r := Success(Durable);
        case CommittedNotSynced => r := Success(CommittedNotSynced);
        case NotCommitted => r := Failure(CacheWriteFailed);
      }
    }

    /** `promote_v1`. */
    method PromoteV1(hit: Hit, now: int, script: Script) returns (r: Result<bool, Error>)
      requires Current()
      modifies this
      ensures Current()
      ensures seen == old(seen) + Tail(PromoteStates(key, old(disk), hit, now, script))
      ensures disk == Last(PromoteStates(key, old(disk), hit, now, script))
      ensures r == PromoteResult(key, old(disk), hit, now, script)
    {
      if !hit.version.VersionOne? { return Success(false); }
      var written := WriteV2(hit.entry.rows, hit.entry.fetchedAt, now, script);
      if written.Failure? { return Failure(written.error); }
      if !written.value.Durable? { return Success(false); }
      r := TakeV1(hit.source, script.remove);
    }

    /** `read_legacy`: an invalid version 1 file is moved aside. */
    method ReadLegacy(maxAge: nat, now: int, script: Script) returns (r: Result<CacheRead, Error>)
      requires Current()
      modifies this
      ensures Current()
      ensures seen == old(seen) + Tail(ReadLegacyStates(key, old(disk), now, script))
      ensures disk == Last(ReadLegacyStates(key, old(disk), now, script))
      ensures r == ReadLegacyResult(key, old(disk), maxAge, now, script)
    {
      if script.readFails { return Failure(CacheReadFailed); }
      if disk.v1.visible.None? { return Success(Miss); }
      var source := disk.v1.visible.value;
      var entry := DecodeV1(key, source, maxAge, now);
      ValidAtAnyAge(key, source, maxAge, 0, now);
      if entry.Some? { return Success(Found(Hit(entry.value, VersionOne, source))); }
      var moved := TakeV1(source, script.quarantine);
      r := if moved.Failure? then Failure(CacheReadFailed) else Success(Invalid);
    }

    method TakeV2(observed: Content, move: Move) returns (r: Result<bool, Error>)
      requires Current()
      modifies this
      ensures Current() && r == TakenResult(old(disk).v2, observed, move)
      ensures seen == old(seen) + Tail(TakeV2States(old(disk), observed, move))
      ensures disk == Last(TakeV2States(old(disk), observed, move))
    {
      if observed.Oversized? || disk.v2.visible != Some(observed) { return Success(false); }
      if move.Refused? { return Failure(CacheWriteFailed); }
      disk := disk.(v2 := disk.v2.(visible := None));
      seen := seen + [disk];
      if move.NotSynced? { return Failure(CacheWriteFailed); }
      disk := disk.(v2 := Slot(None, None));
      seen := seen + [disk];
      r := Success(true);
    }

    /** `read_with_quarantine`. */
    method Read(maxAge: nat, now: int, quarantine: bool, script: Script) returns (r: Result<CacheRead, Error>)
      requires Current()
      modifies this
      ensures Current() && r == ReadResult(key, old(disk), maxAge, now, quarantine, script)
      ensures seen == old(seen) + Tail(ReadStates(key, old(disk), now, quarantine, script))
    {
      if script.readV2Fails { return Failure(CacheReadFailed); }
      var observedInvalid := false;
      if disk.v2.visible.Some? {
        var source := disk.v2.visible.value;
        ValidAtAnyAge(key, source, maxAge, 0, now);
        var entry := DecodeV2(key, source, maxAge, now);
        if entry.Some? { return Success(Found(Hit(entry.value, VersionTwo, source))); }
        if quarantine {
          var moved := TakeV2(source, script.quarantineV2);
          if moved.Failure? { return Failure(CacheReadFailed); }
        }
        observedInvalid := true;
      }
      if script.readFails { return Failure(CacheReadFailed); }
      if disk.v1.visible.None? { return Success(if observedInvalid then Invalid else Miss); }
      var source := disk.v1.visible.value;
      ValidAtAnyAge(key, source, maxAge, 0, now);
      var entry := DecodeV1(key, source, maxAge, now);
      if entry.Some? { return Success(Found(Hit(entry.value, VersionOne, source))); }
      if quarantine {
        var moved := TakeV1(source, script.quarantine);
        if moved.Failure? { return Failure(CacheReadFailed); }
      }
      r := Success(Invalid);
    }

    /** What both `write_v2_after_refresh` and the end of a version 2 hit do: take away
        the version 1 file that has been superseded. */
    method DropLegacy(now: int, script: Script) returns (r: Result<bool, Error>)
      requires Current()
      modifies this
      ensures Current()
      ensures seen == old(seen) + Tail(DropStates(key, old(disk), now, script))
      ensures disk == Last(DropStates(key, old(disk), now, script))
      ensures r == DropResult(key, old(disk), now, script)
    {
      var legacy := ReadLegacy(0, now, script);
      if legacy.Failure? { return Failure(legacy.error); }
      if !legacy.value.Found? { return Success(false); }
      r := TakeV1(legacy.value.hit.source, script.remove);
    }

    /** `write_v2_after_refresh`. */
    method WriteAfterRefresh(rows: seq<Row>, fetchedAt: int, now: int, script: Script) returns (r: Result<bool, Error>)
      requires Current()
      modifies this
      ensures Current()
      ensures seen == old(seen) + Tail(RefreshStates(key, old(disk), rows, fetchedAt, now, script))
      ensures disk == Last(RefreshStates(key, old(disk), rows, fetchedAt, now, script))
      ensures r == RefreshResult(key, old(disk), rows, fetchedAt, now, script)
    {
      var outcome := WriteV2(rows, fetchedAt, now, script);
      if outcome.Failure? { return Failure(outcome.error); }
      if outcome.value.Durable? {
        var dropped := DropLegacy(now, script);
        if dropped.Failure? { return Failure(dropped.error); }
      }
      r := Success(!outcome.value.Skipped?);
    }
  }

  // ---------------------------------------------------------------- the states, as functions

  function OnV2(d: Disk, slots: seq<Slot>): (r: seq<Disk>)
    ensures |r| == |slots|
  {
    seq(|slots|, k requires 0 <= k < |slots| => d.(v2 := slots[k]))
  }

  function OnV1(d: Disk, slots: seq<Slot>): (r: seq<Disk>)
    ensures |r| == |slots|
  {
    seq(|slots|, k requires 0 <= k < |slots| => d.(v1 := slots[k]))
  }

  function PutV2States(d: Disk, c: Content, outcome: AtomicWrite.Outcome): (r: seq<Disk>)
    ensures r != []
  {
    OnV2(d, PutStates(d.v2, c, outcome))
  }

  function TakeV1States(d: Disk, observed: Content, move: Move): (r: seq<Disk>)
    ensures r != []
  {
    OnV1(d, TakeStates(d.v1, observed, move))
  }

  function TakeV2States(d: Disk, observed: Content, move: Move): (r: seq<Disk>)
    ensures r != []
  {
    OnV2(d, TakeStates(d.v2, observed, move))
  }

  function Version2Result(key: Key, d: Disk, maxAge: nat, now: int): Option<CacheRead> {
    if d.v2.visible.None? then None
    else match DecodeV2(key, d.v2.visible.value, maxAge, now)
         case Some(e) => Some(Found(Hit(e, VersionTwo, d.v2.visible.value)))
         case None => None
  }

  /** A file that is no entry cannot be moved aside. */
  predicate Stuck(s: Slot, quarantine: bool, move: Move) {
    quarantine && s.visible.Some? && TakenResult(s, s.visible.value, move).Failure?
  }

  function ReadResult(key: Key, d: Disk, maxAge: nat, now: int, quarantine: bool, script: Script)
    : Result<CacheRead, Error>
  {
    if script.readV2Fails then Failure(CacheReadFailed)
    else if Version2Result(key, d, maxAge, now).Some? then Success(Version2Result(key, d, maxAge, now).value)
    else if Stuck(d.v2, quarantine, script.quarantineV2) || script.readFails then Failure(CacheReadFailed)
    else if d.v1.visible.None? then Success(if d.v2.visible.Some? then Invalid else Miss)
    else match DecodeV1(key, d.v1.visible.value, maxAge, now)
         case Some(e) => Success(Found(Hit(e, VersionOne, d.v1.visible.value)))
         case None => if Stuck(d.v1, quarantine, script.quarantine) then Failure(CacheReadFailed) else Success(Invalid)
  }

  function ReadStates(key: Key, d: Disk, now: int, quarantine: bool, script: Script): (r: seq<Disk>)
    ensures r != []
  {
    if script.readV2Fails || ValidV2(key, d.v2.visible, now) || !quarantine then [d]
    else
      var first := if d.v2.visible.Some? then TakeV2States(d, d.v2.visible.value, script.quarantineV2) else [d];
      if Stuck(d.v2, true, script.quarantineV2) then first
      else first + Tail(ReadLegacyStates(key, Last(first), now, script))
  }

  function WriteV2Result(key: Key, rows: seq<Row>, fetchedAt: int, now: int, script: Script)
    : Result<WriteResult, Error>
  {
    var historical := IsHistorical(key.day, now);
    if rows == [] || historical == Some(false) then Success(Skipped)
    else if historical.None? || fetchedAt - now > FUTURE_SKEW || Written(fetchedAt).None? || !script.fits then
      Failure(CacheWriteFailed)
    else match script.write
         case Durable => Success(Durable)
         case CommittedNotSynced => Success(CommittedNotSynced)
         case NotCommitted => Failure(CacheWriteFailed)
  }

  function WriteV2States(key: Key, d: Disk, rows: seq<Row>, fetchedAt: int, now: int, script: Script): (r: seq<Disk>)
    ensures r != []
  {
    var result := WriteV2Result(key, rows, fetchedAt, now, script);
    if result.Success? && !result.value.Skipped?
    then PutV2States(d, Encode(key, rows, Written(fetchedAt).value), script.write)
    else [d]
  }

  function PromoteResult(key: Key, d: Disk, hit: Hit, now: int, script: Script): Result<bool, Error> {
    if !hit.version.VersionOne? then Success(false)
    else match WriteV2Result(key, hit.entry.rows, hit.entry.fetchedAt, now, script)
         case Failure(e) => Failure(e)
         case Success(Durable) => TakenResult(d.v1, hit.source, script.remove)
         case Success(_) => Success(false)
  }

  function ReadLegacyResult(key: Key, d: Disk, maxAge: nat, now: int, script: Script): Result<CacheRead, Error> {
    if script.readFails then Failure(CacheReadFailed)
    else if d.v1.visible.None? then Success(Miss)
    else match DecodeV1(key, d.v1.visible.value, maxAge, now)
         case Some(e) => Success(Found(Hit(e, VersionOne, d.v1.visible.value)))
         case None => if Stuck(d.v1, true, script.quarantine) then Failure(CacheReadFailed) else Success(Invalid)
  }

  function DropResult(key: Key, d: Disk, now: int, script: Script): Result<bool, Error> {
    match ReadLegacyResult(key, d, 0, now, script)
    case Failure(e) => Failure(e)
    case Success(Found(hit)) => TakenResult(d.v1, hit.source, script.remove)
    case Success(_) => Success(false)
  }

  function RefreshResult(key: Key, d: Disk, rows: seq<Row>, fetchedAt: int, now: int, script: Script)
    : Result<bool, Error>
  {
    match WriteV2Result(key, rows, fetchedAt, now, script)
    case Failure(e) => Failure(e)
    case Success(Skipped) => Success(false)
    case Success(CommittedNotSynced) => Success(true)
    case Success(Durable) =>
      match DropResult(key, d, now, script)
      case Failure(e) => Failure(e)
      case Success(_) => Success(true)
  }

  function PromoteStates(key: Key, d: Disk, hit: Hit, now: int, script: Script): (r: seq<Disk>)
    ensures r != []
  {
    if !hit.version.VersionOne? then [d]
    else
      var first := WriteV2States(key, d, hit.entry.rows, hit.entry.fetchedAt, now, script);
      if WriteV2Result(key, hit.entry.rows, hit.entry.fetchedAt, now, script) == Success(Durable)
      then first + Tail(TakeV1States(Last(first), hit.source, script.remove))
      else first
  }

  function ReadLegacyStates(key: Key, d: Disk, now: int, script: Script): (r: seq<Disk>)
    ensures r != []
  {
    if script.readFails || d.v1.visible.None? || ValidV1(key, d.v1.visible, now) then [d]
    else TakeV1States(d, d.v1.visible.value, script.quarantine)
  }

  function DropStates(key: Key, d: Disk, now: int, script: Script): (r: seq<Disk>)
    ensures r != []
  {
    if !script.readFails && ValidV1(key, d.v1.visible, now) then TakeV1States(d, d.v1.visible.value, script.remove)
    else ReadLegacyStates(key, d, now, script)
  }

  function RefreshStates(key: Key, d: Disk, rows: seq<Row>, fetchedAt: int, now: int, script: Script): (r: seq<Disk>)
    ensures r != []
  {
    var first := WriteV2States(key, d, rows, fetchedAt, now, script);
    if WriteV2Result(key, rows, fetchedAt, now, script) == Success(Durable)
    then first + Tail(DropStates(key, Last(first), now, script))
    else first
  }
}
