/** What survives of a cached response, and which entries a refresh may return. */
module CacheSafety {
  import opened Wrappers
  import opened CacheEntry
  import opened CacheStore
  import AtomicWrite

  // ---------------------------------------------------------------- reading

  /** An invalid version 2 file never hides a valid version 1 entry: the entry is found
      exactly when both files can be read and the invalid one does not refuse to be moved
      aside; a probe, which moves nothing, always finds it. */
  lemma InvalidV2NeverHides(key: Key, d: Disk, maxAge: nat, now: int, quarantine: bool, script: Script)
    requires !ValidV2(key, d.v2.visible, now) && ValidV1(key, d.v1.visible, now)
    ensures var r := ReadResult(key, d, maxAge, now, quarantine, script);
            (r.Success? && r.value.Found? && r.value.hit.version.VersionOne?
             && r.value.hit.source == d.v1.visible.value)
            <==> !script.readV2Fails && !script.readFails && !Stuck(d.v2, quarantine, script.quarantineV2)
    ensures Stuck(d.v2, quarantine, script.quarantineV2) ==> quarantine && !script.quarantineV2.Done?
  {
    ValidAtAnyAge(key, d.v1.visible.value, maxAge, 0, now);
    if d.v2.visible.Some? { ValidAtAnyAge(key, d.v2.visible.value, maxAge, 0, now); }
    hide DecodeV1, DecodeV2;
  }

  lemma TakeKeepsOther(key: Key, d: Disk, observed: Content, move: Move, now: int)
    ensures forall e :: e in TakeV1States(d, observed, move) ==>
              e.v2 == d.v2 && (d.v1.visible != Some(observed) ==> e == d)
    ensures forall e :: e in TakeV2States(d, observed, move) ==>
              e.v1 == d.v1 && (d.v2.visible != Some(observed) ==> e == d)
  {}

  /** Reading, with or without moving invalid files aside, loses nothing that is valid. */
  lemma ReadingLosesNothing(key: Key, d: Disk, now: int, quarantine: bool, script: Script, e: Disk)
    requires Survives(key, d, now) && e in ReadStates(key, d, now, quarantine, script)
    ensures Survives(key, e, now)
  {
    hide DecodeV1, DecodeV2;
    if e != d {
      var first := if d.v2.visible.Some? then TakeV2States(d, d.v2.visible.value, script.quarantineV2) else [d];
      assert ValidV1(key, d.v1.visible, now) && ValidV1(key, d.v1.stable, now);
      if d.v2.visible.Some? { TakeKeepsOther(key, d, d.v2.visible.value, script.quarantineV2, now); }
      hide TakeV2States;
      assert forall f :: f in first ==> f.v1 == d.v1;
      assert Last(first) in first;
      assert ReadLegacyStates(key, Last(first), now, script) == [Last(first)];
      assert e in first;
    }
  }

  // ---------------------------------------------------------------- promoting and refreshing

  lemma PutV2Slots(d: Disk, c: Content, outcome: AtomicWrite.Outcome, e: Disk)
    requires e in PutV2States(d, c, outcome)
    ensures e.v1 == d.v1 && (e.v2.visible == d.v2.visible || e.v2.visible == Some(c))
    ensures e.v2.stable == d.v2.stable || e.v2 == Slot(Some(c), Some(c))
  {}

  lemma PutV2Ends(d: Disk, c: Content)
    ensures Last(PutV2States(d, c, AtomicWrite.Durable)) == d.(v2 := Slot(Some(c), Some(c)))
  {}

  /** What a write that went through leaves is what every later read finds: a version 2 hit
      with the same rows and the cut time, under the same condition as `RoundTrip`. */
  lemma WrittenIsFound(key: Key, d: Disk, rows: seq<Row>, fetchedAt: int, now: int, script: Script,
                       maxAge: nat, later: int, quarantine: bool, reading: Script)
    requires Conforming(key.fields, rows) && IsHistorical(key.day, later) == Some(true) && !reading.readV2Fails
    requires WriteV2Result(key, rows, fetchedAt, now, script).Success?
    requires !WriteV2Result(key, rows, fetchedAt, now, script).value.Skipped?
    ensures var cut := TruncMs(fetchedAt) * NS_PER_MS;
            var stored := Last(WriteV2States(key, d, rows, fetchedAt, now, script));
            var freshness := if later - cut >= maxAge || maxAge == 0 then Stale else Fresh;
            var c := Encode(key, rows, Written(fetchedAt).value);
            stored.v2.visible == Some(c)
            && (ReadResult(key, stored, maxAge, later, quarantine, reading)
                == Success(Found(Hit(Entry(rows, cut, freshness), VersionTwo, c)))
                <==> cut >= YEAR_ZERO && cut - later <= FUTURE_SKEW)
  {
    RoundTrip(key, rows, fetchedAt, maxAge, later);
    hide DecodeV1, DecodeV2, Encode, IsHistorical, TruncMs;
  }

  /** At every moment of a promotion, whatever a power loss keeps of the two files, it is
      the version 1 file as it was or the complete version 2 file with the same rows. */
  lemma PromotionIsLossless(key: Key, d: Disk, hit: Hit, now: int, script: Script, e: Disk)
    requires d.v1 == Slot(Some(hit.source), Some(hit.source))
    requires hit.version.VersionOne? && Written(hit.entry.fetchedAt).Some?
    requires e in PromoteStates(key, d, hit, now, script)
    ensures forall c1, c2 :: AfterCrash(e, c1, c2) ==>
              || c1 == Some(hit.source)
              || c2 == Some(Encode(key, hit.entry.rows, Written(hit.entry.fetchedAt).value))
  {
    var c := Encode(key, hit.entry.rows, Written(hit.entry.fetchedAt).value);
    var first := WriteV2States(key, d, hit.entry.rows, hit.entry.fetchedAt, now, script);
    hide Encode, Written;
    if e in first {
      if e != d { PutV2Slots(d, c, script.write, e); }
    } else {
      assert script.write == AtomicWrite.Durable;
      PutV2Ends(d, c);
      TakeKeepsOther(key, Last(first), hit.source, script.remove, now);
    }
  }

  /** ... and both are valid entries for every reader from then on: the promoted file is
      one generation with the file it came from. */
  lemma PromotedIsValid(key: Key, source: Content, maxAge: nat, now: int, later: int)
    requires DecodeV1(key, source, maxAge, now).Some? && 0 <= now <= later && IsHistorical(key.day, later) == Some(true)
    requires YEAR_ZERO <= DecodeV1(key, source, maxAge, now).value.fetchedAt
    ensures ValidV1(key, Some(source), later)
    ensures var e := DecodeV1(key, source, maxAge, now).value;
            Written(e.fetchedAt).Some? ==>
              && ValidV2(key, Some(Encode(key, e.rows, Written(e.fetchedAt).value)), later)
              && DecodeV2(key, Encode(key, e.rows, Written(e.fetchedAt).value), maxAge, later).value.rows == e.rows
              && SameGeneration(e, DecodeV2(key, Encode(key, e.rows, Written(e.fetchedAt).value), maxAge, later).value)
  {
    var e := DecodeV1(key, source, maxAge, now).value;
    DecodedRowsConform(key, source.rows);
    if Written(e.fetchedAt).Some? {
      WrittenIsRead(key, e.rows, e.fetchedAt, now, maxAge, later);
      WrittenIsRead(key, e.rows, e.fetchedAt, now, 0, later);
      PromotionKeepsGeneration(key, source, maxAge, now, maxAge, later);
    }
    hide DecodeRows, DecodesRows, IsHistorical, Written, Encode;
  }

  /** A refresh at any moment, however it fails, leaves a valid entry after any power loss
      if there was one before; the version 1 file goes only after a durable version 2. */
  lemma RefreshIsLossless(key: Key, d: Disk, rows: seq<Row>, fetchedAt: int, now: int, script: Script, e: Disk)
    requires Survives(key, d, now) && Conforming(key.fields, rows) && 0 <= now && YEAR_ZERO <= fetchedAt
    requires e in RefreshStates(key, d, rows, fetchedAt, now, script)
    ensures Survives(key, e, now)
  {
    var w := WriteV2Result(key, rows, fetchedAt, now, script);
    if w.Success? && !w.value.Skipped? {
      var c := Encode(key, rows, Written(fetchedAt).value);
      WrittenIsRead(key, rows, fetchedAt, now, 0, now);
      assert ValidV2(key, Some(c), now);
      hide DecodeV1, DecodeV2, Encode, Written;
      var first := PutV2States(d, c, script.write);
      if e in first {
        PutV2Slots(d, c, script.write, e);
      } else {
        PutV2Ends(d, c);
        DropKeepsV2(key, Last(first), now, script);
      }
    } else if w.Success? {
      assert e in [d];
    } else {
      FailedWriteStates(key, d, rows, fetchedAt, now, script);
    }
  }

  lemma FailedWriteStates(key: Key, d: Disk, rows: seq<Row>, fetchedAt: int, now: int, script: Script)
    requires WriteV2Result(key, rows, fetchedAt, now, script).Failure?
    ensures RefreshStates(key, d, rows, fetchedAt, now, script) == [d]
  {}

  lemma DropKeepsV2(key: Key, d: Disk, now: int, script: Script)
    ensures forall e :: e in DropStates(key, d, now, script) ==> e.v2 == d.v2
  {
    hide DecodeV1;
    if d.v1.visible.Some? {
      TakeKeepsOther(key, d, d.v1.visible.value, script.remove, now);
      TakeKeepsOther(key, d, d.v1.visible.value, script.quarantine, now);
    }
  }

  // ---------------------------------------------------------------- what the operations achieve

  /** What a read answers: a valid version 2 entry before anything else, then a valid version
      1 entry, nothing if there is neither file, and otherwise an invalid entry, unless a
      file on the way cannot be read or an invalid one cannot be moved aside. */
  lemma ReadMeans(key: Key, d: Disk, maxAge: nat, now: int, quarantine: bool, script: Script)
    ensures var r := ReadResult(key, d, maxAge, now, quarantine, script);
            var v1, v2 := d.v1.visible, d.v2.visible;
            var good1, good2 := ValidV1(key, v1, now), ValidV2(key, v2, now);
            var stuck1 := v1.Some? && quarantine && !v1.value.Oversized? && !script.quarantine.Done?;
            var stuck2 := v2.Some? && quarantine && !v2.value.Oversized? && !script.quarantineV2.Done?;
            && (r.Failure? <==>
                  || script.readV2Fails
                  || (!good2 && (stuck2 || script.readFails || (!good1 && stuck1))))
            && (r.Success? ==>
                  && (r.value.Miss? <==> v1.None? && v2.None?)
                  && (r.value.Found? <==> good1 || good2)
                  && (r.value.Found? ==>
                        if good2 then r.value.hit.version.VersionTwo? && Some(r.value.hit.source) == v2
                                      && Some(r.value.hit.entry) == DecodeV2(key, v2.value, maxAge, now)
                        else r.value.hit.version.VersionOne? && Some(r.value.hit.source) == v1
                             && Some(r.value.hit.entry) == DecodeV1(key, v1.value, maxAge, now)))
  {
    if d.v1.visible.Some? { ValidAtAnyAge(key, d.v1.visible.value, maxAge, 0, now); }
    if d.v2.visible.Some? { ValidAtAnyAge(key, d.v2.visible.value, maxAge, 0, now); }
    hide DecodeV1, DecodeV2;
  }

  /** The file has been taken out for good, unless it was too large to be touched. */
  predicate Emptied(s: Slot, t: Slot) {
    t == if s.visible.Some? && s.visible.value.Oversized? then s else Slot(None, None)
  }

  /** A probe changes nothing; a read that may move invalid files aside, and whose calls
      work, takes out exactly those it looked at. */
  lemma QuarantineMovesInvalid(key: Key, d: Disk, now: int, quarantine: bool, script: Script)
    requires !script.readV2Fails && !script.readFails && script.quarantine.Done? && script.quarantineV2.Done?
    ensures var after := Last(ReadStates(key, d, now, quarantine, script));
            if !quarantine || ValidV2(key, d.v2.visible, now) then ReadStates(key, d, now, quarantine, script) == [d]
            else
              && (if d.v2.visible.None? then after.v2 == d.v2 else Emptied(d.v2, after.v2))
              && (if d.v1.visible.None? || ValidV1(key, d.v1.visible, now) then after.v1 == d.v1
                  else Emptied(d.v1, after.v1))
  {
    hide DecodeV1, DecodeV2;
  }

  /** When a write goes through: rows of a day that is over in Korea, fetched at most five
      minutes in the future at an instant that can be held, within the size bound. */
  lemma WriteMeans(key: Key, rows: seq<Row>, fetchedAt: int, now: int, script: Script)
    ensures var r := WriteV2Result(key, rows, fetchedAt, now, script);
            var accepted := && rows != [] && IsHistorical(key.day, now) == Some(true)
                            && fetchedAt <= now + 300 * NS_PER_SECOND && Representable(fetchedAt) && script.fits;
            && (r == Success(Durable) <==> accepted && script.write == AtomicWrite.Durable)
            && (r == Success(CommittedNotSynced) <==> accepted && script.write == AtomicWrite.CommittedNotSynced)
            && (r == Success(Skipped) <==> rows == [] || IsHistorical(key.day, now) == Some(false))
  {
    var historical := IsHistorical(key.day, now);
    assert historical.None? || historical == Some(true) || historical == Some(false);
    hide IsHistorical;
  }

  /** A promotion in which every call works leaves the version 2 file alone, synced. */
  lemma PromotionMoves(key: Key, d: Disk, hit: Hit, now: int, script: Script)
    requires hit.version.VersionOne? && d.v1.visible == Some(hit.source) && !hit.source.Oversized?
    requires WriteV2Result(key, hit.entry.rows, hit.entry.fetchedAt, now, script) == Success(Durable)
    requires script.remove.Done?
    ensures var c := Encode(key, hit.entry.rows, Written(hit.entry.fetchedAt).value);
            Last(PromoteStates(key, d, hit, now, script)) == Disk(Slot(None, None), Slot(Some(c), Some(c)))
    ensures PromoteResult(key, d, hit, now, script) == Success(true)
  {
    hide Encode, IsHistorical;
  }

  /** A promotion reports true exactly if it took the version 1 file away, and false exactly
      if it left it for want of a version 1 hit, of a synced version 2 file or of the file
      it had observed. */
  lemma PromotionReports(key: Key, d: Disk, hit: Hit, now: int, script: Script)
    ensures var w := WriteV2Result(key, hit.entry.rows, hit.entry.fetchedAt, now, script);
            var there := d.v1.visible == Some(hit.source) && !hit.source.Oversized?;
            && (PromoteResult(key, d, hit, now, script) == Success(true) <==>
                  hit.version.VersionOne? && w == Success(Durable) && there && script.remove.Done?)
            && (PromoteResult(key, d, hit, now, script) == Success(false) <==>
                  || hit.version.VersionTwo? || w == Success(Skipped) || w == Success(CommittedNotSynced)
                  || (w == Success(Durable) && !there))
  {
    hide WriteV2Result;
  }

  /** A refresh reports false exactly if there was nothing to write, and true exactly if the
      version 2 file is there and, once it was synced, the old file was no trouble. */
  lemma RefreshReports(key: Key, d: Disk, rows: seq<Row>, fetchedAt: int, now: int, script: Script)
    ensures var w := WriteV2Result(key, rows, fetchedAt, now, script);
            var r := RefreshResult(key, d, rows, fetchedAt, now, script);
            && (r == Success(false) <==> w == Success(Skipped))
            && (r == Success(true) <==>
                  w == Success(CommittedNotSynced)
                  || (w == Success(Durable) && DropResult(key, d, now, script).Success?))
  {
    hide WriteV2Result, DropResult;
  }

  /** A clean-up in which every call works takes the version 1 file away, valid or not,
      unless it is too large to be touched, and reports whether it was a valid one. */
  lemma CleanupRemoves(key: Key, d: Disk, now: int, script: Script)
    requires !script.readFails && script.remove.Done? && script.quarantine.Done? && d.v1.visible.Some?
    ensures var after := Last(DropStates(key, d, now, script)); after.v2 == d.v2 && Emptied(d.v1, after.v1)
    ensures DropResult(key, d, now, script) == Success(ValidV1(key, d.v1.visible, now))
  {
    assert ValidV1(key, d.v1.visible, now) ==> !d.v1.visible.value.Oversized?;
    hide DecodeV1;
  }

  /** A refresh in which every call works supersedes both files. */
  lemma RefreshSupersedes(key: Key, d: Disk, rows: seq<Row>, fetchedAt: int, now: int, script: Script)
    requires WriteV2Result(key, rows, fetchedAt, now, script) == Success(Durable)
    requires !script.readFails && script.remove.Done? && script.quarantine.Done?
    ensures var c := Encode(key, rows, Written(fetchedAt).value);
            var after := Last(RefreshStates(key, d, rows, fetchedAt, now, script));
            && after.v2 == Slot(Some(c), Some(c))
            && (if d.v1.visible.None? then after.v1 == d.v1 else Emptied(d.v1, after.v1))
    ensures RefreshResult(key, d, rows, fetchedAt, now, script) == Success(true)
  {
    var c := Encode(key, rows, Written(fetchedAt).value);
    PutV2Ends(d, c);
    var put := d.(v2 := Slot(Some(c), Some(c)));
    if d.v1.visible.Some? {
      CleanupRemoves(key, d, now, script);
      CleanupRemoves(key, put, now, script);
    }
    hide WriteV2Result, Encode, Written, DecodeV1;
  }

  /** A version 2 hit also removes the version 1 file, without knowing whether the version
      2 file has been synced.  Once the file is unlinked, whether or not that could be
      synced, an entry survives every power loss exactly when the version 2 file had been
      synced as a valid entry; until then nothing is lost. */
  lemma CleanupKeepsOnlySyncedV2(key: Key, d: Disk, now: int, script: Script, e: Disk)
    requires Survives(key, d, now) && ValidV2(key, d.v2.visible, now) && e in DropStates(key, d, now, script)
    ensures e == d ==> Survives(key, e, now)
    ensures e != d ==> (Survives(key, e, now) <==> ValidV2(key, d.v2.stable, now))
    ensures ValidV1(key, d.v1.visible, now) && !script.readFails && !script.remove.Refused? ==>
              Last(DropStates(key, d, now, script)) != d
  {
    assert ValidV1(key, d.v1.visible, now) ==> !d.v1.visible.value.Oversized?;
    hide DecodeV1, DecodeV2;
  }

  /** A run in which that goes wrong: a refresh whose directory sync fails leaves both
      files, a later hit removes the older one, and a power loss then takes the newer. */
  lemma UnsyncedRefreshThenHitLosesTheEntry(key: Key, rows: seq<Row>, v1: Content, now: int, script: Script)
    requires ValidV1(key, Some(v1), now) && rows != [] && Conforming(key.fields, rows)
    requires 0 <= now && Written(now).Some? && IsHistorical(key.day, now) == Some(true)
    requires script.fits && script.write == AtomicWrite.CommittedNotSynced && !script.readFails && script.remove == Done
    ensures var before := Disk(Slot(Some(v1), Some(v1)), Slot(None, None));
            var refreshed := Last(RefreshStates(key, before, rows, now, now, script));
            var after := Last(DropStates(key, refreshed, now, script));
            && Survives(key, before, now) && Survives(key, refreshed, now)
            && RefreshResult(key, before, rows, now, now, script) == Success(true)
            && ValidV2(key, refreshed.v2.visible, now)
            && AfterCrash(after, None, None)
  {
    var c := Encode(key, rows, Written(now).value);
    WrittenIsRead(key, rows, now, now, 0, now);
    assert ValidV2(key, Some(c), now);
    hide DecodeV1, DecodeV2, Encode, Written, IsHistorical;
    var before := Disk(Slot(Some(v1), Some(v1)), Slot(None, None));
    assert Last(PutV2States(before, c, script.write)) == before.(v2 := Slot(Some(c), None));
    var refreshed := before.(v2 := Slot(Some(c), None));
    assert Last(TakeV1States(refreshed, v1, Done)) == refreshed.(v1 := Slot(None, None));
  }
}
