/** The cached release check: when it may go to the network. */
module ReleaseCheck {
  import opened Wrappers

  const REFRESH_INTERVAL := 24 * 60 * 60
  const RETRY_COOLDOWN := 60 * 60

  datatype Evidence = Evidence(observedAt: int, latest: int)

  datatype Record = Record(evidence: Option<Evidence>, lastFailure: Option<int>)

  const EMPTY := Record(None, None)

  /** The cache file; a record for another target reads as an empty one. */
  datatype Content = Absent | Stored(record: Record) | OtherTarget | Corrupt

  datatype Mode = Incidental | Explicit

  /** Where the process dies, if it does. */
  datatype Death = Survives | AfterAttempt | AfterFetch

  /** One check: the second it runs in and what its environment does. */
  datatype Check = Check(
    now: int,
    mode: Mode,
    disabled: bool,
    directory: bool,         // a cache directory is known
    unreadable: bool,        // the cache file cannot be read this time
    attemptSaved: bool,
    fetched: Option<int>,    // what the network answers within its budget
    rereadable: bool,
    resultSaved: bool,
    death: Death)

  predicate Within(since: int, now: int, seconds: int) { since <= now && now - since < seconds }

  /** `load`; whatever cannot be read or parsed is treated as absent. */
  function Load(file: Content, unreadable: bool): Record {
    if unreadable || !file.Stored? then EMPTY else file.record
  }

  predicate EvidenceFresh(r: Record, now: int) {
    r.evidence.Some? && Within(r.evidence.value.observedAt, now, REFRESH_INTERVAL)
  }

  predicate CoolingDown(r: Record, now: int) { r.lastFailure.Some? && Within(r.lastFailure.value, now, RETRY_COOLDOWN) }

  /** `refresh_due`. */
  predicate RefreshDue(r: Record, now: int, mode: Mode) {
    !EvidenceFresh(r, now) && !(mode.Incidental? && CoolingDown(r, now))
  }

  function Seen(file: Content, c: Check): Record { if c.directory then Load(file, c.unreadable) else EMPTY }

  function Attempt(file: Content, c: Check): Record { Record(Seen(file, c).evidence, Some(c.now)) }

  /** The attempt is recorded before any network work. */
  predicate Persisted(c: Check) { c.directory && c.attemptSaved }

  /** The check goes to the network. */
  predicate Asks(file: Content, c: Check) {
    !c.disabled && RefreshDue(Seen(file, c), c.now, c.mode) && (Persisted(c) || c.mode.Explicit?)
  }

  function AfterCheck(file: Content, c: Check): Content {
    if !Asks(file, c) || !Persisted(c) then file
    else if c.death.Survives? && c.resultSaved && c.fetched.Some? then
      Stored(Record(Some(Evidence(c.now, c.fetched.value)), None))
    else Stored(Attempt(file, c))
  }

  /** When a check asks: it is not disabled, it was asked for or its attempt could be saved,
      and the file it could read holds neither evidence of the last day nor, for an
      incidental check, an attempt of the last hour. What is dated later than the check, or
      stands in a file that is corrupt or another target's, does not count. */
  lemma AsksExactly(file: Content, c: Check)
    ensures var readable := c.directory && !c.unreadable && file.Stored?;
            Asks(file, c) <==>
            && !c.disabled && (c.mode.Explicit? || (c.directory && c.attemptSaved))
            && (readable && file.record.evidence.Some? ==>
                  var seen := file.record.evidence.value.observedAt;
                  c.now < seen || seen + 86_400 <= c.now)
            && (readable && c.mode.Incidental? && file.record.lastFailure.Some? ==>
                  var tried := file.record.lastFailure.value;
                  c.now < tried || tried + 3_600 <= c.now)
  {}

  class ReleaseCache {
    var file: Content

    constructor (initial: Content)
      ensures file == initial
    {
      file := initial;
    }

    /** `run_check`, returning whether it went to the network and the record it reports. */
    method RunCheck(c: Check) returns (asked: bool, record: Record)
      modifies this
      ensures asked == Asks(old(file), c) && file == AfterCheck(old(file), c)
      ensures !asked ==> record == if c.disabled then EMPTY else Seen(old(file), c)
      ensures asked && c.death.Survives? ==>
                record == if c.fetched.Some? then Record(Some(Evidence(c.now, c.fetched.value)), None)
                          else Attempt(old(file), c)
    {
      asked, record := false, EMPTY;
      if c.disabled { return; }
      if c.directory { record := Load(file, c.unreadable); }
      if !RefreshDue(record, c.now, c.mode) { return; }
      var attempt := Record(record.evidence, Some(c.now));
      var persisted := false;
      if c.directory && c.attemptSaved {
        file := Stored(attempt);
        persisted := true;
      }
      if persisted || c.mode.Explicit? {
        asked := true;
        record := attempt;
        if c.death.AfterAttempt? { return; }
        record := Refresh(c, persisted, record);
      }
    }

    method Refresh(c: Check, persisted: bool, attempt: Record) returns (record: Record)
      requires persisted ==> file == Stored(attempt)
      modifies this
      ensures record == if c.fetched.Some? then Record(Some(Evidence(c.now, c.fetched.value)), None) else attempt
      ensures file == if persisted && c.resultSaved && c.death.Survives? then Stored(record) else old(file)
    {
      record := attempt;
      match c.fetched {
        case Some(latest) => record := Record(Some(Evidence(c.now, latest)), None);
        case None =>
          // a concurrent process may have saved fresh evidence meanwhile
          if persisted && c.rereadable && file.Stored? && EvidenceFresh(file.record, c.now) { return file.record; }
      }
      if c.death.AfterFetch? { return; }
      if persisted && c.resultSaved && c.death.Survives? { file := Stored(record); }
    }
  }

  // ---------------------------------------------------------------- runs

  /** Checks one after the other on one cache file, with a clock that never goes back. */
  ghost predicate IsRun(files: seq<Content>, checks: seq<Check>) {
    && |files| == |checks| + 1
    && (forall k :: 0 <= k < |checks| ==> files[k + 1] == AfterCheck(files[k], checks[k]))
    && (forall j, k :: 0 <= j < k < |checks| ==> checks[j].now <= checks[k].now)
  }

  /** The file remembers a refresh at or after `since`. */
  predicate Remembers(file: Content, since: int) {
    && file.Stored?
    && ((file.record.evidence.Some? && since <= file.record.evidence.value.observedAt)
        || (file.record.lastFailure.Some? && since <= file.record.lastFailure.value))
  }

  /** ... a successful one. */
  predicate Knows(file: Content, since: int) {
    file.Stored? && file.record.evidence.Some? && since <= file.record.evidence.value.observedAt
  }

  /** Nothing in the file is from the future. */
  predicate Past(file: Content, now: int) {
    && (file.Stored? && file.record.evidence.Some? ==> file.record.evidence.value.observedAt <= now)
    && (file.Stored? && file.record.lastFailure.Some? ==> file.record.lastFailure.value <= now)
  }

  lemma CheckKeeps(file: Content, c: Check, since: int)
    requires since <= c.now && Past(file, c.now)
    ensures Past(AfterCheck(file, c), c.now)
    ensures Remembers(file, since) ==> Remembers(AfterCheck(file, c), since)
    ensures Knows(file, since) && !c.unreadable ==> Knows(AfterCheck(file, c), since)
  {}

  lemma {:induction false} Onward(files: seq<Content>, checks: seq<Check>, i: nat, j: nat)
    requires IsRun(files, checks) && i < j < |checks| && Asks(files[i], checks[i]) && Persisted(checks[i])
    requires Past(files[i], checks[i].now)
    ensures Remembers(files[j], checks[i].now) && Past(files[j], checks[j].now)
    ensures Knows(files[i + 1], checks[i].now) && (forall k :: i < k < j ==> !checks[k].unreadable) ==>
              Knows(files[j], checks[i].now)
  {
    if i < j - 1 {
      Onward(files, checks, i, j - 1);
      CheckKeeps(files[j - 1], checks[j - 1], checks[i].now);
    }
  }

  /** The future is not in the file if it was not there at the start. */
  lemma {:induction false} NoFuture(files: seq<Content>, checks: seq<Check>, k: nat)
    requires IsRun(files, checks) && k < |checks| && Past(files[0], checks[0].now)
    ensures Past(files[k], checks[k].now)
  {
    if k > 0 {
      NoFuture(files, checks, k - 1);
      CheckKeeps(files[k - 1], checks[k - 1], checks[k - 1].now);
    }
  }

  /** After an incidental refresh, however it ended, the next incidental checks within the
      hour stay off the network, except those that cannot read the cache file and can
      write it. */
  lemma IncidentalSpacing(files: seq<Content>, checks: seq<Check>, i: nat, j: nat)
    requires IsRun(files, checks) && i < j < |checks| && Past(files[0], checks[0].now)
    requires checks[i].mode.Incidental? && Asks(files[i], checks[i]) && checks[j].mode.Incidental?
    requires checks[j].now - checks[i].now < RETRY_COOLDOWN
    ensures Asks(files[j], checks[j]) <==> !checks[j].disabled && checks[j].unreadable && Persisted(checks[j])
  {
    NoFuture(files, checks, i);
    Onward(files, checks, i, j);
  }

  /** Within a day after a refresh whose result was saved, as long as the checks between
      could read the file, a check asks again exactly if it has no cache file to read,
      because it knows no directory or the read fails, and may ask without or can write. */
  lemma DailyRefresh(files: seq<Content>, checks: seq<Check>, i: nat, j: nat)
    requires IsRun(files, checks) && i < j < |checks| && Past(files[0], checks[0].now)
    requires Asks(files[i], checks[i]) && Persisted(checks[i]) && checks[i].fetched.Some? && checks[i].resultSaved
    requires checks[i].death.Survives?
    requires forall k :: i < k < j ==> !checks[k].unreadable
    requires checks[j].now - checks[i].now < REFRESH_INTERVAL
    ensures Asks(files[j], checks[j]) <==>
              (!checks[j].disabled && (!checks[j].directory || checks[j].unreadable)
               && (Persisted(checks[j]) || checks[j].mode.Explicit?))
  {
    NoFuture(files, checks, i);
    Onward(files, checks, i, j);
  }

  /** A refresh before `k` at that second; with an answer, if it has to be a successful one. */
  ghost predicate RefreshedAt(files: seq<Content>, checks: seq<Check>, k: nat, time: int, answered: bool)
    requires |files| == |checks| + 1 && k <= |checks|
  {
    exists i :: 0 <= i < k && IsRefresh(files[i], checks[i], time, answered)
  }

  predicate IsRefresh(file: Content, c: Check, time: int, answered: bool) {
    Asks(file, c) && c.now == time && (answered ==> c.fetched.Some?)
  }

  lemma {:induction false} FromARefresh(files: seq<Content>, checks: seq<Check>, k: nat)
    requires IsRun(files, checks) && k <= |checks| && !files[0].Stored?
    ensures files[k].Stored? && files[k].record.evidence.Some? ==>
              RefreshedAt(files, checks, k, files[k].record.evidence.value.observedAt, true)
    ensures files[k].Stored? && files[k].record.lastFailure.Some? ==>
              RefreshedAt(files, checks, k, files[k].record.lastFailure.value, false)
  {
    if k > 0 {
      FromARefresh(files, checks, k - 1);
      var file, c := files[k - 1], checks[k - 1];
      assert Asks(file, c) ==> IsRefresh(file, c, c.now, c.fetched.Some?);
    }
  }

  /** Once the hour after the last attempt and the day after the last success are over, the
      next check asks again, if it is enabled and either explicit or able to save. */
  lemma AsksAgain(files: seq<Content>, checks: seq<Check>, j: nat)
    requires IsRun(files, checks) && j < |checks| && !files[0].Stored?
    requires forall i :: 0 <= i < j && Asks(files[i], checks[i]) ==>
               checks[i].now + (if checks[i].fetched.Some? then 86_400 else 3_600) <= checks[j].now
    ensures Asks(files[j], checks[j]) <==>
              !checks[j].disabled && (checks[j].mode.Explicit? || (checks[j].directory && checks[j].attemptSaved))
  {
    FromARefresh(files, checks, j);
    AsksExactly(files[j], checks[j]);
  }

  /** A read that fails once makes a check ask again at once, and it also forgets the
      evidence for the checks after it. */
  lemma UnreadableOnceAsksAgain(c: Check, d: Check, latest: int)
    requires c.mode.Incidental? && !c.disabled && Persisted(c) && !c.unreadable && c.fetched == Some(latest)
    requires c.resultSaved && c.death.Survives?
    requires d == c.(now := c.now + 1, unreadable := true, fetched := None)
    ensures var first := AfterCheck(Absent, c);
            && Asks(Absent, c) && Asks(first, d)
            && Stored(Record(None, Some(d.now))) == AfterCheck(first, d)
  {}
}
