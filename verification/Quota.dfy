/** The daily request counter kept in `rate-limit.json`, one entry per credential. */
module Quota {
  import opened Wrappers
  import CivilDate
  import Decimal

  const DAILY_LIMIT: nat := 10_000
  const MAX_CREDENTIALS: nat := 10_000

  datatype Entry = Entry(date: string, count: nat)

  type Credentials = map<string, Entry>

  /** The file's JSON, read as the first shape that fits; anything else is unreadable. */
  datatype Persisted =
    | V1(version: nat, credentials: Credentials)
    | V0(date: string, count: nat)
    | Unreadable

  datatype Error = StateInvalid | IoFailed | Stopped

  datatype Reservation = Reservation(count: nat, remaining: nat, reserved: bool)

  predicate IsFingerprint(s: string) {
    |s| == 64 && forall k :: 0 <= k < |s| ==> Decimal.IsDigit(s[k]) || 'a' <= s[k] <= 'f'
  }

  function HexChar(n: nat): (c: char)
    requires n < 16
    ensures Decimal.IsDigit(c) || 'a' <= c <= 'f'
  {
    if n < 10 then '0' + n as char else 'a' + (n - 10) as char
  }

  function HexValue(c: char): (n: nat)
    requires Decimal.IsDigit(c) || 'a' <= c <= 'f'
    ensures n < 16 && HexChar(n) == c
  {
    if Decimal.IsDigit(c) then c as int - '0' as int else c as int - 'a' as int + 10
  }

  predicate IsDigest(bytes: seq<nat>) { |bytes| == 32 && forall k :: 0 <= k < 32 ==> bytes[k] < 256 }

  /** `credential_fingerprint` prints each byte of the digest as two digits. */
  function Hex(bytes: seq<nat>): (s: string)
    requires IsDigest(bytes)
    ensures |s| == 64
  {
    seq(64, k requires 0 <= k < 64 =>
      if k % 2 == 0 then HexChar(bytes[k / 2] / 16) else HexChar(bytes[k / 2] % 16))
  }

  /** The fingerprints accepted are exactly the prints of digests. */
  lemma FingerprintIsDigest(s: string)
    ensures IsFingerprint(s) <==> exists bytes :: IsDigest(bytes) && Hex(bytes) == s
  {
    if IsFingerprint(s) {
      var bytes := seq(32, k requires 0 <= k < 32 => 16 * HexValue(s[2 * k]) + HexValue(s[2 * k + 1]));
      var t := Hex(bytes);
      forall k | 0 <= k < 64 ensures t[k] == s[k] {
        var j := k / 2;
        assert bytes[j] / 16 == HexValue(s[2 * j]) && bytes[j] % 16 == HexValue(s[2 * j + 1]);
        assert k == 2 * j || k == 2 * j + 1;
      }
      assert Hex(bytes) == s;
    }
  }

  predicate IsDate(s: string) { CivilDate.Parse(s).Some? }

  /** `validate_quota`. */
  predicate ValidQuota(version: nat, creds: Credentials) {
    && version == 1
    && |creds| <= MAX_CREDENTIALS
    && forall f :: f in creds ==> IsFingerprint(f) && creds[f].count <= DAILY_LIMIT && IsDate(creds[f].date)
  }

  /** `read_quota` and `decode_quota`; a version 0 file counts for whoever reads it. */
  function Read(file: Option<Persisted>, fingerprint: string): (r: Result<Credentials, Error>)
    ensures r.Success? ==> file.None? || ValidQuota(1, r.value)
  {
    match file
    case None => Success(map[])
    case Some(V1(version, creds)) => if ValidQuota(version, creds) then Success(creds) else Failure(StateInvalid)
    case Some(V0(date, count)) =>
      var creds := map[fingerprint := Entry(date, count)];
      if ValidQuota(1, creds) then Success(creds) else Failure(StateInvalid)
    case Some(Unreadable) => Failure(StateInvalid)
  }

  function Existing(creds: Credentials, fingerprint: string, date: string): nat {
    if fingerprint in creds && creds[fingerprint].date == date then creds[fingerprint].count else 0
  }

  predicate Accepted(file: Option<Persisted>, reader: string) {
    match file
    case None => true
    case Some(V1(version, creds)) =>
      && version == 1 && |creds| <= 10_000
      && forall f :: f in creds ==> IsFingerprint(f) && creds[f].count <= 10_000 && IsDate(creds[f].date)
    case Some(V0(date, count)) => IsFingerprint(reader) && count <= DAILY_LIMIT && IsDate(date)
    case Some(Unreadable) => false
  }

  function CountIn(file: Option<Persisted>, reader: string, fingerprint: string, date: string): nat {
    match file
    case Some(V1(_, creds)) => Existing(creds, fingerprint, date)
    case Some(V0(stored, count)) => if fingerprint == reader && date == stored then count else 0
    case _ => 0
  }

  /** A file is accepted exactly if it is absent, a valid version 1 file, or a version 0
      file with a valid entry; it then reads as the counts it holds, those of a version 0
      file as the reader's own. */
  lemma ReadMeans(file: Option<Persisted>, reader: string)
    ensures Read(file, reader).Success? <==> Accepted(file, reader)
    ensures Read(file, reader).Success? ==>
              forall f, date :: Existing(Read(file, reader).value, f, date) == CountIn(file, reader, f, date)
  {
    hide IsFingerprint, IsDate;
    if file.Some? && file.value.V0? {
      var creds := map[reader := Entry(file.value.date, file.value.count)];
      assert reader in creds && creds.Keys == {reader} && |creds| == |creds.Keys|;
      assert creds[reader] == Entry(file.value.date, file.value.count);
    }
  }

  function Retained(creds: Credentials, date: string): Credentials {
    map f | f in creds && creds[f].date == date :: creds[f]
  }

  datatype Decision = AtLimit | Refuse | Write(next: Credentials, count: nat)

  /** What a reservation under the lock does with the counters it has read. */
  function Decide(creds: Credentials, fingerprint: string, date: string): Decision {
    var existing := Existing(creds, fingerprint, date);
    var kept := Retained(creds, date);
    if existing >= DAILY_LIMIT then AtLimit
    else if fingerprint !in kept && |kept| >= MAX_CREDENTIALS then Refuse
    else Write(kept[fingerprint := Entry(date, existing + 1)], existing + 1)
  }

  /** There is room for this credential among those counted on the date. */
  predicate Admitted(creds: Credentials, fingerprint: string, date: string) {
    || (fingerprint in creds && creds[fingerprint].date == date)
    || |set f | f in creds && creds[f].date == date| < 10_000
  }

  lemma AdmittedMeans(creds: Credentials, fingerprint: string, date: string)
    ensures Admitted(creds, fingerprint, date) <==>
              fingerprint in Retained(creds, date) || |Retained(creds, date)| < MAX_CREDENTIALS
  {
    var kept := Retained(creds, date);
    assert kept.Keys == set f | f in creds && creds[f].date == date;
    assert |kept| == |kept.Keys|;
  }

  /** The three decisions: at ten thousand requests; no room for one more credential on
      this date; otherwise count. */
  lemma DecideExactly(creds: Credentials, fingerprint: string, date: string)
    requires ValidQuota(1, creds)
    ensures Decide(creds, fingerprint, date).AtLimit? <==>
              fingerprint in creds && creds[fingerprint] == Entry(date, 10_000)
    ensures Decide(creds, fingerprint, date).Refuse? <==> !Admitted(creds, fingerprint, date)
  {
    hide IsFingerprint, IsDate;
    AdmittedMeans(creds, fingerprint, date);
  }

  lemma RetainedIsSmaller(creds: Credentials, date: string)
    ensures |Retained(creds, date)| <= |creds|
  {
    var kept := Retained(creds, date);
    assert kept.Keys <= creds.Keys;
    SubsetSize(kept.Keys, creds.Keys);
    assert |kept| == |kept.Keys| && |creds| == |creds.Keys|;
  }

  /** What a decision writes is a state the next reader accepts. */
  lemma WriteReadsBack(creds: Credentials, fingerprint: string, date: string)
    requires ValidQuota(1, creds) && IsFingerprint(fingerprint) && IsDate(date)
    requires Decide(creds, fingerprint, date).Write?
    ensures ValidQuota(1, Decide(creds, fingerprint, date).next)
    ensures forall f :: Read(Some(V1(1, Decide(creds, fingerprint, date).next)), f)
                        == Success(Decide(creds, fingerprint, date).next)
  {
    hide IsFingerprint, IsDate;
    RetainedIsSmaller(creds, date);
    var kept := Retained(creds, date);
    var next := kept[fingerprint := Entry(date, Existing(creds, fingerprint, date) + 1)];
    AddedSize(kept, fingerprint, next[fingerprint]);
    assert Decide(creds, fingerprint, date).next == next;
    hide Existing, Decide, Retained;
    assert ValidQuota(1, next);
  }

  lemma AddedSize(kept: Credentials, fingerprint: string, entry: Entry)
    ensures |kept[fingerprint := entry]| == if fingerprint in kept then |kept| else |kept| + 1
  {
    var next := kept[fingerprint := entry];
    if fingerprint in kept { assert next.Keys == kept.Keys; } else { assert next.Keys == kept.Keys + {fingerprint}; }
    assert |next| == |next.Keys| && |kept| == |kept.Keys|;
  }

  /** A decision to write counts exactly one more for this credential and date, leaves every
      other credential's count for that date alone, and forgets all other dates; a
      reservation stops at the limit exactly when the limit is reached. */
  lemma WriteCountsOne(creds: Credentials, fingerprint: string, date: string)
    requires ValidQuota(1, creds)
    ensures Decide(creds, fingerprint, date).AtLimit? <==> Existing(creds, fingerprint, date) == DAILY_LIMIT
    ensures Decide(creds, fingerprint, date).Write? ==>
              && Decide(creds, fingerprint, date).count == Existing(creds, fingerprint, date) + 1 <= DAILY_LIMIT
              && Existing(Decide(creds, fingerprint, date).next, fingerprint, date)
                 == Decide(creds, fingerprint, date).count
              && (forall f :: f != fingerprint ==>
                    Existing(Decide(creds, fingerprint, date).next, f, date) == Existing(creds, f, date))
              && (forall f, e :: e != date ==> Existing(Decide(creds, fingerprint, date).next, f, e) == 0)
  {
    hide IsFingerprint, IsDate;
  }

  /** How the atomic replacement of the file ended. */
  datatype WriteOutcome = Durable | CommittedNotSynced | NotCommitted

  class QuotaFile {
    var stored: Option<Persisted>

    constructor (initial: Option<Persisted>)
      ensures stored == initial
    {
      stored := initial;
    }

    /** `reserve_blocking` from the moment it has the lock.  `cancelled` and `expired` are
        the two checks of the cancellation and the call deadline. */
    method Reserve(fingerprint: string, date: string, cancelled: bool, expired: bool, outcome: WriteOutcome)
      returns (r: Result<Reservation, Error>)
      requires IsFingerprint(fingerprint) && IsDate(date)
      modifies this
      ensures r.Success? && r.value.reserved ==>
                && Read(old(stored), fingerprint).Success?
                && Existing(Read(old(stored), fingerprint).value, fingerprint, date) < DAILY_LIMIT
                && r.value.count == Existing(Read(old(stored), fingerprint).value, fingerprint, date) + 1
                && r.value.count + r.value.remaining == DAILY_LIMIT
                && Read(stored, fingerprint).Success?
                && Existing(Read(stored, fingerprint).value, fingerprint, date) == r.value.count
      ensures r.Success? && !r.value.reserved ==>
                && stored == old(stored) && r.value == Reservation(DAILY_LIMIT, 0, false)
                && Read(stored, fingerprint).Success?
                && Existing(Read(stored, fingerprint).value, fingerprint, date) == DAILY_LIMIT
      ensures stored != old(stored) ==>
                && Read(old(stored), fingerprint).Success?
                && Decide(Read(old(stored), fingerprint).value, fingerprint, date).Write?
                && stored == Some(V1(1, Decide(Read(old(stored), fingerprint).value, fingerprint, date).next))
      ensures stored != old(stored) || (r.Success? && r.value.reserved) ==>
                !outcome.NotCommitted? && !cancelled && !expired
      ensures r.Success? <==>
                (Read(old(stored), fingerprint).Success? && !cancelled
                 && (Existing(Read(old(stored), fingerprint).value, fingerprint, date) == DAILY_LIMIT
                     || (Admitted(Read(old(stored), fingerprint).value, fingerprint, date)
                         && !expired && outcome.Durable?)))
      ensures r.Failure? ==>
                r.error == if Read(old(stored), fingerprint).Failure? then StateInvalid
                           else if cancelled then Stopped
                           else if !Admitted(Read(old(stored), fingerprint).value, fingerprint, date) then StateInvalid
                           else if expired then Stopped
                           else IoFailed
      ensures r.Failure? && !cancelled && !expired && outcome.CommittedNotSynced?
              && Read(old(stored), fingerprint).Success?
              && Admitted(Read(old(stored), fingerprint).value, fingerprint, date) ==>
                stored != old(stored)
    {
      hide IsFingerprint, IsDate, Admitted;
      var read := Read(stored, fingerprint);
      if read.Failure? { return Failure(read.error); }
      var data := read.value;
      if cancelled { return Failure(Stopped); }
      var existing := Existing(data, fingerprint, date);
      if existing >= DAILY_LIMIT { return Success(Reservation(DAILY_LIMIT, 0, false)); }
      WriteCountsOne(data, fingerprint, date);
      AdmittedMeans(data, fingerprint, date);
      DecideExactly(data, fingerprint, date);
      ghost var decision := Decide(data, fingerprint, date);
      if decision.Write? { WriteReadsBack(data, fingerprint, date); }
      data := Retained(data, date);
      if fingerprint !in data && |data| >= MAX_CREDENTIALS { return Failure(StateInvalid); }
      var count := existing + 1;
      data := data[fingerprint := Entry(date, count)];
      assert decision == Write(data, count);
      if expired { return Failure(Stopped); }
      match outcome {
        case NotCommitted => return Failure(IoFailed);
        case CommittedNotSynced => stored := Some(V1(1, data)); return Failure(IoFailed);
        case Durable => stored := Some(V1(1, data)); return Success(Reservation(count, DAILY_LIMIT - count, true));
      }
    }
  }

  lemma NothingRetained(creds: Credentials, date: string)
    requires forall f :: f in creds ==> creds[f].date != date
    ensures Retained(creds, date) == map[]
  {
    assert forall f :: f !in Retained(creds, date);
  }

  /** The counter keeps one date only: after a reservation for an earlier date, the later
      date counts from one again. */
  lemma GoingBackRepeatsACount(fingerprint: string, later: string, earlier: string)
    requires later != earlier
    ensures Decide(map[], fingerprint, later) == Write(map[fingerprint := Entry(later, 1)], 1)
    ensures Decide(map[fingerprint := Entry(later, 1)], fingerprint, earlier)
            == Write(map[fingerprint := Entry(earlier, 1)], 1)
    ensures Decide(map[fingerprint := Entry(earlier, 1)], fingerprint, later).Write?
    ensures Decide(map[fingerprint := Entry(earlier, 1)], fingerprint, later).count == 1
  {
    NothingRetained(map[], later);
    NothingRetained(map[fingerprint := Entry(later, 1)], earlier);
    NothingRetained(map[fingerprint := Entry(earlier, 1)], later);
  }
}
