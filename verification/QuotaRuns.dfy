/**
  Concurrent reservations: each call acquires the directory lock of `PlainLock`, then
  reads, decides and replaces the counter file while it holds it.  Any number of calls
  run interleaved, and a process may die between any two steps.
*/
module QuotaRuns {
  import opened Wrappers
  import opened Quota
  import CivilDate
  import L = PlainLock
  import PlainLockSafety

  type Caller = L.Token

  datatype Request = Request(fingerprint: string, date: string)

  datatype Call =
    | Waiting
    | Loaded(req: Request, creds: Credentials)
    | Written(req: Request, count: nat)         // replaced, not yet synced
    | Ended

  /** A reservation that was returned to its caller. */
  datatype Grant = Grant(caller: Caller, fingerprint: string, date: string, count: nat)

  /** `latest` is the date of the last call that read the file; no step depends on it. */
  datatype State = State(
    lock: L.State,
    file: Option<Persisted>,
    calls: map<Caller, Call>,
    grants: seq<Grant>,
    latest: Option<string>)

  datatype Event =
    | Lock(a: Caller, act: L.Action)
    | Load(a: Caller, req: Request)
    | Stop(a: Caller)              // cancelled, past the deadline, refused or failed
    | Limit(a: Caller)
    | Replace(a: Caller)
    | Sync(a: Caller, ok: bool)

  function CallOf(s: State, a: Caller): Call { if a in s.calls then s.calls[a] else Waiting }

  function Put(s: State, a: Caller, c: Call): State { s.(calls := s.calls[a := c]) }

  predicate ValidRequest(r: Request) { IsFingerprint(r.fingerprint) && IsDate(r.date) }

  predicate Busy(c: Call) { c.Loaded? || c.Written? }

  ghost predicate LockStep(s: State, a: Caller, act: L.Action, t: State) {
    && L.Step(s.lock, a, act, t.lock)
    && (act.DropOpen? ==> CallOf(s, a).Ended?)      // the guard is dropped when the call returns
    && t == s.(lock := t.lock)
  }

  ghost predicate LoadStep(s: State, a: Caller, req: Request, t: State) {
    && L.Holds(s.lock, a) && CallOf(s, a).Waiting? && ValidRequest(req)
    && t == Put(s, a, match Read(s.file, req.fingerprint)
                      case Success(creds) => Loaded(req, creds)
                      case Failure(_) => Ended).(latest := Some(req.date))
  }

  ghost predicate ReplaceStep(s: State, a: Caller, t: State) {
    && CallOf(s, a).Loaded? && L.Alive(s.lock, a)
    && var c := CallOf(s, a);
       var d := Decide(c.creds, c.req.fingerprint, c.req.date);
       d.Write? && t == Put(s, a, Written(c.req, d.count)).(file := Some(V1(1, d.next)))
  }

  ghost predicate SyncStep(s: State, a: Caller, ok: bool, t: State) {
    && CallOf(s, a).Written? && L.Alive(s.lock, a)
    && var c := CallOf(s, a);
       t == if ok then Put(s, a, Ended).(grants := s.grants + [Grant(a, c.req.fingerprint, c.req.date, c.count)])
            else Put(s, a, Ended)
  }

  ghost predicate LimitStep(s: State, a: Caller, t: State) {
    && CallOf(s, a).Loaded? && L.Alive(s.lock, a)
    && var c := CallOf(s, a);
       Decide(c.creds, c.req.fingerprint, c.req.date).AtLimit? && t == Put(s, a, Ended)
  }

  ghost predicate Step(s: State, e: Event, t: State) {
    match e
    case Lock(a, act) => LockStep(s, a, act, t)
    case Load(a, req) => LoadStep(s, a, req, t)
    case Stop(a) => CallOf(s, a).Loaded? && L.Alive(s.lock, a) && t == Put(s, a, Ended)
    case Limit(a) => LimitStep(s, a, t)
    case Replace(a) => ReplaceStep(s, a, t)
    case Sync(a, ok) => SyncStep(s, a, ok, t)
  }

  function Day(date: string): int {
    match CivilDate.Parse(date)
    case Some(d) => if CivilDate.Valid(d) then CivilDate.DayNumber(d) else 0
    case None => 0
  }

  lemma SameDay(d: string, e: string)
    requires IsDate(d) && IsDate(e) && Day(d) == Day(e)
    ensures d == e
  {
    CivilDate.TextOrderIsChronological(d, e);
    CivilDate.TextOrderIsChronological(e, d);
    CivilDate.OrderIsDayOrder(CivilDate.Parse(d).value, CivilDate.Parse(e).value);
  }

  /** What the theorems assume of an event: `open` names the directory just made, and
      the calls that read the file do so in date order. */
  predicate Orderly(s: State, e: Event) {
    && (e.Lock? ==> L.OpensOwn(s.lock, e.a, e.act))
    && (e.Load? && s.latest.Some? ==> Day(s.latest.value) <= Day(e.req.date))
  }

  ghost predicate Init(s: State) {
    L.Init(s.lock) && s.calls == map[] && s.grants == [] && s.latest.None?
  }

  /** The file may hold anything at the start. */
  ghost predicate IsRun(states: seq<State>, events: seq<Event>) {
    && |states| == |events| + 1
    && Init(states[0])
    && forall k :: 0 <= k < |events| ==> Step(states[k], events[k], states[k + 1]) && Orderly(states[k], events[k])
  }

  // ---------------------------------------------------------------- the invariant

  /** The count the file holds; only a version 1 file was written by a reservation. */
  function Stored(file: Option<Persisted>, fingerprint: string, date: string): nat {
    if file.Some? && file.value.V1? then Existing(file.value.credentials, fingerprint, date) else 0
  }

  predicate For(g: Grant, fingerprint: string, date: string) { g.fingerprint == fingerprint && g.date == date }

  function Num(grants: seq<Grant>, fingerprint: string, date: string): nat {
    if grants == [] then 0
    else
      Num(grants[..|grants| - 1], fingerprint, date)
      + (if For(grants[|grants| - 1], fingerprint, date) then 1 else 0)
  }

  predicate Dated(s: State) {
    && (s.latest.Some? ==> IsDate(s.latest.value))
    && (forall g :: g in s.grants ==> s.latest.Some? && IsDate(g.date) && Day(g.date) <= Day(s.latest.value))
  }

  predicate Bounded(s: State) {
    forall g :: g in s.grants ==>
      1 <= g.count <= DAILY_LIMIT && (s.latest == Some(g.date) ==> g.count <= Stored(s.file, g.fingerprint, g.date))
  }

  predicate Rising(grants: seq<Grant>) {
    forall i, j :: 0 <= i < j < |grants| && For(grants[j], grants[i].fingerprint, grants[i].date) ==>
      grants[i].count < grants[j].count
  }

  ghost predicate Counted(s: State) {
    s.latest.Some? ==> forall f :: Num(s.grants, f, s.latest.value) <= Stored(s.file, f, s.latest.value)
  }

  ghost predicate Capped(grants: seq<Grant>) { forall f, d :: Num(grants, f, d) <= DAILY_LIMIT }

  predicate FileValid(file: Option<Persisted>) {
    file.Some? && file.value.V1? && ValidQuota(file.value.version, file.value.credentials)
  }

  predicate Kept(s: State) { s.grants != [] ==> FileValid(s.file) }

  ghost predicate GrantsOk(s: State) {
    Kept(s) && Dated(s) && Bounded(s) && Rising(s.grants) && Counted(s) && Capped(s.grants)
  }

  predicate BusyOk(s: State, a: Caller) {
    var c := CallOf(s, a);
    && Busy(c) && L.Holds(s.lock, a) && ValidRequest(c.req) && s.latest == Some(c.req.date)
    && (c.Loaded? ==> Read(s.file, c.req.fingerprint) == Success(c.creds))
    && (c.Written? ==> WrittenOk(s, c))
  }

  /** The written count is in the file and is not granted yet. */
  predicate WrittenOk(s: State, c: Call)
    requires c.Written?
  {
    && FileValid(s.file)
    && Stored(s.file, c.req.fingerprint, c.req.date) == c.count <= DAILY_LIMIT
    && Num(s.grants, c.req.fingerprint, c.req.date) < c.count
    && (forall g :: g in s.grants && For(g, c.req.fingerprint, c.req.date) ==> g.count < c.count)
  }

  predicate CallOk(s: State, a: Caller) { L.Alive(s.lock, a) && Busy(CallOf(s, a)) ==> BusyOk(s, a) }

  ghost predicate Inv(s: State) {
    PlainLockSafety.Inv(s.lock) && GrantsOk(s) && forall a :: CallOk(s, a)
  }

  // ---------------------------------------------------------------- every step keeps it

  lemma OneHolder(s: L.State, a: Caller, b: Caller)
    requires PlainLockSafety.Inv(s) && L.Holds(s, a) && L.Holds(s, b)
    ensures a == b
  {
    assert PlainLockSafety.AgentInv(s, a) && PlainLockSafety.AgentInv(s, b);
  }

  lemma HoldsUntilDrop(s: L.State, a: Caller, act: L.Action, t: L.State)
    requires L.Step(s, a, act, t) && L.Holds(s, a) && !act.DropOpen?
    ensures L.Alive(t, a) ==> L.Holds(t, a)
  {}

  lemma LockKeeps(s: State, a: Caller, act: L.Action, t: State)
    requires Inv(s) && LockStep(s, a, act, t) && L.OpensOwn(s.lock, a, act)
    ensures Inv(t)
  {
    PlainLockSafety.StepKeeps(s.lock, a, act, t.lock);
    forall b ensures CallOk(t, b) {
      assert CallOk(s, b);
      LockKeepsCall(s, a, act, t, b);
    }
    assert GrantsOk(t);
  }

  lemma LockKeepsCall(s: State, a: Caller, act: L.Action, t: State, b: Caller)
    requires CallOk(s, b) && LockStep(s, a, act, t)
    ensures CallOk(t, b)
  {
    if a == b {
      if L.Alive(s.lock, b) && Busy(CallOf(s, b)) { HoldsUntilDrop(s.lock, a, act, t.lock); }
    } else {
      PlainLockSafety.OthersStay(s.lock, a, act, t.lock, b);
    }
  }

  /** No other call is between reading and syncing while `a` holds the lock. */
  lemma OthersQuiet(s: State, a: Caller, t: State)
    requires Inv(s) && L.Holds(s.lock, a) && t.lock == s.lock
    requires forall b :: b != a ==> CallOf(t, b) == CallOf(s, b)
    ensures forall b :: b != a ==> CallOk(t, b)
  {
    forall b | b != a ensures CallOk(t, b) {
      assert CallOk(s, b);
      if L.Alive(s.lock, b) && Busy(CallOf(s, b)) { OneHolder(s.lock, a, b); }
    }
  }

  lemma {:induction false} NoneYet(grants: seq<Grant>, fingerprint: string, date: string)
    requires forall g :: g in grants ==> g.date != date
    ensures Num(grants, fingerprint, date) == 0
  {
    if grants != [] { NoneYet(grants[..|grants| - 1], fingerprint, date); }
  }

  lemma LoadKeepsGrants(s: State, a: Caller, req: Request, t: State)
    requires GrantsOk(s) && LoadStep(s, a, req, t) && Orderly(s, Load(a, req))
    ensures GrantsOk(t)
  {
    hide IsFingerprint, IsDate, Day, Existing, Read;
    if s.latest != t.latest {
      forall g | g in s.grants ensures g.date != req.date {
        if g.date == req.date { SameDay(s.latest.value, req.date); }
      }
      forall f ensures Num(s.grants, f, req.date) == 0 { NoneYet(s.grants, f, req.date); }
    }
  }

  lemma LoadKeeps(s: State, a: Caller, req: Request, t: State)
    requires Inv(s) && LoadStep(s, a, req, t) && Orderly(s, Load(a, req))
    ensures Inv(t)
  {
    LoadKeepsGrants(s, a, req, t);
    hide Existing, Read, IsFingerprint, IsDate, GrantsOk;
    hide PlainLockSafety.Inv;
    assert CallOk(t, a);
    OthersQuiet(s, a, t);
  }

  lemma EndKeeps(s: State, a: Caller, t: State)
    requires Inv(s) && L.Alive(s.lock, a) && Busy(CallOf(s, a)) && t == Put(s, a, Ended)
    ensures Inv(t)
  {
    hide PlainLockSafety.Inv;
    assert CallOk(s, a);
    OthersQuiet(s, a, t);
    assert CallOk(t, a);
    assert GrantsOk(t);
  }

  lemma StoredIsRead(file: Option<Persisted>, fingerprint: string, date: string)
    requires Read(file, fingerprint).Success?
    ensures forall f :: Stored(file, f, date) <= Existing(Read(file, fingerprint).value, f, date)
  {
    hide Existing, IsFingerprint, IsDate;
  }

  /** The file that `Replace` leaves: the caller's count is one more than any before, and
      nobody else's count for the date went down. */
  lemma ReplaceCounts(s: State, a: Caller, t: State)
    requires CallOk(s, a) && ReplaceStep(s, a, t)
    ensures FileValid(t.file)
    ensures forall f :: Stored(t.file, f, s.calls[a].req.date) >= Stored(s.file, f, s.calls[a].req.date)
    ensures CallOf(t, a) == Written(s.calls[a].req, Stored(t.file, s.calls[a].req.fingerprint, s.calls[a].req.date))
    ensures Stored(s.file, s.calls[a].req.fingerprint, s.calls[a].req.date) < CallOf(t, a).count <= DAILY_LIMIT
  {
    var c := s.calls[a];
    assert BusyOk(s, a);
    StoredIsRead(s.file, c.req.fingerprint, c.req.date);
    WriteCountsOne(c.creds, c.req.fingerprint, c.req.date);
    WriteReadsBack(c.creds, c.req.fingerprint, c.req.date);
    var d := Decide(c.creds, c.req.fingerprint, c.req.date);
    assert t.file == Some(V1(1, d.next)) && t.calls[a] == Written(c.req, d.count);
    hide Read, Existing, Decide, Retained, IsFingerprint, IsDate, ValidQuota;
  }

  lemma ReplaceKeeps(s: State, a: Caller, t: State)
    requires Inv(s) && ReplaceStep(s, a, t)
    ensures Inv(t)
  {
    hide PlainLockSafety.Inv;
    assert CallOk(s, a);
    ReplaceCounts(s, a, t);
    hide Stored, Read, Decide, IsFingerprint, IsDate, Num, ValidQuota;
    assert GrantsOk(t);
    assert CallOk(t, a);
    OthersQuiet(s, a, t);
  }

  lemma SyncKeepsGrants(s: State, a: Caller, t: State)
    requires GrantsOk(s) && CallOk(s, a) && SyncStep(s, a, true, t)
    ensures GrantsOk(t)
  {
    hide Stored, Read, Decide, IsFingerprint, ValidQuota;
    var c := s.calls[a];
    var g := Grant(a, c.req.fingerprint, c.req.date, c.count);
    assert BusyOk(s, a);
    assert t.grants == s.grants + [g] && t.grants[..|t.grants| - 1] == s.grants;
    assert forall f, d :: Num(t.grants, f, d) == Num(s.grants, f, d) + (if For(g, f, d) then 1 else 0);
  }

  lemma SyncKeeps(s: State, a: Caller, ok: bool, t: State)
    requires Inv(s) && SyncStep(s, a, ok, t)
    ensures Inv(t)
  {
    hide PlainLockSafety.Inv;
    assert CallOk(s, a);
    if ok {
      SyncKeepsGrants(s, a, t);
      hide GrantsOk;
      OthersQuiet(s, a, t);
      assert CallOk(t, a);
    } else {
      EndKeeps(s, a, t);
    }
  }

  lemma StepKeeps(s: State, e: Event, t: State)
    requires Inv(s) && Step(s, e, t) && Orderly(s, e)
    ensures Inv(t)
  {
    hide Inv, LockStep, LoadStep, ReplaceStep, SyncStep, LimitStep;
    match e
    case Lock(a, act) => LockKeeps(s, a, act, t);
    case Load(a, req) => LoadKeeps(s, a, req, t);
    case Stop(a) => EndKeeps(s, a, t);
    case Limit(a) => LimitEnds(s, a, t); EndKeeps(s, a, t);
    case Replace(a) => ReplaceKeeps(s, a, t);
    case Sync(a, ok) => SyncKeeps(s, a, ok, t);
  }

  lemma LimitEnds(s: State, a: Caller, t: State)
    requires LimitStep(s, a, t)
    ensures L.Alive(s.lock, a) && Busy(CallOf(s, a)) && t == Put(s, a, Ended)
  {}

  lemma RunEvent(states: seq<State>, events: seq<Event>, k: nat)
    requires IsRun(states, events) && k < |events|
    ensures Step(states[k], events[k], states[k + 1]) && Orderly(states[k], events[k])
  {
    hide Step, Orderly, Init;
  }

  lemma {:induction false} RunKeeps(states: seq<State>, events: seq<Event>, k: nat)
    requires IsRun(states, events) && k <= |events|
    ensures Inv(states[k])
  {
    if k == 0 {
      PlainLockSafety.InitInv(states[0].lock);
    } else {
      RunKeeps(states, events, k - 1);
      RunEvent(states, events, k - 1);
      hide *;
      StepKeeps(states[k - 1], events[k - 1], states[k]);
    }
  }

  // ---------------------------------------------------------------- what reservations promise

  lemma StoredWithin(file: Option<Persisted>, fingerprint: string, date: string)
    requires FileValid(file)
    ensures Stored(file, fingerprint, date) <= DAILY_LIMIT
  {
    hide IsFingerprint, IsDate;
  }

  lemma GrantsAgree(s: State)
    requires Inv(s)
    ensures forall i, j :: 0 <= i < j < |s.grants| && For(s.grants[j], s.grants[i].fingerprint, s.grants[i].date) ==>
              1 <= s.grants[i].count < s.grants[j].count <= DAILY_LIMIT
    ensures forall f, d :: Num(s.grants, f, d) <= DAILY_LIMIT
    ensures s.grants != [] ==> FileValid(s.file) && s.latest.Some?
    ensures s.grants != [] ==>
              forall f :: Num(s.grants, f, s.latest.value) <= Stored(s.file, f, s.latest.value) <= DAILY_LIMIT
  {
    hide PlainLockSafety.Inv, CallOk, Num, Stored, FileValid, IsDate, Day;
    assert GrantsOk(s);
    forall i | 0 <= i < |s.grants| ensures 1 <= s.grants[i].count <= DAILY_LIMIT {
      assert s.grants[i] in s.grants;
    }
    if s.grants != [] {
      assert s.grants[0] in s.grants;
      forall f ensures Stored(s.file, f, s.latest.value) <= DAILY_LIMIT { StoredWithin(s.file, f, s.latest.value); }
    }
  }

  /** Grants for one credential and date carry different counts, each above the ones
      before it; there are never more of them than the limit, and for the current date
      never more than the count in the file, which is itself within the limit. */
  lemma DistinctCounts(states: seq<State>, events: seq<Event>, k: nat)
    requires IsRun(states, events) && k <= |events|
    ensures forall i, j ::
              (0 <= i < j < |states[k].grants|
               && For(states[k].grants[j], states[k].grants[i].fingerprint, states[k].grants[i].date)) ==>
                1 <= states[k].grants[i].count < states[k].grants[j].count <= DAILY_LIMIT
    ensures forall f, d :: Num(states[k].grants, f, d) <= DAILY_LIMIT
    ensures states[k].grants != [] ==>
              && FileValid(states[k].file) && states[k].latest.Some?
              && forall f :: Num(states[k].grants, f, states[k].latest.value)
                             <= Stored(states[k].file, f, states[k].latest.value) <= DAILY_LIMIT
  {
    RunKeeps(states, events, k);
    hide *;
    GrantsAgree(states[k]);
  }

  /** A call is told it is at the limit only when the file says so at that moment. */
  lemma RefusedOnlyAtLimit(states: seq<State>, events: seq<Event>, k: nat)
    requires IsRun(states, events) && k < |events| && events[k].Limit?
    ensures CallOf(states[k], events[k].a).Loaded?
    ensures var r := CallOf(states[k], events[k].a).req;
            && Read(states[k].file, r.fingerprint).Success?
            && Existing(Read(states[k].file, r.fingerprint).value, r.fingerprint, r.date) == DAILY_LIMIT
  {
    RunKeeps(states, events, k);
    RunEvent(states, events, k);
    hide Read, PlainLockSafety.Inv, GrantsOk, Orderly, IsRun;
    assert CallOk(states[k], events[k].a);
    var c := CallOf(states[k], events[k].a);
    WriteCountsOne(c.creds, c.req.fingerprint, c.req.date);
  }

  /** The file changes only under the lock, only to a valid state, and only by counting
      one more request for the caller's credential and date. */
  lemma EveryWriteCounts(states: seq<State>, events: seq<Event>, k: nat)
    requires IsRun(states, events) && k < |events| && states[k + 1].file != states[k].file
    ensures events[k].Replace? && L.Holds(states[k].lock, events[k].a) && CallOf(states[k], events[k].a).Loaded?
    ensures FileValid(states[k + 1].file)
    ensures var r := CallOf(states[k], events[k].a).req;
            && Read(states[k].file, r.fingerprint).Success?
            && Stored(states[k + 1].file, r.fingerprint, r.date)
               == Existing(Read(states[k].file, r.fingerprint).value, r.fingerprint, r.date) + 1 <= DAILY_LIMIT
  {
    RunKeeps(states, events, k);
    RunEvent(states, events, k);
    var a := events[k].a;
    assert CallOk(states[k], a);
    ReplaceCounts(states[k], a, states[k + 1]);
    var c := states[k].calls[a];
    WriteCountsOne(c.creds, c.req.fingerprint, c.req.date);
    hide PlainLockSafety.Inv, GrantsOk, Read, Existing, Retained, ValidQuota;
  }

  /** A holder whose steps all succeed is granted the next count, which is then stored. */
  lemma UndisturbedCallIsGranted(s: State, a: Caller, req: Request) returns (loaded: State, written: State, done: State)
    requires L.Holds(s.lock, a) && CallOf(s, a).Waiting? && ValidRequest(req)
    requires Read(s.file, req.fingerprint).Success?
    requires Decide(Read(s.file, req.fingerprint).value, req.fingerprint, req.date).Write?
    ensures Step(s, Load(a, req), loaded) && Step(loaded, Replace(a), written) && Step(written, Sync(a, true), done)
    ensures var n := Existing(Read(s.file, req.fingerprint).value, req.fingerprint, req.date) + 1;
            && done.grants == s.grants + [Grant(a, req.fingerprint, req.date, n)]
            && Stored(done.file, req.fingerprint, req.date) == n
    ensures CallOf(done, a).Ended? && done.lock == s.lock
  {
    var creds := Read(s.file, req.fingerprint).value;
    var d := Decide(creds, req.fingerprint, req.date);
    loaded := Put(s, a, Loaded(req, creds)).(latest := Some(req.date));
    written := Put(loaded, a, Written(req, d.count)).(file := Some(V1(1, d.next)));
    done := Put(written, a, Ended).(grants := s.grants + [Grant(a, req.fingerprint, req.date, d.count)]);
    ReadIsValid(s.file, req.fingerprint);
    WriteCountsOne(creds, req.fingerprint, req.date);
    hide Read, Retained, ValidQuota;
  }

  /** A grant is given only by the sync of a write, and for the count that is stored. */
  lemma GrantsComeFromWrites(states: seq<State>, events: seq<Event>, k: nat)
    requires IsRun(states, events) && k < |events|
    ensures states[k + 1].grants == states[k].grants || events[k] == Sync(events[k].a, true)
    ensures states[k + 1].grants != states[k].grants ==>
              && CallOf(states[k], events[k].a).Written?
              && var c := CallOf(states[k], events[k].a);
                 && states[k + 1].grants
                    == states[k].grants + [Grant(events[k].a, c.req.fingerprint, c.req.date, c.count)]
                 && Stored(states[k].file, c.req.fingerprint, c.req.date) == c.count
  {
    RunKeeps(states, events, k);
    RunEvent(states, events, k);
    assert CallOk(states[k], events[k].a);
    hide PlainLockSafety.Inv, GrantsOk, Stored, Read, Decide, FileValid, Num;
  }

  /** A holder at the limit is told so, and nothing changes. */
  lemma CallAtLimitIsRefused(s: State, a: Caller, req: Request) returns (loaded: State, done: State)
    requires L.Holds(s.lock, a) && CallOf(s, a).Waiting? && ValidRequest(req)
    requires Read(s.file, req.fingerprint).Success?
    requires Existing(Read(s.file, req.fingerprint).value, req.fingerprint, req.date) == DAILY_LIMIT
    ensures Step(s, Load(a, req), loaded) && Step(loaded, Limit(a), done)
    ensures done.file == s.file && done.grants == s.grants && done.lock == s.lock && CallOf(done, a).Ended?
  {
    var creds := Read(s.file, req.fingerprint).value;
    loaded := Put(s, a, Loaded(req, creds)).(latest := Some(req.date));
    done := Put(loaded, a, Ended);
    ReadIsValid(s.file, req.fingerprint);
    WriteCountsOne(creds, req.fingerprint, req.date);
    hide Read, Existing, Retained, ValidQuota;
  }

  /** A call that has returned may drop the lock. */
  lemma ReturnedCallDrops(s: State, a: Caller, ok: bool, lock: L.State)
    requires CallOf(s, a).Ended? && L.Step(s.lock, a, L.DropOpen(ok), lock)
    ensures Step(s, Lock(a, L.DropOpen(ok)), s.(lock := lock))
  {}

  lemma ReadIsValid(file: Option<Persisted>, fingerprint: string)
    requires Read(file, fingerprint).Success?
    ensures ValidQuota(1, Read(file, fingerprint).value)
  {}
}
