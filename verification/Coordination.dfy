/** `coordinated_query`: one call's way between lease, cache and network. */
module Coordination {
  import opened Wrappers
  import opened CacheEntry
  import opened CacheStore

  datatype Policy = Prefer(maxAge: nat) | Refresh

  /** What one pass of the loop meets.  `current` is the read under the lease, or the
      probe without it; `finished` says whether tidying up after a hit succeeded. */
  datatype Turn = Turn(inTime: bool, lease: Result<bool, Error>, current: Result<CacheRead, Error>, finished: bool,
                       network: bool)

  datatype Answer = FromCache(hit: Hit, leased: bool) | FromNetwork | FromFlight | Failed

  predicate Accepts(p: Policy, hit: Hit, baseline: Option<Hit>) {
    match p
    case Prefer(_) => hit.entry.freshness.Fresh?
    case Refresh => hit.version.VersionTwo? && (baseline.Some? ==> !SameGeneration(hit.entry, baseline.value.entry))
  }

  predicate AcceptsWithoutLease(p: Policy, hit: Hit, baseline: Option<Hit>) {
    match p
    case Prefer(_) => hit.version.VersionTwo? && hit.entry.freshness.Fresh?
    case Refresh => Accepts(p, hit, baseline)
  }

  /** The pass ends the call with this answer, or with none and the loop polls again. */
  function Pass(p: Policy, baseline: Option<Hit>, t: Turn): Option<Answer> {
    if !t.inTime || t.lease.Failure? || t.current.Failure? then Some(Failed)
    else
      var read := t.current.value;
      if t.lease.value then
        if read.Found? && Accepts(p, read.hit, baseline) then
          Some(if t.finished then FromCache(read.hit, true) else Failed)
        else Some(if t.network then FromNetwork else Failed)
      else if read.Found? && AcceptsWithoutLease(p, read.hit, baseline) then Some(FromCache(read.hit, false))
      else None
  }

  /** The answer is that of the first pass that decides, or failure if none does. */
  ghost predicate Decides(p: Policy, baseline: Option<Hit>, turns: seq<Turn>, answer: Answer) {
    || (answer == Failed && forall k :: 0 <= k < |turns| ==> Pass(p, baseline, turns[k]).None?)
    || exists k :: DecidesAt(p, baseline, turns, k, answer)
  }

  ghost predicate DecidesAt(p: Policy, baseline: Option<Hit>, turns: seq<Turn>, k: int, answer: Answer) {
    && 0 <= k < |turns| && Pass(p, baseline, turns[k]) == Some(answer)
    && forall j :: 0 <= j < k ==> Pass(p, baseline, turns[j]).None?
  }

  /** The loop; running out of turns is running out of time. */
  method CoordinatedQuery(p: Policy, baseline: Option<Hit>, shared: bool, turns: seq<Turn>)
    returns (answer: Answer, published: bool)
    ensures shared ==> answer == FromFlight
    ensures !shared ==> Decides(p, baseline, turns, answer)
    ensures published <==> answer == FromNetwork
  {
    if shared { return FromFlight, false; }
    for k := 0 to |turns|
      invariant forall j :: 0 <= j < k ==> Pass(p, baseline, turns[j]).None?
    {
      var t := turns[k];
      ghost var a := Pass(p, baseline, t);
      assert a.Some? ==> DecidesAt(p, baseline, turns, k, a.value);
      if !t.inTime || t.lease.Failure? || t.current.Failure? { return Failed, false; }
      var read := t.current.value;
      if t.lease.value {
        if read.Found? && Accepts(p, read.hit, baseline) {
          return if t.finished then FromCache(read.hit, true) else Failed, false;
        }
        return if t.network then FromNetwork else Failed, t.network;
      }
      if read.Found? && AcceptsWithoutLease(p, read.hit, baseline) { return FromCache(read.hit, false), false; }
    }
    answer, published := Failed, false;
  }

  /** Whatever ends the call: a cached answer is fresh for `Prefer`; for `Refresh` it is a
      version 2 entry of another generation than the baseline.  The network is asked only
      under the lease and only if the entry read under it was not acceptable. */
  lemma AnswersAreAcceptable(p: Policy, baseline: Option<Hit>, t: Turn)
    ensures var a := Pass(p, baseline, t);
            && (a.Some? && a.value.FromCache? && p.Prefer? ==> a.value.hit.entry.freshness.Fresh?)
            && (a.Some? && a.value.FromCache? && p.Refresh? ==>
                  && a.value.hit.version.VersionTwo?
                  && (baseline.Some? ==> !SameGeneration(a.value.hit.entry, baseline.value.entry)))
            && (a == Some(FromNetwork) ==>
                  t.lease == Success(true) && t.current.Success?
                  && (t.current.value.Found? ==> !Accepts(p, t.current.value.hit, baseline)))
  {}

  /** What a `Prefer` pass answers to what it meets: under the lease a fresh hit of either
      version, without it a fresh version 2 hit; otherwise the network under the lease, and
      another poll without it. */
  lemma PreferAnswers(maxAge: nat, baseline: Option<Hit>, t: Turn)
    requires t.inTime && t.lease.Success? && t.current.Success?
    ensures t.current.value.Found? && t.current.value.hit.entry.freshness.Fresh? ==>
              Pass(Prefer(maxAge), baseline, t)
              == if t.lease.value then Some(if t.finished then FromCache(t.current.value.hit, true) else Failed)
                 else if t.current.value.hit.version.VersionTwo? then Some(FromCache(t.current.value.hit, false))
                 else None
    ensures !t.current.value.Found? || t.current.value.hit.entry.freshness.Stale? ==>
              Pass(Prefer(maxAge), baseline, t)
              == if t.lease.value then Some(if t.network then FromNetwork else Failed) else None
  {}

  /** What a `Refresh` pass answers: a version 2 hit if there was no entry at the start or
      it is of another generation than that one. */
  lemma RefreshAnswers(baseline: Option<Hit>, t: Turn)
    requires t.inTime && t.lease.Success? && t.current.Success?
    ensures t.current.value.Found? && t.current.value.hit.version.VersionTwo?
            && (baseline.None? || !SameGeneration(t.current.value.hit.entry, baseline.value.entry)) ==>
              Pass(Refresh, baseline, t)
              == if t.lease.value && !t.finished then Some(Failed)
                 else Some(FromCache(t.current.value.hit, t.lease.value))
    ensures !t.current.value.Found? || t.current.value.hit.version.VersionOne?
            || (baseline.Some? && SameGeneration(t.current.value.hit.entry, baseline.value.entry)) ==>
              Pass(Refresh, baseline, t)
              == if t.lease.value then Some(if t.network then FromNetwork else Failed) else None
  {}

  /** A pass that is out of time or meets an error ends the call. */
  lemma TroubleEnds(p: Policy, baseline: Option<Hit>, t: Turn)
    ensures !t.inTime || t.lease.Failure? || t.current.Failure? ==> Pass(p, baseline, t) == Some(Failed)
  {}

  /** The read of some state of the store, with or without quarantine. */
  ghost predicate FromStore(key: Key, current: Result<CacheRead, Error>) {
    exists d, maxAge, now, quarantine, script :: current == ReadResult(key, d, maxAge, now, quarantine, script)
  }

  /** The file that promoting this entry writes. */
  function Promotion(key: Key, e: Entry): Option<Content> {
    match Written(e.fetchedAt)
    case Some(stamp) => Some(Encode(key, e.rows, stamp))
    case None => None
  }

  lemma HitsAreDecoded(key: Key, d: Disk, maxAge: nat, now: int, quarantine: bool, script: Script)
    ensures var r := ReadResult(key, d, maxAge, now, quarantine, script);
            r.Success? && r.value.Found? && r.value.hit.source.V2? ==>
              DecodeV2(key, r.value.hit.source, maxAge, now) == Some(r.value.hit.entry)
  {
    hide DecodesRows, DecodeRows, IsHistorical;
  }

  /** A refresh that started from a version 1 entry never takes the promotion of that very
      entry for a newer response.  A pass that meets the promoted file goes to the network
      if it has the lease and polls on if somebody else does. */
  lemma RefreshIgnoresPromotedBaseline(key: Key, source: Content, maxAge: nat, now: int, t: Turn)
    requires DecodeV1(key, source, maxAge, now).Some? && FromStore(key, t.current)
    requires t.current.Success? && t.current.value.Found?
    requires Promotion(key, DecodeV1(key, source, maxAge, now).value) == Some(t.current.value.hit.source)
    ensures Pass(Refresh, Some(Hit(DecodeV1(key, source, maxAge, now).value, VersionOne, source)), t)
            == if !t.inTime || t.lease.Failure? then Some(Failed)
               else if t.lease.value then Some(if t.network then FromNetwork else Failed)
               else None
  {
    var e := DecodeV1(key, source, maxAge, now).value;
    var hit := t.current.value.hit;
    var d, maxAge', later, quarantine, script :| t.current == ReadResult(key, d, maxAge', later, quarantine, script);
    HitsAreDecoded(key, d, maxAge', later, quarantine, script);
    PromotionKeepsGeneration(key, source, maxAge, now, maxAge', later);
    hide DecodeV1, DecodeV2, Encode, Written, ReadResult;
    assert SameGeneration(e, hit.entry);
  }

  /** So over a whole call, whoever promotes the baseline and whenever, the answer is never
      the promoted file. */
  lemma RefreshNeverReturnsItsBaseline(key: Key, source: Content, maxAge: nat, now: int, turns: seq<Turn>,
                                       answer: Answer)
    requires DecodeV1(key, source, maxAge, now).Some?
    requires forall k :: 0 <= k < |turns| ==> FromStore(key, turns[k].current)
    requires Decides(Refresh, Some(Hit(DecodeV1(key, source, maxAge, now).value, VersionOne, source)), turns, answer)
    ensures answer.FromCache? ==>
              && answer.hit.version.VersionTwo?
              && Some(answer.hit.source) != Promotion(key, DecodeV1(key, source, maxAge, now).value)
  {
    if answer.FromCache? {
      var baseline := Hit(DecodeV1(key, source, maxAge, now).value, VersionOne, source);
      var k :| DecidesAt(Refresh, Some(baseline), turns, k, answer);
      var t := turns[k];
      if Some(answer.hit.source) == Promotion(key, baseline.entry) {
        RefreshIgnoresPromotedBaseline(key, source, maxAge, now, t);
      }
      hide DecodeV1, Promotion, FromStore, SameGeneration;
    }
  }

  // ---------------------------------------------------------------- the four cache policies

  datatype CachePolicy = Preferring(maxAge: nat) | Refreshing | Bypassing | Offline

  /** The loop, or the result of a call that is already under way, answers. */
  ghost predicate PrefersFrom(maxAge: nat, shared: bool, turns: seq<Turn>, answer: Answer) {
    if shared then answer == FromFlight else exists baseline :: Decides(Prefer(maxAge), baseline, turns, answer)
  }

  /** `query_until`: how a call begins, from its policy and the first probe of the cache;
      offline, that probe is the read.  `legacy` says whether a version 1 file is there. */
  method QueryUntil(policy: CachePolicy, inTime: bool, probe: Result<CacheRead, Error>, legacy: Result<bool, Error>,
                    network: bool, shared: bool, turns: seq<Turn>)
    returns (answer: Answer)
    ensures !inTime ==> answer == Failed
    ensures inTime && policy.Bypassing? ==> answer == if network then FromNetwork else Failed
    ensures inTime && policy.Offline? ==>
              answer == if probe.Success? && probe.value.Found? then FromCache(probe.value.hit, false) else Failed
    ensures inTime && (policy.Preferring? || policy.Refreshing?) && probe.Failure? ==> answer == Failed
    ensures inTime && policy.Refreshing? && probe.Success? ==>
              if shared then answer == FromFlight
              else Decides(Refresh, if probe.value.Found? then Some(probe.value.hit) else None, turns, answer)
    ensures inTime && policy.Preferring? && probe.Success? ==>
              if probe.value.Found? && probe.value.hit.entry.freshness.Fresh? && probe.value.hit.version.VersionTwo?
                 && legacy != Success(true)
              then answer == if legacy.Failure? then Failed else FromCache(probe.value.hit, false)
              else PrefersFrom(policy.maxAge, shared, turns, answer)
  {
    if !inTime { return Failed; }
    var published: bool;
    match policy {
      case Bypassing => answer := if network then FromNetwork else Failed;
      case Offline =>
        answer := if probe.Success? && probe.value.Found? then FromCache(probe.value.hit, false) else Failed;
      case Refreshing =>
        if probe.Failure? { return Failed; }
        var baseline := if probe.value.Found? then Some(probe.value.hit) else None;
        answer, published := CoordinatedQuery(Refresh, baseline, shared, turns);
      case Preferring(maxAge) =>
        if probe.Failure? { return Failed; }
        var read := probe.value;
        // a fresh version 2 hit is the answer unless a version 1 file has to be tidied up
        if read.Found? && read.hit.entry.freshness.Fresh? && read.hit.version.VersionTwo? {
          if legacy.Failure? { return Failed; }
          if !legacy.value { return FromCache(read.hit, false); }
        }
        var baseline := if read.Found? && read.hit.entry.freshness.Fresh? then Some(read.hit) else None;
        answer, published := CoordinatedQuery(Prefer(maxAge), baseline, shared, turns);
    }
  }
}
