/**
  The crash-tolerant directory lock as a transition system, one step per file-system
  call.  A lock attempt is named by its owner string `pid-uuid`; a steal claim is
  another such string.  Directory objects are identified the way an open descriptor
  pins them: an identifier is never used for a second directory.

  Whether a lock looks old enough to steal is left open (`JudgeStale` may always give
  up), so nothing proved here depends on a clock.  A liveness test may call a dead
  process alive, never the reverse.
*/
module PlainLock {
  import opened Wrappers

  /** An owner or claimant string: the process that wrote it and its nonce. */
  datatype Token = Token(pid: nat, uuid: nat)

  type DirId = nat

  /** A lock directory.  `maker` records whose `mkdir` made it and is never read by a
      step; `linked` is false once the directory has been removed. */
  datatype Dir = Dir(maker: Token, owner: Option<Token>, claim: Option<Token>, linked: bool)

  /** What a stealer saw: the directory it opened, the owner it read, and the identity
      of the owner file (an owner file is identified by whoever wrote it). */
  datatype Observation = Observation(dir: DirId, owner: Option<Token>, ident: Option<Token>)

  /** How far the re-validation before the rename has got. */
  datatype Phase = Acquired | PathOk | OwnerOk | IdentOk | DeadOk | Ready

  datatype Pc =
    | Idle
    // creating
    | Made(dir: DirId)
    | Created(dir: DirId)
    | Published(dir: DirId)
    | Checked(dir: DirId)
    | Abandoning(dir: DirId)
    // holding, then dropping
    | Holding(dir: DirId)
    | Dropping(dir: DirId)
    | DropOwned(dir: DirId)
    | DropCleared
    // stealing
    | Opened(dir: DirId)
    | SawOwner(dir: DirId, owner: Option<Token>)
    | Observed(obs: Observation)
    | Stale(obs: Observation)
    | FoundClaim(obs: Observation, claim: Token)
    | WillPublish(obs: Observation)
    | Stealing(phase: Phase, obs: Observation, claim: Token, own: bool)
    | Refused(obs: Observation, claim: Token, own: bool)
    | Moved(obs: Observation, claim: Token, own: bool)
    | Failed(obs: Observation, claim: Token, own: bool)
    | Releasing(dir: DirId, claim: Token)
    | ReleaseReady(dir: DirId, claim: Token)

  datatype State = State(
    leaf: Option<DirId>,          // what the lock pathname names
    tombs: map<Token, DirId>,     // `<leaf>.stale-<claim>` names
    dirs: map<DirId, Dir>,
    used: set<Token>,             // claim strings drawn so far
    pcs: map<Token, Pc>,
    crashed: set<nat>)

  predicate Alive(s: State, a: Token) { a.pid !in s.crashed }

  function PcOf(s: State, a: Token): Pc { if a in s.pcs then s.pcs[a] else Idle }

  predicate IsEmpty(d: Dir) { d.owner.None? && d.claim.None? }

  function At(s: State, a: Token, p: Pc): State { s.(pcs := s.pcs[a := p]) }

  function SetDir(s: State, d: DirId, dir: Dir): State { s.(dirs := s.dirs[d := dir]) }

  /** Every file-system call, with the outcomes the environment chooses. */
  datatype Action =
    | Mkdir(dir: DirId)
    | OpenMade
    | PublishOwner(ok: bool)
    | ReadClaim(ok: bool)
    | CheckPath(ok: bool)
    | Abandon(ok: bool)
    | DropOpen(ok: bool)
    | DropRead(ok: bool)
    | DropUnlink(ok: bool)
    | DropRmdir(ok: bool)
    | OpenLock
    | ReadOwner
    | ReadIdent
    | JudgeStale(stale: bool)
    | FindClaim
    | JudgeClaim(dead: bool)
    | PublishClaim(claim: Token, ok: bool, verified: bool)
    | Revalidate
    | Rename(ok: bool)
    | AfterRefusal
    | AfterMove(ok: bool)
    | AfterFailure
    | ReleaseRead
    | ReleaseUnlink(ok: bool)
    | GiveUp                      // an error return that leaves everything as it is
    | Crash

  /** The directory a creating step works on exists. */
  predicate Known(s: State, d: DirId) { d in s.dirs }

  ghost predicate Step(s: State, a: Token, act: Action, t: State) {
    Alive(s, a) &&
    (|| (act.Crash? && t == s.(crashed := s.crashed + {a.pid}))
     || CreateStep(s, a, act, t)
     || DropStep(s, a, act, t)
     || LookStep(s, a, act, t)
     || TakeStep(s, a, act, t))
  }

  /** `try_acquire_plain_lock`. */
  ghost predicate CreateStep(s: State, a: Token, act: Action, t: State) {
    var p := PcOf(s, a);
    match act
    case Mkdir(d) =>
      p.Idle? && s.leaf.None? && d !in s.dirs &&
      t == At(SetDir(s, d, Dir(a, None, None, true)).(leaf := Some(d)), a, Made(d))
    case OpenMade =>
      // opens whatever the pathname names now
      p.Made? && t == At(s, a, if s.leaf.Some? then Created(s.leaf.value) else Idle)
    case PublishOwner(ok) =>
      p.Created? && Known(s, p.dir) &&
      if ok then
        s.dirs[p.dir].linked && s.dirs[p.dir].owner.None? &&
        t == At(SetDir(s, p.dir, s.dirs[p.dir].(owner := Some(a))), a, Published(p.dir))
      else t == At(s, a, Abandoning(p.dir))
    case ReadClaim(ok) =>
      p.Published? && Known(s, p.dir) &&
      t == At(s, a, if ok && s.dirs[p.dir].claim.None? then Checked(p.dir) else Abandoning(p.dir))
    case CheckPath(ok) =>
      p.Checked? &&
      t == At(s, a, if !ok then Idle else if s.leaf == Some(p.dir) then Holding(p.dir) else Abandoning(p.dir))
    case Abandon(ok) =>
      // unlinks whatever is called `owner` in the directory it has open
      p.Abandoning? && Known(s, p.dir) &&
      t == At(if ok then SetDir(s, p.dir, s.dirs[p.dir].(owner := None)) else s, a, Idle)
    case _ => false
  }

  /** `Drop for PlainDirectoryLock`: everything is looked up by name again. */
  ghost predicate DropStep(s: State, a: Token, act: Action, t: State) {
    var p := PcOf(s, a);
    match act
    case DropOpen(ok) =>
      p.Holding? && t == At(s, a, if ok && s.leaf.Some? then Dropping(s.leaf.value) else Idle)
    case DropRead(ok) =>
      p.Dropping? && Known(s, p.dir) &&
      t == At(s, a, if ok && s.dirs[p.dir].owner == Some(a) then DropOwned(p.dir) else Idle)
    case DropUnlink(ok) =>
      p.DropOwned? && Known(s, p.dir) &&
      t == if ok then At(SetDir(s, p.dir, s.dirs[p.dir].(owner := None)), a, DropCleared) else At(s, a, Idle)
    case DropRmdir(ok) =>
      p.DropCleared? &&
      if ok then
        s.leaf.Some? && Known(s, s.leaf.value) && IsEmpty(s.dirs[s.leaf.value]) &&
        t == At(SetDir(s, s.leaf.value, s.dirs[s.leaf.value].(linked := false)).(leaf := None), a, Idle)
      else t == At(s, a, Idle)
    case _ => false
  }

  /** `steal_plain_lock_if_stale` up to the claim it will rely on. */
  ghost predicate LookStep(s: State, a: Token, act: Action, t: State) {
    var p := PcOf(s, a);
    match act
    case OpenLock => p.Idle? && s.leaf.Some? && t == At(s, a, Opened(s.leaf.value))
    case ReadOwner => p.Opened? && Known(s, p.dir) && t == At(s, a, SawOwner(p.dir, s.dirs[p.dir].owner))
    case ReadIdent =>
      p.SawOwner? && Known(s, p.dir) &&
      t == At(s, a, Observed(Observation(p.dir, p.owner, s.dirs[p.dir].owner)))
    case JudgeStale(stale) =>
      p.Observed? && (stale ==> LooksDead(s, p.obs.owner)) && t == At(s, a, if stale then Stale(p.obs) else Idle)
    case FindClaim =>
      p.Stale? && Known(s, p.obs.dir) &&
      t == At(s, a, match s.dirs[p.obs.dir].claim case Some(c) => FoundClaim(p.obs, c) case None => WillPublish(p.obs))
    case JudgeClaim(dead) =>
      p.FoundClaim? && (dead ==> p.claim.pid in s.crashed) &&
      t == At(s, a, if dead then Stealing(Acquired, p.obs, p.claim, false) else Idle)
    case PublishClaim(c, ok, verified) =>
      p.WillPublish? && Known(s, p.obs.dir) && c.pid == a.pid && c !in s.used &&
      if ok then
        s.dirs[p.obs.dir].linked && s.dirs[p.obs.dir].claim.None? &&
        t == At(SetDir(s, p.obs.dir, s.dirs[p.obs.dir].(claim := Some(c))).(used := s.used + {c}), a,
                if verified then Stealing(Acquired, p.obs, c, true) else Releasing(p.obs.dir, c))
      else t == At(s.(used := s.used + {c}), a, Idle)
    case GiveUp =>
      (p.Made? || p.Created? || p.Opened? || p.SawOwner? || p.Observed? || p.Stale? || p.FoundClaim? || p.WillPublish?
       || p.Stealing? || p.Refused? || p.Failed? || p.Releasing? || p.ReleaseReady?) && t == At(s, a, Idle)
    case _ => false
  }

  /** `steal_plain_lock_if_stale` from the re-validation on. */
  ghost predicate TakeStep(s: State, a: Token, act: Action, t: State) {
    var p := PcOf(s, a);
    match act
    case Revalidate => p.Stealing? && p.phase != Ready && Known(s, p.obs.dir) && t == At(s, a, Revalidated(s, p))
    case Rename(ok) => p.Stealing? && p.phase == Ready && RenameStep(s, a, p, ok, t)
    case AfterRefusal =>
      p.Refused? && t == At(s, a, if s.leaf == Some(p.obs.dir) then Failed(p.obs, p.claim, p.own)
                                  else if p.own then Releasing(p.obs.dir, p.claim) else Idle)
    case AfterMove(ok) => p.Moved? && t == At(s, a, if ok then Idle else Failed(p.obs, p.claim, p.own))
    case AfterFailure =>
      p.Failed? && t == At(s, a, if p.own && s.leaf == Some(p.obs.dir) then Releasing(p.obs.dir, p.claim) else Idle)
    case ReleaseRead =>
      p.Releasing? && Known(s, p.dir) &&
      t == At(s, a, if s.dirs[p.dir].claim == Some(p.claim) then ReleaseReady(p.dir, p.claim) else Idle)
    case ReleaseUnlink(ok) =>
      // unlinks whatever is called `steal`
      p.ReleaseReady? && Known(s, p.dir) &&
      t == At(if ok then SetDir(s, p.dir, s.dirs[p.dir].(claim := None)) else s, a, Idle)
    case _ => false
  }

  predicate LooksDead(s: State, owner: Option<Token>) { owner.Some? ==> owner.value.pid in s.crashed }

  /** One conjunct of the re-validation; the first that fails releases an own claim. */
  function Revalidated(s: State, p: Pc): Pc
    requires p.Stealing? && p.obs.dir in s.dirs
  {
    var dir := s.dirs[p.obs.dir];
    var failing := if p.own then Releasing(p.obs.dir, p.claim) else Idle;
    match p.phase
    case Acquired => if s.leaf == Some(p.obs.dir) then p.(phase := PathOk) else failing
    case PathOk => if dir.owner == p.obs.owner then p.(phase := OwnerOk) else failing
    case OwnerOk => if dir.owner == p.obs.ident then p.(phase := IdentOk) else failing
    case IdentOk => if LooksDead(s, p.obs.owner) then p.(phase := DeadOk) else failing
    case DeadOk => if dir.claim == Some(p.claim) then p.(phase := Ready) else failing
    case Ready => p
  }

  /** Renaming onto a tombstone that is not empty fails; onto an empty one replaces it. */
  ghost predicate RenameStep(s: State, a: Token, p: Pc, ok: bool, t: State)
    requires p.Stealing?
  {
    if ok then
      s.leaf.Some? && (p.claim in s.tombs ==> Known(s, s.tombs[p.claim]) && IsEmpty(s.dirs[s.tombs[p.claim]])) &&
      var cleared := if p.claim in s.tombs then
                       SetDir(s, s.tombs[p.claim], s.dirs[s.tombs[p.claim]].(linked := false)) else s;
      t == At(cleared.(leaf := None, tombs := s.tombs[p.claim := s.leaf.value]), a, Moved(p.obs, p.claim, p.own))
    else
      // not there; refused by a non-empty tombstone; or an I/O error
      || (s.leaf.None? && t == At(s, a, if p.own then Releasing(p.obs.dir, p.claim) else Idle))
      || (p.claim in s.tombs && t == At(s, a, Refused(p.obs, p.claim, p.own)))
      || t == At(s, a, Failed(p.obs, p.claim, p.own))
  }

  /** `open` finds the directory that this attempt's own `mkdir` made. */
  predicate OpensOwn(s: State, a: Token, act: Action) {
    act.OpenMade? && PcOf(s, a).Made? && s.leaf.Some? ==> s.leaf.value == PcOf(s, a).dir
  }

  ghost predicate Init(s: State) {
    s.leaf.None? && s.tombs == map[] && s.dirs == map[] && s.used == {} && s.pcs == map[] && s.crashed == {}
  }

  datatype Event = Event(agent: Token, action: Action)

  /** `states[0]` is initial and event `k` leads from state `k` to state `k + 1`. */
  ghost predicate IsRun(states: seq<State>, events: seq<Event>) {
    && |states| == |events| + 1
    && Init(states[0])
    && forall k :: 0 <= k < |events| ==> Step(states[k], events[k].agent, events[k].action, states[k + 1])
  }

  /** In every step of the run `open` names the directory just made. */
  ghost predicate OpensOwnDirectories(states: seq<State>, events: seq<Event>)
    requires |states| == |events| + 1
  {
    forall k :: 0 <= k < |events| ==> OpensOwn(states[k], events[k].agent, events[k].action)
  }

  /** The attempt has been handed the lock and has not begun to drop it. */
  predicate Holds(s: State, a: Token) { Alive(s, a) && PcOf(s, a).Holding? }
}
