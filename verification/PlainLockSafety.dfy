/** Mutual exclusion, the owner/claim handshake and the tombstone fence. */
module PlainLockSafety {
  import opened Wrappers
  import opened PlainLock

  // ---------------------------------------------------------------- the invariant

  predicate Naming(s: State) {
    && (s.leaf.Some? ==> s.leaf.value in s.dirs && s.dirs[s.leaf.value].linked)
    && (forall c :: c in s.tombs ==> s.tombs[c] in s.dirs && s.leaf != Some(s.tombs[c]))
  }

  /** A tombstone keeps the claim it is named after: the fence. */
  predicate Fenced(s: State) {
    forall c :: c in s.tombs ==> s.tombs[c] in s.dirs && s.dirs[s.tombs[c]].claim == Some(c)
  }

  predicate ClaimsDrawn(s: State) {
    forall d :: d in s.dirs && s.dirs[d].claim.Some? ==> s.dirs[d].claim.value in s.used
  }

  predicate ClaimsApart(s: State) {
    forall d, e :: d in s.dirs && e in s.dirs && s.dirs[d].claim.Some? && s.dirs[d].claim == s.dirs[e].claim ==> d == e
  }

  predicate OwnersAreMakers(s: State) {
    forall d :: d in s.dirs && s.dirs[d].owner.Some? ==> s.dirs[d].owner.value == s.dirs[d].maker
  }

  predicate DiskInv(s: State) { Naming(s) && Fenced(s) && ClaimsDrawn(s) && ClaimsApart(s) && OwnersAreMakers(s) }

  /** From "saw no claim" until its drop unlinks the owner file. */
  predicate OnGuard(p: Pc, d: DirId) {
    (p.Checked? || p.Holding? || p.Dropping? || p.DropOwned?) && p.dir == d
  }

  /** Relies on a claim it published itself and may still take back. */
  predicate Owning(p: Pc) {
    ((p.Stealing? || p.Refused? || p.Moved? || p.Failed?) && p.own) || p.Releasing? || p.ReleaseReady?
  }

  function ClaimDir(p: Pc): DirId
    requires Owning(p)
  {
    if p.Releasing? || p.ReleaseReady? then p.dir else p.obs.dir
  }

  predicate MakerInv(s: State, a: Token, p: Pc) {
    && (p.Made? || p.Created? || p.Published? || p.Checked? || p.Abandoning?
        || p.Holding? || p.Dropping? || p.DropOwned? ==>
          p.dir in s.dirs && s.dirs[p.dir].maker == a)
    && (p.Published? || p.Checked? || p.Holding? || p.Dropping? || p.DropOwned? ==>
          p.dir in s.dirs && s.dirs[p.dir].owner == Some(a))
    && (p.Holding? || p.Dropping? || p.DropOwned? ==> s.leaf == Some(p.dir))
  }

  predicate OwnerInv(s: State, a: Token, p: Pc) {
    Owning(p) ==>
      && p.claim.pid == a.pid && p.claim in s.used
      && ClaimDir(p) in s.dirs && s.dirs[ClaimDir(p)].claim == Some(p.claim)
      && (p.Moved? || p.Failed? || p.claim !in s.tombs)
  }

  predicate SeenInv(s: State, p: Pc) {
    && (p.Opened? || p.SawOwner? ==> p.dir in s.dirs)
    && (p.Observed? || p.Stale? || p.FoundClaim? || p.WillPublish?
        || p.Stealing? || p.Refused? || p.Moved? || p.Failed? ==>
          p.obs.dir in s.dirs)
    && (p.Stale? || p.FoundClaim? || p.WillPublish? || p.Stealing? ==> LooksDead(s, p.obs.owner))
    && (p.FoundClaim? ==> p.claim in s.used)
    && (p.Stealing? ==> p.claim in s.used && (p.own || p.claim.pid in s.crashed))
  }

  /** While the claim it relies on stands, a stealer's earlier checks stay true. */
  predicate ChecksStand(s: State, p: Pc) {
    p.Stealing? && p.obs.dir in s.dirs && s.dirs[p.obs.dir].claim == Some(p.claim) ==>
      && (p.phase != Acquired ==> s.leaf == Some(p.obs.dir) || p.claim in s.tombs)
      && (p.phase != Acquired && p.phase != PathOk ==>
            var maker := s.dirs[p.obs.dir].maker;
            Alive(s, maker) ==> !OnGuard(PcOf(s, maker), p.obs.dir))
  }

  predicate ReadyInv(s: State, p: Pc) {
    p.Stealing? && p.phase == Ready ==> p.obs.dir in s.dirs && s.dirs[p.obs.dir].claim == Some(p.claim)
  }

  predicate AgentInv(s: State, a: Token) {
    var p := PcOf(s, a);
    Alive(s, a) ==> MakerInv(s, a, p) && OwnerInv(s, a, p) && SeenInv(s, p) && ChecksStand(s, p) && ReadyInv(s, p)
  }

  predicate OwnApart(s: State, a: Token, b: Token) {
    a != b && Alive(s, a) && Alive(s, b) && Owning(PcOf(s, a)) && Owning(PcOf(s, b)) ==>
      PcOf(s, a).claim != PcOf(s, b).claim
  }

  ghost predicate Inv(s: State) {
    && DiskInv(s)
    && (forall a :: AgentInv(s, a))
    && (forall a, b :: OwnApart(s, a, b))
  }

  lemma InitInv(s: State)
    requires Init(s)
    ensures Inv(s)
  {}

  // ---------------------------------------------------------------- every step keeps it

  /** What a step of `a` may rely on when its effect on `b` is checked. */
  predicate Before(s: State, a: Token, b: Token) {
    DiskInv(s) && AgentInv(s, a) && AgentInv(s, b) && OwnApart(s, a, b)
  }

  predicate After(t: State, b: Token) { DiskInv(t) && AgentInv(t, b) }

  // Steps that change the disk.

  lemma CrashKeeps(s: State, a: Token, t: State, b: Token)
    requires Before(s, a, b) && Alive(s, a) && t == s.(crashed := s.crashed + {a.pid})
    ensures After(t, b)
  {}

  lemma MkdirDisk(s: State, a: Token, d: DirId, t: State)
    requires DiskInv(s) && CreateStep(s, a, Mkdir(d), t)
    ensures DiskInv(t)
  {}

  lemma MkdirKeeps(s: State, a: Token, d: DirId, t: State, b: Token)
    requires Before(s, a, b) && Alive(s, a) && CreateStep(s, a, Mkdir(d), t)
    ensures After(t, b)
  {
    MkdirDisk(s, a, d, t);
    hide DiskInv;
  }

  /** Changing the owner of one directory to its maker, or to nobody. */
  lemma OwnerDisk(s: State, d: DirId, owner: Option<Token>, t: State)
    requires DiskInv(s) && d in s.dirs && (owner.None? || owner.value == s.dirs[d].maker)
    requires t.leaf == s.leaf && t.tombs == s.tombs && t.used == s.used
    requires t.dirs == s.dirs[d := s.dirs[d].(owner := owner)]
    ensures DiskInv(t)
  {}

  /** What other attempts rely on does not depend on the owner of somebody else's directory. */
  lemma OwnerOthers(s: State, a: Token, d: DirId, owner: Option<Token>, q: Pc, t: State, b: Token)
    requires Before(s, a, b) && d in s.dirs && s.dirs[d].maker == a && a != b
    requires Alive(s, a) && (OnGuard(q, d) ==> OnGuard(PcOf(s, a), d)) && (q.Idle? || q.Published? || q.DropCleared?)
    requires t == At(SetDir(s, d, s.dirs[d].(owner := owner)), a, q)
    ensures AgentInv(t, b)
  {
    assert PcOf(t, b) == PcOf(s, b);
  }

  lemma PublishOwnerKeeps(s: State, a: Token, t: State, b: Token)
    requires Before(s, a, b) && Alive(s, a) && CreateStep(s, a, PublishOwner(true), t)
    ensures After(t, b)
  {
    var d := PcOf(s, a).dir;
    OwnerDisk(s, d, Some(a), t);
    hide DiskInv;
    if a != b { OwnerOthers(s, a, d, Some(a), Published(d), t, b); }
  }

  lemma UnownedKeeps(s: State, a: Token, d: DirId, q: Pc, t: State, b: Token)
    requires Before(s, a, b) && Alive(s, a) && d in s.dirs && (q.Idle? || q.DropCleared?)
    requires PcOf(s, a) == Abandoning(d) || PcOf(s, a) == DropOwned(d)
    requires t == At(SetDir(s, d, s.dirs[d].(owner := None)), a, q)
    ensures After(t, b)
  {
    OwnerDisk(s, d, None, t);
    hide DiskInv;
    if a != b { OwnerOthers(s, a, d, None, q, t, b); }
  }

  lemma DropRmdirDisk(s: State, a: Token, t: State)
    requires DiskInv(s) && DropStep(s, a, DropRmdir(true), t)
    ensures DiskInv(t)
  {}

  lemma DropRmdirKeeps(s: State, a: Token, t: State, b: Token)
    requires Before(s, a, b) && Alive(s, a) && DropStep(s, a, DropRmdir(true), t)
    ensures After(t, b)
  {
    DropRmdirDisk(s, a, t);
    hide Fenced, ClaimsDrawn, ClaimsApart, OwnersAreMakers;
  }

  lemma ClaimedDisk(s: State, d: DirId, c: Token, t: State)
    requires DiskInv(s) && d in s.dirs && s.dirs[d].claim.None? && c !in s.used
    requires t.leaf == s.leaf && t.tombs == s.tombs && t.used == s.used + {c}
    requires t.dirs == s.dirs[d := s.dirs[d].(claim := Some(c))]
    ensures DiskInv(t)
  {}

  lemma PublishClaimKeeps(s: State, a: Token, c: Token, verified: bool, t: State, b: Token)
    requires Before(s, a, b) && Alive(s, a) && LookStep(s, a, PublishClaim(c, true, verified), t)
    ensures After(t, b)
  {
    var d := PcOf(s, a).obs.dir;
    ClaimedDisk(s, d, c, t);
    ClaimedAgent(s, a, d, c, verified, t, b);
  }

  lemma ClaimedAgent(s: State, a: Token, d: DirId, c: Token, verified: bool, t: State, b: Token)
    requires Before(s, a, b) && Alive(s, a) && LookStep(s, a, PublishClaim(c, true, verified), t)
    requires d == PcOf(s, a).obs.dir
    ensures AgentInv(t, b)
  {
    assert t.dirs == s.dirs[d := s.dirs[d].(claim := Some(c))] && t.leaf == s.leaf && t.tombs == s.tombs;
    if a != b { assert PcOf(t, b) == PcOf(s, b); }
  }

  /** A rename that succeeds moves the very directory that was observed, to a fresh tombstone. */
  lemma RenameMovesObserved(s: State, a: Token, t: State)
    requires DiskInv(s) && AgentInv(s, a) && Step(s, a, Rename(true), t)
    ensures var p := PcOf(s, a);
            && p.Stealing? && p.phase == Ready && s.leaf == Some(p.obs.dir) && p.claim !in s.tombs
            && t == At(s.(leaf := None, tombs := s.tombs[p.claim := p.obs.dir]), a, Moved(p.obs, p.claim, p.own))
            && (Alive(s, s.dirs[p.obs.dir].maker) ==> !OnGuard(PcOf(s, s.dirs[p.obs.dir].maker), p.obs.dir))
  {}

  lemma MovedDisk(s: State, d: DirId, c: Token, t: State)
    requires DiskInv(s) && s.leaf == Some(d) && s.dirs[d].claim == Some(c)
    requires t.leaf == None && t.tombs == s.tombs[c := d] && t.dirs == s.dirs && t.used == s.used
    ensures DiskInv(t)
  {}

  lemma MovedAgent(s: State, a: Token, obs: Observation, c: Token, own: bool, t: State, b: Token)
    requires Before(s, a, b) && Alive(s, a) && PcOf(s, a) == Stealing(Ready, obs, c, own)
    requires s.leaf == Some(obs.dir)
    requires t == At(s.(leaf := None, tombs := s.tombs[c := obs.dir]), a, Moved(obs, c, own))
    requires Alive(s, s.dirs[obs.dir].maker) ==> !OnGuard(PcOf(s, s.dirs[obs.dir].maker), obs.dir)
    ensures AgentInv(t, b)
  {
    if a != b { assert PcOf(t, b) == PcOf(s, b); }
  }

  lemma RenameKeeps(s: State, a: Token, t: State, b: Token)
    requires Before(s, a, b) && Alive(s, a) && TakeStep(s, a, Rename(true), t)
    ensures After(t, b)
  {
    RenameMovesObserved(s, a, t);
    var p := PcOf(s, a);
    MovedDisk(s, p.obs.dir, p.claim, t);
    MovedAgent(s, a, p.obs, p.claim, p.own, t, b);
  }

  lemma UnclaimedDisk(s: State, d: DirId, c: Token, t: State)
    requires DiskInv(s) && d in s.dirs && s.dirs[d].claim == Some(c) && c !in s.tombs
    requires t.leaf == s.leaf && t.tombs == s.tombs && t.used == s.used
    requires t.dirs == s.dirs[d := s.dirs[d].(claim := None)]
    ensures DiskInv(t)
  {}

  lemma UnclaimedAgent(s: State, a: Token, d: DirId, c: Token, t: State, b: Token)
    requires Before(s, a, b) && Alive(s, a) && PcOf(s, a) == ReleaseReady(d, c) && d in s.dirs
    requires t == At(SetDir(s, d, s.dirs[d].(claim := None)), a, Idle)
    ensures AgentInv(t, b)
  {
    if a != b { assert PcOf(t, b) == PcOf(s, b); }
  }

  lemma ReleaseUnlinkKeeps(s: State, a: Token, t: State, b: Token)
    requires Before(s, a, b) && Alive(s, a) && TakeStep(s, a, ReleaseUnlink(true), t)
    ensures After(t, b)
  {
    var p := PcOf(s, a);
    UnclaimedDisk(s, p.dir, p.claim, t);
    UnclaimedAgent(s, a, p.dir, p.claim, t, b);
  }

  // Steps that change nothing but the attempt's own control.

  /** Nothing on disk changes, and nobody comes on guard over a directory with a claim. */
  ghost predicate Quiet(s: State, a: Token, t: State) {
    && t.leaf == s.leaf && t.tombs == s.tombs && t.dirs == s.dirs && t.crashed == s.crashed && s.used <= t.used
    && t.pcs == s.pcs[a := PcOf(t, a)]
    && forall d :: OnGuard(PcOf(t, a), d) && !OnGuard(PcOf(s, a), d) ==> d in s.dirs && s.dirs[d].claim.None?
  }

  lemma QuietKeeps(s: State, a: Token, t: State, b: Token)
    requires Before(s, a, b) && Quiet(s, a, t) && After(t, a)
    ensures After(t, b)
  {
    if a != b { assert PcOf(t, b) == PcOf(s, b); }
  }

  lemma CreateQuiet(s: State, a: Token, act: Action, t: State)
    requires DiskInv(s) && AgentInv(s, a) && Alive(s, a) && CreateStep(s, a, act, t) && OpensOwn(s, a, act)
    requires act.OpenMade? || act == PublishOwner(false) || act.ReadClaim?
    ensures Quiet(s, a, t) && After(t, a)
  {}

  lemma CheckQuiet(s: State, a: Token, act: Action, t: State)
    requires DiskInv(s) && AgentInv(s, a) && Alive(s, a) && CreateStep(s, a, act, t)
    requires act.CheckPath? || act == Abandon(false)
    ensures Quiet(s, a, t) && After(t, a)
  {}

  lemma DropQuiet(s: State, a: Token, act: Action, t: State)
    requires DiskInv(s) && AgentInv(s, a) && Alive(s, a) && DropStep(s, a, act, t)
    requires act.DropOpen? || act.DropRead? || act == DropUnlink(false) || act == DropRmdir(false)
    ensures Quiet(s, a, t) && After(t, a)
  {}

  lemma ObserveQuiet(s: State, a: Token, act: Action, t: State)
    requires DiskInv(s) && AgentInv(s, a) && Alive(s, a) && LookStep(s, a, act, t)
    requires act.OpenLock? || act.ReadOwner? || act.ReadIdent?
    ensures Quiet(s, a, t) && After(t, a)
  {}

  lemma JudgeQuiet(s: State, a: Token, act: Action, t: State)
    requires DiskInv(s) && AgentInv(s, a) && Alive(s, a) && LookStep(s, a, act, t)
    requires act.JudgeStale? || act.JudgeClaim?
    ensures Quiet(s, a, t) && After(t, a)
  {}

  lemma ClaimQuiet(s: State, a: Token, act: Action, t: State)
    requires DiskInv(s) && AgentInv(s, a) && Alive(s, a) && LookStep(s, a, act, t)
    requires act.FindClaim? || (act.PublishClaim? && !act.ok) || act.GiveUp?
    ensures Quiet(s, a, t) && After(t, a)
  {}

  /** The ways out of a steal; a claim is only released while the pathname still names its directory. */
  lemma EndQuiet(s: State, a: Token, p: Pc, q: Pc, t: State)
    requires DiskInv(s) && AgentInv(s, a) && Alive(s, a) && PcOf(s, a) == p && t == At(s, a, q)
    requires p.Stealing? || p.Refused? || p.Moved? || p.Failed? || p.Releasing? || p.ReleaseReady?
    requires
      || q.Idle?
      || ((p.Stealing? || p.Refused?) && p.own && q == Releasing(p.obs.dir, p.claim))
      || (p.Failed? && p.own && s.leaf == Some(p.obs.dir) && q == Releasing(p.obs.dir, p.claim))
      || (p.Stealing? && q == Refused(p.obs, p.claim, p.own))
      || ((p.Stealing? || p.Refused? || p.Moved?) && q == Failed(p.obs, p.claim, p.own))
      || (p.Releasing? && q == ReleaseReady(p.dir, p.claim))
    ensures Quiet(s, a, t) && After(t, a)
  {
    assert PcOf(t, a) == q;
  }

  lemma EndStepQuiet(s: State, a: Token, act: Action, t: State)
    requires DiskInv(s) && AgentInv(s, a) && Alive(s, a) && TakeStep(s, a, act, t)
    requires act == Rename(false) || act.AfterRefusal? || act.AfterMove? || act.AfterFailure? || act.ReleaseRead?
             || act == ReleaseUnlink(false)
    ensures Quiet(s, a, t) && After(t, a)
  {
    var q := PcOf(t, a);
    assert t == At(s, a, q);
    EndQuiet(s, a, PcOf(s, a), q, t);
  }

  /** Going on to the next phase is sound when what that phase adds holds now. */
  lemma AdvanceQuiet(s: State, a: Token, p: Pc, next: Phase, t: State)
    requires DiskInv(s) && AgentInv(s, a) && Alive(s, a) && PcOf(s, a) == p && p.Stealing?
    requires t == At(s, a, p.(phase := next)) && p.obs.dir in s.dirs
    requires ChecksStand(s, p.(phase := next)) && ReadyInv(s, p.(phase := next))
    ensures Quiet(s, a, t) && After(t, a)
  {
    var q := p.(phase := next);
    assert PcOf(t, a) == q;
    var m := s.dirs[p.obs.dir].maker;
    if m != a { assert PcOf(t, m) == PcOf(s, m); }
    assert ChecksStand(t, q);
  }

  lemma RevalidateQuiet(s: State, a: Token, t: State)
    requires DiskInv(s) && AgentInv(s, a) && Alive(s, a) && TakeStep(s, a, Revalidate, t)
    requires PcOf(s, a).Stealing? ==> AgentInv(s, s.dirs[PcOf(s, a).obs.dir].maker)
    ensures Quiet(s, a, t) && After(t, a)
  {
    var p := PcOf(s, a);
    var q := Revalidated(s, p);
    if q.Stealing? { AdvanceQuiet(s, a, p, q.phase, t); } else { EndQuiet(s, a, p, q, t); }
  }

  // Any step.

  lemma CreateKeeps(s: State, a: Token, act: Action, t: State, b: Token)
    requires Before(s, a, b) && Alive(s, a) && CreateStep(s, a, act, t) && OpensOwn(s, a, act)
    ensures After(t, b)
  {
    if act.Mkdir? { MkdirKeeps(s, a, act.dir, t, b); }
    else if act == PublishOwner(true) { PublishOwnerKeeps(s, a, t, b); }
    else if act == Abandon(true) { UnownedKeeps(s, a, PcOf(s, a).dir, Idle, t, b); }
    else if act.CheckPath? || act.Abandon? { CheckQuiet(s, a, act, t); QuietKeeps(s, a, t, b); }
    else { CreateQuiet(s, a, act, t); QuietKeeps(s, a, t, b); }
  }

  lemma DropKeeps(s: State, a: Token, act: Action, t: State, b: Token)
    requires Before(s, a, b) && Alive(s, a) && DropStep(s, a, act, t)
    ensures After(t, b)
  {
    if act == DropUnlink(true) { UnownedKeeps(s, a, PcOf(s, a).dir, DropCleared, t, b); }
    else if act == DropRmdir(true) { DropRmdirKeeps(s, a, t, b); }
    else { DropQuiet(s, a, act, t); QuietKeeps(s, a, t, b); }
  }

  lemma LookKeeps(s: State, a: Token, act: Action, t: State, b: Token)
    requires Before(s, a, b) && Alive(s, a) && LookStep(s, a, act, t)
    ensures After(t, b)
  {
    if act.PublishClaim? && act.ok { PublishClaimKeeps(s, a, act.claim, act.verified, t, b); }
    else {
      if act.OpenLock? || act.ReadOwner? || act.ReadIdent? { ObserveQuiet(s, a, act, t); }
      else if act.JudgeStale? || act.JudgeClaim? { JudgeQuiet(s, a, act, t); }
      else { ClaimQuiet(s, a, act, t); }
      QuietKeeps(s, a, t, b);
    }
  }

  lemma TakeKeeps(s: State, a: Token, act: Action, t: State, b: Token)
    requires Before(s, a, b) && Alive(s, a) && TakeStep(s, a, act, t)
    requires PcOf(s, a).Stealing? ==> AgentInv(s, s.dirs[PcOf(s, a).obs.dir].maker)
    ensures After(t, b)
  {
    if act == Rename(true) { RenameKeeps(s, a, t, b); }
    else if act == ReleaseUnlink(true) { ReleaseUnlinkKeeps(s, a, t, b); }
    else if act.Revalidate? { RevalidateQuiet(s, a, t); QuietKeeps(s, a, t, b); }
    else { EndStepQuiet(s, a, act, t); QuietKeeps(s, a, t, b); }
  }

  lemma StepKeepsOne(s: State, a: Token, act: Action, t: State, b: Token)
    requires Before(s, a, b) && Step(s, a, act, t) && OpensOwn(s, a, act)
    requires PcOf(s, a).Stealing? ==> AgentInv(s, s.dirs[PcOf(s, a).obs.dir].maker)
    ensures After(t, b)
  {
    if CreateStep(s, a, act, t) { CreateKeeps(s, a, act, t, b); }
    else if DropStep(s, a, act, t) { DropKeeps(s, a, act, t, b); }
    else if LookStep(s, a, act, t) { LookKeeps(s, a, act, t, b); }
    else if TakeStep(s, a, act, t) { TakeKeeps(s, a, act, t, b); }
    else { CrashKeeps(s, a, t, b); }
  }

  /** An attempt comes to rely on a claim of its own only by publishing a fresh one. */
  predicate ClaimFresh(s: State, a: Token, t: State) {
    Owning(PcOf(t, a)) ==>
      (Owning(PcOf(s, a)) && PcOf(s, a).claim == PcOf(t, a).claim) || PcOf(t, a).claim !in s.used
  }

  lemma TakeClaims(s: State, a: Token, act: Action, t: State)
    requires TakeStep(s, a, act, t)
    ensures ClaimFresh(s, a, t)
  {}

  lemma LookClaims(s: State, a: Token, act: Action, t: State)
    requires LookStep(s, a, act, t)
    ensures ClaimFresh(s, a, t)
  {}

  lemma OtherClaims(s: State, a: Token, act: Action, t: State)
    requires CreateStep(s, a, act, t) || DropStep(s, a, act, t)
    ensures ClaimFresh(s, a, t)
  {}

  lemma ClaimsComeFresh(s: State, a: Token, act: Action, t: State)
    requires Step(s, a, act, t)
    ensures ClaimFresh(s, a, t)
  {
    hide CreateStep, DropStep, LookStep, TakeStep;
    if TakeStep(s, a, act, t) {
      TakeClaims(s, a, act, t);
    } else if LookStep(s, a, act, t) {
      LookClaims(s, a, act, t);
    } else if CreateStep(s, a, act, t) || DropStep(s, a, act, t) {
      OtherClaims(s, a, act, t);
    }
  }

  /** A step moves one attempt only, and a tombstone name appears only by a rename. */
  predicate Local(s: State, a: Token, act: Action, t: State, b: Token) {
    (a != b ==> PcOf(t, b) == PcOf(s, b)) && s.crashed <= t.crashed && (act == Rename(true) || t.tombs == s.tombs)
  }

  lemma CreateLocal(s: State, a: Token, act: Action, t: State, b: Token)
    requires CreateStep(s, a, act, t) || DropStep(s, a, act, t)
    ensures Local(s, a, act, t, b)
  {}

  lemma LookLocal(s: State, a: Token, act: Action, t: State, b: Token)
    requires LookStep(s, a, act, t)
    ensures Local(s, a, act, t, b)
  {}

  lemma TakeLocal(s: State, a: Token, act: Action, t: State, b: Token)
    requires TakeStep(s, a, act, t)
    ensures Local(s, a, act, t, b)
  {}

  lemma OthersStay(s: State, a: Token, act: Action, t: State, b: Token)
    requires Step(s, a, act, t)
    ensures Local(s, a, act, t, b)
  {
    hide CreateStep, DropStep, LookStep, TakeStep;
    if CreateStep(s, a, act, t) || DropStep(s, a, act, t) {
      CreateLocal(s, a, act, t, b);
    } else if LookStep(s, a, act, t) {
      LookLocal(s, a, act, t, b);
    } else if TakeStep(s, a, act, t) {
      TakeLocal(s, a, act, t, b);
    }
  }

  lemma ApartKept(s: State, a: Token, act: Action, t: State, b: Token, c: Token)
    requires AgentInv(s, a) && AgentInv(s, b) && AgentInv(s, c) && OwnApart(s, b, c) && Step(s, a, act, t)
    ensures OwnApart(t, b, c)
  {
    ClaimsComeFresh(s, a, act, t);
    OthersStay(s, a, act, t, b);
    OthersStay(s, a, act, t, c);
    hide Step, CreateStep, DropStep, LookStep, TakeStep;
  }

  lemma InvBefore(s: State, a: Token, b: Token)
    requires Inv(s) && Alive(s, a)
    ensures Before(s, a, b)
    ensures PcOf(s, a).Stealing? ==> PcOf(s, a).obs.dir in s.dirs && AgentInv(s, s.dirs[PcOf(s, a).obs.dir].maker)
  {
    assert AgentInv(s, a) && AgentInv(s, b) && OwnApart(s, a, b);
  }

  lemma StepKeeps(s: State, a: Token, act: Action, t: State)
    requires Inv(s) && Step(s, a, act, t) && OpensOwn(s, a, act)
    ensures Inv(t)
  {
    forall b ensures After(t, b) {
      InvBefore(s, a, b);
      StepKeepsOne(s, a, act, t, b);
    }
    forall b, c ensures OwnApart(t, b, c) {
      assert AgentInv(s, a) && AgentInv(s, b) && AgentInv(s, c) && OwnApart(s, b, c);
      ApartKept(s, a, act, t, b, c);
    }
    assert After(t, a);
    forall b ensures AgentInv(t, b) { assert After(t, b); }
  }

  lemma {:induction false} RunKeeps(states: seq<State>, events: seq<Event>, k: nat)
    requires IsRun(states, events) && OpensOwnDirectories(states, events) && k <= |events|
    ensures Inv(states[k])
  {
    if k == 0 {
      InitInv(states[0]);
    } else {
      RunKeeps(states, events, k - 1);
      var e := events[k - 1];
      assert Step(states[k - 1], e.agent, e.action, states[k]) && OpensOwn(states[k - 1], e.agent, e.action);
      hide *;
      StepKeeps(states[k - 1], e.agent, e.action, states[k]);
    }
  }

  // ---------------------------------------------------------------- what the lock promises

  /** In every interleaving of contenders, stealers, drops and crashes at most one live
      attempt holds the lock, and the pathname names its own directory and owner file. */
  lemma MutualExclusion(states: seq<State>, events: seq<Event>, k: nat, a: Token, b: Token)
    requires IsRun(states, events) && OpensOwnDirectories(states, events) && k <= |events|
    requires Holds(states[k], a)
    ensures Holds(states[k], b) ==> a == b
    ensures var s := states[k]; var d := PcOf(s, a).dir;
            s.leaf == Some(d) && d in s.dirs && s.dirs[d].owner == Some(a) && s.dirs[d].linked
  {
    RunKeeps(states, events, k);
    assert AgentInv(states[k], a) && AgentInv(states[k], b);
  }

  /** The event moves a directory aside on the strength of claim `c`. */
  predicate RenamesWith(s: State, e: Event, c: Token) {
    e.action == Rename(true) && PcOf(s, e.agent).Stealing? && PcOf(s, e.agent).claim == c
  }

  lemma RunStep(states: seq<State>, events: seq<Event>, k: nat)
    requires IsRun(states, events) && OpensOwnDirectories(states, events) && k < |events|
    ensures Inv(states[k]) && Inv(states[k + 1])
    ensures Step(states[k], events[k].agent, events[k].action, states[k + 1])
  {
    RunKeeps(states, events, k);
    RunKeeps(states, events, k + 1);
  }

  /** Every rename of a run that succeeds moves the very directory its stealer observed, to
      a tombstone name that was not there before. */
  lemma EveryRenameMovesObserved(states: seq<State>, events: seq<Event>, i: nat)
    requires IsRun(states, events) && OpensOwnDirectories(states, events) && i < |events|
    requires events[i].action == Rename(true)
    ensures var s, p := states[i], PcOf(states[i], events[i].agent);
            && p.Stealing? && s.leaf == Some(p.obs.dir) && p.claim !in s.tombs
            && states[i + 1].leaf.None? && states[i + 1].tombs == s.tombs[p.claim := p.obs.dir]
  {
    RunStep(states, events, i);
    assert AgentInv(states[i], events[i].agent);
    hide Inv, AgentInv, DiskInv, OpensOwnDirectories, IsRun;
    RenameMovesObserved(states[i], events[i].agent, states[i + 1]);
  }

  lemma FenceStep(s: State, e: Event, t: State, c: Token)
    requires Inv(s) && Step(s, e.agent, e.action, t) && c in s.tombs
    ensures c in t.tombs && t.tombs[c] == s.tombs[c] && !RenamesWith(s, e, c)
  {
    assert DiskInv(s) && AgentInv(s, e.agent);
    hide Inv, DiskInv, AgentInv;
    if e.action == Rename(true) { RenameMovesObserved(s, e.agent, t); } else { OthersStay(s, e.agent, e.action, t, c); }
    hide Step;
  }

  lemma FenceNow(states: seq<State>, events: seq<Event>, k: nat, c: Token)
    requires IsRun(states, events) && OpensOwnDirectories(states, events) && k < |events| && c in states[k].tombs
    ensures c in states[k + 1].tombs && states[k + 1].tombs[c] == states[k].tombs[c]
    ensures !RenamesWith(states[k], events[k], c)
  {
    RunStep(states, events, k);
    FenceStep(states[k], events[k], states[k + 1], c);
  }

  lemma {:induction false} TombsStay(states: seq<State>, events: seq<Event>, j: nat, k: nat, c: Token)
    requires IsRun(states, events) && OpensOwnDirectories(states, events) && j <= k <= |events|
    requires c in states[j].tombs
    ensures c in states[k].tombs && states[k].tombs[c] == states[j].tombs[c]
    decreases k
  {
    hide *;
    if j < k {
      TombsStay(states, events, j, k - 1, c);
      FenceNow(states, events, k - 1, c);
    }
  }

  /** A tombstone is never renamed over or emptied of its claim, so every later rename with
      that claim is refused. */
  lemma FenceStays(states: seq<State>, events: seq<Event>, j: nat, k: nat, c: Token)
    requires IsRun(states, events) && OpensOwnDirectories(states, events) && j <= k <= |events|
    requires c in states[j].tombs
    ensures c in states[k].tombs && states[k].tombs[c] == states[j].tombs[c]
    ensures states[k].tombs[c] in states[k].dirs && states[k].dirs[states[k].tombs[c]].claim == Some(c)
    ensures k < |events| ==> !RenamesWith(states[k], events[k], c)
  {
    TombsStay(states, events, j, k, c);
    RunKeeps(states, events, k);
    assert Fenced(states[k]);
    if k < |events| { FenceNow(states, events, k, c); }
  }

  /** Of all stealers that rely on one claim at most one rename succeeds, and each that
      succeeds moves the directory its stealer observed, however long it was paused. */
  lemma OneRenamePerClaim(states: seq<State>, events: seq<Event>, i: nat, j: nat, c: Token)
    requires IsRun(states, events) && OpensOwnDirectories(states, events) && i < j < |events|
    requires RenamesWith(states[i], events[i], c)
    ensures !RenamesWith(states[j], events[j], c)
    ensures states[i].leaf == Some(PcOf(states[i], events[i].agent).obs.dir)
    ensures states[i + 1].leaf.None? && c in states[i + 1].tombs
            && states[i + 1].tombs[c] == PcOf(states[i], events[i].agent).obs.dir
  {
    RunStep(states, events, i);
    assert DiskInv(states[i]) && AgentInv(states[i], events[i].agent);
    RenameMovesObserved(states[i], events[i].agent, states[i + 1]);
    FenceStays(states, events, i + 1, j, c);
  }

  /** Once a stealer has renamed a directory away, its creator does not hold the lock
      through it, then or at any later time. */
  lemma Handshake(states: seq<State>, events: seq<Event>, i: nat, k: nat, a: Token)
    requires IsRun(states, events) && OpensOwnDirectories(states, events) && i < |events| && i <= k <= |events|
    requires events[i].action == Rename(true) && Holds(states[k], a)
    ensures states[i].leaf.Some? && PcOf(states[k], a).dir != states[i].leaf.value
  {
    RunStep(states, events, i);
    var b := events[i].agent;
    assert DiskInv(states[i]) && AgentInv(states[i], b);
    RenameMovesObserved(states[i], b, states[i + 1]);
    RunKeeps(states, events, k);
    assert AgentInv(states[k], a) && Naming(states[k]);
    if i == k {
      assert OnGuard(PcOf(states[k], a), PcOf(states[k], a).dir);
    } else {
      FenceStays(states, events, i + 1, k, PcOf(states[i], b).claim);
    }
  }
}
