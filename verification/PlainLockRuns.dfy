/**
  Runs of the lock built step by step: an abandoned lock can be stolen and taken again,
  and the one window the code leaves open.  `mkdir` and the `open` that follows it are
  two calls, and `open` goes by name; when it finds another attempt's directory, two
  live attempts can end up holding the lock.
*/
module PlainLockRuns {
  import opened Wrappers
  import opened PlainLock
  import PlainLockSafety

  ghost predicate Chain(states: seq<State>, events: seq<Event>) {
    && |states| == |events| + 1
    && forall k :: 0 <= k < |events| ==> Step(states[k], events[k].agent, events[k].action, states[k + 1])
  }

  lemma Extend(xs: seq<State>, es: seq<Event>, e: Event, t: State) returns (ys: seq<State>, fs: seq<Event>)
    requires Chain(xs, es) && Step(xs[|es|], e.agent, e.action, t)
    ensures Chain(ys, fs) && ys[0] == xs[0] && ys[|fs|] == t && |fs| == |es| + 1
  {
    ys, fs := xs + [t], es + [e];
    forall k | 0 <= k < |fs| ensures Step(ys[k], fs[k].agent, fs[k].action, ys[k + 1]) {
      if k < |es| { assert ys[k] == xs[k] && ys[k + 1] == xs[k + 1] && fs[k] == es[k]; }
    }
  }

  lemma ExtendCreate(xs: seq<State>, es: seq<Event>, a: Token, act: Action, t: State)
    returns (ys: seq<State>, fs: seq<Event>)
    requires Chain(xs, es) && Alive(xs[|es|], a) && CreateStep(xs[|es|], a, act, t)
    ensures Chain(ys, fs) && ys[0] == xs[0] && ys[|fs|] == t
  {
    ys, fs := Extend(xs, es, Event(a, act), t);
  }

  lemma ExtendLook(xs: seq<State>, es: seq<Event>, a: Token, act: Action, t: State)
    returns (ys: seq<State>, fs: seq<Event>)
    requires Chain(xs, es) && Alive(xs[|es|], a) && LookStep(xs[|es|], a, act, t)
    ensures Chain(ys, fs) && ys[0] == xs[0] && ys[|fs|] == t
  {
    ys, fs := Extend(xs, es, Event(a, act), t);
  }

  lemma ExtendTake(xs: seq<State>, es: seq<Event>, a: Token, act: Action, t: State)
    returns (ys: seq<State>, fs: seq<Event>)
    requires Chain(xs, es) && Alive(xs[|es|], a) && TakeStep(xs[|es|], a, act, t)
    ensures Chain(ys, fs) && ys[0] == xs[0] && ys[|fs|] == t
  {
    ys, fs := Extend(xs, es, Event(a, act), t);
  }

  lemma ExtendDrop(xs: seq<State>, es: seq<Event>, a: Token, act: Action, t: State)
    returns (ys: seq<State>, fs: seq<Event>)
    requires Chain(xs, es) && Alive(xs[|es|], a) && DropStep(xs[|es|], a, act, t)
    ensures Chain(ys, fs) && ys[0] == xs[0] && ys[|fs|] == t
  {
    ys, fs := Extend(xs, es, Event(a, act), t);
  }

  /** A free lock is acquired in five steps when nobody interferes. */
  lemma Acquire(xs: seq<State>, es: seq<Event>, a: Token, d: DirId) returns (ys: seq<State>, fs: seq<Event>)
    requires Chain(xs, es)
    requires var s := xs[|es|]; Alive(s, a) && PcOf(s, a).Idle? && s.leaf.None? && d !in s.dirs
    ensures Chain(ys, fs) && ys[0] == xs[0]
    ensures ys[|fs|] == xs[|es|].(leaf := Some(d), dirs := xs[|es|].dirs[d := Dir(a, Some(a), None, true)],
                                  pcs := xs[|es|].pcs[a := Holding(d)])
  {
    var s := xs[|es|];
    var s1 := At(SetDir(s, d, Dir(a, None, None, true)).(leaf := Some(d)), a, Made(d));
    ys, fs := ExtendCreate(xs, es, a, Mkdir(d), s1);
    var s2 := At(s1, a, Created(d));
    ys, fs := ExtendCreate(ys, fs, a, OpenMade, s2);
    var s3 := At(SetDir(s2, d, s2.dirs[d].(owner := Some(a))), a, Published(d));
    ys, fs := ExtendCreate(ys, fs, a, PublishOwner(true), s3);
    var s4 := At(s3, a, Checked(d));
    ys, fs := ExtendCreate(ys, fs, a, ReadClaim(true), s4);
    var s5 := At(s4, a, Holding(d));
    ys, fs := ExtendCreate(ys, fs, a, CheckPath(true), s5);
    assert s5.pcs == s.pcs[a := Holding(d)];
    assert s5.dirs == s.dirs[d := Dir(a, Some(a), None, true)];
  }

  /** A holder that drops its lock undisturbed frees the pathname and removes its directory. */
  lemma Release(xs: seq<State>, es: seq<Event>, a: Token, d: DirId) returns (ys: seq<State>, fs: seq<Event>)
    requires Chain(xs, es)
    requires var s := xs[|es|];
             && Alive(s, a) && PcOf(s, a) == Holding(d) && s.leaf == Some(d)
             && d in s.dirs && s.dirs[d] == Dir(a, Some(a), None, true)
    ensures Chain(ys, fs) && ys[0] == xs[0]
    ensures ys[|fs|] == xs[|es|].(leaf := None, dirs := xs[|es|].dirs[d := Dir(a, None, None, false)],
                                  pcs := xs[|es|].pcs[a := Idle])
  {
    var s := xs[|es|];
    var s1 := At(s, a, Dropping(d));
    ys, fs := ExtendDrop(xs, es, a, DropOpen(true), s1);
    var s2 := At(s1, a, DropOwned(d));
    ys, fs := ExtendDrop(ys, fs, a, DropRead(true), s2);
    var s3 := At(SetDir(s2, d, Dir(a, None, None, true)), a, DropCleared);
    ys, fs := ExtendDrop(ys, fs, a, DropUnlink(true), s3);
    var s4 := At(SetDir(s3, d, Dir(a, None, None, false)).(leaf := None), a, Idle);
    ys, fs := ExtendDrop(ys, fs, a, DropRmdir(true), s4);
    assert s4.pcs == s.pcs[a := Idle] && s4.dirs == s.dirs[d := Dir(a, None, None, false)];
  }

  /** A creator that finds a claim, or finds that the pathname no longer names its
      directory, gives way: it takes its owner file back and does not get the lock. */
  lemma GiveWay(xs: seq<State>, es: seq<Event>, a: Token, d: DirId) returns (ys: seq<State>, fs: seq<Event>)
    requires Chain(xs, es)
    requires var s := xs[|es|];
             && Alive(s, a) && d in s.dirs
             && ((PcOf(s, a) == Published(d) && s.dirs[d].claim.Some?)
                 || (PcOf(s, a) == Checked(d) && s.leaf != Some(d)))
    ensures Chain(ys, fs) && ys[0] == xs[0]
    ensures ys[|fs|] == xs[|es|].(dirs := xs[|es|].dirs[d := xs[|es|].dirs[d].(owner := None)],
                                  pcs := xs[|es|].pcs[a := Idle])
  {
    var s := xs[|es|];
    var s1 := At(s, a, Abandoning(d));
    ys, fs := ExtendCreate(xs, es, a, if PcOf(s, a).Published? then ReadClaim(true) else CheckPath(true), s1);
    var s2 := At(SetDir(s1, d, s1.dirs[d].(owner := None)), a, Idle);
    ys, fs := ExtendCreate(ys, fs, a, Abandon(true), s2);
    assert s2.pcs == s.pcs[a := Idle];
  }

  // Which of the four groups of steps a program counter allows.

  lemma NoCreate(s: State, a: Token, act: Action, t: State)
    requires var p := PcOf(s, a);
             !(p.Idle? || p.Made? || p.Created? || p.Published? || p.Checked? || p.Abandoning?)
    ensures !CreateStep(s, a, act, t)
  {}

  lemma NoDrop(s: State, a: Token, act: Action, t: State)
    requires var p := PcOf(s, a); !(p.Holding? || p.Dropping? || p.DropOwned? || p.DropCleared?)
    ensures !DropStep(s, a, act, t)
  {}

  lemma NoLook(s: State, a: Token, act: Action, t: State)
    requires var p := PcOf(s, a);
             p.Published? || p.Dropping? || p.Stealing? || p.Failed?
    ensures LookStep(s, a, act, t) ==>
              act.GiveUp? && t == At(s, a, Idle) && (PcOf(s, a).Stealing? || PcOf(s, a).Failed?)
  {}

  lemma NoTake(s: State, a: Token, act: Action, t: State)
    requires var p := PcOf(s, a);
             !(p.Stealing? || p.Refused? || p.Moved? || p.Failed? || p.Releasing? || p.ReleaseReady?)
    ensures !TakeStep(s, a, act, t)
  {}

  /** A creator that has seen a claim is never handed the lock by its next step. */
  lemma ClaimedIsNotHandedOut(s: State, a: Token, act: Action, t: State)
    requires Step(s, a, act, t) && PcOf(s, a).Published? && PcOf(s, a).dir in s.dirs
    requires s.dirs[PcOf(s, a).dir].claim.Some?
    ensures Alive(t, a) ==> PcOf(t, a) == Abandoning(PcOf(s, a).dir)
  {
    NoDrop(s, a, act, t);
    NoLook(s, a, act, t);
    NoTake(s, a, act, t);
    hide DropStep, LookStep, TakeStep;
  }

  /** The five re-validations succeed while nothing changes. */
  lemma Validate(xs: seq<State>, es: seq<Event>, z: Token, obs: Observation, c: Token, own: bool)
    returns (ys: seq<State>, fs: seq<Event>)
    requires Chain(xs, es)
    requires var s := xs[|es|];
             && Alive(s, z) && PcOf(s, z) == Stealing(Acquired, obs, c, own) && obs.dir in s.dirs
             && s.leaf == Some(obs.dir) && s.dirs[obs.dir].owner == obs.owner == obs.ident
             && LooksDead(s, obs.owner) && s.dirs[obs.dir].claim == Some(c)
    ensures Chain(ys, fs) && ys[0] == xs[0] && ys[|fs|] == At(xs[|es|], z, Stealing(Ready, obs, c, own))
  {
    var s := xs[|es|];
    ys, fs := ExtendTake(xs, es, z, Revalidate, At(s, z, Stealing(PathOk, obs, c, own)));
    ys, fs := ExtendTake(ys, fs, z, Revalidate, At(ys[|fs|], z, Stealing(OwnerOk, obs, c, own)));
    ys, fs := ExtendTake(ys, fs, z, Revalidate, At(ys[|fs|], z, Stealing(IdentOk, obs, c, own)));
    ys, fs := ExtendTake(ys, fs, z, Revalidate, At(ys[|fs|], z, Stealing(DeadOk, obs, c, own)));
    ys, fs := ExtendTake(ys, fs, z, Revalidate, At(ys[|fs|], z, Stealing(Ready, obs, c, own)));
    assert ys[|fs|].pcs == s.pcs[z := Stealing(Ready, obs, c, own)];
  }

  /** Something the stealer saw is no longer so. */
  predicate Changed(s: State, p: Pc)
    requires p.Stealing? && p.obs.dir in s.dirs
  {
    || (p.phase.Acquired? && s.leaf != Some(p.obs.dir))
    || (p.phase.PathOk? && s.dirs[p.obs.dir].owner != p.obs.owner)
    || (p.phase.OwnerOk? && s.dirs[p.obs.dir].owner != p.obs.ident)
    || (p.phase.IdentOk? && p.obs.owner.Some? && p.obs.owner.value.pid !in s.crashed)
  }

  /** The claim file is unlinked while it is still the stealer's own. */
  lemma TakeBack(xs: seq<State>, es: seq<Event>, z: Token, d: DirId, c: Token) returns (ys: seq<State>, fs: seq<Event>)
    requires Chain(xs, es)
    requires var s := xs[|es|];
             Alive(s, z) && PcOf(s, z) == Releasing(d, c) && d in s.dirs && s.dirs[d].claim == Some(c)
    ensures Chain(ys, fs) && ys[0] == xs[0]
    ensures ys[|fs|] == xs[|es|].(dirs := xs[|es|].dirs[d := xs[|es|].dirs[d].(claim := None)],
                                  pcs := xs[|es|].pcs[z := Idle])
  {
    var s := xs[|es|];
    ys, fs := ExtendTake(xs, es, z, ReleaseRead, At(s, z, ReleaseReady(d, c)));
    var s2 := ys[|fs|];
    ys, fs := ExtendTake(ys, fs, z, ReleaseUnlink(true), At(SetDir(s2, d, s2.dirs[d].(claim := None)), z, Idle));
    assert ys[|fs|].pcs == s.pcs[z := Idle];
  }

  /** A stealer that finds a change takes its own claim back and moves nothing. */
  lemma Withdraw(xs: seq<State>, es: seq<Event>, z: Token, obs: Observation, c: Token, phase: Phase)
    returns (ys: seq<State>, fs: seq<Event>)
    requires Chain(xs, es)
    requires var s := xs[|es|];
             && Alive(s, z) && PcOf(s, z) == Stealing(phase, obs, c, true) && obs.dir in s.dirs
             && s.dirs[obs.dir].claim == Some(c) && Changed(s, PcOf(s, z))
    ensures Chain(ys, fs) && ys[0] == xs[0]
    ensures ys[|fs|] == xs[|es|].(dirs := xs[|es|].dirs[obs.dir := xs[|es|].dirs[obs.dir].(claim := None)],
                                  pcs := xs[|es|].pcs[z := Idle])
  {
    var s := xs[|es|];
    ys, fs := ExtendTake(xs, es, z, Revalidate, At(s, z, Releasing(obs.dir, c)));
    ys, fs := TakeBack(ys, fs, z, obs.dir, c);
    assert ys[|fs|].pcs == s.pcs[z := Idle];
  }

  /** A stealer whose rename fails takes its own claim back, if the lock it observed is still
      there or has gone without it: it was refused by a tombstone, found no lock, or met an
      error while the pathname still names that directory. */
  lemma FailedMoveWithdraws(xs: seq<State>, es: seq<Event>, z: Token, obs: Observation, c: Token)
    returns (ys: seq<State>, fs: seq<Event>)
    requires Chain(xs, es)
    requires var s := xs[|es|];
             && Alive(s, z) && obs.dir in s.dirs && s.dirs[obs.dir].claim == Some(c)
             && (|| PcOf(s, z) == Refused(obs, c, true)
                 || (PcOf(s, z) == Stealing(Ready, obs, c, true) && s.leaf.None?)
                 || (PcOf(s, z) == Failed(obs, c, true) && s.leaf == Some(obs.dir)))
    ensures Chain(ys, fs) && ys[0] == xs[0]
    ensures ys[|fs|] == xs[|es|].(dirs := xs[|es|].dirs[obs.dir := xs[|es|].dirs[obs.dir].(claim := None)],
                                  pcs := xs[|es|].pcs[z := Idle])
  {
    var s := xs[|es|];
    ys, fs := xs, es;
    if PcOf(s, z).Refused? && s.leaf == Some(obs.dir) {
      ys, fs := ExtendTake(ys, fs, z, AfterRefusal, At(s, z, Failed(obs, c, true)));
    }
    var act := if PcOf(s, z).Stealing? then Rename(false)
               else if s.leaf == Some(obs.dir) then AfterFailure else AfterRefusal;
    ys, fs := ExtendTake(ys, fs, z, act, At(ys[|fs|], z, Releasing(obs.dir, c)));
    ys, fs := TakeBack(ys, fs, z, obs.dir, c);
    assert ys[|fs|].pcs == s.pcs[z := Idle];
  }

  /** A stealer that met an error after the lock had been moved leaves the claim with the
      tombstone, which it fences. */
  lemma MovedLockKeepsItsClaim(s: State, z: Token, act: Action, t: State)
    requires Step(s, z, act, t) && PcOf(s, z).Failed? && s.leaf != Some(PcOf(s, z).obs.dir)
    ensures Alive(t, z) ==> PcOf(t, z).Idle?
    ensures t.leaf == s.leaf && t.tombs == s.tombs && t.dirs == s.dirs
  {
    NoCreate(s, z, act, t);
    NoDrop(s, z, act, t);
    NoLook(s, z, act, t);
    hide CreateStep, DropStep, LookStep;
  }

  /** A drop that cannot read the owner, or finds another one, ends there. */
  lemma StrangerIsLeft(s: State, a: Token, act: Action, t: State)
    requires Step(s, a, act, t) && PcOf(s, a).Dropping? && PcOf(s, a).dir in s.dirs
    requires act == DropRead(false) || s.dirs[PcOf(s, a).dir].owner != Some(a)
    ensures Alive(t, a) ==> PcOf(t, a).Idle?
    ensures t.leaf == s.leaf && t.tombs == s.tombs && t.dirs == s.dirs
  {
    NoCreate(s, a, act, t);
    NoLook(s, a, act, t);
    NoTake(s, a, act, t);
    hide CreateStep, LookStep, TakeStep;
  }

  /** A stealer whose check fails does not go on to the next one. */
  lemma ChangedStops(s: State, z: Token, act: Action, t: State)
    requires Step(s, z, act, t) && PcOf(s, z).Stealing? && PcOf(s, z).obs.dir in s.dirs && Changed(s, PcOf(s, z))
    ensures Alive(t, z) ==> PcOf(t, z).Releasing? || PcOf(t, z).Idle?
  {
    NoCreate(s, z, act, t);
    NoDrop(s, z, act, t);
    NoLook(s, z, act, t);
    hide CreateStep, DropStep, LookStep;
  }

  /** A stealer that saw a live owner, or a live claim, leaves the lock alone. */
  lemma LiveIsLeftAlone(s: State, z: Token, act: Action, t: State)
    requires Step(s, z, act, t)
    requires || (PcOf(s, z).Observed? && PcOf(s, z).obs.owner.Some? && PcOf(s, z).obs.owner.value.pid !in s.crashed)
             || (PcOf(s, z).FoundClaim? && PcOf(s, z).claim.pid !in s.crashed)
    ensures Alive(t, z) ==> PcOf(t, z).Idle?
    ensures t.leaf == s.leaf && t.tombs == s.tombs && t.dirs == s.dirs
  {
    NoCreate(s, z, act, t);
    NoDrop(s, z, act, t);
    NoTake(s, z, act, t);
    hide CreateStep, DropStep, TakeStep;
  }

  /** A stealer looks at a lock and judges it stale. */
  lemma Inspect(xs: seq<State>, es: seq<Event>, z: Token, d: DirId, obs: Observation)
    returns (ys: seq<State>, fs: seq<Event>)
    requires Chain(xs, es)
    requires var s := xs[|es|];
             && Alive(s, z) && PcOf(s, z).Idle? && s.leaf == Some(d) && d in s.dirs
             && LooksDead(s, s.dirs[d].owner) && obs == Observation(d, s.dirs[d].owner, s.dirs[d].owner)
    ensures Chain(ys, fs) && ys[0] == xs[0] && ys[|fs|] == At(xs[|es|], z, Stale(obs))
  {
    var s := xs[|es|];
    ys, fs := ExtendLook(xs, es, z, OpenLock, At(s, z, Opened(d)));
    ys, fs := ExtendLook(ys, fs, z, ReadOwner, At(ys[|fs|], z, SawOwner(d, obs.owner)));
    ys, fs := ExtendLook(ys, fs, z, ReadIdent, At(ys[|fs|], z, Observed(obs)));
    ys, fs := ExtendLook(ys, fs, z, JudgeStale(true), At(ys[|fs|], z, Stale(obs)));
    assert ys[|fs|].pcs == s.pcs[z := Stale(obs)];
  }

  /** The rename of a stealer whose checks have all passed. */
  lemma MoveAway(xs: seq<State>, es: seq<Event>, z: Token, obs: Observation, c: Token, own: bool)
    returns (ys: seq<State>, fs: seq<Event>)
    requires Chain(xs, es)
    requires var s := xs[|es|];
             Alive(s, z) && PcOf(s, z) == Stealing(Ready, obs, c, own) && s.leaf == Some(obs.dir) && c !in s.tombs
    ensures Chain(ys, fs) && ys[0] == xs[0]
    ensures ys[|fs|] == xs[|es|].(leaf := None, tombs := xs[|es|].tombs[c := obs.dir], pcs := xs[|es|].pcs[z := Idle])
  {
    var s := xs[|es|];
    var moved := At(s.(leaf := None, tombs := s.tombs[c := obs.dir]), z, Moved(obs, c, own));
    ys, fs := ExtendTake(xs, es, z, Rename(true), moved);
    ys, fs := ExtendTake(ys, fs, z, AfterMove(true), At(moved, z, Idle));
    assert ys[|fs|].pcs == s.pcs[z := Idle];
  }

  /** A stealer that died after claiming does not block the lock: the next one uses its
      claim and moves the directory aside. */
  lemma StealOnDeadClaim(xs: seq<State>, es: seq<Event>, z: Token, d: DirId, c: Token)
    returns (ys: seq<State>, fs: seq<Event>)
    requires Chain(xs, es)
    requires var s := xs[|es|];
             && Alive(s, z) && PcOf(s, z).Idle? && s.leaf == Some(d) && d in s.dirs
             && LooksDead(s, s.dirs[d].owner) && s.dirs[d].claim == Some(c) && c.pid in s.crashed && c !in s.tombs
    ensures Chain(ys, fs) && ys[0] == xs[0]
    ensures ys[|fs|] == xs[|es|].(leaf := None, tombs := xs[|es|].tombs[c := d], pcs := xs[|es|].pcs[z := Idle])
  {
    var s := xs[|es|];
    var obs := Observation(d, s.dirs[d].owner, s.dirs[d].owner);
    ys, fs := Inspect(xs, es, z, d, obs);
    ys, fs := ExtendLook(ys, fs, z, FindClaim, At(ys[|fs|], z, FoundClaim(obs, c)));
    ys, fs := ExtendLook(ys, fs, z, JudgeClaim(true), At(ys[|fs|], z, Stealing(Acquired, obs, c, false)));
    ys, fs := Validate(ys, fs, z, obs, c, false);
    ys, fs := MoveAway(ys, fs, z, obs, c, false);
    assert ys[|fs|].pcs == s.pcs[z := Idle];
  }

  /** A lock with no owner, or a dead one, is moved aside when nobody interferes. */
  lemma Steal(xs: seq<State>, es: seq<Event>, z: Token, d: DirId, c: Token) returns (ys: seq<State>, fs: seq<Event>)
    requires Chain(xs, es)
    requires var s := xs[|es|];
             && Alive(s, z) && PcOf(s, z).Idle? && s.leaf == Some(d) && d in s.dirs && s.dirs[d].linked
             && LooksDead(s, s.dirs[d].owner) && s.dirs[d].claim.None?
             && c.pid == z.pid && c !in s.used && c !in s.tombs
    ensures Chain(ys, fs) && ys[0] == xs[0]
    ensures ys[|fs|] == xs[|es|].(leaf := None, tombs := xs[|es|].tombs[c := d], used := xs[|es|].used + {c},
                                  dirs := xs[|es|].dirs[d := xs[|es|].dirs[d].(claim := Some(c))],
                                  pcs := xs[|es|].pcs[z := Idle])
  {
    var s := xs[|es|];
    var o := s.dirs[d].owner;
    var obs := Observation(d, o, o);
    ys, fs := Inspect(xs, es, z, d, obs);
    ys, fs := ExtendLook(ys, fs, z, FindClaim, At(ys[|fs|], z, WillPublish(obs)));
    var s5 := ys[|fs|];
    var claimed := SetDir(s5, d, s5.dirs[d].(claim := Some(c))).(used := s5.used + {c});
    var s6 := At(claimed, z, Stealing(Acquired, obs, c, true));
    ys, fs := ExtendLook(ys, fs, z, PublishClaim(c, true, true), s6);
    ys, fs := Validate(ys, fs, z, obs, c, true);
    ys, fs := MoveAway(ys, fs, z, obs, c, true);
    assert ys[|fs|].pcs == s.pcs[z := Idle];
  }

  const P := Token(1, 0)
  const Q := Token(2, 0)
  const R := Token(4, 0)
  const THIEF := Token(3, 0)
  const C0 := Token(3, 1)
  const C1 := Token(3, 2)

  /** P makes directory 0, which is stolen before P opens it; Q makes directory 1 and both
      open that one.  P publishes its owner there and is handed the lock. */
  lemma BothOpenOne() returns (ys: seq<State>, fs: seq<Event>)
    ensures Chain(ys, fs) && Init(ys[0])
    ensures var s := ys[|fs|];
            && s.leaf == Some(1) && s.dirs.Keys == {0, 1} && s.dirs[1] == Dir(Q, Some(P), None, true)
            && s.pcs == map[P := Holding(1), THIEF := Idle, Q := Created(1)]
            && s.tombs.Keys == {C0} && s.used == {C0} && s.crashed == {}
  {
    var s0 := State(None, map[], map[], {}, map[], {});
    ys, fs := [s0], [];
    var s1 := At(SetDir(s0, 0, Dir(P, None, None, true)).(leaf := Some(0)), P, Made(0));
    ys, fs := ExtendCreate(ys, fs, P, Mkdir(0), s1);
    ys, fs := Steal(ys, fs, THIEF, 0, C0);
    var s2 := ys[|fs|];
    var s3 := At(SetDir(s2, 1, Dir(Q, None, None, true)).(leaf := Some(1)), Q, Made(1));
    ys, fs := ExtendCreate(ys, fs, Q, Mkdir(1), s3);
    ys, fs := ExtendCreate(ys, fs, Q, OpenMade, At(s3, Q, Created(1)));
    var s5 := At(ys[|fs|], P, Created(1));
    ys, fs := ExtendCreate(ys, fs, P, OpenMade, s5);
    var s6 := At(SetDir(s5, 1, s5.dirs[1].(owner := Some(P))), P, Published(1));
    ys, fs := ExtendCreate(ys, fs, P, PublishOwner(true), s6);
    ys, fs := ExtendCreate(ys, fs, P, ReadClaim(true), At(s6, P, Checked(1)));
    ys, fs := ExtendCreate(ys, fs, P, CheckPath(true), At(ys[|fs|], P, Holding(1)));
  }

  /** Q cannot publish over P's owner file and unlinks it while giving up; the directory
      P holds now looks abandoned, is stolen, and R acquires a fresh one. */
  lemma TwoHoldersWhenOpenStrays() returns (ys: seq<State>, fs: seq<Event>)
    ensures IsRun(ys, fs) && !OpensOwnDirectories(ys, fs)
    ensures Holds(ys[|fs|], P) && Holds(ys[|fs|], R) && P != R
  {
    ys, fs := BothOpenOne();
    var s0 := ys[|fs|];
    ys, fs := ExtendCreate(ys, fs, Q, PublishOwner(false), At(s0, Q, Abandoning(1)));
    var s1 := ys[|fs|];
    ys, fs := ExtendCreate(ys, fs, Q, Abandon(true), At(SetDir(s1, 1, s1.dirs[1].(owner := None)), Q, Idle));
    ys, fs := Steal(ys, fs, THIEF, 1, C1);
    ys, fs := Acquire(ys, fs, R, 2);
    if OpensOwnDirectories(ys, fs) {
      PlainLockSafety.MutualExclusion(ys, fs, |fs|, P, R);
      assert false;
    }
  }
}
