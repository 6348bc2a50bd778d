/** What no failure or crash of a credential migration or rotation can do. */
module MigrationSafety {
  import opened Wrappers
  import opened Approval
  import opened Migration
  import AtomicWrite

  predicate InConfig(doc: Option<Doc>, secret: string) {
    doc.Some? && doc.value.Object? && "apiKey" in doc.value.root && doc.value.root["apiKey"] == Text(secret)
  }

  /** The secret can still be found, whatever a power loss keeps of the configuration. */
  predicate Safe(w: World, secret: string) {
    w.keychain == Some(secret) || (InConfig(w.visible, secret) && InConfig(w.stable, secret))
  }

  /** What every world of a run looks like: the configuration is the old one or, once the
      keychain holds the secret, the new one; the keychain is as before, empty or holds it. */
  predicate OnTheWay(w: World, plan: Plan, e: World)
    requires plan.secret.Some?
  {
    && (e.visible == w.visible || (e.visible == Some(Object(plan.target)) && e.keychain == plan.secret))
    && (e.stable == w.stable || (e.stable == Some(Object(plan.target)) && e.keychain == plan.secret))
    && (e.keychain == w.keychain || (w.keychain.None? && e.keychain == plan.secret))
  }

  function Goal(plan: Plan): World { World(Some(Object(plan.target)), Some(Object(plan.target)), plan.secret) }

  /** Success reaches the goal.  A failed rollback leaves at least the configuration alone;
      a replacement that could not be synced leaves the new one to be seen; every other
      failure leaves both stores exactly as they were. */
  predicate EndsAs(w: World, plan: Plan, script: Script, end: World, result: Result<Report, Migration.Error>) {
    match result
    case Success(_) => end == Goal(plan)
    case Failure(RollbackFailed) => end.visible == w.visible && end.stable == w.stable
    case Failure(e) =>
      || end == w
      || (e == MigrationFailed && script.write.CommittedNotSynced?
          && end == w.(visible := Some(Object(plan.target)), keychain := plan.secret))
  }

  lemma UndoEnds(w0: World, w: World, plan: Plan, error: Migration.Error, script: Script)
    requires plan.secret.Some? && w0.keychain.None? && w.visible == w0.visible && w.stable == w0.stable
    requires w.keychain.None? || w.keychain == plan.secret
    ensures var u := Undo(w, true, plan.secret.value, error, script);
            && (forall e :: e in u.steps ==> OnTheWay(w0, plan, e))
            && EndsAs(w0, plan, script, End(w, u.steps), u.result)
  {}

  lemma FinishEnds(w0: World, w: World, plan: Plan, created: bool, script: Script)
    requires plan.secret.Some? && w.keychain == plan.secret && w.visible == w0.visible && w.stable == w0.stable
    requires if created then w0.keychain.None? else w == w0
    ensures var f := Finish(w, plan, created, script);
            && (forall e :: e in f.steps ==> OnTheWay(w0, plan, e))
            && EndsAs(w0, plan, script, End(w, f.steps), f.result)
  {
    if created {
      UndoEnds(w0, w, plan, if script.verifyFails then ReadFailed else MigrationFailed, script);
    }
    hide Rollback;
  }

  lemma MoveEnds(w: World, plan: Plan, script: Script)
    requires plan.secret.Some? && ValidApiKey(plan.secret.value)
    ensures var m := MoveSecret(w, plan, script);
            && (forall e :: e in m.steps ==> OnTheWay(w, plan, e))
            && EndsAs(w, plan, script, End(w, m.steps), m.result)
  {
    var secret := plan.secret.value;
    if script.getFails {
    } else if w.keychain.None? {
      var steps := SetSteps(w, secret, script.setCall);
      if script.setCall.Works? {
        FinishEnds(w, End(w, steps), plan, true, script);
      } else {
        UndoEnds(w, End(w, steps), plan, WriteFailed, script);
      }
    } else if w.keychain.value == secret {
      FinishEnds(w, w, plan, false, script);
    }
    hide Finish, Undo;
  }

  lemma PreparedFacts(w: World)
    requires Prepare(w).Success? && Prepare(w).value.Some?
    ensures var plan := Prepare(w).value.value;
            && w.visible.Some? && w.visible.value.Object?
            && (plan.secret.Some? ==> ValidApiKey(plan.secret.value) && InConfig(w.visible, plan.secret.value))
            && (plan.secret.None? <==> "apiKey" !in w.visible.value.root)
            && MigrateRoot(w.visible.value.root - {"apiKey"}, plan.secret).Success?
            && plan.target == MigrateRoot(w.visible.value.root - {"apiKey"}, plan.secret).value.root
  {
    hide MigrateRoot;
  }

  /** The secret is never lost: at every step of a migration, however its calls fail, and
      whatever a power loss then keeps, it is in the keychain or in the configuration. */
  lemma SecretNeverLost(w: World, secret: string, script: Script, e: World)
    requires InConfig(w.visible, secret) && InConfig(w.stable, secret) && e in Migrate(w, script).steps
    ensures Safe(e, secret)
  {
    PreparedFacts(w);
    var plan := Prepare(w).value.value;
    hide Prepare;
    if plan.secret.Some? {
      MoveEnds(w, plan, script);
      hide MoveSecret;
      assert OnTheWay(w, plan, e);
    }
  }

  /** A migration that moves a secret ends in the goal, or, failing, in one of the three
      ways `EndsAs` lists; a conflicting credential leaves both stores untouched. */
  lemma FailuresRestore(w: World, script: Script)
    requires Prepare(w).Success? && Prepare(w).value.Some? && Prepare(w).value.value.secret.Some?
    ensures var m := Migrate(w, script);
            !script.readFails ==> EndsAs(w, Prepare(w).value.value, script, End(w, m.steps), m.result)
    ensures Migrate(w, script).result == Failure(Conflict) ==> Migrate(w, script).steps == []
  {
    PreparedFacts(w);
    var plan := Prepare(w).value.value;
    MoveEnds(w, plan, script);
    hide Prepare, EndsAs;
    ConflictTouchesNothing(w, plan, script);
  }

  lemma ConflictTouchesNothing(w: World, plan: Plan, script: Script)
    requires plan.secret.Some?
    ensures MoveSecret(w, plan, script).result == Failure(Conflict) ==> MoveSecret(w, plan, script).steps == []
  {}

  /** A credential is taken from the configuration exactly if it is text of visible ASCII
      characters without blanks and the rest of the configuration is accepted. */
  lemma TakesTheSecret(w: World, s: string)
    ensures (Prepare(w).Success? && Prepare(w).value.Some? && Prepare(w).value.value.secret == Some(s)) <==>
              (InConfig(w.visible, s) && s != "" && (forall k :: 0 <= k < |s| ==> ' ' < s[k] < '\U{007F}')
               && Classify(w.visible.value.root - {"apiKey"}, Some(s)).Success?)
  {
    hide Classify, Upgrade;
  }

  /** A credential in the configuration that is no valid key stops the migration before
      anything is touched. */
  lemma InvalidSecretStops(w: World, script: Script)
    requires w.visible.Some? && w.visible.value.Object? && "apiKey" in w.visible.value.root
    requires !w.visible.value.root["apiKey"].Text? || !ValidApiKey(w.visible.value.root["apiKey"].text)
    ensures Migrate(w, script) == Run([], Failure(LegacyInvalid))
  {
    hide MigrateRoot, ValidApiKey;
  }

  /** Without a credential to move, an undisturbed migration only brings the approvals to
      version 1, and does not write a file that is there already. */
  lemma MigrationWithoutSecret(w: World, script: Script)
    requires w.visible.Some? && w.visible.value.Object? && "apiKey" !in w.visible.value.root && NothingFails(script)
    requires Classify(w.visible.value.root, None).Success?
    ensures var root := w.visible.value.root;
            var rows := RowsOf(Classify(root, None).value.rows);
            var target := Some(Object(Upgrade(root, rows)));
            && Migrate(w, script).result
               == Success(Report(false, false, if "version" in root then 0 else |rows|))
            && End(w, Migrate(w, script).steps)
               == if "version" in root then w else World(target, target, w.keychain)
  {
    var root := w.visible.value.root;
    assert root - {"apiKey"} == root;
    VersionedMeans(root, None);
    hide Classify, Upgrade;
  }

  /** Moving a credential reports it, with the approvals that came along, and the target
      has no credential, the approvals of the source, and its other fields. */
  lemma MigrationMovesEverything(w: World, script: Script)
    requires Prepare(w).Success? && Prepare(w).value.Some? && Prepare(w).value.value.secret.Some?
    requires w.keychain.None? || w.keychain == Prepare(w).value.value.secret
    requires NothingFails(script)
    ensures var plan := Prepare(w).value.value;
            var root := w.visible.value.root - {"apiKey"};
            && Classify(root, plan.secret).Success?
            && var rows := RowsOf(Classify(root, plan.secret).value.rows);
            && Migrate(w, script).result == Success(Report(true, true, if "version" in root then 0 else |rows|))
            && End(w, Migrate(w, script).steps) == Goal(plan)
            && Classify(plan.target, plan.secret)
               == Success(Classified(BoundRows(rows), true))
            && "apiKey" !in plan.target
            && (forall k :: k != "version" && k != "serviceStatus" ==>
                  (k in plan.target <==> k in root) && (k in root ==> plan.target[k] == root[k]))
  {
    PreparedFacts(w);
    var plan := Prepare(w).value.value;
    var root := w.visible.value.root - {"apiKey"};
    assert "apiKey" !in root;
    MigrationIsIdempotent(root, plan.secret);
    MigrationKeepsRows(root, plan.secret);
    assert plan.approvals == MigrateRoot(root, plan.secret).value.approvals;
    VersionedMeans(root, plan.secret);
    MoveCompletes(w, plan, script);
    hide Prepare, MoveSecret, Classify;
  }

  // ---------------------------------------------------------------- running it again

  predicate NothingFails(script: Script) {
    && !script.readFails && !script.getFails && script.setCall.Works? && !script.verifyFails
    && script.write == AtomicWrite.Durable
  }

  /** A power loss settles the configuration on one of its two contents. */
  predicate AfterCrash(e: World, f: World) {
    f.keychain == e.keychain && f.visible == f.stable && (f.visible == e.visible || f.visible == e.stable)
  }

  lemma PlanOfTarget(w: World, f: World)
    requires Prepare(w).Success? && Prepare(w).value.Some?
    requires f.visible == Some(Object(Prepare(w).value.value.target))
    ensures Prepare(f) == Success(Some(Plan(None, Prepare(w).value.value.target, false, 0)))
  {
    PreparedFacts(w);
    var plan := Prepare(w).value.value;
    var root := w.visible.value.root - {"apiKey"};
    assert "apiKey" !in root;
    MigrationIsIdempotent(root, plan.secret);
    hide MigrateRoot;
    assert plan.target - {"apiKey"} == plan.target;
  }

  /** From wherever a power loss left a migration, running it again without failures ends
      in the same goal. */
  lemma RerunReachesTheGoal(w: World, script: Script, e: World, f: World, again: Script)
    requires Prepare(w).Success? && Prepare(w).value.Some? && Prepare(w).value.value.secret.Some?
    requires w.visible == w.stable
    requires w.keychain.None? || w.keychain == Prepare(w).value.value.secret
    requires e == w || e in Migrate(w, script).steps
    requires AfterCrash(e, f) && NothingFails(again)
    ensures Migrate(f, again).result.Success?
    ensures End(f, Migrate(f, again).steps) == Goal(Prepare(w).value.value)
  {
    PreparedFacts(w);
    var plan := Prepare(w).value.value;
    MoveEnds(w, plan, script);
    if f.visible == Some(Object(plan.target)) {
      TargetHasNoSecret(w);
      PlanOfTarget(w, f);
      hide Prepare, MoveSecret;
      assert e != w ==> OnTheWay(w, plan, e);
    } else {
      assert f.visible == w.visible;
      SamePlan(w, f);
      hide Prepare;
      MoveCompletes(f, plan, again);
    }
  }

  lemma TargetHasNoSecret(w: World)
    requires Prepare(w).Success? && Prepare(w).value.Some?
    ensures "apiKey" !in Prepare(w).value.value.target
  {
    PreparedFacts(w);
    var root := w.visible.value.root - {"apiKey"};
    assert "apiKey" !in root;
    MigrationIsIdempotent(root, Prepare(w).value.value.secret);
  }

  lemma SamePlan(w: World, f: World)
    requires w.visible == f.visible
    ensures Prepare(w) == Prepare(f)
  {}

  lemma MoveCompletes(f: World, plan: Plan, again: Script)
    requires plan.secret.Some? && ValidApiKey(plan.secret.value) && NothingFails(again)
    requires f.keychain.None? || f.keychain == plan.secret
    ensures MoveSecret(f, plan, again).result == Success(Report(true, true, plan.approvals))
    ensures End(f, MoveSecret(f, plan, again).steps) == Goal(plan)
  {}

  // ---------------------------------------------------------------- any number of crashes

  /** Where a migration of `w` can be after power losses: not yet or already replaced. */
  predicate Between(w: World, plan: Plan, f: World) {
    && f.visible == f.stable
    && ((f.visible == w.visible && (f.keychain.None? || f.keychain == plan.secret))
        || (f.visible == Some(Object(plan.target)) && f.keychain == plan.secret))
  }

  /** `worlds[k + 1]` is what a power loss left of a migration started in `worlds[k]`. */
  ghost predicate Crashing(worlds: seq<World>, scripts: seq<Script>) {
    && |worlds| == |scripts| + 1
    && forall k :: 0 <= k < |scripts| ==>
         exists e :: (e == worlds[k] || e in Migrate(worlds[k], scripts[k]).steps) && AfterCrash(e, worlds[k + 1])
  }

  lemma CrashStaysBetween(w: World, f: World, script: Script, e: World, g: World)
    requires Prepare(w).Success? && Prepare(w).value.Some? && Prepare(w).value.value.secret.Some?
    requires Between(w, Prepare(w).value.value, f)
    requires (e == f || e in Migrate(f, script).steps) && AfterCrash(e, g)
    ensures Between(w, Prepare(w).value.value, g)
  {
    PreparedFacts(w);
    var plan := Prepare(w).value.value;
    if f.visible == Some(Object(plan.target)) {
      PlanOfTarget(w, f);
      hide Prepare;
    } else {
      SamePlan(w, f);
      MoveEnds(f, plan, script);
      hide Prepare, MoveSecret;
      assert e != f ==> OnTheWay(f, plan, e);
    }
  }

  lemma {:induction false} StillBetween(worlds: seq<World>, scripts: seq<Script>, k: nat)
    requires Crashing(worlds, scripts) && k < |worlds|
    requires Prepare(worlds[0]).Success? && Prepare(worlds[0]).value.Some?
    requires Prepare(worlds[0]).value.value.secret.Some?
    requires Between(worlds[0], Prepare(worlds[0]).value.value, worlds[0])
    ensures Between(worlds[0], Prepare(worlds[0]).value.value, worlds[k])
  {
    if k > 0 {
      StillBetween(worlds, scripts, k - 1);
      var e :| (e == worlds[k - 1] || e in Migrate(worlds[k - 1], scripts[k - 1]).steps) && AfterCrash(e, worlds[k]);
      hide *;
      CrashStaysBetween(worlds[0], worlds[k - 1], scripts[k - 1], e, worlds[k]);
    }
  }

  /** However often a migration fails or is cut off by a power loss, the secret is always
      to be found, and the first run that nothing disturbs ends in the same goal. */
  lemma AnyNumberOfCrashes(worlds: seq<World>, scripts: seq<Script>, k: nat, again: Script)
    requires Crashing(worlds, scripts) && k < |worlds| && NothingFails(again)
    requires Prepare(worlds[0]).Success? && Prepare(worlds[0]).value.Some?
    requires Prepare(worlds[0]).value.value.secret.Some?
    requires worlds[0].visible == worlds[0].stable
    requires worlds[0].keychain.None? || worlds[0].keychain == Prepare(worlds[0]).value.value.secret
    ensures Safe(worlds[k], Prepare(worlds[0]).value.value.secret.value)
    ensures Migrate(worlds[k], again).result.Success?
    ensures End(worlds[k], Migrate(worlds[k], again).steps) == Goal(Prepare(worlds[0]).value.value)
  {
    var w := worlds[0];
    PreparedFacts(w);
    StillBetween(worlds, scripts, k);
    FromBetween(w, worlds[k], again);
    hide *;
  }

  lemma FromBetween(w: World, f: World, again: Script)
    requires Prepare(w).Success? && Prepare(w).value.Some? && Prepare(w).value.value.secret.Some?
    requires Between(w, Prepare(w).value.value, f) && NothingFails(again)
    ensures Safe(f, Prepare(w).value.value.secret.value)
    ensures Migrate(f, again).result.Success? && End(f, Migrate(f, again).steps) == Goal(Prepare(w).value.value)
  {
    PreparedFacts(w);
    var plan := Prepare(w).value.value;
    if f.visible == Some(Object(plan.target)) {
      TargetHasNoSecret(w);
      PlanOfTarget(w, f);
      hide Prepare;
    } else {
      SamePlan(w, f);
      hide Prepare;
      MoveCompletes(f, plan, again);
    }
  }

  // ---------------------------------------------------------------- replacing the credential

  predicate NoApprovals(doc: Option<Doc>) {
    doc.Some? ==>
      && doc.value.Object? && "serviceStatus" in doc.value.root
      && doc.value.root["serviceStatus"] == Statuses(map[])
  }

  /** Replacing the credential: whenever the keychain holds something else than before,
      the approvals bound to the old credential are gone, also after a power loss.  It
      succeeds exactly if the keychain then holds the new secret and could be read. */
  lemma ApprovalsGoFirst(w: World, secret: string, script: Script, e: World)
    requires w.visible == w.stable && e in Rotate(w, secret, script).steps
    ensures e.keychain == w.keychain || (e.keychain == Some(secret) && NoApprovals(e.visible) && NoApprovals(e.stable))
    ensures Rotate(w, secret, script).result.Success? ==>
              End(w, Rotate(w, secret, script).steps).keychain == Some(secret) && !script.verifyFails
  {
    hide Classify;
    if Cleared(w).Success? && Cleared(w).value.Some? {
      assert Printed(map[]) == map[];
    }
  }

  /** A rollback that reports success leaves no such secret, one that nothing disturbs
      succeeds, and neither touches another secret or the configuration. */
  lemma RollbackMeans(w: World, expected: string, script: Script)
    ensures var r := Rollback(w, expected, script);
            && (r.result ==> End(w, r.steps).keychain != Some(expected))
            && (!script.rollbackGetFails && script.removeCall.Works? && !script.checkFails ==> r.result)
            && (w.keychain != Some(expected) ==> r.steps == [] && (r.result <==> !script.rollbackGetFails))
            && (w.keychain == Some(expected) && r.result ==> !script.checkFails && End(w, r.steps).keychain.None?)
            && (forall x :: x in r.steps ==> x.visible == w.visible && x.stable == w.stable)
  {}

  /** Without a configuration there is nothing to migrate. */
  lemma NothingToMigrate(w: World, script: Script)
    requires w.visible.None? && !script.readFails
    ensures Migrate(w, script) == Run([], Success(Report(false, false, 0)))
  {}

  /** The configuration is accepted for a rotation: absent, or valid and without a
      credential of its own. */
  predicate Rotatable(w: World) {
    w.visible.None? || (w.visible.value.Object? && "apiKey" !in w.visible.value.root
                        && Classify(w.visible.value.root, None).Success?)
  }

  /** The answer of a rotation, whatever fails: a call that reports an error after it took
      effect is no failure, because the keychain is read again. */
  lemma RotationAnswers(w: World, secret: string, script: Script)
    ensures Rotate(w, secret, script).result
            == if script.readFails then Failure(MigrationFailed)
               else if !Rotatable(w) then Failure(LegacyInvalid)
               else if w.visible.Some? && !script.write.Durable? then Failure(MigrationFailed)
               else if script.verifyFails then Failure(ReadFailed)
               else if script.setCall.FailsBefore? && w.keychain != Some(secret) then Failure(WriteFailed)
               else Success(())
  {
    hide Classify, Upgrade;
  }

  /** A rotation that nothing disturbs succeeds: the keychain holds the new credential, the
      approvals are gone, and every other field of the configuration is as before.  It is
      refused, and touches nothing, if the configuration is not accepted or still holds a
      credential. */
  lemma RotationEnds(w: World, secret: string, script: Script)
    requires NothingFails(script)
    ensures var accepted := Rotatable(w);
            var end := End(w, Rotate(w, secret, script).steps);
            && (Rotate(w, secret, script).result.Success? <==> accepted)
            && (!accepted ==> Rotate(w, secret, script).steps == [])
            && (accepted ==> end.keychain == Some(secret) && NoApprovals(end.visible))
            && (accepted && w.visible.None? ==> end.visible.None?)
            && (accepted && w.visible.Some? ==>
                  && end.visible == end.stable && end.visible.Some? && end.visible.value.Object?
                  && forall k :: k != "version" && k != "serviceStatus" ==>
                       && (k in end.visible.value.root <==> k in w.visible.value.root)
                       && (k in w.visible.value.root ==> end.visible.value.root[k] == w.visible.value.root[k]))
  {
    hide Classify;
    assert Printed(map[]) == map[];
    if w.visible.Some? && w.visible.value.Object? { UpgradeFrame(w.visible.value.root, map[]); }
  }
}
