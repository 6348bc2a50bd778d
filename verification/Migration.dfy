/**
  Moving the credential from `config.json` into the keychain.  Two stores are changed
  one after the other, and every call may fail, before or after it took effect.  The
  configuration lock is held throughout; nobody else writes the keychain, and what `get`
  returns is what the keychain holds.
*/
module Migration {
  import opened Wrappers
  import opened Approval
  import AtomicWrite

  datatype Doc = NotJson | NotObject | Object(root: Root)

  /** `visible` and `stable` are the configuration file as processes see it and as its
      last durable replacement left it. */
  datatype World = World(visible: Option<Doc>, stable: Option<Doc>, keychain: Option<string>)

  datatype Call = Works | FailsBefore | FailsAfter

  datatype Script = Script(
    readFails: bool,
    getFails: bool,
    setCall: Call,
    verifyFails: bool,
    write: AtomicWrite.Outcome,
    rollbackGetFails: bool,
    removeCall: Call,
    checkFails: bool)

  datatype Error =
    | LegacyInvalid | ReadFailed | WriteFailed | VerifyFailed | RollbackFailed | Conflict | MigrationFailed

  datatype Report = Report(migrated: bool, secretRemoved: bool, approvals: nat)

  /** A run: the worlds after the first one, in order, and what is returned. */
  datatype Run<T> = Run(steps: seq<World>, result: T)

  predicate ValidApiKey(s: string) { s != "" && forall k :: 0 <= k < |s| ==> '!' <= s[k] <= '~' }

  function End(w: World, steps: seq<World>): World { if steps == [] then w else steps[|steps| - 1] }

  // ---------------------------------------------------------------- the calls

  function SetSteps(w: World, secret: string, call: Call): seq<World> {
    if call.FailsBefore? then [] else [w.(keychain := Some(secret))]
  }

  function RemoveSteps(w: World, call: Call): seq<World> {
    if call.FailsBefore? then [] else [w.(keychain := None)]
  }

  function WriteSteps(w: World, root: Root, outcome: AtomicWrite.Outcome): seq<World> {
    match outcome
    case NotCommitted => []
    case CommittedNotSynced => [w.(visible := Some(Object(root)))]
    case Durable => [w.(visible := Some(Object(root))), w.(visible := Some(Object(root)), stable := Some(Object(root)))]
  }

  /** `rollback_created_backend`. */
  function Rollback(w: World, expected: string, script: Script): Run<bool> {
    if script.rollbackGetFails then Run([], false)
    else if w.keychain != Some(expected) then Run([], true)
    else
      var steps := RemoveSteps(w, script.removeCall);
      Run(steps, script.removeCall.Works? && !script.checkFails)
  }

  /** The secret in the configuration: none, a valid one, or something else. */
  function LegacySecret(root: Root): Result<Option<string>, Error> {
    if "apiKey" !in root then Success(None)
    else match root["apiKey"]
         case Text(s) => if ValidApiKey(s) then Success(Some(s)) else Failure(LegacyInvalid)
         case _ => Failure(LegacyInvalid)
  }

  datatype Plan = Plan(secret: Option<string>, target: Root, changed: bool, approvals: nat)

  /** What the configuration asks for, before anything is touched. */
  function Prepare(w: World): Result<Option<Plan>, Error> {
    if w.visible.None? then Success(None)
    else if !w.visible.value.Object? then Failure(LegacyInvalid)
    else
      var root := w.visible.value.root;
      match LegacySecret(root)
      case Failure(e) => Failure(e)
      case Success(secret) =>
        match MigrateRoot(root - {"apiKey"}, secret)
        case Failure(_) => Failure(LegacyInvalid)
        case Success(m) => Success(Some(Plan(secret, m.root, m.changed, m.approvals)))
  }

  /** Undo what was created; the first error is reported unless undoing fails. */
  function Undo(w: World, created: bool, secret: string, error: Error, script: Script): Run<Result<Report, Error>> {
    if !created then Run([], Failure(error))
    else
      var r := Rollback(w, secret, script);
      Run(r.steps, Failure(if r.result then error else RollbackFailed))
  }

  /** From the verified keychain on. */
  function Finish(w: World, plan: Plan, created: bool, script: Script): Run<Result<Report, Error>>
    requires plan.secret.Some?
  {
    if script.verifyFails then Undo(w, created, plan.secret.value, ReadFailed, script)
    else if w.keychain != plan.secret then Undo(w, created, plan.secret.value, VerifyFailed, script)
    else
      var steps := WriteSteps(w, plan.target, script.write);
      match script.write
      case Durable => Run(steps, Success(Report(true, true, plan.approvals)))
      case CommittedNotSynced => Run(steps, Failure(MigrationFailed))
      case NotCommitted => Undo(w, created, plan.secret.value, MigrationFailed, script)
  }

  function MoveSecret(w: World, plan: Plan, script: Script): Run<Result<Report, Error>>
    requires plan.secret.Some?
  {
    var secret := plan.secret.value;
    if script.getFails then Run([], Failure(ReadFailed))
    else if w.keychain.None? then
      var steps := SetSteps(w, secret, script.setCall);
      var rest := if script.setCall.Works? then Finish(End(w, steps), plan, true, script)
                  else Undo(End(w, steps), true, secret, WriteFailed, script);
      Run(steps + rest.steps, rest.result)
    else if !ValidApiKey(w.keychain.value) then Run([], Failure(ReadFailed))
    else if w.keychain.value == secret then Finish(w, plan, false, script)
    else Run([], Failure(Conflict))
  }

  /** `migrate_legacy_blocking_with_writer`. */
  function Migrate(w: World, script: Script): Run<Result<Report, Error>> {
    if script.readFails then Run([], Failure(LegacyInvalid))
    else match Prepare(w)
         case Failure(e) => Run([], Failure(e))
         case Success(None) => Run([], Success(Report(false, false, 0)))
         case Success(Some(plan)) =>
           if plan.secret.Some? then MoveSecret(w, plan, script)
           else if !plan.changed then Run([], Success(Report(false, false, plan.approvals)))
           else Run(WriteSteps(w, plan.target, script.write),
                    if script.write.Durable? then Success(Report(false, false, plan.approvals))
                    else Failure(MigrationFailed))
  }

  /** `clear_for_rotation_locked`: the configuration to write, if there is one. */
  function Cleared(w: World): Result<Option<Root>, Error> {
    if w.visible.None? then Success(None)
    else if !w.visible.value.Object? then Failure(LegacyInvalid)
    else
      var root := w.visible.value.root;
      if Classify(root, None).Failure? || "apiKey" in root then Failure(LegacyInvalid)
      else Success(Some(Upgrade(root, map[])))
  }

  /** `set_blocking` under the lock. */
  function Rotate(w: World, secret: string, script: Script): Run<Result<(), Error>> {
    if script.readFails then Run([], Failure(MigrationFailed))
    else match Cleared(w)
         case Failure(e) => Run([], Failure(e))
         case Success(target) =>
           var first := if target.None? then [] else WriteSteps(w, target.value, script.write);
           if target.Some? && !script.write.Durable? then Run(first, Failure(MigrationFailed))
           else
             var steps := first + SetSteps(End(w, first), secret, script.setCall);
             Run(steps,
                 if script.verifyFails then Failure(ReadFailed)
                 else if End(w, steps).keychain == Some(secret) then Success(())
                 else Failure(if script.setCall.Works? then VerifyFailed else WriteFailed))
  }

  // ---------------------------------------------------------------- the program

  class Stores {
    var world: World
    ghost var seen: seq<World>      // every world so far, the present one last

    constructor (initial: World)
      ensures world == initial && seen == [initial]
    {
      world := initial;
      seen := [initial];
    }

    ghost predicate Current()
      reads this
    {
      seen != [] && seen[|seen| - 1] == world
    }

    method Become(next: World)
      requires Current()
      modifies this
      ensures Current() && world == next && seen == old(seen) + [next]
    {
      world := next;
      seen := seen + [next];
    }

    method Set(secret: string, call: Call) returns (ok: bool)
      requires Current()
      modifies this
      ensures Current() && ok == call.Works?
      ensures seen == old(seen) + SetSteps(old(world), secret, call)
      ensures world == End(old(world), SetSteps(old(world), secret, call))
    {
      if !call.FailsBefore? { Become(world.(keychain := Some(secret))); }
      ok := call.Works?;
    }

    method RollbackCreated(expected: string, script: Script) returns (ok: bool)
      requires Current()
      modifies this
      ensures Current() && ok == Rollback(old(world), expected, script).result
      ensures seen == old(seen) + Rollback(old(world), expected, script).steps
    {
      if script.rollbackGetFails { return false; }
      if world.keychain != Some(expected) { return true; }
      if !script.removeCall.FailsBefore? { Become(world.(keychain := None)); }
      if !script.removeCall.Works? { return false; }
      if script.checkFails { return false; }
      ok := world.keychain != Some(expected);
    }

    method WriteConfig(root: Root, outcome: AtomicWrite.Outcome)
      requires Current()
      modifies this
      ensures Current() && seen == old(seen) + WriteSteps(old(world), root, outcome)
      ensures world == End(old(world), WriteSteps(old(world), root, outcome))
    {
      if outcome.NotCommitted? { return; }
      Become(world.(visible := Some(Object(root))));
      if outcome.Durable? { Become(world.(stable := Some(Object(root)))); }
    }

    /** The keychain half and, once it is verified, the replacement of the configuration. */
    method MoveIntoKeychain(plan: Plan, script: Script) returns (r: Result<Report, Error>)
      requires Current() && plan.secret.Some?
      modifies this
      ensures Current() && r == MoveSecret(old(world), plan, script).result
      ensures seen == old(seen) + MoveSecret(old(world), plan, script).steps
    {
      var secret := plan.secret.value;
      if script.getFails { return Failure(ReadFailed); }
      var created := false;
      if world.keychain.None? {
        var stored := Set(secret, script.setCall);
        if !stored {
          var undone := RollbackCreated(secret, script);
          return Failure(if undone then WriteFailed else RollbackFailed);
        }
        created := true;
      } else if !ValidApiKey(world.keychain.value) {
        return Failure(ReadFailed);
      } else if world.keychain.value != secret {
        return Failure(Conflict);
      }
      if script.verifyFails || world.keychain != Some(secret) {
        if created {
          var undone := RollbackCreated(secret, script);
          if !undone { return Failure(RollbackFailed); }
        }
        return Failure(if script.verifyFails then ReadFailed else VerifyFailed);
      }
      WriteConfig(plan.target, script.write);
      if !script.write.Durable? {
        var committed := script.write.CommittedNotSynced?;
        if created && !committed {
          var undone := RollbackCreated(secret, script);
          if !undone { return Failure(RollbackFailed); }
        }
        return Failure(MigrationFailed);
      }
      r := Success(Report(true, true, plan.approvals));
    }

    method MigrateLegacy(script: Script) returns (r: Result<Report, Error>)
      requires Current()
      modifies this
      ensures Current() && r == Migrate(old(world), script).result
      ensures seen == old(seen) + Migrate(old(world), script).steps
    {
      if script.readFails { return Failure(LegacyInvalid); }
      var prepared := Prepare(world);
      if prepared.Failure? { return Failure(prepared.error); }
      if prepared.value.None? { return Success(Report(false, false, 0)); }
      var plan := prepared.value.value;
      if plan.secret.Some? {
        r := MoveIntoKeychain(plan, script);
        return;
      }
      if plan.changed {
        WriteConfig(plan.target, script.write);
        if !script.write.Durable? { return Failure(MigrationFailed); }
      }
      r := Success(Report(false, false, plan.approvals));
    }

    method SetCredential(secret: string, script: Script) returns (r: Result<(), Error>)
      requires Current()
      modifies this
      ensures Current() && r == Rotate(old(world), secret, script).result
      ensures seen == old(seen) + Rotate(old(world), secret, script).steps
    {
      if script.readFails { return Failure(MigrationFailed); }
      var cleared := Cleared(world);
      if cleared.Failure? { return Failure(cleared.error); }
      if cleared.value.Some? {
        WriteConfig(cleared.value.value, script.write);
        if !script.write.Durable? { return Failure(MigrationFailed); }
      }
      var stored := Set(secret, script.setCall);
      if script.verifyFails { return Failure(ReadFailed); }
      if world.keychain == Some(secret) { return Success(()); }
      r := Failure(if stored then VerifyFailed else WriteFailed);
    }
  }
}
