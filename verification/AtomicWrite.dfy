/** Replacing a state file: temporary, sync, rename, directory sync. */
module AtomicWrite {
  import opened Wrappers

  /** `safe` says that the content has been synced; the content of an unsafe file is
      anything at all after a power loss. */
  datatype File = File(data: seq<bv8>, safe: bool)

  /** One directory as processes see it and as its last sync left it. */
  datatype Disk = Disk(visible: map<string, File>, stable: map<string, File>)

  /** The first call that fails. */
  datatype Fault = AtCreate | AtWrite(written: nat) | AtPermission | AtFileSync | AtRename | AtDirectorySync | NoFault

  /** `Ok`, the error with the `committed` flag set, and the error without it. */
  datatype Outcome = Durable | CommittedNotSynced | NotCommitted

  function Look(names: map<string, File>, name: string): Option<seq<bv8>> {
    if name in names then Some(names[name].data) else None
  }

  /** What `name` may hold after a power loss: an unsynced change to the directory may or
      may not have reached the disk. */
  ghost predicate MayRemain(d: Disk, name: string, content: Option<seq<bv8>>) {
    MayRemainOf(d.visible, name, content) || MayRemainOf(d.stable, name, content)
  }

  predicate MayRemainOf(names: map<string, File>, name: string, content: Option<seq<bv8>>) {
    if name !in names then content.None?
    else content.Some? && (names[name].safe ==> content.value == names[name].data)
  }

  /** The file is on disk for good. */
  predicate Settled(d: Disk, name: string) {
    && (name in d.visible <==> name in d.stable)
    && (name in d.visible ==> d.visible[name] == d.stable[name] && d.visible[name].safe)
  }

  function Show(d: Disk, name: string, f: File): Disk { d.(visible := d.visible[name := f]) }

  function Hide(d: Disk, name: string): Disk { d.(visible := d.visible - {name}) }

  function Cleaned(d: Disk, temp: string, cleanup: bool): Disk { if cleanup then Hide(d, temp) else d }

  /** The part between the creation of the temporary and the clean-up. */
  function AttemptStates(d: Disk, leaf: string, temp: string, bytes: seq<bv8>, fault: Fault): (r: seq<Disk>)
    ensures |r| > 0
  {
    if fault.AtWrite? then
      [Show(d, temp, File(bytes[..if fault.written < |bytes| then fault.written else |bytes|], false))]
    else
      var full, synced := Show(d, temp, File(bytes, false)), Show(d, temp, File(bytes, true));
      if fault.AtPermission? || fault.AtFileSync? then [full]
      else if fault.AtRename? then [full, synced]
      else
        var moved := Show(Hide(synced, temp), leaf, File(bytes, true));
        if fault.AtDirectorySync? then [full, synced, moved]
        else [full, synced, moved, moved.(stable := moved.visible)]
  }

  /** Every state of the directory during one replacement, in order. */
  function States(d: Disk, leaf: string, temp: string, bytes: seq<bv8>, fault: Fault, cleanup: bool): (r: seq<Disk>)
    ensures |r| > 0
  {
    if fault.AtCreate? || temp in d.visible then [d]
    else
      var during := [d, Show(d, temp, File([], false))] + AttemptStates(d, leaf, temp, bytes, fault);
      if fault.AtDirectorySync? || fault.NoFault? then during else during + [Cleaned(Last(during), temp, cleanup)]
  }

  function Ending(d: Disk, temp: string, fault: Fault): Outcome {
    if temp in d.visible then NotCommitted
    else match fault
         case NoFault => Durable
         case AtDirectorySync => CommittedNotSynced
         case _ => NotCommitted
  }

  /** `temporary_name`. */
  function TemporaryName(leaf: string, pid: string, uuid: string): string {
    "." + leaf + "." + pid + "." + uuid + ".tmp"
  }

  /** A temporary is hidden, is recognised by its ending, never has the name it will
      replace, and shares its name with no temporary made with another nonce. */
  lemma TemporaryIsAnotherName(leaf: string, pid: string, uuid: string, other: string)
    ensures var t := TemporaryName(leaf, pid, uuid);
            t != leaf && "." <= t && |t| >= 4 && t[|t| - 4..] == ".tmp"
    ensures uuid != other ==> TemporaryName(leaf, pid, uuid) != TemporaryName(leaf, pid, other)
  {
    var t, u := TemporaryName(leaf, pid, uuid), TemporaryName(leaf, pid, other);
    assert |t| > |leaf|;
    var n := |"." + leaf + "." + pid + "."|;
    assert t[n..|t| - 4] == uuid && u[n..|u| - 4] == other;
  }

  /** At every moment a reader sees the old content or all of the new one, and so does
      whoever looks after a power loss, provided the old file had been written durably. */
  lemma AllOrNothing(d: Disk, leaf: string, temp: string, bytes: seq<bv8>, fault: Fault, cleanup: bool, k: nat)
    requires temp != leaf && k < |States(d, leaf, temp, bytes, fault, cleanup)|
    ensures var e := States(d, leaf, temp, bytes, fault, cleanup)[k];
            Look(e.visible, leaf) == Look(d.visible, leaf) || Look(e.visible, leaf) == Some(bytes)
    ensures Settled(d, leaf) ==>
              forall c :: MayRemain(States(d, leaf, temp, bytes, fault, cleanup)[k], leaf, c) ==>
                c == Look(d.visible, leaf) || c == Some(bytes)
  {}

  /** The outcome tells the caller what it may rely on. */
  lemma OutcomeMeans(d: Disk, leaf: string, temp: string, bytes: seq<bv8>, fault: Fault, cleanup: bool)
    requires temp != leaf
    ensures var e := Last(States(d, leaf, temp, bytes, fault, cleanup));
            match Ending(d, temp, fault)
            case Durable => Settled(e, leaf) && (forall c :: MayRemain(e, leaf, c) <==> c == Some(bytes))
            case CommittedNotSynced => Look(e.visible, leaf) == Some(bytes) && e.stable == d.stable
            case NotCommitted =>
              && Look(e.visible, leaf) == Look(d.visible, leaf) && e.stable == d.stable
              && (cleanup && temp !in d.visible ==> e.visible == d.visible)
    ensures temp in d.visible ==> Last(States(d, leaf, temp, bytes, fault, cleanup)) == d
    ensures forall name :: name != leaf && name != temp ==>
              Look(Last(States(d, leaf, temp, bytes, fault, cleanup)).visible, name) == Look(d.visible, name)
  {
    if temp !in d.visible {
      assert forall f :: Show(d, temp, f).visible - {temp} == d.visible;
    }
  }

  lemma ShowAgain(d: Disk, name: string, f: File, g: File)
    ensures Show(Show(d, name, f), name, g) == Show(d, name, g)
  {
    assert d.visible[name := f][name := g] == d.visible[name := g];
  }

  class Folder {
    var disk: Disk
    ghost var seen: seq<Disk>     // every state so far, the present one last

    constructor (initial: Disk)
      ensures disk == initial && seen == [initial]
    {
      disk := initial;
      seen := [initial];
    }

    method Become(next: Disk)
      modifies this
      ensures disk == next && seen == old(seen) + [next]
    {
      disk := next;
      seen := seen + [next];
    }

    /** The closure that fills, syncs and renames the temporary; `d` is the directory before
        the temporary was made. */
    method Attempt(ghost d: Disk, leaf: string, temp: string, bytes: seq<bv8>, fault: Fault)
      returns (ok: bool, committed: bool)
      requires disk == Show(d, temp, File([], false)) && !fault.AtCreate?
      modifies this
      ensures seen == old(seen) + AttemptStates(d, leaf, temp, bytes, fault) && disk == Last(seen)
      ensures ok == fault.NoFault? && committed == (fault.NoFault? || fault.AtDirectorySync?)
    {
      ok, committed := false, false;
      if fault.AtWrite? {
        var n := if fault.written < |bytes| then fault.written else |bytes|;
        ShowAgain(d, temp, File([], false), File(bytes[..n], false));
        Become(Show(disk, temp, File(bytes[..n], false)));
        return;
      }
      ShowAgain(d, temp, File([], false), File(bytes, false));
      Become(Show(disk, temp, File(bytes, false)));
      if fault.AtPermission? || fault.AtFileSync? { return; }
      ShowAgain(d, temp, File(bytes, false), File(bytes, true));
      Become(Show(disk, temp, File(bytes, true)));
      if fault.AtRename? { return; }
      Become(Show(Hide(disk, temp), leaf, File(bytes, true)));
      committed := true;
      if fault.AtDirectorySync? { return; }
      Become(disk.(stable := disk.visible));
      ok := true;
    }

    /** `atomic_write_observed_inner` from the creation of the temporary on. */
    method Replace(leaf: string, temp: string, bytes: seq<bv8>, fault: Fault, cleanup: bool) returns (r: Outcome)
      requires temp != leaf && seen != [] && Last(seen) == disk
      modifies this
      ensures r == Ending(old(disk), temp, fault)
      ensures seen == old(seen) + States(old(disk), leaf, temp, bytes, fault, cleanup)[1..]
      ensures disk == Last(seen)
    {
      if fault.AtCreate? || temp in disk.visible { return NotCommitted; }
      ghost var d := disk;
      hide AttemptStates;
      Become(Show(disk, temp, File([], false)));
      var ok, committed := Attempt(d, leaf, temp, bytes, fault);
      if !ok && !committed { Become(Cleaned(disk, temp, cleanup)); }
      r := if ok then Durable else if committed then CommittedNotSynced else NotCommitted;
    }
  }
}
