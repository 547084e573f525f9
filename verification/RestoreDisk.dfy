/**
 The disk as the restore protocol sees it, and the operations on it that can go wrong.

 Payload entries are prefix-free relative paths, so three maps from entry to content (the live
 root, the payload backup and the staging directory) are a faithful file tree. A plan says, for
 each operation in program order, whether it works, reports a failure, or is where the process
 dies. Everything proved for all plans is proved for every adversary.
 */
module RestoreDisk {
  import opened Common

  type Entry = string

  /** A directory entry that a removal was interrupted in is torn: part of it is gone. */
  datatype Content = Whole(bytes: string) | Torn

  type Tree = map<Entry, Content>

  datatype Phase = Staging | Committing | Done

  datatype Marker = Marker(phase: Phase, rollbackOnly: bool, staged: set<Entry>, originals: set<Entry>)

  datatype Disk = Disk(
    root: Tree,
    backup: Tree,
    staging: Tree,
    backupDir: bool,
    stagingDir: bool,
    marker: Option<Marker>)

  /** What an interrupted removal leaves: entries it did not reach, and entries it tore. */
  datatype Harm = Harm(kept: set<Entry>, torn: set<Entry>)

  /** `applied` says whether a failed or interrupted operation had an effect all the same. */
  datatype Fault = Fine | Fail(applied: bool, harm: Harm) | Crash(applied: bool, harm: Harm)

  datatype Status = Ok | Err | RollbackErr | CommittedErr | Crashed

  /** A process in the middle of its run. Operations do nothing unless the status is Ok. */
  datatype Sys = Sys(disk: Disk, plan: seq<Fault>, status: Status)

  /** The inspections of the staging directory, of the backup and of the live database. */
  datatype Sure = Sure(staging: bool, backup: bool, db: bool)

  /** The restore at hand. The last three fields choose what the adversary and the code may do:
      `coarse` makes the removal of the backup directory one step, `doneFirst` is the variant of
      the recovery that records Done before cleaning up, and `sure` says which of the inspections
      that recovery decides by cannot fail. */
  datatype Restore = Restore(
    entries: seq<Entry>,
    db: Entry,
    before: Tree,
    after: Tree,
    coarse: bool,
    doneFirst: bool,
    sure: Sure)
  {
    ghost predicate Valid() {
      && NoDup(entries)
      && db in entries && db in before && db in after
      && (forall e :: e in before || e in after ==> e in entries)
    }

    function Mark(phase: Phase, rollbackOnly: bool): Marker {
      Marker(phase, rollbackOnly, after.Keys, before.Keys)
    }
  }

  function Head(plan: seq<Fault>): Fault { if plan == [] then Fine else plan[0] }

  function Tail(plan: seq<Fault>): seq<Fault> { if plan == [] then [] else plan[1..] }

  /** A rename: it happens or it does not, and a reported failure means it did not. */
  function Atomic(s: Sys, next: Disk): Sys {
    if s.status != Ok then s
    else match Head(s.plan)
      case Fine => Sys(next, Tail(s.plan), Ok)
      case Fail(_, _) => Sys(s.disk, Tail(s.plan), Err)
      case Crash(applied, _) => Sys(if applied then next else s.disk, Tail(s.plan), Crashed)
  }

  /** A write followed by a flush: a reported failure does not mean that nothing was written. */
  function Flaky(s: Sys, next: Disk): Sys {
    if s.status != Ok then s
    else match Head(s.plan)
      case Fine => Sys(next, Tail(s.plan), Ok)
      case Fail(applied, _) => Sys(if applied then next else s.disk, Tail(s.plan), Err)
      case Crash(applied, _) => Sys(if applied then next else s.disk, Tail(s.plan), Crashed)
  }

  /** An inspection or a directory flush: it can fail but changes nothing. */
  function Probe(s: Sys): Sys { Atomic(s, s.disk) }

  /** What an inspection has seen. One that failed has seen nothing. */
  datatype View = View(s: Sys, seen: bool, failed: bool)

  /** An inspection that recovery decides by; it may fail unless it is sure. */
  function Look(s: Sys, there: bool, sure: bool): View {
    var t := Probe(s);
    if t.status == Err then View(t.(status := Ok), sure && there, !sure) else View(t, there, false)
  }

  /** A recursive removal: `next` if it completes, `partway` of the harm done if it does not. */
  function Removal(s: Sys, next: Disk, partway: Harm -> Disk): Sys {
    if s.status != Ok then s
    else match Head(s.plan)
      case Fine => Sys(next, Tail(s.plan), Ok)
      case Fail(applied, harm) => Sys(if applied then partway(harm) else s.disk, Tail(s.plan), Err)
      case Crash(applied, harm) => Sys(if applied then partway(harm) else s.disk, Tail(s.plan), Crashed)
  }

  function Damage(t: Tree, harm: Harm): Tree {
    map e | e in t && (e in harm.kept || e in harm.torn) :: if e in harm.kept then t[e] else Torn
  }

  function Tear(t: Tree, e: Entry): Tree { if e in t then t[e := Torn] else t }

  /** Moves a live entry aside, creating the backup directory if it is not there. */
  function ToBackup(d: Disk, e: Entry): Disk
    requires e in d.root
  {
    d.(root := d.root - {e}, backup := d.backup[e := d.root[e]], backupDir := true)
  }

  function FromBackup(d: Disk, e: Entry): Disk
    requires e in d.backup
  {
    d.(root := d.root[e := d.backup[e]], backup := d.backup - {e})
  }

  function FromStaging(d: Disk, e: Entry): Disk
    requires e in d.staging
  {
    d.(root := d.root[e := d.staging[e]], staging := d.staging - {e})
  }

  function RemoveTarget(s: Sys, e: Entry): Sys {
    Removal(s, s.disk.(root := s.disk.root - {e}), _ => s.disk.(root := Tear(s.disk.root, e)))
  }

  function RemoveBackup(r: Restore, s: Sys): Sys {
    var gone := s.disk.(backup := map[], backupDir := false);
    Removal(s, gone, harm => if r.coarse then gone else s.disk.(backup := Damage(s.disk.backup, harm)))
  }

  function RemoveStaging(s: Sys): Sys {
    Removal(s, s.disk.(staging := map[], stagingDir := false),
            harm => s.disk.(staging := Damage(s.disk.staging, harm)))
  }

  function SetMarker(s: Sys, m: Option<Marker>): Sys { Flaky(s, s.disk.(marker := m)) }
}
