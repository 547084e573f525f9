/**
 The restore protocol as functions on a running process: the replacement of the live entries, its
 rollback, the two recoveries, and the command and start-up procedure that use them. Module
 RestoreStore has the same protocol as methods that change the disk step by step.
 */
module RestoreProtocol {
  import opened Common
  import opened RestoreDisk

  /** replaceContents in progress, with the entries moved aside and promoted so far. */
  datatype Promotion = Promotion(s: Sys, moved: seq<Entry>, promoted: seq<Entry>)

  /** Entries are noted only once they have been moved. */
  function MoveEntry(p: Promotion, e: Entry): Promotion {
    var had := e in p.s.disk.root;
    var s := Atomic(p.s, if had then ToBackup(p.s.disk, e) else p.s.disk);
    p.(s := s, moved := if had && s.status == Ok then p.moved + [e] else p.moved)
  }

  function MoveAside(p: Promotion, es: seq<Entry>): Promotion
    decreases |es|
  {
    if es == [] || p.s.status != Ok then p else MoveAside(MoveEntry(p, es[0]), es[1..])
  }

  function PromoteEntry(p: Promotion, e: Entry): Promotion {
    var had := e in p.s.disk.staging;
    var s := Atomic(p.s, if had then FromStaging(p.s.disk, e) else p.s.disk);
    p.(s := s, promoted := if had && s.status == Ok then p.promoted + [e] else p.promoted)
  }

  function Promote(p: Promotion, es: seq<Entry>): Promotion
    decreases |es|
  {
    if es == [] || p.s.status != Ok then p else Promote(PromoteEntry(p, es[0]), es[1..])
  }

  /** restoreSnapshotContents in progress: a failed step is noted and the next one is tried. */
  datatype Undo = Undo(s: Sys, clean: bool)

  function Absorb(u: Undo, s: Sys): Undo {
    if s.status == Err then Undo(s.(status := Ok), false) else Undo(s, u.clean)
  }

  function DropPromoted(u: Undo, names: seq<Entry>): Undo
    decreases |names|
  {
    if names == [] || u.s.status != Ok then u
    else
      var n := |names| - 1;
      DropPromoted(Absorb(u, RemoveTarget(u.s, names[n])), names[..n])
  }

  /** Clears one target and renames its backup back; either step may fail and end the attempt. */
  function PutBackEntry(s: Sys, e: Entry): Sys {
    var s1 := RemoveTarget(s, e);
    if s1.status != Ok then s1
    else if e !in s1.disk.backup then s1.(status := Err)
    else Atomic(s1, FromBackup(s1.disk, e))
  }

  function PutBack(u: Undo, names: seq<Entry>): Undo
    decreases |names|
  {
    if names == [] || u.s.status != Ok then u
    else
      var n := |names| - 1;
      PutBack(Absorb(u, PutBackEntry(u.s, names[n])), names[..n])
  }

  /** The outcome of removing the backup after a rollback that was clean; its error is dropped. */
  function DiscardBackup(r: Restore, s: Sys): Sys {
    var s1 := RemoveBackup(r, s);
    if s1.status == Crashed then s1 else s1.(status := Err)
  }

  function RestoreContents(r: Restore, s: Sys, moved: seq<Entry>, promoted: seq<Entry>): Sys {
    var u := PutBack(DropPromoted(Undo(s, true), promoted), moved);
    var v := Absorb(u, Probe(u.s));
    if v.s.status == Crashed then v.s
    else if v.clean then DiscardBackup(r, v.s)
    else v.s.(status := RollbackErr)
  }

  /** rollbackSnapshotContents: the hook, when there is one, must succeed before anything is undone. */
  function Rollback(r: Restore, p: Promotion, hook: Option<Marker>): Sys {
    var s := p.s.(status := Ok);
    var s1 := if hook.Some? then SetMarker(s, hook) else s;
    if s1.status == Crashed then s1
    else if s1.status == Err then s1.(status := RollbackErr)
    else RestoreContents(r, s1, p.moved, p.promoted)
  }

  /** The end of replaceContents: everything so far is flushed and the backup goes, or all of it is
      undone. A failure after the flush is only a clean-up failure. */
  function Settle(r: Restore, p: Promotion, hook: Option<Marker>): Sys {
    var s := Probe(p.s);
    if s.status == Crashed then s
    else if s.status != Ok then Rollback(r, p.(s := s), hook)
    else
      var t := Probe(RemoveBackup(r, s));
      if t.status == Err then t.(status := CommittedErr) else t
  }

  /** Err: rolled back. RollbackErr: the hook or the rollback failed. CommittedErr: only the
      clean-up after the commit failed. */
  function ReplaceContents(r: Restore, s: Sys, hook: Option<Marker>): Sys {
    var s1 := Flaky(s, s.disk.(backupDir := true));
    if s1.status != Ok then s1
    else Settle(r, Promote(MoveAside(Promotion(s1, [], []), r.entries), r.entries), hook)
  }

  /** CompleteReplacement on one entry: an entry already promoted is left alone. */
  function CompleteEntry(s: Sys, e: Entry, staged: set<Entry>): Sys {
    var s0 := Probe(s);
    if s0.status != Ok then s0
    else
      var d := s0.disk;
      if e in d.root && e !in d.staging && e in staged then s0
      else
        var s1 := if e !in d.root then s0
                  else if e in d.backup then RemoveTarget(s0, e)
                  else Atomic(s0, ToBackup(d, e));
        if e !in d.staging || s1.status != Ok then s1
        else Atomic(s1, FromStaging(s1.disk, e))
  }

  function CompleteFrom(s: Sys, es: seq<Entry>, staged: set<Entry>): Sys
    decreases |es|
  {
    if es == [] || s.status != Ok then s
    else CompleteFrom(CompleteEntry(s, es[0], staged), es[1..], staged)
  }

  function CompleteReplacement(s: Sys, es: seq<Entry>, staged: set<Entry>): Sys {
    Probe(CompleteFrom(s, es, staged))
  }

  /** RestoreReplacementBackup on one entry: an original without a backup is left alone. */
  function RestoreEntry(s: Sys, e: Entry, originals: set<Entry>): Sys {
    var s0 := Probe(s);
    if s0.status != Ok then s0
    else
      var backed := e in s0.disk.backup;
      if !backed && e in originals then s0
      else
        var s1 := RemoveTarget(s0, e);
        if !backed || s1.status != Ok then s1
        else Atomic(s1, FromBackup(s1.disk, e))
  }

  function RestoreFrom(s: Sys, es: seq<Entry>, originals: set<Entry>): Sys
    decreases |es|
  {
    if es == [] || s.status != Ok then s
    else
      var n := |es| - 1;
      RestoreFrom(RestoreEntry(s, es[n], originals), es[..n], originals)
  }

  function RestoreBackup(s: Sys, es: seq<Entry>, originals: set<Entry>): Sys {
    Probe(RestoreFrom(s, es, originals))
  }

  /** A rolled-back store must have its database. */
  function RollBackCommitting(r: Restore, s: Sys, m: Marker): Sys {
    var s1 := RestoreBackup(s, r.entries, m.originals);
    if s1.status != Ok then s1
    else
      var db := Look(s1, r.db in s1.disk.root, r.sure.db);
      if db.s.status == Ok && !db.seen then db.s.(status := Err) else db.s
  }

  /** A store that has been rolled forward must have its database, or it is rolled back. */
  function RollForwardCommitting(r: Restore, s: Sys, m: Marker): Sys {
    var s1 := CompleteReplacement(s, r.entries, m.staged);
    if s1.status != Ok then s1
    else
      var db := Look(s1, r.db in s1.disk.root, r.sure.db);
      if db.s.status == Crashed || db.seen then db.s else RollBackCommitting(r, db.s, m)
  }

  /** Neither directory is there: the store is settled if it has its database. */
  function SettleCommitting(r: Restore, s: Sys, m: Marker): Sys {
    var db := Look(s, r.db in s.disk.root, r.sure.db);
    if db.s.status == Crashed || db.seen then db.s else RollBackCommitting(r, db.s, m)
  }

  /** recoverCommittingRestore. A staging directory that cannot be inspected is neither there nor
      missing, which leads to the rollback; a backup or a database that cannot be is not there. */
  function RecoverCommitting(r: Restore, s: Sys, m: Marker): Sys {
    if s.status != Ok then s
    else if m.rollbackOnly then RollBackCommitting(r, s, m)
    else
      var staging := Look(s, s.disk.stagingDir, r.sure.staging);
      var backup := Look(staging.s, s.disk.backupDir, r.sure.backup);
      if backup.s.status == Crashed then backup.s
      else if !backup.seen && !staging.seen && !staging.failed then SettleCommitting(r, backup.s, m)
      else if staging.seen then RollForwardCommitting(r, backup.s, m)
      else RollBackCommitting(r, backup.s, m)
  }

  /** cleanupCompletedRestore: the staging directory first, then the backup. */
  function Cleanup(r: Restore, s: Sys): Sys {
    Probe(RemoveBackup(r, Probe(RemoveStaging(s))))
  }

  /** finishCommittedRestore records Done before it cleans up. */
  function Finish(r: Restore, s: Sys, rollbackOnly: bool): Sys {
    SetMarker(Cleanup(r, SetMarker(s, Some(r.Mark(Done, rollbackOnly)))), None)
  }

  /** recoverInterruptedRestore, which every command runs before it opens the store. */
  function Recover(r: Restore, s: Sys): Sys {
    var s0 := Probe(s);
    match s0.disk.marker
    case None => s0
    case Some(m) =>
      match m.phase
      case Staging => SetMarker(Probe(RemoveStaging(s0)), None)
      case Committing =>
        var s1 := RecoverCommitting(r, s0, m);
        var s2 := if r.doneFirst then SetMarker(s1, Some(m.(phase := Done))) else s1;
        SetMarker(Cleanup(r, s2), None)
      case Done => SetMarker(Cleanup(r, s0), None)
  }

  /** abortFailedRestorePromotion. */
  function Abort(r: Restore, s: Sys): Sys {
    var s1 := SetMarker(s, Some(r.Mark(Committing, true)));
    Finish(r, RestoreBackup(s1, r.entries, r.before.Keys), true)
  }

  /** A command that has already failed reports failure whatever its clean-up does. */
  function Failed(s: Sys): Sys { if s.status == Crashed then s else s.(status := Err) }

  function AfterReplacement(r: Restore, s: Sys): Sys {
    match s.status
    case Ok => Finish(r, s, false)
    case Crashed => s
    case CommittedErr => Failed(Finish(r, s.(status := Ok), false))
    case _ => Failed(Abort(r, s.(status := Ok)))
  }

  /** runRestoreDB once its first marker has been written. */
  function RunFromStaging(r: Restore, s: Sys): Sys {
    var s2 := SetMarker(s, Some(r.Mark(Committing, false)));
    if s2.status != Ok then s2
    else
      AfterReplacement(r, ReplaceContents(r, s2, Some(r.Mark(Committing, true))))
  }

  /** runRestoreDB from the point where the new store has been staged. */
  function Run(r: Restore, s: Sys): Sys {
    var s1 := SetMarker(s, Some(r.Mark(Staging, false)));
    if s1.status == Err then Failed(Probe(RemoveStaging(s1.(status := Ok))))
    else RunFromStaging(r, s1)
  }

  /** A restore, then recoveries one after the other, each with a plan of its own. Whatever a
      process left undone when it died or gave up is where the next one starts. */
  function History(r: Restore, d: Disk, run: seq<Fault>, recoveries: seq<seq<Fault>>): Sys {
    if recoveries == [] then Run(r, Sys(d, run, Ok))
    else
      var n := |recoveries| - 1;
      Recover(r, Sys(History(r, d, run, recoveries[..n]).disk, recoveries[n], Ok))
  }
}
