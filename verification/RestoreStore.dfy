/**
 The restore protocol as the code runs it: loops over the entries that change the disk one
 operation at a time, lists of what has been moved and promoted, early returns. Every method is
 proved to do to the disk exactly what its function in RestoreProtocol says, for every plan of
 failures, so that every theorem about those functions is one about these methods.
 */
module RestoreStore {
  import opened Common
  import opened RestoreDisk
  import P = RestoreProtocol

  class Store {
    const r: Restore
    var disk: Disk
    var plan: seq<Fault>

    constructor (r: Restore, disk: Disk, plan: seq<Fault>)
      ensures this.r == r && this.disk == disk && this.plan == plan
    {
      this.r, this.disk, this.plan := r, disk, plan;
    }

    function Now(status: Status): Sys
      reads this
    {
      Sys(disk, plan, status)
    }

    // ----- one operation

    method Apply(next: Disk) returns (st: Status)
      modifies this
      ensures Now(st) == Atomic(old(Now(Ok)), next)
    {
      var fault := Head(plan);
      plan := Tail(plan);
      match fault {
        case Fine => disk, st := next, Ok;
        case Fail(_, _) => st := Err;
        case Crash(applied, _) =>
          if applied {
            disk := next;
          }
          st := Crashed;
      }
    }

    method Inspect() returns (st: Status)
      modifies this
      ensures Now(st) == Probe(old(Now(Ok)))
    {
      st := Apply(disk);
    }

    method LookAt(there: bool, sure: bool) returns (st: Status, seen: bool, failed: bool)
      modifies this
      ensures View(Now(st), seen, failed) == Look(old(Now(Ok)), there, sure)
      ensures st in {Ok, Crashed}
    {
      st := Inspect();
      seen, failed := there, false;
      if st == Err {
        st, seen, failed := Ok, sure && there, !sure;
      }
    }

    method WriteAndFlush(next: Disk) returns (st: Status)
      modifies this
      ensures Now(st) == Flaky(old(Now(Ok)), next)
    {
      var fault := Head(plan);
      plan := Tail(plan);
      match fault {
        case Fine => disk, st := next, Ok;
        case Fail(applied, _) =>
          if applied {
            disk := next;
          }
          st := Err;
        case Crash(applied, _) =>
          if applied {
            disk := next;
          }
          st := Crashed;
      }
    }

    method WriteMarker(m: Option<Marker>) returns (st: Status)
      modifies this
      ensures Now(st) == SetMarker(old(Now(Ok)), m)
    {
      st := WriteAndFlush(disk.(marker := m));
    }

    method RemoveAll(next: Disk, partway: Harm -> Disk) returns (st: Status)
      modifies this
      ensures Now(st) == Removal(old(Now(Ok)), next, partway)
    {
      var fault := Head(plan);
      plan := Tail(plan);
      match fault {
        case Fine => disk, st := next, Ok;
        case Fail(applied, harm) =>
          if applied {
            disk := partway(harm);
          }
          st := Err;
        case Crash(applied, harm) =>
          if applied {
            disk := partway(harm);
          }
          st := Crashed;
      }
    }

    method ClearTarget(e: Entry) returns (st: Status)
      modifies this
      ensures Now(st) == RemoveTarget(old(Now(Ok)), e)
    {
      var d := disk;
      st := RemoveAll(d.(root := d.root - {e}), _ => d.(root := Tear(d.root, e)));
    }

    method ClearBackup() returns (st: Status)
      modifies this
      ensures Now(st) == RemoveBackup(r, old(Now(Ok)))
    {
      var d := disk;
      var gone, coarse := d.(backup := map[], backupDir := false), r.coarse;
      st := RemoveAll(gone, harm => if coarse then gone else d.(backup := Damage(d.backup, harm)));
    }

    method ClearStaging() returns (st: Status)
      modifies this
      ensures Now(st) == RemoveStaging(old(Now(Ok)))
    {
      var d := disk;
      st := RemoveAll(d.(staging := map[], stagingDir := false), harm => d.(staging := Damage(d.staging, harm)));
    }

    // ----- replacement and its rollback

    /** The first loop of restoreSnapshotContents: a failure is noted and the loop goes on. */
    method RemovePromoted(promoted: seq<Entry>) returns (st: Status, clean: bool)
      modifies this
      ensures P.Undo(Now(st), clean) == P.DropPromoted(P.Undo(old(Now(Ok)), true), promoted)
      ensures st in {Ok, Crashed}
    {
      ghost var start := P.Undo(Now(Ok), true);
      st, clean := Ok, true;
      var i := |promoted|;
      assert promoted[..i] == promoted;
      while i > 0
        invariant 0 <= i <= |promoted| && st == Ok
        invariant P.DropPromoted(P.Undo(Now(Ok), clean), promoted[..i]) == P.DropPromoted(start, promoted)
      {
        i := i - 1;
        assert promoted[..i + 1][..i] == promoted[..i];
        st := ClearTarget(promoted[i]);
        if st == Crashed {
          return;
        }
        clean := clean && st == Ok;
        st := Ok;
      }
    }

    method PutBackOne(e: Entry) returns (st: Status)
      modifies this
      ensures Now(st) == P.PutBackEntry(old(Now(Ok)), e) && st in {Ok, Err, Crashed}
    {
      st := ClearTarget(e);
      if st == Ok {
        if e in disk.backup {
          st := Apply(FromBackup(disk, e));
        } else {
          st := Err;
        }
      }
    }

    /** The second loop of restoreSnapshotContents. */
    method PutBackMoved(moved: seq<Entry>, cleanSoFar: bool) returns (st: Status, clean: bool)
      modifies this
      ensures P.Undo(Now(st), clean) == P.PutBack(P.Undo(old(Now(Ok)), cleanSoFar), moved)
      ensures st in {Ok, Crashed}
    {
      ghost var start := P.Undo(Now(Ok), cleanSoFar);
      st, clean := Ok, cleanSoFar;
      var i := |moved|;
      assert moved[..i] == moved;
      while i > 0
        invariant 0 <= i <= |moved| && st == Ok
        invariant P.PutBack(P.Undo(Now(Ok), clean), moved[..i]) == P.PutBack(start, moved)
      {
        i := i - 1;
        assert moved[..i + 1][..i] == moved[..i];
        ghost var u := P.Undo(Now(Ok), clean);
        st := PutBackOne(moved[i]);
        if st == Err {
          st, clean := Ok, false;
        }
        assert P.Undo(Now(st), clean) == P.Absorb(u, P.PutBackEntry(u.s, moved[i]));
        if st == Crashed {
          return;
        }
      }
    }

    method RestoreSnapshotContents(moved: seq<Entry>, promoted: seq<Entry>) returns (st: Status)
      modifies this
      ensures Now(st) == P.RestoreContents(r, old(Now(Ok)), moved, promoted)
    {
      var clean;
      st, clean := RemovePromoted(promoted);
      if st == Ok {
        st, clean := PutBackMoved(moved, clean);
      }
      if st == Ok {
        st := Inspect();
        if st == Err {
          st, clean := Ok, false;
        }
      }
      if st == Crashed {
        return;
      }
      if !clean {
        st := RollbackErr;
        return;
      }
      st := ClearBackup();
      if st != Crashed {
        st := Err;
      }
    }

    method RollbackSnapshotContents(moved: seq<Entry>, promoted: seq<Entry>, hook: Option<Marker>) returns (st: Status)
      modifies this
      ensures forall failed :: Now(st) == P.Rollback(r, P.Promotion(old(Now(failed)), moved, promoted), hook)
    {
      if hook.Some? {
        st := WriteMarker(hook);
        if st == Crashed {
          return;
        }
        if st == Err {
          st := RollbackErr;
          return;
        }
      }
      st := RestoreSnapshotContents(moved, promoted);
    }

    /** The first loop of replaceContents. */
    method MoveExistingAside() returns (st: Status, moved: seq<Entry>)
      modifies this
      ensures P.Promotion(Now(st), moved, []) == P.MoveAside(P.Promotion(old(Now(Ok)), [], []), r.entries)
    {
      ghost var start := P.Promotion(Now(Ok), [], []);
      st, moved := Ok, [];
      var i := 0;
      while i < |r.entries|
        invariant 0 <= i <= |r.entries| && st == Ok
        invariant P.MoveAside(P.Promotion(Now(Ok), moved, []), r.entries[i..]) == P.MoveAside(start, r.entries)
      {
        ghost var p := P.Promotion(Now(Ok), moved, []);
        var e := r.entries[i];
        var had := e in disk.root;
        st := Apply(if had then ToBackup(disk, e) else disk);
        if st == Ok && had {
          moved := moved + [e];
        }
        assert P.Promotion(Now(st), moved, []) == P.MoveEntry(p, e);
        if st != Ok {
          return;
        }
        i := i + 1;
      }
    }

    /** The second loop of replaceContents. */
    method PromoteStaged(ghost moved: seq<Entry>) returns (st: Status, promoted: seq<Entry>)
      modifies this
      ensures P.Promotion(Now(st), moved, promoted) == P.Promote(P.Promotion(old(Now(Ok)), moved, []), r.entries)
    {
      ghost var start := P.Promotion(Now(Ok), moved, []);
      st, promoted := Ok, [];
      var i := 0;
      while i < |r.entries|
        invariant 0 <= i <= |r.entries| && st == Ok
        invariant P.Promote(P.Promotion(Now(Ok), moved, promoted), r.entries[i..]) == P.Promote(start, r.entries)
      {
        ghost var p := P.Promotion(Now(Ok), moved, promoted);
        var e := r.entries[i];
        var had := e in disk.staging;
        st := Apply(if had then FromStaging(disk, e) else disk);
        if st == Ok && had {
          promoted := promoted + [e];
        }
        assert P.Promotion(Now(st), moved, promoted) == P.PromoteEntry(p, e);
        if st != Ok {
          return;
        }
        i := i + 1;
      }
    }

    method ReplaceContents(hook: Option<Marker>) returns (st: Status)
      modifies this
      ensures Now(st) == P.ReplaceContents(r, old(Now(Ok)), hook)
    {
      st := WriteAndFlush(disk.(backupDir := true));
      if st != Ok {
        return;
      }
      var moved: seq<Entry>, promoted: seq<Entry>;
      st, moved := MoveExistingAside();
      promoted := [];
      if st == Ok {
        st, promoted := PromoteStaged(moved);
      }
      if st == Ok {
        st := Inspect();
      }
      if st == Crashed {
        return;
      }
      if st != Ok {
        st := RollbackSnapshotContents(moved, promoted, hook);
        return;
      }
      st := ClearBackup();
      if st == Ok {
        st := Inspect();
      }
      if st == Err {
        st := CommittedErr;
      }
    }

    // ----- the two recoveries of a replacement

    method CompleteReplacement(staged: set<Entry>) returns (st: Status)
      modifies this
      ensures Now(st) == P.CompleteReplacement(old(Now(Ok)), r.entries, staged)
    {
      ghost var start := Now(Ok);
      var i := 0;
      while i < |r.entries|
        invariant 0 <= i <= |r.entries|
        invariant P.CompleteFrom(Now(Ok), r.entries[i..], staged) == P.CompleteFrom(start, r.entries, staged)
      {
        ghost var before := Now(Ok);
        var e := r.entries[i];
        i := i + 1;
        st := Inspect();
        if st != Ok {
          return;
        }
        var stagedExists, targetExists := e in disk.staging, e in disk.root;
        if targetExists {
          var backupExists := e in disk.backup;
          if !stagedExists && e in staged {
            continue;
          }
          if backupExists {
            st := ClearTarget(e);
          } else {
            st := Apply(ToBackup(disk, e));
          }
          if st != Ok {
            assert Now(st) == P.CompleteEntry(before, e, staged);
            return;
          }
        }
        if !stagedExists {
          assert Now(Ok) == P.CompleteEntry(before, e, staged);
          continue;
        }
        st := Apply(FromStaging(disk, e));
        assert Now(st) == P.CompleteEntry(before, e, staged);
        if st != Ok {
          return;
        }
      }
      st := Inspect();
    }

    method RestoreReplacementBackup(originals: set<Entry>) returns (st: Status)
      modifies this
      ensures Now(st) == P.RestoreBackup(old(Now(Ok)), r.entries, originals)
    {
      ghost var start := Now(Ok);
      var i := |r.entries|;
      assert r.entries[..i] == r.entries;
      while i > 0
        invariant 0 <= i <= |r.entries|
        invariant P.RestoreFrom(Now(Ok), r.entries[..i], originals) == P.RestoreFrom(start, r.entries, originals)
      {
        ghost var before := Now(Ok);
        i := i - 1;
        assert r.entries[..i + 1][..i] == r.entries[..i];
        var e := r.entries[i];
        st := Inspect();
        if st != Ok {
          return;
        }
        var backupExists := e in disk.backup;
        if !backupExists && e in originals {
          continue;
        }
        st := ClearTarget(e);
        if st != Ok {
          assert Now(st) == P.RestoreEntry(before, e, originals);
          return;
        }
        if !backupExists {
          assert Now(Ok) == P.RestoreEntry(before, e, originals);
          continue;
        }
        st := Apply(FromBackup(disk, e));
        assert Now(st) == P.RestoreEntry(before, e, originals);
        if st != Ok {
          return;
        }
      }
      st := Inspect();
    }

    // ----- recovery at start-up

    method RollBackCommitting(m: Marker) returns (st: Status)
      modifies this
      ensures Now(st) == P.RollBackCommitting(r, old(Now(Ok)), m)
    {
      st := RestoreReplacementBackup(m.originals);
      if st != Ok {
        return;
      }
      var live, failed;
      st, live, failed := LookAt(r.db in disk.root, r.sure.db);
      if st == Ok && !live {
        st := Err;
      }
    }

    /** The roll-forward and, without a database, the rollback after it. */
    method RollForwardCommitting(m: Marker) returns (st: Status)
      modifies this
      ensures Now(st) == P.RollForwardCommitting(r, old(Now(Ok)), m)
    {
      st := CompleteReplacement(m.staged);
      if st != Ok {
        return;
      }
      var live, failed;
      st, live, failed := LookAt(r.db in disk.root, r.sure.db);
      if st == Crashed || live {
        return;
      }
      st := RollBackCommitting(m);
    }

    method RecoverCommittingRestore(m: Marker) returns (st: Status)
      modifies this
      ensures Now(st) == P.RecoverCommitting(r, old(Now(Ok)), m)
    {
      if m.rollbackOnly {
        st := RollBackCommitting(m);
        return;
      }
      var live, staging, backup, failed, failed';
      st, staging, failed := LookAt(disk.stagingDir, r.sure.staging);
      if st == Crashed {
        return;
      }
      st, backup, failed' := LookAt(disk.backupDir, r.sure.backup);
      if st == Crashed {
        return;
      }
      if !backup && !staging && !failed {
        st, live, failed' := LookAt(r.db in disk.root, r.sure.db);
        if st == Crashed || live {
          return;
        }
      }
      if staging {
        st := RollForwardCommitting(m);
      } else {
        st := RollBackCommitting(m);
      }
    }

    method CleanupCompletedRestore() returns (st: Status)
      modifies this
      ensures Now(st) == P.Cleanup(r, old(Now(Ok)))
    {
      st := ClearStaging();
      if st == Ok {
        st := Inspect();
      }
      if st == Ok {
        st := ClearBackup();
      }
      if st == Ok {
        st := Inspect();
      }
    }

    method RecoverInterruptedRestore() returns (st: Status)
      modifies this
      ensures Now(st) == P.Recover(r, old(Now(Ok)))
    {
      st := Inspect();
      if disk.marker == None || st != Ok {
        return;
      }
      var m := disk.marker.value;
      match m.phase {
        case Staging =>
          st := ClearStaging();
          if st == Ok {
            st := Inspect();
          }
        case Committing =>
          st := RecoverCommittingRestore(m);
          if st == Ok && r.doneFirst {
            st := WriteMarker(Some(m.(phase := Done)));
          }
          if st == Ok {
            st := CleanupCompletedRestore();
          }
        case Done =>
          st := CleanupCompletedRestore();
      }
      if st == Ok {
        st := WriteMarker(None);
      }
    }

    // ----- the command

    method FinishCommittedRestore(rollbackOnly: bool) returns (st: Status)
      modifies this
      ensures Now(st) == P.Finish(r, old(Now(Ok)), rollbackOnly)
    {
      st := WriteMarker(Some(r.Mark(Done, rollbackOnly)));
      if st == Ok {
        st := CleanupCompletedRestore();
      }
      if st == Ok {
        st := WriteMarker(None);
      }
    }

    method AbortFailedRestorePromotion() returns (st: Status)
      modifies this
      ensures Now(st) == P.Abort(r, old(Now(Ok)))
    {
      st := WriteMarker(Some(r.Mark(Committing, true)));
      if st == Ok {
        st := RestoreReplacementBackup(r.before.Keys);
      }
      if st == Ok {
        st := FinishCommittedRestore(true);
      }
    }

    method RunRestoreDB() returns (st: Status)
      modifies this
      ensures Now(st) == P.Run(r, old(Now(Ok)))
    {
      st := WriteMarker(Some(r.Mark(Staging, false)));
      if st == Err {
        st := ClearStaging();
        if st == Ok {
          st := Inspect();
        }
        if st != Crashed {
          st := Err;
        }
        return;
      }
      if st != Ok {
        return;
      }
      st := WriteMarker(Some(r.Mark(Committing, false)));
      if st != Ok {
        return;
      }
      st := ReplaceContents(Some(r.Mark(Committing, true)));
      match st {
        case Ok =>
          st := FinishCommittedRestore(false);
        case Crashed =>
        case CommittedErr =>
          st := FinishCommittedRestore(false);
          if st != Crashed {
            st := Err;
          }
        case _ =>
          st := AbortFailedRestorePromotion();
          if st != Crashed {
            st := Err;
          }
      }
    }
  }
}
