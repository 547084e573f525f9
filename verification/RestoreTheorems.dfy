/**
 Atomicity of `pc restore-db`: however its run fails or dies, and however often the recoveries
 after it fail or die, the first recovery that succeeds leaves the old store or the new one.
 */
module RestoreTheorems {
  import opened Common
  import opened RestoreDisk
  import opened RestoreProtocol
  import opened RestoreInvariant

  // ----- one run

  lemma {:induction false} CleanupFrame(r: Restore, s: Sys)
    ensures var t := Cleanup(r, s); t.disk.root == s.disk.root && t.disk.marker == s.disk.marker
  {
    StagingRemovalFrame(s);
    BackupRemovalFrame(r, Probe(RemoveStaging(s)));
  }

  lemma {:induction false} StagingRemovalFrame(s: Sys)
    ensures var t := Probe(RemoveStaging(s)); t.disk.root == s.disk.root && t.disk.marker == s.disk.marker
  {}

  lemma {:induction false} BackupRemovalFrame(r: Restore, s: Sys)
    ensures var t := Probe(RemoveBackup(r, s)); t.disk.root == s.disk.root && t.disk.marker == s.disk.marker
  {}

  lemma {:induction false} SameRootSameAnswer(r: Restore, d: Disk, d': Disk)
    requires d'.root == d.root
    ensures AllOld(r, d) == AllOld(r, d') && AllNew(r, d) == AllNew(r, d')
  {
    assert forall e :: IsOld(r, d, e) == IsOld(r, d', e) && IsNew(r, d, e) == IsNew(r, d', e);
  }

  /** The two markers that a uniform store may get: Done, and none. */
  lemma {:induction false} MarkUniform(r: Restore, s: Sys, m: Option<Marker>)
    requires Uniform(r, s.disk) && Reachable(r, s.disk, false)
    requires m == None || exists rb :: m == Some(r.Mark(Done, rb))
    ensures var t := SetMarker(s, m);
      && Uniform(r, t.disk) && Reachable(r, t.disk, false) && t.disk.root == s.disk.root
      && (t.status == Ok ==> t.disk.marker == m)
  {
    SameRootSameAnswer(r, s.disk, s.disk.(marker := m));
  }

  lemma {:induction false} CleanupUniform(r: Restore, s: Sys)
    requires Uniform(r, s.disk) && Reachable(r, s.disk, false)
    requires s.status == Ok ==> s.disk.marker.Some? && s.disk.marker.value.phase == Done
    ensures var t := Cleanup(r, s);
      Uniform(r, t.disk) && Reachable(r, t.disk, false) && t.disk.root == s.disk.root
  {
    CleanupFrame(r, s);
    SameRootSameAnswer(r, s.disk, Cleanup(r, s).disk);
    assert s.status != Ok ==> Cleanup(r, s) == s;
  }

  lemma {:induction false} FinishKeeps(r: Restore, s: Sys, rollbackOnly: bool)
    requires Uniform(r, s.disk) && Reachable(r, s.disk, false)
    ensures var t := Finish(r, s, rollbackOnly);
      && Reachable(r, t.disk, false) && t.disk.root == s.disk.root
      && (t.status == Ok ==> t.disk.marker == None)
  {
    var m := Some(r.Mark(Done, rollbackOnly));
    var s1 := SetMarker(s, m);
    MarkUniform(r, s, m);
    CleanupUniform(r, s1);
    MarkUniform(r, Cleanup(r, s1), None);
  }

  lemma {:induction false} AbortKeeps(r: Restore, s: Sys)
    requires r.Valid() && s.status == Ok && Reachable(r, s.disk, false) && Undoable(r, s.disk)
    ensures Reachable(r, Abort(r, s).disk, false)
  {
    var s1 := SetMarker(s, Some(r.Mark(Committing, true)));
    if s1.status == Ok {
      UndoableFrame(r, s.disk, s1.disk);
      AbortMarked(r, s1);
    } else {
      NoRestoreAfterFailure(r, s1);
      NoFinishAfterFailure(r, s1, true);
    }
  }

  lemma {:induction false} AbortMarked(r: Restore, s: Sys)
    requires s.disk.marker == Some(r.Mark(Committing, true)) && Undoable(r, s.disk)
    ensures Reachable(r, Finish(r, RestoreBackup(s, r.entries, r.before.Keys), true).disk, false)
  {
    RestoreKeeps(r, s);
    var t := RestoreBackup(s, r.entries, r.before.Keys);
    if t.status == Ok {
      FinishKeeps(r, t, true);
    } else {
      NoFinishAfterFailure(r, t, true);
    }
  }

  lemma {:induction false} NoRestoreAfterFailure(r: Restore, s: Sys)
    requires s.status != Ok
    ensures RestoreBackup(s, r.entries, r.before.Keys) == s
  {}

  lemma {:induction false} NoFinishAfterFailure(r: Restore, s: Sys, rollbackOnly: bool)
    requires s.status != Ok
    ensures Finish(r, s, rollbackOnly) == s
  {
    NothingAfterFailure(r, s);
  }

  lemma {:induction false} UndoableFrame(r: Restore, d: Disk, d': Disk)
    requires Undoable(r, d) && d'.root == d.root && d'.backup == d.backup
    ensures Undoable(r, d')
  {
    forall e | e in r.entries ensures EntryUndoable(r, d', e) {
      assert EntryUndoable(r, d, e);
    }
  }

  /** What follows the replacement, by its outcome. */
  lemma {:induction false} CommitEnds(r: Restore, s: Sys)
    requires Landed(r, s.disk) && Reachable(r, s.disk, false)
    ensures var t := Finish(r, s.(status := Ok), false);
      && Reachable(r, t.disk, false)
      && (t.status == Ok ==> AllNew(r, t.disk) && t.disk.marker == None)
  {
    FinishKeeps(r, s.(status := Ok), false);
    SameRootSameAnswer(r, s.disk, Finish(r, s.(status := Ok), false).disk);
  }

  lemma {:induction false} StaysFailed(s: Sys)
    ensures Failed(s).disk == s.disk && Failed(s).status != Ok
  {}

  lemma {:induction false} ReplacementEnds(r: Restore, s: Sys)
    requires r.Valid() && Reachable(r, s.disk, false)
    requires s.status in {Ok, CommittedErr} ==> Landed(r, s.disk)
    requires s.status in {Err, RollbackErr} ==> Undoable(r, s.disk)
    ensures var t := AfterReplacement(r, s);
      && Reachable(r, t.disk, false)
      && (t.status == Ok ==> AllNew(r, t.disk) && t.disk.marker == None)
  {
    match s.status
    case Ok => CommitEnds(r, s);
    case CommittedErr =>
      CommitEnds(r, s);
      StaysFailed(Finish(r, s.(status := Ok), false));
    case Crashed =>
    case _ =>
      AbortKeeps(r, s.(status := Ok));
      StaysFailed(Abort(r, s.(status := Ok)));
  }

  lemma {:induction false} RunCommits(r: Restore, s1: Sys)
    requires r.Valid() && s1.status in {Ok, Crashed} && s1.disk.stagingDir && Reachable(r, s1.disk, false)
    requires s1.status == Ok ==> s1.disk.marker == Some(r.Mark(Staging, false))
    requires forall e :: e in r.entries ==> NotStarted(r, s1.disk, e)
    ensures var t := RunFromStaging(r, s1);
      && Reachable(r, t.disk, false)
      && (t.status == Ok ==> AllNew(r, t.disk) && t.disk.marker == None)
  {
    var s2 := SetMarker(s1, Some(r.Mark(Committing, false)));
    forall e | e in r.entries ensures NotStarted(r, s2.disk, e) && IsOld(r, s2.disk, e) {
      assert NotStarted(r, s1.disk, e);
    }
    if s2.status == Ok {
      ReplaceKeeps(r, s2, Some(r.Mark(Committing, true)));
      ReplacementEnds(r, ReplaceContents(r, s2, Some(r.Mark(Committing, true))));
    }
  }

  lemma {:induction false} FirstMarker(r: Restore, s: Sys)
    requires Staged(r, s.disk) && s.status == Ok
    ensures var t := SetMarker(s, Some(r.Mark(Staging, false)));
      && t.disk.stagingDir && Reachable(r, t.disk, false) && AllOld(r, t.disk)
      && (forall e :: e in r.entries ==> NotStarted(r, t.disk, e))
      && t.status in {Ok, Err, Crashed}
      && (t.status == Ok ==> t.disk.marker == Some(r.Mark(Staging, false)))
      && (t.disk.marker.Some? ==> t.disk.marker == Some(r.Mark(Staging, false)))
  {
    var t := SetMarker(s, Some(r.Mark(Staging, false)));
    forall e | e in r.entries ensures NotStarted(r, t.disk, e) && IsOld(r, t.disk, e) {
      assert NotStarted(r, s.disk, e);
    }
  }

  /** Giving up before the first marker removes the staging directory and leaves the store alone. */
  lemma {:induction false} GiveUp(r: Restore, s: Sys)
    requires AllOld(r, s.disk) && Reachable(r, s.disk, false)
    requires s.disk.marker.Some? ==> s.disk.marker.value.phase == Staging
    ensures Reachable(r, Probe(RemoveStaging(s)).disk, false)
  {
    SameRootSameAnswer(r, s.disk, Probe(RemoveStaging(s)).disk);
  }

  /** Wherever runRestoreDB fails or dies, even inside the removal of a directory, it leaves a state
      that recovery can handle; if it succeeds the store is the new one. */
  lemma {:induction false} RunKeeps(r: Restore, d: Disk, plan: seq<Fault>)
    requires r.Valid() && Staged(r, d)
    ensures var t := Run(r, Sys(d, plan, Ok));
      && Reachable(r, t.disk, false)
      && (t.status == Ok ==> AllNew(r, t.disk) && t.disk.marker == None)
  {
    var s1 := SetMarker(Sys(d, plan, Ok), Some(r.Mark(Staging, false)));
    FirstMarker(r, Sys(d, plan, Ok));
    if s1.status == Err {
      GiveUp(r, s1.(status := Ok));
    } else {
      RunCommits(r, s1);
    }
  }

  // ----- recovery

  /** What a successful RecoverCommitting hands to the clean-up. */
  ghost predicate Settled(r: Restore, d: Disk, m: Marker) {
    && d.marker == Some(m)
    && if m.rollbackOnly then AllOld(r, d) && NoneBacked(r, d)
       else (d.stagingDir && Landed(r, d)) || (Gap(r, d) && Uniform(r, d))
  }

  ghost predicate CommittingMarker(r: Restore, m: Marker) {
    m.phase == Committing && m.staged == r.after.Keys && m.originals == r.before.Keys
  }

  lemma {:induction false} RollBackKeeps(r: Restore, s: Sys, m: Marker)
    requires r.Valid() && Undoable(r, s.disk) && CommittingMarker(r, m)
    ensures var t := RollBackCommitting(r, s, m);
      && Undoable(r, t.disk) && SameFrame(s.disk, t.disk)
      && (t.status == Ok ==> AllOld(r, t.disk) && NoneBacked(r, t.disk))
  {
    RestoreKeeps(r, s);
  }

  /** Rolling forward is never entered once the rollback has begun, and finds the database. */
  lemma {:induction false} RollForwardKeeps(r: Restore, s: Sys, m: Marker)
    requires r.Valid() && Rolling(r, s.disk) && CommittingMarker(r, m)
    ensures var t := CompleteReplacement(s, r.entries, m.staged);
      && Rolling(r, t.disk) && t.disk.marker == s.disk.marker
      && (t.status == Ok ==> Landed(r, t.disk) && r.db in t.disk.root)
  {
    CompleteKeeps(r, s);
    var t := CompleteReplacement(s, r.entries, m.staged);
    if t.status == Ok {
      assert IsNew(r, t.disk, r.db);
    }
  }

  lemma {:induction false} RollForwardSettles(r: Restore, s: Sys, m: Marker)
    requires r.Valid() && r.sure.db && Rolling(r, s.disk) && CommittingMarker(r, m) && s.disk.marker == Some(m)
    requires !m.rollbackOnly
    ensures var t := RollForwardCommitting(r, s, m);
      && Rolling(r, t.disk) && t.disk.marker == Some(m)
      && (t.status == Ok ==> Settled(r, t.disk, m))
  {
    RollForwardKeeps(r, s, m);
  }

  lemma {:induction false} SettledAlready(r: Restore, s: Sys, m: Marker)
    requires r.Valid() && r.sure.db && Gap(r, s.disk) && !s.disk.backupDir && s.disk.marker == Some(m)
    requires s.status == Ok
    ensures var t := SettleCommitting(r, s, m); t.disk == s.disk && t.status in {Ok, Crashed}
  {
    assert IsOld(r, s.disk, r.db) || IsNew(r, s.disk, r.db);
  }

  /** Two inspections change nothing. */
  lemma {:induction false} LookingOnly(s: Sys, a: bool, b: bool, sure: bool, sure': bool)
    requires s.status == Ok
    ensures var v := Look(s, a, sure);
      var w := Look(v.s, b, sure');
      && w.s.disk == s.disk && w.s.status in {Ok, Crashed}
      && (sure ==> v.seen == a && !v.failed) && (sure' ==> w.seen == b)
  {}

  /** What recovery keeps: it needs to be sure of the staging directory and of the database, and,
      where an earlier recovery has removed the staging directory already, of the backup. */
  lemma {:induction false} RecoverCommittingKeeps(r: Restore, s: Sys, m: Marker)
    requires r.Valid() && r.sure.staging && r.sure.db && CommittingMarker(r, m)
    requires s.disk.marker == Some(m) && Reachable(r, s.disk, r.sure.backup)
    ensures var t := RecoverCommitting(r, s, m);
      && Reachable(r, t.disk, r.sure.backup) && t.disk.marker == Some(m)
      && (t.status == Ok ==> Settled(r, t.disk, m))
  {
    if s.status == Ok {
      if m.rollbackOnly {
        RollBackKeeps(r, s, m);
      } else {
        LookingOnly(s, s.disk.stagingDir, s.disk.backupDir, r.sure.staging, r.sure.backup);
        var s1 := Look(Look(s, s.disk.stagingDir, r.sure.staging).s, s.disk.backupDir, r.sure.backup).s;
        if s1.status == Ok {
          if s.disk.stagingDir {
            RollForwardSettles(r, s1, m);
          } else if s.disk.backupDir {
            RollBackKeeps(r, s1, m);
          } else {
            SettledAlready(r, s1, m);
          }
        }
      }
    }
  }

  /** A settled store keeps settled when the staging directory loses entries or goes. */
  lemma {:induction false} StagingShrinks(r: Restore, d: Disk, d': Disk, m: Marker)
    requires Settled(r, d, m) && r.coarse && !r.doneFirst
    requires d' == d.(staging := d'.staging, stagingDir := d'.stagingDir)
    requires d'.staging.Keys <= d.staging.Keys && (d'.stagingDir ==> d.stagingDir)
    ensures Settled(r, d', m)
  {
    SameRootSameAnswer(r, d, d');
    if !m.rollbackOnly && (d.backupDir ==> Undoable(r, d)) {
      if d.backupDir {
        UndoableFrame(r, d, d');
      }
    }
    if d'.stagingDir && NoneStaged(r, d) {
      assert forall e :: e in r.entries ==> e !in d.staging && e !in d'.staging;
    }
  }

  /** The removal of the staging directory from a settled store. */
  lemma {:induction false} RemoveStagingSettled(r: Restore, s: Sys, m: Marker)
    requires Settled(r, s.disk, m) && r.coarse && !r.doneFirst
    ensures var t := Probe(RemoveStaging(s));
      && Settled(r, t.disk, m) && (t.status == Ok ==> !t.disk.stagingDir)
  {
    StagingShrinks(r, s.disk, Probe(RemoveStaging(s)).disk, m);
  }

  lemma {:induction false} SettledIsReachable(r: Restore, d: Disk, m: Marker)
    requires CommittingMarker(r, m) && Settled(r, d, m)
    ensures Uniform(r, d) && Reachable(r, d, true)
  {
    if m.rollbackOnly {
      forall e | e in r.entries ensures EntryUndoable(r, d, e) {
        assert IsOld(r, d, e) && e !in d.backup;
      }
    }
  }

  /** The removal of the backup, in one step, once the staging directory has gone. */
  lemma {:induction false} RemoveBackupSettled(r: Restore, s: Sys, m: Marker)
    requires CommittingMarker(r, m) && Settled(r, s.disk, m) && r.coarse && !r.doneFirst
    requires s.status == Ok ==> !s.disk.stagingDir
    ensures var t := Probe(RemoveBackup(r, s));
      && Settled(r, t.disk, m) && t.disk.root == s.disk.root
  {
    var t := Probe(RemoveBackup(r, s));
    SameRootSameAnswer(r, s.disk, t.disk);
  }

  lemma {:induction false} CleanupSettled(r: Restore, s: Sys, m: Marker)
    requires CommittingMarker(r, m) && r.coarse && !r.doneFirst
    requires s.disk.marker == Some(m) && Reachable(r, s.disk, true)
    requires s.status == Ok ==> Settled(r, s.disk, m)
    ensures var t := SetMarker(Cleanup(r, s), None);
      && Reachable(r, t.disk, true)
      && (t.status == Ok ==> Uniform(r, t.disk) && t.disk.marker == None)
  {
    if s.status == Ok {
      RemoveStagingSettled(r, s, m);
      var s1 := Probe(RemoveStaging(s));
      RemoveBackupSettled(r, s1, m);
      var s2 := Probe(RemoveBackup(r, s1));
      SettledIsReachable(r, s2.disk, m);
      SameRootSameAnswer(r, s2.disk, s2.disk.(marker := None));
    }
  }

  lemma {:induction false} DoneMarked(r: Restore, s: Sys, m: Marker)
    requires CommittingMarker(r, m) && Uniform(r, s.disk) && Reachable(r, s.disk, true) && s.status == Ok
    ensures var t := SetMarker(s, Some(m.(phase := Done)));
      && Reachable(r, t.disk, true)
      && (t.status == Ok ==>
            && Uniform(r, t.disk) && Reachable(r, t.disk, false)
            && t.disk.marker.Some? && t.disk.marker.value.phase == Done)
  {
    SameRootSameAnswer(r, s.disk, s.disk.(marker := Some(m.(phase := Done))));
  }

  /** The variant that records Done first: from then on the store is uniform and stays so. */
  lemma {:induction false} DoneThenCleanup(r: Restore, s: Sys, m: Marker)
    requires CommittingMarker(r, m)
    requires s.disk.marker == Some(m) && Reachable(r, s.disk, true)
    requires s.status == Ok ==> Uniform(r, s.disk)
    ensures var t := SetMarker(Cleanup(r, SetMarker(s, Some(m.(phase := Done)))), None);
      && Reachable(r, t.disk, true)
      && (t.status == Ok ==> Uniform(r, t.disk) && t.disk.marker == None)
  {
    var s1 := SetMarker(s, Some(m.(phase := Done)));
    if s.status != Ok {
      NothingAfterFailure(r, s);
    } else {
      DoneMarked(r, s, m);
      if s1.status == Ok {
        CleanupUniform(r, s1);
        MarkUniform(r, Cleanup(r, s1), None);
      } else {
        NothingAfterFailure(r, s1);
      }
    }
  }

  /** After a failure the rest of a recovery does nothing. */
  lemma {:induction false} NothingAfterFailure(r: Restore, s: Sys)
    requires s.status != Ok
    ensures SetMarker(Cleanup(r, s), None) == s
    ensures forall m :: SetMarker(s, m) == s
  {}

  /** A recovery that cannot read the marker does nothing. */
  lemma {:induction false} UnreadMarker(r: Restore, d: Disk, plan: seq<Fault>)
    requires Probe(Sys(d, plan, Ok)).status != Ok
    ensures Recover(r, Sys(d, plan, Ok)).disk == d
  {
    var s0 := Probe(Sys(d, plan, Ok));
    NothingAfterFailure(r, s0);
    assert Probe(RemoveStaging(s0)) == s0;
  }

  lemma {:induction false} StagingAbandoned(r: Restore, s: Sys)
    requires AllOld(r, s.disk) && Reachable(r, s.disk, false)
    requires s.disk.marker.Some? && s.disk.marker.value.phase == Staging
    ensures var t := SetMarker(Probe(RemoveStaging(s)), None);
      && Reachable(r, t.disk, true)
      && (t.status == Ok ==> Uniform(r, t.disk) && t.disk.marker == None)
  {
    var s1 := Probe(RemoveStaging(s));
    StagingGone(r, s);
    SameRootSameAnswer(r, s1.disk, s1.disk.(marker := None));
  }

  lemma {:induction false} StagingGone(r: Restore, s: Sys)
    requires AllOld(r, s.disk) && Reachable(r, s.disk, false)
    requires s.disk.marker.Some? && s.disk.marker.value.phase == Staging
    ensures var t := Probe(RemoveStaging(s));
      AllOld(r, t.disk) && Reachable(r, t.disk, true) && t.disk.marker == s.disk.marker && t.disk.root == s.disk.root
  {
    SameRootSameAnswer(r, s.disk, Probe(RemoveStaging(s)).disk);
  }

  /** What recovery needs to be safe through any number of deaths: to be sure of the staging directory
      and of the database and, unless Done comes first, of the backup, which has to go in one step. */
  ghost predicate Careful(r: Restore) {
    r.sure.staging && r.sure.db && (r.doneFirst || (r.coarse && r.sure.backup))
  }

  /** Only recoveries that do not record Done first leave a gap. */
  lemma {:induction false} GapIsMinded(r: Restore, d: Disk)
    requires Careful(r)
    ensures Reachable(r, d, true) == Reachable(r, d, r.sure.backup)
  {}

  /** A recovery, however it fails or dies, leaves a state that the next recovery can handle; if it
      succeeds the store is uniform. */
  lemma {:induction false} RecoverKeeps(r: Restore, d: Disk, plan: seq<Fault>)
    requires r.Valid() && Careful(r) && Reachable(r, d, true)
    ensures var t := Recover(r, Sys(d, plan, Ok));
      && Reachable(r, t.disk, true)
      && (t.status == Ok ==> Uniform(r, t.disk) && t.disk.marker == None)
  {
    var s0 := Probe(Sys(d, plan, Ok));
    match d.marker
    case None =>
    case Some(m) =>
      match m.phase {
        case Staging => StagingAbandoned(r, s0);
        case Done =>
          CleanupUniform(r, s0);
          MarkUniform(r, Cleanup(r, s0), None);
        case Committing =>
          GapIsMinded(r, d);
          RecoverCommittingKeeps(r, s0, m);
          var s1 := RecoverCommitting(r, s0, m);
          GapIsMinded(r, s1.disk);
          if s1.status == Ok {
            SettledIsReachable(r, s1.disk, m);
          }
          if r.doneFirst {
            DoneThenCleanup(r, s1, m);
          } else {
            CleanupSettled(r, s1, m);
          }
      }
  }

  lemma {:induction false} HistoryKeeps(r: Restore, d: Disk, run: seq<Fault>, recoveries: seq<seq<Fault>>)
    requires r.Valid() && Careful(r) && Staged(r, d)
    ensures Reachable(r, History(r, d, run, recoveries).disk, true)
    decreases |recoveries|
  {
    RunKeeps(r, d, run);
    if recoveries != [] {
      var n := |recoveries| - 1;
      HistoryKeeps(r, d, run, recoveries[..n]);
      RecoverKeeps(r, History(r, d, run, recoveries[..n]).disk, recoveries[n]);
    }
  }

  /** Many-crash atomicity. A restore runs, with failures and a death anywhere, and any number of
      recoveries follow, each with failures and a death anywhere; once one of them succeeds the
      store is the old one or the new one and no marker is left. It holds of the code when the
      backup directory goes in one step and no inspection fails, and of the variant that records Done
      first when those of the staging directory and the database do not. */
  lemma {:induction false} ManyCrashAtomicity(r: Restore, d: Disk, run: seq<Fault>, recoveries: seq<seq<Fault>>)
    requires r.Valid() && Careful(r) && Staged(r, d)
    ensures var t := History(r, d, run, recoveries);
      t.status == Ok ==> Uniform(r, t.disk) && t.disk.marker == None
  {
    RunKeeps(r, d, run);
    if recoveries != [] {
      var n := |recoveries| - 1;
      HistoryKeeps(r, d, run, recoveries[..n]);
      RecoverKeeps(r, History(r, d, run, recoveries[..n]).disk, recoveries[n]);
    }
  }

  /** One-crash atomicity of the code as it is, with every removal split into entries and torn
      content: a restore that fails or dies anywhere, then one recovery that succeeds. */
  lemma {:induction false} OneCrashAtomicity(r: Restore, d: Disk, run: seq<Fault>, recovery: seq<Fault>)
    requires r.Valid() && r.sure.staging && r.sure.db && Staged(r, d)
    ensures var t := Recover(r, Sys(Run(r, Sys(d, run, Ok)).disk, recovery, Ok));
      t.status == Ok ==> Uniform(r, t.disk) && t.disk.marker == None
  {
    RunKeeps(r, d, run);
    FirstRecovery(r, Run(r, Sys(d, run, Ok)).disk, recovery);
  }

  lemma {:induction false} FirstRecovery(r: Restore, d: Disk, plan: seq<Fault>)
    requires r.Valid() && r.sure.staging && r.sure.db && Reachable(r, d, false)
    ensures var t := Recover(r, Sys(d, plan, Ok));
      t.status == Ok ==> Uniform(r, t.disk) && t.disk.marker == None
  {
    var s0 := Probe(Sys(d, plan, Ok));
    match d.marker
    case None =>
    case Some(m) =>
      match m.phase {
        case Staging => StagingAbandoned(r, s0);
        case Done => SucceedsUniform(r, s0);
        case Committing => FirstRecoveryCommitting(r, s0, m);
      }
  }

  lemma {:induction false} FirstRecoveryCommitting(r: Restore, s: Sys, m: Marker)
    requires r.Valid() && r.sure.staging && r.sure.db && CommittingMarker(r, m)
    requires s.disk.marker == Some(m) && Reachable(r, s.disk, false)
    ensures var s1 := RecoverCommitting(r, s, m);
      var s2 := if r.doneFirst then SetMarker(s1, Some(m.(phase := Done))) else s1;
      var t := SetMarker(Cleanup(r, s2), None);
      t.status == Ok ==> Uniform(r, t.disk) && t.disk.marker == None
  {
    RecoverCommittingKeeps(r, s, m);
    var s1 := RecoverCommitting(r, s, m);
    if s1.status == Ok {
      SettledIsReachable(r, s1.disk, m);
    }
    CommittedEnds(r, s1, m);
  }

  lemma {:induction false} CommittedEnds(r: Restore, s: Sys, m: Marker)
    requires s.status == Ok ==> Uniform(r, s.disk)
    ensures var s1 := if r.doneFirst then SetMarker(s, Some(m.(phase := Done))) else s;
      var t := SetMarker(Cleanup(r, s1), None);
      t.status == Ok ==> Uniform(r, t.disk) && t.disk.marker == None
  {
    var s1 := if r.doneFirst then SetMarker(s, Some(m.(phase := Done))) else s;
    if s.status == Ok {
      SameRootSameAnswer(r, s.disk, s1.disk);
      SucceedsUniform(r, s1);
    } else {
      NothingAfterFailure(r, s);
    }
  }

  /** A clean-up that succeeds has not touched the live root. */
  lemma {:induction false} SucceedsUniform(r: Restore, s: Sys)
    requires Uniform(r, s.disk)
    ensures var t := SetMarker(Cleanup(r, s), None);
      t.status == Ok ==> Uniform(r, t.disk) && t.disk.marker == None
  {
    CleanupFrame(r, s);
    SameRootSameAnswer(r, s.disk, SetMarker(Cleanup(r, s), None).disk);
  }

  // ----- what the separate procedures promise

  /** ReplaceContents classifies its outcome: success, or a failure of the clean-up only, means that
      the root is the staged set; a failure that was rolled back means that it is as it was; and
      whatever else goes wrong every old entry is still in the root or in the backup. */
  lemma {:induction false} ReplaceContentsOutcome(r: Restore, d: Disk, plan: seq<Fault>, hook: Option<Marker>)
    requires r.Valid() && Staged(r, d)
    ensures var t := ReplaceContents(r, Sys(d, plan, Ok), hook);
      && (t.status in {Ok, CommittedErr} ==> AllNew(r, t.disk))
      && (t.status == Err ==> AllOld(r, t.disk))
      && (t.status == RollbackErr ==> Undoable(r, t.disk))
  {
    ReplaceKeeps(r, Sys(d, plan, Ok), hook);
  }

  /** CompleteReplacement from any mix of stages, however it fails or dies, leaves such a mix again;
      if it succeeds the root is the staged set. */
  lemma {:induction false} CompleteReplacementFromAnyMix(r: Restore, s: Sys)
    requires r.Valid() && s.disk.stagingDir && Forward(r, s.disk)
    ensures var t := CompleteReplacement(s, r.entries, r.after.Keys);
      && Rolling(r, t.disk)
      && (t.status == Ok ==> AllNew(r, t.disk) && NoneStaged(r, t.disk))
  {
    CompleteKeeps(r, s);
  }

  /** Once everything is promoted another CompleteReplacement changes nothing. */
  lemma {:induction false} CompleteReplacementIdempotent(r: Restore, s: Sys, es: seq<Entry>)
    requires AllNew(r, s.disk) && NoneStaged(r, s.disk)
    requires forall e :: e in es ==> e in r.entries
    ensures CompleteReplacement(s, es, r.after.Keys).disk == s.disk
    decreases |es|
  {
    if es != [] && s.status == Ok {
      assert IsNew(r, s.disk, es[0]) && es[0] !in s.disk.staging;
      CompleteReplacementIdempotent(r, CompleteEntry(s, es[0], r.after.Keys), es[1..]);
    }
  }

  /** Where roll-forward is entered its branch that removes a live target cannot be taken. */
  lemma {:induction false} LiveTargetNeverRemoved(r: Restore, d: Disk, e: Entry)
    requires Rolling(r, d) && e in r.entries
    ensures !(e in d.root && e in d.backup && !(e !in d.staging && e in r.after))
  {
    assert Forward(r, d) ==> OnTheWay(r, d, e);
    assert AllNew(r, d) ==> IsNew(r, d, e);
  }

  /** Rollback from any undoable mix, with torn targets, keeps it undoable and ends with the old
      store: every new-only entry gone, every original back. */
  lemma {:induction false} RestoreBackupFromAnyMix(r: Restore, s: Sys)
    requires Undoable(r, s.disk)
    ensures var t := RestoreBackup(s, r.entries, r.before.Keys);
      && Undoable(r, t.disk)
      && (t.status == Ok ==> AllOld(r, t.disk) && NoneBacked(r, t.disk))
  {
    RestoreKeeps(r, s);
  }

  lemma {:induction false} RestoreFromIdempotent(r: Restore, s: Sys, es: seq<Entry>)
    requires AllOld(r, s.disk) && NoneBacked(r, s.disk)
    requires forall e :: e in es ==> e in r.entries
    ensures RestoreFrom(s, es, r.before.Keys).disk == s.disk
    decreases |es|
  {
    if es != [] && s.status == Ok {
      var n := |es| - 1;
      assert IsOld(r, s.disk, es[n]) && es[n] !in s.disk.backup;
      RestoreFromIdempotent(r, RestoreEntry(s, es[n], r.before.Keys), es[..n]);
    }
  }

  /** Once the old store is back another roll-back changes nothing, whatever fails in it. */
  lemma {:induction false} RestoreBackupIdempotent(r: Restore, s: Sys)
    requires AllOld(r, s.disk) && NoneBacked(r, s.disk)
    ensures RestoreBackup(s, r.entries, r.before.Keys).disk == s.disk
  {
    RestoreFromIdempotent(r, s, r.entries);
  }

  /** The old content of the entry is in one place only: in the backup or live. */
  ghost predicate OnePlace(r: Restore, d: Disk, e: Entry) {
    e in r.before ==>
      if e in d.backup then At(d.backup, e) == At(r.before, e) && !IsOld(r, d, e) else IsOld(r, d, e)
  }

  /** So it is at every stage of a replacement that changes the entry. */
  lemma {:induction false} ForwardHasOnePlace(r: Restore, d: Disk, e: Entry)
    requires Forward(r, d) && e in r.entries && At(r.after, e) != At(r.before, e)
    ensures OnePlace(r, d, e)
  {
    assert OnTheWay(r, d, e);
  }

  lemma {:induction false} RestoreEntryOnePlace(r: Restore, s: Sys, e: Entry)
    requires OnePlace(r, s.disk, e) && At(r.before, e) != Some(Torn)
    ensures OnePlace(r, RestoreEntry(s, e, r.before.Keys).disk, e)
  {
    if e in r.before && e in s.disk.backup {
      var s1 := RemoveTarget(Probe(s), e);
      assert s1.disk.backup == s.disk.backup && !IsOld(r, s1.disk, e);
    }
  }

  lemma {:induction false} RestoreFromOnePlace(r: Restore, s: Sys, es: seq<Entry>, x: Entry)
    requires Undoable(r, s.disk) && OnePlace(r, s.disk, x) && At(r.before, x) != Some(Torn)
    requires forall e :: e in es ==> e in r.entries
    ensures OnePlace(r, RestoreFrom(s, es, r.before.Keys).disk, x)
    decreases |es|
  {
    if es != [] && s.status == Ok {
      var e := es[|es| - 1];
      var s1 := RestoreEntry(s, e, r.before.Keys);
      assert EntryUndoable(r, s.disk, e);
      RestoreEntryStep(r, s, e);
      UndoableStays(r, s.disk, s1.disk, e);
      if x == e {
        RestoreEntryOnePlace(r, s, e);
      }
      RestoreFromOnePlace(r, s1, es[..|es| - 1], x);
    }
  }

  /** And roll-back, however it fails or dies, never has it in both or in neither. */
  lemma {:induction false} RestoreBackupOnePlace(r: Restore, s: Sys, x: Entry)
    requires Undoable(r, s.disk) && OnePlace(r, s.disk, x) && At(r.before, x) != Some(Torn)
    ensures OnePlace(r, RestoreBackup(s, r.entries, r.before.Keys).disk, x)
  {
    RestoreFromOnePlace(r, s, r.entries, x);
  }

  /** Roll-forward never follows destruction: in a state that a restore can die in, if the new
      content of a staged entry is neither in the root nor in the staging directory, then the
      marker says rollback-only or Done, or no restore has been committed to, or the staging
      directory is gone. */
  lemma {:induction false} RollForwardNeverFollowsDestruction(r: Restore, d: Disk, e: Entry)
    requires Reachable(r, d, true) && e in r.entries && e in r.after
    requires !IsNew(r, d, e) && At(d.staging, e) != At(r.after, e)
    ensures d.marker.Some? && d.marker.value.phase == Committing && !d.marker.value.rollbackOnly ==> !d.stagingDir
  {
    assert Forward(r, d) ==> OnTheWay(r, d, e);
  }
}
