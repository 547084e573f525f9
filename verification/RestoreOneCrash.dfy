/**
 How far the restore goes when its recovery cannot inspect the staging directory or the database: a
 single death is enough for a mixture, and what was destroyed may be rolled forward over.
 */
module RestoreOneCrash {
  import opened Common
  import opened RestoreDisk
  import opened RestoreProtocol
  import opened RestoreInvariant
  import opened RestoreTheorems
  import opened RestoreLimits
  import opened RestoreOutcome

  // ----- one death

  /** A recovery that strays rolls back whatever it finds, and reports success. */
  lemma {:induction false} StrayRollsBack(r: Restore, d: Disk)
    requires LandedTwo(r, d) && Unsure(r)
    ensures var t := Recover(r, Sys(d, Strays(r), Ok));
      && t.status == Ok && t.disk.marker == None
      && forall e :: e in r.entries ==> At(t.disk.root, e) == RolledBack(r, d, e)
  {
    var m := r.Mark(Committing, false);
    assert Strays(r) + [] == Strays(r);
    Stray(r, d, []);
    RestoreFromExact(r, d, r.entries);
    var s1 := RestoreBackup(Sys(d, [], Ok), r.entries, r.before.Keys);
    assert At(s1.disk.root, r.db) == RolledBack(r, d, r.db);
    QuietLook(s1, true, r.sure.db);
    assert RollBackCommitting(r, Sys(d, [], Ok), m) == s1;
    QuietEnd(r, if r.doneFirst then SetMarker(s1, Some(m.(phase := Done))) else s1);
  }

  ghost function FiguresLeft(r: Restore): Disk {
    Landing(r).(backup := map[FIGURES := Whole("old figures")])
  }

  lemma {:induction false} RemovalLeavesFigures(r: Restore)
    requires IsExample(r) && !r.coarse
    ensures RemoveBackup(r, Sys(Landing(r), [FIGURES_LEFT], Ok)).disk == FiguresLeft(r)
  {
    assert Damage(r.before, Harm({FIGURES}, {})) == map[FIGURES := Whole("old figures")];
  }

  lemma {:induction false} FiguresLeftMix(r: Restore)
    requires OfTwo(r) && IsExample(r) && Unsure(r)
    ensures var t := Recover(r, Sys(FiguresLeft(r), Strays(r), Ok)); t.status == Ok && !Uniform(r, t.disk)
  {
    StrayRollsBack(r, FiguresLeft(r));
    var t := Recover(r, Sys(FiguresLeft(r), Strays(r), Ok)).disk;
    assert At(t.root, DB) == Some(Whole("new db")) && At(t.root, FIGURES) == Some(Whole("old figures"));
    assert !IsOld(r, t, DB) && !IsNew(r, t, FIGURES);
  }

  /** The restore dies inside the removal of the backup; one inspection of the recovery fails, that of
      the staging directory or, after a roll-forward without effect, that of the database: the entry
      whose backup is left goes back, the other does not. */
  lemma {:induction false} PartBackupMixesAtOnce(doneFirst: bool, sure: Sure)
    requires !(sure.staging && sure.db)
    ensures var r := Example(false, doneFirst, sure);
      && r.Valid() && Staged(r, ExampleDisk(r))
      && var left := Run(r, Sys(ExampleDisk(r), DiesInRemoval(FIGURES_LEFT), Ok)).disk;
         var t := Recover(r, Sys(left, Strays(r), Ok));
         t.status == Ok && !Uniform(r, t.disk)
  {
    var r := Example(false, doneFirst, sure);
    ExampleStaged(r);
    RunDies(r, FIGURES_LEFT);
    RemovalLeavesFigures(r);
    FiguresLeftMix(r);
  }

  /** A store without figures, to be replaced by one with them. */
  ghost function Growing(coarse: bool, doneFirst: bool, sure: Sure): Restore {
    Restore([DB, FIGURES], DB,
            map[DB := Whole("old db")],
            map[DB := Whole("new db"), FIGURES := Whole("new figures")],
            coarse, doneFirst, sure)
  }

  /** The restore dies once the backup has gone, in one step or entry by entry, and one inspection of
      the recovery fails: it takes the new figures away and leaves the new database. */
  lemma {:induction false} NoBackupMixesAtOnce(coarse: bool, doneFirst: bool, sure: Sure)
    requires !(sure.staging && sure.db)
    ensures var r := Growing(coarse, doneFirst, sure);
      && r.Valid() && Staged(r, ExampleDisk(r))
      && var left := Run(r, Sys(ExampleDisk(r), DiesInRemoval(Crash(true, NOTHING)), Ok)).disk;
         var t := Recover(r, Sys(left, Strays(r), Ok));
         t.status == Ok && !Uniform(r, t.disk)
  {
    var r, last := Growing(coarse, doneFirst, sure), Crash(true, NOTHING);
    assert OfTwo(r);
    ExampleStaged(r);
    RunDies(r, last);
    var d := Landing(r).(backup := map[], backupDir := !coarse);
    assert RemoveBackup(r, Sys(Landing(r), [last], Ok)).disk == d;
    StrayRollsBack(r, d);
    var t := Recover(r, Sys(d, Strays(r), Ok)).disk;
    assert At(t.root, DB) == Some(Whole("new db")) && At(t.root, FIGURES) == None;
    assert !IsOld(r, t, DB) && !IsNew(r, t, FIGURES);
  }

  /** Every restore that fails or dies, and one recovery that succeeds, end in a uniform store. */
  ghost predicate AlwaysOneCrashAtomic(coarse: bool, doneFirst: bool, sure: Sure) {
    forall r: Restore, d, run, recovery ::
      && r.coarse == coarse && r.doneFirst == doneFirst && r.sure == sure
      && r.Valid() && Staged(r, d) && Recover(r, Sys(Run(r, Sys(d, run, Ok)).disk, recovery, Ok)).status == Ok
      ==> Uniform(r, Recover(r, Sys(Run(r, Sys(d, run, Ok)).disk, recovery, Ok)).disk)
  }

  /** One-crash atomicity holds exactly when the inspections of the staging directory and of the
      database never fail, whatever becomes of that of the backup, however directories are removed and
      whether or not Done is recorded first. */
  lemma {:induction false} OneCrashExactly(coarse: bool, doneFirst: bool, sure: Sure)
    ensures AlwaysOneCrashAtomic(coarse, doneFirst, sure) <==> sure.staging && sure.db
  {
    if sure.staging && sure.db {
      forall r: Restore, d, run, recovery
        | && r.coarse == coarse && r.doneFirst == doneFirst && r.sure == sure
          && r.Valid() && Staged(r, d) && Recover(r, Sys(Run(r, Sys(d, run, Ok)).disk, recovery, Ok)).status == Ok
        ensures Uniform(r, Recover(r, Sys(Run(r, Sys(d, run, Ok)).disk, recovery, Ok)).disk)
      {
        OneCrashAtomicity(r, d, run, recovery);
      }
    } else {
      NoBackupMixesAtOnce(coarse, doneFirst, sure);
    }
  }

  // ----- destruction is marked

  /** Where roll-forward is allowed and would be entered, no staged content has been destroyed. */
  ghost predicate NothingLost(r: Restore, d: Disk) {
    d.marker.Some? && d.marker.value.phase == Committing && !d.marker.value.rollbackOnly && d.stagingDir ==>
      forall e :: e in r.entries && e in r.after ==> IsNew(r, d, e) || At(d.staging, e) == At(r.after, e)
  }

  /** Where roll-forward would be entered the store is on its way or there, through every history. */
  ghost predicate Guarded(r: Restore, d: Disk) {
    match d.marker
    case None => true
    case Some(m) =>
      m.phase == Committing ==>
        && m.staged == r.after.Keys && m.originals == r.before.Keys
        && (!m.rollbackOnly && d.stagingDir ==> Rolling(r, d))
  }

  lemma {:induction false} GuardedLosesNothing(r: Restore, d: Disk)
    requires Guarded(r, d)
    ensures NothingLost(r, d)
  {
    forall e | e in r.entries && Rolling(r, d)
      ensures e in r.after ==> IsNew(r, d, e) || At(d.staging, e) == At(r.after, e)
    {
      assert Forward(r, d) ==> OnTheWay(r, d, e);
      assert AllNew(r, d) ==> IsNew(r, d, e);
    }
  }

  lemma {:induction false} RestoreFromFrame(s: Sys, es: seq<Entry>, originals: set<Entry>)
    ensures SameFrame(s.disk, RestoreFrom(s, es, originals).disk)
    decreases |es|
  {
    if es != [] && s.status == Ok {
      RestoreEntryFrame(s, es[|es| - 1], originals);
      RestoreFromFrame(RestoreEntry(s, es[|es| - 1], originals), es[..|es| - 1], originals);
    }
  }

  lemma {:induction false} RestoreEntryFrame(s: Sys, e: Entry, originals: set<Entry>)
    ensures SameFrame(s.disk, RestoreEntry(s, e, originals).disk)
  {
    var s1 := RemoveTarget(Probe(s), e);
    assert SameFrame(s.disk, s1.disk);
  }

  lemma {:induction false} StagingShrinksLanded(r: Restore, d: Disk, d': Disk)
    requires Landed(r, d) && d' == d.(staging := d'.staging) && d'.staging.Keys <= d.staging.Keys
    ensures Landed(r, d')
  {
    forall e | e in r.entries ensures IsNew(r, d', e) && e !in d'.staging {
      assert IsNew(r, d, e) && e !in d.staging;
    }
    if r.coarse && d.backupDir {
      UndoableFrame(r, d, d');
    }
  }

  lemma {:induction false} RemoveStagingGuards(r: Restore, s: Sys)
    requires s.disk.stagingDir ==> Landed(r, s.disk)
    ensures var t := Probe(RemoveStaging(s)); t.disk.stagingDir ==> Landed(r, t.disk)
  {
    var t := RemoveStaging(s);
    if t.disk.stagingDir {
      StagingShrinksLanded(r, s.disk, t.disk);
    }
  }

  lemma {:induction false} RemoveBackupGuards(r: Restore, s: Sys)
    requires s.disk.stagingDir ==> Landed(r, s.disk)
    ensures var t := Probe(RemoveBackup(r, s)); t.disk.stagingDir ==> Landed(r, t.disk)
  {
    if s.disk.stagingDir {
      RemoveBackupKeepsNew(r, s);
    }
  }

  /** The clean-up of a store that has landed: until the staging directory goes it stays landed. */
  lemma {:induction false} CleanupGuards(r: Restore, s: Sys)
    requires s.disk.stagingDir ==> Landed(r, s.disk)
    ensures var t := Cleanup(r, s); t.disk.stagingDir ==> Landed(r, t.disk)
  {
    RemoveStagingGuards(r, s);
    RemoveBackupGuards(r, Probe(RemoveStaging(s)));
  }

  lemma {:induction false} RollBackFrame(r: Restore, s: Sys, m: Marker)
    ensures SameFrame(s.disk, RollBackCommitting(r, s, m).disk)
  {
    RestoreFromFrame(s, r.entries, m.originals);
  }

  lemma {:induction false} SettleFrame(r: Restore, s: Sys, m: Marker)
    ensures SameFrame(s.disk, SettleCommitting(r, s, m).disk)
  {
    var db := Look(s, r.db in s.disk.root, r.sure.db);
    RollBackFrame(r, db.s, m);
  }

  lemma {:induction false} RecoverCommittingGuards(r: Restore, s: Sys, m: Marker)
    requires s.status == Ok && r.Valid() && r.sure.staging && r.sure.db
    requires Guarded(r, s.disk) && s.disk.marker == Some(m) && m.phase == Committing
    ensures var t := RecoverCommitting(r, s, m);
      && t.disk.marker == s.disk.marker && t.disk.stagingDir == s.disk.stagingDir
      && (!m.rollbackOnly && t.disk.stagingDir ==> Rolling(r, t.disk) && (t.status == Ok ==> Landed(r, t.disk)))
  {
    if m.rollbackOnly {
      RollBackFrame(r, s, m);
    } else {
      LookingOnly(s, s.disk.stagingDir, s.disk.backupDir, r.sure.staging, r.sure.backup);
      var s1 := Look(Look(s, s.disk.stagingDir, r.sure.staging).s, s.disk.backupDir, r.sure.backup).s;
      if s.disk.stagingDir {
        RollForwardSettles(r, s1, m);
      } else {
        RollBackFrame(r, s1, m);
        SettleFrame(r, s1, m);
      }
    }
  }

  lemma {:induction false} CleanupStopsGuarded(r: Restore, s: Sys, m: Marker)
    requires s.disk.marker == Some(m) && CommittingMarker(r, m)
    requires !m.rollbackOnly && s.disk.stagingDir ==> Rolling(r, s.disk) && (s.status == Ok ==> Landed(r, s.disk))
    ensures Guarded(r, SetMarker(Cleanup(r, s), None).disk)
  {
    if s.status == Ok {
      CleanupFrame(r, s);
      if !m.rollbackOnly {
        CleanupGuards(r, s);
      }
      ClearedGuards(r, Cleanup(r, s));
    } else {
      NothingAfterFailure(r, s);
    }
  }

  lemma {:induction false} ClearedGuards(r: Restore, s: Sys)
    requires Guarded(r, s.disk)
    ensures Guarded(r, SetMarker(s, None).disk)
  {
    assert SetMarker(s, None).disk in {s.disk, s.disk.(marker := None)};
  }

  lemma {:induction false} DoneGuards(r: Restore, s: Sys, m: Marker)
    requires s.disk.marker == Some(m) && CommittingMarker(r, m)
    requires !m.rollbackOnly && s.disk.stagingDir ==> Rolling(r, s.disk) && (s.status == Ok ==> Landed(r, s.disk))
    ensures Guarded(r, SetMarker(Cleanup(r, SetMarker(s, Some(m.(phase := Done)))), None).disk)
  {
    var s1 := SetMarker(s, Some(m.(phase := Done)));
    if s1.status == Ok {
      CleanupFrame(r, s1);
      ClearedGuards(r, Cleanup(r, s1));
    } else {
      NothingAfterFailure(r, s1);
    }
  }

  lemma {:induction false} CommittingGuards(r: Restore, s: Sys, m: Marker)
    requires s.status == Ok && r.Valid() && r.sure.staging && r.sure.db
    requires Guarded(r, s.disk) && s.disk.marker == Some(m) && m.phase == Committing
    ensures var s1 := RecoverCommitting(r, s, m);
      var s2 := if r.doneFirst then SetMarker(s1, Some(m.(phase := Done))) else s1;
      Guarded(r, SetMarker(Cleanup(r, s2), None).disk)
  {
    RecoverCommittingGuards(r, s, m);
    if r.doneFirst {
      DoneGuards(r, RecoverCommitting(r, s, m), m);
    } else {
      CleanupStopsGuarded(r, RecoverCommitting(r, s, m), m);
    }
  }

  /** Where no restore is committing there is nothing to guard. */
  lemma {:induction false} UncommittedGuards(r: Restore, s: Sys)
    requires s.disk.marker.Some? && s.disk.marker.value.phase != Committing
    ensures Guarded(r, SetMarker(Cleanup(r, s), None).disk)
    ensures Guarded(r, SetMarker(Probe(RemoveStaging(s)), None).disk)
  {
    CleanupFrame(r, s);
    StagingRemovalFrame(s);
    ClearedGuards(r, Cleanup(r, s));
    ClearedGuards(r, Probe(RemoveStaging(s)));
  }

  lemma {:induction false} RecoverGuards(r: Restore, d: Disk, plan: seq<Fault>)
    requires r.Valid() && r.sure.staging && r.sure.db && Guarded(r, d)
    ensures Guarded(r, Recover(r, Sys(d, plan, Ok)).disk)
  {
    var s0 := Probe(Sys(d, plan, Ok));
    if s0.status != Ok {
      UnreadMarker(r, d, plan);
    } else if d.marker.Some? {
      var m := d.marker.value;
      match m.phase {
        case Staging => UncommittedGuards(r, s0);
        case Done => UncommittedGuards(r, s0);
        case Committing => CommittingGuards(r, s0, m);
      }
    }
  }

  lemma {:induction false} HistoryGuards(r: Restore, d: Disk, run: seq<Fault>, recoveries: seq<seq<Fault>>)
    requires r.Valid() && r.sure.staging && r.sure.db && Staged(r, d)
    ensures Guarded(r, History(r, d, run, recoveries).disk)
    decreases |recoveries|
  {
    RunKeeps(r, d, run);
    if recoveries != [] {
      var n := |recoveries| - 1;
      HistoryGuards(r, d, run, recoveries[..n]);
      RecoverGuards(r, History(r, d, run, recoveries[..n]).disk, recoveries[n]);
    }
  }

  /** The restore and the first recovery of FailedInspectionMixes leave such a disk. */
  lemma {:induction false} UnmarkedDestruction(coarse: bool, doneFirst: bool, sure: Sure)
      returns (r: Restore, recoveries: seq<seq<Fault>>)
    requires !(sure.staging && sure.db)
    ensures r == Example(coarse, doneFirst, sure) && r.Valid() && Staged(r, ExampleDisk(r))
    ensures !NothingLost(r, History(r, ExampleDisk(r), DIES_BEFORE_CLEANUP, recoveries).disk)
  {
    r := Example(coarse, doneFirst, sure);
    recoveries := [Strays(r) + DIES_HALF_WAY];
    ExampleStaged(r);
    RunDiesLanded(r);
    RecoveryDiesHalfRolledBack(r);
    ExampleHistory(r, Strays(r) + DIES_HALF_WAY, HalfRolledBack(r));
    HalfRolledBackLost(r);
  }

  lemma {:induction false} HalfRolledBackLost(r: Restore)
    requires IsExample(r)
    ensures !NothingLost(r, HalfRolledBack(r))
  {
    assert FIGURES in r.entries && FIGURES in r.after && !IsNew(r, HalfRolledBack(r), FIGURES);
  }

  /** No history of any restore reaches a disk where roll-forward would follow destruction. */
  ghost predicate NeverFollowsDestruction(coarse: bool, doneFirst: bool, sure: Sure) {
    forall r: Restore, d, run, recoveries ::
      && r.coarse == coarse && r.doneFirst == doneFirst && r.sure == sure && r.Valid() && Staged(r, d)
      ==> NothingLost(r, History(r, d, run, recoveries).disk)
  }

  /** Roll-forward never follows destruction, through any number of deaths and however directories are
      removed, exactly when the inspections of the staging directory and of the database never fail. */
  lemma {:induction false} DestructionMarkedExactly(coarse: bool, doneFirst: bool, sure: Sure)
    ensures NeverFollowsDestruction(coarse, doneFirst, sure) <==> sure.staging && sure.db
  {
    if sure.staging && sure.db {
      forall r: Restore, d, run, recoveries
        | r.coarse == coarse && r.doneFirst == doneFirst && r.sure == sure && r.Valid() && Staged(r, d)
        ensures NothingLost(r, History(r, d, run, recoveries).disk)
      {
        HistoryGuards(r, d, run, recoveries);
        GuardedLosesNothing(r, History(r, d, run, recoveries).disk);
      }
    } else {
      var r, recoveries := UnmarkedDestruction(coarse, doneFirst, sure);
      assert !NothingLost(r, History(r, ExampleDisk(r), DIES_BEFORE_CLEANUP, recoveries).disk);
    }
  }
}
