/**
 Recovery always gets there: however often it failed or died, and whatever the directories' removal
 and inspection did on the way, the next recovery that nothing disturbs succeeds with a database.
 */
module RestoreLiveness {
  import opened Common
  import opened RestoreDisk
  import opened RestoreProtocol
  import opened RestoreInvariant
  import opened RestoreTheorems
  import opened RestoreLimits
  import opened RestoreOutcome

  ghost predicate HasDb(r: Restore, d: Disk) { r.db in d.root || r.db in d.backup }

  /** While a restore is committing the database may be in the backup; otherwise it is live. */
  ghost predicate Live(r: Restore, d: Disk) {
    match d.marker
    case Some(Marker(Committing, _, staged, originals)) =>
      staged == r.after.Keys && originals == r.before.Keys && HasDb(r, d)
    case _ => r.db in d.root
  }

  lemma {:induction false} ReachableIsLive(r: Restore, d: Disk)
    requires r.Valid() && Reachable(r, d, false)
    ensures Live(r, d)
  {
    assert AllOld(r, d) ==> IsOld(r, d, r.db);
    assert AllNew(r, d) ==> IsNew(r, d, r.db);
    assert Forward(r, d) ==> OnTheWay(r, d, r.db);
    assert Undoable(r, d) ==> EntryUndoable(r, d, r.db);
  }

  lemma {:induction false} CompleteEntryKeepsDb(r: Restore, s: Sys, e: Entry, staged: set<Entry>)
    requires HasDb(r, s.disk)
    ensures var t := CompleteEntry(s, e, staged); HasDb(r, t.disk) && t.disk.marker == s.disk.marker
  {
    var s0 := Probe(s);
    if s0.status == Ok && e in s0.disk.root {
      var s1 := if e in s0.disk.backup then RemoveTarget(s0, e) else Atomic(s0, ToBackup(s0.disk, e));
      assert HasDb(r, s1.disk) && s1.disk.marker == s.disk.marker;
    }
  }

  lemma {:induction false} CompleteFromKeepsDb(r: Restore, s: Sys, es: seq<Entry>, staged: set<Entry>)
    requires HasDb(r, s.disk)
    ensures var t := CompleteFrom(s, es, staged); HasDb(r, t.disk) && t.disk.marker == s.disk.marker
    decreases |es|
  {
    if es != [] && s.status == Ok {
      CompleteEntryKeepsDb(r, s, es[0], staged);
      CompleteFromKeepsDb(r, CompleteEntry(s, es[0], staged), es[1..], staged);
    }
  }

  lemma {:induction false} ClearKeepsDb(r: Restore, s: Sys, e: Entry)
    requires HasDb(r, s.disk) && (e == r.db ==> e in s.disk.backup)
    ensures var t := RemoveTarget(s, e);
      HasDb(r, t.disk) && t.disk.marker == s.disk.marker && t.disk.backup == s.disk.backup
  {}

  lemma {:induction false} PutBackKeepsDb(r: Restore, s: Sys, e: Entry)
    requires HasDb(r, s.disk) && e in s.disk.backup
    ensures var t := Atomic(s, FromBackup(s.disk, e)); HasDb(r, t.disk) && t.disk.marker == s.disk.marker
  {}

  lemma {:induction false} RestoreEntryKeepsDb(r: Restore, s: Sys, e: Entry)
    requires HasDb(r, s.disk) && r.db in r.before
    ensures var t := RestoreEntry(s, e, r.before.Keys); HasDb(r, t.disk) && t.disk.marker == s.disk.marker
  {
    var s0 := Probe(s);
    if s0.status == Ok && (e in s.disk.backup || e !in r.before) {
      ClearKeepsDb(r, s0, e);
      if e in s.disk.backup {
        PutBackKeepsDb(r, RemoveTarget(s0, e), e);
      }
    }
  }

  lemma {:induction false} RestoreFromKeepsDb(r: Restore, s: Sys, es: seq<Entry>)
    requires HasDb(r, s.disk) && r.db in r.before
    ensures var t := RestoreFrom(s, es, r.before.Keys); HasDb(r, t.disk) && t.disk.marker == s.disk.marker
    decreases |es|
  {
    if es != [] && s.status == Ok {
      var n := |es| - 1;
      RestoreEntryKeepsDb(r, s, es[n]);
      RestoreFromKeepsDb(r, RestoreEntry(s, es[n], r.before.Keys), es[..n]);
    }
  }

  lemma {:induction false} RollBackKeepsDb(r: Restore, s: Sys, m: Marker)
    requires r.Valid() && HasDb(r, s.disk) && CommittingMarker(r, m)
    ensures var t := RollBackCommitting(r, s, m);
      HasDb(r, t.disk) && t.disk.marker == s.disk.marker && (t.status == Ok ==> r.db in t.disk.root)
  {
    RestoreFromKeepsDb(r, s, r.entries);
    var s1 := RestoreBackup(s, r.entries, m.originals);
    LookChangesNothing(s1, r.db in s1.disk.root, r.sure.db);
  }

  lemma {:induction false} RollForwardKeepsDb(r: Restore, s: Sys, m: Marker)
    requires r.Valid() && HasDb(r, s.disk) && CommittingMarker(r, m)
    ensures var t := RollForwardCommitting(r, s, m);
      HasDb(r, t.disk) && t.disk.marker == s.disk.marker && (t.status == Ok ==> r.db in t.disk.root)
  {
    var s1 := CompleteReplacement(s, r.entries, m.staged);
    CompleteFromKeepsDb(r, s, r.entries, m.staged);
    LookChangesNothing(s1, r.db in s1.disk.root, r.sure.db);
    RollBackKeepsDb(r, Look(s1, r.db in s1.disk.root, r.sure.db).s, m);
  }

  /** What is seen is there. */
  lemma {:induction false} LookChangesNothing(s: Sys, there: bool, sure: bool)
    ensures var v := Look(s, there, sure); v.s.disk == s.disk && (v.seen ==> there)
  {}

  lemma {:induction false} RecoverCommittingKeepsDb(r: Restore, s: Sys, m: Marker)
    requires r.Valid() && s.status == Ok && HasDb(r, s.disk) && CommittingMarker(r, m)
    ensures var t := RecoverCommitting(r, s, m);
      HasDb(r, t.disk) && t.disk.marker == s.disk.marker && (t.status == Ok ==> r.db in t.disk.root)
  {
    var s1 := Look(s, s.disk.stagingDir, r.sure.staging).s;
    var s2 := Look(s1, s.disk.backupDir, r.sure.backup).s;
    LookChangesNothing(s, s.disk.stagingDir, r.sure.staging);
    LookChangesNothing(s1, s.disk.backupDir, r.sure.backup);
    if m.rollbackOnly {
      RollBackKeepsDb(r, s, m);
    } else {
      SettleKeepsDb(r, s2, m);
      RollForwardKeepsDb(r, s2, m);
      RollBackKeepsDb(r, s2, m);
    }
  }

  lemma {:induction false} SettleKeepsDb(r: Restore, s: Sys, m: Marker)
    requires r.Valid() && HasDb(r, s.disk) && CommittingMarker(r, m)
    ensures var t := SettleCommitting(r, s, m);
      HasDb(r, t.disk) && t.disk.marker == s.disk.marker && (t.status == Ok ==> r.db in t.disk.root)
  {
    LookChangesNothing(s, r.db in s.disk.root, r.sure.db);
    RollBackKeepsDb(r, Look(s, r.db in s.disk.root, r.sure.db).s, m);
  }

  /** The clean-up of a store whose database is live. */
  lemma {:induction false} CleanupKeepsLive(r: Restore, s: Sys)
    requires Live(r, s.disk) && (s.status == Ok ==> r.db in s.disk.root)
    ensures Live(r, SetMarker(Cleanup(r, s), None).disk)
  {
    if s.status == Ok {
      CleanupFrame(r, s);
    } else {
      NothingAfterFailure(r, s);
    }
  }

  lemma {:induction false} DoneKeepsLive(r: Restore, s: Sys, m: Marker)
    requires Live(r, s.disk) && (s.status == Ok ==> r.db in s.disk.root) && m.phase == Done
    ensures var t := SetMarker(s, Some(m)); Live(r, t.disk) && (t.status == Ok ==> r.db in t.disk.root)
  {}

  lemma {:induction false} CommittingKeepsLive(r: Restore, s: Sys, m: Marker)
    requires r.Valid() && s.status == Ok && HasDb(r, s.disk) && s.disk.marker == Some(m) && CommittingMarker(r, m)
    ensures var s1 := RecoverCommitting(r, s, m);
      var s2 := if r.doneFirst then SetMarker(s1, Some(m.(phase := Done))) else s1;
      Live(r, SetMarker(Cleanup(r, s2), None).disk)
  {
    RecoverCommittingKeepsDb(r, s, m);
    var s1 := RecoverCommitting(r, s, m);
    if r.doneFirst {
      DoneKeepsLive(r, s1, m.(phase := Done));
      CleanupKeepsLive(r, SetMarker(s1, Some(m.(phase := Done))));
    } else {
      CleanupKeepsLive(r, s1);
    }
  }

  lemma {:induction false} StagingKeepsLive(r: Restore, s: Sys)
    requires r.db in s.disk.root && s.disk.marker.Some? && s.disk.marker.value.phase == Staging
    ensures Live(r, SetMarker(Probe(RemoveStaging(s)), None).disk)
  {
    StagingRemovalFrame(s);
  }

  /** However a recovery fails or dies, the database stays within reach of the next one. */
  lemma {:induction false} RecoverKeepsLive(r: Restore, d: Disk, plan: seq<Fault>)
    requires r.Valid() && Live(r, d)
    ensures Live(r, Recover(r, Sys(d, plan, Ok)).disk)
  {
    var s0 := Probe(Sys(d, plan, Ok));
    if s0.status != Ok {
      UnreadMarker(r, d, plan);
    } else {
      match d.marker
      case None =>
      case Some(m) =>
        match m.phase
        case Staging => StagingKeepsLive(r, s0);
        case Done => CleanupKeepsLive(r, s0);
        case Committing => CommittingKeepsLive(r, s0, m);
    }
  }

  lemma {:induction false} HistoryKeepsLive(r: Restore, d: Disk, run: seq<Fault>, recoveries: seq<seq<Fault>>)
    requires r.Valid() && Staged(r, d)
    ensures Live(r, History(r, d, run, recoveries).disk)
    decreases |recoveries|
  {
    if recoveries == [] {
      RunKeeps(r, d, run);
      ReachableIsLive(r, Run(r, Sys(d, run, Ok)).disk);
    } else {
      var n := |recoveries| - 1;
      HistoryKeepsLive(r, d, run, recoveries[..n]);
      RecoverKeepsLive(r, History(r, d, run, recoveries[..n]).disk, recoveries[n]);
    }
  }

  lemma {:induction false} QuietRollBackFindsDb(r: Restore, d: Disk, m: Marker)
    requires r.Valid() && HasDb(r, d) && CommittingMarker(r, m)
    ensures Quiet(RollBackCommitting(r, Sys(d, [], Ok), m))
  {
    RestoreFromExact(r, d, r.entries);
    var t := RestoreBackup(Sys(d, [], Ok), r.entries, r.before.Keys);
    assert At(t.disk.root, r.db) == RolledBack(r, d, r.db);
    QuietLook(t, true, r.sure.db);
  }

  lemma {:induction false} QuietCommittingFindsDb(r: Restore, d: Disk, m: Marker)
    requires r.Valid() && HasDb(r, d) && CommittingMarker(r, m)
    ensures Quiet(RecoverCommitting(r, Sys(d, [], Ok), m))
  {
    var s := Sys(d, [], Ok);
    QuietLook(s, d.stagingDir, r.sure.staging);
    QuietLook(s, d.backupDir, r.sure.backup);
    QuietLook(s, r.db in d.root, r.sure.db);
    QuietRollBackFindsDb(r, d, m);
    QuietRollForwardFindsDb(r, d, m);
  }

  lemma {:induction false} QuietRollForwardFindsDb(r: Restore, d: Disk, m: Marker)
    requires r.Valid() && HasDb(r, d) && CommittingMarker(r, m)
    ensures Quiet(RollForwardCommitting(r, Sys(d, [], Ok), m))
  {
    var s1 := CompleteReplacement(Sys(d, [], Ok), r.entries, m.staged);
    CompleteFromExact(r, d, r.entries);
    CompleteFromKeepsDb(r, Sys(d, [], Ok), r.entries, m.staged);
    QuietLook(s1, r.db in s1.disk.root, r.sure.db);
    QuietRollBackFindsDb(r, s1.disk, m);
  }

  lemma {:induction false} UndisturbedIsLive(r: Restore, d: Disk)
    requires r.Valid() && Live(r, d)
    ensures var t := Recover(r, Sys(d, [], Ok));
      && t.status == Ok && t.disk.marker == None && r.db in t.disk.root
      && (d.marker.Some? && d.marker.value.phase != Staging ==> !t.disk.stagingDir && !t.disk.backupDir)
  {
    var s := Sys(d, [], Ok);
    assert Probe(s) == s;
    if d.marker.Some? {
      var m := d.marker.value;
      match m.phase {
        case Staging => StagingRemovalFrame(s);
        case Done => QuietEnd(r, s);
        case Committing =>
          QuietCommittingFindsDb(r, d, m);
          RecoverCommittingKeepsDb(r, s, m);
          var s1 := RecoverCommitting(r, s, m);
          QuietEnd(r, if r.doneFirst then SetMarker(s1, Some(m.(phase := Done))) else s1);
      }
    }
  }

  /** Of the code as it is, and of each variant: a restore that fails or dies anywhere, recoveries
      that fail or die anywhere, with removals cut short and inspections that fail, and then one
      recovery that nothing disturbs. It succeeds, with a database and no marker, and once a commit
      had begun with nothing beside the store. */
  lemma {:induction false} RecoveryGetsThere(r: Restore, d: Disk, run: seq<Fault>, recoveries: seq<seq<Fault>>)
    requires r.Valid() && Staged(r, d)
    ensures var left := History(r, d, run, recoveries).disk;
      var t := History(r, d, run, recoveries + [[]]);
      && t.status == Ok && t.disk.marker == None && r.db in t.disk.root
      && (left.marker.Some? && left.marker.value.phase != Staging ==> !t.disk.stagingDir && !t.disk.backupDir)
  {
    HistoryKeepsLive(r, d, run, recoveries);
    UndisturbedIsLive(r, History(r, d, run, recoveries).disk);
    assert (recoveries + [[]])[..|recoveries|] == recoveries;
  }
}
