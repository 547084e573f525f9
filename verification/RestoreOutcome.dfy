/** What the restore and its recovery come to when nothing goes wrong any more. */
module RestoreOutcome {
  import opened Common
  import opened RestoreDisk
  import opened RestoreProtocol
  import opened RestoreInvariant
  import opened RestoreTheorems
  import opened RestoreLimits

  /** No failure so far, and none to come. */
  ghost predicate Quiet(s: Sys) { s.status == Ok && s.plan == [] }

  lemma {:induction false} QuietMoves(p: Promotion, es: seq<Entry>)
    requires Quiet(p.s)
    ensures Quiet(MoveAside(p, es).s)
    decreases |es|
  {
    if es != [] {
      QuietMoves(MoveEntry(p, es[0]), es[1..]);
    }
  }

  lemma {:induction false} QuietPromotes(p: Promotion, es: seq<Entry>)
    requires Quiet(p.s)
    ensures Quiet(Promote(p, es).s)
    decreases |es|
  {
    if es != [] {
      QuietPromotes(PromoteEntry(p, es[0]), es[1..]);
    }
  }

  lemma {:induction false} QuietReplaces(r: Restore, s: Sys, hook: Option<Marker>)
    requires Quiet(s)
    ensures Quiet(ReplaceContents(r, s, hook))
  {
    var s1 := Flaky(s, s.disk.(backupDir := true));
    QuietMoves(Promotion(s1, [], []), r.entries);
    QuietPromotes(MoveAside(Promotion(s1, [], []), r.entries), r.entries);
  }

  lemma {:induction false} QuietCleanup(r: Restore, s: Sys)
    requires Quiet(s)
    ensures var t := Cleanup(r, s); Quiet(t) && !t.disk.stagingDir && !t.disk.backupDir
  {
    var s1 := Probe(RemoveStaging(s));
    assert Quiet(s1) && !s1.disk.stagingDir;
  }

  lemma {:induction false} QuietEnd(r: Restore, s: Sys)
    requires Quiet(s)
    ensures var t := SetMarker(Cleanup(r, s), None);
      Quiet(t) && t.disk.marker == None && t.disk.root == s.disk.root && !t.disk.stagingDir && !t.disk.backupDir
  {
    QuietCleanup(r, s);
    CleanupFrame(r, s);
  }

  /** An undisturbed restore succeeds: the store is the new one and nothing is left beside it. */
  lemma {:induction false} UndisturbedRestore(r: Restore, d: Disk)
    requires r.Valid() && Staged(r, d)
    ensures var t := Run(r, Sys(d, [], Ok));
      t.status == Ok && AllNew(r, t.disk) && t.disk.marker == None && !t.disk.stagingDir && !t.disk.backupDir
  {
    RunKeeps(r, d, []);
    var s1 := SetMarker(Sys(d, [], Ok), Some(r.Mark(Staging, false)));
    var s2 := SetMarker(s1, Some(r.Mark(Committing, false)));
    assert Quiet(s2);
    QuietReplaces(r, s2, Some(r.Mark(Committing, true)));
    var s3 := ReplaceContents(r, s2, Some(r.Mark(Committing, true)));
    QuietEnd(r, SetMarker(s3, Some(r.Mark(Done, false))));
  }

  /** Which store a recovery settles on: the marker and the two directories decide. */
  ghost predicate Decided(r: Restore, d: Disk, t: Disk) {
    match d.marker
    case None => t.root == d.root
    case Some(m) =>
      match m.phase
      case Staging => AllOld(r, t)
      case Done => t.root == d.root
      case Committing =>
        if m.rollbackOnly then AllOld(r, t)
        else if d.stagingDir then AllNew(r, t)
        else if d.backupDir then AllOld(r, t)
        else t.root == d.root
  }

  lemma {:induction false} QuietRollBack(r: Restore, d: Disk, m: Marker)
    requires r.Valid() && Undoable(r, d) && CommittingMarker(r, m)
    ensures var t := RollBackCommitting(r, Sys(d, [], Ok), m); Quiet(t) && AllOld(r, t.disk)
  {
    RestoreFromExact(r, d, r.entries);
    RestoreKeeps(r, Sys(d, [], Ok));
    var t := RestoreBackup(Sys(d, [], Ok), r.entries, r.before.Keys);
    assert Quiet(t);
    assert IsOld(r, t.disk, r.db);
    QuietLook(t, true, r.sure.db);
  }

  lemma {:induction false} QuietRollForward(r: Restore, d: Disk, m: Marker)
    requires r.Valid() && Rolling(r, d) && CommittingMarker(r, m)
    ensures var t := RollForwardCommitting(r, Sys(d, [], Ok), m);
      Quiet(t) && AllNew(r, t.disk) && t.disk.marker == d.marker
  {
    CompleteFromExact(r, d, r.entries);
    RollForwardKeeps(r, Sys(d, [], Ok), m);
    QuietLook(CompleteReplacement(Sys(d, [], Ok), r.entries, m.staged), true, r.sure.db);
  }

  lemma {:induction false} QuietLook(s: Sys, there: bool, sure: bool)
    requires Quiet(s)
    ensures Look(s, there, sure) == View(s, there, false)
  {}

  lemma {:induction false} QuietCommitting(r: Restore, d: Disk, m: Marker)
    requires r.Valid() && Reachable(r, d, true) && d.marker == Some(m) && m.phase == Committing
    ensures var t := RecoverCommitting(r, Sys(d, [], Ok), m);
      && Quiet(t) && t.disk.marker == d.marker
      && Decided(r, d, t.disk)
  {
    var s := Sys(d, [], Ok);
    QuietLook(s, d.stagingDir, r.sure.staging);
    QuietLook(s, d.backupDir, r.sure.backup);
    QuietLook(s, r.db in d.root, r.sure.db);
    if m.rollbackOnly {
      QuietRollBack(r, d, m);
      RollBackKeeps(r, s, m);
    } else if d.stagingDir {
      QuietRollForward(r, d, m);
    } else if d.backupDir {
      QuietRollBack(r, d, m);
      RollBackKeeps(r, s, m);
    } else {
      assert IsOld(r, d, r.db) || IsNew(r, d, r.db);
    }
  }

  /** An undisturbed recovery, from any state a restore or a recovery can die in, succeeds with the
      store that the marker and the directories decide on, and leaves nothing beside it. */
  lemma {:induction false} UndisturbedRecovery(r: Restore, d: Disk)
    requires r.Valid() && Reachable(r, d, true)
    ensures var t := Recover(r, Sys(d, [], Ok));
      && t.status == Ok && t.disk.marker == None && Decided(r, d, t.disk)
      && (d.marker.Some? && d.marker.value.phase != Staging ==> !t.disk.stagingDir && !t.disk.backupDir)
  {
    var s := Sys(d, [], Ok);
    assert Probe(s) == s;
    if d.marker.Some? {
      var m := d.marker.value;
      match m.phase {
        case Staging =>
          StagingGone(r, s);
          var t := SetMarker(Probe(RemoveStaging(s)), None);
          assert t.status == Ok;
          SameRootSameAnswer(r, d, t.disk);
        case Done =>
          QuietEnd(r, s);
        case Committing =>
          QuietCommitting(r, d, m);
          var s1 := RecoverCommitting(r, s, m);
          var s2 := if r.doneFirst then SetMarker(s1, Some(m.(phase := Done))) else s1;
          assert Quiet(s2) && s2.disk.root == s1.disk.root;
          QuietEnd(r, s2);
          SameRootSameAnswer(r, s1.disk, SetMarker(Cleanup(r, s2), None).disk);
      }
    }
  }
}
