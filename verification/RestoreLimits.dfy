/**
 Where atomicity ends: exactly when an uninterrupted roll-forward or roll-back ends in a uniform
 store, and runs of the code as it is that leave a mixture.
 */
module RestoreLimits {
  import opened Common
  import opened RestoreDisk
  import opened RestoreProtocol
  import opened RestoreInvariant
  import opened RestoreTheorems

  /** What an uninterrupted RestoreReplacementBackup leaves of an entry. */
  ghost function RolledBack(r: Restore, d: Disk, e: Entry): Option<Content> {
    if e in d.backup then At(d.backup, e) else if e in r.before then At(d.root, e) else None
  }

  lemma {:induction false} RestoreEntryExact(r: Restore, d: Disk, e: Entry)
    ensures var t := RestoreEntry(Sys(d, [], Ok), e, r.before.Keys);
      && t == Sys(t.disk, [], Ok) && SameFrame(d, t.disk) && SameBut(d, t.disk, e)
      && At(t.disk.root, e) == RolledBack(r, d, e)
  {
    var s := Sys(d, [], Ok);
    assert Probe(s) == s;
    assert RemoveTarget(s, e) == Sys(d.(root := d.root - {e}), [], Ok);
  }

  lemma {:induction false} RestoreFromExact(r: Restore, d: Disk, es: seq<Entry>)
    requires NoDup(es)
    ensures var t := RestoreFrom(Sys(d, [], Ok), es, r.before.Keys);
      && t == Sys(t.disk, [], Ok) && SameFrame(d, t.disk)
      && (forall e :: e in es ==> At(t.disk.root, e) == RolledBack(r, d, e))
      && (forall e :: e !in es ==> At(t.disk.root, e) == At(d.root, e) && At(t.disk.backup, e) == At(d.backup, e))
    decreases |es|
  {
    if es != [] {
      var n := |es| - 1;
      var s1 := RestoreEntry(Sys(d, [], Ok), es[n], r.before.Keys);
      RestoreEntryExact(r, d, es[n]);
      RestoreFromExact(r, s1.disk, es[..n]);
    }
  }

  /** What an uninterrupted CompleteReplacement leaves of an entry. */
  ghost function RolledForward(r: Restore, d: Disk, e: Entry): Option<Content> {
    if e in d.staging then At(d.staging, e) else if e in r.after then At(d.root, e) else None
  }

  lemma {:induction false} CompleteEntryExact(r: Restore, d: Disk, e: Entry)
    ensures var t := CompleteEntry(Sys(d, [], Ok), e, r.after.Keys);
      && t == Sys(t.disk, [], Ok) && SameBut(d, t.disk, e)
      && At(t.disk.root, e) == RolledForward(r, d, e)
  {
    var s := Sys(d, [], Ok);
    assert Probe(s) == s;
    assert RemoveTarget(s, e) == Sys(d.(root := d.root - {e}), [], Ok);
    if e in d.root {
      assert Atomic(s, ToBackup(d, e)) == Sys(ToBackup(d, e), [], Ok);
    }
  }

  lemma {:induction false} CompleteFromExact(r: Restore, d: Disk, es: seq<Entry>)
    requires NoDup(es)
    ensures var t := CompleteFrom(Sys(d, [], Ok), es, r.after.Keys);
      && t == Sys(t.disk, [], Ok) && t.disk.marker == d.marker && t.disk.stagingDir == d.stagingDir
      && (forall e :: e in es ==> At(t.disk.root, e) == RolledForward(r, d, e))
      && (forall e :: e !in es ==> At(t.disk.root, e) == At(d.root, e) && At(t.disk.staging, e) == At(d.staging, e))
    decreases |es|
  {
    if es != [] {
      var s1 := CompleteEntry(Sys(d, [], Ok), es[0], r.after.Keys);
      CompleteEntryExact(r, d, es[0]);
      CompleteFromExact(r, s1.disk, es[1..]);
    }
  }

  /** From any disk at all, an uninterrupted roll-forward ends with the new store exactly when no
      staged content has been destroyed. This is what makes rollback-only necessary: a roll-back
      that began without it destroys what a later roll-forward needs. */
  lemma {:induction false} RollForwardSucceedsExactly(r: Restore, d: Disk)
    requires r.Valid()
    requires forall e :: e in r.entries && e in d.staging ==> At(d.staging, e) == At(r.after, e)
    ensures var t := CompleteReplacement(Sys(d, [], Ok), r.entries, r.after.Keys);
      && t.status == Ok
      && (AllNew(r, t.disk) <==>
            forall e :: e in r.entries && e in r.after ==> e in d.staging || IsNew(r, d, e))
  {
    CompleteFromExact(r, d, r.entries);
    var t := CompleteReplacement(Sys(d, [], Ok), r.entries, r.after.Keys);
    assert forall e :: e in r.entries ==> At(t.disk.root, e) == RolledForward(r, d, e);
    if AllNew(r, t.disk) {
      forall e | e in r.entries && e in r.after ensures e in d.staging || IsNew(r, d, e) {
        assert IsNew(r, t.disk, e);
      }
    }
  }

  /** The roll-back gives the old store: what is backed up is whole, and what is not is the same in
      both stores. */
  ghost predicate BackupTells(r: Restore, d: Disk) {
    forall e :: e in r.entries && e in r.before ==>
      if e in d.backup then d.backup[e] == r.before[e] else At(r.after, e) == At(r.before, e)
  }

  /** The roll-back leaves the new store: what is backed up is the same in both stores, and the new
      store has no entry that the old one lacked. */
  ghost predicate BackupSaysNothing(r: Restore, d: Disk) {
    && (forall e :: e in r.entries && e in d.backup ==> At(d.backup, e) == At(r.after, e))
    && r.after.Keys <= r.before.Keys
  }

  /** Exactly when the recovery of the code as it is keeps the store uniform although the removal of
      the backup was interrupted: what is left of the backup gives the old store back, or nothing of
      it matters. The root is the new store and the staging directory is gone, as an earlier recovery
      leaves them when it dies in that removal. */
  lemma {:induction false} DamagedBackupExactly(r: Restore, d: Disk)
    requires r.Valid() && !r.doneFirst
    requires d.marker == Some(r.Mark(Committing, false)) && !d.stagingDir && d.backupDir && AllNew(r, d)
    requires forall e :: e in r.entries && e in d.backup ==> e in r.before
    ensures var t := Recover(r, Sys(d, [], Ok));
      && t.status == Ok
      && (Uniform(r, t.disk) <==> BackupTells(r, d) || BackupSaysNothing(r, d))
  {
    var m := r.Mark(Committing, false);
    RestoreFromExact(r, d, r.entries);
    var s1 := RestoreBackup(Sys(d, [], Ok), r.entries, r.before.Keys);
    assert forall e :: e in r.entries ==> IsNew(r, d, e) && At(s1.disk.root, e) == RolledBack(r, d, e);
    assert RecoverCommitting(r, Sys(d, [], Ok), m) == s1;
    var t := Recover(r, Sys(d, [], Ok));
    assert t == SetMarker(Cleanup(r, s1), None);
    CleanupFrame(r, s1);
    SameRootSameAnswer(r, s1.disk, t.disk);
    DamagedRootExactly(r, d, s1.disk);
  }

  lemma {:induction false} DamagedRootExactly(r: Restore, d: Disk, d': Disk)
    requires r.Valid() && AllNew(r, d)
    requires forall e :: e in r.entries && e in d.backup ==> e in r.before
    requires forall e :: e in r.entries ==> At(d'.root, e) == RolledBack(r, d, e)
    ensures AllOld(r, d') <==> BackupTells(r, d)
    ensures AllNew(r, d') <==> BackupSaysNothing(r, d)
  {
    assert forall e :: e in r.entries ==> IsNew(r, d, e);
    if AllOld(r, d') {
      forall e | e in r.entries && e in r.before
        ensures if e in d.backup then d.backup[e] == r.before[e] else At(r.after, e) == At(r.before, e)
      {
        assert IsOld(r, d', e);
      }
    }
    if AllNew(r, d') {
      forall e | e in r.entries
        ensures (e in d.backup ==> At(d.backup, e) == At(r.after, e)) && (e in r.after ==> e in r.before)
      {
        assert IsNew(r, d', e);
      }
    }
  }

  // ----- runs that end in a mixture

  const DB := "pc.db"
  const FIGURES := "figures"

  /** A store of a database and a figures directory, to be replaced by a new one of the same shape. */
  ghost function Example(coarse: bool, doneFirst: bool, sure: Sure): Restore {
    Restore([DB, FIGURES], DB,
            map[DB := Whole("old db"), FIGURES := Whole("old figures")],
            map[DB := Whole("new db"), FIGURES := Whole("new figures")],
            coarse, doneFirst, sure)
  }

  ghost predicate IsExample(r: Restore) { r == Example(r.coarse, r.doneFirst, r.sure) }

  /** Any store of these two entries. */
  ghost predicate OfTwo(r: Restore) { r.Valid() && r.entries == [DB, FIGURES] }

  ghost function ExampleDisk(r: Restore): Disk {
    Disk(r.before, map[], r.after, false, true, None)
  }

  const NOTHING := Harm({}, {})

  /** The restore promotes everything and dies when it comes to remove the backup. */
  function DiesInRemoval(last: Fault): seq<Fault> { [Fine, Fine, Fine, Fine, Fine, Fine, Fine, Fine, last] }

  const DIES_BEFORE_CLEANUP: seq<Fault> := DiesInRemoval(Crash(false, NOTHING))

  ghost function Landing(r: Restore): Disk {
    Disk(r.after, r.before, map[], true, true, Some(r.Mark(Committing, false)))
  }

  lemma {:induction false} ExampleMoves(r: Restore, m: Option<Marker>, plan: seq<Fault>)
    requires OfTwo(r) && |plan| >= 2 && plan[0] == plan[1] == Fine
    ensures MoveAside(Promotion(Sys(Disk(r.before, map[], r.after, true, true, m), plan, Ok), [], []), r.entries).s
         == Sys(Disk(map[], r.before, r.after, true, true, m), plan[2..], Ok)
  {
    var p0 := Promotion(Sys(Disk(r.before, map[], r.after, true, true, m), plan, Ok), [], []);
    var p1 := MoveEntry(p0, DB);
    var p2 := MoveEntry(p1, FIGURES);
    assert r.entries[1..] == [FIGURES] && [FIGURES][1..] == [];
    assert MoveAside(p0, r.entries) == MoveAside(p1, [FIGURES]) == MoveAside(p2, []) == p2;
    assert p2.s.disk.root == map[] && p2.s.disk.backup == r.before && p2.s.plan == plan[2..];
  }

  lemma {:induction false} ExamplePromotes(r: Restore, m: Option<Marker>, p0: Promotion)
    requires OfTwo(r) && |p0.s.plan| >= 2 && p0.s.plan[0] == p0.s.plan[1] == Fine
    requires p0.s == Sys(Disk(map[], r.before, r.after, true, true, m), p0.s.plan, Ok)
    ensures Promote(p0, r.entries).s == Sys(Disk(r.after, r.before, map[], true, true, m), p0.s.plan[2..], Ok)
  {
    var p1 := PromoteEntry(p0, DB);
    var p2 := PromoteEntry(p1, FIGURES);
    assert r.entries[1..] == [FIGURES] && [FIGURES][1..] == [];
    assert Promote(p0, r.entries) == Promote(p1, [FIGURES]) == Promote(p2, []) == p2;
    assert p2.s.disk.root == r.after && p2.s.disk.staging == map[] && p2.s.plan == p0.s.plan[2..];
  }

  lemma {:induction false} ExampleStaged(r: Restore)
    requires OfTwo(r)
    ensures Staged(r, ExampleDisk(r))
  {}

  lemma {:induction false} ExampleReplaces(
    r: Restore, m: Option<Marker>, hook: Option<Marker>, plan: seq<Fault>, last: Fault)
    requires OfTwo(r) && last.Crash? && plan == [Fine, Fine, Fine, Fine, Fine, Fine, last]
    ensures ReplaceContents(r, Sys(ExampleDisk(r).(marker := m), plan, Ok), hook)
         == RemoveBackup(r, Sys(Disk(r.after, r.before, map[], true, true, m), [last], Ok))
  {
    assert plan[1..] == [Fine, Fine, Fine, Fine, Fine, last];
    ExampleMoves(r, m, plan[1..]);
    var moved := MoveAside(
        Promotion(Sys(Disk(r.before, map[], r.after, true, true, m), plan[1..], Ok), [], []), r.entries);
    assert plan[1..][2..] == [Fine, Fine, Fine, last];
    ExamplePromotes(r, m, moved);
    assert plan[1..][2..][2..] == [Fine, last];
    assert [Fine, last][1..] == [last];
  }

  lemma {:induction false} RunDies(r: Restore, last: Fault)
    requires OfTwo(r) && last.Crash?
    ensures Run(r, Sys(ExampleDisk(r), DiesInRemoval(last), Ok)).disk
         == RemoveBackup(r, Sys(Landing(r), [last], Ok)).disk
  {
    var plan := DiesInRemoval(last);
    var staging, committing := Some(r.Mark(Staging, false)), Some(r.Mark(Committing, false));
    var s1 := SetMarker(Sys(ExampleDisk(r), plan, Ok), staging);
    assert s1 == Sys(ExampleDisk(r).(marker := staging), plan[1..], Ok);
    var s2 := SetMarker(s1, committing);
    assert plan[1..][1..] == [Fine, Fine, Fine, Fine, Fine, Fine, last];
    assert s2 == Sys(ExampleDisk(r).(marker := committing), plan[1..][1..], Ok);
    ExampleReplaces(r, committing, Some(r.Mark(Committing, true)), s2.plan, last);
  }

  lemma {:induction false} RunDiesLanded(r: Restore)
    requires IsExample(r)
    ensures Run(r, Sys(ExampleDisk(r), DIES_BEFORE_CLEANUP, Ok)).disk == Landing(r)
  {
    RunDies(r, Crash(false, NOTHING));
  }

  /** Everything is promoted; whatever the backup holds. */
  ghost predicate LandedTwo(r: Restore, d: Disk) {
    && OfTwo(r) && r.after.Keys == {DB, FIGURES}
    && d.root == r.after && d.staging == map[] && d.stagingDir && d.marker == Some(r.Mark(Committing, false))
  }

  /** Two entries that are already promoted cost one inspection each. */
  lemma {:induction false} ExampleCompletes(r: Restore, d: Disk, plan: seq<Fault>)
    requires LandedTwo(r, d) && |plan| >= 3 && plan[0] == plan[1] == plan[2] == Fine
    ensures CompleteReplacement(Sys(d, plan, Ok), r.entries, r.after.Keys) == Sys(d, plan[3..], Ok)
  {
    var s0 := Sys(d, plan, Ok);
    var s1 := CompleteEntry(s0, DB, r.after.Keys);
    var s2 := CompleteEntry(s1, FIGURES, r.after.Keys);
    assert s1 == Sys(d, plan[1..], Ok) && s2 == Sys(d, plan[2..], Ok);
    assert r.entries[1..] == [FIGURES] && [FIGURES][1..] == [];
    assert CompleteFrom(s0, r.entries, r.after.Keys) == CompleteFrom(s1, [FIGURES], r.after.Keys)
        == CompleteFrom(s2, [], r.after.Keys) == s2;
  }

  lemma {:induction false} LandingIsLanded(r: Restore)
    requires IsExample(r)
    ensures LandedTwo(r, Landing(r))
  {}

  // ----- the removal of the backup is interrupted

  ghost function HalfRemoved(r: Restore): Disk {
    Landing(r).(backup := map[FIGURES := Whole("old figures")], stagingDir := false)
  }

  const FIGURES_LEFT := Crash(true, Harm({FIGURES}, {}))

  /** A recovery with nothing to roll forward dies when it comes to remove the backup. */
  function DiesInCleanup(last: Fault): seq<Fault> {
    [Fine, Fine, Fine, Fine, Fine, Fine, Fine, Fine, Fine, last]
  }

  lemma {:induction false} RecoveryDiesInCleanup(r: Restore, last: Fault)
    requires IsExample(r) && !r.doneFirst && last.Crash?
    ensures Recover(r, Sys(Landing(r), DiesInCleanup(last), Ok)).disk
         == RemoveBackup(r, Sys(Landing(r).(stagingDir := false), [last], Ok)).disk
  {
    var m, d := r.Mark(Committing, false), Landing(r);
    var s0 := Sys(d, DiesInCleanup(last)[1..], Ok);
    assert Probe(Sys(d, DiesInCleanup(last), Ok)) == s0;
    var s1 := Sys(d, [Fine, Fine, Fine, Fine, Fine, Fine, last], Ok);
    assert s0.plan[1..][1..] == s1.plan;
    assert Look(Look(s0, true, r.sure.staging).s, true, r.sure.backup) == View(s1, true, false);
    NothingToForward(r, s1, last);
    ExampleCleanupDies(r, Sys(d, [Fine, Fine, last], Ok), last);
  }

  lemma {:induction false} NothingToForward(r: Restore, s: Sys, last: Fault)
    requires IsExample(r)
    requires s == Sys(Landing(r), [Fine, Fine, Fine, Fine, Fine, Fine, last], Ok)
    ensures RollForwardCommitting(r, s, r.Mark(Committing, false)) == Sys(Landing(r), [Fine, Fine, last], Ok)
  {
    LandingIsLanded(r);
    ExampleCompletes(r, Landing(r), s.plan);
    assert s.plan[3..] == [Fine, Fine, Fine, last];
    assert s.plan[3..][1..] == [Fine, Fine, last];
  }

  lemma {:induction false} ExampleCleanupDies(r: Restore, s: Sys, last: Fault)
    requires IsExample(r) && last.Crash? && s == Sys(Landing(r), [Fine, Fine, last], Ok)
    ensures SetMarker(Cleanup(r, s), None).disk
         == RemoveBackup(r, Sys(Landing(r).(stagingDir := false), [last], Ok)).disk
  {
    var s1 := RemoveStaging(s);
    assert s1 == Sys(Landing(r).(stagingDir := false), [Fine, last], Ok);
    assert Probe(s1) == Sys(s1.disk, [last], Ok);
  }

  lemma {:induction false} HistoryNext(
    r: Restore, d: Disk, run: seq<Fault>, recoveries: seq<seq<Fault>>, next: seq<Fault>)
    ensures History(r, d, run, recoveries + [next]) == Recover(r, Sys(History(r, d, run, recoveries).disk, next, Ok))
  {
    assert (recoveries + [next])[..|recoveries|] == recoveries;
  }

  /** A recovery that leaves d, and one that nothing disturbs. */
  lemma {:induction false} ExampleHistory(r: Restore, plan: seq<Fault>, d: Disk)
    requires Run(r, Sys(ExampleDisk(r), DIES_BEFORE_CLEANUP, Ok)).disk == Landing(r)
    requires Recover(r, Sys(Landing(r), plan, Ok)).disk == d
    ensures History(r, ExampleDisk(r), DIES_BEFORE_CLEANUP, [plan]).disk == d
    ensures History(r, ExampleDisk(r), DIES_BEFORE_CLEANUP, [plan, []]) == Recover(r, Sys(d, [], Ok))
  {
    HistoryNext(r, ExampleDisk(r), DIES_BEFORE_CLEANUP, [], plan);
    HistoryNext(r, ExampleDisk(r), DIES_BEFORE_CLEANUP, [plan], []);
    assert [] + [plan] == [plan] && [plan] + [[]] == [plan, []];
  }

  lemma {:induction false} RemovalLeavesHalf(r: Restore)
    requires IsExample(r) && !r.coarse
    ensures RemoveBackup(r, Sys(Landing(r).(stagingDir := false), [FIGURES_LEFT], Ok)).disk == HalfRemoved(r)
  {
    assert Damage(r.before, Harm({FIGURES}, {})) == map[FIGURES := Whole("old figures")];
  }

  /** The code as it is, when a directory is removed entry by entry: the restore dies, the first
      recovery dies inside the removal of the backup, and the second recovery succeeds with a
      mixture of the two stores. */
  lemma {:induction false} InterruptedRemovalMixes(sure: Sure)
    ensures var r := Example(false, false, sure);
      && r.Valid() && Staged(r, ExampleDisk(r))
      && var t := History(r, ExampleDisk(r), DIES_BEFORE_CLEANUP, [DiesInCleanup(FIGURES_LEFT), []]);
         t.status == Ok && !Uniform(r, t.disk)
  {
    var r := Example(false, false, sure);
    ExampleStaged(r);
    RunDiesLanded(r);
    RecoveryDiesInCleanup(r, FIGURES_LEFT);
    RemovalLeavesHalf(r);
    ExampleHistory(r, DiesInCleanup(FIGURES_LEFT), HalfRemoved(r));
    HalfRemovedMixes(r);
  }

  lemma {:induction false} HalfRemovedMixes(r: Restore)
    requires r.Valid() && IsExample(r) && !r.doneFirst
    ensures var t := Recover(r, Sys(HalfRemoved(r), [], Ok)); t.status == Ok && !Uniform(r, t.disk)
  {
    DamagedBackupExactly(r, HalfRemoved(r));
    assert At(HalfRemoved(r).backup, DB) != At(r.before, DB);
    assert FIGURES in HalfRemoved(r).backup && FIGURES in r.entries;
  }

  // ----- an inspection of the staging directory or of the database fails

  /** One of these two inspections may fail. */
  ghost predicate Unsure(r: Restore) { !(r.sure.staging && r.sure.db) }

  /** A plan by which a recovery strays into the rollback: the staging directory cannot be inspected,
      or all is rolled forward already and then the database cannot be. */
  ghost function Strays(r: Restore): seq<Fault> {
    if r.sure.staging then [Fine, Fine, Fine, Fine, Fine, Fine, Fail(false, NOTHING)]
    else [Fine, Fail(false, NOTHING), Fine]
  }

  lemma {:induction false} StrayFromStaging(r: Restore, d: Disk, rest: seq<Fault>)
    requires LandedTwo(r, d) && !r.sure.staging
    ensures var m := r.Mark(Committing, false);
      RecoverCommitting(r, Sys(d, [Fail(false, NOTHING), Fine] + rest, Ok), m)
      == RollBackCommitting(r, Sys(d, rest, Ok), m)
  {
    var s := Sys(d, [Fail(false, NOTHING), Fine] + rest, Ok);
    assert s.plan[1..] == [Fine] + rest && s.plan[1..][1..] == rest;
    assert Look(s, true, false) == View(Sys(d, [Fine] + rest, Ok), false, true);
    assert Look(Sys(d, [Fine] + rest, Ok), d.backupDir, r.sure.backup).s == Sys(d, rest, Ok);
  }

  lemma {:induction false} StrayFromDb(r: Restore, d: Disk, rest: seq<Fault>)
    requires LandedTwo(r, d) && r.sure.staging && !r.sure.db
    ensures var m := r.Mark(Committing, false);
      RecoverCommitting(r, Sys(d, [Fine, Fine, Fine, Fine, Fine, Fail(false, NOTHING)] + rest, Ok), m)
      == RollBackCommitting(r, Sys(d, rest, Ok), m)
  {
    var m := r.Mark(Committing, false);
    var s := Sys(d, [Fine, Fine, Fine, Fine, Fine, Fail(false, NOTHING)] + rest, Ok);
    var s1 := Sys(d, [Fine, Fine, Fine, Fail(false, NOTHING)] + rest, Ok);
    assert s.plan[1..][1..] == s1.plan;
    assert Look(Look(s, true, true).s, d.backupDir, r.sure.backup) == View(s1, d.backupDir, false);
    ExampleCompletes(r, d, s1.plan);
    assert s1.plan[3..] == [Fail(false, NOTHING)] + rest && s1.plan[3..][1..] == rest;
    assert Look(Sys(d, s1.plan[3..], Ok), true, false) == View(Sys(d, rest, Ok), false, true);
  }

  /** From there on it is the rollback, whatever is still to come. */
  lemma {:induction false} Stray(r: Restore, d: Disk, rest: seq<Fault>)
    requires LandedTwo(r, d) && Unsure(r)
    ensures var m := r.Mark(Committing, false);
      var s1 := RollBackCommitting(r, Sys(d, rest, Ok), m);
      var s2 := if r.doneFirst then SetMarker(s1, Some(m.(phase := Done))) else s1;
      Recover(r, Sys(d, Strays(r) + rest, Ok)) == SetMarker(Cleanup(r, s2), None)
  {
    var plan := Strays(r) + rest;
    assert Probe(Sys(d, plan, Ok)) == Sys(d, plan[1..], Ok);
    if r.sure.staging {
      assert plan[1..] == [Fine, Fine, Fine, Fine, Fine, Fail(false, NOTHING)] + rest;
      StrayFromDb(r, d, rest);
    } else {
      assert plan[1..] == [Fail(false, NOTHING), Fine] + rest;
      StrayFromStaging(r, d, rest);
    }
  }

  ghost function HalfRolledBack(r: Restore): Disk {
    Landing(r).(root := map[DB := Whole("new db"), FIGURES := Whole("old figures")],
                backup := map[DB := Whole("old db")])
  }

  const DIES_HALF_WAY: seq<Fault> := [Fine, Fine, Fine, Crash(false, NOTHING)]

  lemma {:induction false} RecoveryDiesHalfRolledBack(r: Restore)
    requires IsExample(r) && Unsure(r)
    ensures Recover(r, Sys(Landing(r), Strays(r) + DIES_HALF_WAY, Ok)).disk == HalfRolledBack(r)
  {
    LandingIsLanded(r);
    Stray(r, Landing(r), DIES_HALF_WAY);
    ExampleRollbackDies(r, Sys(Landing(r), DIES_HALF_WAY, Ok));
    NothingAfterFailure(r, Sys(HalfRolledBack(r), [], Crashed));
  }

  /** Whether or not the staging directory is there. */
  lemma {:induction false} ExampleRollbackDies(r: Restore, s: Sys)
    requires IsExample(r) && s.plan == DIES_HALF_WAY && s.status == Ok
    requires s.disk == Landing(r).(stagingDir := s.disk.stagingDir)
    ensures RollBackCommitting(r, s, r.Mark(Committing, false))
         == Sys(HalfRolledBack(r).(stagingDir := s.disk.stagingDir), [], Crashed)
  {
    var d := HalfRolledBack(r).(stagingDir := s.disk.stagingDir);
    var s1 := RestoreEntry(s, FIGURES, r.before.Keys);
    assert s1.disk.root == d.root && s1.disk.backup == d.backup;
    assert s1 == Sys(d, [Crash(false, NOTHING)], Ok);
    var s2 := RestoreEntry(s1, DB, r.before.Keys);
    assert r.entries[..1] == [DB] && [DB][..0] == [];
    assert RestoreFrom(s, r.entries, r.before.Keys) == RestoreFrom(s1, [DB], r.before.Keys)
        == RestoreFrom(s2, [], r.before.Keys) == s2;
  }

  /** The code as it is, even when directories go in one step: the restore dies; the first recovery
      cannot inspect the staging directory (which is there) or, once all is rolled forward, the
      database (which is there too), so it rolls back under a marker that still says committing, and
      dies; the second recovery rolls forward over what is left. */
  lemma {:induction false} FailedInspectionMixes(coarse: bool, doneFirst: bool, sure: Sure)
    requires !(sure.staging && sure.db)
    ensures var r := Example(coarse, doneFirst, sure);
      && r.Valid() && Staged(r, ExampleDisk(r))
      && var t := History(r, ExampleDisk(r), DIES_BEFORE_CLEANUP, [Strays(r) + DIES_HALF_WAY, []]);
         t.status == Ok && !Uniform(r, t.disk)
  {
    var r := Example(coarse, doneFirst, sure);
    ExampleStaged(r);
    RunDiesLanded(r);
    RecoveryDiesHalfRolledBack(r);
    ExampleHistory(r, Strays(r) + DIES_HALF_WAY, HalfRolledBack(r));
    HalfRolledBackMixes(r);
  }

  lemma {:induction false} HalfRolledBackMixes(r: Restore)
    requires r.Valid() && IsExample(r)
    ensures var t := Recover(r, Sys(HalfRolledBack(r), [], Ok)); t.status == Ok && !Uniform(r, t.disk)
  {
    var d := HalfRolledBack(r);
    CompleteFromExact(r, d, r.entries);
    var s1 := CompleteReplacement(Sys(d, [], Ok), r.entries, r.after.Keys);
    assert At(s1.disk.root, DB) == RolledForward(r, d, DB) && At(s1.disk.root, FIGURES) == RolledForward(r, d, FIGURES);
    assert RollForwardCommitting(r, Sys(d, [], Ok), r.Mark(Committing, false)) == s1;
    assert RecoverCommitting(r, Sys(d, [], Ok), r.Mark(Committing, false)) == s1;
    assert !IsOld(r, s1.disk, DB) && !IsNew(r, s1.disk, FIGURES);
    var m := r.Mark(Committing, false);
    var s2 := if r.doneFirst then SetMarker(s1, Some(m.(phase := Done))) else s1;
    CleanupFrame(r, s2);
    var t := Recover(r, Sys(d, [], Ok));
    assert t == SetMarker(Cleanup(r, s2), None);
    SameRootSameAnswer(r, s1.disk, t.disk);
  }

  // ----- an inspection of the backup fails

  /** The second recovery finds the staging directory gone, rolls back and dies half-way. */
  const ROLLS_BACK_HALF_WAY: seq<Fault> := [Fine, Fine, Fine] + DIES_HALF_WAY

  /** The third cannot inspect the backup. */
  const BACKUP_UNSEEN: seq<Fault> := [Fine, Fine, Fail(false, NOTHING)]

  ghost function WithoutStaging(r: Restore): Disk { Landing(r).(stagingDir := false) }

  ghost function HalfGone(r: Restore): Disk { HalfRolledBack(r).(stagingDir := false) }

  lemma {:induction false} GoneRollsBack(r: Restore)
    requires IsExample(r)
    ensures Recover(r, Sys(WithoutStaging(r), ROLLS_BACK_HALF_WAY, Ok)).disk == HalfGone(r)
  {
    var d, m, plan := WithoutStaging(r), r.Mark(Committing, false), ROLLS_BACK_HALF_WAY;
    var s0 := Sys(d, plan[1..], Ok);
    assert Probe(Sys(d, plan, Ok)) == s0;
    assert s0.plan[1..][1..] == DIES_HALF_WAY;
    assert Look(Look(s0, false, r.sure.staging).s, true, r.sure.backup) == View(Sys(d, DIES_HALF_WAY, Ok), true, false);
    ExampleRollbackDies(r, Sys(d, DIES_HALF_WAY, Ok));
    assert RecoverCommitting(r, s0, m) == Sys(HalfGone(r), [], Crashed);
    NothingAfterFailure(r, Sys(HalfGone(r), [], Crashed));
  }

  lemma {:induction false} HalfGoneMixes(r: Restore)
    requires IsExample(r) && !r.sure.backup && !r.doneFirst
    ensures var t := Recover(r, Sys(HalfGone(r), BACKUP_UNSEEN, Ok)); t.status == Ok && !Uniform(r, t.disk)
  {
    var d, m := HalfGone(r), r.Mark(Committing, false);
    var s0 := Sys(d, BACKUP_UNSEEN[1..], Ok);
    assert Probe(Sys(d, BACKUP_UNSEEN, Ok)) == s0;
    assert s0.plan[1..][1..] == [];
    assert Look(Look(s0, false, r.sure.staging).s, true, false) == View(Sys(d, [], Ok), false, true);
    assert RecoverCommitting(r, s0, m) == Sys(d, [], Ok);
    CleanupFrame(r, Sys(d, [], Ok));
    var t := Recover(r, Sys(d, BACKUP_UNSEEN, Ok));
    assert t == SetMarker(Cleanup(r, Sys(d, [], Ok)), None);
    assert !IsOld(r, t.disk, DB) && !IsNew(r, t.disk, FIGURES);
  }

  lemma {:induction false} RecoveryLeavesBackup(r: Restore)
    requires IsExample(r) && !r.doneFirst
    ensures Recover(r, Sys(Landing(r), DiesInCleanup(Crash(false, NOTHING)), Ok)).disk == WithoutStaging(r)
  {
    RecoveryDiesInCleanup(r, Crash(false, NOTHING));
  }

  lemma {:induction false} HistoryOfTwo(
    r: Restore, d0: Disk, run: seq<Fault>, a: seq<Fault>, b: seq<Fault>, d1: Disk, d2: Disk, d3: Disk)
    requires Run(r, Sys(d0, run, Ok)).disk == d1
    requires Recover(r, Sys(d1, a, Ok)).disk == d2 && Recover(r, Sys(d2, b, Ok)).disk == d3
    ensures History(r, d0, run, [a, b]).disk == d3
  {
    HistoryNext(r, d0, run, [], a);
    HistoryNext(r, d0, run, [a], b);
    assert [] + [a] == [a] && [a] + [b] == [a, b];
  }

  lemma {:induction false} TwoDeathsInRecovery(r: Restore, first: seq<Fault>)
    requires IsExample(r) && !r.doneFirst && first == DiesInCleanup(Crash(false, NOTHING))
    ensures History(r, ExampleDisk(r), DIES_BEFORE_CLEANUP, [first, ROLLS_BACK_HALF_WAY]).disk == HalfGone(r)
  {
    RunDiesLanded(r);
    RecoveryLeavesBackup(r);
    GoneRollsBack(r);
    HistoryOfTwo(r, ExampleDisk(r), DIES_BEFORE_CLEANUP, first, ROLLS_BACK_HALF_WAY,
                 Landing(r), WithoutStaging(r), HalfGone(r));
  }

  /** The code as it is, even when directories go in one step: the restore dies; the first recovery
      dies with the staging directory gone and the backup still there; the second rolls back and dies
      half-way; the third cannot inspect the backup, takes it for gone and removes it. */
  lemma {:induction false} UninspectableBackupMixes(coarse: bool, sure: Sure)
    requires !sure.backup
    ensures var r := Example(coarse, false, sure);
      && r.Valid() && Staged(r, ExampleDisk(r))
      && var t := History(r, ExampleDisk(r), DIES_BEFORE_CLEANUP,
                          [DiesInCleanup(Crash(false, NOTHING)), ROLLS_BACK_HALF_WAY, BACKUP_UNSEEN]);
         t.status == Ok && !Uniform(r, t.disk)
  {
    var r, first := Example(coarse, false, sure), DiesInCleanup(Crash(false, NOTHING));
    ExampleStaged(r);
    TwoDeathsInRecovery(r, first);
    HistoryNext(r, ExampleDisk(r), DIES_BEFORE_CLEANUP, [first, ROLLS_BACK_HALF_WAY], BACKUP_UNSEEN);
    assert [first, ROLLS_BACK_HALF_WAY] + [BACKUP_UNSEEN] == [first, ROLLS_BACK_HALF_WAY, BACKUP_UNSEEN];
    HalfGoneMixes(r);
  }

  // ----- exactly

  /** Every history of every restore that ends in a success ends in a uniform store. */
  ghost predicate AlwaysAtomic(coarse: bool, doneFirst: bool, sure: Sure) {
    forall r: Restore, d, run, recoveries ::
      && r.coarse == coarse && r.doneFirst == doneFirst && r.sure == sure
      && r.Valid() && Staged(r, d) && History(r, d, run, recoveries).status == Ok
      ==> Uniform(r, History(r, d, run, recoveries).disk)
  }

  /** Exactly when many-crash atomicity holds: the inspections of the staging directory and of the
      database never fail and, unless Done is recorded before the backup goes (as the code does not
      do), the backup goes in one step and its inspection never fails either. */
  lemma {:induction false} AtomicityExactly(coarse: bool, doneFirst: bool, sure: Sure)
    ensures AlwaysAtomic(coarse, doneFirst, sure) <==>
            sure.staging && sure.db && (doneFirst || (coarse && sure.backup))
  {
    if !(sure.staging && sure.db) {
      FailedInspectionMixes(coarse, doneFirst, sure);
    } else if !doneFirst && !coarse {
      InterruptedRemovalMixes(sure);
    } else if !doneFirst && !sure.backup {
      UninspectableBackupMixes(coarse, sure);
    } else {
      forall r: Restore, d, run, recoveries
        | && r.coarse == coarse && r.doneFirst == doneFirst && r.sure == sure
          && r.Valid() && Staged(r, d) && History(r, d, run, recoveries).status == Ok
        ensures Uniform(r, History(r, d, run, recoveries).disk)
      {
        ManyCrashAtomicity(r, d, run, recoveries);
      }
    }
  }
}
