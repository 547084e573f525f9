/**
 What every step of the restore protocol keeps, whatever fails and wherever the process dies.

 An entry goes forward through three stages (not started, backed up, promoted), each entry on its
 own, so a store in the middle of a replacement is any mix of them. Going back, an entry is
 undoable: its old content is in the backup or, if not, still in the live root.
 */
module RestoreInvariant {
  import opened Common
  import opened RestoreDisk
  import opened RestoreProtocol

  ghost predicate IsOld(r: Restore, d: Disk, e: Entry) { At(d.root, e) == At(r.before, e) }

  ghost predicate IsNew(r: Restore, d: Disk, e: Entry) { At(d.root, e) == At(r.after, e) }

  ghost predicate AllOld(r: Restore, d: Disk) { forall e :: e in r.entries ==> IsOld(r, d, e) }

  ghost predicate AllNew(r: Restore, d: Disk) { forall e :: e in r.entries ==> IsNew(r, d, e) }

  /** The store is wholly the old one or wholly the new one. */
  ghost predicate Uniform(r: Restore, d: Disk) { AllOld(r, d) || AllNew(r, d) }

  ghost predicate NotStarted(r: Restore, d: Disk, e: Entry) {
    IsOld(r, d, e) && e !in d.backup && At(d.staging, e) == At(r.after, e)
  }

  ghost predicate BackedUp(r: Restore, d: Disk, e: Entry) {
    e !in d.root && At(d.backup, e) == At(r.before, e) && At(d.staging, e) == At(r.after, e)
  }

  ghost predicate Promoted(r: Restore, d: Disk, e: Entry) {
    IsNew(r, d, e) && At(d.backup, e) == At(r.before, e) && e !in d.staging
  }

  ghost predicate Forward(r: Restore, d: Disk) {
    forall e :: e in r.entries ==> NotStarted(r, d, e) || BackedUp(r, d, e) || Promoted(r, d, e)
  }

  /** The old content is in the backup, or there is no backup and the root has it. What else the
      root holds (nothing, the new content, a torn entry) does not matter. */
  ghost predicate EntryUndoable(r: Restore, d: Disk, e: Entry) {
    if e in d.backup then At(d.backup, e) == At(r.before, e)
    else e in r.before ==> IsOld(r, d, e)
  }

  ghost predicate Undoable(r: Restore, d: Disk) {
    forall e :: e in r.entries ==> EntryUndoable(r, d, e)
  }

  ghost predicate NoneStaged(r: Restore, d: Disk) { forall e :: e in r.entries ==> e !in d.staging }

  ghost predicate NoneBacked(r: Restore, d: Disk) { forall e :: e in r.entries ==> e !in d.backup }

  /** Everything is promoted; unless its removal is one step, the backup may be damaged. */
  ghost predicate Landed(r: Restore, d: Disk) {
    AllNew(r, d) && NoneStaged(r, d) && (r.coarse && d.backupDir ==> Undoable(r, d))
  }

  /** The staging directory went before the backup did: recovery goes back if the backup is there. */
  ghost predicate Gap(r: Restore, d: Disk) {
    r.coarse && !r.doneFirst && !d.stagingDir && (if d.backupDir then Undoable(r, d) else Uniform(r, d))
  }

  ghost predicate Rolling(r: Restore, d: Disk) { d.stagingDir && (Forward(r, d) || Landed(r, d)) }

  /** Every state a restore can die in. `gap` admits those that only a recovery can die in. */
  ghost predicate Reachable(r: Restore, d: Disk, gap: bool) {
    match d.marker
    case None => Uniform(r, d)
    case Some(m) =>
      && m.staged == r.after.Keys && m.originals == r.before.Keys
      && match m.phase
         case Staging => AllOld(r, d)
         case Done => Uniform(r, d)
         case Committing =>
           if m.rollbackOnly then Undoable(r, d) else Rolling(r, d) || (gap && Gap(r, d))
  }

  /** The state in which runRestoreDB writes its first marker. */
  ghost predicate Staged(r: Restore, d: Disk) {
    && d.marker == None && d.stagingDir && !d.backupDir
    && forall e :: e in r.entries ==> NotStarted(r, d, e)
  }

  // ----- rolling forward

  /** Two disks that differ in entry `e` at most. */
  ghost predicate SameBut(d: Disk, d': Disk, e: Entry) {
    && d'.marker == d.marker && d'.stagingDir == d.stagingDir
    && forall x :: x != e ==>
         At(d'.root, x) == At(d.root, x) && At(d'.backup, x) == At(d.backup, x) && At(d'.staging, x) == At(d.staging, x)
  }

  ghost predicate OnTheWay(r: Restore, d: Disk, e: Entry) {
    NotStarted(r, d, e) || BackedUp(r, d, e) || Promoted(r, d, e)
  }

  ghost predicate Arrived(r: Restore, d: Disk, e: Entry) { IsNew(r, d, e) && e !in d.staging }

  lemma {:induction false} ForwardStays(r: Restore, d: Disk, d': Disk, e: Entry)
    requires Forward(r, d) && SameBut(d, d', e) && OnTheWay(r, d', e)
    ensures Forward(r, d')
  {
    forall x | x in r.entries ensures OnTheWay(r, d', x) {
      assert OnTheWay(r, d, x);
    }
  }

  /** Moving aside an entry that has not started, then promoting it. */
  lemma {:induction false} CompleteNotStarted(r: Restore, s: Sys, e: Entry)
    requires e in s.disk.root && NotStarted(r, s.disk, e)
    ensures var t := Atomic(s, ToBackup(s.disk, e));
      && SameBut(s.disk, t.disk, e) && OnTheWay(r, t.disk, e)
      && (t.status == Ok ==> BackedUp(r, t.disk, e))
  {}

  lemma {:induction false} CompleteBackedUp(r: Restore, s: Sys, e: Entry)
    requires e in s.disk.staging && BackedUp(r, s.disk, e)
    ensures var t := Atomic(s, FromStaging(s.disk, e));
      && SameBut(s.disk, t.disk, e) && OnTheWay(r, t.disk, e)
      && (t.status == Ok ==> Promoted(r, t.disk, e))
  {}

  lemma {:induction false} CompleteEntryOnTheWay(r: Restore, s: Sys, e: Entry)
    requires OnTheWay(r, s.disk, e)
    ensures var t := CompleteEntry(s, e, r.after.Keys);
      && SameBut(s.disk, t.disk, e) && OnTheWay(r, t.disk, e)
      && (t.status == Ok ==> Arrived(r, t.disk, e))
      && (Arrived(r, s.disk, e) ==> Arrived(r, t.disk, e))
  {
    var s0 := Probe(s);
    if s0.status == Ok && !(e in s.disk.root && e !in s.disk.staging && e in r.after) {
      if e in s.disk.root {
        CompleteNotStarted(r, s0, e);
        var s1 := Atomic(s0, ToBackup(s0.disk, e));
        if e in s.disk.staging && s1.status == Ok {
          CompleteBackedUp(r, s1, e);
        }
      } else if e in s.disk.staging {
        CompleteBackedUp(r, s0, e);
      }
    }
  }

  lemma {:induction false} CompleteEntryKeeps(r: Restore, s: Sys, e: Entry)
    requires r.Valid() && e in r.entries && Rolling(r, s.disk)
    ensures var t := CompleteEntry(s, e, r.after.Keys);
      && Rolling(r, t.disk) && t.disk.marker == s.disk.marker
      && (t.status == Ok ==> Arrived(r, t.disk, e))
      && forall x :: x in r.entries && Arrived(r, s.disk, x) ==> Arrived(r, t.disk, x)
  {
    var t := CompleteEntry(s, e, r.after.Keys);
    if Forward(r, s.disk) {
      CompleteEntryOnTheWay(r, s, e);
      ForwardStays(r, s.disk, t.disk, e);
    } else {
      assert IsNew(r, s.disk, e);
      assert t.disk == s.disk;
    }
  }

  lemma {:induction false} CompleteFromKeeps(r: Restore, s: Sys, es: seq<Entry>)
    requires r.Valid() && Rolling(r, s.disk)
    requires forall e :: e in es ==> e in r.entries
    ensures var t := CompleteFrom(s, es, r.after.Keys);
      && Rolling(r, t.disk) && t.disk.marker == s.disk.marker
      && (t.status == Ok ==> forall e :: e in es ==> Arrived(r, t.disk, e))
      && forall x :: x in r.entries && Arrived(r, s.disk, x) ==> Arrived(r, t.disk, x)
    decreases |es|
  {
    if es != [] && s.status == Ok {
      CompleteEntryKeeps(r, s, es[0]);
      CompleteFromKeeps(r, CompleteEntry(s, es[0], r.after.Keys), es[1..]);
    }
  }

  lemma {:induction false} ForwardIsUndoable(r: Restore, d: Disk)
    requires Forward(r, d)
    ensures Undoable(r, d)
  {
    forall e | e in r.entries ensures EntryUndoable(r, d, e) {
      assert OnTheWay(r, d, e);
    }
  }

  lemma {:induction false} CompleteKeeps(r: Restore, s: Sys)
    requires r.Valid() && Rolling(r, s.disk)
    ensures var t := CompleteReplacement(s, r.entries, r.after.Keys);
      && Rolling(r, t.disk) && t.disk.marker == s.disk.marker
      && (t.status == Ok ==> Landed(r, t.disk))
  {
    CompleteFromKeeps(r, s, r.entries);
    var t := CompleteReplacement(s, r.entries, r.after.Keys);
    if t.status == Ok {
      assert forall e :: e in r.entries ==> Arrived(r, t.disk, e);
      if Forward(r, t.disk) {
        ForwardIsUndoable(r, t.disk);
      }
    }
  }

  // ----- rolling back

  ghost predicate Restored(r: Restore, d: Disk, e: Entry) { IsOld(r, d, e) && e !in d.backup }

  /** Nothing but the root and the backup differ. */
  ghost predicate SameFrame(d: Disk, d': Disk) {
    d' == d.(root := d'.root, backup := d'.backup)
  }

  lemma {:induction false} UndoableStays(r: Restore, d: Disk, d': Disk, e: Entry)
    requires Undoable(r, d) && SameBut(d, d', e) && EntryUndoable(r, d', e)
    ensures Undoable(r, d')
  {
    forall x | x in r.entries ensures EntryUndoable(r, d', x) {
      assert EntryUndoable(r, d, x);
    }
  }

  /** Clearing a target, and tearing it, is safe when its old content is in the backup or never was. */
  lemma {:induction false} ClearTarget(r: Restore, s: Sys, e: Entry)
    requires EntryUndoable(r, s.disk, e) && (e in r.before ==> e in s.disk.backup)
    ensures var t := RemoveTarget(s, e);
      && SameBut(s.disk, t.disk, e) && t.disk == s.disk.(root := t.disk.root) && EntryUndoable(r, t.disk, e)
      && (e !in s.disk.root ==> e !in t.disk.root)
      && (t.status == Ok ==> e !in t.disk.root)
  {}

  lemma {:induction false} PutBackRename(r: Restore, s: Sys, e: Entry)
    requires e in s.disk.backup && EntryUndoable(r, s.disk, e)
    ensures var t := Atomic(s, FromBackup(s.disk, e));
      && SameBut(s.disk, t.disk, e) && SameFrame(s.disk, t.disk) && EntryUndoable(r, t.disk, e)
      && (t.status == Ok ==> Restored(r, t.disk, e))
  {}

  lemma {:induction false} RestoreEntryStep(r: Restore, s: Sys, e: Entry)
    requires EntryUndoable(r, s.disk, e)
    ensures var t := RestoreEntry(s, e, r.before.Keys);
      && SameBut(s.disk, t.disk, e) && SameFrame(s.disk, t.disk) && EntryUndoable(r, t.disk, e)
      && (t.status == Ok || Restored(r, s.disk, e) ==> Restored(r, t.disk, e))
  {
    var s0 := Probe(s);
    if s0.status == Ok && (e in s.disk.backup || e !in r.before) {
      ClearTarget(r, s0, e);
      if e in s.disk.backup && RemoveTarget(s0, e).status == Ok {
        PutBackRename(r, RemoveTarget(s0, e), e);
      }
    }
  }

  lemma {:induction false} RestoreFromKeeps(r: Restore, s: Sys, es: seq<Entry>)
    requires Undoable(r, s.disk)
    requires forall e :: e in es ==> e in r.entries
    ensures var t := RestoreFrom(s, es, r.before.Keys);
      && Undoable(r, t.disk) && SameFrame(s.disk, t.disk)
      && (t.status == Ok ==> forall e :: e in es ==> Restored(r, t.disk, e))
      && forall x :: x in r.entries && Restored(r, s.disk, x) ==> Restored(r, t.disk, x)
    decreases |es|
  {
    if es != [] && s.status == Ok {
      var n := |es| - 1;
      assert EntryUndoable(r, s.disk, es[n]);
      RestoreEntryStep(r, s, es[n]);
      var s1 := RestoreEntry(s, es[n], r.before.Keys);
      UndoableStays(r, s.disk, s1.disk, es[n]);
      RestoreFromKeeps(r, s1, es[..n]);
    }
  }

  lemma {:induction false} RestoreKeeps(r: Restore, s: Sys)
    requires Undoable(r, s.disk)
    ensures var t := RestoreBackup(s, r.entries, r.before.Keys);
      && Undoable(r, t.disk) && SameFrame(s.disk, t.disk)
      && (t.status == Ok ==> AllOld(r, t.disk) && NoneBacked(r, t.disk))
  {
    RestoreFromKeeps(r, s, r.entries);
    var t := RestoreBackup(s, r.entries, r.before.Keys);
    if t.status == Ok {
      assert forall e :: e in r.entries ==> Restored(r, t.disk, e);
    }
  }

  // ----- a replacement and its own rollback

  /** What replaceContents knows about the entries it has moved aside and promoted. */
  ghost predicate Ledger(r: Restore, d: Disk, moved: seq<Entry>, promoted: seq<Entry>) {
    && NoDup(moved)
    && (forall e :: e in moved || e in promoted ==> e in r.entries)
    && (forall e :: e in r.entries ==> (e in d.backup <==> e in moved))
    && (forall e :: e in promoted && e in r.before ==> e in moved)
    && (forall e :: e in r.entries && e !in moved && e !in promoted ==> IsOld(r, d, e))
  }

  lemma {:induction false} MoveEntryKeeps(r: Restore, p: Promotion, e: Entry)
    requires Forward(r, p.s.disk) && Ledger(r, p.s.disk, p.moved, p.promoted) && p.s.status == Ok
    requires e in r.entries && NotStarted(r, p.s.disk, e)
    ensures var q := MoveEntry(p, e);
      && Forward(r, q.s.disk) && q.promoted == p.promoted && SameBut(p.s.disk, q.s.disk, e)
      && (q.s.status != Crashed ==> Ledger(r, q.s.disk, q.moved, q.promoted))
      && (q.s.status == Ok ==> BackedUp(r, q.s.disk, e))
  {
    var q := MoveEntry(p, e);
    if e in p.s.disk.root {
      CompleteNotStarted(r, p.s, e);
    }
    ForwardStays(r, p.s.disk, q.s.disk, e);
    assert forall x :: x in q.moved ==> x == e || x in p.moved;
  }

  lemma {:induction false} MoveAsideKeeps(r: Restore, p: Promotion, es: seq<Entry>)
    requires Forward(r, p.s.disk) && NoDup(es)
    requires p.s.status != Crashed ==> Ledger(r, p.s.disk, p.moved, p.promoted)
    requires p.s.status == Ok ==> forall e :: e in es ==> e in r.entries && NotStarted(r, p.s.disk, e)
    ensures var q := MoveAside(p, es);
      && Forward(r, q.s.disk) && q.promoted == p.promoted
      && q.s.disk.marker == p.s.disk.marker && q.s.disk.stagingDir == p.s.disk.stagingDir
      && (q.s.status != Crashed ==> Ledger(r, q.s.disk, q.moved, q.promoted))
      && (q.s.status == Ok ==> forall e :: e in es ==> BackedUp(r, q.s.disk, e))
      && forall x :: x !in es && BackedUp(r, p.s.disk, x) ==> BackedUp(r, q.s.disk, x)
    decreases |es|
  {
    if es != [] && p.s.status == Ok {
      MoveEntryKeeps(r, p, es[0]);
      MoveAsideKeeps(r, MoveEntry(p, es[0]), es[1..]);
    }
  }

  lemma {:induction false} PromoteEntryKeeps(r: Restore, p: Promotion, e: Entry)
    requires Forward(r, p.s.disk) && Ledger(r, p.s.disk, p.moved, p.promoted) && p.s.status == Ok
    requires e in r.entries && BackedUp(r, p.s.disk, e)
    ensures var q := PromoteEntry(p, e);
      && Forward(r, q.s.disk) && SameBut(p.s.disk, q.s.disk, e)
      && (q.s.status != Crashed ==> Ledger(r, q.s.disk, q.moved, q.promoted))
      && (q.s.status == Ok ==> Promoted(r, q.s.disk, e))
  {
    var q := PromoteEntry(p, e);
    if e in p.s.disk.staging {
      CompleteBackedUp(r, p.s, e);
    }
    ForwardStays(r, p.s.disk, q.s.disk, e);
    assert forall x :: x in q.promoted ==> x == e || x in p.promoted;
  }

  lemma {:induction false} PromoteKeeps(r: Restore, p: Promotion, es: seq<Entry>)
    requires Forward(r, p.s.disk) && NoDup(es)
    requires p.s.status != Crashed ==> Ledger(r, p.s.disk, p.moved, p.promoted)
    requires p.s.status == Ok ==> forall e :: e in es ==> e in r.entries && BackedUp(r, p.s.disk, e)
    ensures var q := Promote(p, es);
      && Forward(r, q.s.disk)
      && q.s.disk.marker == p.s.disk.marker && q.s.disk.stagingDir == p.s.disk.stagingDir
      && (q.s.status != Crashed ==> Ledger(r, q.s.disk, q.moved, q.promoted))
      && (q.s.status == Ok ==> forall e :: e in es ==> Promoted(r, q.s.disk, e))
      && forall x :: x !in es && Promoted(r, p.s.disk, x) ==> Promoted(r, q.s.disk, x)
    decreases |es|
  {
    if es != [] && p.s.status == Ok {
      PromoteEntryKeeps(r, p, es[0]);
      PromoteKeeps(r, PromoteEntry(p, es[0]), es[1..]);
    }
  }

  lemma {:induction false} DropPromotedKeeps(r: Restore, u: Undo, names: seq<Entry>)
    requires Undoable(r, u.s.disk) && u.s.status in {Ok, Crashed}
    requires forall e :: e in names ==> e in r.entries && (e in r.before ==> e in u.s.disk.backup)
    ensures var v := DropPromoted(u, names);
      && Undoable(r, v.s.disk) && v.s.disk == u.s.disk.(root := v.s.disk.root)
      && v.s.status in {Ok, Crashed} && (v.clean ==> u.clean)
      && (v.clean && v.s.status == Ok ==> forall e :: e in names ==> e !in v.s.disk.root)
      && (forall x :: x !in u.s.disk.root ==> x !in v.s.disk.root)
      && (forall x :: x !in names ==> At(v.s.disk.root, x) == At(u.s.disk.root, x))
    decreases |names|
  {
    if names != [] && u.s.status == Ok {
      var n := |names| - 1;
      var u1 := Absorb(u, RemoveTarget(u.s, names[n]));
      ClearTarget(r, u.s, names[n]);
      UndoableStays(r, u.s.disk, u1.s.disk, names[n]);
      DropPromotedKeeps(r, u1, names[..n]);
    }
  }

  lemma {:induction false} PutBackEntryStep(r: Restore, s: Sys, e: Entry)
    requires s.status == Ok && e in s.disk.backup && EntryUndoable(r, s.disk, e)
    ensures var t := PutBackEntry(s, e);
      && SameBut(s.disk, t.disk, e) && SameFrame(s.disk, t.disk) && EntryUndoable(r, t.disk, e)
      && (t.status == Ok ==> Restored(r, t.disk, e))
  {
    ClearTarget(r, s, e);
    var s1 := RemoveTarget(s, e);
    if s1.status == Ok {
      PutBackRename(r, s1, e);
    }
  }

  lemma {:induction false} LastApart(names: seq<Entry>)
    requires NoDup(names) && names != []
    ensures var n := |names| - 1;
      NoDup(names[..n]) && names[n] !in names[..n] && forall x :: x in names <==> x in names[..n] || x == names[n]
  {
    var n := |names| - 1;
    assert names == names[..n] + [names[n]];
  }

  lemma {:induction false} PutBackOne(r: Restore, u: Undo, e: Entry)
    requires Undoable(r, u.s.disk) && u.s.status == Ok && e in r.entries && e in u.s.disk.backup
    ensures var v := Absorb(u, PutBackEntry(u.s, e));
      && Undoable(r, v.s.disk) && SameFrame(u.s.disk, v.s.disk) && SameBut(u.s.disk, v.s.disk, e)
      && v.s.status in {Ok, Crashed} && (v.clean ==> u.clean)
      && (v.clean && v.s.status == Ok ==> Restored(r, v.s.disk, e))
  {
    assert EntryUndoable(r, u.s.disk, e);
    PutBackEntryStep(r, u.s, e);
    UndoableStays(r, u.s.disk, PutBackEntry(u.s, e).disk, e);
  }

  lemma {:induction false} PutBackKeeps(r: Restore, u: Undo, names: seq<Entry>)
    requires Undoable(r, u.s.disk) && u.s.status in {Ok, Crashed} && NoDup(names)
    requires forall e :: e in names ==> e in r.entries
    requires u.s.status == Ok ==> forall e :: e in names ==> e in u.s.disk.backup
    ensures var v := PutBack(u, names);
      && Undoable(r, v.s.disk) && SameFrame(u.s.disk, v.s.disk)
      && v.s.status in {Ok, Crashed} && (v.clean ==> u.clean)
      && (v.clean && v.s.status == Ok ==> forall e :: e in names ==> Restored(r, v.s.disk, e))
      && (forall x :: x !in names ==>
            At(v.s.disk.root, x) == At(u.s.disk.root, x) && At(v.s.disk.backup, x) == At(u.s.disk.backup, x))
    decreases |names|
  {
    if names != [] && u.s.status == Ok {
      var n := |names| - 1;
      var e := names[n];
      var u1 := Absorb(u, PutBackEntry(u.s, e));
      PutBackOne(r, u, e);
      LastApart(names);
      assert forall x :: x in names[..n] ==> At(u1.s.disk.backup, x) == At(u.s.disk.backup, x);
      PutBackKeeps(r, u1, names[..n]);
    }
  }

  lemma {:induction false} AllRestored(r: Restore, d: Disk)
    requires forall e :: e in r.entries ==> Restored(r, d, e)
    ensures AllOld(r, d) && NoneBacked(r, d) && Undoable(r, d)
  {
    assert forall e :: e in r.entries ==> Restored(r, d, e) && EntryUndoable(r, d, e);
  }

  /** Once nothing is backed up any more, no removal of the backup can do harm. */
  lemma {:induction false} RemoveBackupKeepsOld(r: Restore, s: Sys)
    requires AllOld(r, s.disk) && NoneBacked(r, s.disk)
    ensures var t := RemoveBackup(r, s).disk;
      && AllOld(r, t) && NoneBacked(r, t) && Undoable(r, t)
      && t.marker == s.disk.marker && t.root == s.disk.root
  {
    var t := RemoveBackup(r, s).disk;
    assert forall e :: e in r.entries ==> IsOld(r, s.disk, e) && e !in s.disk.backup;
    forall e | e in r.entries ensures Restored(r, t, e) {}
    AllRestored(r, t);
  }

  lemma {:induction false} UndoKeeps(r: Restore, s: Sys, moved: seq<Entry>, promoted: seq<Entry>)
    requires s.status == Ok && Undoable(r, s.disk) && Ledger(r, s.disk, moved, promoted)
    ensures var v := PutBack(DropPromoted(Undo(s, true), promoted), moved);
      && Undoable(r, v.s.disk) && v.s.disk.marker == s.disk.marker && v.s.status in {Ok, Crashed}
      && (v.clean && v.s.status == Ok ==> AllOld(r, v.s.disk) && NoneBacked(r, v.s.disk))
  {
    var u0 := DropPromoted(Undo(s, true), promoted);
    DropPromotedKeeps(r, Undo(s, true), promoted);
    PutBackKeeps(r, u0, moved);
    var v := PutBack(u0, moved);
    if v.clean && v.s.status == Ok {
      forall e | e in r.entries ensures Restored(r, v.s.disk, e) {
        if e in moved {
          assert Restored(r, v.s.disk, e);
        } else if e in promoted {
          assert e !in u0.s.disk.root;
        } else {
          assert IsOld(r, s.disk, e);
        }
      }
      AllRestored(r, v.s.disk);
    }
  }

  lemma {:induction false} DiscardKeeps(r: Restore, s: Sys)
    requires AllOld(r, s.disk) && NoneBacked(r, s.disk) && s.status == Ok
    ensures var t := DiscardBackup(r, s);
      && Undoable(r, t.disk) && t.disk.marker == s.disk.marker && t.status in {Err, Crashed}
      && AllOld(r, t.disk) && NoneBacked(r, t.disk)
  {
    RemoveBackupKeepsOld(r, s);
  }

  lemma {:induction false} RestoreContentsKeeps(r: Restore, s: Sys, moved: seq<Entry>, promoted: seq<Entry>)
    requires s.status == Ok && Undoable(r, s.disk) && Ledger(r, s.disk, moved, promoted)
    ensures var t := RestoreContents(r, s, moved, promoted);
      && Undoable(r, t.disk) && t.disk.marker == s.disk.marker
      && t.status in {Err, RollbackErr, Crashed}
      && (t.status == Err ==> AllOld(r, t.disk) && NoneBacked(r, t.disk))
  {
    UndoKeeps(r, s, moved, promoted);
    var v := PutBack(DropPromoted(Undo(s, true), promoted), moved);
    var w := Absorb(v, Probe(v.s));
    assert w.s.disk == v.s.disk && w.s.status in {Ok, Crashed} && (w.clean ==> v.clean);
    if w.clean && w.s.status == Ok {
      DiscardKeeps(r, w.s);
    }
  }

  lemma {:induction false} RollbackKeeps(r: Restore, p: Promotion, hook: Option<Marker>)
    requires Forward(r, p.s.disk) && p.s.disk.stagingDir && Ledger(r, p.s.disk, p.moved, p.promoted)
    ensures var t := Rollback(r, p, hook);
      && t.status in {Err, RollbackErr, Crashed}
      && (t.status == Err ==> AllOld(r, t.disk) && NoneBacked(r, t.disk))
      && Undoable(r, t.disk)
      && (hook.Some? ==>
            || (t.disk.marker == p.s.disk.marker && Rolling(r, t.disk))
            || (t.disk.marker == hook && Undoable(r, t.disk)))
  {
    ForwardIsUndoable(r, p.s.disk);
    var s := p.s.(status := Ok);
    var s1 := if hook.Some? then SetMarker(s, hook) else s;
    if s1.status == Ok {
      RestoreContentsKeeps(r, s1, p.moved, p.promoted);
    }
  }

  /** Moving everything aside and then promoting everything. */
  lemma {:induction false} ForwardKeeps(r: Restore, s: Sys)
    requires r.Valid() && s.status == Ok && s.disk.stagingDir
    requires forall e :: e in r.entries ==> NotStarted(r, s.disk, e)
    ensures var p := Promote(MoveAside(Promotion(s, [], []), r.entries), r.entries);
      && Forward(r, p.s.disk) && p.s.disk.stagingDir && p.s.disk.marker == s.disk.marker
      && (p.s.status != Crashed ==> Ledger(r, p.s.disk, p.moved, p.promoted))
      && (p.s.status == Ok ==> AllNew(r, p.s.disk) && NoneStaged(r, p.s.disk))
  {
    var p0 := Promotion(s, [], []);
    MoveAsideKeeps(r, p0, r.entries);
    var p1 := MoveAside(p0, r.entries);
    PromoteKeeps(r, p1, r.entries);
    var p := Promote(p1, r.entries);
    if p.s.status == Ok {
      assert forall e :: e in r.entries ==> Promoted(r, p.s.disk, e);
    }
  }

  /** The removal of the backup after the commit, partial or not, leaves a landed store. */
  lemma {:induction false} RemoveBackupKeepsNew(r: Restore, s: Sys)
    requires Landed(r, s.disk)
    ensures var t := RemoveBackup(r, s).disk;
      && Landed(r, t) && t.marker == s.disk.marker && t.stagingDir == s.disk.stagingDir
  {
    var t := RemoveBackup(r, s).disk;
    assert t.root == s.disk.root && t.staging == s.disk.staging;
    forall e | e in r.entries ensures IsNew(r, t, e) && e !in t.staging {
      assert IsNew(r, s.disk, e) && e !in s.disk.staging;
    }
  }

  lemma {:induction false} SettleKeeps(r: Restore, p: Promotion, hook: Option<Marker>)
    requires Forward(r, p.s.disk) && p.s.disk.stagingDir
    requires p.s.status != Crashed ==> Ledger(r, p.s.disk, p.moved, p.promoted)
    requires p.s.status == Ok ==> AllNew(r, p.s.disk) && NoneStaged(r, p.s.disk)
    ensures var t := Settle(r, p, hook);
      && (t.status in {Ok, CommittedErr} ==> t.disk.marker == p.s.disk.marker && Landed(r, t.disk))
      && (t.status == Err ==> AllOld(r, t.disk))
      && (t.status in {Err, RollbackErr} ==> Undoable(r, t.disk))
      && (hook.Some? ==>
            || (t.disk.marker == p.s.disk.marker && Rolling(r, t.disk))
            || (t.disk.marker == hook && Undoable(r, t.disk)))
  {
    var s := Probe(p.s);
    if s.status == Ok {
      ForwardIsUndoable(r, s.disk);
      RemoveBackupKeepsNew(r, s);
    } else if s.status != Crashed {
      RollbackKeeps(r, p.(s := s), hook);
    }
  }

  /** replaceContents from a staged store: what each outcome means for the live root, and that it
      can die only where recovery knows what to do. */
  lemma {:induction false} ReplaceKeeps(r: Restore, s: Sys, hook: Option<Marker>)
    requires r.Valid() && s.status == Ok && s.disk.stagingDir
    requires forall e :: e in r.entries ==> NotStarted(r, s.disk, e)
    ensures var t := ReplaceContents(r, s, hook);
      && (t.status in {Ok, CommittedErr} ==> t.disk.marker == s.disk.marker && Landed(r, t.disk))
      && (t.status == Err ==> AllOld(r, t.disk))
      && (t.status in {Err, RollbackErr} ==> Undoable(r, t.disk))
      && (hook.Some? ==>
            || (t.disk.marker == s.disk.marker && Rolling(r, t.disk))
            || (t.disk.marker == hook && Undoable(r, t.disk)))
  {
    var s1 := Flaky(s, s.disk.(backupDir := true));
    forall e | e in r.entries ensures NotStarted(r, s1.disk, e) && IsOld(r, s1.disk, e) {
      assert NotStarted(r, s.disk, e);
    }
    ForwardIsUndoable(r, s1.disk);
    if s1.status == Ok {
      ForwardKeeps(r, s1);
      SettleKeeps(r, Promote(MoveAside(Promotion(s1, [], []), r.entries), r.entries), hook);
    }
  }
}
