/**
 An edit in which anything may fail, the compensations too, or whose process dies. A compensation that
 fails is passed over, so the states in which a process can die are those of a plan in which
 everything from some operation on fails. No file's old content is ever lost, and no row that the edit
 has not deleted loses its name or note.
 */
module EditInterrupted {
  import opened Common
  import opened EditSaga
  import opened EditUndo

  // ----- files

  /** What was in a file is still there or in a backup. */
  ghost predicate NoFileLost(now: Files, was: Files) {
    forall p :: p in was ==> At(now, p) == Some(was[p]) || exists n :: At(now, Backup(n)) == Some(was[p])
  }

  /** Place q holds what was in place p: p itself while no commit has touched it; the backup that the
      first commit on p has made; or a backup that no commit knows of. */
  ghost predicate HeldAt(files: Files, committed: seq<Committed>, p: Path, v: string, q: Path) {
    && At(files, q) == Some(v)
    && ((q == p && forall c :: c in committed ==> c.final != p && c.backup != Some(p)) ||
        (q.Backup? && forall i :: 0 <= i < |committed| && committed[i].backup == Some(q) ==>
           committed[i].final == p && forall k :: 0 <= k < i ==> committed[k].final != p))
  }

  ghost predicate Held(files: Files, committed: seq<Committed>, p: Path, v: string) {
    exists q :: HeldAt(files, committed, p, v, q)
  }

  /** Each backup belongs to one commit and has a name that was handed out. */
  ghost predicate BackupsApart(committed: seq<Committed>, next: nat) {
    && (forall c :: c in committed ==>
          c.final.Final? && (c.backup.Some? ==> c.backup.value.Backup? && c.backup.value.n < next))
    && (forall i, k :: 0 <= i < k < |committed| && committed[i].backup.Some? ==>
          committed[i].backup != committed[k].backup)
  }

  ghost predicate Sane(s: Edit) {
    && UnusedNames(s.files, s.next) && BackupsApart(s.committed, s.next)
    && (forall st :: st in s.staged ==> st.temp.Temp? && st.final.Final?)
  }

  ghost predicate HoldsFile(s: Edit, p: Path, v: string) {
    && (p.Temp? ==> p.n < s.next) && (forall st :: st in s.staged ==> st.temp != p)
    && Held(s.files, s.committed, p, v)
  }

  lemma {:induction false} StageHolds(s: Edit, kind: Kind, inputs: seq<Input>, p: Path, v: string)
    requires Sane(s) && HoldsFile(s, p, v)
    ensures var t := StageAll(s, kind, inputs); Sane(t) && HoldsFile(t, p, v)
    decreases |inputs|
  {
    if inputs != [] && s.ok {
      var t := StageOne(s, kind, inputs[0]);
      var q :| HeldAt(s.files, s.committed, p, v, q);
      StageOneHolds(s, kind, inputs[0], p, v, q);
      StageHolds(t, kind, inputs[1..], p, v);
    }
  }

  lemma {:induction false} StageOneHolds(s: Edit, kind: Kind, input: Input, p: Path, v: string, q: Path)
    requires Sane(s) && HeldAt(s.files, s.committed, p, v, q)
    requires (p.Temp? ==> p.n < s.next) && forall st :: st in s.staged ==> st.temp != p
    ensures var t := StageOne(s, kind, input);
      && Sane(t) && HeldAt(t.files, t.committed, p, v, q) && t.next >= s.next
      && forall st :: st in t.staged ==> st.temp != p
  {}

  /** An existing file moves to a backup that no commit knows of yet. */
  lemma {:induction false} AsideHolds(s: Edit, st: Staged, p: Path, v: string, q: Path) returns (q1: Path)
    requires s.ok && Sane(s) && st.final.Final? && HeldAt(s.files, s.committed, p, v, q)
    ensures var t := MoveAside(s, st);
      && HeldAt(t.files, t.committed, p, v, q1) && t.committed == s.committed
      && (q1 == q || (t.ok && q1 == Backup(s.next) && q == p == st.final))
      && (q1 == p ==> p != Backup(s.next) && (t.ok ==> p != st.final))
  {
    q1 := if MoveAside(s, st).ok && q == p && st.final == p then Backup(s.next) else q;
  }

  /** The staged file in its place: the commit is noted with that backup. */
  lemma {:induction false} PlacedHolds(
    files: Files, committed: seq<Committed>, st: Staged, backup: Option<Path>, p: Path, v: string, q1: Path)
    requires HeldAt(files, committed, p, v, q1) && st.temp.Temp? && st.temp != p && st.final.Final?
    requires q1 == p ==> p != st.final && backup != Some(p)
    requires backup == Some(q1) ==> st.final == p && forall c :: c in committed ==> c.final != p
    requires st.temp in files
    ensures HeldAt(files[st.final := files[st.temp]] - {st.temp}, committed + [Committed(st.final, backup)], p, v, q1)
  {
    var c := Committed(st.final, backup);
    assert forall x :: x in committed + [c] <==> x in committed || x == c;
    if q1 != p {
      forall i | 0 <= i < |committed + [c]| && (committed + [c])[i].backup == Some(q1)
        ensures (committed + [c])[i].final == p && forall k :: 0 <= k < i ==> (committed + [c])[k].final != p
      {
        if i == |committed| {
          assert forall k :: 0 <= k < i ==> (committed + [c])[k] in committed;
        } else {
          assert (committed + [c])[i] == committed[i];
        }
      }
    }
  }

  /** The old file moved back. */
  lemma {:induction false} MovedBackHolds(
    files: Files, committed: seq<Committed>, st: Staged, b: Path, p: Path, v: string, q: Path, q1: Path)
    requires HeldAt(files, committed, p, v, q1) && b.Backup? && st.final.Final?
    requires q1 != b ==> q1 != st.final
    requires q1 == b ==> st.final == p && forall c :: c in committed ==> c.final != p && c.backup != Some(p)
    ensures Held(MovedBack(files, st.final, b), committed, p, v)
  {
    assert HeldAt(MovedBack(files, st.final, b), committed, p, v, if q1 == b then p else q1);
  }

  lemma {:induction false} CommitOneSane(s: Edit, st: Staged)
    requires s.ok && Sane(s) && st.final.Final? && st.temp.Temp?
    ensures var t := CommitOne(s, st); Sane(t) && t.staged == s.staged
  {
    var aside := MoveAside(s, st);
    assert UnusedNames(aside.files, aside.next) && aside.next >= s.next && aside.committed == s.committed;
    if aside.ok {
      var backup := if st.final in s.files then Some(Backup(s.next)) else None;
      var t := PutInPlace(aside, st, backup);
      assert UnusedNames(t.files, t.next) && t.next == aside.next && t.staged == s.staged;
      if t.ok {
        BackupsStayApart(s.committed, Committed(st.final, backup), s.next, t.next);
      }
    }
  }

  lemma {:induction false} BackupsStayApart(committed: seq<Committed>, c: Committed, next: nat, next': nat)
    requires BackupsApart(committed, next) && next' >= next && c.final.Final?
    requires c.backup.Some? ==> c.backup == Some(Backup(next)) && next' > next
    ensures BackupsApart(committed + [c], next')
  {
    var more := committed + [c];
    forall i, k | 0 <= i < k < |more| && more[i].backup.Some? ensures more[i].backup != more[k].backup {
      assert more[i] in committed;
    }
  }

  /** A commit moves what is held in its place, for the first time, to a backup; nothing else. */
  lemma {:induction false} CommitHolds(s: Edit, st: Staged, p: Path, v: string)
    requires s.ok && Sane(s) && st in s.staged && HoldsFile(s, p, v)
    ensures var t := CommitOne(s, st); Sane(t) && HoldsFile(t, p, v)
  {
    var q :| HeldAt(s.files, s.committed, p, v, q);
    CommitOneSane(s, st);
    var q1 := AsideHolds(s, st, p, v, q);
    var aside := MoveAside(s, st);
    if aside.ok {
      PlaceHolds(s, st, p, v, q, q1);
    } else {
      assert HeldAt(CommitOne(s, st).files, s.committed, p, v, q1);
    }
  }

  lemma {:induction false} PlaceHolds(s: Edit, st: Staged, p: Path, v: string, q: Path, q1: Path)
    requires s.ok && Sane(s) && st.final.Final? && st.temp.Temp? && st.temp != p
    requires HeldAt(s.files, s.committed, p, v, q) && MoveAside(s, st).ok
    requires HeldAt(MoveAside(s, st).files, s.committed, p, v, q1)
    requires q1 == q || (q1 == Backup(s.next) && q == p == st.final)
    requires q1 == p ==> p != Backup(s.next) && p != st.final
    ensures var t := CommitOne(s, st); Held(t.files, t.committed, p, v)
  {
    var aside, b := MoveAside(s, st), Backup(s.next);
    var backup := if st.final in s.files then Some(b) else None;
    var t := CommitOne(s, st);
    if Works(aside.plan) && st.temp in aside.files {
      PlacedHolds(aside.files, s.committed, st, backup, p, v, q1);
    } else if t.files != aside.files {
      MovedBackHolds(aside.files, s.committed, st, b, p, v, q, q1);
    }
  }

  lemma {:induction false} CommitAllHolds(s: Edit, staged: seq<Staged>, p: Path, v: string)
    requires Sane(s) && HoldsFile(s, p, v) && forall st :: st in staged ==> st in s.staged
    ensures var t := CommitAll(s, staged); Sane(t) && HoldsFile(t, p, v)
    decreases |staged|
  {
    if staged != [] && s.ok {
      CommitHolds(s, staged[0], p, v);
      CommitOneSane(s, staged[0]);
      CommitAllHolds(CommitOne(s, staged[0]), staged[1..], p, v);
    }
  }

  /** The commit that is undone gives back what it has moved, or leaves it in its backup. */
  lemma {:induction false} UndoCommitHolds(s: Edit, committed: seq<Committed>, next: nat, p: Path, v: string)
    requires committed != [] && BackupsApart(committed, next) && Held(s.files, committed, p, v)
    ensures var n := |committed| - 1; Held(UndoCommit(s, committed[n]).files, committed[..n], p, v)
  {
    var n := |committed| - 1;
    var c, t := committed[n], UndoCommit(s, committed[n]);
    var q :| HeldAt(s.files, committed, p, v, q);
    assert c in committed && forall x :: x in committed[..n] ==> x in committed;
    if c.backup == Some(q) {
      assert c.final == p;
      NotBefore(committed, p);
      if t.files == MovedBack(s.files, p, q) || t.files == MovedBack(s.files - {p}, p, q) {
        assert HeldAt(t.files, committed[..n], p, v, p);
      } else {
        assert HeldAt(t.files, committed[..n], p, v, q);
      }
    } else {
      assert HeldAt(t.files, committed[..n], p, v, q);
    }
  }

  lemma {:induction false} NotBefore(committed: seq<Committed>, p: Path)
    requires committed != []
    requires forall k :: 0 <= k < |committed| - 1 ==> committed[k].final != p
    ensures forall c :: c in committed[..|committed| - 1] ==> c.final != p
  {}

  lemma {:induction false} ApartBefore(committed: seq<Committed>, next: nat)
    requires committed != [] && BackupsApart(committed, next)
    ensures BackupsApart(committed[..|committed| - 1], next)
  {
    assert forall c :: c in committed[..|committed| - 1] ==> c in committed;
  }

  lemma {:induction false} UndoCommitsHold(s: Edit, committed: seq<Committed>, next: nat, p: Path, v: string)
    requires BackupsApart(committed, next) && Held(s.files, committed, p, v)
    ensures Held(UndoCommits(s, committed).files, [], p, v)
    decreases |committed|
  {
    if committed != [] {
      var n := |committed| - 1;
      UndoCommitHolds(s, committed, next, p, v);
      ApartBefore(committed, next);
      UndoCommitsHold(UndoCommit(s, committed[n]), committed[..n], next, p, v);
    }
  }

  lemma {:induction false} CleanUpHolds(s: Edit, staged: seq<Staged>, p: Path, v: string)
    requires Held(s.files, [], p, v) && forall st :: st in staged ==> st.temp.Temp? && st.temp != p
    ensures Held(CleanUp(s, staged).files, [], p, v)
    decreases |staged|
  {
    if staged != [] {
      var next := Best(s, s.(files := s.files - {staged[0].temp}));
      var q :| HeldAt(s.files, [], p, v, q);
      assert HeldAt(next.files, [], p, v, q);
      CleanUpHolds(next, staged[1..], p, v);
    }
  }

  /** Before the commits, after so many of them, and after all forward steps. */
  lemma {:induction false} ForwardHolds(s: Edit, j: Job, k: nat, p: Path)
    requires Starts(s, j) && p in s.files
    ensures var u := Upserting(Staging(s, j), j);
      && Sane(u) && HoldsFile(u, p, s.files[p])
      && (k <= |u.staged| ==>
            Sane(CommitAll(u, u.staged[..k])) && HoldsFile(CommitAll(u, u.staged[..k]), p, s.files[p]))
      && Sane(Forward(s, j)) && HoldsFile(Forward(s, j), p, s.files[p])
  {
    var v, s1 := s.files[p], UpdateRecord(s, j.record);
    assert HeldAt(s1.files, s1.committed, p, v, p);
    StageHolds(s1, Figure, j.figures, p, v);
    StageHolds(StageAll(s1, Figure, j.figures), Data, j.data, p, v);
    var u := Upserting(Staging(s, j), j);
    UpsertingSane(Staging(s, j), j, p, v);
    if k <= |u.staged| {
      CommitAllHolds(u, u.staged[..k], p, v);
    }
    CommitAllHolds(u, u.staged, p, v);
  }

  lemma {:induction false} UpsertingSane(s: Edit, j: Job, p: Path, v: string)
    requires Sane(s) && HoldsFile(s, p, v)
    ensures var u := Upserting(s, j); Sane(u) && HoldsFile(u, p, v)
  {
    UpsertNext(s, Figure, ByName(j.oldFigures), j.figures);
    UpsertNext(UpsertAll(s, Figure, ByName(j.oldFigures), j.figures), Data, ByName(j.oldData), j.data);
    SaneLater(s, Upserting(s, j));
  }

  lemma {:induction false} SaneLater(s: Edit, u: Edit)
    requires Sane(s) && u.next >= s.next && u.files == s.files && u.committed == s.committed && u.staged == s.staged
    ensures Sane(u)
  {}

  lemma {:induction false} UpsertNext(s: Edit, kind: Kind, known: map<string, OldRow>, inputs: seq<Input>)
    ensures UpsertAll(s, kind, known, inputs).next >= s.next
    decreases |inputs|
  {
    if inputs != [] && s.ok {
      UpsertNext(UpsertOne(s, kind, known, inputs[0]), kind, known, inputs[1..]);
    }
  }

  /** After the steps before the commits, so many commits, and the first rename of the next one. */
  function BetweenRenames(s: Edit, j: Job, k: nat): Edit
    requires k < |Upserting(Staging(s, j), j).staged|
  {
    var u := Upserting(Staging(s, j), j);
    MoveAside(CommitAll(u, u.staged[..k]), u.staged[k])
  }

  lemma {:induction false} BetweenRenamesHolds(s: Edit, j: Job, k: nat, p: Path)
    requires Starts(s, j) && p in s.files && k < |Upserting(Staging(s, j), j).staged|
    ensures var t := BetweenRenames(s, j, k); Held(t.files, t.committed, p, s.files[p])
  {
    ForwardHolds(s, j, k, p);
    var u := Upserting(Staging(s, j), j);
    var c := CommitAll(u, u.staged[..k]);
    var q :| HeldAt(c.files, c.committed, p, s.files[p], q);
    if c.ok {
      var q1 := AsideHolds(c, u.staged[k], p, s.files[p], q);
    }
  }

  /** Wherever an edit stops, at any of its forward steps or between the two renames of a commit, and
      whatever fails, the moving back of a file too. */
  lemma {:induction false} InterruptedLosesNoFile(s: Edit, j: Job, k: nat)
    requires Starts(s, j)
    ensures NoFileLost(Forward(s, j).files, s.files)
    ensures k < |Upserting(Staging(s, j), j).staged| ==> NoFileLost(BetweenRenames(s, j, k).files, s.files)
  {
    var f := Forward(s, j);
    forall p | p in s.files ensures Held(f.files, f.committed, p, s.files[p]) {
      ForwardHolds(s, j, k, p);
    }
    HeldIsNotLost(f.files, f.committed, s.files);
    if k < |Upserting(Staging(s, j), j).staged| {
      BetweenRenamesLosesNoFile(s, j, k);
    }
  }

  lemma {:induction false} BetweenRenamesLosesNoFile(s: Edit, j: Job, k: nat)
    requires Starts(s, j) && k < |Upserting(Staging(s, j), j).staged|
    ensures NoFileLost(BetweenRenames(s, j, k).files, s.files)
  {
    var t := BetweenRenames(s, j, k);
    forall p | p in s.files ensures Held(t.files, t.committed, p, s.files[p]) {
      BetweenRenamesHolds(s, j, k, p);
    }
    HeldIsNotLost(t.files, t.committed, s.files);
  }

  lemma {:induction false} HeldIsNotLost(now: Files, committed: seq<Committed>, was: Files)
    requires forall p :: p in was ==> Held(now, committed, p, was[p])
    ensures NoFileLost(now, was)
  {
    forall p | p in was ensures At(now, p) == Some(was[p]) || exists n :: At(now, Backup(n)) == Some(was[p]) {
      var q :| HeldAt(now, committed, p, was[p], q);
      assert q.Backup? ==> At(now, Backup(q.n)) == Some(was[p]);
    }
  }

  lemma {:induction false} CompensationHolds(s: Edit, j: Job, p: Path)
    requires Starts(s, j) && p in s.files
    ensures Held(Compensate(Forward(s, j), s.record).files, [], p, s.files[p])
  {
    var f, v := Forward(s, j), s.files[p];
    ForwardHolds(s, j, 0, p);
    UndoCommitsHold(f, f.committed, f.next, p, v);
    CleanUpHolds(UndoCommits(f, f.committed), f.staged, p, v);
  }

  /** Whatever fails in an edit and then in its compensations, and wherever the process dies in these,
      what was in a file is there still or in a backup. */
  lemma {:induction false} FailureLosesNoFile(s: Edit, j: Job, stuck: set<Path>)
    requires Starts(s, j)
    ensures var t := RunEdit(s, j, stuck); !t.ok ==> NoFileLost(t.files, s.files)
  {
    var t := Compensate(Forward(s, j), s.record);
    forall p | p in s.files ensures Held(t.files, [], p, s.files[p]) {
      CompensationHolds(s, j, p);
    }
    HeldIsNotLost(t.files, [], s.files);
  }

  /** Compensations put nothing in a place that is empty and that no commit has touched. */
  lemma {:induction false} EmptyPlaceStays(s: Edit, committed: seq<Committed>, p: Path)
    requires p !in s.files && forall c :: c in committed ==> c.final != p
    ensures p !in UndoCommits(s, committed).files
    decreases |committed|
  {
    if committed != [] {
      var n := |committed| - 1;
      assert committed[n] in committed && forall c :: c in committed[..n] ==> c in committed;
      EmptyPlaceStays(UndoCommit(s, committed[n]), committed[..n], p);
    }
  }

  lemma {:induction false} CleanUpAddsNothing(s: Edit, staged: seq<Staged>)
    ensures CleanUp(s, staged).files.Keys <= s.files.Keys
    decreases |staged|
  {
    if staged != [] {
      CleanUpAddsNothing(Best(s, s.(files := s.files - {staged[0].temp})), staged[1..]);
    }
  }

  /** A file is moved aside, its replacement cannot be put in place, and it cannot be moved back: it stays
      under its backup name, which is in no list, and its place stays empty although every compensation
      works. */
  lemma {:induction false} MovedAsideForGood(s: Edit, st: Staged, record: string)
    requires s.ok && s.plan == [true, false, false] && st.final in s.files && st.final.Final?
    requires forall c :: c in s.committed ==> c.final != st.final
    ensures var t := CommitOne(s, st);
      && !t.ok && t.committed == s.committed && At(t.files, Backup(s.next)) == At(s.files, st.final)
      && NoFault(t.plan) && st.final !in Compensate(t, record).files
  {
    var t := CommitOne(s, st);
    assert s.plan[1..] == [false, false] && s.plan[1..][1..] == [false] && s.plan[1..][1..][1..] == [];
    assert t.plan == [] && st.final !in t.files;
    EmptyPlaceStays(t, t.committed, st.final);
    CleanUpAddsNothing(UndoCommits(t, t.committed), t.staged);
  }

  // ----- rows

  /** Rows that were not deleted are there with their names and notes, and the body is the old one or,
      for a row that was updated, perhaps the new one; what else is there was created or came back. */
  ghost predicate RowsKept(t0: Table, t: Table, d: Side) {
    && (forall id :: id in t0 && OldRow(id, t0[id]) !in d.deleted ==>
          id in t && Revertible(t0[id], t[id], id, d.updated))
    && (forall id :: id in t ==> id in t0 || id in d.created || exists o :: o in d.deleted && t[id] == o.row)
  }

  ghost predicate RowsSafe(t0: Table, s: Edit, kind: Kind, d: Side) {
    && RowsKept(t0, SideOf(s, kind).table, d)
    && (forall id :: id in t0 || id in SideOf(s, kind).table ==> id < s.next)
    && (forall id :: id in d.created ==> id !in t0)
    && (forall o :: o in d.updated ==> o.id in t0 && t0[o.id] == o.row)
    && (forall o :: o in d.deleted ==> o.id in t0 && t0[o.id] == o.row)
  }

  lemma {:induction false} DropKeeps(t0: Table, s: Edit, kind: Kind, d: Side, created: seq<nat>)
    requires RowsSafe(t0, s, kind, d) && forall id :: id in created ==> id in d.created
    ensures RowsSafe(t0, DropRows(s, kind, created), kind, d)
    decreases |created|
  {
    if created != [] {
      var next := Best(s, WithTable(s, kind, SideOf(s, kind).table - {created[0]}));
      DropKeeps(t0, next, kind, d, created[1..]);
    }
  }

  lemma {:induction false} RevertKeeps(t0: Table, s: Edit, kind: Kind, d: Side, updated: seq<OldRow>)
    requires RowsSafe(t0, s, kind, d) && forall o :: o in updated ==> o in d.updated
    ensures RowsSafe(t0, RevertRows(s, kind, updated), kind, d)
    decreases |updated|
  {
    if updated != [] {
      var next := Best(s, WithTable(s, kind, UndoUpdate(SideOf(s, kind).table, updated[0])));
      RevertOneKeeps(t0, s, kind, d, updated[0]);
      RevertKeeps(t0, next, kind, d, updated[1..]);
    }
  }

  lemma {:induction false} RevertOneKeeps(t0: Table, s: Edit, kind: Kind, d: Side, o: OldRow)
    requires RowsSafe(t0, s, kind, d) && o in d.updated
    ensures RowsSafe(t0, Best(s, WithTable(s, kind, UndoUpdate(SideOf(s, kind).table, o))), kind, d)
  {
    var t := UndoUpdate(SideOf(s, kind).table, o);
    assert o.id in t ==> t[o.id].name == o.row.name;
  }

  lemma {:induction false} RecreateKeeps(t0: Table, s: Edit, kind: Kind, d: Side, deleted: seq<OldRow>)
    requires RowsSafe(t0, s, kind, d) && forall o :: o in deleted ==> o in d.deleted
    ensures RowsSafe(t0, RecreateRows(s, kind, deleted), kind, d)
    decreases |deleted|
  {
    if deleted != [] {
      assert deleted[0] in d.deleted;
      RecreateKeeps(t0, RecreateRow(s, kind, deleted[0].row), kind, d, deleted[1..]);
    }
  }

  lemma {:induction false} CommitsNext(s: Edit, staged: seq<Staged>)
    ensures CommitAll(s, staged).next >= s.next
    decreases |staged|
  {
    if staged != [] && s.ok {
      CommitsNext(CommitOne(s, staged[0]), staged[1..]);
    }
  }

  /** After any forward steps the rows can be undone, whatever has become of the files. */
  lemma {:induction false} ForwardRows(s: Edit, j: Job)
    requires Starts(s, j)
    ensures var f := Forward(s, j);
      SideUndoable(s.figures.table, f.figures, f.next) && SideUndoable(s.data.table, f.data, f.next)
  {
    StagingUndoable(s, j);
    UpsertingUndoable(Staging(s, j), s, j);
    var u := Upserting(Staging(s, j), j);
    CommitsNext(u, u.staged);
    var c := CommitAll(u, u.staged);
    UndoableLater(s.figures.table, u.figures, u.next, c.next);
    UndoableLater(s.data.table, u.data, u.next, c.next);
    DeleteAllUndoable(c, Figure, j.oldFigures, Names(j.figures), s.figures.table);
    var d := DeleteAll(c, Figure, j.oldFigures, Names(j.figures));
    DeleteAllUndoable(d, Data, j.oldData, Names(j.data), s.data.table);
  }

  lemma {:induction false} UndoableIsSafe(t0: Table, s: Edit, kind: Kind)
    requires SideUndoable(t0, SideOf(s, kind), s.next)
    ensures RowsSafe(t0, s, kind, SideOf(s, kind))
  {
    var d := SideOf(s, kind);
    forall id | id in t0 && OldRow(id, t0[id]) !in d.deleted
      ensures id in d.table && Revertible(t0[id], d.table[id], id, d.updated)
    {}
  }

  lemma {:induction false} SideKeeps(t0: Table, s: Edit, kind: Kind)
    requires SideUndoable(t0, SideOf(s, kind), s.next)
    ensures var d, t := SideOf(s, kind), RollbackSide(s, kind);
      RowsKept(t0, SideOf(t, kind).table, d) && t.next >= s.next
  {
    var d := SideOf(s, kind);
    UndoableIsSafe(t0, s, kind);
    DropKeeps(t0, s, kind, d, d.created);
    var s1 := DropRows(s, kind, d.created);
    RevertKeeps(t0, s1, kind, d, d.updated);
    var s2 := RevertRows(s1, kind, d.updated);
    RecreateKeeps(t0, s2, kind, d, d.deleted);
    NextGrows(s, kind);
  }

  lemma {:induction false} NextGrows(s: Edit, kind: Kind)
    ensures RollbackSide(s, kind).next >= s.next
  {
    var d := SideOf(s, kind);
    DropNext(s, kind, d.created);
    RevertNext(DropRows(s, kind, d.created), kind, d.updated);
    RecreateNext(RevertRows(DropRows(s, kind, d.created), kind, d.updated), kind, d.deleted);
  }

  lemma {:induction false} DropNext(s: Edit, kind: Kind, created: seq<nat>)
    ensures DropRows(s, kind, created).next == s.next
    decreases |created|
  {
    if created != [] {
      DropNext(Best(s, WithTable(s, kind, SideOf(s, kind).table - {created[0]})), kind, created[1..]);
    }
  }

  lemma {:induction false} RevertNext(s: Edit, kind: Kind, updated: seq<OldRow>)
    ensures RevertRows(s, kind, updated).next == s.next
    decreases |updated|
  {
    if updated != [] {
      RevertNext(Best(s, WithTable(s, kind, UndoUpdate(SideOf(s, kind).table, updated[0]))), kind, updated[1..]);
    }
  }

  lemma {:induction false} RecreateNext(s: Edit, kind: Kind, deleted: seq<OldRow>)
    ensures RecreateRows(s, kind, deleted).next >= s.next
    decreases |deleted|
  {
    if deleted != [] {
      RecreateNext(RecreateRow(s, kind, deleted[0].row), kind, deleted[1..]);
    }
  }

  /** Wherever an edit stops, and whatever fails in it and in its compensations, what the edit had not
      deleted keeps name and note, and nothing comes that was not there or asked for. */
  lemma {:induction false} FailureKeepsRows(s: Edit, j: Job, stuck: set<Path>)
    requires Starts(s, j)
    ensures var f, t := Forward(s, j), RunEdit(s, j, stuck);
      && RowsKept(s.figures.table, f.figures.table, f.figures) && RowsKept(s.data.table, f.data.table, f.data)
      && (!t.ok ==>
            && RowsKept(s.figures.table, t.figures.table, f.figures) && RowsKept(s.data.table, t.data.table, f.data)
            && t.record in {s.record, f.record})
  {
    ForwardRows(s, j);
    var f := Forward(s, j);
    UndoableIsSafe(s.figures.table, f, Figure);
    UndoableIsSafe(s.data.table, f, Data);
    CompensationKeepsRows(f, s.record, s.figures.table, s.data.table);
  }

  lemma {:induction false} CompensationKeepsRows(f: Edit, record: string, figures: Table, data: Table)
    requires SideUndoable(figures, f.figures, f.next) && SideUndoable(data, f.data, f.next)
    ensures var t := Compensate(f, record);
      && RowsKept(figures, t.figures.table, f.figures) && RowsKept(data, t.data.table, f.data)
      && t.record in {record, f.record}
  {
    var s := CleanUp(UndoCommits(f, f.committed), f.staged);
    BothSidesKeep(s, figures, data);
    RecordLast(RollbackSide(RollbackSide(s, Figure), Data), record);
  }

  lemma {:induction false} BothSidesKeep(s: Edit, figures: Table, data: Table)
    requires SideUndoable(figures, s.figures, s.next) && SideUndoable(data, s.data, s.next)
    ensures var t := RollbackSide(RollbackSide(s, Figure), Data);
      RowsKept(figures, t.figures.table, s.figures) && RowsKept(data, t.data.table, s.data) && t.record == s.record
  {
    SideKeeps(figures, s, Figure);
    var s1 := RollbackSide(s, Figure);
    UndoableLater(data, s1.data, s.next, s1.next);
    SideKeeps(data, s1, Data);
  }

  lemma {:induction false} RecordLast(s: Edit, record: string)
    ensures var t := Best(s, s.(record := record));
      t.figures == s.figures && t.data == s.data && t.record in {record, s.record}
  {}
}
