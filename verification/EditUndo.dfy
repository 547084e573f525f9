/** What a failed edit leaves, at whatever step it failed. */
module EditUndo {
  import opened Common
  import opened EditSaga

  // ----- compensations that all work

  function UndoOne(files: Files, c: Committed): Files {
    var gone := files - {c.final};
    if c.backup.Some? then MovedBack(gone, c.final, c.backup.value) else gone
  }

  function UndoFiles(files: Files, committed: seq<Committed>): Files
    decreases |committed|
  {
    if committed == [] then files
    else
      var n := |committed| - 1;
      UndoFiles(UndoOne(files, committed[n]), committed[..n])
  }

  function DropTemps(files: Files, staged: seq<Staged>): Files {
    files - (set st | st in staged :: st.temp)
  }

  function DropCreated(t: Table, created: seq<nat>): Table { t - (set id | id in created) }

  function UndoUpdates(t: Table, updated: seq<OldRow>): Table
    decreases |updated|
  {
    if updated == [] then t else UndoUpdates(UndoUpdate(t, updated[0]), updated[1..])
  }

  function Recreate(t: Table, deleted: seq<OldRow>, next: nat): Table
    decreases |deleted|
  {
    if deleted == [] then t
    else if HasName(t, deleted[0].row.name) then Recreate(t, deleted[1..], next)
    else Recreate(t[next := deleted[0].row], deleted[1..], next + 1)
  }

  function UndoSide(d: Side, next: nat): Table {
    Recreate(UndoUpdates(DropCreated(d.table, d.created), d.updated), d.deleted, next)
  }

  lemma {:induction false} QuietCommits(s: Edit, committed: seq<Committed>)
    requires NoFault(s.plan)
    ensures var t := UndoCommits(s, committed);
      t == s.(files := UndoFiles(s.files, committed), plan := t.plan) && NoFault(t.plan)
    decreases |committed|
  {
    if committed != [] {
      var n := |committed| - 1;
      QuietCommits(UndoCommit(s, committed[n]), committed[..n]);
    }
  }

  lemma {:induction false} QuietCleanUp(s: Edit, staged: seq<Staged>)
    requires NoFault(s.plan)
    ensures var t := CleanUp(s, staged);
      t == s.(files := DropTemps(s.files, staged), plan := t.plan) && NoFault(t.plan)
    decreases |staged|
  {
    if staged == [] {
      assert DropTemps(s.files, staged) == s.files;
    } else {
      var next := s.files - {staged[0].temp};
      QuietCleanUp(Best(s, s.(files := next)), staged[1..]);
      assert forall st :: st in staged <==> st == staged[0] || st in staged[1..];
      assert DropTemps(next, staged[1..]) == DropTemps(s.files, staged);
    }
  }

  lemma {:induction false} DropFirst(t: Table, created: seq<nat>)
    requires created != []
    ensures DropCreated(t - {created[0]}, created[1..]) == DropCreated(t, created)
  {
    assert forall id :: id in created <==> id == created[0] || id in created[1..];
  }

  lemma {:induction false} QuietDrop(s: Edit, kind: Kind, created: seq<nat>)
    requires NoFault(s.plan)
    ensures var t := DropRows(s, kind, created);
      t == WithTable(s, kind, DropCreated(SideOf(s, kind).table, created)).(plan := t.plan) && NoFault(t.plan)
    decreases |created|
  {
    var table := SideOf(s, kind).table;
    if created == [] {
      assert DropCreated(table, created) == table;
    } else {
      QuietDrop(Best(s, WithTable(s, kind, table - {created[0]})), kind, created[1..]);
      DropFirst(table, created);
    }
  }

  lemma {:induction false} QuietRevert(s: Edit, kind: Kind, updated: seq<OldRow>)
    requires NoFault(s.plan)
    ensures var t := RevertRows(s, kind, updated);
      t == WithTable(s, kind, UndoUpdates(SideOf(s, kind).table, updated)).(plan := t.plan) && NoFault(t.plan)
    decreases |updated|
  {
    if updated != [] {
      var next := WithTable(s, kind, UndoUpdate(SideOf(s, kind).table, updated[0]));
      QuietRevert(Best(s, next), kind, updated[1..]);
    }
  }

  lemma {:induction false} QuietRecreate(s: Edit, kind: Kind, deleted: seq<OldRow>)
    requires NoFault(s.plan)
    ensures var t := RecreateRows(s, kind, deleted);
      && t == WithTable(s, kind, Recreate(SideOf(s, kind).table, deleted, s.next)).(next := t.next, plan := t.plan)
      && t.next >= s.next && NoFault(t.plan)
    decreases |deleted|
  {
    if deleted != [] {
      QuietRecreate(RecreateRow(s, kind, deleted[0].row), kind, deleted[1..]);
    }
  }

  lemma {:induction false} QuietSide(s: Edit, kind: Kind)
    requires NoFault(s.plan)
    ensures var t := RollbackSide(s, kind);
      && t == WithTable(s, kind, UndoSide(SideOf(s, kind), s.next)).(next := t.next, plan := t.plan)
      && t.next >= s.next && NoFault(t.plan)
  {
    var d := SideOf(s, kind);
    QuietDrop(s, kind, d.created);
    var s1 := DropRows(s, kind, d.created);
    QuietRevert(s1, kind, d.updated);
    QuietRecreate(RevertRows(s1, kind, d.updated), kind, d.deleted);
  }

  /** When nothing more fails every list is undone. */
  lemma {:induction false} QuietCompensate(s: Edit, record: string)
    requires NoFault(s.plan)
    ensures var t := Compensate(s, record);
      && t.files == DropTemps(UndoFiles(s.files, s.committed), s.staged)
      && t.figures == s.figures.(table := UndoSide(s.figures, s.next))
      && (exists next :: next >= s.next && t.data == s.data.(table := UndoSide(s.data, next)))
      && t.record == (if s.recordUpdated then record else s.record) && t.ok == s.ok
  {
    QuietCommits(s, s.committed);
    var s1 := UndoCommits(s, s.committed);
    QuietCleanUp(s1, s.staged);
    var s2 := CleanUp(s1, s.staged);
    QuietSide(s2, Figure);
    var s3 := RollbackSide(s2, Figure);
    QuietSide(s3, Data);
  }

  // ----- rows

  /** From the ledgers of d the original table t0 can be had back. */
  ghost predicate SideUndoable(t0: Table, d: Side, next: nat) {
    && (forall id :: id in t0 ==> id < next)
    && (forall id :: id in d.table ==> id < next && (id in t0 || id in d.created))
    && (forall id :: id in d.created ==> id !in t0 && id < next)
    && (forall id :: id in t0 && id in d.table ==> Revertible(t0[id], d.table[id], id, d.updated))
    && (forall o :: o in d.updated ==> o.id in t0 && t0[o.id] == o.row)
    && (forall o :: o in d.deleted ==> o.id in t0 && t0[o.id] == o.row && o.id !in d.table)
    && (forall id :: id in t0 && id !in d.table ==> OldRow(id, t0[id]) in d.deleted)
    && NoDup(d.deleted)
  }

  ghost predicate Revertible(was: Row, row: Row, id: nat, updated: seq<OldRow>) {
    && row.name == was.name && row.note == was.note
    && (row == was || OldRow(id, was) in updated)
  }

  lemma {:induction false} ByNameFinds(olds: seq<OldRow>, name: string)
    ensures name in ByName(olds) ==> ByName(olds)[name] in olds && ByName(olds)[name].row.name == name
    ensures (exists o :: o in olds && o.row.name == name) ==> name in ByName(olds)
    decreases |olds|
  {
    if olds != [] {
      var n := |olds| - 1;
      ByNameFinds(olds[..n], name);
      assert olds == olds[..n] + [olds[n]];
    }
  }

  lemma {:induction false} UpdateRowUndoable(t0: Table, d: Side, next: nat, o: OldRow, body: string)
    requires SideUndoable(t0, d, next) && o.id in t0 && t0[o.id] == o.row && o.id in d.table
    ensures SideUndoable(t0, d.(table := d.table[o.id := Row(o.row.name, body, d.table[o.id].note)],
                                updated := d.updated + [o]), next)
  {
    var e := d.(table := d.table[o.id := Row(o.row.name, body, d.table[o.id].note)], updated := d.updated + [o]);
    assert forall x :: x in e.updated <==> x in d.updated || x == o;
    forall id | id in t0 && id in e.table ensures Revertible(t0[id], e.table[id], id, e.updated) {
      assert Revertible(t0[id], d.table[id], id, d.updated);
    }
  }

  lemma {:induction false} CreateRowUndoable(t0: Table, d: Side, next: nat, row: Row)
    requires SideUndoable(t0, d, next)
    ensures SideUndoable(t0, d.(table := d.table[next := row], created := d.created + [next]), next + 1)
  {
    var e := d.(table := d.table[next := row], created := d.created + [next]);
    assert forall x :: x in e.created <==> x in d.created || x == next;
    forall id | id in t0 && id in e.table ensures Revertible(t0[id], e.table[id], id, e.updated) {
      assert Revertible(t0[id], d.table[id], id, d.updated);
    }
  }

  /** A step of the edit that replaces the rows of one kind, if it works. */
  lemma {:induction false} AttemptUndoable(s: Edit, kind: Kind, d: Side, next: nat, t0: Table)
    requires SideUndoable(t0, SideOf(s, kind), s.next) && SideUndoable(t0, d, next) && next >= s.next
    ensures var t := Attempt(s, WithSide(s, kind, d).(next := next));
      t.next >= s.next && SideUndoable(t0, SideOf(t, kind), t.next)
  {}

  lemma {:induction false} UpsertOneUndoable(s: Edit, kind: Kind, olds: seq<OldRow>, input: Input, t0: Table)
    requires SideUndoable(t0, SideOf(s, kind), s.next) && Lists(olds, t0)
    ensures var t := UpsertOne(s, kind, ByName(olds), input);
      t.next >= s.next && SideUndoable(t0, SideOf(t, kind), t.next)
  {
    var known, d := ByName(olds), SideOf(s, kind);
    if input.name !in known {
      var e := d.(table := d.table[s.next := Row(input.name, input.body, None)], created := d.created + [s.next]);
      CreateRowUndoable(t0, d, s.next, Row(input.name, input.body, None));
      AttemptUndoable(s, kind, e, s.next + 1, t0);
    } else if known[input.name].id in d.table {
      ByNameFinds(olds, input.name);
      var o := known[input.name];
      var row := Row(input.name, input.body, d.table[o.id].note);
      var e := d.(table := d.table[o.id := row], updated := d.updated + [o]);
      UpdateRowUndoable(t0, d, s.next, o, input.body);
      AttemptUndoable(s, kind, e, s.next, t0);
    }
  }

  lemma {:induction false} UpsertAllUndoable(s: Edit, kind: Kind, olds: seq<OldRow>, inputs: seq<Input>, t0: Table)
    requires SideUndoable(t0, SideOf(s, kind), s.next) && Lists(olds, t0)
    ensures var t := UpsertAll(s, kind, ByName(olds), inputs);
      t.next >= s.next && SideUndoable(t0, SideOf(t, kind), t.next)
    decreases |inputs|
  {
    if inputs != [] && s.ok {
      UpsertOneUndoable(s, kind, olds, inputs[0], t0);
      UpsertAllUndoable(UpsertOne(s, kind, ByName(olds), inputs[0]), kind, olds, inputs[1..], t0);
    }
  }

  lemma {:induction false} DeleteAllUndoable(s: Edit, kind: Kind, olds: seq<OldRow>, keep: set<string>, t0: Table)
    requires SideUndoable(t0, SideOf(s, kind), s.next)
    requires forall o :: o in olds ==> o.id in t0 && t0[o.id] == o.row
    ensures var t := DeleteAll(s, kind, olds, keep);
      t.next == s.next && SideUndoable(t0, SideOf(t, kind), t.next)
    decreases |olds|
  {
    if olds != [] && s.ok {
      DeleteAllUndoable(DeleteOne(s, kind, olds[0], keep), kind, olds[1..], keep, t0);
    }
  }

  lemma {:induction false} UndoUpdatesReverts(t0: Table, t: Table, updated: seq<OldRow>)
    requires forall id :: id in t ==> id in t0 && Revertible(t0[id], t[id], id, updated)
    requires forall o :: o in updated ==> o.id in t0 && t0[o.id] == o.row
    ensures UndoUpdates(t, updated).Keys == t.Keys
    ensures forall id :: id in t ==> UndoUpdates(t, updated)[id] == t0[id]
    decreases |updated|
  {
    if updated != [] {
      var t1 := UndoUpdate(t, updated[0]);
      forall id | id in t1 ensures Revertible(t0[id], t1[id], id, updated[1..]) {
        assert Revertible(t0[id], t[id], id, updated);
      }
      UndoUpdatesReverts(t0, t1, updated[1..]);
    }
  }

  /** A row of t0 that was not deleted. */
  ghost predicate Survivor(t0: Table, row: Row, deleted: seq<OldRow>) {
    exists was :: was in t0 && row == t0[was] && OldRow(was, t0[was]) !in deleted
  }

  lemma {:induction false} SurvivorOfFewer(t0: Table, row: Row, deleted: seq<OldRow>, fewer: seq<OldRow>)
    requires Survivor(t0, row, deleted) && forall o :: o in fewer ==> o in deleted
    ensures Survivor(t0, row, fewer)
  {
    var was :| was in t0 && row == t0[was] && OldRow(was, t0[was]) !in deleted;
    assert OldRow(was, t0[was]) !in fewer;
  }

  lemma {:induction false} DeletedNameIsFree(t0: Table, t: Table, deleted: seq<OldRow>)
    requires UniqueNames(t0) && deleted != [] && deleted[0].id in t0 && t0[deleted[0].id] == deleted[0].row
    requires forall id :: id in t ==> Survivor(t0, t[id], deleted)
    ensures !HasName(t, deleted[0].row.name)
  {
    forall id | id in t ensures t[id].name != deleted[0].row.name {
      assert Survivor(t0, t[id], deleted);
      assert deleted[0] in deleted;
    }
  }

  lemma {:induction false} RowsAdded(t: Table, id: nat, row: Row)
    requires id !in t
    ensures Rows(t[id := row]) == Rows(t) + {row}
  {
    var u := t[id := row];
    assert u[id] in Rows(u);
    forall r | r in Rows(t) ensures r in Rows(u) {
      var x :| x in t && t[x] == r;
      assert u[x] == r;
    }
  }

  lemma {:induction false} RowsOfList(os: seq<OldRow>)
    requires os != []
    ensures (set x | x in os :: x.row) == {os[0].row} + (set x | x in os[1..] :: x.row)
  {
    assert forall x :: x in os <==> x == os[0] || x in os[1..];
  }

  /** No name is taken: every deleted row comes back, once. */
  lemma {:induction false} RecreateBringsBack(t0: Table, t: Table, deleted: seq<OldRow>, next: nat)
    requires UniqueNames(t0) && NoDup(deleted) && UniqueNames(t)
    requires forall o :: o in deleted ==> o.id in t0 && t0[o.id] == o.row
    requires forall id :: id in t ==> id < next && Survivor(t0, t[id], deleted)
    ensures var u := Recreate(t, deleted, next);
      && UniqueNames(u)
      && Rows(u) == Rows(t) + (set o | o in deleted :: o.row)
      && (forall id :: id in t ==> id in u && u[id] == t[id])
    decreases |deleted|
  {
    if deleted != [] {
      var o, rest := deleted[0], deleted[1..];
      DeletedNameIsFree(t0, t, deleted);
      RowsAdded(t, next, o.row);
      SurvivorsAndOne(t0, t, deleted, next);
      RecreateBringsBack(t0, t[next := o.row], rest, next + 1);
      RowsOfList(deleted);
    }
  }

  lemma {:induction false} SurvivorsAndOne(t0: Table, t: Table, deleted: seq<OldRow>, next: nat)
    requires UniqueNames(t0) && NoDup(deleted) && UniqueNames(t) && deleted != []
    requires forall o :: o in deleted ==> o.id in t0 && t0[o.id] == o.row
    requires forall id :: id in t ==> id < next && Survivor(t0, t[id], deleted)
    requires !HasName(t, deleted[0].row.name)
    ensures var t1 := t[next := deleted[0].row];
      && UniqueNames(t1) && NoDup(deleted[1..])
      && forall id :: id in t1 ==> id < next + 1 && Survivor(t0, t1[id], deleted[1..])
  {
    var o, rest, t1 := deleted[0], deleted[1..], t[next := deleted[0].row];
    assert o in deleted && o !in rest && forall x :: x in rest ==> x in deleted;
    forall id | id in t1 ensures id < next + 1 && Survivor(t0, t1[id], rest) {
      if id == next {
        assert t1[id] == t0[o.id] && OldRow(o.id, t0[o.id]) !in rest;
      } else {
        SurvivorOfFewer(t0, t[id], deleted, rest);
      }
    }
  }

  /** The rows that were there before are there again, some under new ids; rows that were not
      deleted keep theirs. */
  ghost predicate SameRows(t: Table, t0: Table, deleted: seq<OldRow>) {
    && Rows(t) == Rows(t0) && UniqueNames(t)
    && (forall id :: id in t0 && OldRow(id, t0[id]) !in deleted ==> id in t && t[id] == t0[id])
    && (deleted == [] ==> t == t0)
  }

  lemma {:induction false} KeptRowsRevert(t0: Table, d: Side, next: nat)
    requires SideUndoable(t0, d, next)
    ensures var t := UndoUpdates(DropCreated(d.table, d.created), d.updated);
      && (forall id :: id in t <==> id in t0 && id in d.table)
      && (forall id :: id in t ==> t[id] == t0[id])
  {
    var kept := DropCreated(d.table, d.created);
    forall id | id in kept ensures id in t0 && Revertible(t0[id], kept[id], id, d.updated) {
      assert id in d.table;
    }
    UndoUpdatesReverts(t0, kept, d.updated);
  }

  lemma {:induction false} RowsRegained(t0: Table, t: Table, deleted: seq<OldRow>)
    requires forall id :: id in t ==> id in t0 && t[id] == t0[id]
    requires forall o :: o in deleted ==> o.id in t0 && t0[o.id] == o.row
    requires forall id :: id in t0 && id !in t ==> OldRow(id, t0[id]) in deleted
    ensures Rows(t0) == Rows(t) + (set o | o in deleted :: o.row)
  {
    var back := set o | o in deleted :: o.row;
    forall r | r in Rows(t0) ensures r in Rows(t) + back {
      var id :| id in t0 && t0[id] == r;
      if id !in t {
        assert OldRow(id, t0[id]) in deleted;
      }
    }
    forall o | o in deleted ensures o.row in Rows(t0) {
      assert t0[o.id] in Rows(t0);
    }
  }

  lemma {:induction false} UndoSideRestores(t0: Table, d: Side, next: nat)
    requires SideUndoable(t0, d, next) && UniqueNames(t0)
    ensures SameRows(UndoSide(d, next), t0, d.deleted)
  {
    KeptRowsRevert(t0, d, next);
    var t := UndoUpdates(DropCreated(d.table, d.created), d.updated);
    forall id | id in t ensures id < next && Survivor(t0, t[id], d.deleted) {
      assert t[id] == t0[id] && OldRow(id, t0[id]) !in d.deleted;
    }
    RecreateBringsBack(t0, t, d.deleted, next);
    RowsRegained(t0, t, d.deleted);
    if d.deleted == [] {
      assert t == t0;
    }
  }

  // ----- files

  /** Once the temporary files are gone, undoing the commits gives the files f0. */
  ghost predicate FilesUndoable(s: Edit, f0: Files) {
    && UnusedNames(s.files, s.next)
    && (forall st :: st in s.staged ==> st.temp.Temp? && st.final.Final?)
    && (forall c :: c in s.committed ==> c.final.Final? && (c.backup.Some? ==> c.backup.value.Backup?))
    && DropTemps(UndoFiles(s.files, s.committed), s.staged) == f0
  }

  lemma {:induction false} TempUndoable(s: Edit, st: Staged, content: string, f0: Files)
    requires FilesUndoable(s, f0) && s.committed == [] && st.temp == Temp(s.next) && st.final.Final?
    ensures FilesUndoable(s.(files := s.files[st.temp := content], staged := s.staged + [st], next := s.next + 1), f0)
  {
    var t := s.(files := s.files[st.temp := content], staged := s.staged + [st], next := s.next + 1);
    assert UndoFiles(t.files, t.committed) == t.files && UndoFiles(s.files, s.committed) == s.files;
    assert forall x :: x in t.staged <==> x in s.staged || x == st;
    assert DropTemps(t.files, t.staged) == DropTemps(s.files, s.staged);
  }

  lemma {:induction false} StageOneUndoable(s: Edit, kind: Kind, input: Input, f0: Files)
    requires FilesUndoable(s, f0) && s.committed == []
    ensures var t := StageOne(s, kind, input); FilesUndoable(t, f0) && t.next >= s.next && t.committed == []
  {
    TempUndoable(s, Staged(Temp(s.next), Final(kind, input.name)), input.content, f0);
  }

  lemma {:induction false} StageAllUndoable(s: Edit, kind: Kind, inputs: seq<Input>, f0: Files)
    requires FilesUndoable(s, f0) && s.committed == []
    ensures var t := StageAll(s, kind, inputs); FilesUndoable(t, f0) && t.next >= s.next
    decreases |inputs|
  {
    if inputs != [] && s.ok {
      StageOneUndoable(s, kind, inputs[0], f0);
      StageAllUndoable(StageOne(s, kind, inputs[0]), kind, inputs[1..], f0);
    }
  }

  lemma {:induction false} UndoFilesApart(files: Files, committed: seq<Committed>, p: Path)
    requires forall c :: c in committed ==> p != c.final && c.backup != Some(p)
    ensures UndoFiles(files - {p}, committed) == UndoFiles(files, committed) - {p}
    decreases |committed|
  {
    if committed != [] {
      var n := |committed| - 1;
      assert UndoOne(files - {p}, committed[n]) == UndoOne(files, committed[n]) - {p};
      UndoFilesApart(UndoOne(files, committed[n]), committed[..n], p);
    }
  }

  /** The staged files are there, each under a name of its own. */
  ghost predicate TempsThere(files: Files, staged: seq<Staged>) {
    && (forall st :: st in staged ==> st.temp.Temp? && st.final.Final? && st.temp in files)
    && forall i, k :: 0 <= i < k < |staged| ==> staged[i].temp != staged[k].temp
  }

  /** Undoing one commit gives the files before it, except that the staged file has been used up. A
      commit that fails has undone itself, unless moving the old file back failed too. */
  lemma {:induction false} CommitOneUndone(s: Edit, st: Staged)
    requires s.ok && UnusedNames(s.files, s.next) && st.final.Final? && st.temp.Temp? && st.temp in s.files
    ensures var t := CommitOne(s, st);
      var c := Committed(st.final, if st.final in s.files then Some(Backup(s.next)) else None);
      && t.next >= s.next && UnusedNames(t.files, t.next) && t.staged == s.staged
      && (t.ok ==> t.committed == s.committed + [c] && UndoOne(t.files, c) == s.files - {st.temp})
      && (!t.ok ==> t.committed == s.committed && (OneFailure(s.plan) ==> t.files == s.files))
  {
    var aside := MoveAside(s, st);
    if aside.ok {
      var backup := if st.final in s.files then Some(Backup(s.next)) else None;
      if backup.Some? {
        assert MovedBack(aside.files, st.final, backup.value) == s.files;
      }
      PutInPlaceUndone(aside, st, backup);
      var t := CommitOne(s, st);
      if t.ok {
        assert UndoOne(t.files, Committed(st.final, backup)) == s.files - {st.temp};
      }
    }
  }

  lemma {:induction false} PutInPlaceUndone(s: Edit, st: Staged, backup: Option<Path>)
    requires s.ok && st.temp in s.files
    ensures var t := PutInPlace(s, st, backup);
      && t.next == s.next
      && (t.ok ==>
            && t.committed == s.committed + [Committed(st.final, backup)]
            && t.files == s.files[st.final := s.files[st.temp]] - {st.temp})
      && (!t.ok ==>
            && t.committed == s.committed
            && t.files in {s.files, if backup.Some? then MovedBack(s.files, st.final, backup.value) else s.files}
            && (OneFailure(s.plan) && backup.Some? ==> t.files == MovedBack(s.files, st.final, backup.value)))
  {}

  lemma {:induction false} UndoLast(files: Files, committed: seq<Committed>, c: Committed)
    ensures UndoFiles(files, committed + [c]) == UndoFiles(UndoOne(files, c), committed)
  {
    assert (committed + [c])[..|committed|] == committed;
  }

  lemma {:induction false} CommitOneUndoable(s: Edit, st: Staged, f0: Files)
    requires FilesUndoable(s, f0) && st in s.staged && st.temp in s.files && OneFailure(s.plan)
    ensures FilesUndoable(CommitOne(s, st), f0) && CommitOne(s, st).next >= s.next
  {
    var t := CommitOne(s, st);
    if s.ok {
      CommitOneUndone(s, st);
      if t.ok {
        var c := Committed(st.final, if st.final in s.files then Some(Backup(s.next)) else None);
        UndoFilesApart(s.files, s.committed, st.temp);
        UndoLast(t.files, s.committed, c);
        assert DropTemps(UndoFiles(s.files, s.committed) - {st.temp}, s.staged)
            == DropTemps(UndoFiles(s.files, s.committed), s.staged);
      }
    }
  }

  lemma {:induction false} CommitOneLeavesTemps(s: Edit, staged: seq<Staged>)
    requires staged != [] && TempsThere(s.files, staged)
    ensures var t := CommitOne(s, staged[0]);
      (t.ok ==> TempsThere(t.files, staged[1..])) && (OneFailure(s.plan) && t.ok ==> OneFailure(t.plan))
  {
    var t := CommitOne(s, staged[0]);
    if t.ok {
      forall st | st in staged[1..] ensures st.temp in t.files {
        var i :| 0 < i < |staged| && staged[i] == st;
        assert staged[0].temp != staged[i].temp;
      }
    }
  }

  /** Whatever is committed, and even if final paths repeat. */
  lemma {:induction false} CommitAllUndoable(s: Edit, staged: seq<Staged>, f0: Files)
    requires FilesUndoable(s, f0) && (forall st :: st in staged ==> st in s.staged)
    requires OneFailure(s.plan) && TempsThere(s.files, staged)
    ensures FilesUndoable(CommitAll(s, staged), f0) && CommitAll(s, staged).next >= s.next
    decreases |staged|
  {
    if staged != [] && s.ok {
      CommitOneUndoable(s, staged[0], f0);
      CommitOneLeavesTemps(s, staged);
      var t := CommitOne(s, staged[0]);
      if t.ok {
        CommitAllUndoable(t, staged[1..], f0);
      }
    }
  }

  // ----- the edit

  /** Every state of an edit can be undone to the one it started from. */
  ghost predicate Undoable(s: Edit, s0: Edit) {
    && (s.recordUpdated || s.record == s0.record)
    && SideUndoable(s0.figures.table, s.figures, s.next)
    && SideUndoable(s0.data.table, s.data, s.next)
    && FilesUndoable(s, s0.files)
  }

  lemma {:induction false} StageUndoable(s: Edit, s0: Edit, kind: Kind, inputs: seq<Input>)
    requires Undoable(s, s0) && s.committed == []
    ensures var t := StageAll(s, kind, inputs); Undoable(t, s0) && t.committed == []
  {
    StageAllUndoable(s, kind, inputs, s0.files);
  }

  lemma {:induction false} UpdateRecordUndoable(s: Edit, j: Job)
    requires Starts(s, j)
    ensures var t := UpdateRecord(s, j.record); Undoable(t, s) && t.committed == []
  {
    UntouchedUndoable(s.figures, j.oldFigures, s.next);
    UntouchedUndoable(s.data, j.oldData, s.next);
    assert DropTemps(s.files, []) == s.files;
  }

  lemma {:induction false} UntouchedUndoable(d: Side, olds: seq<OldRow>, next: nat)
    requires Untouched(d, olds, next)
    ensures SideUndoable(d.table, d, next)
  {}

  lemma {:induction false} StagingUndoable(s: Edit, j: Job)
    requires Starts(s, j)
    ensures Undoable(Staging(s, j), s)
  {
    UpdateRecordUndoable(s, j);
    var s1 := UpdateRecord(s, j.record);
    StageUndoable(s1, s, Figure, j.figures);
    StageUndoable(StageAll(s1, Figure, j.figures), s, Data, j.data);
  }

  lemma {:induction false} UpsertsUndoable(s: Edit, s0: Edit, kind: Kind, olds: seq<OldRow>, inputs: seq<Input>)
    requires Undoable(s, s0) && Lists(olds, SideOf(s0, kind).table)
    ensures Undoable(UpsertAll(s, kind, ByName(olds), inputs), s0)
  {
    UpsertAllUndoable(s, kind, olds, inputs, SideOf(s0, kind).table);
    LaterUndoable(s, UpsertAll(s, kind, ByName(olds), inputs), s0, kind);
  }

  /** A step that only changes the rows of one kind, and takes new ids. */
  lemma {:induction false} LaterUndoable(s: Edit, t: Edit, s0: Edit, kind: Kind)
    requires Undoable(s, s0) && t.next >= s.next
    requires t == WithSide(s, kind, SideOf(t, kind)).(next := t.next, plan := t.plan, ok := t.ok)
    requires SideUndoable(SideOf(s0, kind).table, SideOf(t, kind), t.next)
    ensures Undoable(t, s0)
  {}

  lemma {:induction false} UpsertingUndoable(s: Edit, s0: Edit, j: Job)
    requires Undoable(s, s0) && Lists(j.oldFigures, s0.figures.table) && Lists(j.oldData, s0.data.table)
    ensures Undoable(Upserting(s, j), s0)
  {
    UpsertsUndoable(s, s0, Figure, j.oldFigures, j.figures);
    UpsertsUndoable(UpsertAll(s, Figure, ByName(j.oldFigures), j.figures), s0, Data, j.oldData, j.data);
  }

  lemma {:induction false} DeletingUndoable(s: Edit, s0: Edit, j: Job)
    requires Undoable(s, s0) && Lists(j.oldFigures, s0.figures.table) && Lists(j.oldData, s0.data.table)
    ensures Undoable(Deleting(s, j), s0)
  {
    DeleteAllUndoable(s, Figure, j.oldFigures, Names(j.figures), s0.figures.table);
    var s1 := DeleteAll(s, Figure, j.oldFigures, Names(j.figures));
    DeleteAllUndoable(s1, Data, j.oldData, Names(j.data), s0.data.table);
  }

  /** What is left of a plan in which at most one operation fails is such a plan. */
  lemma {:induction false} StageKeepsPlan(s: Edit, kind: Kind, inputs: seq<Input>)
    requires OneFailure(s.plan) && TempsThere(s.files, s.staged) && UnusedNames(s.files, s.next)
    ensures var t := StageAll(s, kind, inputs);
      OneFailure(t.plan) && TempsThere(t.files, t.staged) && UnusedNames(t.files, t.next)
    decreases |inputs|
  {
    if inputs != [] && s.ok {
      StageKeepsPlan(StageOne(s, kind, inputs[0]), kind, inputs[1..]);
    }
  }

  lemma {:induction false} UpsertKeepsPlan(s: Edit, kind: Kind, known: map<string, OldRow>, inputs: seq<Input>)
    requires OneFailure(s.plan)
    ensures OneFailure(UpsertAll(s, kind, known, inputs).plan)
    decreases |inputs|
  {
    if inputs != [] && s.ok {
      UpsertKeepsPlan(UpsertOne(s, kind, known, inputs[0]), kind, known, inputs[1..]);
    }
  }

  lemma {:induction false} CommitsBegin(s: Edit, j: Job)
    requires Starts(s, j) && OneFailure(s.plan)
    ensures var u := Upserting(Staging(s, j), j); OneFailure(u.plan) && TempsThere(u.files, u.staged)
  {
    var s1 := UpdateRecord(s, j.record);
    StageKeepsPlan(s1, Figure, j.figures);
    StageKeepsPlan(StageAll(s1, Figure, j.figures), Data, j.data);
    var s2 := Staging(s, j);
    UpsertKeepsPlan(s2, Figure, ByName(j.oldFigures), j.figures);
    UpsertKeepsPlan(UpsertAll(s2, Figure, ByName(j.oldFigures), j.figures), Data, ByName(j.oldData), j.data);
  }

  lemma {:induction false} ForwardUndoable(s: Edit, j: Job)
    requires Starts(s, j) && OneFailure(s.plan)
    ensures Undoable(Forward(s, j), s)
  {
    StagingUndoable(s, j);
    var s1 := Staging(s, j);
    UpsertingUndoable(s1, s, j);
    var s2 := Upserting(s1, j);
    CommitsBegin(s, j);
    CommitAllUndoable(s2, s2.staged, s.files);
    DeletingUndoable(CommitAll(s2, s2.staged), s, j);
  }

  /** From later ids on the same can be undone. */
  lemma {:induction false} UndoableLater(t0: Table, d: Side, next: nat, next': nat)
    requires SideUndoable(t0, d, next) && next' >= next
    ensures SideUndoable(t0, d, next')
  {}

  /** Nothing fails but the one forward step that ends the edit. */
  ghost predicate FailsOnce(s: Edit, j: Job) {
    OneFailure(s.plan) && NoFault(Forward(s, j).plan)
  }

  /** A failure at any step leaves every file as it was and no temporary or backup file, the record
      as it was, and the rows as they were up to the ids of the rows that had been deleted. */
  lemma {:induction false} FailureRestores(s: Edit, j: Job, stuck: set<Path>)
    requires Starts(s, j) && FailsOnce(s, j)
    ensures var t := RunEdit(s, j, stuck);
      !t.ok ==>
        && t.files == s.files
        && t.record == s.record
        && SameRows(t.figures.table, s.figures.table, t.figures.deleted)
        && SameRows(t.data.table, s.data.table, t.data.deleted)
  {
    ForwardUndoable(s, j);
    var f := Forward(s, j);
    QuietCompensate(f, s.record);
    UndoSideRestores(s.figures.table, f.figures, f.next);
    if !f.ok {
      var t := Compensate(f, s.record);
      var next :| next >= f.next && t.data == f.data.(table := UndoSide(f.data, next));
      UndoableLater(s.data.table, f.data, f.next, next);
      UndoSideRestores(s.data.table, f.data, next);
    }
  }
}
