/**
 The record edit as the code runs it: each step changes the files or rows and appends to the lists
 from which a failure is undone, and the deferred compensations read those lists, the committed
 files in reverse. Every method is proved to do what its function in EditSaga says.
 */
module EditRun {
  import opened Common
  import opened EditSaga

  lemma {:induction false} NamesNext(inputs: seq<Input>, i: nat)
    requires i < |inputs|
    ensures Names(inputs[..i + 1]) == Names(inputs[..i]) + {inputs[i].name}
  {
    assert inputs[..i + 1] == inputs[..i] + [inputs[i]];
  }

  lemma {:induction false} LastFirst(s: Edit, committed: seq<Committed>, i: nat)
    requires i < |committed|
    ensures UndoCommits(s, committed[..i + 1]) == UndoCommits(UndoCommit(s, committed[i]), committed[..i])
  {
    assert committed[..i + 1][..i] == committed[..i];
  }

  class Editor {
    var files: Files
    var record: string
    var figures: Side
    var data: Side
    var next: nat
    var recordUpdated: bool
    var staged: seq<Staged>
    var committed: seq<Committed>
    var plan: seq<bool>

    constructor (s: Edit)
      ensures Now(s.ok) == s
    {
      files, record, figures, data, next := s.files, s.record, s.figures, s.data, s.next;
      recordUpdated, staged, committed, plan := s.recordUpdated, s.staged, s.committed, s.plan;
    }

    function Now(ok: bool): Edit
      reads this
    {
      Edit(files, record, figures, data, next, recordUpdated, staged, committed, plan, ok)
    }

    /** Whether the next operation works. */
    method Try() returns (ok: bool)
      modifies this`plan
      ensures ok == Works(old(plan)) && plan == Rest(old(plan))
    {
      ok, plan := Works(plan), Rest(plan);
    }

    method SetSide(kind: Kind, d: Side)
      modifies this`figures, this`data
      ensures Now(true) == WithSide(old(Now(true)), kind, d)
    {
      if kind == Figure {
        figures := d;
      } else {
        data := d;
      }
    }

    // ----- forward

    method UpdateRecord(newRecord: string) returns (ok: bool)
      modifies this
      ensures Now(ok) == EditSaga.UpdateRecord(old(Now(true)), newRecord)
    {
      ok := Try();
      if ok {
        record, recordUpdated := newRecord, true;
      }
    }

    method StageOne(kind: Kind, input: Input) returns (ok: bool)
      modifies this
      ensures Now(ok) == EditSaga.StageOne(old(Now(true)), kind, input)
    {
      ok := Try();
      if ok {
        files := files[Temp(next) := input.content];
        staged := staged + [Staged(Temp(next), Final(kind, input.name))];
        next := next + 1;
        if kind == Data {
          ok := Try();
        }
      }
    }

    method StageInputFiles(kind: Kind, inputs: seq<Input>) returns (ok: bool)
      modifies this
      ensures Now(ok) == StageAll(old(Now(true)), kind, inputs)
    {
      var i := 0;
      ok := true;
      while i < |inputs|
        invariant 0 <= i <= |inputs| && ok
        invariant StageAll(Now(true), kind, inputs[i..]) == StageAll(old(Now(true)), kind, inputs)
      {
        ok := StageOne(kind, inputs[i]);
        if !ok {
          return;
        }
        i := i + 1;
      }
    }

    method UpsertOne(kind: Kind, known: map<string, OldRow>, input: Input) returns (ok: bool)
      modifies this
      ensures Now(ok) == EditSaga.UpsertOne(old(Now(true)), kind, known, input)
    {
      var d := SideOf(Now(true), kind);
      if input.name in known {
        var o := known[input.name];
        if o.id !in d.table {
          return false;
        }
        ok := Try();
        if ok {
          SetSide(kind, d.(table := d.table[o.id := Row(input.name, input.body, d.table[o.id].note)],
                           updated := d.updated + [o]));
        }
      } else {
        if HasName(d.table, input.name) {
          return false;
        }
        ok := Try();
        if ok {
          SetSide(kind, d.(table := d.table[next := Row(input.name, input.body, None)], created := d.created + [next]));
          next := next + 1;
        }
      }
    }

    method UpsertRecords(kind: Kind, known: map<string, OldRow>, inputs: seq<Input>) returns (ok: bool,
        names: set<string>)
      modifies this
      ensures Now(ok) == UpsertAll(old(Now(true)), kind, known, inputs)
      ensures ok ==> names == Names(inputs)
    {
      var i := 0;
      ok, names := true, {};
      while i < |inputs|
        invariant 0 <= i <= |inputs| && ok && names == Names(inputs[..i])
        invariant UpsertAll(Now(true), kind, known, inputs[i..]) == UpsertAll(old(Now(true)), kind, known, inputs)
      {
        names := names + {inputs[i].name};
        NamesNext(inputs, i);
        ok := UpsertOne(kind, known, inputs[i]);
        if !ok {
          return;
        }
        i := i + 1;
      }
      assert inputs[..i] == inputs;
    }

    /** backupExistingFileForEdit */
    method MoveAside(st: Staged) returns (ok: bool)
      modifies this`files, this`next, this`plan
      ensures Now(ok) == EditSaga.MoveAside(old(Now(true)), st)
    {
      ok := Try();
      if ok && st.final in files {
        files := files[Backup(next) := files[st.final]] - {st.final};
        next := next + 1;
      }
    }

    method PutInPlace(st: Staged, backup: Option<Path>) returns (ok: bool)
      modifies this`files, this`committed, this`plan
      ensures Now(ok) == EditSaga.PutInPlace(old(Now(true)), st, backup)
    {
      ok := Try();
      if ok && st.temp in files {
        files := files[st.final := files[st.temp]] - {st.temp};
        committed := committed + [Committed(st.final, backup)];
      } else {
        ok := false;
        if backup.Some? {
          var works := Try();
          if works {
            files := MovedBack(files, st.final, backup.value);
          }
        }
      }
    }

    method CommitOne(st: Staged) returns (ok: bool)
      modifies this
      ensures Now(ok) == EditSaga.CommitOne(old(Now(true)), st)
    {
      var backup := if st.final in files then Some(Backup(next)) else None;
      ok := MoveAside(st);
      if ok {
        ok := PutInPlace(st, backup);
      }
    }

    method CommitStagedFiles() returns (ok: bool)
      modifies this
      ensures Now(ok) == CommitAll(old(Now(true)), old(staged))
    {
      var todo := staged;
      var i := 0;
      ok := true;
      while i < |todo|
        invariant 0 <= i <= |todo| && ok
        invariant CommitAll(Now(true), todo[i..]) == CommitAll(old(Now(true)), todo)
      {
        ok := CommitOne(todo[i]);
        if !ok {
          return;
        }
        i := i + 1;
      }
    }

    method DeleteRemoved(kind: Kind, olds: seq<OldRow>, keep: set<string>) returns (ok: bool)
      modifies this
      ensures Now(ok) == DeleteAll(old(Now(true)), kind, olds, keep)
    {
      var i := 0;
      ok := true;
      while i < |olds|
        invariant 0 <= i <= |olds| && ok
        invariant DeleteAll(Now(true), kind, olds[i..], keep) == DeleteAll(old(Now(true)), kind, olds, keep)
      {
        var o, d := olds[i], SideOf(Now(true), kind);
        i := i + 1;
        if o.row.name !in keep {
          if o.id !in d.table {
            return false;
          }
          ok := Try();
          if !ok {
            return;
          }
          SetSide(kind, d.(table := d.table - {o.id}, deleted := d.deleted + [o]));
        }
      }
    }

    // ----- compensations

    /** After a success the backups go. */
    method RemoveBackups()
      modifies this`files
      ensures files == DropBackups(old(files), committed)
    {
      var i := 0;
      while i < |committed|
        invariant 0 <= i <= |committed|
        invariant files == DropBackups(old(files), committed[..i])
      {
        var c := committed[i];
        assert committed[..i + 1] == committed[..i] + [c];
        if c.backup.Some? {
          files := files - {c.backup.value};
        }
        i := i + 1;
      }
      assert committed[..i] == committed;
    }

    /** After a failure the commits are undone, the last one first. */
    method UndoCommits()
      modifies this`files, this`plan
      ensures Now(false) == EditSaga.UndoCommits(old(Now(false)), committed)
    {
      var i := |committed|;
      assert committed[..i] == committed;
      while i > 0
        invariant 0 <= i <= |committed|
        invariant EditSaga.UndoCommits(Now(false), committed[..i]) == EditSaga.UndoCommits(old(Now(false)), committed)
      {
        i := i - 1;
        LastFirst(Now(false), committed, i);
        UndoCommit(committed[i]);
      }
    }

    method UndoCommit(c: Committed)
      modifies this`files, this`plan
      ensures Now(false) == EditSaga.UndoCommit(old(Now(false)), c)
    {
      var works := Try();
      if works {
        files := files - {c.final};
      }
      if c.backup.Some? {
        works := Try();
        if works {
          files := MovedBack(files, c.final, c.backup.value);
        }
      }
    }

    method FinalizeCommittedFiles(success: bool)
      modifies this`files, this`plan
      ensures Now(success) ==
        if success then old(Now(true)).(files := DropBackups(old(files), committed))
        else EditSaga.UndoCommits(old(Now(false)), committed)
    {
      if success {
        RemoveBackups();
      } else {
        UndoCommits();
      }
    }

    method CleanupStagedFiles()
      modifies this`files, this`plan
      ensures Now(false) == CleanUp(old(Now(false)), staged)
    {
      var i := 0;
      while i < |staged|
        invariant 0 <= i <= |staged|
        invariant CleanUp(Now(false), staged[i..]) == CleanUp(old(Now(false)), staged)
      {
        var works := Try();
        if works {
          files := files - {staged[i].temp};
        }
        i := i + 1;
      }
    }

    /** Replaces the rows of one kind if the operation works. */
    method TryTable(kind: Kind, t: Table)
      modifies this`figures, this`data, this`plan
      ensures Now(false) == Best(old(Now(false)), WithTable(old(Now(false)), kind, t))
    {
      var works := Try();
      if works {
        SetSide(kind, SideOf(Now(true), kind).(table := t));
      }
    }

    method DropRows(kind: Kind, created: seq<nat>)
      modifies this`figures, this`data, this`plan
      ensures Now(false) == EditSaga.DropRows(old(Now(false)), kind, created)
    {
      var i := 0;
      while i < |created|
        invariant 0 <= i <= |created|
        invariant EditSaga.DropRows(Now(false), kind, created[i..]) == EditSaga.DropRows(old(Now(false)), kind, created)
      {
        TryTable(kind, SideOf(Now(false), kind).table - {created[i]});
        i := i + 1;
      }
    }

    method RevertRows(kind: Kind, updated: seq<OldRow>)
      modifies this`figures, this`data, this`plan
      ensures Now(false) == EditSaga.RevertRows(old(Now(false)), kind, updated)
    {
      var i := 0;
      while i < |updated|
        invariant 0 <= i <= |updated|
        invariant EditSaga.RevertRows(Now(false), kind, updated[i..])
               == EditSaga.RevertRows(old(Now(false)), kind, updated)
      {
        TryTable(kind, UndoUpdate(SideOf(Now(false), kind).table, updated[i]));
        i := i + 1;
      }
    }

    method RecreateRow(kind: Kind, row: Row)
      modifies this`figures, this`data, this`next, this`plan
      ensures Now(false) == EditSaga.RecreateRow(old(Now(false)), kind, row)
    {
      var works := Try();
      var d := SideOf(Now(false), kind);
      if works && !HasName(d.table, row.name) {
        SetSide(kind, d.(table := d.table[next := row]));
        next := next + 1;
      }
    }

    method RecreateRows(kind: Kind, deleted: seq<OldRow>)
      modifies this`figures, this`data, this`next, this`plan
      ensures Now(false) == EditSaga.RecreateRows(old(Now(false)), kind, deleted)
    {
      var i := 0;
      while i < |deleted|
        invariant 0 <= i <= |deleted|
        invariant EditSaga.RecreateRows(Now(false), kind, deleted[i..])
               == EditSaga.RecreateRows(old(Now(false)), kind, deleted)
      {
        RecreateRow(kind, deleted[i].row);
        i := i + 1;
      }
    }

    /** One kind's part of rollbackRepository. */
    method RollbackSide(kind: Kind)
      modifies this`figures, this`data, this`next, this`plan
      ensures Now(false) == EditSaga.RollbackSide(old(Now(false)), kind)
    {
      var d := SideOf(Now(false), kind);
      DropRows(kind, d.created);
      RevertRows(kind, d.updated);
      RecreateRows(kind, d.deleted);
    }

    method RollbackRepository(existing: string)
      modifies this`figures, this`data, this`next, this`record, this`plan
      ensures Now(false) == RollbackRows(old(Now(false)), existing)
    {
      RollbackSide(Figure);
      RollbackSide(Data);
      if recordUpdated {
        var works := Try();
        if works {
          record := existing;
        }
      }
    }

    // ----- the edit

    /** The body of runEdit before its deferred functions. */
    method Proceed(j: Job) returns (ok: bool)
      modifies this
      ensures Now(ok) == Forward(old(Now(true)), j)
    {
      ghost var s := Now(true);
      ok := UpdateRecord(j.record);
      if ok {
        ok := StageInputFiles(Figure, j.figures);
      }
      if ok {
        ok := StageInputFiles(Data, j.data);
      }
      assert Now(ok) == Staging(s, j);
      var figureNames, dataNames := {}, {};
      ghost var u := Now(ok);
      if ok {
        ok, figureNames := UpsertRecords(Figure, ByName(j.oldFigures), j.figures);
      }
      if ok {
        ok, dataNames := UpsertRecords(Data, ByName(j.oldData), j.data);
      }
      assert Now(ok) == Upserting(u, j);
      if ok {
        ok := CommitStagedFiles();
      }
      ghost var c := Now(ok);
      if ok {
        ok := DeleteRemoved(Figure, j.oldFigures, figureNames);
      }
      if ok {
        ok := DeleteRemoved(Data, j.oldData, dataNames);
      }
      assert Now(ok) == Deleting(c, j);
    }

    /** The files of deleted rows; one that cannot be removed stays. */
    method DeleteEditFiles(kind: Kind, deleted: seq<OldRow>, stuck: set<Path>)
      modifies this`files
      ensures files == old(files) - (Removed(kind, deleted) - stuck)
    {
      var i := 0;
      while i < |deleted|
        invariant 0 <= i <= |deleted|
        invariant files == old(files) - (Removed(kind, deleted[..i]) - stuck)
      {
        var p := Final(kind, deleted[i].row.name);
        assert deleted[..i + 1] == deleted[..i] + [deleted[i]];
        assert Removed(kind, deleted[..i + 1]) == Removed(kind, deleted[..i]) + {p};
        if p !in stuck {
          files := files - {p};
        }
        i := i + 1;
      }
      assert deleted[..i] == deleted;
    }

    /** After a success: the files of deleted rows, then the deferred removal of the backups. */
    method ConcludeEdit(stuck: set<Path>)
      modifies this`files, this`plan
      ensures Now(true) == Conclude(old(Now(true)), stuck)
    {
      DeleteEditFiles(Figure, figures.deleted, stuck);
      DeleteEditFiles(Data, data.deleted, stuck);
      assert files == old(files) - (Removed(Figure, figures.deleted) + Removed(Data, data.deleted) - stuck);
      FinalizeCommittedFiles(true);
    }

    /** After a failure: the deferred compensations, last deferred first. */
    method CompensateEdit(existing: string)
      modifies this`files, this`figures, this`data, this`next, this`record, this`plan
      ensures Now(false) == Compensate(old(Now(false)), existing)
    {
      FinalizeCommittedFiles(false);
      CleanupStagedFiles();
      RollbackRepository(existing);
    }

    method RunEdit(j: Job, stuck: set<Path>) returns (ok: bool)
      modifies this
      ensures Now(ok) == EditSaga.RunEdit(old(Now(true)), j, stuck)
    {
      var existing := record;
      ok := Proceed(j);
      if ok {
        ConcludeEdit(stuck);
      } else {
        CompensateEdit(existing);
      }
    }
  }
}
