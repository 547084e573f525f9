/** What a successful edit leaves: exactly the new set of rows and files. */
module EditResult {
  import opened Common
  import opened EditSaga
  import opened EditUndo

  /** When an input folder names an asset twice, the later one stands. */
  function LastNamed(inputs: seq<Input>, name: string): Option<Input> {
    if inputs == [] then None
    else if inputs[|inputs| - 1].name == name then Some(inputs[|inputs| - 1])
    else LastNamed(inputs[..|inputs| - 1], name)
  }

  lemma {:induction false} LastNamedFinds(inputs: seq<Input>, name: string)
    ensures name in Names(inputs) <==> LastNamed(inputs, name).Some?
    ensures LastNamed(inputs, name).Some? ==> LastNamed(inputs, name).value.name == name
  {
    if inputs != [] {
      var n := |inputs| - 1;
      LastNamedFinds(inputs[..n], name);
      assert inputs == inputs[..n] + [inputs[n]];
    }
  }

  function NoteOf(known: map<string, OldRow>, name: string): Option<string> {
    if name in known then known[name].row.note else None
  }

  /** The row of a name after these inputs have been taken. */
  function Expected(known: map<string, OldRow>, inputs: seq<Input>, name: string): Option<Row> {
    match LastNamed(inputs, name)
    case Some(i) => Some(Row(name, i.body, NoteOf(known, name)))
    case None => if name in known then Some(known[name].row) else None
  }

  // ----- rows

  /** The table says of every name what is expected, and says it once. */
  ghost predicate TableIs(t: Table, known: map<string, OldRow>, inputs: seq<Input>) {
    && UniqueNames(t)
    && (forall id :: id in t ==> Expected(known, inputs, t[id].name) == Some(t[id]))
    && (forall name :: Expected(known, inputs, name).Some? ==> HasName(t, name))
    && (forall name :: name in known ==> known[name].id in t && t[known[name].id].name == name)
  }

  ghost predicate WellKnown(known: map<string, OldRow>) {
    forall name :: name in known ==> known[name].row.name == name
  }

  lemma {:induction false} ExpectedNext(known: map<string, OldRow>, inputs: seq<Input>, input: Input, name: string)
    ensures Expected(known, inputs + [input], name) ==
            if name == input.name then Some(Row(name, input.body, NoteOf(known, name)))
            else Expected(known, inputs, name)
  {
    assert (inputs + [input])[..|inputs|] == inputs;
  }

  lemma {:induction false} RowWritten(t: Table, known: map<string, OldRow>, done: seq<Input>, input: Input, id: nat)
    requires WellKnown(known) && TableIs(t, known, done)
    requires if id in t then t[id].name == input.name else !HasName(t, input.name) && input.name !in known
    ensures TableIs(t[id := Row(input.name, input.body, NoteOf(known, input.name))], known, done + [input])
  {
    var u := t[id := Row(input.name, input.body, NoteOf(known, input.name))];
    forall x | x in u ensures Expected(known, done + [input], u[x].name) == Some(u[x]) {
      ExpectedNext(known, done, input, u[x].name);
    }
    forall name | Expected(known, done + [input], name).Some? ensures HasName(u, name) {
      ExpectedNext(known, done, input, name);
      if name == input.name {
        assert u[id].name == name;
      } else {
        var x :| x in t && t[x].name == name;
        assert u[x].name == name;
      }
    }
  }

  lemma {:induction false} UpsertOneWrites(s: Edit, kind: Kind, known: map<string, OldRow>, done: seq<Input>,
      input: Input)
    requires WellKnown(known) && TableIs(SideOf(s, kind).table, known, done)
    requires forall id :: id in SideOf(s, kind).table ==> id < s.next
    ensures var t := UpsertOne(s, kind, known, input);
      t.ok ==>
        && TableIs(SideOf(t, kind).table, known, done + [input])
        && (forall id :: id in SideOf(t, kind).table ==> id < t.next)
  {
    var t, d := UpsertOne(s, kind, known, input), SideOf(s, kind).table;
    if t.ok {
      var id := if input.name in known then known[input.name].id else s.next;
      if input.name in known {
        LastNamedFinds(done, input.name);
        assert Expected(known, done, input.name) == Some(d[id]);
        assert d[id].note == NoteOf(known, input.name);
      }
      RowWritten(d, known, done, input, id);
    }
  }

  lemma {:induction false} UpsertAllWrites(s: Edit, kind: Kind, known: map<string, OldRow>, done: seq<Input>,
      inputs: seq<Input>)
    requires WellKnown(known) && TableIs(SideOf(s, kind).table, known, done)
    requires forall id :: id in SideOf(s, kind).table ==> id < s.next
    ensures var t := UpsertAll(s, kind, known, inputs);
      t.ok ==> TableIs(SideOf(t, kind).table, known, done + inputs)
    decreases |inputs|, 0
  {
    if inputs == [] {
      assert done + inputs == done;
    } else if s.ok {
      UpsertOneWrites(s, kind, known, done, inputs[0]);
      UpsertRestWrites(UpsertOne(s, kind, known, inputs[0]), kind, known, done + [inputs[0]], inputs[1..]);
      assert done + [inputs[0]] + inputs[1..] == done + inputs;
    }
  }

  lemma {:induction false} UpsertRestWrites(s: Edit, kind: Kind, known: map<string, OldRow>, done: seq<Input>,
      inputs: seq<Input>)
    requires WellKnown(known)
    requires s.ok ==> TableIs(SideOf(s, kind).table, known, done) && forall id :: id in SideOf(s, kind).table ==>
        id < s.next
    ensures var t := UpsertAll(s, kind, known, inputs);
      t.ok ==> TableIs(SideOf(t, kind).table, known, done + inputs)
    decreases |inputs|, 1
  {
    if s.ok {
      UpsertAllWrites(s, kind, known, done, inputs);
    }
  }

  /** The rows whose name does not stay. */
  ghost predicate RemovedFrom(after: Side, before: Side, olds: seq<OldRow>, keep: set<string>) {
    && after.table == before.table - (set o | o in olds && o.row.name !in keep :: o.id)
    && (forall o :: o in after.deleted <==> o in before.deleted || (o in olds && o.row.name !in keep))
  }

  lemma {:induction false} RemovedNext(after: Side, mid: Side, before: Side, olds: seq<OldRow>, keep: set<string>)
    requires olds != [] && RemovedFrom(after, mid, olds[1..], keep)
    requires mid == if olds[0].row.name in keep then before
                    else before.(table := before.table - {olds[0].id}, deleted := before.deleted + [olds[0]])
    ensures RemovedFrom(after, before, olds, keep)
  {
    assert forall o :: o in olds <==> o == olds[0] || o in olds[1..];
    assert after.table == before.table - (set o | o in olds && o.row.name !in keep :: o.id);
  }

  lemma {:induction false} DeleteAllRemoves(s: Edit, kind: Kind, olds: seq<OldRow>, keep: set<string>)
    ensures var t := DeleteAll(s, kind, olds, keep);
      t.ok ==> RemovedFrom(SideOf(t, kind), SideOf(s, kind), olds, keep)
    decreases |olds|
  {
    if olds == [] || !s.ok {
      assert SideOf(s, kind).table - {} == SideOf(s, kind).table;
    } else {
      var s1 := DeleteOne(s, kind, olds[0], keep);
      DeleteAllRemoves(s1, kind, olds[1..], keep);
      if s1.ok && DeleteAll(s, kind, olds, keep).ok {
        RemovedNext(SideOf(DeleteAll(s, kind, olds, keep), kind), SideOf(s1, kind), SideOf(s, kind), olds, keep);
      }
    }
  }

  /** The new rows: one for each input name, with the last body given for it and the old note. */
  function Wanted(known: map<string, OldRow>, inputs: seq<Input>): set<Row> {
    set name, i | name in Names(inputs) && i == LastNamed(inputs, name) && i.Some? ::
      Row(name, i.value.body, NoteOf(known, name))
  }

  /** Exactly the wanted rows; a row whose name stays keeps its id. */
  ghost predicate Replaced(t: Table, olds: seq<OldRow>, inputs: seq<Input>) {
    && UniqueNames(t)
    && Rows(t) == Wanted(ByName(olds), inputs)
    && (forall o :: o in olds && o.row.name in Names(inputs) ==> o.id in t && t[o.id].name == o.row.name)
  }

  lemma {:induction false} DeletionsLeaveWanted(t: Table, u: Table, olds: seq<OldRow>, inputs: seq<Input>)
    requires TableIs(t, ByName(olds), inputs)
    requires forall o :: o in olds ==> o.row.name in ByName(olds) && ByName(olds)[o.row.name] == o
    requires forall name :: name in ByName(olds) ==> ByName(olds)[name] in olds && ByName(olds)[name].row.name == name
    requires u == t - (set o | o in olds && o.row.name !in Names(inputs) :: o.id)
    ensures Replaced(u, olds, inputs)
  {
    var known := ByName(olds);
    forall r | r in Rows(u) ensures r in Wanted(known, inputs) {
      var id :| id in u && u[id] == r;
      LastNamedFinds(inputs, r.name);
      assert Expected(known, inputs, r.name) == Some(r);
    }
    forall r | r in Wanted(known, inputs) ensures r in Rows(u) {
      LastNamedFinds(inputs, r.name);
      assert Expected(known, inputs, r.name).Some?;
      var id :| id in t && t[id].name == r.name;
      forall o | o in olds && o.row.name !in Names(inputs) ensures o.id != id {
        assert o.row.name in known;
      }
      assert u[id] == r;
    }
    forall o | o in olds && o.row.name in Names(inputs) ensures o.id in u && u[o.id].name == o.row.name {
      assert o.row.name in known && t[o.id].name == o.row.name;
      forall x | x in olds && x.row.name !in Names(inputs) ensures x.id != o.id {
        assert x.row.name in known;
      }
    }
  }

  lemma {:induction false} ByNameExact(olds: seq<OldRow>, t: Table)
    requires Lists(olds, t) && UniqueNames(t)
    ensures WellKnown(ByName(olds)) && TableIs(t, ByName(olds), [])
    ensures forall o :: o in olds ==> o.row.name in ByName(olds) && ByName(olds)[o.row.name] == o
    ensures forall name :: name in ByName(olds) ==> ByName(olds)[name] in olds && ByName(olds)[name].row.name == name
  {
    var known := ByName(olds);
    forall o | o in olds ensures o.row.name in known && known[o.row.name] == o {
      ByNameFinds(olds, o.row.name);
    }
    forall name | name in known ensures known[name] in olds && known[name].row.name == name {
      ByNameFinds(olds, name);
    }
    forall id | id in t ensures Expected(known, [], t[id].name) == Some(t[id]) {
      assert OldRow(id, t[id]) in olds;
    }
    forall name | Expected(known, [], name).Some? ensures HasName(t, name) {
      assert known[name].id in t && t[known[name].id].name == name;
    }
  }

  // ----- files

  datatype Write = Write(path: Path, content: string)

  function Writes(kind: Kind, inputs: seq<Input>): (ws: seq<Write>)
    ensures |ws| == |inputs|
    ensures forall i :: 0 <= i < |ws| ==> ws[i] == Write(Final(kind, inputs[i].name), inputs[i].content)
  {
    if inputs == [] then []
    else
      var n := |inputs| - 1;
      Writes(kind, inputs[..n]) + [Write(Final(kind, inputs[n].name), inputs[n].content)]
  }

  /** The inputs written straight to their places. */
  function Written(files: Files, ws: seq<Write>): Files {
    if ws == [] then files else Written(files, ws[..|ws| - 1])[ws[|ws| - 1].path := ws[|ws| - 1].content]
  }

  /** The staged files hold the content to be written. */
  ghost predicate Copies(files: Files, staged: seq<Staged>, ws: seq<Write>) {
    && |staged| == |ws|
    && (forall i :: 0 <= i < |staged| ==>
          && staged[i].temp.Temp? && staged[i].final.Final? && staged[i].final == ws[i].path
          && staged[i].temp in files && files[staged[i].temp] == ws[i].content)
    && (forall i, k :: 0 <= i < k < |staged| ==> staged[i].temp != staged[k].temp)
  }

  ghost predicate Copying(s: Edit, ws: seq<Write>, f0: Files) {
    && UnusedNames(s.files, s.next)
    && Copies(s.files, s.staged, ws)
    && DropTemps(s.files, s.staged) == f0
  }

  lemma {:induction false} TempCopies(s: Edit, st: Staged, w: Write, ws: seq<Write>, f0: Files)
    requires Copying(s, ws, f0) && st.temp == Temp(s.next) && st.final == w.path && w.path.Final?
    ensures Copying(s.(files := s.files[st.temp := w.content], staged := s.staged + [st], next := s.next + 1),
        ws + [w], f0)
  {
    var t := s.(files := s.files[st.temp := w.content], staged := s.staged + [st], next := s.next + 1);
    assert forall x :: x in t.staged <==> x in s.staged || x == st;
    assert DropTemps(t.files, t.staged) == DropTemps(s.files, s.staged);
  }

  lemma {:induction false} StageOneCopies(s: Edit, kind: Kind, input: Input, ws: seq<Write>, f0: Files)
    requires s.ok && Copying(s, ws, f0)
    ensures var t := StageOne(s, kind, input);
      t.ok ==> Copying(t, ws + [Write(Final(kind, input.name), input.content)], f0)
  {
    var p := Final(kind, input.name);
    TempCopies(s, Staged(Temp(s.next), p), Write(p, input.content), ws, f0);
  }

  lemma {:induction false} WritesCons(ws: seq<Write>, kind: Kind, inputs: seq<Input>)
    requires inputs != []
    ensures ws + Writes(kind, inputs)
         == ws + [Write(Final(kind, inputs[0].name), inputs[0].content)] + Writes(kind, inputs[1..])
  {}

  lemma {:induction false} StageAllCopies(s: Edit, kind: Kind, inputs: seq<Input>, ws: seq<Write>, f0: Files)
    requires s.ok ==> Copying(s, ws, f0)
    ensures var t := StageAll(s, kind, inputs); t.ok ==> Copying(t, ws + Writes(kind, inputs), f0)
    decreases |inputs|
  {
    if !s.ok {
    } else if inputs == [] {
      assert ws + Writes(kind, inputs) == ws;
    } else {
      var w := Write(Final(kind, inputs[0].name), inputs[0].content);
      StageOneCopies(s, kind, inputs[0], ws, f0);
      StageAllCopies(StageOne(s, kind, inputs[0]), kind, inputs[1..], ws + [w], f0);
      WritesCons(ws, kind, inputs);
    }
  }

  /** The commits without the backups. */
  function Placed(files: Files, staged: seq<Staged>): Files {
    if staged == [] then files
    else
      var before, st := Placed(files, staged[..|staged| - 1]), staged[|staged| - 1];
      (if st.temp in before then before[st.final := before[st.temp]] else before) - {st.temp}
  }

  ghost predicate BackupsOnly(committed: seq<Committed>) {
    forall c :: c in committed && c.backup.Some? ==> c.backup.value.Backup?
  }

  lemma {:induction false} CommitOnePlaces(s: Edit, st: Staged)
    requires s.ok && UnusedNames(s.files, s.next) && BackupsOnly(s.committed)
    requires forall c :: c in s.committed && c.backup.Some? ==> c.backup.value.n < s.next
    requires st.temp.Temp? && st.final.Final?
    ensures var t := CommitOne(s, st);
      t.ok ==>
        && UnusedNames(t.files, t.next) && BackupsOnly(t.committed)
        && (forall c :: c in t.committed && c.backup.Some? ==> c.backup.value.n < t.next)
        && DropBackups(t.files, t.committed) == Placed(DropBackups(s.files, s.committed), [st])
  {
    var t := CommitOne(s, st);
    if t.ok {
      var backup := if st.final in s.files then Some(Backup(s.next)) else None;
      var c := Committed(st.final, backup);
      assert t.committed == s.committed + [c];
      assert forall x :: x in t.committed <==> x in s.committed || x == c;
      assert t.files == AfterCommit(s.files, st, backup);
      CommitPlaces(s.files, s.committed, st, backup, s.next);
    }
  }

  /** The files after a commit that works. */
  function AfterCommit(files: Files, st: Staged, backup: Option<Path>): Files
    requires st.temp in files && (backup.Some? ==> st.final in files)
  {
    var aside := if backup.Some? then files[backup.value := files[st.final]] - {st.final} else files;
    aside[st.final := files[st.temp]] - {st.temp}
  }

  lemma {:induction false} CommitPlaces(
    files: Files, committed: seq<Committed>, st: Staged, backup: Option<Path>, next: nat)
    requires UnusedNames(files, next) && BackupsOnly(committed) && st.temp.Temp? && st.final.Final?
    requires forall c :: c in committed && c.backup.Some? ==> c.backup.value.n < next
    requires st.temp in files
    requires if backup.Some? then backup.value == Backup(next) && st.final in files else st.final !in files
    ensures DropBackups(AfterCommit(files, st, backup), committed + [Committed(st.final, backup)])
         == Placed(DropBackups(files, committed), [st])
  {
    var c, before := Committed(st.final, backup), DropBackups(files, committed);
    assert forall x :: x in committed + [c] <==> x in committed || x == c;
    assert st.temp in before;
    assert Placed(before, [st][..0]) == before;
    assert DropBackups(AfterCommit(files, st, backup), committed + [c])
        == before[st.final := before[st.temp]] - {st.temp};
  }

  lemma {:induction false} PlacedThen(files: Files, a: seq<Staged>, b: seq<Staged>)
    ensures Placed(files, a + b) == Placed(Placed(files, a), b)
    decreases |b|
  {
    if b == [] {
      assert a + b == a;
    } else {
      assert (a + b)[..|a + b| - 1] == a + b[..|b| - 1];
      PlacedThen(files, a, b[..|b| - 1]);
    }
  }

  lemma {:induction false} CommitAllPlaces(s: Edit, staged: seq<Staged>)
    requires UnusedNames(s.files, s.next) && BackupsOnly(s.committed)
    requires forall c :: c in s.committed && c.backup.Some? ==> c.backup.value.n < s.next
    requires forall st :: st in staged ==> st.temp.Temp? && st.final.Final?
    ensures var t := CommitAll(s, staged);
      t.ok ==> DropBackups(t.files, t.committed) == Placed(DropBackups(s.files, s.committed), staged)
    decreases |staged|
  {
    if staged != [] && s.ok {
      var s1 := CommitOne(s, staged[0]);
      if s1.ok {
        CommitOnePlaces(s, staged[0]);
        CommitAllPlaces(s1, staged[1..]);
        PlacedThen(DropBackups(s.files, s.committed), staged[..1], staged[1..]);
        assert staged == staged[..1] + staged[1..] && staged[..1] == [staged[0]];
      }
    }
  }

  lemma {:induction false} PlaceLast(w: Files, used: set<Path>, st: Staged, content: string)
    requires st.temp in w && w[st.temp] == content && st.temp !in used && st.final !in used && st.temp != st.final
    ensures var before := w - used;
      && st.temp in before
      && before[st.final := before[st.temp]] - {st.temp} == w[st.final := content] - (used + {st.temp})
  {}

  lemma {:induction false} PlacedIsWritten(files: Files, staged: seq<Staged>, ws: seq<Write>)
    requires Copies(files, staged, ws)
    ensures Placed(files, staged) == Written(files, ws) - (set st | st in staged :: st.temp)
    decreases |staged|
  {
    if staged == [] {
      assert Placed(files, staged) == files - (set st | st in staged :: st.temp);
    } else {
      var n := |staged| - 1;
      var st, w, used := staged[n], ws[n], set x | x in staged[..n] :: x.temp;
      PrefixCopies(files, staged, ws, n);
      PlacedIsWritten(files, staged[..n], ws[..n]);
      LastCopy(files, staged, ws);
      var before := Placed(files, staged[..n]);
      PlaceLast(Written(files, ws[..n]), used, st, w.content);
      assert before == Written(files, ws[..n]) - used;
      assert Placed(files, staged) == before[st.final := before[st.temp]] - {st.temp};
      assert Written(files, ws) == Written(files, ws[..n])[st.final := w.content];
    }
  }

  lemma {:induction false} PrefixCopies(files: Files, staged: seq<Staged>, ws: seq<Write>, n: nat)
    requires Copies(files, staged, ws) && n <= |staged|
    ensures Copies(files, staged[..n], ws[..n])
  {}

  /** What the last of the copies finds. */
  lemma {:induction false} LastCopy(files: Files, staged: seq<Staged>, ws: seq<Write>)
    requires Copies(files, staged, ws) && staged != []
    ensures var n := |staged| - 1;
      var st, used := staged[n], set x | x in staged[..n] :: x.temp;
      && At(Written(files, ws[..n]), st.temp) == Some(ws[n].content)
      && st.temp !in used && st.final !in used && st.temp != st.final && st.final == ws[n].path
      && (set x | x in staged :: x.temp) == used + {st.temp}
  {
    var n := |staged| - 1;
    var st, used := staged[n], set x | x in staged[..n] :: x.temp;
    forall w | w in ws[..n] ensures w.path != st.temp {
      var i :| 0 <= i < n && ws[i] == w;
      assert staged[i].final == w.path;
    }
    WrittenKeepsTemps(files, ws[..n], st.temp);
    assert staged == staged[..n] + [st];
    assert (set x | x in staged :: x.temp) == used + {st.temp};
    forall x | x in staged[..n] ensures x.temp != st.temp && x.temp != st.final {
      var i :| 0 <= i < n && staged[i] == x;
    }
  }

  lemma {:induction false} WrittenKeepsTemps(files: Files, ws: seq<Write>, p: Path)
    requires forall w :: w in ws ==> w.path != p
    ensures At(Written(files, ws), p) == At(files, p)
  {
    if ws != [] {
      assert forall w :: w in ws[..|ws| - 1] ==> w in ws;
      WrittenKeepsTemps(files, ws[..|ws| - 1], p);
    }
  }

  /** What a path holds when inputs of one kind have been taken over what it held. */
  function NewContent(held: Option<string>, kind: Kind, inputs: seq<Input>, p: Path): Option<string> {
    if p.Final? && p.kind == kind && LastNamed(inputs, p.name).Some? then Some(LastNamed(inputs, p.name).value.content)
    else held
  }

  /** What is written where: the last input of each name. */
  lemma {:induction false} WrittenAt(files: Files, ws: seq<Write>, kind: Kind, inputs: seq<Input>, p: Path)
    ensures At(Written(files, ws + Writes(kind, inputs)), p) == NewContent(At(Written(files, ws), p), kind, inputs, p)
    decreases |inputs|
  {
    if inputs == [] {
      assert ws + Writes(kind, inputs) == ws;
    } else {
      var n := |inputs| - 1;
      WrittenAt(files, ws, kind, inputs[..n], p);
      WrittenSnoc(files, ws + Writes(kind, inputs[..n]), Write(Final(kind, inputs[n].name), inputs[n].content), p);
      assert ws + Writes(kind, inputs)
          == ws + Writes(kind, inputs[..n]) + [Write(Final(kind, inputs[n].name), inputs[n].content)];
    }
  }

  lemma {:induction false} WrittenSnoc(files: Files, ws: seq<Write>, w: Write, p: Path)
    ensures At(Written(files, ws + [w]), p) == if p == w.path then Some(w.content) else At(Written(files, ws), p)
  {
    assert (ws + [w])[..|ws|] == ws;
  }

  // ----- the edit

  /** The file at a path once both kinds of inputs have been taken. */
  function NewFile(s: Edit, j: Job, p: Path): Option<string> {
    NewContent(NewContent(At(s.files, p), Figure, j.figures, p), Data, j.data, p)
  }

  lemma {:induction false} StagingCopies(s: Edit, j: Job)
    requires Starts(s, j)
    ensures var t := Staging(s, j);
      t.ok ==> Copying(t, Writes(Figure, j.figures) + Writes(Data, j.data), s.files)
  {
    var s1 := UpdateRecord(s, j.record);
    assert DropTemps(s.files, []) == s.files;
    StageAllCopies(s1, Figure, j.figures, [], s.files);
    assert [] + Writes(Figure, j.figures) == Writes(Figure, j.figures);
    StageAllCopies(StageAll(s1, Figure, j.figures), Data, j.data, Writes(Figure, j.figures), s.files);
  }

  lemma {:induction false} PlacedAt(f0: Files, u: Edit, j: Job, p: Path)
    requires Copying(u, Writes(Figure, j.figures) + Writes(Data, j.data), f0)
    ensures At(Placed(u.files, u.staged), p) ==
            NewContent(NewContent(At(f0, p), Figure, j.figures, p), Data, j.data, p)
  {
    var first := Writes(Figure, j.figures);
    PlacedIsWritten(u.files, u.staged, first + Writes(Data, j.data));
    WrittenAt(u.files, first, Data, j.data, p);
    WrittenAt(u.files, [], Figure, j.figures, p);
    assert [] + first == first;
    var temps := set st | st in u.staged :: st.temp;
    assert p in temps ==> p.Temp? && p !in f0;
  }

  lemma {:induction false} FilesAfterCommit(s: Edit, u: Edit, j: Job, p: Path)
    requires u.committed == [] && Copying(u, Writes(Figure, j.figures) + Writes(Data, j.data), s.files)
    ensures var t := CommitAll(u, u.staged);
      t.ok ==> At(DropBackups(t.files, t.committed), p) == NewFile(s, j, p)
  {
    PlacedAt(s.files, u, j, p);
    CommitAllPlaces(u, u.staged);
    assert DropBackups(u.files, u.committed) == u.files;
  }

  lemma {:induction false} UpsertingWrites(s: Edit, j: Job)
    requires Untouched(s.figures, j.oldFigures, s.next) && Untouched(s.data, j.oldData, s.next)
    ensures var t := Upserting(s, j);
      t.ok ==>
        && TableIs(t.figures.table, ByName(j.oldFigures), j.figures)
        && TableIs(t.data.table, ByName(j.oldData), j.data)
  {
    ByNameExact(j.oldFigures, s.figures.table);
    ByNameExact(j.oldData, s.data.table);
    UpsertRestWrites(s, Figure, ByName(j.oldFigures), [], j.figures);
    assert [] + j.figures == j.figures && [] + j.data == j.data;
    var s1 := UpsertAll(s, Figure, ByName(j.oldFigures), j.figures);
    if s1.ok {
      UpsertsLater(s, Figure, j.oldFigures, j.figures);
      UpsertRestWrites(s1, Data, ByName(j.oldData), [], j.data);
    }
  }

  lemma {:induction false} UpsertsLater(s: Edit, kind: Kind, olds: seq<OldRow>, inputs: seq<Input>)
    requires Untouched(SideOf(s, kind), olds, s.next)
    ensures UpsertAll(s, kind, ByName(olds), inputs).next >= s.next
  {
    var d := SideOf(s, kind);
    forall id | id in d.table ensures Revertible(d.table[id], d.table[id], id, d.updated) {}
    UpsertAllUndoable(s, kind, olds, inputs, d.table);
  }

  /** The files that go with the deleted rows. */
  predicate Gone(j: Job, stuck: set<Path>, p: Path) {
    && p.Final? && p !in stuck
    && (exists o :: o in (if p.kind == Figure then j.oldFigures else j.oldData) && o.row.name == p.name)
    && p.name !in Names(if p.kind == Figure then j.figures else j.data)
  }

  lemma {:induction false} DeletingReplaces(s: Edit, s0: Edit, j: Job)
    requires Starts(s0, j) && s.figures.deleted == [] && s.data.deleted == []
    requires s.ok ==>
      && TableIs(s.figures.table, ByName(j.oldFigures), j.figures)
      && TableIs(s.data.table, ByName(j.oldData), j.data)
    ensures var t := Deleting(s, j);
      t.ok ==>
        && Replaced(t.figures.table, j.oldFigures, j.figures)
        && Replaced(t.data.table, j.oldData, j.data)
        && (forall o :: o in t.figures.deleted <==> o in j.oldFigures && o.row.name !in Names(j.figures))
        && (forall o :: o in t.data.deleted <==> o in j.oldData && o.row.name !in Names(j.data))
  {
    var s1 := DeleteAll(s, Figure, j.oldFigures, Names(j.figures));
    DeleteAllRemoves(s, Figure, j.oldFigures, Names(j.figures));
    DeleteAllRemoves(s1, Data, j.oldData, Names(j.data));
    var t := Deleting(s, j);
    if t.ok {
      ByNameExact(j.oldFigures, s0.figures.table);
      ByNameExact(j.oldData, s0.data.table);
      DeletionsLeaveWanted(s.figures.table, t.figures.table, j.oldFigures, j.figures);
      DeletionsLeaveWanted(s.data.table, t.data.table, j.oldData, j.data);
    }
  }

  /** The state in which the commits begin. */
  ghost predicate Ready(u: Edit, s: Edit, j: Job) {
    && u.record == j.record && u.committed == [] && u.figures.deleted == [] && u.data.deleted == []
    && Copying(u, Writes(Figure, j.figures) + Writes(Data, j.data), s.files)
    && TableIs(u.figures.table, ByName(j.oldFigures), j.figures)
    && TableIs(u.data.table, ByName(j.oldData), j.data)
  }

  lemma {:induction false} UpsertKeepsDeleted(s: Edit, kind: Kind, known: map<string, OldRow>, inputs: seq<Input>)
    ensures SideOf(UpsertAll(s, kind, known, inputs), kind).deleted == SideOf(s, kind).deleted
    decreases |inputs|
  {
    if inputs != [] && s.ok {
      UpsertKeepsDeleted(UpsertOne(s, kind, known, inputs[0]), kind, known, inputs[1..]);
    }
  }

  lemma {:induction false} UpsertedFrame(s: Edit, j: Job)
    ensures var t := Upserting(s, j);
      && t.figures.deleted == s.figures.deleted && t.data.deleted == s.data.deleted
      && t.record == s.record && t.committed == s.committed && t.files == s.files && t.staged == s.staged
      && (t.ok ==> s.ok)
  {
    var s1 := UpsertAll(s, Figure, ByName(j.oldFigures), j.figures);
    UpsertKeepsDeleted(s, Figure, ByName(j.oldFigures), j.figures);
    UpsertKeepsDeleted(s1, Data, ByName(j.oldData), j.data);
  }

  lemma {:induction false} UpsertedReady(s: Edit, j: Job)
    requires Starts(s, j)
    ensures var u := Upserting(Staging(s, j), j); u.ok ==> Ready(u, s, j)
  {
    var s1 := Staging(s, j);
    var u := Upserting(s1, j);
    StagingCopies(s, j);
    StagingUndoable(s, j);
    UpsertingUndoable(s1, s, j);
    UpsertingWrites(s1, j);
    UpsertedFrame(s1, j);
  }

  lemma {:induction false} CommittedReplaces(u: Edit, s: Edit, j: Job, stuck: set<Path>, p: Path)
    requires Starts(s, j) && (u.ok ==> Ready(u, s, j))
    ensures var f := Deleting(CommitAll(u, u.staged), j);
      f.ok ==>
        && f.record == j.record
        && Replaced(f.figures.table, j.oldFigures, j.figures)
        && Replaced(f.data.table, j.oldData, j.data)
        && At(Conclude(f, stuck).files, p) == if Gone(j, stuck, p) then None else NewFile(s, j, p)
  {
    var c := CommitAll(u, u.staged);
    var f := Deleting(c, j);
    if f.ok {
      FilesAfterCommit(s, u, j, p);
      DeletingReplaces(c, s, j);
      GoneExactly(f, j, stuck, p);
    }
  }

  /** After a success the record is the new one, the rows are exactly the wanted ones, every input
      is in its place, the files of deleted rows are gone unless they are stuck, and every other
      path (a temporary or backup file made on the way, too) is as it was. */
  lemma {:induction false} SuccessReplaces(s: Edit, j: Job, stuck: set<Path>, p: Path)
    requires Starts(s, j)
    ensures var t := RunEdit(s, j, stuck);
      t.ok ==>
        && t.record == j.record
        && Replaced(t.figures.table, j.oldFigures, j.figures)
        && Replaced(t.data.table, j.oldData, j.data)
        && At(t.files, p) == if Gone(j, stuck, p) then None else NewFile(s, j, p)
  {
    UpsertedReady(s, j);
    CommittedReplaces(Upserting(Staging(s, j), j), s, j, stuck, p);
  }

  lemma {:induction false} GoneExactly(f: Edit, j: Job, stuck: set<Path>, p: Path)
    requires forall o :: o in f.figures.deleted <==> o in j.oldFigures && o.row.name !in Names(j.figures)
    requires forall o :: o in f.data.deleted <==> o in j.oldData && o.row.name !in Names(j.data)
    ensures At(Conclude(f, stuck).files, p) ==
      if Gone(j, stuck, p) then None else At(DropBackups(f.files, f.committed), p)
  {
    var gone := Removed(Figure, f.figures.deleted) + Removed(Data, f.data.deleted) - stuck;
    assert p in gone <==> Gone(j, stuck, p);
  }
}
