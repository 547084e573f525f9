/**
 The record edit as functions on the state of an edit in progress: the record row, its figure and
 data-file rows, the files, and the lists from which a failed edit is undone. Any operation may fail,
 and then has no effect. A forward step that fails ends the edit; a compensation that fails is passed
 over, and the next one is tried. Module EditRun has the same edit as methods.
 */
module EditSaga {
  import opened Common

  datatype Kind = Figure | Data

  /** The canonical place of an asset, and the temporary and backup files made next to it. */
  datatype Path = Final(kind: Kind, name: string) | Temp(n: nat) | Backup(n: nat)

  type Files = map<Path, string>

  /** A figure or data-file row: the body is its key, size and hash, the note its alternative text
      or description, which an edit never supplies. */
  datatype Row = Row(name: string, body: string, note: Option<string>)

  type Table = map<nat, Row>

  datatype OldRow = OldRow(id: nat, row: Row)

  /** The rows of one kind, and what the edit has done to them. */
  datatype Side = Side(table: Table, created: seq<nat>, updated: seq<OldRow>, deleted: seq<OldRow>)

  datatype Staged = Staged(temp: Path, final: Path)

  datatype Committed = Committed(final: Path, backup: Option<Path>)

  datatype Edit = Edit(
    files: Files,
    record: string,
    figures: Side,
    data: Side,
    next: nat,
    recordUpdated: bool,
    staged: seq<Staged>,
    committed: seq<Committed>,
    plan: seq<bool>,
    ok: bool)

  /** One incoming asset. */
  datatype Input = Input(name: string, body: string, content: string)

  /** The input folder, and the rows the record has when the edit starts. */
  datatype Job = Job(
    record: string, figures: seq<Input>, data: seq<Input>, oldFigures: seq<OldRow>, oldData: seq<OldRow>)

  function SideOf(s: Edit, kind: Kind): Side { if kind == Figure then s.figures else s.data }

  function WithSide(s: Edit, kind: Kind, d: Side): Edit {
    if kind == Figure then s.(figures := d) else s.(data := d)
  }

  /** The next operation works, with this effect, or fails without one. */
  function Attempt(s: Edit, t: Edit): Edit {
    if !s.ok then s
    else if Works(s.plan) then t.(plan := Rest(s.plan))
    else s.(ok := false, plan := Rest(s.plan))
  }

  // ----- forward steps

  function UpdateRecord(s: Edit, record: string): Edit {
    Attempt(s, s.(record := record, recordUpdated := true))
  }

  /** A copy of the input under a temporary name; the hash of a data file is one operation more. */
  function StageOne(s: Edit, kind: Kind, input: Input): Edit {
    var s1 := Attempt(s, s.(files := s.files[Temp(s.next) := input.content],
                            staged := s.staged + [Staged(Temp(s.next), Final(kind, input.name))],
                            next := s.next + 1));
    if kind == Data then Attempt(s1, s1) else s1
  }

  function StageAll(s: Edit, kind: Kind, inputs: seq<Input>): (t: Edit)
    ensures t == s.(files := t.files, staged := t.staged, next := t.next, plan := t.plan, ok := t.ok)
    decreases |inputs|
  {
    if inputs == [] || !s.ok then s else StageAll(StageOne(s, kind, inputs[0]), kind, inputs[1..])
  }

  predicate HasName(t: Table, name: string) { exists id :: id in t && t[id].name == name }

  /** The rows found at the start, by file name. */
  function ByName(olds: seq<OldRow>): map<string, OldRow> {
    if olds == [] then map[]
    else
      var n := |olds| - 1;
      ByName(olds[..n])[olds[n].row.name := olds[n]]
  }

  /** A row of that name is updated and keeps its note; otherwise one is created, and names are
      unique. */
  function UpsertOne(s: Edit, kind: Kind, known: map<string, OldRow>, input: Input): (t: Edit)
    ensures t == WithSide(s, kind, SideOf(t, kind)).(next := t.next, plan := t.plan, ok := t.ok)
  {
    var d := SideOf(s, kind);
    if !s.ok then s
    else if input.name in known then
      var o := known[input.name];
      if o.id !in d.table then s.(ok := false)
      else Attempt(s, WithSide(s, kind, d.(table := d.table[o.id := Row(input.name, input.body, d.table[o.id].note)],
                                           updated := d.updated + [o])))
    else if HasName(d.table, input.name) then s.(ok := false)
    else Attempt(s, WithSide(s, kind, d.(table := d.table[s.next := Row(input.name, input.body, None)],
                                         created := d.created + [s.next])).(next := s.next + 1))
  }

  function UpsertAll(s: Edit, kind: Kind, known: map<string, OldRow>, inputs: seq<Input>): (t: Edit)
    ensures t == WithSide(s, kind, SideOf(t, kind)).(next := t.next, plan := t.plan, ok := t.ok)
    decreases |inputs|
  {
    if inputs == [] || !s.ok then s else UpsertAll(UpsertOne(s, kind, known, inputs[0]), kind, known, inputs[1..])
  }

  function MoveAside(s: Edit, st: Staged): Edit {
    Attempt(s, if st.final in s.files
               then s.(files := s.files[Backup(s.next) := s.files[st.final]] - {st.final}, next := s.next + 1)
               else s)
  }

  /** A compensation works, with this effect, or fails without one; its error is dropped. */
  function Best(s: Edit, t: Edit): Edit {
    if Works(s.plan) then t.(plan := Rest(s.plan)) else s.(plan := Rest(s.plan))
  }

  function MovedBack(files: Files, final: Path, backup: Path): Files {
    if backup in files then files[final := files[backup]] - {backup} else files
  }

  /** The staged file into its place; if that fails an old file is moved back, which may fail too. */
  function PutInPlace(s: Edit, st: Staged, backup: Option<Path>): Edit {
    if Works(s.plan) && st.temp in s.files then
      s.(files := s.files[st.final := s.files[st.temp]] - {st.temp},
         committed := s.committed + [Committed(st.final, backup)],
         plan := Rest(s.plan))
    else
      var failed := s.(ok := false, plan := Rest(s.plan));
      if backup.None? then failed
      else Best(failed, failed.(files := MovedBack(failed.files, st.final, backup.value)))
  }

  /** An existing file is moved aside first. */
  function CommitOne(s: Edit, st: Staged): Edit {
    if !s.ok then s
    else
      var aside := MoveAside(s, st);
      if !aside.ok then aside
      else PutInPlace(aside, st, if st.final in s.files then Some(Backup(s.next)) else None)
  }

  function CommitAll(s: Edit, staged: seq<Staged>): (t: Edit)
    ensures t == s.(files := t.files, committed := t.committed, next := t.next, plan := t.plan, ok := t.ok)
    decreases |staged|
  {
    if staged == [] || !s.ok then s else CommitAll(CommitOne(s, staged[0]), staged[1..])
  }

  function DeleteOne(s: Edit, kind: Kind, o: OldRow, keep: set<string>): (t: Edit)
    ensures t == WithSide(s, kind, SideOf(t, kind)).(plan := t.plan, ok := t.ok)
  {
    var d := SideOf(s, kind);
    if o.row.name in keep || !s.ok then s
    else if o.id !in d.table then s.(ok := false)
    else Attempt(s, WithSide(s, kind, d.(table := d.table - {o.id}, deleted := d.deleted + [o])))
  }

  function DeleteAll(s: Edit, kind: Kind, olds: seq<OldRow>, keep: set<string>): (t: Edit)
    ensures t == WithSide(s, kind, SideOf(t, kind)).(plan := t.plan, ok := t.ok)
    decreases |olds|
  {
    if olds == [] || !s.ok then s else DeleteAll(DeleteOne(s, kind, olds[0], keep), kind, olds[1..], keep)
  }

  function Names(inputs: seq<Input>): set<string> { set i | i in inputs :: i.name }

  function Staging(s: Edit, j: Job): Edit {
    StageAll(StageAll(UpdateRecord(s, j.record), Figure, j.figures), Data, j.data)
  }

  function Upserting(s: Edit, j: Job): Edit {
    UpsertAll(UpsertAll(s, Figure, ByName(j.oldFigures), j.figures), Data, ByName(j.oldData), j.data)
  }

  function Deleting(s: Edit, j: Job): Edit {
    DeleteAll(DeleteAll(s, Figure, j.oldFigures, Names(j.figures)), Data, j.oldData, Names(j.data))
  }

  /** Everything before the deferred compensations. */
  function Forward(s: Edit, j: Job): Edit {
    var u := Upserting(Staging(s, j), j);
    Deleting(CommitAll(u, u.staged), j)
  }

  // ----- compensations, in the order in which the deferred functions run

  function UndoCommit(s: Edit, c: Committed): (t: Edit)
    ensures t == s.(files := t.files, plan := t.plan)
  {
    var s1 := Best(s, s.(files := s.files - {c.final}));
    if c.backup.None? then s1 else Best(s1, s1.(files := MovedBack(s1.files, c.final, c.backup.value)))
  }

  /** The last committed file is undone first. */
  function UndoCommits(s: Edit, committed: seq<Committed>): (t: Edit)
    ensures t == s.(files := t.files, plan := t.plan)
    decreases |committed|
  {
    if committed == [] then s
    else
      var n := |committed| - 1;
      UndoCommits(UndoCommit(s, committed[n]), committed[..n])
  }

  function CleanUp(s: Edit, staged: seq<Staged>): (t: Edit)
    ensures t == s.(files := t.files, plan := t.plan)
    decreases |staged|
  {
    if staged == [] then s else CleanUp(Best(s, s.(files := s.files - {staged[0].temp})), staged[1..])
  }

  function WithTable(s: Edit, kind: Kind, t: Table): Edit { WithSide(s, kind, SideOf(s, kind).(table := t)) }

  /** Nothing changes but rows of one kind. */
  ghost predicate RowsOnly(s: Edit, t: Edit, kind: Kind) {
    && t.files == s.files && t.record == s.record && t.recordUpdated == s.recordUpdated && t.ok == s.ok
    && t.staged == s.staged && t.committed == s.committed
    && (if kind == Figure then t.data == s.data && t.figures == s.figures.(table := t.figures.table)
        else t.figures == s.figures && t.data == s.data.(table := t.data.table))
  }

  function DropRows(s: Edit, kind: Kind, created: seq<nat>): (t: Edit)
    ensures RowsOnly(s, t, kind)
    decreases |created|
  {
    if created == [] then s
    else DropRows(Best(s, WithTable(s, kind, SideOf(s, kind).table - {created[0]})), kind, created[1..])
  }

  /** An update that supplies no note leaves the note alone. */
  function UndoUpdate(t: Table, o: OldRow): Table {
    if o.id in t then
      t[o.id := Row(o.row.name, o.row.body, if o.row.note.Some? then o.row.note else t[o.id].note)]
    else t
  }

  function RevertRows(s: Edit, kind: Kind, updated: seq<OldRow>): (t: Edit)
    ensures RowsOnly(s, t, kind)
    decreases |updated|
  {
    if updated == [] then s
    else RevertRows(Best(s, WithTable(s, kind, UndoUpdate(SideOf(s, kind).table, updated[0]))), kind, updated[1..])
  }

  /** A deleted row comes back under a new id, unless its name is taken. */
  function RecreateRow(s: Edit, kind: Kind, row: Row): Edit {
    var t := SideOf(s, kind).table;
    Best(s, if HasName(t, row.name) then s else WithTable(s, kind, t[s.next := row]).(next := s.next + 1))
  }

  function RecreateRows(s: Edit, kind: Kind, deleted: seq<OldRow>): (t: Edit)
    ensures RowsOnly(s, t, kind)
    decreases |deleted|
  {
    if deleted == [] then s else RecreateRows(RecreateRow(s, kind, deleted[0].row), kind, deleted[1..])
  }

  function RollbackSide(s: Edit, kind: Kind): (t: Edit)
    ensures RowsOnly(s, t, kind)
  {
    var d := SideOf(s, kind);
    RecreateRows(RevertRows(DropRows(s, kind, d.created), kind, d.updated), kind, d.deleted)
  }

  /** rollbackRepository */
  function RollbackRows(s: Edit, record: string): (t: Edit)
    ensures t.files == s.files && t.ok == s.ok
    ensures t.figures == s.figures.(table := t.figures.table) && t.data == s.data.(table := t.data.table)
  {
    var t := RollbackSide(RollbackSide(s, Figure), Data);
    if s.recordUpdated then Best(t, t.(record := record)) else t
  }

  /** What a failed edit goes through: finalizeCommittedFiles, cleanupStagedFiles, rollbackRepository. */
  function Compensate(s: Edit, record: string): (t: Edit)
    ensures t.ok == s.ok
    ensures t.figures == s.figures.(table := t.figures.table) && t.data == s.data.(table := t.data.table)
  {
    RollbackRows(CleanUp(UndoCommits(s, s.committed), s.staged), record)
  }

  function DropBackups(files: Files, committed: seq<Committed>): Files {
    files - (set c | c in committed && c.backup.Some? :: c.backup.value)
  }

  function Removed(kind: Kind, deleted: seq<OldRow>): set<Path> { set o | o in deleted :: Final(kind, o.row.name) }

  /** What a successful edit leaves. The files of deleted rows are removed as best effort: `stuck`
      are those that cannot be. */
  function Conclude(s: Edit, stuck: set<Path>): Edit {
    var removed := Removed(Figure, s.figures.deleted) + Removed(Data, s.data.deleted);
    s.(files := DropBackups(s.files - (removed - stuck), s.committed))
  }

  function RunEdit(s: Edit, j: Job, stuck: set<Path>): Edit {
    var t := Forward(s, j);
    if t.ok then Conclude(t, stuck) else Compensate(t, s.record)
  }

  // ----- where an edit starts

  /** At most one operation fails. */
  ghost predicate OneFailure(plan: seq<bool>) {
    forall i, k :: 0 <= i < k < |plan| ==> plan[i] || plan[k]
  }

  /** Names that have not been handed out yet. */
  ghost predicate UnusedNames(files: Files, next: nat) {
    forall n :: n >= next ==> Temp(n) !in files && Backup(n) !in files
  }

  ghost predicate UniqueNames(t: Table) {
    forall a, b :: a in t && b in t && t[a].name == t[b].name ==> a == b
  }

  /** The list of a table's rows that the edit reads when it starts. */
  ghost predicate Lists(olds: seq<OldRow>, t: Table) {
    && NoDup(olds)
    && (forall o :: o in olds ==> o.id in t && t[o.id] == o.row)
    && (forall id :: id in t ==> OldRow(id, t[id]) in olds)
  }

  ghost predicate Untouched(d: Side, olds: seq<OldRow>, next: nat) {
    && d.created == [] && d.updated == [] && d.deleted == []
    && UniqueNames(d.table) && Lists(olds, d.table)
    && (forall id :: id in d.table ==> id < next)
  }

  ghost predicate Starts(s: Edit, j: Job) {
    && s.ok && !s.recordUpdated && s.staged == [] && s.committed == []
    && UnusedNames(s.files, s.next)
    && Untouched(s.figures, j.oldFigures, s.next) && Untouched(s.data, j.oldData, s.next)
  }

  function Rows(t: Table): set<Row> { set id | id in t :: t[id] }
}
