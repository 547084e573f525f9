/** Merging the records of a snapshot into the local store: the newer version of a record stands. */
module MergeRecords {
  import opened Common

  datatype FigureRow = FigureRow(name: string, info: string)

  /** A stored record: the body stands for every column but the times, the data-file rows included. */
  datatype RecordRow = RecordRow(createdAt: int, updatedAt: int, body: string, figures: seq<FigureRow>, deleted: bool)

  datatype Figure = Figure(row: FigureRow, content: string)

  /** A record of a snapshot: a snapshot has no deleted ones. */
  datatype Record = Record(id: string, createdAt: int, updatedAt: int, body: string, figures: seq<Figure>)

  type Records = map<string, RecordRow>

  function FigureRows(figures: seq<Figure>): (rows: seq<FigureRow>)
    ensures |rows| == |figures| && forall i :: 0 <= i < |rows| ==> rows[i] == figures[i].row
  {
    if figures == [] then [] else [figures[0].row] + FigureRows(figures[1..])
  }

  function RowOf(r: Record): RecordRow { RecordRow(r.createdAt, r.updatedAt, r.body, FigureRows(r.figures), false) }

  predicate Skips(e: Option<RecordRow>, r: Record) { e.Some? && r.updatedAt <= e.value.updatedAt }

  /** The upsert of a record leaves only its creation time alone. */
  function MergeRecord(e: Option<RecordRow>, r: Record): RecordRow {
    if Skips(e, r) then e.value
    else if e.Some? then RowOf(r).(createdAt := e.value.createdAt)
    else RowOf(r)
  }

  function MergeAll(db: Records, rs: seq<Record>): Records {
    if rs == [] then db
    else
      var n := |rs| - 1;
      var before := MergeAll(db, rs[..n]);
      before[rs[n].id := MergeRecord(At(before, rs[n].id), rs[n])]
  }

  /** The records an import leaves alone, as it counts them. */
  function Skipped(db: Records, rs: seq<Record>): nat {
    if rs == [] then 0
    else
      var n := |rs| - 1;
      Skipped(db, rs[..n]) + if Skips(At(MergeAll(db, rs[..n]), rs[n].id), rs[n]) then 1 else 0
  }

  lemma {:induction false} MergeAppend(db: Records, a: seq<Record>, b: seq<Record>)
    ensures MergeAll(db, a + b) == MergeAll(MergeAll(db, a), b)
    decreases |b|
  {
    if b == [] {
      assert a + b == a;
    } else {
      assert (a + b)[..|a + b| - 1] == a + b[..|b| - 1];
      MergeAppend(db, a, b[..|b| - 1]);
    }
  }

  // ----- the greatest version

  /** The row is the version of the record with the greatest updated_at among the stored one e and
      those of the snapshot; the stored one wins a tie and always keeps its creation time. */
  ghost predicate Greatest(row: RecordRow, e: Option<RecordRow>, rs: seq<Record>, id: string) {
    && (e.Some? ==> e.value.updatedAt <= row.updatedAt && e.value.createdAt == row.createdAt)
    && (e.Some? && e.value.updatedAt == row.updatedAt ==> row == e.value)
    && (forall r :: r in rs && r.id == id ==> r.updatedAt <= row.updatedAt)
    && ((e.Some? && row == e.value) ||
        exists r :: r in rs && r.id == id && RowOf(r).(createdAt := row.createdAt) == row)
    && (e.None? ==> exists r :: r in rs && r.id == id && r.createdAt == row.createdAt)
  }

  ghost predicate GreatestIs(row: Option<RecordRow>, e: Option<RecordRow>, rs: seq<Record>, id: string) {
    match row
    case Some(v) => Greatest(v, e, rs, id)
    case None => e.None? && forall r :: r in rs ==> r.id != id
  }

  lemma {:induction false} GreatestNext(row: Option<RecordRow>, e: Option<RecordRow>, rs: seq<Record>, r: Record)
    requires GreatestIs(row, e, rs, r.id)
    ensures Greatest(MergeRecord(row, r), e, rs + [r], r.id)
  {
    var next := MergeRecord(row, r);
    assert r in rs + [r];
    if Skips(row, r) {
      assert next == row.value;
      if !(e.Some? && next == e.value) {
        var x :| x in rs && x.id == r.id && RowOf(x).(createdAt := next.createdAt) == next;
        assert x in rs + [r];
      }
    }
    if e.None? && row.Some? {
      var x :| x in rs && x.id == r.id && x.createdAt == next.createdAt;
      assert x in rs + [r];
    }
  }

  lemma {:induction false} GreatestElsewhere(row: Option<RecordRow>, e: Option<RecordRow>, rs: seq<Record>,
      r: Record, id: string)
    requires GreatestIs(row, e, rs, id) && r.id != id
    ensures GreatestIs(row, e, rs + [r], id)
  {
    if row.Some? && !(e.Some? && row.value == e.value) {
      var x :| x in rs && x.id == id && RowOf(x).(createdAt := row.value.createdAt) == row.value;
      assert x in rs + [r];
    }
    if row.Some? && e.None? {
      var x :| x in rs && x.id == id && x.createdAt == row.value.createdAt;
      assert x in rs + [r];
    }
  }

  /** Every record ends with its greatest version. */
  lemma {:induction false} GreatestVersionStands(db: Records, rs: seq<Record>, id: string)
    ensures GreatestIs(At(MergeAll(db, rs), id), At(db, id), rs, id)
  {
    if rs != [] {
      var n := |rs| - 1;
      GreatestVersionStands(db, rs[..n], id);
      assert rs == rs[..n] + [rs[n]];
      if rs[n].id == id {
        GreatestNext(At(MergeAll(db, rs[..n]), id), At(db, id), rs[..n], rs[n]);
      } else {
        GreatestElsewhere(At(MergeAll(db, rs[..n]), id), At(db, id), rs[..n], rs[n], id);
      }
    }
  }

  // ----- importing again

  lemma {:induction false} SkippingChangesNothing(db: Records, rs: seq<Record>)
    requires forall r :: r in rs ==> Skips(At(db, r.id), r)
    ensures MergeAll(db, rs) == db && Skipped(db, rs) == |rs|
  {
    if rs != [] {
      var n := |rs| - 1;
      assert forall r :: r in rs[..n] ==> r in rs;
      SkippingChangesNothing(db, rs[..n]);
    }
  }

  /** A snapshot imported a second time, or a part of it, is skipped record by record. */
  lemma {:induction false} ReimportSkipsAll(db: Records, rs: seq<Record>, again: seq<Record>)
    requires forall r :: r in again ==> r in rs
    ensures MergeAll(MergeAll(db, rs), again) == MergeAll(db, rs)
    ensures Skipped(MergeAll(db, rs), again) == |again|
  {
    forall r | r in again ensures Skips(At(MergeAll(db, rs), r.id), r) {
      GreatestVersionStands(db, rs, r.id);
    }
    SkippingChangesNothing(MergeAll(db, rs), again);
  }

  // ----- two imports in either order

  /** Equally old versions of one record have one content, and versions of a record that is not
      stored yet agree on when it was created. */
  ghost predicate AgreeOn(rs: seq<Record>, stored: bool, id: string) {
    forall r, s :: r in rs && s in rs && r.id == s.id == id ==>
      && (!stored ==> r.createdAt == s.createdAt)
      && (r.updatedAt == s.updatedAt ==> RowOf(r).(createdAt := 0) == RowOf(s).(createdAt := 0))
  }

  ghost predicate Agree(rs: seq<Record>, db: Records) { forall id :: AgreeOn(rs, id in db, id) }

  lemma {:induction false} GreatestUnique(a: Option<RecordRow>, b: Option<RecordRow>, e: Option<RecordRow>,
      rs: seq<Record>, ss: seq<Record>, id: string)
    requires GreatestIs(a, e, rs, id) && GreatestIs(b, e, ss, id)
    requires AgreeOn(rs, e.Some?, id) && forall r :: r in rs <==> r in ss
    ensures a == b
  {
    if a.Some? && b.Some? {
      assert a.value.updatedAt == b.value.updatedAt;
    }
  }

  /** Two snapshots that agree may be imported in either order. */
  lemma {:induction false} ImportsCommute(db: Records, a: seq<Record>, b: seq<Record>)
    requires Agree(a + b, db)
    ensures MergeAll(MergeAll(db, a), b) == MergeAll(MergeAll(db, b), a)
  {
    MergeAppend(db, a, b);
    MergeAppend(db, b, a);
    var ab, ba := MergeAll(db, a + b), MergeAll(db, b + a);
    forall id ensures At(ab, id) == At(ba, id) {
      GreatestVersionStands(db, a + b, id);
      GreatestVersionStands(db, b + a, id);
      assert forall r :: r in a + b <==> r in b + a;
      assert AgreeOn(a + b, id in db, id);
      GreatestUnique(At(ab, id), At(ba, id), At(db, id), a + b, b + a, id);
    }
    forall id ensures id in ab <==> id in ba {
      assert At(ab, id) == At(ba, id);
    }
    forall id | id in ab ensures ab[id] == ba[id] {
      assert At(ab, id) == At(ba, id);
    }
  }

  /** Agreement is what it takes: two versions of one record, imported in either order, give the
      same row exactly when a tie between them is one in content and a record not stored yet has one
      creation time in both. */
  lemma {:induction false} VersionsCommuteExactly(e: Option<RecordRow>, a: Record, b: Record)
    ensures MergeRecord(Some(MergeRecord(e, a)), b) == MergeRecord(Some(MergeRecord(e, b)), a) <==>
            && (e.None? ==> a.createdAt == b.createdAt)
            && (a.updatedAt == b.updatedAt && !Skips(e, a) ==> RowOf(a).(createdAt := 0) == RowOf(b).(createdAt := 0))
  {}
}
