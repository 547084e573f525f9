/**
 The import of a snapshot over the local rows and files, as the code runs it: record by record, chat
 by chat, and a sweep for orphans at the end. Any operation may fail, or be the last one before the
 process dies. Proved of every run: what a success leaves, what a failure leaves, and that no file a
 row names is ever deleted.
 */
module MergeStore {
  import opened Common
  import R = MergeRecords
  import C = MergeChats
  import S = MergeChatStep

  /** Files on disk: the directory of each record, and the files in it. */
  type Figures = map<string, map<string, string>>

  /** How far an import got. */
  datatype Done = Done(records: nat, chats: nat)

  datatype Snapshot = Snapshot(records: seq<R.Record>, chats: seq<C.Chat>)

  predicate Present(figures: Figures, id: string, name: string) { id in figures && name in figures[id] }

  function Names(rows: seq<R.FigureRow>): set<string> { set f | f in rows :: f.name }

  predicate Named(records: R.Records, id: string, name: string) { id in records && name in Names(records[id].figures) }

  /** Every file named now is there, if it is newly named or was there. */
  ghost predicate KeepsNamed(records: R.Records, figures: Figures, records': R.Records, figures': Figures) {
    forall id, name ::
      Named(records', id, name) && (Named(records, id, name) ==> Present(figures, id, name)) ==>
          Present(figures', id, name)
  }

  function FilesAt(figures: Figures, id: string): map<string, string> { if id in figures then figures[id] else map[] }

  function FilesOf(figures: seq<R.Figure>): map<string, string> {
    if figures == [] then map[]
    else
      var n := |figures| - 1;
      FilesOf(figures[..n])[figures[n].row.name := figures[n].content]
  }

  /** Files of these names hold the same, or are absent from both. */
  ghost predicate SameNamed(names: set<string>, before: map<string, string>, after: map<string, string>) {
    forall name :: name in names ==> At(after, name) == At(before, name)
  }

  /** Only one record's directory has changed. */
  ghost predicate SameElsewhere(before: Figures, after: Figures, id: string) {
    forall x :: x != id ==> At(after, x) == At(before, x) && FilesAt(after, x) == FilesAt(before, x)
  }

  ghost predicate Grows(before: Figures, after: Figures) {
    forall id, name :: Present(before, id, name) ==> Present(after, id, name)
  }

  function WithFile(figures: Figures, id: string, f: R.Figure): Figures {
    figures[id := FilesAt(figures, id)[f.row.name := f.content]]
  }

  lemma {:induction false} FileWritten(before: Figures, now: Figures, id: string, figures: seq<R.Figure>, i: nat)
    requires i < |figures| && Grows(before, now) && SameElsewhere(before, now, id)
    requires FilesAt(now, id) == FilesAt(before, id) + FilesOf(figures[..i])
    ensures var next := WithFile(now, id, figures[i]);
      && Grows(before, next) && SameElsewhere(before, next, id)
      && FilesAt(next, id) == FilesAt(before, id) + FilesOf(figures[..i + 1])
  {
    assert figures[..i + 1][..i] == figures[..i];
  }

  // ----- the bytes of named files

  /** The figure files that are written before a failure, a death or the end. */
  function Written(figures: Figures, id: string, fs: seq<R.Figure>, plan: S.Plan): Figures
    decreases |fs|
  {
    if fs == [] then figures
    else
      var next := WithFile(figures, id, fs[0]);
      match S.Next(plan)
      case Succeeds => Written(next, id, fs[1..], S.After(plan))
      case Fails(_) => figures
      case Dies(extent) => if extent == S.Complete then next else figures
  }

  /** Each file is as it was, or one of these figures. */
  ghost predicate Overlaid(before: map<string, string>, after: map<string, string>, fs: seq<R.Figure>) {
    forall name :: At(after, name) == At(before, name) || FigureBytes(fs, name, At(after, name))
  }

  ghost predicate FigureBytes(fs: seq<R.Figure>, name: string, bytes: Option<string>) {
    exists f :: f in fs && f.row.name == name && bytes == Some(f.content)
  }

  lemma {:induction false} WrittenIsOverlaid(figures: Figures, id: string, fs: seq<R.Figure>, plan: S.Plan)
    ensures Overlaid(FilesAt(figures, id), FilesAt(Written(figures, id, fs, plan), id), fs)
    decreases |fs|
  {
    if fs != [] {
      var next := WithFile(figures, id, fs[0]);
      var after := FilesAt(Written(figures, id, fs, plan), id);
      WrittenIsOverlaid(next, id, fs[1..], S.After(plan));
      forall name
        ensures At(after, name) == At(FilesAt(figures, id), name) || FigureBytes(fs, name, At(after, name))
      {
        assert fs[0] in fs;
        if FigureBytes(fs[1..], name, At(after, name)) {
          var f :| f in fs[1..] && f.row.name == name && At(after, name) == Some(f.content);
          assert f in fs;
        }
      }
    }
  }

  /** The bytes under these names are as they were. */
  ghost predicate BytesStay(names: set<string>, id: string, before: Figures, after: Figures) {
    SameNamed(names, FilesAt(before, id), FilesAt(after, id))
  }

  /** Figures of these names have the bytes that are there already. */
  ghost predicate SameBytes(names: set<string>, id: string, figures: Figures, fs: seq<R.Figure>) {
    forall f :: f in fs && f.row.name in names ==> At(FilesAt(figures, id), f.row.name) == Some(f.content)
  }

  lemma {:induction false} SameBytesStay(
      names: set<string>, figures: Figures, id: string, fs: seq<R.Figure>, plan: S.Plan)
    requires SameBytes(names, id, figures, fs)
    ensures BytesStay(names, id, figures, Written(figures, id, fs, plan))
    decreases |fs|
  {
    if fs != [] {
      var next := WithFile(figures, id, fs[0]);
      assert fs[0] in fs && forall f :: f in fs[1..] ==> f in fs;
      assert BytesStay(names, id, figures, next);
      SameBytesStay(names, next, id, fs[1..], S.After(plan));
    }
  }

  /** So many operations succeed, and the next one fails. */
  function FailsAfter(n: nat): S.Plan {
    if n == 0 then [S.Fails(S.Untouched)] else [S.Succeeds] + FailsAfter(n - 1)
  }

  lemma {:induction false} WrittenUpTo(figures: Figures, id: string, fs: seq<R.Figure>, n: nat)
    requires n < |fs|
    ensures At(FilesAt(Written(figures, id, fs, FailsAfter(n + 1)), id), fs[n].row.name) == Some(fs[n].content)
    decreases |fs|
  {
    var next, plan := WithFile(figures, id, fs[0]), FailsAfter(n + 1);
    assert S.Next(plan) == S.Succeeds && S.After(plan) == FailsAfter(n);
    if n > 0 {
      WrittenUpTo(next, id, fs[1..], n - 1);
    } else {
      assert Written(next, id, fs[1..], FailsAfter(0)) == next;
    }
  }

  /** Exactly when the import of a record, wherever it fails or dies before its rows are written, is sure
      to leave the bytes that the stored row names: each figure of one of those names has them already. */
  lemma {:induction false} OverwrittenExactly(names: set<string>, figures: Figures, id: string, fs: seq<R.Figure>)
    ensures (forall plan :: BytesStay(names, id, figures, Written(figures, id, fs, plan))) <==>
            SameBytes(names, id, figures, fs)
  {
    if SameBytes(names, id, figures, fs) {
      forall plan ensures BytesStay(names, id, figures, Written(figures, id, fs, plan)) {
        SameBytesStay(names, figures, id, fs, plan);
      }
    } else {
      var f :| f in fs && f.row.name in names && At(FilesAt(figures, id), f.row.name) != Some(f.content);
      var n :| 0 <= n < |fs| && fs[n] == f;
      WrittenUpTo(figures, id, fs, n);
      assert !BytesStay(names, id, figures, Written(figures, id, fs, FailsAfter(n + 1)));
    }
  }

  /** What the import of one record leaves, whether it fails, dies or succeeds: the old row over files
      that are as they were or the snapshot's, or the new row over the snapshot's files; no other
      record's files are touched. */
  ghost predicate RecordLeft(r1: R.Records, f1: Figures, r2: R.Records, f2: Figures, r: R.Record) {
    && SameElsewhere(f1, f2, r.id)
    && ((r2 == r1 && Overlaid(FilesAt(f1, r.id), FilesAt(f2, r.id), r.figures)) ||
        (r2 == r1[r.id := R.MergeRecord(At(r1, r.id), r)]
         && SameNamed(Names(R.FigureRows(r.figures)), FilesOf(r.figures), FilesAt(f2, r.id))))
  }

  lemma {:induction false} GrowingKeepsNamed(records: R.Records, before: Figures, after: Figures)
    requires Grows(before, after)
    ensures KeepsNamed(records, before, records, after)
  {}

  lemma {:induction false} RowsOfPrefix(figures: seq<R.Figure>)
    requires figures != []
    ensures var n := |figures| - 1; R.FigureRows(figures) == R.FigureRows(figures[..n]) + [figures[n].row]
  {}

  lemma {:induction false} FilesOfNames(figures: seq<R.Figure>)
    ensures FilesOf(figures).Keys == Names(R.FigureRows(figures))
  {
    if figures != [] {
      var n := |figures| - 1;
      FilesOfNames(figures[..n]);
      assert figures == figures[..n] + [figures[n]];
      RowsOfPrefix(figures);
    }
  }

  lemma {:induction false} NamedFilesSwept(written: Figures, after: Figures, r: R.Record)
    requires FilesOf(r.figures).Keys == Names(R.FigureRows(r.figures))
    requires forall name :: name in FilesOf(r.figures) ==> name in FilesAt(written, r.id)
    requires SameNamed(Names(R.FigureRows(r.figures)), FilesAt(written, r.id), FilesAt(after, r.id))
    ensures forall name :: name in Names(R.FigureRows(r.figures)) ==> name in FilesAt(after, r.id)
  {
    forall name | name in Names(R.FigureRows(r.figures)) ensures name in FilesAt(after, r.id) {
      assert At(FilesAt(after, r.id), name) == At(FilesAt(written, r.id), name);
    }
  }

  lemma {:induction false} NamedFilesKept(records: R.Records, before: Figures, after: Figures, r: R.Record)
    requires !R.Skips(At(records, r.id), r)
    requires SameElsewhere(before, after, r.id)
    requires forall name :: name in Names(R.FigureRows(r.figures)) ==> name in FilesAt(after, r.id)
    ensures KeepsNamed(records, before, records[r.id := R.MergeRecord(At(records, r.id), r)], after)
  {
    forall id, name | id != r.id && Present(before, id, name) ensures Present(after, id, name) {
      assert At(after, id) == At(before, id);
    }
  }

  lemma {:induction false} FilesReplaced(written: Figures, after: Figures, r: R.Record)
    requires FilesOf(r.figures).Keys == Names(R.FigureRows(r.figures))
    requires forall name :: name in FilesOf(r.figures) ==>
      At(FilesAt(written, r.id), name) == At(FilesOf(r.figures), name)
    requires SameNamed(Names(R.FigureRows(r.figures)), FilesAt(written, r.id), FilesAt(after, r.id))
    requires FilesAt(after, r.id).Keys <= Names(R.FigureRows(r.figures))
    ensures FilesAt(after, r.id) == FilesOf(r.figures)
  {
    forall name | name in FilesOf(r.figures)
      ensures name in FilesAt(after, r.id) && FilesAt(after, r.id)[name] == FilesOf(r.figures)[name]
    {
      assert At(FilesAt(after, r.id), name) == At(FilesOf(r.figures), name);
    }
  }

  predicate DistinctNames(figures: seq<R.Figure>) {
    forall i, k :: 0 <= i < k < |figures| ==> figures[i].row.name != figures[k].row.name
  }

  /** Whether a record can be written: its figure names are distinct, and its id is no chat's. */
  predicate Fits(records: R.Records, chatIds: set<string>, r: R.Record) {
    DistinctNames(r.figures) && (r.id in records || r.id !in chatIds)
  }

  /** An applied record's files are the snapshot's; another's are, by the names of its row, as they
      were. */
  ghost predicate FileImported(
      was: Option<R.RecordRow>, before: map<string, string>, row: R.RecordRow, after: map<string, string>,
          rs: seq<R.Record>, id: string)
  {
    || (was == Some(row) && SameNamed(Names(row.figures), before, after))
    || (exists r ::
          r in rs && r.id == id && R.RowOf(r).(createdAt := row.createdAt) == row && after == FilesOf(r.figures))
  }

  ghost predicate FilesImported(records: R.Records, figures: Figures, records': R.Records, figures': Figures,
      rs: seq<R.Record>)
  {
    forall id :: id in records' ==>
      FileImported(At(records, id), FilesAt(figures, id), records'[id], FilesAt(figures', id), rs, id)
  }

  lemma {:induction false} KeepsNamedTransitive(
      r0: R.Records, f0: Figures, r1: R.Records, f1: Figures, r2: R.Records, f2: Figures)
    requires KeepsNamed(r0, f0, r1, f1) && KeepsNamed(r1, f1, r2, f2)
    ensures KeepsNamed(r0, f0, r2, f2)
  {}

  lemma {:induction false} FileImportedMore(
      was: Option<R.RecordRow>, before: map<string, string>, row: R.RecordRow, after: map<string, string>,
      rs: seq<R.Record>, r: R.Record, id: string)
    requires FileImported(was, before, row, after, rs, id)
    ensures FileImported(was, before, row, after, rs + [r], id)
  {
    if x :| x in rs && x.id == id && R.RowOf(x).(createdAt := row.createdAt) == row && after == FilesOf(x.figures) {
      assert x in rs + [r];
    }
  }

  lemma {:induction false} FilesImportedNext(
      r0: R.Records, f0: Figures, r1: R.Records, f1: Figures, f2: Figures, rs: seq<R.Record>, r: R.Record)
    requires FilesImported(r0, f0, r1, f1, rs) && SameElsewhere(f1, f2, r.id)
    requires FilesAt(f2, r.id) == if R.Skips(At(r1, r.id), r) then FilesAt(f1, r.id) else FilesOf(r.figures)
    ensures FilesImported(r0, f0, r1[r.id := R.MergeRecord(At(r1, r.id), r)], f2, rs + [r])
  {
    var r2 := r1[r.id := R.MergeRecord(At(r1, r.id), r)];
    forall id | id in r2
      ensures FileImported(At(r0, id), FilesAt(f0, id), r2[id], FilesAt(f2, id), rs + [r], id)
    {
      if id != r.id || R.Skips(At(r1, r.id), r) {
        FileImportedMore(At(r0, id), FilesAt(f0, id), r1[id], FilesAt(f1, id), rs, r, id);
      } else {
        assert r in rs + [r];
      }
    }
  }

  function WithoutFiles(figures: Figures, id: string, gone: set<string>): Figures
    requires id in figures
  {
    figures[id := figures[id] - gone]
  }

  lemma {:induction false} OneFileLess(figures: Figures, id: string, gone: set<string>, name: string)
    requires id in figures
    ensures var now := WithoutFiles(figures, id, gone);
      now[id := now[id] - {name}] == WithoutFiles(figures, id, gone + {name})
  {
    assert (figures[id] - gone) - {name} == figures[id] - (gone + {name});
  }

  /** What is still to go, and what has gone. */
  ghost predicate Parted(stale: set<string>, todo: set<string>, gone: set<string>) {
    gone <= stale && todo == stale - gone && (todo == {} ==> gone == stale)
  }

  lemma {:induction false} OnePartedMore(stale: set<string>, todo: set<string>, gone: set<string>, name: string)
    requires Parted(stale, todo, gone) && name in todo
    ensures Parted(stale, todo - {name}, gone + {name}) && |todo - {name}| < |todo|
  {
    assert todo - {name} == stale - (gone + {name});
    assert todo - {name} == {} ==> stale <= gone + {name};
    assert todo == (todo - {name}) + {name};
  }

  /** The sweep leaves what rows name. */
  ghost predicate Swept(records: R.Records, before: Figures, after: Figures) {
    forall id, name :: Named(records, id, name) ==> At(FilesAt(after, id), name) == At(FilesAt(before, id), name)
  }

  lemma {:induction false} SweptKeepsNamed(records: R.Records, before: Figures, after: Figures)
    requires Swept(records, before, after)
    ensures KeepsNamed(records, before, records, after)
  {
    forall id, name | Named(records, id, name) && Present(before, id, name) ensures Present(after, id, name) {
      assert At(FilesAt(after, id), name) == At(FilesAt(before, id), name);
    }
  }

  /** A sweep of one directory. */
  lemma {:induction false} OneSwept(records: R.Records, before: Figures, after: Figures, id: string)
    requires id in records && SameElsewhere(before, after, id)
    requires SameNamed(Names(records[id].figures), FilesAt(before, id), FilesAt(after, id))
    ensures Swept(records, before, after)
  {
    forall x, name | Named(records, x, name) ensures At(FilesAt(after, x), name) == At(FilesAt(before, x), name) {
      assert x != id ==> FilesAt(after, x) == FilesAt(before, x);
    }
  }

  /** Every file of the directory is named by the row. */
  ghost predicate Tidy(records: R.Records, figures: Figures, id: string) {
    id in records ==> FilesAt(figures, id).Keys <= Names(records[id].figures)
  }

  lemma {:induction false} TidyElsewhere(records: R.Records, before: Figures, after: Figures, id: string)
    requires SameElsewhere(before, after, id)
    ensures forall x :: x != id ==> (Tidy(records, after, x) <==> Tidy(records, before, x))
  {
    forall x | x != id ensures Tidy(records, after, x) <==> Tidy(records, before, x) {
      assert FilesAt(after, x) == FilesAt(before, x);
    }
  }

  lemma {:induction false} DirsSwept(records: R.Records, before: Figures, after: Figures)
    requires forall id :: id in records ==> At(after, id) == At(before, id)
    ensures Swept(records, before, after)
  {
    forall id | id in records ensures FilesAt(after, id) == FilesAt(before, id) {
      assert At(after, id) == At(before, id);
    }
  }

  lemma {:induction false} SweptTwice(records: R.Records, f0: Figures, f1: Figures, f2: Figures)
    requires Swept(records, f0, f1) && Swept(records, f1, f2)
    ensures Swept(records, f0, f2)
  {
    forall id, name | Named(records, id, name) ensures At(FilesAt(f2, id), name) == At(FilesAt(f0, id), name) {
      assert At(FilesAt(f2, id), name) == At(FilesAt(f1, id), name);
    }
  }

  /** Once nothing is orphaned, an applied record's files are still exactly the snapshot's. */
  lemma {:induction false} SweptImported(
      r0: R.Records, f0: Figures, r1: R.Records, f1: Figures, f2: Figures, rs: seq<R.Record>)
    requires FilesImported(r0, f0, r1, f1, rs) && Swept(r1, f1, f2)
    requires forall id, name :: Present(f2, id, name) ==> Named(r1, id, name)
    ensures FilesImported(r0, f0, r1, f2, rs)
  {
    forall id | id in r1 ensures FileImported(At(r0, id), FilesAt(f0, id), r1[id], FilesAt(f2, id), rs, id) {
      assert FileImported(At(r0, id), FilesAt(f0, id), r1[id], FilesAt(f1, id), rs, id);
      forall name | name in Names(r1[id].figures) ensures At(FilesAt(f2, id), name) == At(FilesAt(f1, id), name) {
        assert Named(r1, id, name);
      }
      var row := r1[id];
      var files := FilesAt(f1, id);
      if r :| r in rs && r.id == id && R.RowOf(r).(createdAt := row.createdAt) == row && files == FilesOf(r.figures) {
        FilesOfNames(r.figures);
        forall name ensures At(FilesAt(f2, id), name) == At(FilesAt(f1, id), name) {
          assert name in FilesAt(f2, id) ==> Present(f2, id, name);
        }
        SameFiles(FilesAt(f2, id), FilesAt(f1, id));
      }
    }
  }

  lemma {:induction false} SameFiles(a: map<string, string>, b: map<string, string>)
    requires forall name :: At(a, name) == At(b, name)
    ensures a == b
  {
    forall name ensures name in a <==> name in b {
      assert At(a, name) == At(b, name);
    }
    forall name | name in a ensures a[name] == b[name] {
      assert At(a, name) == At(b, name);
    }
  }

  predicate RecordFits(records: R.Records, chatIds: set<string>, r: R.Record) {
    R.Skips(At(records, r.id), r) || Fits(records, chatIds, r)
  }

  /** Every record is old or can be written when its turn comes. */
  predicate RecordsFit(records: R.Records, chatIds: set<string>, rs: seq<R.Record>) {
    rs == [] ||
    var n := |rs| - 1; RecordsFit(records, chatIds, rs[..n]) && RecordFits(R.MergeAll(records, rs[..n]), chatIds, rs[n])
  }

  lemma {:induction false} RecordsFitPrefix(records: R.Records, chatIds: set<string>, rs: seq<R.Record>, n: nat)
    requires n <= |rs| && RecordsFit(records, chatIds, rs)
    ensures RecordsFit(records, chatIds, rs[..n])
  {
    if n == |rs| {
      assert rs[..n] == rs;
    } else {
      RecordsFitPrefix(records, chatIds, rs[..|rs| - 1], n);
      assert rs[..|rs| - 1][..n] == rs[..n];
    }
  }

  /** Where the loop over the records is when it has taken these. */
  ghost predicate RecordsDone(
      r0: R.Records, f0: Figures, r1: R.Records, f1: Figures, chatIds: set<string>, rs: seq<R.Record>, skipped: int)
  {
    && r1 == R.MergeAll(r0, rs) && KeepsNamed(r0, f0, r1, f1) && FilesImported(r0, f0, r1, f1, rs)
    && skipped == R.Skipped(r0, rs) && RecordsFit(r0, chatIds, rs)
  }

  /** Where the loop stops at the record after the first n: the files of those are the snapshot's. */
  ghost predicate RecordsStopped(
      r0: R.Records, f0: Figures, r2: R.Records, f2: Figures, rs: seq<R.Record>, n: nat)
  {
    && n < |rs|
    && exists f1 ::
         && FilesImported(r0, f0, R.MergeAll(r0, rs[..n]), f1, rs[..n])
         && RecordLeft(R.MergeAll(r0, rs[..n]), f1, r2, f2, rs[n])
  }

  /** What an import leaves of rows and files, byte by byte: nothing was begun, or it stopped at some
      record, or all records are imported and perhaps files that no row names are gone. */
  ghost predicate FilesLeft(r0: R.Records, f0: Figures, r2: R.Records, f2: Figures, rs: seq<R.Record>) {
    || (r2 == r0 && f2 == f0)
    || (exists n :: RecordsStopped(r0, f0, r2, f2, rs, n))
    || (r2 == R.MergeAll(r0, rs) && exists f1 :: FilesImported(r0, f0, r2, f1, rs) && Swept(r2, f1, f2))
  }

  /** The sweep after all records are imported. */
  lemma {:induction false} SweptLeaves(
      r0: R.Records, f0: Figures, r1: R.Records, f1: Figures, f2: Figures, rs: seq<R.Record>)
    requires KeepsNamed(r0, f0, r1, f1) && r1 == R.MergeAll(r0, rs) && FilesImported(r0, f0, r1, f1, rs)
    requires Swept(r1, f1, f2)
    ensures KeepsNamed(r0, f0, r1, f2) && FilesLeft(r0, f0, r1, f2, rs)
  {
    SweptKeepsNamed(r1, f1, f2);
    KeepsNamedTransitive(r0, f0, r1, f1, r1, f2);
  }

  /** One more record. */
  lemma {:induction false} NextRecord(records: R.Records, chatIds: set<string>, rs: seq<R.Record>, n: nat)
    requires n < |rs|
    ensures var m, more := R.MergeAll(records, rs[..n]), rs[..n + 1];
      && more == rs[..n] + [rs[n]]
      && R.MergeAll(records, more) == m[rs[n].id := R.MergeRecord(At(m, rs[n].id), rs[n])]
      && R.Skipped(records, more) == R.Skipped(records, rs[..n]) + (if R.Skips(At(m, rs[n].id), rs[n]) then 1 else 0)
      && (RecordsFit(records, chatIds, more) <==>
            RecordsFit(records, chatIds, rs[..n]) && RecordFits(m, chatIds, rs[n]))
      && (RecordsFit(records, chatIds, rs) ==> RecordsFit(records, chatIds, more))
  {
    var more := rs[..n + 1];
    assert more[..n] == rs[..n] && more[n] == rs[n];
    if RecordsFit(records, chatIds, rs) {
      RecordsFitPrefix(records, chatIds, rs, n + 1);
    }
  }

  /** What one more record, taken or failed on, makes of that. */
  lemma {:induction false} RecordTaken(
      r0: R.Records, f0: Figures, r1: R.Records, f1: Figures, r2: R.Records, f2: Figures,
      chatIds: set<string>, rs: seq<R.Record>, n: nat, skipped: int, ok: bool)
    requires n < |rs| && RecordsDone(r0, f0, r1, f1, chatIds, rs[..n], skipped) && KeepsNamed(r1, f1, r2, f2)
    requires r2 == r1 || r2 == r1[rs[n].id := R.MergeRecord(At(r1, rs[n].id), rs[n])]
    requires ok ==>
      && r2 == r1[rs[n].id := R.MergeRecord(At(r1, rs[n].id), rs[n])]
      && SameElsewhere(f1, f2, rs[n].id) && RecordFits(r1, chatIds, rs[n])
      && FilesAt(f2, rs[n].id) ==
           (if R.Skips(At(r1, rs[n].id), rs[n]) then FilesAt(f1, rs[n].id) else FilesOf(rs[n].figures))
    ensures KeepsNamed(r0, f0, r2, f2)
    ensures ok ==>
      var more := skipped + if R.Skips(At(r1, rs[n].id), rs[n]) then 1 else 0;
      RecordsDone(r0, f0, r2, f2, chatIds, rs[..n + 1], more)
    ensures r2 != r1 ==> r2 == R.MergeAll(r0, rs[..n + 1])
    ensures !RecordFits(r1, chatIds, rs[n]) ==> !RecordsFit(r0, chatIds, rs)
  {
    NextRecord(r0, chatIds, rs, n);
    KeepsNamedTransitive(r0, f0, r1, f1, r2, f2);
    if ok {
      FilesImportedNext(r0, f0, r1, f1, f2, rs[..n], rs[n]);
    }
  }

  predicate ChatFits(chats: C.Chats, recordIds: set<string>, c: C.Chat) {
    C.Skips(At(chats, c.id), c.row) || S.Writable(chats, recordIds, c)
  }

  /** Every chat is old or can be written when its turn comes. */
  predicate ChatsFit(chats: C.Chats, recordIds: set<string>, cs: seq<C.Chat>) {
    cs == [] ||
    var n := |cs| - 1; ChatsFit(chats, recordIds, cs[..n]) && ChatFits(C.MergeAll(chats, cs[..n]), recordIds, cs[n])
  }

  lemma {:induction false} ChatsFitPrefix(chats: C.Chats, recordIds: set<string>, cs: seq<C.Chat>, n: nat)
    requires n <= |cs| && ChatsFit(chats, recordIds, cs)
    ensures ChatsFit(chats, recordIds, cs[..n])
  {
    if n == |cs| {
      assert cs[..n] == cs;
    } else {
      ChatsFitPrefix(chats, recordIds, cs[..|cs| - 1], n);
      assert cs[..|cs| - 1][..n] == cs[..n];
    }
  }

  lemma {:induction false} FittingIsClashFree(chats: C.Chats, recordIds: set<string>, cs: seq<C.Chat>)
    requires ChatsFit(chats, recordIds, cs)
    ensures C.ClashFree(chats, recordIds, cs)
  {
    if cs != [] {
      FittingIsClashFree(chats, recordIds, cs[..|cs| - 1]);
    }
  }

  /** After the check at the start the check at each chat passes. */
  lemma {:induction false} IdentityStaysFree(chats: C.Chats, recordIds: set<string>, cs: seq<C.Chat>, n: nat)
    requires n < |cs| && C.Identified(chats, cs) && ChatsFit(chats, recordIds, cs[..n])
    ensures S.IdentityFree(C.MergeAll(chats, cs[..n]), cs[n])
  {
    FittingIsClashFree(chats, recordIds, cs[..n]);
    var m := C.MergeAll(chats, cs[..n]);
    forall id | id in m && m[id].key == cs[n].row.key ensures id == cs[n].id {
      C.SecondCheckPasses(chats, recordIds, cs, n, id);
    }
  }

  /** One more chat: merged, or what a failure or a death leaves of it. */
  lemma {:induction false} NextChat(s: S.State, recordIds: set<string>, chats: C.Chats, cs: seq<C.Chat>, n: nat)
    requires s.ok && n < |cs| && s.chats == C.MergeAll(chats, cs[..n])
    requires C.Identified(chats, cs) && ChatsFit(chats, recordIds, cs[..n])
    ensures var t := S.ImportChat(s, recordIds, cs[n]);
      && (t.ok ==>
            && t.chats == C.MergeAll(chats, cs[..n + 1]) && t.raw == S.MergeRaw(s.chats, s.raw, cs[n])
            && ChatsFit(chats, recordIds, cs[..n + 1]))
      && (!t.ok ==> S.Left(t.chats, s.chats, cs[n]) && S.RawLeft(t.raw, s.raw, At(s.chats, cs[n].id), cs[n]))
      && (S.NoFault(s.plan) ==> if t.ok then S.NoFault(t.plan) else !ChatsFit(chats, recordIds, cs))
  {
    S.Outcome(s, recordIds, cs[n]);
    NextChatFrom(s, S.ImportChat(s, recordIds, cs[n]), recordIds, chats, cs, n);
  }

  lemma {:induction false} NextChatFrom(s: S.State, t: S.State, recordIds: set<string>, chats: C.Chats,
      cs: seq<C.Chat>, n: nat)
    requires n < |cs| && s.chats == C.MergeAll(chats, cs[..n])
    requires C.Identified(chats, cs) && ChatsFit(chats, recordIds, cs[..n])
    requires t.ok ==> t.chats == s.chats[cs[n].id := C.MergeChat(At(s.chats, cs[n].id), cs[n].row)]
    requires t.ok ==> ChatFits(s.chats, recordIds, cs[n])
    requires S.NoFault(s.plan) ==> (t.ok <==> S.IdentityFree(s.chats, cs[n]) && ChatFits(s.chats, recordIds, cs[n]))
    ensures t.ok ==> t.chats == C.MergeAll(chats, cs[..n + 1]) && ChatsFit(chats, recordIds, cs[..n + 1])
    ensures S.NoFault(s.plan) && !t.ok ==> !ChatsFit(chats, recordIds, cs)
  {
    IdentityStaysFree(chats, recordIds, cs, n);
    assert cs[..n + 1][..n] == cs[..n] && cs[..n + 1][n] == cs[n];
    if ChatsFit(chats, recordIds, cs) {
      ChatsFitPrefix(chats, recordIds, cs, n + 1);
    }
  }

  /** What an import leaves, whether it failed, died or succeeded: so many records merged, and so many
      chats; of the chat that comes next, what a failure or a death in its import leaves. */
  ghost predicate MergedUpTo(r0: R.Records, c0: C.Chats, r1: R.Records, c1: C.Chats, snapshot: Snapshot, done: Done) {
    && done.records <= |snapshot.records| && done.chats <= |snapshot.chats|
    && r1 == R.MergeAll(r0, snapshot.records[..done.records])
    && (done.records < |snapshot.records| ==> c1 == c0)
    && (c1 == C.MergeAll(c0, snapshot.chats[..done.chats]) ||
        (done.chats < |snapshot.chats| &&
         S.Left(c1, C.MergeAll(c0, snapshot.chats[..done.chats]), snapshot.chats[done.chats])))
  }

  function MergeRawAll(chats: C.Chats, raw: S.Raw, cs: seq<C.Chat>): S.Raw {
    if cs == [] then raw
    else
      var n := |cs| - 1;
      S.MergeRaw(C.MergeAll(chats, cs[..n]), MergeRawAll(chats, raw, cs[..n]), cs[n])
  }

  /** Where the loop over the chats is when it has taken these. */
  ghost predicate ChatsDone(
      c0: C.Chats, raw0: S.Raw, c1: C.Chats, raw1: S.Raw, recordIds: set<string>, cs: seq<C.Chat>, skipped: int)
  {
    && c1 == C.MergeAll(c0, cs) && raw1 == MergeRawAll(c0, raw0, cs)
    && skipped == C.Skipped(c0, cs) && ChatsFit(c0, recordIds, cs)
  }

  /** Where the loop stops at the chat after the first n. */
  ghost predicate ChatsStopped(c0: C.Chats, raw0: S.Raw, c2: C.Chats, raw2: S.Raw, cs: seq<C.Chat>, n: nat) {
    && n < |cs|
    && S.Left(c2, C.MergeAll(c0, cs[..n]), cs[n])
    && S.RawLeft(raw2, MergeRawAll(c0, raw0, cs[..n]), At(C.MergeAll(c0, cs[..n]), cs[n].id), cs[n])
  }

  lemma {:induction false} ChatTaken(
      c0: C.Chats, raw0: S.Raw, c1: C.Chats, raw1: S.Raw, recordIds: set<string>, cs: seq<C.Chat>, n: nat, skipped: int)
    requires n < |cs| && ChatsDone(c0, raw0, c1, raw1, recordIds, cs[..n], skipped)
    ensures var more := skipped + if C.Skips(At(c1, cs[n].id), cs[n].row) then 1 else 0;
      && MergeRawAll(c0, raw0, cs[..n + 1]) == S.MergeRaw(c1, raw1, cs[n])
      && C.Skipped(c0, cs[..n + 1]) == more
  {
    assert cs[..n + 1][..n] == cs[..n] && cs[..n + 1][n] == cs[n];
  }

  lemma {:induction false} RecordsUpTo(r0: R.Records, c0: C.Chats, r1: R.Records, snapshot: Snapshot, n: nat)
    requires n <= |snapshot.records| && r1 == R.MergeAll(r0, snapshot.records[..n])
    ensures MergedUpTo(r0, c0, r1, c0, snapshot, Done(n, 0))
  {
    assert snapshot.chats[..0] == [];
  }

  lemma {:induction false} ChatsUpTo(
      r0: R.Records, c0: C.Chats, raw0: S.Raw, r1: R.Records, c1: C.Chats, raw1: S.Raw, snapshot: Snapshot,
      n: nat, ok: bool)
    requires r1 == R.MergeAll(r0, snapshot.records)
    requires if ok then n == |snapshot.chats| && c1 == C.MergeAll(c0, snapshot.chats)
             else ChatsStopped(c0, raw0, c1, raw1, snapshot.chats, n)
    ensures MergedUpTo(r0, c0, r1, c1, snapshot, Done(|snapshot.records|, n))
  {
    assert snapshot.records[..|snapshot.records|] == snapshot.records;
    assert ok ==> snapshot.chats[..n] == snapshot.chats;
  }

  /** One more turn of that loop. */
  lemma {:induction false} ChatStep(
      s: S.State, c0: C.Chats, raw0: S.Raw, recordIds: set<string>, cs: seq<C.Chat>, n: nat, skipped: int)
    requires s.ok && n < |cs| && C.Identified(c0, cs)
    requires ChatsDone(c0, raw0, s.chats, s.raw, recordIds, cs[..n], skipped)
    ensures var t := S.ImportChat(s, recordIds, cs[n]);
      var more := skipped + if C.Skips(At(s.chats, cs[n].id), cs[n].row) then 1 else 0;
      && (if t.ok then ChatsDone(c0, raw0, t.chats, t.raw, recordIds, cs[..n + 1], more)
          else ChatsStopped(c0, raw0, t.chats, t.raw, cs, n))
      && (S.NoFault(s.plan) ==> if t.ok then S.NoFault(t.plan) else !ChatsFit(c0, recordIds, cs))
  {
    NextChat(s, recordIds, c0, cs, n);
    ChatTaken(c0, raw0, s.chats, s.raw, recordIds, cs, n, skipped);
  }

  class Stack {
    var records: R.Records
    var chats: C.Chats
    var figures: Figures
    var data: set<string>
    var raw: S.Raw
    var plan: S.Plan
    var dead: bool
    var skipped: nat

    constructor (records: R.Records, chats: C.Chats, figures: Figures, data: set<string>, raw: S.Raw, plan: S.Plan)
      ensures this.records == records && this.chats == chats && this.figures == figures
      ensures this.data == data && this.raw == raw && this.plan == plan && skipped == 0 && !dead
    {
      this.records, this.chats, this.figures := records, chats, figures;
      this.data, this.raw, this.plan := data, raw, plan;
      skipped, dead := 0, false;
    }

    /** An operation, with what comes of it. */
    method Take() returns (fate: S.Fate)
      modifies this`plan, this`dead
      ensures fate == S.Next(old(plan)) && plan == S.After(old(plan)) && dead == (old(dead) || fate.Dies?)
      ensures S.NoFault(old(plan)) ==> fate == S.Succeeds && S.NoFault(plan)
    {
      fate, plan := S.Next(plan), S.After(plan);
      dead := dead || fate.Dies?;
    }

    /** An operation that happens at once, perhaps as the last thing the process does. */
    method Step() returns (ok: bool, happens: bool)
      modifies this`plan, this`dead
      ensures ok == (S.Next(old(plan)) == S.Succeeds) && happens == (ok || S.Next(old(plan)) == S.Dies(S.Complete))
      ensures plan == S.After(old(plan)) && dead == (old(dead) || S.Next(old(plan)).Dies?)
      ensures S.NoFault(old(plan)) ==> ok && S.NoFault(plan)
    {
      var fate := Take();
      ok, happens := fate == S.Succeeds, fate == S.Succeeds || fate == S.Dies(S.Complete);
    }

    /** An operation that changes nothing the model has: an inspection, a flush, a staged copy. */
    method Look() returns (ok: bool)
      modifies this`plan, this`dead
      ensures ok == (S.Next(old(plan)) == S.Succeeds)
      ensures plan == S.After(old(plan)) && dead == (old(dead) || S.Next(old(plan)).Dies?)
      ensures S.NoFault(old(plan)) ==> ok && S.NoFault(plan)
    {
      var fate := Take();
      ok := fate == S.Succeeds;
    }

    // ----- records

    method WriteFigures(r: R.Record) returns (ok: bool)
      modifies this`figures, this`plan, this`dead
      ensures Grows(old(figures), figures)
      ensures SameElsewhere(old(figures), figures, r.id)
      ensures figures == Written(old(figures), r.id, r.figures, old(plan))
      ensures ok ==> FilesAt(figures, r.id) == FilesAt(old(figures), r.id) + FilesOf(r.figures)
      ensures S.NoFault(old(plan)) ==> ok && S.NoFault(plan)
    {
      var i := 0;
      ok := true;
      while i < |r.figures|
        invariant 0 <= i <= |r.figures| && ok
        invariant Grows(old(figures), figures)
        invariant SameElsewhere(old(figures), figures, r.id)
        invariant FilesAt(figures, r.id) == FilesAt(old(figures), r.id) + FilesOf(r.figures[..i])
        invariant Written(figures, r.id, r.figures[i..], plan) == Written(old(figures), r.id, r.figures, old(plan))
        invariant S.NoFault(old(plan)) ==> S.NoFault(plan)
      {
        var happens;
        ok, happens := Step();
        FileWritten(old(figures), figures, r.id, r.figures, i);
        assert r.figures[i..][0] == r.figures[i] && r.figures[i..][1..] == r.figures[i + 1..];
        if happens {
          figures := WithFile(figures, r.id, r.figures[i]);
        }
        if !ok {
          return;
        }
        i := i + 1;
      }
      assert r.figures[..i] == r.figures;
      if i > 0 {
        ok := Look();
      }
    }

    method DeleteFile(id: string, name: string) returns (ok: bool, happens: bool)
      requires id in figures
      modifies this`figures, this`plan, this`dead
      ensures figures == if happens then old(figures)[id := old(figures)[id] - {name}] else old(figures)
      ensures ok ==> happens
      ensures S.NoFault(old(plan)) ==> ok && S.NoFault(plan)
    {
      ok, happens := Step();
      if happens {
        figures := figures[id := figures[id] - {name}];
      }
    }

    method DeleteFiles(id: string, stale: set<string>) returns (ok: bool, ghost gone: set<string>)
      requires id in figures
      modifies this`figures, this`plan, this`dead
      ensures gone <= stale && (ok ==> gone == stale)
      ensures figures == WithoutFiles(old(figures), id, gone)
      ensures S.NoFault(old(plan)) ==> ok && S.NoFault(plan)
    {
      var todo := stale;
      gone, ok := {}, true;
      assert figures[id] - {} == figures[id];
      while todo != {}
        invariant ok && Parted(stale, todo, gone)
        invariant figures == WithoutFiles(old(figures), id, gone)
        invariant S.NoFault(old(plan)) ==> S.NoFault(plan)
        decreases |todo|
      {
        var name :| name in todo;
        var happens;
        OneFileLess(old(figures), id, gone, name);
        OnePartedMore(stale, todo, gone, name);
        ok, happens := DeleteFile(id, name);
        if happens {
          todo, gone := todo - {name}, gone + {name};
        }
        if !ok {
          return;
        }
      }
    }

    /** The files in a record's directory that the committed row does not name. */
    method DeleteStaleFigures(id: string) returns (ok: bool)
      requires id in records
      modifies this`figures, this`plan, this`dead
      ensures figures.Keys == old(figures).Keys
      ensures SameElsewhere(old(figures), figures, id)
      ensures SameNamed(Names(records[id].figures), FilesAt(old(figures), id), FilesAt(figures, id))
      ensures ok ==> FilesAt(figures, id).Keys <= Names(records[id].figures)
      ensures S.NoFault(old(plan)) ==> ok && S.NoFault(plan)
    {
      var referenced := Names(records[id].figures);
      ok := Look();
      if ok && id in figures {
        ghost var gone;
        ok, gone := DeleteFiles(id, figures[id].Keys - referenced);
      }
    }

    method CommitRecord(r: R.Record) returns (ok: bool)
      requires !R.Skips(At(records, r.id), r)
      modifies this`records, this`plan, this`dead
      ensures records == old(records) || records == old(records)[r.id := R.MergeRecord(At(old(records), r.id), r)]
      ensures ok ==>
        && records == old(records)[r.id := R.MergeRecord(At(old(records), r.id), r)]
        && Fits(old(records), chats.Keys, r)
      ensures S.NoFault(old(plan)) ==> (ok <==> Fits(old(records), chats.Keys, r)) && S.NoFault(plan)
    {
      var happens;
      ok, happens := Step();
      if !Fits(records, chats.Keys, r) {
        return false;
      }
      if happens {
        records := records[r.id := R.MergeRecord(At(records, r.id), r)];
      }
    }

    /** Files first, then the rows in one transaction, then the files no row names any more. */
    method ReplaceRecordChildren(r: R.Record) returns (ok: bool)
      requires !R.Skips(At(records, r.id), r)
      modifies this`records, this`figures, this`plan, this`dead
      ensures records == old(records) || records == old(records)[r.id := R.MergeRecord(At(old(records), r.id), r)]
      ensures KeepsNamed(old(records), old(figures), records, figures)
      ensures RecordLeft(old(records), old(figures), records, figures, r)
      ensures ok ==>
        && Fits(old(records), chats.Keys, r)
        && records == old(records)[r.id := R.MergeRecord(At(old(records), r.id), r)]
        && FilesAt(figures, r.id) == FilesOf(r.figures)
      ensures S.NoFault(old(plan)) ==> (ok <==> Fits(old(records), chats.Keys, r)) && (ok ==> S.NoFault(plan))
    {
      ok := WriteFigures(r);
      GrowingKeepsNamed(records, old(figures), figures);
      WrittenIsOverlaid(old(figures), r.id, r.figures, old(plan));
      if !ok {
        return;
      }
      ghost var written := figures;
      ok := CommitRecord(r);
      FilesOfNames(r.figures);
      assert SameNamed(Names(R.FigureRows(r.figures)), FilesOf(r.figures), FilesAt(written, r.id));
      if !ok {
        NamedFilesKept(old(records), old(figures), figures, r);
        return;
      }
      assert R.MergeRecord(At(old(records), r.id), r).figures == R.FigureRows(r.figures);
      ok := DeleteStaleFigures(r.id);
      NamedFilesSwept(written, figures, r);
      NamedFilesKept(old(records), old(figures), figures, r);
      assert SameNamed(Names(R.FigureRows(r.figures)), FilesOf(r.figures), FilesAt(figures, r.id));
      if ok {
        FilesReplaced(written, figures, r);
      }
    }

    method ImportRecord(r: R.Record) returns (ok: bool)
      modifies this`records, this`figures, this`plan, this`dead, this`skipped
      ensures records == old(records) || records == old(records)[r.id := R.MergeRecord(At(old(records), r.id), r)]
      ensures KeepsNamed(old(records), old(figures), records, figures)
      ensures RecordLeft(old(records), old(figures), records, figures, r)
      ensures ok ==>
        && records == old(records)[r.id := R.MergeRecord(At(old(records), r.id), r)]
        && FilesAt(figures, r.id) ==
             (if R.Skips(At(old(records), r.id), r) then FilesAt(old(figures), r.id) else FilesOf(r.figures))
        && skipped == old(skipped) + (if R.Skips(At(old(records), r.id), r) then 1 else 0)
        && RecordFits(old(records), chats.Keys, r)
      ensures S.NoFault(old(plan)) ==>
        && (ok <==> RecordFits(old(records), chats.Keys, r))
        && (ok ==> S.NoFault(plan))
    {
      ok := Look();
      if !ok {
        return;
      }
      if R.Skips(At(records, r.id), r) {
        skipped := skipped + 1;
        assert records == records[r.id := records[r.id]];
      } else {
        ok := ReplaceRecordChildren(r);
      }
    }

    // ----- chats

    function ChatState(ok: bool): S.State
      reads this
    {
      S.State(chats, raw, plan, ok, dead)
    }

    /** A step of the rollback: nothing happens once the process has died. */
    method UndoStep() returns (fate: S.Fate)
      modifies this`plan, this`dead
      ensures if old(dead) then fate == S.Fails(S.Untouched) && plan == old(plan) && dead
              else fate == S.Next(old(plan)) && plan == S.After(old(plan)) && dead == fate.Dies?
    {
      if dead {
        return S.Fails(S.Untouched);
      }
      fate := Take();
    }

    /** Such a step that happens at once or not at all. */
    method UndoAtOnce() returns (happens: bool)
      modifies this`plan, this`dead
      ensures if old(dead) then !happens && plan == old(plan) && dead
              else
                && plan == S.After(old(plan)) && dead == S.Next(old(plan)).Dies?
                && happens == (S.Next(old(plan)) in {S.Succeeds, S.Dies(S.Complete)})
    {
      var fate := UndoStep();
      happens := fate in {S.Succeeds, S.Dies(S.Complete)};
    }

    method DropSession(id: string)
      modifies this`chats, this`plan, this`dead
      ensures ChatState(false) == S.DropSession(old(ChatState(false)), id)
    {
      var happens := UndoAtOnce();
      if happens {
        chats := chats - {id};
      }
    }

    method RewriteSession(e: C.ChatRow, id: string)
      modifies this`chats, this`plan, this`dead
      ensures ChatState(false) == S.RewriteSession(old(ChatState(false)), e, id)
    {
      var happens := UndoAtOnce();
      if happens {
        chats := chats[id := S.Rewritten(At(chats, id), e)];
      }
    }

    method RewriteItems(e: C.ChatRow, id: string)
      modifies this`chats, this`plan, this`dead
      ensures ChatState(false) == S.RewriteItems(old(ChatState(false)), e, id)
    {
      var happens := UndoAtOnce();
      if happens && id in chats {
        chats := chats[id := chats[id].(items := e.items)];
      }
    }

    method DropRaw(id: string)
      modifies this`raw, this`plan, this`dead
      ensures ChatState(false) == S.DropRaw(old(ChatState(false)), id)
    {
      var happens := UndoAtOnce();
      if happens {
        raw := raw - {id};
      }
    }

    method RewriteRaw(id: string, file: map<string, string>)
      modifies this`raw, this`plan, this`dead
      ensures ChatState(false) == S.RewriteRaw(old(ChatState(false)), id, file)
    {
      var fate := UndoStep();
      if fate == S.Succeeds || fate.extent == S.Complete {
        raw := raw[id := file];
      } else if fate.extent == S.Partial {
        raw := raw - {id};
      }
    }

    method RestoreChat(before: S.State, id: string)
      modifies this`chats, this`raw, this`plan, this`dead
      ensures ChatState(false) == S.Restore(old(ChatState(false)), before, id)
    {
      if id in before.chats {
        var e := before.chats[id];
        DropSession(id);
        RewriteSession(e, id);
        RewriteItems(e, id);
        if e.rawKey.Some? && id in before.raw && e.rawKey.value in before.raw[id] {
          RewriteRaw(id, map[e.rawKey.value := before.raw[id][e.rawKey.value]]);
        } else {
          DropRaw(id);
        }
      } else {
        DropRaw(id);
        DropSession(id);
      }
    }

    method GiveUp(before: S.State, id: string)
      modifies this`chats, this`raw, this`plan, this`dead
      ensures ChatState(false) == S.GiveUp(old(ChatState(false)), before, id)
    {
      if !dead {
        RestoreChat(before, id);
      }
    }

    method UpsertSession(c: C.Chat) returns (ok: bool)
      modifies this`chats, this`plan, this`dead
      ensures var s := old(ChatState(true)); ChatState(ok) == S.Attempt(s, S.UpsertSession(s, c))
    {
      var happens;
      ok, happens := Step();
      if happens {
        chats := chats[c.id := S.Upserted(At(chats, c.id), c.row)];
      }
    }

    method ReplaceItems(c: C.Chat) returns (ok: bool)
      requires c.id in chats
      modifies this`chats, this`plan, this`dead
      ensures ChatState(ok) == S.ReplaceItems(old(ChatState(true)), c)
      ensures c.id in chats
    {
      var happens;
      ok, happens := Step();
      if !S.DistinctOrdinals(c.row.items) {
        return false;
      }
      if happens {
        chats := chats[c.id := chats[c.id].(items := c.row.items)];
      }
    }

    method PromoteRaw(c: C.Chat) returns (ok: bool)
      modifies this`raw, this`plan, this`dead
      ensures ChatState(ok) == S.PromoteRaw(old(ChatState(true)), c)
    {
      ok := true;
      if c.row.rawKey.Some? {
        var fate := Take();
        ok := fate == S.Succeeds;
        if ok || fate.extent == S.Complete {
          raw := raw[c.id := map[c.row.rawKey.value := c.raw]];
        } else if fate.extent == S.Partial {
          raw := raw - {c.id};
        }
      }
    }

    method FinishChat(before: S.State, c: C.Chat) returns (ok: bool)
      requires c.id in chats
      modifies this`chats, this`raw, this`plan, this`dead
      ensures ChatState(ok) == S.Finish(old(ChatState(true)), before, c)
    {
      ok := ReplaceItems(c);
      if ok {
        ok := PromoteRaw(c);
      }
      if !ok {
        GiveUp(before, c.id);
      }
    }

    method WriteChat(c: C.Chat) returns (ok: bool)
      modifies this`chats, this`raw, this`plan, this`dead
      ensures ChatState(ok) == S.Write(old(ChatState(true)), records.Keys, c)
    {
      var before := ChatState(true);
      if C.Clashes(chats, records.Keys, c) {
        return false;
      }
      ok := UpsertSession(c);
      if ok {
        ok := FinishChat(before, c);
      }
    }

    method ImportChat(c: C.Chat) returns (ok: bool)
      modifies this`chats, this`raw, this`plan, this`dead, this`skipped
      ensures ChatState(ok) == S.ImportChat(old(ChatState(true)), records.Keys, c)
      ensures ok ==> skipped == old(skipped) + (if C.Skips(At(old(chats), c.id), c.row) then 1 else 0)
    {
      ok := Look();
      if !ok {
        return;
      }
      if !S.IdentityFree(chats, c) {
        return false;
      }
      ok := Look();
      if !ok {
        return;
      }
      if C.Skips(At(chats, c.id), c.row) {
        skipped := skipped + 1;
        return;
      }
      if S.RawEmpty(c) {
        return false;
      }
      if c.row.rawKey.Some? {
        ok := Look();
      }
      if ok {
        ok := WriteChat(c);
      }
    }

    /** Before anything is written: no source identity twice, none that is another stored chat's. */
    method ValidateIdentities(cs: seq<C.Chat>) returns (ok: bool)
      modifies this`plan, this`dead
      ensures ok ==> C.Identified(chats, cs)
      ensures S.NoFault(old(plan)) ==> (ok <==> C.Identified(chats, cs)) && (ok ==> S.NoFault(plan))
    {
      var seen: set<string> := {};
      var i := 0;
      while i < |cs|
        invariant 0 <= i <= |cs|
        invariant seen == set c | c in cs[..i] :: c.row.key
        invariant C.Identified(chats, cs[..i])
        invariant S.NoFault(old(plan)) ==> S.NoFault(plan)
      {
        var c := cs[i];
        assert cs[..i + 1] == cs[..i] + [c] && c in cs;
        if c.row.key in seen {
          return false;
        }
        seen := seen + {c.row.key};
        var found := Look();
        if !found {
          return false;
        }
        if !S.IdentityFree(chats, c) {
          return false;
        }
        i := i + 1;
      }
      assert cs[..i] == cs;
      ok := true;
    }

    // ----- orphans

    ghost predicate NoOrphans()
      reads this
    {
      && figures.Keys <= records.Keys && data <= records.Keys && raw.Keys <= chats.Keys
      && forall id, name :: Present(figures, id, name) ==> Named(records, id, name)
    }

    /** Nothing that belongs to a row goes, and nothing comes. */
    twostate predicate OrphansOnly()
      reads this
    {
      && Swept(records, old(figures), figures)
      && (forall id :: id in records && id in old(data) ==> id in data)
      && (forall id :: id in chats ==> At(raw, id) == At(old(raw), id))
    }

    method DeleteOrphanDirs(ids: set<string>) returns (ok: bool)
      requires ids !! records.Keys
      modifies this`figures, this`data, this`plan, this`dead
      ensures forall id :: id !in ids ==> At(figures, id) == At(old(figures), id) && (id in data <==> id in old(data))
      ensures figures.Keys <= old(figures).Keys && data <= old(data)
      ensures ok ==> ids !! figures.Keys && ids !! data
      ensures S.NoFault(old(plan)) ==> ok && S.NoFault(plan)
    {
      var todo := ids;
      ok := true;
      while todo != {}
        invariant ok && todo <= ids && ids - todo !! figures.Keys && ids - todo !! data
        invariant forall id :: id !in ids ==>
          At(figures, id) == At(old(figures), id) && (id in data <==> id in old(data))
        invariant figures.Keys <= old(figures).Keys && data <= old(data)
        invariant S.NoFault(old(plan)) ==> S.NoFault(plan)
        decreases |todo|
      {
        var id :| id in todo;
        var happens;
        ok, happens := Step();
        if happens {
          figures := figures - {id};
        }
        if !ok {
          return;
        }
        ok, happens := Step();
        if happens {
          data := data - {id};
        }
        if !ok {
          return;
        }
        todo := todo - {id};
      }
    }

    /** Record by record, the files its row does not name. */
    method DeleteOrphanFigures() returns (ok: bool)
      modifies this`figures, this`plan, this`dead
      ensures figures.Keys == old(figures).Keys
      ensures forall id :: id !in records ==> At(figures, id) == At(old(figures), id)
      ensures Swept(records, old(figures), figures)
      ensures ok ==> forall id :: Tidy(records, figures, id)
      ensures S.NoFault(old(plan)) ==> ok && S.NoFault(plan)
    {
      var todo := records.Keys * figures.Keys;
      ok := true;
      while todo != {}
        invariant ok && todo <= records.Keys && figures.Keys == old(figures).Keys
        invariant forall id :: id !in records ==> At(figures, id) == At(old(figures), id)
        invariant Swept(records, old(figures), figures)
        invariant forall id :: id !in todo ==> Tidy(records, figures, id)
        invariant S.NoFault(old(plan)) ==> S.NoFault(plan)
        decreases |todo|
      {
        var id :| id in todo;
        ghost var before := figures;
        ok := DeleteStaleFigures(id);
        OneSwept(records, before, figures, id);
        SweptTwice(records, old(figures), before, figures);
        TidyElsewhere(records, before, figures, id);
        if !ok {
          return;
        }
        todo := todo - {id};
      }
    }

    method DeleteOrphanRaw(ids: set<string>) returns (ok: bool)
      modifies this`raw, this`plan, this`dead
      ensures forall id :: id !in ids ==> At(raw, id) == At(old(raw), id)
      ensures raw.Keys <= old(raw).Keys
      ensures ok ==> ids !! raw.Keys
      ensures S.NoFault(old(plan)) ==> ok && S.NoFault(plan)
    {
      var todo := ids;
      ok := true;
      while todo != {}
        invariant ok && todo <= ids && ids - todo !! raw.Keys
        invariant forall id :: id !in ids ==> At(raw, id) == At(old(raw), id)
        invariant raw.Keys <= old(raw).Keys
        invariant S.NoFault(old(plan)) ==> S.NoFault(plan)
        decreases |todo|
      {
        var id :| id in todo;
        var happens;
        ok, happens := Step();
        if happens {
          raw := raw - {id};
        }
        if !ok {
          return;
        }
        todo := todo - {id};
      }
    }

    method ReconcileLocalOrphans() returns (ok: bool)
      modifies this`figures, this`data, this`raw, this`plan, this`dead
      ensures OrphansOnly()
      ensures ok ==> NoOrphans()
      ensures S.NoFault(old(plan)) ==> ok
    {
      ok := Look();
      if !ok {
        return;
      }
      ok := DeleteOrphanDirs((figures.Keys + data) - records.Keys);
      ghost var swept := figures;
      DirsSwept(records, old(figures), swept);
      if ok {
        ok := Look();
      }
      if ok {
        ok := DeleteOrphanFigures();
      }
      if ok {
        ok := Look();
      }
      if ok {
        ok := DeleteOrphanRaw(raw.Keys - chats.Keys);
      }
      SweptTwice(records, old(figures), swept, figures);
      if ok {
        forall id, name | Present(figures, id, name) ensures Named(records, id, name) {
          assert id in swept.Keys && name in FilesAt(figures, id).Keys;
          assert Tidy(records, figures, id);
        }
      }
    }

    // ----- the import

    /** One turn of the loop over the records; a record may be merged although its import fails. */
    method ImportNextRecord(
        ghost r0: R.Records, ghost f0: Figures, rs: seq<R.Record>, n: nat, ghost skipped0: int)
        returns (ok: bool, merged: bool)
      requires n < |rs| && RecordsDone(r0, f0, records, figures, chats.Keys, rs[..n], skipped - skipped0)
      modifies this`records, this`figures, this`plan, this`dead, this`skipped
      ensures KeepsNamed(r0, f0, records, figures)
      ensures records == R.MergeAll(r0, rs[..if merged then n + 1 else n])
      ensures !ok ==> RecordsStopped(r0, f0, records, figures, rs, n)
      ensures ok ==> merged && RecordsDone(r0, f0, records, figures, chats.Keys, rs[..n + 1], skipped - skipped0)
      ensures S.NoFault(old(plan)) ==> if ok then S.NoFault(plan) else !RecordsFit(r0, chats.Keys, rs)
    {
      ghost var f1, k := figures, skipped - skipped0;
      var r1 := records;
      ok := ImportRecord(rs[n]);
      RecordTaken(r0, f0, r1, f1, records, figures, chats.Keys, rs, n, k, ok);
      merged := ok || records != r1;
    }

    method ImportRecords(rs: seq<R.Record>) returns (ok: bool, n: nat)
      modifies this`records, this`figures, this`plan, this`dead, this`skipped
      ensures n <= |rs| && records == R.MergeAll(old(records), rs[..n]) && (ok ==> n == |rs|)
      ensures KeepsNamed(old(records), old(figures), records, figures)
      ensures !ok ==> exists k :: RecordsStopped(old(records), old(figures), records, figures, rs, k)
      ensures ok ==>
        && FilesImported(old(records), old(figures), records, figures, rs)
        && skipped == old(skipped) + R.Skipped(old(records), rs)
        && RecordsFit(old(records), chats.Keys, rs)
      ensures S.NoFault(old(plan)) ==> (ok <==> RecordsFit(old(records), chats.Keys, rs)) && (ok ==> S.NoFault(plan))
    {
      ok, n := true, 0;
      assert rs[..0] == [];
      while n < |rs|
        invariant n <= |rs| && ok
        invariant RecordsDone(old(records), old(figures), records, figures, chats.Keys, rs[..n], skipped - old(skipped))
        invariant S.NoFault(old(plan)) ==> S.NoFault(plan)
      {
        var merged;
        ok, merged := ImportNextRecord(old(records), old(figures), rs, n, old(skipped));
        if merged {
          n := n + 1;
        }
        if !ok {
          return;
        }
      }
      assert rs[..n] == rs;
    }

    /** One turn of the loop over the chats, of which the first n are merged. */
    method ImportNext(
        ghost c0: C.Chats, ghost raw0: S.Raw, cs: seq<C.Chat>, n: nat, ghost skipped0: int) returns (ok: bool)
      requires n < |cs| && C.Identified(c0, cs)
      requires ChatsDone(c0, raw0, chats, raw, records.Keys, cs[..n], skipped - skipped0)
      modifies this`chats, this`raw, this`plan, this`dead, this`skipped
      ensures if ok then ChatsDone(c0, raw0, chats, raw, records.Keys, cs[..n + 1], skipped - skipped0)
              else ChatsStopped(c0, raw0, chats, raw, cs, n)
      ensures S.NoFault(old(plan)) ==> if ok then S.NoFault(plan) else !ChatsFit(c0, records.Keys, cs)
    {
      ChatStep(ChatState(true), c0, raw0, records.Keys, cs, n, skipped - skipped0);
      ok := ImportChat(cs[n]);
    }

    /** The first n chats are merged; of the next one a failure or a death leaves what it may. */
    method ImportChats(cs: seq<C.Chat>) returns (ok: bool, n: nat)
      requires C.Identified(chats, cs)
      modifies this`chats, this`raw, this`plan, this`dead, this`skipped
      ensures n <= |cs|
      ensures ok ==> n == |cs| && chats == C.MergeAll(old(chats), cs) && raw == MergeRawAll(old(chats), old(raw), cs)
      ensures !ok ==> ChatsStopped(old(chats), old(raw), chats, raw, cs, n)
      ensures ok ==> ChatsFit(old(chats), records.Keys, cs) && skipped == old(skipped) + C.Skipped(old(chats), cs)
      ensures S.NoFault(old(plan)) ==> (ok <==> ChatsFit(old(chats), records.Keys, cs)) && (ok ==> S.NoFault(plan))
    {
      ok, n := true, 0;
      assert cs[..0] == [];
      while n < |cs|
        invariant n <= |cs| && ok
        invariant ChatsDone(old(chats), old(raw), chats, raw, records.Keys, cs[..n], skipped - old(skipped))
        invariant S.NoFault(old(plan)) ==> S.NoFault(plan)
      {
        ok := ImportNext(old(chats), old(raw), cs, n, old(skipped));
        if !ok {
          return;
        }
        n := n + 1;
      }
      assert cs[..n] == cs;
    }

    /** What a snapshot needs to be imported when no operation fails. */
    static ghost predicate Importable(records: R.Records, chats: C.Chats, snapshot: Snapshot) {
      && C.Identified(chats, snapshot.chats)
      && RecordsFit(records, chats.Keys, snapshot.records)
      && ChatsFit(chats, R.MergeAll(records, snapshot.records).Keys, snapshot.chats)
    }

    /** The tables and files after both loops. */
    static ghost predicate Merged(
        r0: R.Records, c0: C.Chats, f0: Figures, raw0: S.Raw, r1: R.Records, c1: C.Chats, f1: Figures,
            raw1: S.Raw, snapshot: Snapshot)
    {
      && r1 == R.MergeAll(r0, snapshot.records)
      && c1 == C.MergeAll(c0, snapshot.chats)
      && FilesImported(r0, f0, r1, f1, snapshot.records)
      && (forall id :: id in c1 ==> At(raw1, id) == At(MergeRawAll(c0, raw0, snapshot.chats), id))
    }

    method ImportContents(snapshot: Snapshot) returns (ok: bool, done: Done)
      requires C.Identified(chats, snapshot.chats)
      modifies this`records, this`chats, this`figures, this`raw, this`plan, this`dead, this`skipped
      ensures ok ==>
        && Merged(old(records), old(chats), old(figures), old(raw), records, chats, figures, raw, snapshot)
        && Importable(old(records), old(chats), snapshot)
        && skipped == old(skipped) + R.Skipped(old(records), snapshot.records) + C.Skipped(old(chats), snapshot.chats)
      ensures KeepsNamed(old(records), old(figures), records, figures)
      ensures FilesLeft(old(records), old(figures), records, figures, snapshot.records)
      ensures MergedUpTo(old(records), old(chats), records, chats, snapshot, done)
      ensures S.NoFault(old(plan)) ==>
        (ok <==> Importable(old(records), old(chats), snapshot)) && (ok ==> S.NoFault(plan))
    {
      var n;
      ok, n := ImportRecords(snapshot.records);
      done := Done(n, 0);
      RecordsUpTo(old(records), chats, records, snapshot, n);
      if !ok {
        return;
      }
      assert snapshot.records[..n] == snapshot.records;
      assert Swept(records, figures, figures);
      ok, n := ImportChats(snapshot.chats);
      done := Done(|snapshot.records|, n);
      ChatsUpTo(old(records), old(chats), old(raw), records, chats, raw, snapshot, n, ok);
    }

    /** The sweep at the end. */
    method SweepImported(
        ghost r0: R.Records, ghost c0: C.Chats, ghost f0: Figures, ghost raw0: S.Raw, snapshot: Snapshot)
        returns (ok: bool)
      requires KeepsNamed(r0, f0, records, figures)
      requires Merged(r0, c0, f0, raw0, records, chats, figures, raw, snapshot)
      modifies this`figures, this`data, this`raw, this`plan, this`dead
      ensures KeepsNamed(r0, f0, records, figures) && FilesLeft(r0, f0, records, figures, snapshot.records)
      ensures ok ==> Merged(r0, c0, f0, raw0, records, chats, figures, raw, snapshot) && NoOrphans()
      ensures S.NoFault(old(plan)) ==> ok
    {
      ghost var f1 := figures;
      ok := ReconcileLocalOrphans();
      SweptLeaves(r0, f0, records, f1, figures, snapshot.records);
      if ok {
        SweptImported(r0, f0, records, f1, figures, snapshot.records);
      }
    }

    method ImportSnapshot(snapshot: Snapshot) returns (ok: bool, done: Done)
      requires C.OneToOne(chats)
      modifies this
      // a snapshot whose source identities do not fit is rejected before anything is written
      ensures !C.Identified(old(chats), snapshot.chats) ==>
        !ok && records == old(records) && chats == old(chats) && figures == old(figures)
        && data == old(data) && raw == old(raw)
      // after a success both tables are merged, the files are the snapshot's, nothing is orphaned
      ensures ok ==>
        && Merged(old(records), old(chats), old(figures), old(raw), records, chats, figures, raw, snapshot)
        && C.OneToOne(chats) && NoOrphans()
        && skipped == old(skipped) + R.Skipped(old(records), snapshot.records) + C.Skipped(old(chats), snapshot.chats)
      // whatever happens, no file that a row names is deleted, what is written is merged in order, and
      // the files of every record but the one it stopped at are its own
      ensures KeepsNamed(old(records), old(figures), records, figures)
      ensures FilesLeft(old(records), old(figures), records, figures, snapshot.records)
      ensures MergedUpTo(old(records), old(chats), records, chats, snapshot, done)
      // it succeeds, if no operation fails, exactly when the snapshot is importable
      ensures ok ==> Importable(old(records), old(chats), snapshot)
      ensures S.NoFault(old(plan)) ==> (ok <==> Importable(old(records), old(chats), snapshot))
    {
      done := Done(0, 0);
      assert snapshot.records[..0] == [] && snapshot.chats[..0] == [];
      ok := ValidateIdentities(snapshot.chats);
      if !ok {
        GrowingKeepsNamed(records, figures, figures);
        return;
      }
      ok, done := ImportContents(snapshot);
      if !ok {
        return;
      }
      ImportableKeepsOneToOne(old(records), old(chats), snapshot);
      ok := SweepImported(old(records), old(chats), old(figures), old(raw), snapshot);
    }

    /** Not everything is found out before anything is written: a newer chat whose id is stored
        under another source passes the check at the start and fails when it is reached. */
    static lemma {:induction false} ClashFoundLate(records: R.Records, chats: C.Chats, r: R.Record, c: C.Chat)
      requires c.id in chats && chats[c.id].key != c.row.key && chats[c.id].updatedAt < c.row.updatedAt
      requires forall id :: id in chats ==> chats[id].key != c.row.key
      requires RecordFits(records, chats.Keys, r)
      ensures var snapshot := Snapshot([r], [c]);
        && C.Identified(chats, snapshot.chats)
        && RecordsFit(records, chats.Keys, snapshot.records)
        && !Importable(records, chats, snapshot)
    {
      assert [r][..0] == [] && [c][..0] == [];
      assert RecordsFit(records, chats.Keys, []) && R.MergeAll(records, []) == records;
      assert RecordFits(records, chats.Keys, [r][0]);
    }

    static lemma {:induction false} ImportableKeepsOneToOne(records: R.Records, chats: C.Chats, snapshot: Snapshot)
      requires C.OneToOne(chats) && Importable(records, chats, snapshot)
      ensures C.OneToOne(C.MergeAll(chats, snapshot.chats))
    {
      var ids := R.MergeAll(records, snapshot.records).Keys;
      FittingIsClashFree(chats, ids, snapshot.chats);
      C.ImportKeepsOneToOne(chats, ids, snapshot.chats);
    }
  }
}
