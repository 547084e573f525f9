/**
 The batch of a chat import: pending writes of many sessions go to the database in one transaction,
 then the raw copies are promoted one after the other. To each session this is the single write of
 module ChatImport with a mishap of its own, so that what is proved of one transcript holds of each.
 */
module ChatBatch {
  import opened Common
  import opened ChatTranscript
  import opened ChatImport

  datatype Mode = Replace | Append

  /** stage is the staged raw copy; an attribution backfill has none. A repair replaces the rows by
      those of a managed copy that equals the file. */
  datatype Pending = Pending(
    id: string, source: string, sourceSessionId: string, mode: Mode, items: seq<Item>, stage: Option<string>,
    repair: bool)

  type Rows = map<string, seq<Item>>

  function RowsAt(db: Rows, id: string): seq<Item> { if id in db then db[id] else [] }

  function NewRows(rows: seq<Item>, p: Pending): Option<seq<Item>> {
    if p.mode == Replace then Some(p.items) else InsertRows(rows, p.items)
  }

  /** WriteChatImportBatch: every operation or none. */
  function Transact(db: Rows, entries: seq<Pending>): Option<Rows>
    decreases |entries|
  {
    if entries == [] then Some(db)
    else
      var rows := NewRows(RowsAt(db, entries[0].id), entries[0]);
      if rows.None? then None else Transact(db[entries[0].id := rows.value], entries[1..])
  }

  /** The commit fails, or the promotion with this index does and leaves this copy. */
  datatype Trouble = NoTrouble | CommitFails | PromotionFails(at: nat, copy: Copy)

  function Promote(raw: map<string, string>, p: Pending): map<string, string> {
    if p.stage.Some? then raw[p.id := p.stage.value] else raw
  }

  function Spoil(raw: map<string, string>, p: Pending, copy: Copy): map<string, string> {
    match copy
    case Old => raw
    case Lost => raw - {p.id}
    case New => Promote(raw, p)
  }

  /** The promotions from entry i on; the first that fails is the last that is tried. */
  function PromoteFrom(raw: map<string, string>, entries: seq<Pending>, i: nat, trouble: Trouble): map<string, string>
    requires i <= |entries|
    decreases |entries| - i
  {
    if i == |entries| then raw
    else if trouble.PromotionFails? && trouble.at == i && entries[i].stage.Some? then
      Spoil(raw, entries[i], trouble.copy)
    else PromoteFrom(Promote(raw, entries[i]), entries, i + 1, trouble)
  }

  /** Whether a promotion of the batch fails. */
  predicate Spoils(entries: seq<Pending>, trouble: Trouble) {
    trouble.PromotionFails? && trouble.at < |entries| && entries[trouble.at].stage.Some?
  }

  /** Whether a flush goes through: it commits and every promotion works. */
  predicate GoesThrough(db: Rows, entries: seq<Pending>, trouble: Trouble) {
    entries == [] || (trouble != CommitFails && Transact(db, entries).Some? && !Spoils(entries, trouble))
  }

  function ItemCount(entries: seq<Pending>): nat {
    if entries == [] then 0 else ItemCount(entries[..|entries| - 1]) + |entries[|entries| - 1].items|
  }

  const BATCH_SIZE: nat := 50

  class ChatImportBatch {
    var entries: seq<Pending>
    var db: Rows
    var raw: map<string, string>
    var itemsImported: nat

    constructor (db: Rows, raw: map<string, string>)
      ensures entries == [] && this.db == db && this.raw == raw && itemsImported == 0
    {
      entries, this.db, this.raw, itemsImported := [], db, raw, 0;
    }

    method HasSourceSession(source: string, sourceSessionId: string) returns (found: bool)
      ensures found <==> exists p :: p in entries && p.source == source && p.sourceSessionId == sourceSessionId
    {
      for i := 0 to |entries|
        invariant forall j :: 0 <= j < i ==>
          !(entries[j].source == source && entries[j].sourceSessionId == sourceSessionId)
      {
        if entries[i].source == source && entries[i].sourceSessionId == sourceSessionId {
          return true;
        }
      }
      return false;
    }

    /** Before an entry is queued that is not a repair, pending writes of its session are flushed. A
        repair is queued at once: as the managed copy has not changed since, what is pending of its
        session is the same repair. */
    method Queue(p: Pending, trouble: Trouble, trouble': Trouble) returns (ok: bool)
      requires Sound(entries) && (p.repair ==> p.mode == Replace && p.stage.Some?)
      requires forall q :: q in entries ==> SameSession(q, p)
      requires p.repair ==> forall q :: q in entries && q.id == p.id ==> q.repair && q.items == p.items
      modifies this
      ensures Sound(entries)
      ensures entries == [] || (ok && (entries == old(entries) + [p] || entries == [p]))
      ensures !p.repair && (exists q :: q in old(entries) && q.id == p.id) ==> entries in {[], [p]}
    {
      if !p.repair {
        var queued := HasSourceSession(p.source, p.sourceSessionId);
        if queued {
          ok := Flush(trouble);
          if !ok {
            return;
          }
        }
      }
      SoundMore(entries, p);
      ok := Add(p, trouble');
    }

    method Add(p: Pending, trouble: Trouble) returns (ok: bool)
      modifies this
      ensures var pending := old(entries) + [p];
        if |pending| < BATCH_SIZE then
          ok && entries == pending && db == old(db) && raw == old(raw)
        else
          && entries == []
          && (ok <==> GoesThrough(old(db), pending, trouble))
          && (Flushed(pending, old(db), old(raw), trouble, db, raw) || (!ok && db == old(db) && raw == old(raw)))
    {
      entries := entries + [p];
      if |entries| >= BATCH_SIZE {
        ok := Flush(trouble);
      } else {
        ok := true;
      }
    }

    method Flush(trouble: Trouble) returns (ok: bool)
      modifies this
      ensures entries == []
      ensures old(entries) == [] ==> ok && db == old(db) && raw == old(raw)
      ensures Flushed(old(entries), old(db), old(raw), trouble, db, raw) || (!ok && db == old(db) && raw == old(raw))
      ensures ok <==> GoesThrough(old(db), old(entries), trouble)
      ensures trouble != CommitFails && Transact(old(db), old(entries)).Some? ==>
        Flushed(old(entries), old(db), old(raw), trouble, db, raw)
      ensures ok ==> itemsImported == old(itemsImported) + ItemCount(old(entries))
    {
      var batch := entries;
      entries := [];
      if batch == [] {
        assert Flushed(batch, db, raw, trouble, db, raw);
        return true;
      }
      var next := Transact(db, batch);
      if trouble == CommitFails || next.None? {
        return false;
      }
      db := next.value;
      var i := 0;
      while i < |batch|
        invariant i <= |batch| && entries == [] && Some(db) == next
        invariant itemsImported == old(itemsImported) + ItemCount(batch[..i])
        invariant Spoils(batch, trouble) ==> i <= trouble.at
        invariant PromoteFrom(raw, batch, i, trouble) == PromoteFrom(old(raw), batch, 0, trouble)
      {
        if batch[i].stage.Some? {
          if trouble.PromotionFails? && trouble.at == i {
            raw := Spoil(raw, batch[i], trouble.copy);
            return false;
          }
          raw := Promote(raw, batch[i]);
        }
        assert batch[..i + 1][..i] == batch[..i];
        itemsImported := itemsImported + |batch[i].items|;
        i := i + 1;
      }
      assert batch[..i] == batch;
      return true;
    }
  }

  /** What a flush that commits leaves. */
  ghost predicate Flushed(entries: seq<Pending>, db: Rows, raw: map<string, string>, trouble: Trouble,
      db': Rows, raw': map<string, string>)
  {
    Transact(db, entries) == Some(db') && raw' == PromoteFrom(raw, entries, 0, trouble)
  }

  // ----- a flush seen from one session

  /** A session has one id and one source identity. */
  ghost predicate SameSession(p: Pending, q: Pending) {
    p.id == q.id <==> p.source == q.source && p.sourceSessionId == q.sourceSessionId
  }

  ghost predicate SameRepair(p: Pending, q: Pending) {
    p.repair && q.repair && p.mode == q.mode == Replace && p.items == q.items && p.stage.Some? && q.stage.Some?
  }

  /** Of one session several entries are pending only if they are the same repair. */
  ghost predicate Sound(entries: seq<Pending>) {
    && (forall p :: p in entries && p.repair ==> p.mode == Replace && p.stage.Some?)
    && (forall i, j :: 0 <= i < j < |entries| ==> SameSession(entries[i], entries[j]))
    && (forall i, j :: 0 <= i < j < |entries| && entries[i].id == entries[j].id ==> SameRepair(entries[i], entries[j]))
  }

  lemma {:induction false} SoundMore(entries: seq<Pending>, p: Pending)
    requires Sound(entries) && (p.repair ==> p.mode == Replace && p.stage.Some?)
    requires forall q :: q in entries ==> SameSession(q, p)
    requires forall q :: q in entries && q.id == p.id ==> q.repair && p.repair && q.items == p.items
    ensures Sound(entries + [p])
  {
    var more := entries + [p];
    forall i, j | 0 <= i < j < |more|
      ensures SameSession(more[i], more[j]) && (more[i].id == more[j].id ==> SameRepair(more[i], more[j]))
    {
      assert more[i] in entries;
    }
  }

  lemma {:induction false} SoundRest(entries: seq<Pending>)
    requires Sound(entries) && entries != []
    ensures Sound(entries[1..])
  {
    assert forall p :: p in entries[1..] ==> p in entries;
  }

  lemma {:induction false} TransactPointwise(db: Rows, entries: seq<Pending>, id: string)
    requires Sound(entries) && Transact(db, entries).Some?
    ensures var db' := Transact(db, entries).value;
      && ((forall i :: 0 <= i < |entries| ==> entries[i].id != id) ==> RowsAt(db', id) == RowsAt(db, id))
      && (forall i :: 0 <= i < |entries| && entries[i].id == id ==>
            Some(RowsAt(db', id)) == NewRows(RowsAt(db, id), entries[i]))
    decreases |entries|
  {
    if entries != [] {
      var rows, rest := NewRows(RowsAt(db, entries[0].id), entries[0]).value, entries[1..];
      var db1 := db[entries[0].id := rows];
      SoundRest(entries);
      TransactPointwise(db1, rest, id);
      var db' := Transact(db, entries).value;
      assert db' == Transact(db1, rest).value;
      forall i | 0 <= i < |entries| && entries[i].id == id
        ensures Some(RowsAt(db', id)) == NewRows(RowsAt(db, id), entries[i])
      {
        if i > 0 {
          assert rest[i - 1] == entries[i];
        } else if j :| 0 <= j < |rest| && rest[j].id == id {
          assert SameRepair(entries[0], entries[j + 1]);
        }
      }
      if forall i :: 0 <= i < |entries| ==> entries[i].id != id {
        assert forall i :: 0 <= i < |rest| ==> rest[i].id == entries[i + 1].id;
      }
    }
  }

  /** A staged copy of the session among the entries from i on. */
  ghost predicate Staged(entries: seq<Pending>, i: nat, id: string, copy: Option<string>) {
    exists j :: i <= j < |entries| && entries[j].id == id && entries[j].stage.Some? && copy == entries[j].stage
  }

  ghost predicate Mentions(entries: seq<Pending>, i: nat, id: string) {
    exists j :: i <= j < |entries| && entries[j].id == id && entries[j].stage.Some?
  }

  lemma {:induction false} PromotePointwise(raw: map<string, string>, entries: seq<Pending>, i: nat,
      trouble: Trouble, id: string)
    requires i <= |entries|
    ensures var raw' := PromoteFrom(raw, entries, i, trouble);
      && (!Mentions(entries, i, id) ==> At(raw', id) == At(raw, id))
      && (At(raw', id) in {At(raw, id), None} || Staged(entries, i, id, At(raw', id)))
      && (!trouble.PromotionFails? && Mentions(entries, i, id) ==> Staged(entries, i, id, At(raw', id)))
    decreases |entries| - i
  {
    if i < |entries| {
      var next := Promote(raw, entries[i]);
      PromotePointwise(next, entries, i + 1, trouble, id);
      if entries[i].id == id && entries[i].stage.Some? {
        assert Mentions(entries, i, id) && Staged(entries, i, id, entries[i].stage);
        assert At(next, id) == entries[i].stage;
      } else {
        assert At(next, id) == At(raw, id);
        assert Mentions(entries, i, id) ==> Mentions(entries, i + 1, id);
      }
      assert Mentions(entries, i + 1, id) ==> Mentions(entries, i, id);
    }
  }

  /** The flush is, to the session of this entry, a write of its own. */
  ghost predicate OneWrite(
    p: Pending, rows: seq<Item>, raw: Option<string>, mishap: Mishap, rows': seq<Item>, raw': Option<string>)
  {
    && p.stage.Some? && NewRows(rows, p).Some?
    && Write(Chat(rows, raw, p.stage.value), NewRows(rows, p).value, "", mishap).chat
       == Chat(rows', raw', p.stage.value)
  }

  /** A committed flush is, to each session in it, one write of its own: all its rows, and a raw copy
      that is the old one, missing, or a staged one, and without a failure a staged one. Other
      sessions are untouched. */
  lemma {:induction false} FlushIsOneWritePerSession(
    entries: seq<Pending>, db: Rows, raw: map<string, string>, trouble: Trouble,
    db': Rows, raw': map<string, string>, k: nat)
    requires Sound(entries) && Flushed(entries, db, raw, trouble, db', raw')
    requires k < |entries| && entries[k].stage.Some?
    ensures var id := entries[k].id;
      exists p, mishap ::
        && p in entries && p.id == id && (!trouble.PromotionFails? ==> mishap == Smooth)
        && OneWrite(p, RowsAt(db, id), At(raw, id), mishap, RowsAt(db', id), At(raw', id))
  {
    var id := entries[k].id;
    TransactPointwise(db, entries, id);
    PromotePointwise(raw, entries, 0, trouble, id);
    assert Mentions(entries, 0, id);
    var j := k;
    if Staged(entries, 0, id, At(raw', id)) {
      j :| 0 <= j < |entries| && entries[j].id == id && entries[j].stage.Some? && At(raw', id) == entries[j].stage;
    }
    var p := entries[j];
    var copy := if At(raw', id) == p.stage then New else if At(raw', id) == None then Lost else Old;
    var mishap := if trouble.PromotionFails? then AfterCommit(copy) else Smooth;
    assert p.stage.value + "" == p.stage.value;
    assert OneWrite(p, RowsAt(db, id), At(raw, id), mishap, RowsAt(db', id), At(raw', id));
  }

  lemma {:induction false} FlushLeavesOthersAlone(
    entries: seq<Pending>, db: Rows, raw: map<string, string>, trouble: Trouble,
    db': Rows, raw': map<string, string>, id: string)
    requires Sound(entries) && Flushed(entries, db, raw, trouble, db', raw')
    requires forall i :: 0 <= i < |entries| ==> entries[i].id != id
    ensures RowsAt(db', id) == RowsAt(db, id) && At(raw', id) == At(raw, id)
  {
    TransactPointwise(db, entries, id);
    PromotePointwise(raw, entries, 0, trouble, id);
  }
}
