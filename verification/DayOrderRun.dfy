/** Runs of additions, moves, reorderings and soft deletions: the keys of a date never collide. */
module DayOrderRun {
  import opened Common
  import opened RecordOrder
  import opened DayOrder

  /** A move without a position goes last, or nowhere when the date does not change either. */
  datatype Op =
    | Add(id: string, date: string, pos: Position)
    | Move(id: string, newDate: Option<string>, newPos: Option<Position>)
    | Reorder(id: string, newDate: Option<string>, pos: Position)
    | SoftDelete(id: string)

  type Db = seq<Record>

  predicate ActiveOn(r: Record, date: string) { !r.deleted && r.date == date }

  function Active(db: Db, date: string): (out: seq<Record>)
    ensures forall x :: x in out <==> x in db && ActiveOn(x, date)
  {
    if db == [] then []
    else if ActiveOn(db[0], date) then [db[0]] + Active(db[1..], date)
    else Active(db[1..], date)
  }

  /** ListRecords for one date, in the repository's order. */
  function Listed(db: Db, date: string): seq<Record> { Sort(Active(db, date)) }

  /** The keys the new place is computed from: the listed records without the one that moves. */
  function NewKey(gen: Gen, db: Db, date: string, id: string, pos: Position): Option<string> {
    ServerKey(gen, Without(Listed(db, date), id), pos)
  }

  function Place(gen: Gen, db: Db, i: nat, date: string, pos: Position): Db
    requires i < |db|
  {
    var key := NewKey(gen, db, date, db[i].id, pos);
    if key.None? then db else db[i := db[i].(date := date, dayOrder := key.value)]
  }

  function Apply(gen: Gen, db: Db, op: Op): Db {
    match op
    case Add(id, date, pos) =>
      var key := NewKey(gen, db, date, id, pos);
      if IndexOf(db, id) != -1 || key.None? then db else db + [Record(id, date, key.value, false)]
    case Move(id, date, pos) =>
      var i := IndexOf(db, id);
      if i == -1 then db
      else
        var target := if date.Some? then date.value else db[i].date;
        if pos.None? && target == db[i].date then db
        else Place(gen, db, i, target, if pos.Some? then pos.value else Last)
    case Reorder(id, date, pos) =>
      var i := IndexOf(db, id);
      if i == -1 || db[i].deleted then db
      else Place(gen, db, i, if date.Some? then date.value else db[i].date, pos)
    case SoftDelete(id) =>
      var i := IndexOf(db, id);
      if i == -1 then db else db[i := db[i].(deleted := true)]
  }

  function Run(gen: Gen, db: Db, ops: seq<Op>): Db
    decreases |ops|
  {
    if ops == [] then db else Run(gen, Apply(gen, db, ops[0]), ops[1..])
  }

  /** Ids are unique; active records have valid keys, and on one date different ones. */
  ghost predicate Keyed(db: Db, valid: string -> bool) {
    && DistinctIds(db)
    && (forall r :: r in db && !r.deleted ==> r.dayOrder != "" && valid(r.dayOrder))
    && (forall r, s :: r in db && s in db && r.id != s.id && !r.deleted && !s.deleted && r.date == s.date ==>
          r.dayOrder != s.dayOrder)
  }

  lemma {:induction false} ActiveDistinct(db: Db, date: string)
    requires DistinctIds(db)
    ensures DistinctIds(Active(db, date))
  {
    if db != [] {
      ActiveDistinct(db[1..], date);
      var rest := Active(db[1..], date);
      forall j | 0 <= j < |rest| ensures rest[j].id != db[0].id {
        assert rest[j] in db[1..];
      }
    }
  }

  lemma {:induction false} WithoutSorted(rs: seq<Record>, id: string)
    requires Sorted(rs)
    ensures Sorted(Without(rs, id))
  {
    if rs != [] {
      WithoutSorted(rs[1..], id);
      WithoutExactly(rs[1..], id);
    }
  }

  lemma {:induction false} IdsTellApart(rs: seq<Record>, a: Record, b: Record)
    requires DistinctIds(rs) && a in rs && b in rs && a.id == b.id
    ensures a == b
  {
    var i :| 0 <= i < |rs| && rs[i] == a;
    var j :| 0 <= j < |rs| && rs[j] == b;
  }

  lemma {:induction false} SortedIds(rs: seq<Record>)
    requires Sorted(rs) && forall a, b :: a in rs && b in rs && a.id == b.id ==> a == b
    ensures DistinctIds(rs)
  {
    forall i, j | 0 <= i < j < |rs| ensures rs[i].id != rs[j].id {
      assert rs[i] in rs && rs[j] in rs;
      ComparisonsAgree(rs[i], rs[i]);
    }
  }

  /** On every date the listed records, with or without the one that moves, strictly increase. */
  lemma {:induction false} ListedIncrease(db: Db, valid: string -> bool, date: string, id: string)
    requires Keyed(db, valid)
    ensures Siblings(Without(Listed(db, date), id), date, valid)
  {
    ActiveDistinct(db, date);
    SortSorts(Active(db, date));
    WithoutSorted(Listed(db, date), id);
    WithoutExactly(Listed(db, date), id);
    var sibs := Without(Listed(db, date), id);
    forall a, b | a in sibs && b in sibs && a.id == b.id ensures a == b {
      IdsTellApart(db, a, b);
    }
    SortedIds(sibs);
    forall i, j | 0 <= i < j < |sibs| ensures Less(sibs[i].dayOrder, sibs[j].dayOrder) {
      assert Precedes(sibs[i], sibs[j]) && sibs[i] in sibs && sibs[j] in sibs;
      LessTotal(date, date);
      LessTotal(sibs[i].dayOrder, sibs[j].dayOrder);
    }
  }

  lemma {:induction false} KeyIsNew(sibs: seq<Record>, i: nat, k: string)
    requires i <= |sibs| && k != ""
    requires forall a, b :: 0 <= a < b < |sibs| ==> Less(sibs[a].dayOrder, sibs[b].dayOrder)
    requires i > 0 ==> Less(sibs[i - 1].dayOrder, k)
    requires i < |sibs| ==> Less(k, sibs[i].dayOrder)
    ensures forall r :: r in sibs ==> r.dayOrder != k
  {
    KeyApart(sibs, i, k);
    LessTotal(k, k);
  }

  /** A new key is valid and differs from that of every other active record of the date. */
  lemma {:induction false} NewKeyIsFree(
    gen: Gen, valid: string -> bool, db: Db, date: string, id: string, pos: Position)
    requires Between(gen, valid) && Keyed(db, valid)
    ensures var k := NewKey(gen, db, date, id, pos);
      k.Some? ==>
        && k.value != "" && valid(k.value)
        && forall r :: r in db && ActiveOn(r, date) && r.id != id ==> r.dayOrder != k.value
  {
    var sibs := Without(Listed(db, date), id);
    var k := NewKey(gen, db, date, id, pos);
    ListedIncrease(db, valid, date, id);
    KeyFitsPlace(gen, valid, sibs, date, pos);
    if k.Some? {
      KeyIsNew(sibs, PlaceOf(sibs, pos), k.value);
      WithoutExactly(Listed(db, date), id);
      assert forall r :: r in db && ActiveOn(r, date) && r.id != id ==> r in sibs;
    }
  }

  lemma {:induction false} ReplaceKeeps(db: Db, valid: string -> bool, i: nat, r: Record)
    requires Keyed(db, valid) && i < |db| && r.id == db[i].id
    requires !r.deleted ==>
      && r.dayOrder != "" && valid(r.dayOrder)
      && forall s :: s in db && ActiveOn(s, r.date) && s.id != r.id ==> s.dayOrder != r.dayOrder
    ensures Keyed(db[i := r], valid)
  {
    assert forall s :: s in db[i := r] ==> s == r || s in db;
  }

  lemma {:induction false} PlaceKeeps(gen: Gen, valid: string -> bool, db: Db, i: nat, date: string, pos: Position)
    requires Between(gen, valid) && Keyed(db, valid) && i < |db|
    ensures Keyed(Place(gen, db, i, date, pos), valid)
  {
    NewKeyIsFree(gen, valid, db, date, db[i].id, pos);
    var key := NewKey(gen, db, date, db[i].id, pos);
    if key.Some? {
      ReplaceKeeps(db, valid, i, db[i].(date := date, dayOrder := key.value));
    }
  }

  lemma {:induction false} AddKeeps(gen: Gen, valid: string -> bool, db: Db, id: string, date: string, pos: Position)
    requires Between(gen, valid) && Keyed(db, valid)
    ensures Keyed(Apply(gen, db, Add(id, date, pos)), valid)
  {
    NewKeyIsFree(gen, valid, db, date, id, pos);
    var next := Apply(gen, db, Add(id, date, pos));
    if next != db {
      var r := Record(id, date, NewKey(gen, db, date, id, pos).value, false);
      assert forall s :: s in next ==> s == r || s in db;
    }
  }

  lemma {:induction false} ApplyKeeps(gen: Gen, valid: string -> bool, db: Db, op: Op)
    requires Between(gen, valid) && Keyed(db, valid)
    ensures Keyed(Apply(gen, db, op), valid)
  {
    match op
    case Add(id, date, pos) => AddKeeps(gen, valid, db, id, date, pos);
    case Move(id, date, pos) =>
      var i := IndexOf(db, id);
      if i != -1 {
        PlaceKeeps(gen, valid, db, i, if date.Some? then date.value else db[i].date,
            if pos.Some? then pos.value else Last);
      }
    case Reorder(id, date, pos) =>
      var i := IndexOf(db, id);
      if i != -1 {
        PlaceKeeps(gen, valid, db, i, if date.Some? then date.value else db[i].date, pos);
      }
    case SoftDelete(id) =>
      var i := IndexOf(db, id);
      if i != -1 {
        ReplaceKeeps(db, valid, i, db[i].(deleted := true));
      }
  }

  lemma {:induction false} RunKeeps(gen: Gen, valid: string -> bool, db: Db, ops: seq<Op>)
    requires Between(gen, valid) && Keyed(db, valid)
    ensures Keyed(Run(gen, db, ops), valid)
    decreases |ops|
  {
    if ops != [] {
      ApplyKeeps(gen, valid, db, ops[0]);
      RunKeeps(gen, valid, Apply(gen, db, ops[0]), ops[1..]);
    }
  }

  /** From an empty store, after any run, the active records of any date are listed with strictly
      increasing keys, so that every place has a key between its neighbours. */
  lemma {:induction false} KeysStayIncreasing(gen: Gen, valid: string -> bool, ops: seq<Op>, date: string, id: string)
    requires Between(gen, valid)
    ensures Siblings(Without(Listed(Run(gen, [], ops), date), id), date, valid)
  {
    RunKeeps(gen, valid, [], ops);
    ListedIncrease(Run(gen, [], ops), valid, date, id);
  }
}
