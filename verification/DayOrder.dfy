/**
 Fractional keys. A record's place within its date is a key that sorts between its neighbours' keys;
 the command line and the server compute it in their own ways. Given a generator that can always find
 a key between two keys, placing a record refines inserting it in a list, and no run of additions,
 moves, reorderings and soft deletions gives two active records of one date the same key.
 */
module DayOrder {
  import opened Common
  import opened RecordOrder

  datatype Position = First | Last | Before(ref: string) | After(ref: string)

  /** Gen makes a key between two; the empty string stands for no bound. */
  type Gen = (string, string) -> Option<string>

  predicate InOrder(a: string, b: string) { a == "" || b == "" || Less(a, b) }

  /** What fracdex promises of the keys that are valid. */
  ghost predicate Between(gen: Gen, valid: string -> bool) {
    forall a, b :: (a == "" || valid(a)) && (b == "" || valid(b)) && InOrder(a, b) ==>
      var k := gen(a, b);
      && k.Some? && k.value != "" && valid(k.value)
      && (a != "" ==> Less(a, k.value)) && (b != "" ==> Less(k.value, b))
  }

  /** findRecordIndexByID */
  function IndexOf(rs: seq<Record>, id: string): (i: int)
    ensures -1 <= i < |rs|
    ensures i >= 0 ==> rs[i].id == id
    ensures i == -1 <==> forall r :: r in rs ==> r.id != id
  {
    if rs == [] then -1
    else if rs[0].id == id then 0
    else
      var i := IndexOf(rs[1..], id);
      if i == -1 then -1 else i + 1
  }

  /** serve.computeFractionalIndex, on siblings in their order. */
  function ServerKey(gen: Gen, sibs: seq<Record>, pos: Position): Option<string> {
    match pos
    case First => if sibs == [] then gen("", "") else gen("", sibs[0].dayOrder)
    case Last => if sibs == [] then gen("", "") else gen(sibs[|sibs| - 1].dayOrder, "")
    case Before(ref) =>
      var i := IndexOf(sibs, ref);
      if i == -1 then None
      else gen(if i > 0 then sibs[i - 1].dayOrder else "", sibs[i].dayOrder)
    case After(ref) =>
      var i := IndexOf(sibs, ref);
      if i == -1 then None
      else gen(sibs[i].dayOrder, if i < |sibs| - 1 then sibs[i + 1].dayOrder else "")
  }

  /** The records of a list without the one that moves. */
  function Without(rs: seq<Record>, id: string): seq<Record> {
    if rs == [] then []
    else if rs[0].id == id then Without(rs[1..], id)
    else [rs[0]] + Without(rs[1..], id)
  }

  lemma {:induction false} WithoutExactly(rs: seq<Record>, id: string)
    ensures forall x :: x in Without(rs, id) <==> x in rs && x.id != id
  {
    if rs != [] {
      WithoutExactly(rs[1..], id);
    }
  }

  lemma {:induction false} WithoutNext(rs: seq<Record>, id: string, i: nat, before: seq<Record>)
    requires i < |rs|
    ensures before + Without(rs[i..], id) ==
      (if rs[i].id == id then before else before + [rs[i]]) + Without(rs[i + 1..], id)
  {
    assert rs[i..][0] == rs[i] && rs[i..][1..] == rs[i + 1..];
    var rest := Without(rs[i + 1..], id);
    assert (before + [rs[i]]) + rest == before + ([rs[i]] + rest);
  }

  /** cli.computeDayOrder filters the record that moves out of the list in a loop. */
  method FilterOut(records: seq<Record>, excludeId: string) returns (filtered: seq<Record>)
    ensures filtered == Without(records, excludeId)
  {
    filtered := [];
    for i := 0 to |records|
      invariant filtered + Without(records[i..], excludeId) == Without(records, excludeId)
    {
      WithoutNext(records, excludeId, i, filtered);
      if records[i].id != excludeId {
        filtered := filtered + [records[i]];
      }
    }
  }

  /** The loop that looks for the reference record. */
  method FindReference(rs: seq<Record>, id: string) returns (i: int)
    ensures i == IndexOf(rs, id)
  {
    for j := 0 to |rs|
      invariant forall k :: 0 <= k < j ==> rs[k].id != id
    {
      if rs[j].id == id {
        FirstIndex(rs, id, j);
        return j;
      }
    }
    return -1;
  }

  /** cli.computeDayOrder computes what the server computes on the same siblings. */
  method ComputeDayOrder(gen: Gen, records: seq<Record>, excludeId: string, pos: Position) returns (key: Option<string>)
    ensures key == ServerKey(gen, Without(records, excludeId), pos)
  {
    var filtered := FilterOut(records, excludeId);
    if |filtered| == 0 {
      return if pos.Before? || pos.After? then None else gen("", "");
    }
    match pos {
      case First => key := gen("", filtered[0].dayOrder);
      case Last => key := gen(filtered[|filtered| - 1].dayOrder, "");
      case Before(ref) =>
        var i := FindReference(filtered, ref);
        if i == -1 {
          key := None;
        } else if i == 0 {
          key := gen("", filtered[i].dayOrder);
        } else {
          key := gen(filtered[i - 1].dayOrder, filtered[i].dayOrder);
        }
      case After(ref) =>
        var i := FindReference(filtered, ref);
        if i == -1 {
          key := None;
        } else if i == |filtered| - 1 {
          key := gen(filtered[i].dayOrder, "");
        } else {
          key := gen(filtered[i].dayOrder, filtered[i + 1].dayOrder);
        }
    }
  }

  lemma {:induction false} FirstIndex(rs: seq<Record>, id: string, i: nat)
    requires i < |rs| && rs[i].id == id && forall j :: 0 <= j < i ==> rs[j].id != id
    ensures IndexOf(rs, id) == i
  {
    if i > 0 {
      assert rs[0].id != id;
      FirstIndex(rs[1..], id, i - 1);
    }
  }

  // ----- placing refines list insertion

  /** Siblings of one date in their order, with valid keys that strictly increase. */
  ghost predicate Siblings(sibs: seq<Record>, date: string, valid: string -> bool) {
    && DistinctIds(sibs)
    && (forall r :: r in sibs ==> r.date == date && r.dayOrder != "" && valid(r.dayOrder))
    && (forall i, j :: 0 <= i < j < |sibs| ==> Less(sibs[i].dayOrder, sibs[j].dayOrder))
  }

  /** The place that a position asks for. */
  function PlaceOf(sibs: seq<Record>, pos: Position): (i: int)
    ensures -1 <= i <= |sibs|
  {
    match pos
    case First => 0
    case Last => |sibs|
    case Before(ref) => IndexOf(sibs, ref)
    case After(ref) => if IndexOf(sibs, ref) == -1 then -1 else IndexOf(sibs, ref) + 1
  }

  /** The key lies strictly between the keys on either side of the place. */
  lemma {:induction false} KeyFitsPlace(gen: Gen, valid: string -> bool, sibs: seq<Record>, date: string, pos: Position)
    requires Between(gen, valid) && Siblings(sibs, date, valid)
    ensures var k, i := ServerKey(gen, sibs, pos), PlaceOf(sibs, pos);
      && (k.None? <==> i == -1)
      && (k.Some? ==>
            && k.value != "" && valid(k.value)
            && (i > 0 ==> Less(sibs[i - 1].dayOrder, k.value))
            && (i < |sibs| ==> Less(k.value, sibs[i].dayOrder)))
  {
    var i := PlaceOf(sibs, pos);
    if i >= 0 {
      var a := if i > 0 then sibs[i - 1].dayOrder else "";
      var b := if i < |sibs| then sibs[i].dayOrder else "";
      assert i > 0 ==> sibs[i - 1] in sibs;
      assert i < |sibs| ==> sibs[i] in sibs;
      assert InOrder(a, b);
      assert ServerKey(gen, sibs, pos) == gen(a, b);
    }
  }

  lemma {:induction false} KeyApart(sibs: seq<Record>, i: nat, k: string)
    requires i <= |sibs| && k != ""
    requires forall a, b :: 0 <= a < b < |sibs| ==> Less(sibs[a].dayOrder, sibs[b].dayOrder)
    requires i > 0 ==> Less(sibs[i - 1].dayOrder, k)
    requires i < |sibs| ==> Less(k, sibs[i].dayOrder)
    ensures forall j :: 0 <= j < |sibs| ==> if j < i then Less(sibs[j].dayOrder, k) else Less(k, sibs[j].dayOrder)
  {
    forall j | 0 <= j < |sibs| ensures if j < i then Less(sibs[j].dayOrder, k) else Less(k, sibs[j].dayOrder) {
      if j < i - 1 {
        LessTransitive(sibs[j].dayOrder, sibs[i - 1].dayOrder, k);
      } else if j > i {
        LessTransitive(k, sibs[i].dayOrder, sibs[j].dayOrder);
      }
    }
  }

  lemma {:induction false} IncreasingIsSorted(rs: seq<Record>, date: string)
    requires forall r :: r in rs ==> r.date == date
    requires forall i, j :: 0 <= i < j < |rs| ==> Less(rs[i].dayOrder, rs[j].dayOrder)
    ensures Sorted(rs)
  {
    forall i, j | 0 <= i < j < |rs| ensures Precedes(rs[i], rs[j]) {
      assert rs[i] in rs && rs[j] in rs;
      LessTotal(date, date);
      LessTotal(rs[i].dayOrder, rs[j].dayOrder);
    }
  }

  /** A list with a record put in at a place. */
  function PutIn(rs: seq<Record>, i: nat, r: Record): seq<Record>
    requires i <= |rs|
  {
    rs[..i] + [r] + rs[i..]
  }

  lemma {:induction false} PutInKeepsSiblings(sibs: seq<Record>, date: string, valid: string -> bool, i: nat, r: Record)
    requires Siblings(sibs, date, valid) && i <= |sibs|
    requires r.date == date && r.dayOrder != "" && valid(r.dayOrder) && forall s :: s in sibs ==> s.id != r.id
    requires i > 0 ==> Less(sibs[i - 1].dayOrder, r.dayOrder)
    requires i < |sibs| ==> Less(r.dayOrder, sibs[i].dayOrder)
    ensures Siblings(PutIn(sibs, i, r), date, valid)
  {
    var out := PutIn(sibs, i, r);
    KeyApart(sibs, i, r.dayOrder);
    InsertedMembers(sibs, i, r);
    forall a, b | 0 <= a < b < |out| ensures Less(out[a].dayOrder, out[b].dayOrder) && out[a].id != out[b].id {
      PutInAt(sibs, i, r, a);
      PutInAt(sibs, i, r, b);
    }
  }

  lemma {:induction false} PutInAt(rs: seq<Record>, i: nat, r: Record, a: nat)
    requires i <= |rs| && a <= |rs|
    ensures PutIn(rs, i, r)[a] == if a < i then rs[a] else if a == i then r else rs[a - 1]
  {}

  /** Sorting the siblings together with the record under its new key gives the old list with the
      record at exactly the place asked for, and the keys still strictly increase. */
  lemma {:induction false} PlacingRefinesInsertion(
    gen: Gen, valid: string -> bool, sibs: seq<Record>, date: string, pos: Position, r: Record)
    requires Between(gen, valid) && Siblings(sibs, date, valid)
    requires r.date == date && forall s :: s in sibs ==> s.id != r.id
    ensures var k, i := ServerKey(gen, sibs, pos), PlaceOf(sibs, pos);
      && (k.Some? <==> i >= 0)
      && (k.Some? ==>
            var placed := r.(dayOrder := k.value);
            && Sort(sibs + [placed]) == PutIn(sibs, i, placed)
            && Siblings(PutIn(sibs, i, placed), date, valid))
  {
    KeyFitsPlace(gen, valid, sibs, date, pos);
    var k, i := ServerKey(gen, sibs, pos), PlaceOf(sibs, pos);
    if k.Some? {
      var placed := r.(dayOrder := k.value);
      PutInKeepsSiblings(sibs, date, valid, i, placed);
      IncreasingIsSorted(PutIn(sibs, i, placed), date);
      InsertedMembers(sibs, i, placed);
      SortIsSame(sibs + [placed], PutIn(sibs, i, placed));
    }
  }

  lemma {:induction false} InsertedMembers(sibs: seq<Record>, i: nat, placed: Record)
    requires i <= |sibs|
    ensures forall x :: x in sibs + [placed] <==> x in PutIn(sibs, i, placed)
  {
    assert sibs == sibs[..i] + sibs[i..];
  }

  // ----- a generator

  /** Keys of 0 and 1 that end in 1. */
  predicate BinaryKey(k: string) { k != "" && k[|k| - 1] == '1' && forall c :: c in k ==> c == '0' || c == '1' }

  function BinaryGen(a: string, b: string): Option<string> {
    Some(if b != "" && a <= b then b[..|b| - 1] + "01" else a + "1")
  }

  lemma {:induction false} LessExtended(a: string, t: string)
    requires t != ""
    ensures Less(a, a + t)
  {
    if a != "" {
      assert (a + t)[0] == a[0] && (a + t)[1..] == a[1..] + t;
      LessExtended(a[1..], t);
    }
  }

  /** What is less, and not because it is a beginning, stays so however it goes on. */
  lemma {:induction false} StaysLess(a: string, b: string, t: string)
    requires Less(a, b) && !(a <= b)
    ensures Less(a + t, b)
  {
    if a[0] == b[0] {
      assert (a + t)[1..] == a[1..] + t && (a + t)[0] == a[0];
      assert a[1..] <= b[1..] ==> a <= b;
      StaysLess(a[1..], b[1..], t);
    }
  }

  lemma {:induction false} LessAtLast(c: string)
    ensures Less(c + "01", c + "1")
  {
    if c != "" {
      assert (c + "01")[1..] == c[1..] + "01" && (c + "1")[1..] == c[1..] + "1";
      LessAtLast(c[1..]);
    }
  }

  lemma {:induction false} KeyBefore(a: string, b: string)
    requires BinaryKey(b) && a <= b && a != b
    ensures var k := b[..|b| - 1] + "01"; BinaryKey(k) && Less(a, k) && Less(k, b)
  {
    var c := b[..|b| - 1];
    assert b == c + "1";
    assert forall x :: x in c ==> x in b;
    LessAtLast(c);
    assert a <= c;
    LessExtended(a, c[|a|..] + "01");
    assert a + (c[|a|..] + "01") == c + "01";
  }

  lemma {:induction false} KeyAfter(a: string, b: string)
    requires (a == "" || BinaryKey(a)) && (b == "" || (Less(a, b) && !(a <= b)))
    ensures var k := a + "1"; BinaryKey(k) && Less(a, k) && (b != "" ==> Less(k, b))
  {
    LessExtended(a, "1");
    if b != "" {
      StaysLess(a, b, "1");
    }
  }

  /** What is asked of a generator can be had: there is always a key of 0 and 1 between two such. */
  lemma {:induction false} BetweenCanBeMet()
    ensures Between(BinaryGen, BinaryKey)
  {
    forall a, b | (a == "" || BinaryKey(a)) && (b == "" || BinaryKey(b)) && InOrder(a, b)
      ensures var k := BinaryGen(a, b).value;
        && k != "" && BinaryKey(k) && (a != "" ==> Less(a, k)) && (b != "" ==> Less(k, b))
    {
      LessTotal(a, a);
      if b != "" && a <= b {
        KeyBefore(a, b);
      } else {
        KeyAfter(a, b);
      }
    }
  }
}
