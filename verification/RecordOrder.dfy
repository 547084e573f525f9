/**
 The canonical order of records: newest date first, then day order, then id. Three comparisons in
 the code spell it out; they agree, and on records with ids of their own it is a strict total order
 in which a list can be sorted in one way only.
 */
module RecordOrder {
  import Sorting

  datatype Record = Record(id: string, date: string, dayOrder: string, deleted: bool)

  /** A cursor is the sort key of a record. */
  datatype Cursor = Cursor(date: string, dayOrder: string, id: string)

  function KeyOf(r: Record): Cursor { Cursor(r.date, r.dayOrder, r.id) }

  /** Strings in the order of their characters. */
  predicate Less(a: string, b: string) {
    b != "" && (a == "" || a[0] < b[0] || (a[0] == b[0] && Less(a[1..], b[1..])))
  }

  lemma {:induction false} LessTotal(a: string, b: string)
    ensures Less(a, b) || a == b || Less(b, a)
    ensures !(Less(a, b) && Less(b, a))
    ensures !Less(a, a)
  {
    if a != "" {
      LessTotal(a[1..], a[1..]);
      if b != "" {
        LessTotal(a[1..], b[1..]);
        if a[0] == b[0] && a[1..] == b[1..] {
          assert a == [a[0]] + a[1..] && b == [b[0]] + b[1..];
        }
      }
    }
  }

  lemma {:induction false} LessTransitive(a: string, b: string, c: string)
    requires Less(a, b) && Less(b, c)
    ensures Less(a, c)
  {
    if a != "" && a[0] == b[0] && b[0] == c[0] {
      LessTransitive(a[1..], b[1..], c[1..]);
    }
  }

  // ----- three comparisons

  /** listpage.IsAfterCursor */
  predicate IsAfterCursor(r: Record, c: Cursor) {
    if r.date != c.date then Less(r.date, c.date)
    else if r.dayOrder != c.dayOrder then Less(c.dayOrder, r.dayOrder)
    else Less(c.id, r.id)
  }

  /** serve.compareRecordsForAPI */
  function CompareForAPI(a: Record, b: Record): int {
    if Less(b.date, a.date) then -1
    else if Less(a.date, b.date) then 1
    else if Less(a.dayOrder, b.dayOrder) then -1
    else if Less(b.dayOrder, a.dayOrder) then 1
    else if Less(a.id, b.id) then -1
    else if Less(b.id, a.id) then 1
    else 0
  }

  function StringCompare(a: string, b: string): int { if a == b then 0 else if Less(a, b) then -1 else 1 }

  /** cli.compareRecordsForDiscovery */
  function CompareForDiscovery(a: Record, b: Record): int {
    if StringCompare(b.date, a.date) != 0 then StringCompare(b.date, a.date)
    else if StringCompare(a.dayOrder, b.dayOrder) != 0 then StringCompare(a.dayOrder, b.dayOrder)
    else StringCompare(a.id, b.id)
  }

  /** serve.compareRecordsByDayOrder */
  function CompareByDayOrder(a: Record, b: Record): int {
    if Less(a.dayOrder, b.dayOrder) then -1
    else if Less(b.dayOrder, a.dayOrder) then 1
    else if Less(a.id, b.id) then -1
    else if Less(b.id, a.id) then 1
    else 0
  }

  /** The server's order, the command line's order and the cursor test are one and the same, and so
      is the order of siblings among records of one date. */
  lemma {:induction false} ComparisonsAgree(a: Record, b: Record)
    ensures CompareForAPI(a, b) == CompareForDiscovery(a, b)
    ensures CompareForAPI(a, b) < 0 <==> IsAfterCursor(b, KeyOf(a))
    ensures CompareForAPI(a, b) == 0 <==> KeyOf(a) == KeyOf(b)
    ensures CompareForAPI(b, a) == -CompareForAPI(a, b)
    ensures a.date == b.date ==> CompareByDayOrder(a, b) == CompareForAPI(a, b)
  {
    LessTotal(a.date, b.date);
    LessTotal(a.dayOrder, b.dayOrder);
    LessTotal(a.id, b.id);
  }

  predicate Precedes(a: Record, b: Record) { CompareForAPI(a, b) < 0 }

  lemma {:induction false} AfterTransitive(a: Record, b: Record, c: Cursor)
    requires IsAfterCursor(b, c) && IsAfterCursor(a, KeyOf(b))
    ensures IsAfterCursor(a, c)
  {
    LessTotal(a.date, b.date);
    LessTotal(b.date, c.date);
    LessTotal(a.dayOrder, b.dayOrder);
    LessTotal(b.dayOrder, c.dayOrder);
    if Less(b.date, c.date) && Less(a.date, b.date) {
      LessTransitive(a.date, b.date, c.date);
      LessTotal(a.date, c.date);
    } else if Less(c.dayOrder, b.dayOrder) && Less(b.dayOrder, a.dayOrder) {
      LessTransitive(c.dayOrder, b.dayOrder, a.dayOrder);
      LessTotal(a.dayOrder, c.dayOrder);
    } else if Less(c.id, b.id) && Less(b.id, a.id) {
      LessTransitive(c.id, b.id, a.id);
    }
  }

  lemma {:induction false} PrecedesTransitive(a: Record, b: Record, c: Record)
    requires Precedes(a, b) && Precedes(b, c)
    ensures Precedes(a, c)
  {
    ComparisonsAgree(a, b);
    ComparisonsAgree(b, c);
    ComparisonsAgree(a, c);
    AfterTransitive(c, b, KeyOf(a));
  }

  // ----- sorting

  ghost predicate Sorted(rs: seq<Record>) { forall i, j :: 0 <= i < j < |rs| ==> Precedes(rs[i], rs[j]) }

  ghost predicate DistinctIds(rs: seq<Record>) { forall i, j :: 0 <= i < j < |rs| ==> rs[i].id != rs[j].id }

  /** What sorting with these comparisons makes of a list. */
  function Sort(rs: seq<Record>): (out: seq<Record>)
    ensures forall x :: x in out <==> x in rs
    ensures |out| == |rs|
  {
    Sorting.Sort(rs, Precedes)
  }

  lemma {:induction false} PrecedesOrders()
    ensures Sorting.Orders(Precedes, (r: Record) => r.id)
  {
    forall a, b ensures !Precedes(a, a) && (Precedes(a, b) || Precedes(b, a) || a.id == b.id) {
      ComparisonsAgree(a, a);
      ComparisonsAgree(a, b);
    }
    forall a, b, c | Precedes(a, b) && Precedes(b, c) ensures Precedes(a, c) {
      PrecedesTransitive(a, b, c);
    }
  }

  lemma {:induction false} SortSorts(rs: seq<Record>)
    requires DistinctIds(rs)
    ensures Sorted(Sort(rs))
  {
    PrecedesOrders();
    Sorting.SortSorts(rs, Precedes, (r: Record) => r.id);
  }

  /** A set of records with ids of their own has one sorted list. */
  lemma {:induction false} SortIsSame(rs: seq<Record>, sorted: seq<Record>)
    requires DistinctIds(rs) && Sorted(sorted) && forall x :: x in rs <==> x in sorted
    ensures Sort(rs) == sorted
  {
    PrecedesOrders();
    SortSorts(rs);
    Sorting.SortedUnique(Sort(rs), sorted, Precedes, (r: Record) => r.id);
  }
}
