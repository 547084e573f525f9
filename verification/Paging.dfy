/**
 Record lists in pages: sort, drop what is not after the cursor, cut at the limit, and hand out the
 last record's key as the next cursor. Following the cursors enumerates each record once, even when
 the store changes between the pages.
 */
module Paging {
  import opened Common
  import opened RecordOrder

  datatype Page = Page(items: seq<Record>, next: Option<Cursor>)

  /** applyRecordCursor: the suffix from the first record after the cursor. */
  function AfterCursor(rs: seq<Record>, cursor: Option<Cursor>): seq<Record> {
    if cursor.None? || rs == [] || IsAfterCursor(rs[0], cursor.value) then rs
    else AfterCursor(rs[1..], cursor)
  }

  /** One page of the records that match the request, in whatever order the repository has them. */
  function PageOf(records: seq<Record>, cursor: Option<Cursor>, limit: nat): Page
    requires limit >= 1
  {
    var rest := AfterCursor(Sort(records), cursor);
    if |rest| > limit then Page(rest[..limit], Some(KeyOf(rest[limit - 1]))) else Page(rest, None)
  }

  /** DecodeCursor refuses a cursor with an empty part. */
  predicate Decodable(c: Cursor) { c.date != "" && c.dayOrder != "" && c.id != "" }

  /** handleListRecords and runList: the sort and the cuts as the code makes them. */
  method ListPage(records: seq<Record>, cursor: Option<Cursor>, limit: nat) returns (page: Page)
    requires limit >= 1
    ensures page == PageOf(records, cursor, limit)
  {
    var sorted := Sort(records);
    var rest := sorted;
    if cursor.Some? {
      var start := 0;
      assert sorted[start..] == sorted;
      while start < |sorted| && !IsAfterCursor(sorted[start], cursor.value)
        invariant start <= |sorted|
        invariant AfterCursor(sorted[start..], cursor) == AfterCursor(sorted, cursor)
      {
        start := start + 1;
      }
      rest := if start == |sorted| then [] else sorted[start..];
    }
    var full := rest;
    if |rest| > limit + 1 {
      rest := rest[..limit + 1];
    }
    var hasNextPage := |rest| > limit;
    var items := if hasNextPage then rest[..limit] else rest;
    assert hasNextPage ==> items == full[..limit];
    if hasNextPage && |items| > 0 {
      page := Page(items, Some(KeyOf(items[|items| - 1])));
    } else {
      page := Page(items, None);
    }
  }

  // ----- a page, record by record

  lemma {:induction false} AfterCursorExactly(rs: seq<Record>, cursor: Option<Cursor>, r: Record)
    requires Sorted(rs)
    ensures var rest := AfterCursor(rs, cursor);
      && Sorted(rest)
      && (r in rest <==> r in rs && (cursor.None? || IsAfterCursor(r, cursor.value)))
  {
    if cursor.Some? && rs != [] {
      if IsAfterCursor(rs[0], cursor.value) {
        if r in rs {
          var i :| 0 <= i < |rs| && rs[i] == r;
          if i > 0 {
            ComparisonsAgree(rs[0], r);
            AfterTransitive(r, rs[0], cursor.value);
          }
        }
      } else {
        AfterCursorExactly(rs[1..], cursor, r);
      }
    }
  }

  /** A record is on a page exactly when it lies after the page's cursor and not after the next. */
  lemma {:induction false} OnPageExactly(records: seq<Record>, cursor: Option<Cursor>, limit: nat, r: Record)
    requires limit >= 1 && DistinctIds(records)
    ensures var page := PageOf(records, cursor, limit);
      r in page.items <==>
        && r in records
        && (cursor.None? || IsAfterCursor(r, cursor.value))
        && (page.next.None? || !IsAfterCursor(r, page.next.value))
  {
    SortSorts(records);
    AfterCursorExactly(Sort(records), cursor, r);
    var rest := AfterCursor(Sort(records), cursor);
    if |rest| > limit && r in rest {
      var last := rest[limit - 1];
      var i :| 0 <= i < |rest| && rest[i] == r;
      ComparisonsAgree(last, r);
      assert i < limit ==> r == rest[..limit][i];
      if i >= limit {
        assert Precedes(last, r);
        ComparisonsAgree(r, r);
        assert forall j :: 0 <= j < limit ==> Precedes(rest[..limit][j], rest[i]);
      } else if i < limit - 1 {
        assert Precedes(r, last);
      }
    }
  }

  /** A page is sorted, has no more than the limit, and its next cursor lies after its own. */
  lemma {:induction false} PageAdvances(records: seq<Record>, cursor: Option<Cursor>, limit: nat)
    requires limit >= 1 && DistinctIds(records)
    ensures var page := PageOf(records, cursor, limit);
      && Sorted(page.items) && |page.items| <= limit
      && (page.next.Some? ==>
            && exists last :: last in records && KeyOf(last) == page.next.value
                 && (cursor.None? || IsAfterCursor(last, cursor.value)))
  {
    SortSorts(records);
    var rest := AfterCursor(Sort(records), cursor);
    if |rest| > limit {
      AfterCursorExactly(Sort(records), cursor, rest[limit - 1]);
    } else {
      AfterCursorExactly(Sort(records), cursor, Record("", "", "", false));
    }
    if rest != [] {
      AfterCursorExactly(Sort(records), cursor, rest[0]);
    }
  }

  // ----- an unchanging store

  lemma {:induction false} CursorOfPage(rs: seq<Record>, n: nat)
    requires Sorted(rs) && 0 < n <= |rs|
    ensures AfterCursor(rs, Some(KeyOf(rs[n - 1]))) == rs[n..]
  {
    var c := Some(KeyOf(rs[n - 1]));
    ComparisonsAgree(rs[n - 1], rs[0]);
    if n == 1 {
      if |rs| > 1 {
        assert Precedes(rs[0], rs[1]);
        ComparisonsAgree(rs[0], rs[1]);
        assert AfterCursor(rs, c) == AfterCursor(rs[1..], c) == rs[1..];
      }
    } else {
      assert Precedes(rs[0], rs[n - 1]);
      ComparisonsAgree(rs[0], rs[n - 1]);
      CursorOfPage(rs[1..], n - 1);
      assert rs[1..][n - 2] == rs[n - 1] && rs[1..][n - 1..] == rs[n..];
    }
  }

  /** What a sequence of requests gets from something that serves pages: the pages joined. It fails
      when a cursor is refused or the requests do not suffice. */
  function Follow(serve: Option<Cursor> -> Page, cursor: Option<Cursor>, requests: nat): Option<seq<Record>>
    decreases requests
  {
    if requests == 0 then None
    else
      var page := serve(cursor);
      if page.next.None? then Some(page.items)
      else if !Decodable(page.next.value) then None
      else
        var rest := Follow(serve, page.next, requests - 1);
        if rest.None? then None else Some(page.items + rest.value)
  }

  /** What serves the pages of an unchanging store. */
  function Server(records: seq<Record>, limit: nat): Option<Cursor> -> Page
    requires limit >= 1
  {
    cursor => PageOf(records, cursor, limit)
  }

  /** The pages of an unchanging store. */
  function Enumerate(records: seq<Record>, limit: nat, requests: nat): Option<seq<Record>>
    requires limit >= 1
  {
    Follow(Server(records, limit), None, requests)
  }

  /** The cursor of the record before place `from`. */
  function CursorBefore(sorted: seq<Record>, from: nat): Option<Cursor>
    requires from <= |sorted|
  {
    if from == 0 then None else Some(KeyOf(sorted[from - 1]))
  }

  /** The page that begins at place `from` of a list. */
  function PageFrom(sorted: seq<Record>, limit: nat, from: nat): Page
    requires limit >= 1 && from <= |sorted|
  {
    if |sorted| - from > limit then Page(sorted[from..from + limit], CursorBefore(sorted, from + limit))
    else Page(sorted[from..], None)
  }

  ghost predicate ServesAt(serve: Option<Cursor> -> Page, sorted: seq<Record>, limit: nat, k: nat)
    requires limit >= 1 && k <= |sorted|
  {
    serve(CursorBefore(sorted, k)) == PageFrom(sorted, limit, k)
  }

  /** Each cursor gets the page that begins after it. */
  ghost predicate Serves(serve: Option<Cursor> -> Page, sorted: seq<Record>, limit: nat)
    requires limit >= 1
  {
    forall k: nat | k <= |sorted| :: ServesAt(serve, sorted, limit, k)
  }

  lemma {:induction false} PageIsFrom(records: seq<Record>, limit: nat, from: nat)
    requires limit >= 1 && DistinctIds(records) && from <= |Sort(records)|
    ensures PageOf(records, CursorBefore(Sort(records), from), limit) == PageFrom(Sort(records), limit, from)
  {
    SortSorts(records);
    var sorted := Sort(records);
    if from > 0 {
      CursorOfPage(sorted, from);
    } else {
      assert sorted[0..] == sorted;
    }
    if |sorted| - from > limit {
      assert sorted[from..][..limit] == sorted[from..from + limit];
    }
  }

  lemma {:induction false} FollowFrom(
    serve: Option<Cursor> -> Page, sorted: seq<Record>, limit: nat, from: nat, requests: nat)
    requires limit >= 1 && from <= |sorted| && |sorted| - from < requests
    requires forall r :: r in sorted ==> Decodable(KeyOf(r))
    requires Serves(serve, sorted, limit)
    ensures Follow(serve, CursorBefore(sorted, from), requests) == Some(sorted[from..])
    decreases requests
  {
    var page := serve(CursorBefore(sorted, from));
    assert ServesAt(serve, sorted, limit, from);
    if |sorted| - from > limit {
      assert sorted[from + limit - 1] in sorted;
      assert page.next.Some? && Decodable(page.next.value);
      FollowFrom(serve, sorted, limit, from + limit, requests - 1);
      assert sorted[from..from + limit] + sorted[from + limit..] == sorted[from..];
    }
  }

  /** Following the cursors of an unchanging store ends within one request more than there are
      records, and the pages make up the sorted list: every record, once, in order. */
  lemma {:induction false} PagesEnumerateAll(records: seq<Record>, limit: nat, requests: nat)
    requires limit >= 1 && DistinctIds(records) && |records| < requests
    requires forall r :: r in records ==> Decodable(KeyOf(r))
    ensures Enumerate(records, limit, requests) == Some(Sort(records))
    ensures Sorted(Sort(records)) && forall r :: r in Sort(records) <==> r in records
  {
    var sorted := Sort(records);
    SortSorts(records);
    forall k: nat | k <= |sorted|
      ensures ServesAt(Server(records, limit), sorted, limit, k)
    {
      PageIsFrom(records, limit, k);
    }
    FollowFrom(Server(records, limit), sorted, limit, 0, requests);
    assert sorted[0..] == sorted;
  }

  // ----- a store that changes between the pages

  /** The cursor each request is made with: the one the request before it has returned. */
  function CursorAt(stores: seq<seq<Record>>, limit: nat, i: nat): Option<Cursor>
    requires limit >= 1 && i <= |stores|
  {
    if i == 0 then None else PageOf(stores[i - 1], CursorAt(stores, limit, i - 1), limit).next
  }

  function PageAt(stores: seq<seq<Record>>, limit: nat, i: nat): Page
    requires limit >= 1 && i < |stores|
  {
    PageOf(stores[i], CursorAt(stores, limit, i), limit)
  }

  /** The request at place i has a cursor that the server accepts. */
  ghost predicate GoesOn(stores: seq<seq<Record>>, limit: nat, i: nat)
    requires limit >= 1 && i <= |stores|
  {
    CursorAt(stores, limit, i).Some? && Decodable(CursorAt(stores, limit, i).value)
  }

  /** Every page but the last has a next cursor that the server accepts. */
  ghost predicate Session(stores: seq<seq<Record>>, limit: nat)
    requires limit >= 1
  {
    && stores != []
    && (forall i :: 0 <= i < |stores| ==> DistinctIds(stores[i]))
    && (forall i :: 0 < i < |stores| ==> GoesOn(stores, limit, i))
    && CursorAt(stores, limit, |stores|) == None
  }

  /** The record lies after the cursor of request i. */
  ghost predicate Beyond(stores: seq<seq<Record>>, limit: nat, i: nat, r: Record)
    requires limit >= 1 && i <= |stores|
  {
    var cursor := CursorAt(stores, limit, i);
    cursor.None? || IsAfterCursor(r, cursor.value)
  }

  ghost predicate OnPage(stores: seq<seq<Record>>, limit: nat, i: nat, r: Record)
    requires limit >= 1 && i < |stores|
  {
    r in PageAt(stores, limit, i).items
  }

  lemma {:induction false} OnPageOfSession(stores: seq<seq<Record>>, limit: nat, i: nat, r: Record)
    requires limit >= 1 && Session(stores, limit) && i < |stores|
    ensures OnPage(stores, limit, i, r) <==>
      r in stores[i] && Beyond(stores, limit, i, r) && !(i + 1 < |stores| && Beyond(stores, limit, i + 1, r))
  {
    OnPageExactly(stores[i], CursorAt(stores, limit, i), limit, r);
    assert CursorAt(stores, limit, i + 1) == PageAt(stores, limit, i).next;
    assert i + 1 < |stores| ==> GoesOn(stores, limit, i + 1);
  }

  lemma {:induction false} NextCursorAdvances(records: seq<Record>, cursor: Option<Cursor>, limit: nat, r: Record)
    requires limit >= 1 && DistinctIds(records)
    requires var next := PageOf(records, cursor, limit).next; next.Some? && IsAfterCursor(r, next.value)
    ensures cursor.None? || IsAfterCursor(r, cursor.value)
  {
    var page := PageOf(records, cursor, limit);
    PageAdvances(records, cursor, limit);
    if cursor.Some? {
      var last :| last in records && KeyOf(last) == page.next.value && IsAfterCursor(last, cursor.value);
      AfterTransitive(r, last, cursor.value);
    }
  }

  lemma {:induction false} BeyondOneBefore(stores: seq<seq<Record>>, limit: nat, i: nat, r: Record)
    requires limit >= 1 && Session(stores, limit) && i + 1 < |stores| && Beyond(stores, limit, i + 1, r)
    ensures Beyond(stores, limit, i, r)
  {
    assert GoesOn(stores, limit, i + 1);
    NextCursorAdvances(stores[i], CursorAt(stores, limit, i), limit, r);
  }

  ghost predicate StepsDown(p: nat -> bool, k: nat) { k > 0 && p(k) ==> p(k - 1) }

  lemma {:induction false} Downwards(p: nat -> bool, i: nat, j: nat)
    requires i <= j && p(j) && forall k: nat :: i < k <= j ==> StepsDown(p, k)
    ensures p(i)
    decreases j
  {
    if i < j {
      assert StepsDown(p, j);
      Downwards(p, i, j - 1);
    }
  }

  /** Later cursors lie further on. */
  lemma {:induction false} CursorsAdvance(stores: seq<seq<Record>>, limit: nat, i: nat, j: nat, r: Record)
    requires limit >= 1 && Session(stores, limit) && i <= j < |stores| && Beyond(stores, limit, j, r)
    ensures Beyond(stores, limit, i, r)
  {
    ghost var p: nat -> bool := (k: nat) => k < |stores| && Beyond(stores, limit, k, r);
    forall k: nat | i < k <= j ensures StepsDown(p, k) {
      if p(k) {
        BeyondOneBefore(stores, limit, k - 1, r);
      }
    }
    Downwards(p, i, j);
  }

  ghost predicate StepsUp(on: nat -> bool, ahead: nat -> bool, n: nat, k: nat) {
    ahead(k) ==> on(k) || (k + 1 < n && ahead(k + 1))
  }

  lemma {:induction false} Somewhere(on: nat -> bool, ahead: nat -> bool, n: nat, i: nat) returns (k: nat)
    requires i < n && ahead(i) && forall k: nat :: k < n ==> StepsUp(on, ahead, n, k)
    ensures k < n && on(k)
    decreases n - i
  {
    assert StepsUp(on, ahead, n, i);
    if on(i) {
      k := i;
    } else {
      k := Somewhere(on, ahead, n, i + 1);
    }
  }

  lemma {:induction false} OnSomePage(stores: seq<seq<Record>>, limit: nat, r: Record) returns (k: nat)
    requires limit >= 1 && Session(stores, limit)
    requires forall j :: 0 <= j < |stores| ==> r in stores[j]
    ensures k < |stores| && OnPage(stores, limit, k, r)
  {
    ghost var on: nat -> bool := (j: nat) => j < |stores| && OnPage(stores, limit, j, r);
    ghost var ahead: nat -> bool := (j: nat) => j < |stores| && Beyond(stores, limit, j, r);
    forall j: nat | j < |stores| ensures StepsUp(on, ahead, |stores|, j) {
      OnPageOfSession(stores, limit, j, r);
    }
    assert Beyond(stores, limit, 0, r);
    k := Somewhere(on, ahead, |stores|, 0);
  }

  lemma {:induction false} NotOnTwoPages(stores: seq<seq<Record>>, limit: nat, i: nat, j: nat, r: Record)
    requires limit >= 1 && Session(stores, limit) && i < j < |stores|
    ensures !(OnPage(stores, limit, i, r) && OnPage(stores, limit, j, r))
  {
    OnPageOfSession(stores, limit, i, r);
    OnPageOfSession(stores, limit, j, r);
    if OnPage(stores, limit, j, r) {
      CursorsAdvance(stores, limit, i + 1, j, r);
    }
  }

  /** Each request of a session meets a store of its own: records come and go between the pages. A
      record that is in all of them is on exactly one page, and there once. */
  lemma {:induction false} UntouchedRecordOnce(stores: seq<seq<Record>>, limit: nat, r: Record)
    requires limit >= 1 && Session(stores, limit)
    requires forall j :: 0 <= j < |stores| ==> r in stores[j]
    ensures exists k ::
      && 0 <= k < |stores| && r in PageAt(stores, limit, k).items && Sorted(PageAt(stores, limit, k).items)
      && forall j :: 0 <= j < |stores| && j != k ==> r !in PageAt(stores, limit, j).items
  {
    var k := OnSomePage(stores, limit, r);
    forall j | 0 <= j < |stores| && j != k ensures r !in PageAt(stores, limit, j).items {
      assert OnPage(stores, limit, k, r);
      if j < k {
        NotOnTwoPages(stores, limit, j, k, r);
      } else {
        NotOnTwoPages(stores, limit, k, j, r);
      }
    }
    PageAdvances(stores[k], CursorAt(stores, limit, k), limit);
  }
}
