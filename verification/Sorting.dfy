/** Sorting by an order that tells apart whatever has different keys. */
module Sorting {
  import opened Common

  /** A strict order; what it does not order has the same key. */
  ghost predicate Orders<T(!new), K(!new)>(less: (T, T) -> bool, key: T -> K) {
    && (forall a :: !less(a, a))
    && (forall a, b, c :: less(a, b) && less(b, c) ==> less(a, c))
    && (forall a, b :: less(a, b) || less(b, a) || key(a) == key(b))
  }

  ghost predicate DistinctKeys<T, K>(xs: seq<T>, key: T -> K) {
    forall i, j :: 0 <= i < j < |xs| ==> key(xs[i]) != key(xs[j])
  }

  ghost predicate Sorted<T(!new)>(xs: seq<T>, less: (T, T) -> bool) {
    forall i, j :: 0 <= i < j < |xs| ==> less(xs[i], xs[j])
  }

  function Insert<T(!new)>(xs: seq<T>, x: T, less: (T, T) -> bool): (out: seq<T>)
    ensures |out| == |xs| + 1 && forall y :: y in out <==> y == x || y in xs
  {
    if xs == [] then [x]
    else if less(xs[0], x) then [xs[0]] + Insert(xs[1..], x, less)
    else [x] + xs
  }

  function Sort<T(!new)>(xs: seq<T>, less: (T, T) -> bool): (out: seq<T>)
    ensures |out| == |xs| && forall y :: y in out <==> y in xs
  {
    if xs == [] then [] else Insert(Sort(xs[1..], less), xs[0], less)
  }

  lemma {:induction false} InsertSorts<T(!new), K(!new)>(xs: seq<T>, x: T, less: (T, T) -> bool, key: T -> K)
    requires Orders(less, key) && Sorted(xs, less) && forall y :: y in xs ==> key(y) != key(x)
    ensures Sorted(Insert(xs, x, less), less)
  {
    var out := Insert(xs, x, less);
    if xs != [] {
      assert xs[0] in xs;
      if less(xs[0], x) {
        InsertSorts(xs[1..], x, less, key);
        forall j | 0 < j < |out| ensures less(out[0], out[j]) {
          assert out[j] in Insert(xs[1..], x, less);
        }
      } else {
        forall j | 0 < j < |out| ensures less(x, out[j]) {
          assert j > 1 ==> less(xs[0], xs[j - 1]);
        }
      }
    }
  }

  lemma {:induction false} SortSorts<T(!new), K(!new)>(xs: seq<T>, less: (T, T) -> bool, key: T -> K)
    requires Orders(less, key) && DistinctKeys(xs, key)
    ensures Sorted(Sort(xs, less), less)
  {
    if xs != [] {
      SortSorts(xs[1..], less, key);
      InsertSorts(Sort(xs[1..], less), xs[0], less, key);
    }
  }

  lemma {:induction false} SortedTail<T(!new), K(!new)>(a: seq<T>, less: (T, T) -> bool, key: T -> K, x: T)
    requires Orders(less, key) && Sorted(a, less) && a != []
    ensures x in a[1..] <==> x in a && x != a[0]
  {
    if x in a[1..] {
      var i :| 0 <= i < |a[1..]| && a[1..][i] == x;
      assert less(a[0], a[i + 1]);
    }
  }

  lemma {:induction false} SortedHead<T(!new), K(!new)>(a: seq<T>, b: seq<T>, less: (T, T) -> bool, key: T -> K)
    requires Orders(less, key) && Sorted(a, less) && Sorted(b, less)
    requires a != [] && b != [] && a[0] in b && b[0] in a
    ensures a[0] == b[0]
  {
    var i :| 0 <= i < |b| && b[i] == a[0];
    var j :| 0 <= j < |a| && a[j] == b[0];
  }

  lemma HeadIsIn<T>(xs: seq<T>)
    ensures xs == [] || xs[0] in xs
  {}

  /** There is one sorted list of given elements. */
  lemma {:induction false} SortedUnique<T(!new), K(!new)>(a: seq<T>, b: seq<T>, less: (T, T) -> bool, key: T -> K)
    requires Orders(less, key) && Sorted(a, less) && Sorted(b, less) && forall x :: x in a <==> x in b
    ensures a == b
  {
    if a == [] {
      HeadIsIn(b);
    } else {
      assert a[0] in b && b != [] && b[0] in a;
      SortedHead(a, b, less, key);
      forall x ensures x in a[1..] <==> x in b[1..] {
        SortedTail(a, less, key, x);
        SortedTail(b, less, key, x);
      }
      SortedUnique(a[1..], b[1..], less, key);
    }
  }

  /** Sorting does not see the order it is given. */
  lemma {:induction false} SortIgnoresOrder<T(!new), K(!new)>(a: seq<T>, b: seq<T>, less: (T, T) -> bool, key: T -> K)
    requires Orders(less, key) && DistinctKeys(a, key) && DistinctKeys(b, key) && forall x :: x in a <==> x in b
    ensures Sort(a, less) == Sort(b, less)
  {
    SortSorts(a, less, key);
    SortSorts(b, less, key);
    SortedUnique(Sort(a, less), Sort(b, less), less, key);
  }

  lemma {:induction false} SortKeepsKeysDistinct<T(!new), K(!new)>(xs: seq<T>, less: (T, T) -> bool, key: T -> K)
    requires Orders(less, key) && DistinctKeys(xs, key)
    ensures DistinctKeys(Sort(xs, less), key)
  {
    SortSorts(xs, less, key);
    var out := Sort(xs, less);
    forall i, j | 0 <= i < j < |out| ensures key(out[i]) != key(out[j]) {
      assert out[i] in xs && out[j] in xs && less(out[i], out[j]);
    }
  }

  // ----- sorting neither loses nor repeats

  lemma {:induction false} InsertAdds<T(!new)>(xs: seq<T>, x: T, less: (T, T) -> bool)
    ensures multiset(Insert(xs, x, less)) == multiset(xs) + multiset{x}
  {
    if xs != [] {
      assert xs == [xs[0]] + xs[1..];
      if less(xs[0], x) {
        InsertAdds(xs[1..], x, less);
      }
    }
  }

  lemma {:induction false} SortPermutes<T(!new)>(xs: seq<T>, less: (T, T) -> bool)
    ensures multiset(Sort(xs, less)) == multiset(xs)
  {
    if xs != [] {
      assert xs == [xs[0]] + xs[1..];
      SortPermutes(xs[1..], less);
      InsertAdds(Sort(xs[1..], less), xs[0], less);
    }
  }

  lemma {:induction false} DistinctOnce<T(!new), K(!new)>(xs: seq<T>, key: T -> K, x: T)
    requires DistinctKeys(xs, key)
    ensures multiset(xs)[x] <= 1
  {
    if xs != [] {
      assert xs == [xs[0]] + xs[1..];
      DistinctOnce(xs[1..], key, x);
      forall i | 0 <= i < |xs[1..]| ensures xs[1..][i] != xs[0] {
        assert key(xs[0]) != key(xs[i + 1]);
      }
    }
  }

  lemma {:induction false} TwiceIn<T(!new)>(xs: seq<T>, i: nat, j: nat)
    requires i < j < |xs| && xs[i] == xs[j]
    ensures multiset(xs)[xs[i]] >= 2
  {
    assert xs == xs[..j] + [xs[j]] + xs[j + 1..];
    assert xs[..j][i] == xs[i];
  }

  /** A permutation of things with distinct keys has distinct keys. */
  lemma {:induction false} PermutedKeys<T(!new), K(!new)>(a: seq<T>, b: seq<T>, key: T -> K)
    requires multiset(a) == multiset(b) && DistinctKeys(a, key)
    ensures DistinctKeys(b, key)
  {
    forall i, j | 0 <= i < j < |b| ensures key(b[i]) != key(b[j]) {
      assert b[i] in multiset(b) && b[j] in multiset(b);
      if key(b[i]) == key(b[j]) {
        SameKeySame(a, key, b[i], b[j]);
        DistinctOnce(a, key, b[i]);
        TwiceIn(b, i, j);
      }
    }
  }

  lemma {:induction false} SameKeySame<T(!new), K(!new)>(a: seq<T>, key: T -> K, x: T, y: T)
    requires DistinctKeys(a, key) && x in a && y in a && key(x) == key(y)
    ensures x == y
  {}
}
