/**
 A list of things written as a directory with one entry for each, under its key, and read back by
 listing the directory in whatever order.
 */
module KeyedDirectory {
  import opened Common
  import opened Sorting

  type Dir<E> = map<string, E>

  /** How a thing becomes an entry and an entry a thing; either may fail. What is read back may be a
      canonical form of what was written. */
  datatype Codec<!X, !E> = Codec(key: X -> string, enc: X -> Option<E>, dec: (string, E) -> Option<X>, canon: X -> X)

  /** Only keys survive in any case. */
  ghost predicate Sound<X(!new), E(!new)>(c: Codec<X, E>) {
    && (forall k, e :: c.dec(k, e).Some? ==> c.key(c.dec(k, e).value) == k)
    && (forall x :: c.key(c.canon(x)) == c.key(x))
  }

  predicate Survives<X(==), E>(c: Codec<X, E>, x: X) {
    var e := c.enc(x); e.Some? && c.dec(c.key(x), e.value) == Some(c.canon(x))
  }

  function WriteAll<X, E>(c: Codec<X, E>, xs: seq<X>): Option<Dir<E>> {
    if xs == [] then Some(map[])
    else
      var n := |xs| - 1;
      var before, e := WriteAll(c, xs[..n]), c.enc(xs[n]);
      if before.None? || e.None? then None else Some(before.value[c.key(xs[n]) := e.value])
  }

  function ReadAll<X, E>(c: Codec<X, E>, dir: Dir<E>, names: seq<string>): Option<seq<X>> {
    if names == [] then Some([])
    else
      var n := |names| - 1;
      var before := ReadAll(c, dir, names[..n]);
      var x := if names[n] in dir then c.dec(names[n], dir[names[n]]) else None;
      if before.None? || x.None? then None else Some(before.value + [x.value])
  }

  function Canon<X>(canon: X -> X, xs: seq<X>): (out: seq<X>)
    ensures |out| == |xs| && forall i :: 0 <= i < |out| ==> out[i] == canon(xs[i])
  {
    if xs == [] then [] else Canon(canon, xs[..|xs| - 1]) + [canon(xs[|xs| - 1])]
  }

  /** A listing of a directory. */
  ghost predicate Listing<E>(names: seq<string>, dir: Dir<E>) {
    NoDup(names) && forall n :: n in names <==> n in dir
  }

  lemma {:induction false} WrittenEntries<X(!new), E(!new)>(c: Codec<X, E>, xs: seq<X>)
    requires DistinctKeys(xs, c.key)
    ensures WriteAll(c, xs).Some? <==> forall x :: x in xs ==> c.enc(x).Some?
    ensures WriteAll(c, xs).Some? ==>
      && (forall x :: x in xs ==> At(WriteAll(c, xs).value, c.key(x)) == c.enc(x))
      && (forall k :: k in WriteAll(c, xs).value ==> exists x :: x in xs && c.key(x) == k)
  {
    if xs != [] {
      var n := |xs| - 1;
      WrittenEntries(c, xs[..n]);
      assert xs == xs[..n] + [xs[n]];
      forall x | x in xs[..n] ensures c.key(x) != c.key(xs[n]) {
        var i :| 0 <= i < n && xs[i] == x;
      }
    }
  }

  lemma {:induction false} ReadEntries<X(!new), E(!new)>(c: Codec<X, E>, dir: Dir<E>, names: seq<string>)
    ensures ReadAll(c, dir, names).Some? <==> forall n :: n in names ==> n in dir && c.dec(n, dir[n]).Some?
    ensures ReadAll(c, dir, names).Some? ==>
      && |ReadAll(c, dir, names).value| == |names|
      && forall i :: 0 <= i < |names| ==> Some(ReadAll(c, dir, names).value[i]) == c.dec(names[i], dir[names[i]])
  {
    if names != [] {
      var n := |names| - 1;
      ReadEntries(c, dir, names[..n]);
      assert names == names[..n] + [names[n]];
    }
  }

  /** Each thing of one list has one in the other with its key and its entry. */
  ghost predicate SameEntries<X(!new), E>(c: Codec<X, E>, a: seq<X>, b: seq<X>) {
    forall x :: x in a ==> exists y :: y in b && c.key(y) == c.key(x) && c.enc(y) == c.enc(x)
  }

  lemma {:induction false} WrittenInto<X(!new), E(!new)>(c: Codec<X, E>, a: seq<X>, b: seq<X>)
    requires DistinctKeys(a, c.key) && DistinctKeys(b, c.key) && SameEntries(c, a, b)
    requires WriteAll(c, b).Some?
    ensures WriteAll(c, a).Some?
    ensures forall k :: k in WriteAll(c, a).value ==>
      k in WriteAll(c, b).value && WriteAll(c, a).value[k] == WriteAll(c, b).value[k]
  {
    WrittenEntries(c, a);
    WrittenEntries(c, b);
    forall x | x in a ensures c.enc(x).Some? && At(WriteAll(c, b).value, c.key(x)) == c.enc(x) {
      var y :| y in b && c.key(y) == c.key(x) && c.enc(y) == c.enc(x);
      assert At(WriteAll(c, b).value, c.key(y)) == c.enc(y);
    }
    forall k | k in WriteAll(c, a).value
      ensures k in WriteAll(c, b).value && WriteAll(c, a).value[k] == WriteAll(c, b).value[k]
    {
      var x :| x in a && c.key(x) == k;
      assert At(WriteAll(c, a).value, c.key(x)) == c.enc(x) == At(WriteAll(c, b).value, c.key(x));
    }
  }

  /** Writing sees neither the order of the list nor what the entries do not show. */
  lemma {:induction false} WriteIgnoresOrder<X(!new), E(!new)>(c: Codec<X, E>, a: seq<X>, b: seq<X>)
    requires DistinctKeys(a, c.key) && DistinctKeys(b, c.key) && SameEntries(c, a, b) && SameEntries(c, b, a)
    ensures WriteAll(c, a) == WriteAll(c, b)
  {
    if WriteAll(c, a).Some? || WriteAll(c, b).Some? {
      if WriteAll(c, b).Some? {
        WrittenInto(c, a, b);
        WrittenInto(c, b, a);
      } else {
        WrittenInto(c, b, a);
        WrittenInto(c, a, b);
      }
      assert WriteAll(c, a).value == WriteAll(c, b).value;
    }
  }

  ghost predicate ReadsBack<X(!new), E(!new)>(c: Codec<X, E>, xs: seq<X>, names: seq<string>) {
    && WriteAll(c, xs).Some?
    && var out := ReadAll(c, WriteAll(c, xs).value, names);
    && out.Some? && DistinctKeys(out.value, c.key) && forall y :: y in out.value <==> y in Canon(c.canon, xs)
  }

  /** What survives is read back, in whatever order the directory is listed. */
  lemma {:induction false} AllRead<X(!new), E(!new)>(c: Codec<X, E>, xs: seq<X>, names: seq<string>)
    requires Sound(c) && DistinctKeys(xs, c.key)
    requires WriteAll(c, xs).Some? && Listing(names, WriteAll(c, xs).value)
    requires forall x :: x in xs ==> Survives(c, x)
    ensures ReadsBack(c, xs, names)
  {
    WrittenEntries(c, xs);
    var dir := WriteAll(c, xs).value;
    ReadEntries(c, dir, names);
    forall n | n in names
      ensures n in dir && exists x :: x in xs && c.key(x) == n && c.dec(n, dir[n]) == Some(c.canon(x))
    {
      var x :| x in xs && c.key(x) == n;
      assert Survives(c, x) && At(dir, c.key(x)) == c.enc(x);
    }
    var out := ReadAll(c, dir, names).value;
    forall y | y in out ensures y in Canon(c.canon, xs) {
      var i :| 0 <= i < |out| && out[i] == y;
      assert names[i] in names;
      var x :| x in xs && c.key(x) == names[i] && c.dec(names[i], dir[names[i]]) == Some(c.canon(x));
      var k :| 0 <= k < |xs| && xs[k] == x;
      assert Canon(c.canon, xs)[k] == y;
    }
    forall y | y in Canon(c.canon, xs) ensures y in out {
      var k :| 0 <= k < |xs| && Canon(c.canon, xs)[k] == y;
      var x := xs[k];
      assert x in xs && Survives(c, x) && At(dir, c.key(x)) == c.enc(x);
      assert c.key(x) in names;
      var i :| 0 <= i < |names| && names[i] == c.key(x);
      assert out[i] == y;
    }
    forall i, j | 0 <= i < j < |out| ensures c.key(out[i]) != c.key(out[j]) {
      assert c.key(out[i]) == names[i] && c.key(out[j]) == names[j];
    }
  }

  /** And what does not survive is missed. */
  lemma {:induction false} LostIsSeen<X(!new), E(!new)>(c: Codec<X, E>, xs: seq<X>, names: seq<string>)
    requires Sound(c) && DistinctKeys(xs, c.key)
    requires WriteAll(c, xs).Some? && Listing(names, WriteAll(c, xs).value) && ReadsBack(c, xs, names)
    ensures forall x :: x in xs ==> Survives(c, x)
  {
    WrittenEntries(c, xs);
    var dir := WriteAll(c, xs).value;
    ReadEntries(c, dir, names);
    var out := ReadAll(c, dir, names).value;
    forall x | x in xs ensures Survives(c, x) {
      assert At(dir, c.key(x)) == c.enc(x) && c.key(x) in names;
      var i :| 0 <= i < |names| && names[i] == c.key(x);
      assert out[i] in out && Some(out[i]) == c.dec(c.key(x), dir[c.key(x)]);
      assert out[i] in Canon(c.canon, xs);
      var k :| 0 <= k < |xs| && Canon(c.canon, xs)[k] == out[i];
      assert c.key(xs[k]) == c.key(x);
      var m :| 0 <= m < |xs| && xs[m] == x;
      assert k == m;
    }
  }

  // ----- read in order

  lemma {:induction false} CanonKeys<X(!new), E(!new)>(c: Codec<X, E>, xs: seq<X>)
    requires Sound(c)
    ensures DistinctKeys(Canon(c.canon, xs), c.key) <==> DistinctKeys(xs, c.key)
  {
    var ys := Canon(c.canon, xs);
    forall i | 0 <= i < |xs| ensures c.key(ys[i]) == c.key(xs[i]) {
      assert ys[i] == c.canon(xs[i]);
    }
  }

  lemma {:induction false} ReadKeys<X(!new), E(!new)>(c: Codec<X, E>, dir: Dir<E>, names: seq<string>)
    requires Sound(c) && NoDup(names) && ReadAll(c, dir, names).Some?
    ensures DistinctKeys(ReadAll(c, dir, names).value, c.key)
  {
    ReadEntries(c, dir, names);
    var out := ReadAll(c, dir, names).value;
    forall i, j | 0 <= i < j < |out| ensures c.key(out[i]) != c.key(out[j]) {
      assert c.key(out[i]) == names[i] && c.key(out[j]) == names[j];
    }
  }

  /** Sorted, written, read and sorted: whether that is sorting, each thing in canonical form. */
  predicate SortedBack<X(!new,==), E>(c: Codec<X, E>, xs: seq<X>, names: seq<string>, less: (X, X) -> bool) {
    var dir := WriteAll(c, Sort(xs, less));
    && dir.Some?
    && var out := ReadAll(c, dir.value, names);
    && out.Some? && Sort(out.value, less) == Canon(c.canon, Sort(xs, less))
  }

  /** Canonical forms are in the order of what they are the forms of. */
  ghost predicate OrderKept<X(!new), E>(c: Codec<X, E>, less: (X, X) -> bool) {
    forall a, b :: less(c.canon(a), c.canon(b)) == less(a, b)
  }

  lemma {:induction false} SortedCanon<X(!new), E(!new)>(c: Codec<X, E>, xs: seq<X>, less: (X, X) -> bool)
    requires OrderKept(c, less) && Sorted(xs, less)
    ensures Sorted(Canon(c.canon, xs), less)
  {
    var ys := Canon(c.canon, xs);
    forall i, j | 0 <= i < j < |ys| ensures less(ys[i], ys[j]) {
      assert ys[i] == c.canon(xs[i]) && ys[j] == c.canon(xs[j]) && less(xs[i], xs[j]);
    }
  }

  /** It is exactly when the keys are distinct and each thing survives. */
  lemma {:induction false} SortedBackExactly<X(!new), E(!new)>(c: Codec<X, E>, xs: seq<X>, names: seq<string>,
      less: (X, X) -> bool)
    requires Sound(c) && Orders(less, c.key) && OrderKept(c, less)
    requires WriteAll(c, Sort(xs, less)).Some? ==> Listing(names, WriteAll(c, Sort(xs, less)).value)
    ensures SortedBack(c, xs, names, less) <==> DistinctKeys(xs, c.key) && forall x :: x in xs ==> Survives(c, x)
  {
    var sorted := Sort(xs, less);
    SortPermutes(xs, less);
    CanonKeys(c, sorted);
    if SortedBack(c, xs, names, less) {
      var out := ReadAll(c, WriteAll(c, sorted).value, names).value;
      ReadKeys(c, WriteAll(c, sorted).value, names);
      SortPermutes(out, less);
      PermutedKeys(out, Canon(c.canon, sorted), c.key);
      PermutedKeys(sorted, xs, c.key);
      assert forall y :: y in out <==> y in Sort(out, less);
      LostIsSeen(c, sorted, names);
    } else if DistinctKeys(xs, c.key) && forall x :: x in xs ==> Survives(c, x) {
      PermutedKeys(xs, sorted, c.key);
      WrittenEntries(c, sorted);
      AllRead(c, sorted, names);
      var out := ReadAll(c, WriteAll(c, sorted).value, names).value;
      SortSorts(out, less, c.key);
      SortSorts(xs, less, c.key);
      SortedCanon(c, sorted, less);
      SortedUnique(Sort(out, less), Canon(c.canon, sorted), less, c.key);
    }
  }
}
