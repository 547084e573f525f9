/** Small vocabulary shared by every module. */
module Common {
  datatype Option<+T> = None | Some(value: T)

  /** The value a finite map gives a key, as an option. */
  function At<K, V>(m: map<K, V>, k: K): Option<V> {
    if k in m then Some(m[k]) else None
  }

  ghost predicate NoDup<T>(xs: seq<T>) {
    forall i, j :: 0 <= i < j < |xs| ==> xs[i] != xs[j]
  }

  /** A plan of failures: whether each operation to come works. Beyond its end everything does. */
  function Works(plan: seq<bool>): bool { plan == [] || plan[0] }

  function Rest(plan: seq<bool>): seq<bool> { if plan == [] then [] else plan[1..] }

  ghost predicate NoFault(plan: seq<bool>) { forall i :: 0 <= i < |plan| ==> plan[i] }
}
