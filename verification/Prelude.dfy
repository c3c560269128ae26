/** What the other modules share. */
module Prelude {
  datatype Option<T> = None | Some(value: T)

  type byte = x: int | 0 <= x < 256

  ghost predicate NoDup(q: seq<nat>) { forall i: nat, j: nat :: i < j < |q| ==> q[i] != q[j] }

  lemma SameMap<K, V>(a: map<K, V>, b: map<K, V>)
    requires forall k :: (k in a <==> k in b) && (k in a ==> a[k] == b[k])
    ensures a == b
  {
  }

  ghost function Interval(a: nat, b: nat): (r: set<nat>)
    requires a <= b
    ensures |r| == b - a && forall x: nat :: x in r <==> a <= x < b
    decreases b - a
  {
    if a == b then {} else Interval(a + 1, b) + {a}
  }
}
