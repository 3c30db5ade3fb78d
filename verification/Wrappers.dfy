/** Small shared vocabulary: an optional value, dictionary lookup with a default, lists without repeats. */
module Wrappers {

  datatype Option<+T> = None | Some(value: T)

  /** The lookup `m.get(k, default)`. */
  function Get<K, V>(m: map<K, V>, k: K, default: V): V
  {
    if k in m then m[k] else default
  }

  ghost predicate NoRepeats<T(!new)>(xs: seq<T>)
  {
    forall i, j :: 0 <= i < j < |xs| ==> xs[i] != xs[j]
  }

  lemma SubsetSize<T>(a: set<T>, b: set<T>)
    requires a <= b
    ensures |a| <= |b|
  {
    assert b == a + (b - a);
  }

  lemma {:induction false} DistinctSize<T(!new)>(xs: seq<T>)
    requires NoRepeats(xs)
    ensures |set x | x in xs| == |xs|
  {
    if xs == [] {
      assert (set x | x in xs) == {};
    } else {
      var init, last := xs[..|xs| - 1], xs[|xs| - 1];
      DistinctSize(init);
      assert xs == init + [last];
      assert (set x | x in xs) == (set x | x in init) + {last};
    }
  }
}
