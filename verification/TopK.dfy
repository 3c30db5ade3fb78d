/** The `k` elements of a set with the smallest keys, in ascending order, and how they grow with the set. */
module TopK {
  import opened StableSort
  import opened Wrappers

  /** `r` lists the `k` elements of `s` with the smallest keys (all of `s` if there are fewer). */
  ghost predicate IsTop<T(!new)>(key: T -> int, k: nat, s: set<T>, r: seq<T>)
  {
    && StrictlySorted(key, r) && |r| <= k
    && (forall x :: x in r ==> x in s)
    && (|r| < k ==> forall x :: x in s ==> x in r)
    && (forall x, y :: x in s && x !in r && y in r ==> key(y) < key(x))
  }

  ghost function Elements<T(!new)>(r: seq<T>): set<T> { set x | x in r }

  lemma {:induction false} StrictSize<T(!new)>(key: T -> int, r: seq<T>)
    requires StrictlySorted(key, r)
    ensures |Elements(r)| == |r|
  {
    if r == [] {
      assert Elements(r) == {};
    } else {
      var init, last := r[..|r| - 1], r[|r| - 1];
      StrictSize(key, init);
      assert r == init + [last];
      assert Elements(r) == Elements(init) + {last};
    }
  }

  /** There is only one such list. */
  lemma TopUnique<T(!new)>(key: T -> int, k: nat, s: set<T>, a: seq<T>, b: seq<T>)
    requires IsTop(key, k, s, a) && IsTop(key, k, s, b)
    ensures a == b
  {
    TopIncluded(key, k, s, a, b);
    TopIncluded(key, k, s, b, a);
    StrictlySortedUnique(key, a, b);
  }

  lemma TopIncluded<T(!new)>(key: T -> int, k: nat, s: set<T>, a: seq<T>, b: seq<T>)
    requires IsTop(key, k, s, a) && IsTop(key, k, s, b)
    ensures forall x :: x in a ==> x in b
  {
    forall x | x in a ensures x in b {
      if x !in b {
        assert forall y :: y in b ==> y in a;
        assert Elements(b) + {x} <= Elements(a) && x !in Elements(b);
        StrictSize(key, a);
        StrictSize(key, b);
        SubsetSize(Elements(b) + {x}, Elements(a));
      }
    }
  }

  lemma TakeContains<T(!new)>(t: seq<T>, k: nat, i: nat)
    requires i < k <= |t|
    ensures t[i] in t[..k]
  {
    assert t[..k][i] == t[i];
  }

  /** A sorted, truncated list of elements with distinct keys is the top of its elements. */
  lemma TakeIsTop<T(!new)>(key: T -> int, k: nat, xs: seq<T>)
    requires forall i, j :: 0 <= i < j < |xs| ==> key(xs[i]) != key(xs[j])
    ensures var t := Sort(key, xs);
            IsTop(key, k, Elements(xs), if |t| <= k then t else t[..k])
  {
    SortStrict(key, xs);
    SortCorrect(key, xs);
    hide Sort;
    if |xs| > k {
      CutIsTop(key, k, Sort(key, xs), Elements(xs));
    }
  }

  lemma CutIsTop<T(!new)>(key: T -> int, k: nat, t: seq<T>, s: set<T>)
    requires StrictlySorted(key, t) && k < |t| && forall x :: x in t <==> x in s
    ensures IsTop(key, k, s, t[..k])
  {
    forall x, y | x in s && x !in t[..k] && y in t[..k] ensures key(y) < key(x) {
      var i: nat :| i < |t| && t[i] == x;
      var j :| 0 <= j < k && t[j] == y;
      if i < k {
        TakeContains(t, k, i);
      }
    }
  }

  /** Over a larger set there are at least as many, and each position is at least as near. */
  lemma TopMonotone<T(!new)>(key: T -> int, k: nat, s: set<T>, r: seq<T>, s': set<T>, r': seq<T>)
    requires IsTop(key, k, s, r) && IsTop(key, k, s', r') && s <= s'
    ensures |r| <= |r'| && forall i :: 0 <= i < |r| ==> key(r'[i]) <= key(r[i])
  {
    StrictSize(key, r);
    StrictSize(key, r');
    if |r'| < k {
      SubsetSize(Elements(r), Elements(r'));
    }
    forall i | 0 <= i < |r| ensures key(r'[i]) <= key(r[i]) {
      NoFarther(key, k, s, r, s', r', i);
    }
  }

  lemma NoFarther<T(!new)>(key: T -> int, k: nat, s: set<T>, r: seq<T>, s': set<T>, r': seq<T>, i: nat)
    requires IsTop(key, k, s, r) && IsTop(key, k, s', r') && s <= s' && i < |r| <= |r'|
    ensures key(r'[i]) <= key(r[i])
  {
    if key(r'[i]) > key(r[i]) {
      AllEarlier(key, k, s, r, s', r', i);
      StrictPrefix(key, r, i + 1);
      StrictPrefix(key, r', i);
    }
  }

  lemma Contained<T(!new)>(a: seq<T>, b: seq<T>)
    requires forall i :: 0 <= i < |a| ==> a[i] in b
    ensures |Elements(a)| <= |Elements(b)|
  {
    forall x | x in Elements(a) ensures x in Elements(b) {
      var i :| 0 <= i < |a| && a[i] == x;
    }
    SubsetSize(Elements(a), Elements(b));
  }

  lemma AllEarlier<T(!new)>(key: T -> int, k: nat, s: set<T>, r: seq<T>, s': set<T>, r': seq<T>, i: nat)
    requires IsTop(key, k, s, r) && IsTop(key, k, s', r') && s <= s' && i < |r| <= |r'|
    requires key(r[i]) < key(r'[i])
    ensures |Elements(r[..i + 1])| <= |Elements(r'[..i])|
  {
    forall j | 0 <= j <= i ensures r[j] in r'[..i] {
      assert r[j] in r && key(r[j]) <= key(r[i]);
      EarlierMember(key, k, s', r', r[j], i);
    }
    Contained(r[..i + 1], r'[..i]);
  }

  /** An element of the set that is nearer than position `i` stands before it. */
  lemma EarlierMember<T(!new)>(key: T -> int, k: nat, s: set<T>, r: seq<T>, x: T, i: nat)
    requires IsTop(key, k, s, r) && x in s && i < |r| && key(x) < key(r[i])
    ensures x in r[..i]
  {
    assert r[i] in r;
    var m :| 0 <= m < |r| && r[m] == x;
    assert forall j :: i <= j < |r| ==> key(r[i]) <= key(r[j]);
    assert r[..i][m] == x;
  }

  lemma StrictPrefix<T(!new)>(key: T -> int, r: seq<T>, n: nat)
    requires StrictlySorted(key, r) && n <= |r|
    ensures StrictlySorted(key, r[..n]) && |Elements(r[..n])| == n
  {
    StrictSize(key, r[..n]);
  }

  /**
   * An incremental merge loses nothing: if `r` is the top of `s`, and the pool `xs` contains
   * all of `r` and everything heard beyond `s`, then the top of the pool is the top of all.
   */
  lemma MergeIsTop<T(!new)>(key: T -> int, k: nat, s: set<T>, r: seq<T>, heard: set<T>, xs: set<T>, t: seq<T>)
    requires IsTop(key, k, s, r) && IsTop(key, k, xs, t)
    requires Elements(r) <= xs <= s + heard && heard - s <= xs
    ensures IsTop(key, k, s + heard, t)
  {
    RIsTopOfItself(key, k, r);
    TopMonotone(key, k, Elements(r), r, xs, t);
    forall x, y | x in s + heard && x !in t && y in t ensures key(y) < key(x) {
      if x !in xs {
        PoolBeats(key, k, s, r, t, x, y);
      }
    }
    if |t| < k {
      assert forall x :: x in s ==> x in r && x in Elements(r);
    }
  }

  lemma RIsTopOfItself<T(!new)>(key: T -> int, k: nat, r: seq<T>)
    requires StrictlySorted(key, r) && |r| <= k
    ensures IsTop(key, k, Elements(r), r)
  {
  }

  lemma PoolBeats<T(!new)>(key: T -> int, k: nat, s: set<T>, r: seq<T>, t: seq<T>, x: T, y: T)
    requires IsTop(key, k, s, r) && x in s && x !in r && y in t && |t| <= k
    requires |r| <= |t| && forall i :: 0 <= i < |r| ==> key(t[i]) <= key(r[i])
    ensures key(y) < key(x)
  {
    var i :| 0 <= i < |t| && t[i] == y;
    assert r[i] in r;
  }
}
