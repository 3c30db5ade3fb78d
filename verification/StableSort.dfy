/** The list sort of the source's language, as far as it is relied on: stable, ascending by an integer key. */
module StableSort {

  /** `x` goes after every element whose key is not greater. */
  function Insert<T(!new)>(key: T -> int, s: seq<T>, x: T): seq<T>
  {
    if s == [] || key(s[|s| - 1]) <= key(x) then s + [x]
    else Insert(key, s[..|s| - 1], x) + [s[|s| - 1]]
  }

  function Sort<T(!new)>(key: T -> int, s: seq<T>): seq<T>
  {
    if s == [] then [] else Insert(key, Sort(key, s[..|s| - 1]), s[|s| - 1])
  }

  ghost predicate Sorted<T(!new)>(key: T -> int, s: seq<T>)
  {
    forall i, j :: 0 <= i < j < |s| ==> key(s[i]) <= key(s[j])
  }

  ghost predicate StrictlySorted<T(!new)>(key: T -> int, s: seq<T>)
  {
    forall i, j :: 0 <= i < j < |s| ==> key(s[i]) < key(s[j])
  }

  lemma InsertElements<T(!new)>(key: T -> int, s: seq<T>, x: T)
    ensures |Insert(key, s, x)| == |s| + 1
    ensures forall y :: y in Insert(key, s, x) <==> y in s || y == x
  {
    var p := InsertShape(key, s, x);
    assert s == s[..p] + s[p..];
  }

  /** Every element of the result is the new one or has an index in the old list. */
  lemma InsertMember<T(!new)>(key: T -> int, s: seq<T>, x: T, i: nat)
    requires i < |Insert(key, s, x)|
    ensures Insert(key, s, x)[i] == x || exists j :: 0 <= j < |s| && s[j] == Insert(key, s, x)[i]
  {
    var p := InsertShape(key, s, x);
    if i < p {
      assert s[i] == Insert(key, s, x)[i];
    } else if i > p {
      assert s[i - 1] == Insert(key, s, x)[i];
    }
  }

  /** Insertion leaves the other elements in place around the new one. */
  lemma {:induction false} InsertShape<T(!new)>(key: T -> int, s: seq<T>, x: T) returns (p: nat)
    ensures p <= |s| && Insert(key, s, x) == s[..p] + [x] + s[p..]
  {
    if s == [] || key(s[|s| - 1]) <= key(x) {
      p := |s|;
    } else {
      var init := s[..|s| - 1];
      p := InsertShape(key, init, x);
      assert s[p..] == init[p..] + [s[|s| - 1]];
      assert s[..p] == init[..p];
    }
  }

  lemma {:induction false} InsertSorted<T(!new)>(key: T -> int, s: seq<T>, x: T)
    requires Sorted(key, s)
    ensures Sorted(key, Insert(key, s, x))
  {
    if !(s == [] || key(s[|s| - 1]) <= key(x)) {
      var init := s[..|s| - 1];
      InsertSorted(key, init, x);
      InsertElements(key, init, x);
      var r := Insert(key, init, x);
      forall i | 0 <= i < |r| ensures key(r[i]) <= key(s[|s| - 1]) {
        InsertMember(key, init, x, i);
      }
    }
  }

  /** A new key keeps a strictly sorted list strictly sorted. */
  lemma {:induction false} InsertStrict<T(!new)>(key: T -> int, s: seq<T>, x: T)
    requires StrictlySorted(key, s) && forall i :: 0 <= i < |s| ==> key(s[i]) != key(x)
    ensures StrictlySorted(key, Insert(key, s, x))
  {
    if s != [] && key(s[|s| - 1]) > key(x) {
      var init := s[..|s| - 1];
      InsertStrict(key, init, x);
      InsertElements(key, init, x);
      var r := Insert(key, init, x);
      forall i | 0 <= i < |r| ensures key(r[i]) < key(s[|s| - 1]) {
        InsertMember(key, init, x, i);
      }
    }
  }

  lemma {:induction false} SortCorrect<T(!new)>(key: T -> int, s: seq<T>)
    ensures Sorted(key, Sort(key, s)) && |Sort(key, s)| == |s|
    ensures forall y :: y in Sort(key, s) <==> y in s
  {
    if s != [] {
      var init := s[..|s| - 1];
      SortCorrect(key, init);
      InsertSorted(key, Sort(key, init), s[|s| - 1]);
      InsertElements(key, Sort(key, init), s[|s| - 1]);
      assert s == init + [s[|s| - 1]];
    }
  }

  lemma {:induction false} SortOfSorted<T(!new)>(key: T -> int, s: seq<T>)
    requires Sorted(key, s)
    ensures Sort(key, s) == s
  {
    if s != [] {
      SortOfSorted(key, s[..|s| - 1]);
      assert s == s[..|s| - 1] + [s[|s| - 1]];
    }
  }

  /** Sorting a list that is sorted but for a new last element inserts that element. */
  lemma SortAppended<T(!new)>(key: T -> int, s: seq<T>, x: T)
    requires Sorted(key, s)
    ensures Sort(key, s + [x]) == Insert(key, s, x)
  {
    SortOfSorted(key, s);
    assert (s + [x])[..|s|] == s;
  }

  /** Distinct keys sort strictly. */
  lemma {:induction false} SortStrict<T(!new)>(key: T -> int, s: seq<T>)
    requires forall i, j :: 0 <= i < j < |s| ==> key(s[i]) != key(s[j])
    ensures StrictlySorted(key, Sort(key, s))
  {
    if s != [] {
      var init := s[..|s| - 1];
      SortStrict(key, init);
      SortCorrect(key, init);
      var t := Sort(key, init);
      forall i | 0 <= i < |t| ensures key(t[i]) != key(s[|s| - 1]) {
        assert t[i] in t;
        var j :| 0 <= j < |init| && init[j] == t[i];
        assert s[j] == t[i];
      }
      InsertStrict(key, Sort(key, init), s[|s| - 1]);
    }
  }

  /** Strictly sorted lists with the same elements are the same list. */
  lemma {:induction false} StrictlySortedUnique<T(!new)>(key: T -> int, a: seq<T>, b: seq<T>)
    requires StrictlySorted(key, a) && StrictlySorted(key, b)
    requires forall x :: x in a <==> x in b
    ensures a == b
  {
    assert b != [] ==> b[|b| - 1] in a;
    if a != [] {
      assert a[|a| - 1] in b;
      var a', b' := a[..|a| - 1], b[..|b| - 1];
      assert a == a' + [a[|a| - 1]] && b == b' + [b[|b| - 1]];
      assert b[|b| - 1] in a;
      assert a[|a| - 1] == b[|b| - 1];
      forall x ensures x in a' <==> x in b' {
        if x in a' {
          assert x in b && x != b[|b| - 1];
        }
        if x in b' {
          assert x in a && x != a[|a| - 1];
        }
      }
      StrictlySortedUnique(key, a', b');
    }
  }
}
