/**
 * `Array.prototype.sort` with a comparator, as a stable insertion sort over sequences.
 * A comparator returns a number whose sign orders its two arguments; `cmp(a, b) <= 0`
 * means `a` may stay before `b`.
 */
module StableSort {

  /** The comparator induces a total preorder: any two elements compare, and `<= 0` chains. */
  ghost predicate TotalPreorder<T(!new)>(cmp: (T, T) -> int)
  {
    (forall a, b :: cmp(a, b) <= 0 || cmp(b, a) <= 0) &&
    (forall a, b, c :: cmp(a, b) <= 0 && cmp(b, c) <= 0 ==> cmp(a, c) <= 0)
  }

  predicate Sorted<T>(s: seq<T>, cmp: (T, T) -> int)
  {
    forall i, j :: 0 <= i < j < |s| ==> cmp(s[i], s[j]) <= 0
  }

  /** Puts `x` before the first element that must come after it, and after every other. */
  function Insert<T>(s: seq<T>, x: T, cmp: (T, T) -> int): (r: seq<T>)
    ensures multiset(r) == multiset(s) + multiset{x}
  {
    if s == [] then [x]
    else if cmp(s[0], x) > 0 then [x] + s
    else
      assert s == [s[0]] + s[1..];
      [s[0]] + Insert(s[1..], x, cmp)
  }

  /** Inserts the elements one by one, in their original order, into a sorted prefix. */
  function Sort<T>(s: seq<T>, cmp: (T, T) -> int): (r: seq<T>)
    ensures multiset(r) == multiset(s)
  {
    if s == [] then []
    else
      assert s == s[..|s| - 1] + [s[|s| - 1]];
      Insert(Sort(s[..|s| - 1], cmp), s[|s| - 1], cmp)
  }

  lemma SortLength<T>(s: seq<T>, cmp: (T, T) -> int)
    ensures |Sort(s, cmp)| == |s|
  {
    assert |multiset(Sort(s, cmp))| == |multiset(s)|;
  }

  /** A sorted sequence keeps its order when an element no greater than all of it is put in front. */
  lemma SortedCons<T>(h: T, t: seq<T>, cmp: (T, T) -> int)
    requires Sorted(t, cmp)
    requires forall j :: 0 <= j < |t| ==> cmp(h, t[j]) <= 0
    ensures Sorted([h] + t, cmp)
  {
    forall i, j | 0 <= i < j < |[h] + t|
      ensures cmp(([h] + t)[i], ([h] + t)[j]) <= 0
    {
      if i > 0 {
        assert ([h] + t)[i] == t[i - 1];
      }
      assert ([h] + t)[j] == t[j - 1];
    }
  }

  /** In a sorted sequence the head may come before anything in the tail. */
  lemma HeadFirst<T>(s: seq<T>, y: T, cmp: (T, T) -> int)
    requires Sorted(s, cmp)
    requires s != [] && y in multiset(s[1..])
    ensures cmp(s[0], y) <= 0
  {
    var k :| 0 <= k < |s[1..]| && s[1..][k] == y;
    assert s[k + 1] == y;
  }

  lemma {:induction false} InsertSorted<T(!new)>(s: seq<T>, x: T, cmp: (T, T) -> int)
    requires TotalPreorder(cmp)
    requires Sorted(s, cmp)
    ensures Sorted(Insert(s, x, cmp), cmp)
  {
    if s == [] {
    } else if cmp(s[0], x) > 0 {
      assert cmp(x, s[0]) <= 0;
    } else {
      var t := Insert(s[1..], x, cmp);
      InsertSorted(s[1..], x, cmp);
      forall j | 0 <= j < |t|
        ensures cmp(s[0], t[j]) <= 0
      {
        assert t[j] in multiset(t);
        if t[j] != x {
          HeadFirst(s, t[j], cmp);
        }
      }
      SortedCons(s[0], t, cmp);
    }
  }

  /** The result of `Sort` is ordered whenever the comparator is a total preorder. */
  lemma {:induction false} SortSorted<T(!new)>(s: seq<T>, cmp: (T, T) -> int)
    requires TotalPreorder(cmp)
    ensures Sorted(Sort(s, cmp), cmp)
  {
    if s != [] {
      SortSorted(s[..|s| - 1], cmp);
      InsertSorted(Sort(s[..|s| - 1], cmp), s[|s| - 1], cmp);
    }
  }

  // ---------------------------------------------------------------------------
  // Stability: elements that compare equal keep their original relative order
  // ---------------------------------------------------------------------------

  /** Neither of `a` and `b` has to come after the other. */
  predicate Tied<T>(cmp: (T, T) -> int, a: T, b: T)
  {
    cmp(a, b) <= 0 && cmp(b, a) <= 0
  }

  /** The elements of `s` tied with `x`, in the order in which they occur in `s`. */
  function TiedWith<T>(s: seq<T>, x: T, cmp: (T, T) -> int): seq<T>
  {
    if s == [] then []
    else if Tied(cmp, x, s[0]) then [s[0]] + TiedWith(s[1..], x, cmp)
    else TiedWith(s[1..], x, cmp)
  }

  lemma {:induction false} TiedWithAppend<T>(a: seq<T>, b: seq<T>, x: T, cmp: (T, T) -> int)
    ensures TiedWith(a + b, x, cmp) == TiedWith(a, x, cmp) + TiedWith(b, x, cmp)
  {
    if a == [] {
      assert a + b == b;
    } else {
      assert (a + b)[0] == a[0];
      assert (a + b)[1..] == a[1..] + b;
      TiedWithAppend(a[1..], b, x, cmp);
      if Tied(cmp, x, a[0]) {
        assert [a[0]] + TiedWith(a[1..], x, cmp) + TiedWith(b, x, cmp)
            == [a[0]] + (TiedWith(a[1..], x, cmp) + TiedWith(b, x, cmp));
      }
    }
  }

  lemma {:induction false} TiedWithNone<T>(s: seq<T>, x: T, cmp: (T, T) -> int)
    requires forall i :: 0 <= i < |s| ==> !Tied(cmp, x, s[i])
    ensures TiedWith(s, x, cmp) == []
  {
    if s != [] {
      assert forall i :: 0 <= i < |s[1..]| ==> s[1..][i] == s[i + 1];
      TiedWithNone(s[1..], x, cmp);
    }
  }

  /** In a sorted `t` that must all come after `z`, nothing is tied with a value tied with `z`. */
  lemma {:induction false} NoneTiedAfter<T(!new)>(t: seq<T>, z: T, x: T, cmp: (T, T) -> int)
    requires TotalPreorder(cmp)
    requires Sorted(t, cmp)
    requires t != [] && cmp(t[0], z) > 0
    requires Tied(cmp, x, z)
    ensures TiedWith(t, x, cmp) == []
  {
    forall i | 0 <= i < |t|
      ensures !Tied(cmp, x, t[i])
    {
      var y := t[i];
      assert cmp(t[0], y) <= 0;
    }
    TiedWithNone(t, x, cmp);
  }

  /** Inserting in front: `z` comes before all of `t`. */
  lemma TiedWithInsertFront<T(!new)>(t: seq<T>, z: T, x: T, cmp: (T, T) -> int)
    requires TotalPreorder(cmp)
    requires Sorted(t, cmp)
    requires t != [] && cmp(t[0], z) > 0
    ensures TiedWith([z] + t, x, cmp)
         == TiedWith(t, x, cmp) + (if Tied(cmp, x, z) then [z] else [])
  {
    var r := [z] + t;
    assert r[0] == z && r[1..] == t;
    if Tied(cmp, x, z) {
      NoneTiedAfter(t, z, x, cmp);
    }
  }

  /** Inserting past the head: the head's contribution is unchanged. */
  lemma TiedWithInsertPastHead<T>(t: seq<T>, z: T, x: T, cmp: (T, T) -> int)
    requires t != [] && cmp(t[0], z) <= 0
    requires TiedWith(Insert(t[1..], z, cmp), x, cmp)
          == TiedWith(t[1..], x, cmp) + (if Tied(cmp, x, z) then [z] else [])
    ensures TiedWith(Insert(t, z, cmp), x, cmp)
         == TiedWith(t, x, cmp) + (if Tied(cmp, x, z) then [z] else [])
  {
    var rest := Insert(t[1..], z, cmp);
    var e := if Tied(cmp, x, z) then [z] else [];
    var r := [t[0]] + rest;
    assert Insert(t, z, cmp) == r;
    assert r[0] == t[0] && r[1..] == rest;
    if Tied(cmp, x, t[0]) {
      assert TiedWith(r, x, cmp) == [t[0]] + (TiedWith(t[1..], x, cmp) + e);
      assert [t[0]] + (TiedWith(t[1..], x, cmp) + e) == ([t[0]] + TiedWith(t[1..], x, cmp)) + e;
    } else {
      assert TiedWith(r, x, cmp) == TiedWith(t[1..], x, cmp) + e;
    }
  }

  lemma {:induction false} TiedWithInsert<T(!new)>(t: seq<T>, z: T, x: T, cmp: (T, T) -> int)
    requires TotalPreorder(cmp)
    requires Sorted(t, cmp)
    ensures TiedWith(Insert(t, z, cmp), x, cmp)
         == TiedWith(t, x, cmp) + (if Tied(cmp, x, z) then [z] else [])
  {
    if t == [] {
    } else if cmp(t[0], z) > 0 {
      TiedWithInsertFront(t, z, x, cmp);
    } else {
      assert Sorted(t[1..], cmp);
      TiedWithInsert(t[1..], z, x, cmp);
      TiedWithInsertPastHead(t, z, x, cmp);
    }
  }

  /** Peeling the last element off `s`, the way `Sort` does. */
  lemma TiedWithSnoc<T>(s: seq<T>, x: T, cmp: (T, T) -> int)
    requires s != []
    ensures TiedWith(s, x, cmp)
         == TiedWith(s[..|s| - 1], x, cmp) + (if Tied(cmp, x, s[|s| - 1]) then [s[|s| - 1]] else [])
  {
    var init, last := s[..|s| - 1], s[|s| - 1];
    assert [last][0] == last && [last][1..] == [];
    assert s == init + [last];
    TiedWithAppend(init, [last], x, cmp);
  }

  /** Stability: the elements tied with any `x` appear in the result in their input order. */
  lemma {:induction false} SortStable<T(!new)>(s: seq<T>, x: T, cmp: (T, T) -> int)
    requires TotalPreorder(cmp)
    ensures TiedWith(Sort(s, cmp), x, cmp) == TiedWith(s, x, cmp)
  {
    if s != [] {
      SortStable(s[..|s| - 1], x, cmp);
      SortSorted(s[..|s| - 1], cmp);
      TiedWithInsert(Sort(s[..|s| - 1], cmp), s[|s| - 1], x, cmp);
      TiedWithSnoc(s, x, cmp);
    }
  }
}
