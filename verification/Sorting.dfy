/** Stable sorting by a numeric key: the model of `slice::sort_by` and `sort_by_key`. */
module Sorting {
  import opened Prelude

  ghost predicate Sorted<T>(key: T -> nat, s: seq<T>) {
    forall i, j :: 0 <= i < j < |s| ==> key(s[i]) <= key(s[j])
  }

  /** Inserts `x` behind every element whose key is not greater. */
  function Insert<T>(key: T -> nat, x: T, s: seq<T>): (r: seq<T>)
    ensures |r| == |s| + 1
  {
    if s == [] || key(s[|s| - 1]) <= key(x) then s + [x]
    else Insert(key, x, s[..|s| - 1]) + [s[|s| - 1]]
  }

  function SortBy<T>(key: T -> nat, s: seq<T>): (r: seq<T>)
    ensures |r| == |s|
  {
    if s == [] then [] else Insert(key, s[|s| - 1], SortBy(key, s[..|s| - 1]))
  }

  lemma {:induction false} InsertSorts<T>(key: T -> nat, x: T, s: seq<T>)
    requires Sorted(key, s)
    ensures Sorted(key, Insert(key, x, s))
    ensures multiset(Insert(key, x, s)) == multiset(s) + multiset{x}
  {
    if s == [] || key(s[|s| - 1]) <= key(x) {
    } else {
      var front := s[..|s| - 1];
      var r := Insert(key, x, front);
      InsertSorts(key, x, front);
      assert s == front + [s[|s| - 1]];
      forall y | y in r ensures key(y) <= key(s[|s| - 1]) {
        assert y in multiset(r);
        assert y == x || y in multiset(front);
      }
    }
  }

  lemma {:induction false} SortSorts<T>(key: T -> nat, s: seq<T>)
    ensures Sorted(key, SortBy(key, s))
    ensures multiset(SortBy(key, s)) == multiset(s)
  {
    if s != [] {
      var front := s[..|s| - 1];
      SortSorts(key, front);
      InsertSorts(key, s[|s| - 1], SortBy(key, front));
      assert s == front + [s[|s| - 1]];
    }
  }

  /** The elements with key `k`, in order. */
  function WithKey<T>(key: T -> nat, s: seq<T>, k: nat): seq<T> {
    if s == [] then []
    else
      var before := WithKey(key, s[..|s| - 1], k);
      if key(s[|s| - 1]) == k then before + [s[|s| - 1]] else before
  }

  lemma {:induction false} InsertStable<T>(key: T -> nat, x: T, s: seq<T>, k: nat)
    requires Sorted(key, s)
    ensures WithKey(key, Insert(key, x, s), k) == WithKey(key, s, k) + if key(x) == k then [x] else []
  {
    if s == [] || key(s[|s| - 1]) <= key(x) {
      assert (s + [x])[..|s|] == s;
    } else {
      var front, last := s[..|s| - 1], s[|s| - 1];
      var r := Insert(key, x, front);
      InsertStable(key, x, front, k);
      assert (r + [last])[..|r|] == r;
      if key(x) == k {
        AboveKey(key, s, k);
      }
    }
  }

  /** Behind a smaller key there is none, so an element of that key goes in front of all of them. */
  lemma AboveKey<T>(key: T -> nat, s: seq<T>, k: nat)
    requires Sorted(key, s) && s != [] && key(s[|s| - 1]) > k
    ensures WithKey(key, s, k) == WithKey(key, s[..|s| - 1], k)
  {
  }

  /** Sorting is stable: elements with one key keep their order. */
  lemma {:induction false} SortStable<T>(key: T -> nat, s: seq<T>, k: nat)
    ensures WithKey(key, SortBy(key, s), k) == WithKey(key, s, k)
  {
    if s != [] {
      var front := s[..|s| - 1];
      SortStable(key, front, k);
      SortSorts(key, front);
      InsertStable(key, s[|s| - 1], SortBy(key, front), k);
    }
  }

  lemma SortMembers<T>(key: T -> nat, s: seq<T>)
    ensures forall x :: x in SortBy(key, s) <==> x in s
  {
    SortSorts(key, s);
    forall x ensures x in SortBy(key, s) <==> x in s {
      assert x in SortBy(key, s) <==> x in multiset(SortBy(key, s));
      assert x in s <==> x in multiset(s);
    }
  }

  /** The key tells the elements of `s` apart. */
  ghost predicate KeyInjective<T>(key: T -> nat, s: seq<T>) {
    forall x, y :: x in s && y in s && key(x) == key(y) ==> x == y
  }

  /** A sorted sequence whose keys tell its elements apart is fixed by its multiset. */
  lemma {:induction false} SortedUnique<T>(key: T -> nat, a: seq<T>, b: seq<T>)
    requires Sorted(key, a) && Sorted(key, b)
    requires multiset(a) == multiset(b)
    requires KeyInjective(key, a)
    ensures a == b
  {
    hide Sorted, KeyInjective;
    assert |a| == |multiset(a)| == |multiset(b)| == |b|;
    if a != [] {
      var x := SameLast(key, a, b);
      assert a == a[..|a| - 1] + [x] && b == b[..|b| - 1] + [x];
      DropSame(a[..|a| - 1], b[..|b| - 1], x);
      PrefixKeeps(key, a);
      PrefixKeeps(key, b);
      SortedUnique(key, a[..|a| - 1], b[..|b| - 1]);
    }
  }

  lemma DropSame<T>(a: seq<T>, b: seq<T>, x: T)
    requires multiset(a + [x]) == multiset(b + [x])
    ensures multiset(a) == multiset(b)
  {
    assert multiset(a) == multiset(a + [x]) - multiset{x};
    assert multiset(b) == multiset(b + [x]) - multiset{x};
  }

  lemma PrefixKeeps<T>(key: T -> nat, a: seq<T>)
    requires a != []
    ensures KeyInjective(key, a) ==> KeyInjective(key, a[..|a| - 1])
    ensures Sorted(key, a) ==> Sorted(key, a[..|a| - 1])
  {
    assert forall x :: x in a[..|a| - 1] ==> x in a;
  }

  lemma SameLast<T>(key: T -> nat, a: seq<T>, b: seq<T>) returns (x: T)
    requires a != [] && b != []
    requires Sorted(key, a) && Sorted(key, b)
    requires multiset(a) == multiset(b)
    requires KeyInjective(key, a)
    ensures a[|a| - 1] == b[|b| - 1] == x
  {
    x := a[|a| - 1];
    var y := b[|b| - 1];
    assert x in b && y in a by {
      assert x in multiset(a) && y in multiset(b);
    }
    var i :| 0 <= i < |b| && b[i] == x;
    var j :| 0 <= j < |a| && a[j] == y;
    assert key(x) <= key(y) <= key(x);
    assert x in a;
  }

  /** Sorting forgets the order of its input when keys tell the elements apart. */
  lemma SortCanonical<T>(key: T -> nat, a: seq<T>, b: seq<T>)
    requires multiset(a) == multiset(b)
    requires KeyInjective(key, a)
    ensures SortBy(key, a) == SortBy(key, b)
  {
    SortSorts(key, a);
    SortSorts(key, b);
    assert KeyInjective(key, SortBy(key, a)) by {
      SortMembers(key, a);
    }
    SortedUnique(key, SortBy(key, a), SortBy(key, b));
  }

  /** A sorted sequence is left alone. */
  lemma {:induction false} SortIdempotent<T>(key: T -> nat, s: seq<T>)
    requires Sorted(key, s)
    ensures SortBy(key, s) == s
  {
    if s != [] {
      var front := s[..|s| - 1];
      SortIdempotent(key, front);
      assert s == front + [s[|s| - 1]];
      assert front == [] || front[|front| - 1] == s[|s| - 2];
    }
  }

  // ---------------------------------------------------------------------------------------------
  // Mapping a function over a permuted sequence

  function MapSeq<T, U>(f: T -> U, s: seq<T>): (r: seq<U>)
    ensures |r| == |s|
    ensures forall i :: 0 <= i < |s| ==> r[i] == f(s[i])
  {
    seq(|s|, i requires 0 <= i < |s| => f(s[i]))
  }

  lemma MapAppend<T, U>(f: T -> U, a: seq<T>, b: seq<T>)
    ensures MapSeq(f, a + b) == MapSeq(f, a) + MapSeq(f, b)
  {
  }

  lemma {:induction false} MapPermuted<T, U>(f: T -> U, a: seq<T>, b: seq<T>)
    requires multiset(a) == multiset(b)
    ensures multiset(MapSeq(f, a)) == multiset(MapSeq(f, b))
  {
    hide MapSeq;
    if a != [] {
      var front, x := a[..|a| - 1], a[|a| - 1];
      var l, r := TakeOut(a, b, x);
      assert a == front + [x];
      Rotate(l, x, r);
      DropSame(front, l + r, x);
      MapPermuted(f, front, l + r);
      MapSplit(f, front, x, l, r);
    } else {
      NonePermuted(b);
    }
  }

  /** Where an element of one list stands in a permutation of it. */
  lemma TakeOut<T>(a: seq<T>, b: seq<T>, x: T) returns (l: seq<T>, r: seq<T>)
    requires multiset(a) == multiset(b) && x in a
    ensures b == l + ([x] + r)
  {
    assert x in multiset(b);
    var i :| 0 <= i < |b| && b[i] == x;
    l, r := b[..i], b[i + 1..];
  }

  lemma NonePermuted<T>(b: seq<T>)
    requires multiset(b) == multiset{}
    ensures b == []
  {
    assert |multiset(b)| == |b|;
  }

  lemma Rotate<T>(l: seq<T>, x: T, r: seq<T>)
    ensures multiset(l + ([x] + r)) == multiset(l + r + [x])
  {
  }

  lemma MapSplit<T, U>(f: T -> U, front: seq<T>, x: T, l: seq<T>, r: seq<T>)
    requires multiset(MapSeq(f, front)) == multiset(MapSeq(f, l + r))
    ensures multiset(MapSeq(f, front + [x])) == multiset(MapSeq(f, l + ([x] + r)))
  {
    assert MapSeq(f, [x]) == [f(x)];
    MapAppend(f, front, [x]);
    MapAppend(f, l, [x] + r);
    MapAppend(f, [x], r);
    MapAppend(f, l, r);
    Rotate(MapSeq(f, l), f(x), MapSeq(f, r));
  }

  // ---------------------------------------------------------------------------------------------
  // Distinct elements

  lemma {:induction false} DistinctCount<T>(s: seq<T>, x: T)
    requires Distinct(s)
    ensures multiset(s)[x] == if x in s then 1 else 0
  {
    if s != [] {
      var front, last := s[..|s| - 1], s[|s| - 1];
      assert s == front + [last];
      DistinctCount(front, x);
    }
  }

  lemma DistinctBag<T>(a: seq<T>, b: seq<T>)
    requires Distinct(a) && multiset(a) == multiset(b)
    ensures Distinct(b)
  {
    forall i, j | 0 <= i < j < |b| ensures b[i] != b[j] {
      if b[i] == b[j] {
        DistinctCount(a, b[i]);
        TwoPositions(b, i, j);
      }
    }
  }

  lemma TwoPositions<T>(b: seq<T>, i: nat, j: nat)
    requires i < j < |b| && b[i] == b[j]
    ensures multiset(b)[b[i]] >= 2
  {
    assert b == b[..i] + [b[i]] + b[i + 1..j] + [b[j]] + b[j + 1..];
  }
}
