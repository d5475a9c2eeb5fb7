/** Stable sorting by a two-level key, and the one sequence it can produce. */
module Sorting {

  datatype Key = Key(major: int, minor: int)

  predicate Le(a: Key, b: Key)
  {
    a.major < b.major || (a.major == b.major && a.minor <= b.minor)
  }

  ghost predicate Sorted<T>(s: seq<T>, key: T -> Key)
  {
    forall i, j :: 0 <= i < j < |s| ==> Le(key(s[i]), key(s[j]))
  }

  /** The elements with key `k`, in the order of `s`. */
  ghost function WithKey<T>(s: seq<T>, key: T -> Key, k: Key): seq<T>
    decreases |s|
  {
    if s == [] then []
    else
      var init, last := s[..|s| - 1], s[|s| - 1];
      if key(last) == k then WithKey(init, key, k) + [last] else WithKey(init, key, k)
  }

  /** `r` is a stable sort of `s`: sorted, and equal keys keep their order. */
  ghost predicate IsStableSort<T>(r: seq<T>, s: seq<T>, key: T -> Key)
  {
    Sorted(r, key) && forall k :: WithKey(r, key, k) == WithKey(s, key, k)
  }

  function Insert<T>(s: seq<T>, x: T, key: T -> Key): (r: seq<T>)
    ensures multiset(r) == multiset(s) + multiset{x}
    decreases |s|
  {
    if s == [] || Le(key(s[|s| - 1]), key(x)) then s + [x]
    else
      assert s == s[..|s| - 1] + [s[|s| - 1]];
      Insert(s[..|s| - 1], x, key) + [s[|s| - 1]]
  }

  function StableSort<T>(s: seq<T>, key: T -> Key): (r: seq<T>)
    ensures multiset(r) == multiset(s)
    decreases |s|
  {
    if s == [] then []
    else
      assert s == s[..|s| - 1] + [s[|s| - 1]];
      Insert(StableSort(s[..|s| - 1], key), s[|s| - 1], key)
  }

  lemma WithKeySnoc<T>(s: seq<T>, x: T, key: T -> Key, k: Key)
    ensures WithKey(s + [x], key, k) == if key(x) == k then WithKey(s, key, k) + [x] else WithKey(s, key, k)
  {
    assert (s + [x])[..|s|] == s;
  }

  lemma {:induction false} WithKeyConcat<T>(a: seq<T>, b: seq<T>, key: T -> Key, k: Key)
    ensures WithKey(a + b, key, k) == WithKey(a, key, k) + WithKey(b, key, k)
    decreases |b|
  {
    if b == [] {
      assert a + b == a;
    } else {
      var init, last := b[..|b| - 1], b[|b| - 1];
      assert a + b == (a + init) + [last] && b == init + [last];
      WithKeySnoc(a + init, last, key, k);
      WithKeySnoc(init, last, key, k);
      WithKeyConcat(a, init, key, k);
    }
  }

  lemma {:induction false} WithKeyNone<T>(s: seq<T>, key: T -> Key, k: Key)
    requires forall i :: 0 <= i < |s| ==> key(s[i]) != k
    ensures WithKey(s, key, k) == []
    decreases |s|
  {
    if s != [] { WithKeyNone(s[..|s| - 1], key, k); }
  }

  lemma {:induction false} WithKeyFrom<T>(s: seq<T>, key: T -> Key, k: Key, x: T)
    requires x in WithKey(s, key, k)
    ensures x in s && key(x) == k
    decreases |s|
  {
    var init, last := s[..|s| - 1], s[|s| - 1];
    if x in WithKey(init, key, k) { WithKeyFrom(init, key, k, x); }
  }

  lemma {:induction false} WithKeyFinds<T>(s: seq<T>, key: T -> Key, i: nat)
    requires i < |s|
    ensures s[i] in WithKey(s, key, key(s[i]))
    decreases |s|
  {
    if i < |s| - 1 { WithKeyFinds(s[..|s| - 1], key, i); }
  }

  lemma {:induction false} InsertSorts<T>(s: seq<T>, x: T, key: T -> Key)
    requires Sorted(s, key)
    ensures Sorted(Insert(s, x, key), key)
    decreases |s|
  {
    if s != [] && !Le(key(s[|s| - 1]), key(x)) {
      var init, last := s[..|s| - 1], s[|s| - 1];
      InsertSorts(init, x, key);
      var r := Insert(init, x, key);
      forall i | 0 <= i < |r|
        ensures Le(key(r[i]), key(last))
      {
        assert r[i] in multiset(r);
        assert r[i] == x || r[i] in multiset(init);
        if r[i] != x { var j :| 0 <= j < |init| && init[j] == r[i]; }
      }
    }
  }

  lemma {:induction false} InsertKeeps<T>(s: seq<T>, x: T, key: T -> Key, k: Key)
    requires Sorted(s, key)
    ensures WithKey(Insert(s, x, key), key, k) == WithKey(s + [x], key, k)
    decreases |s|
  {
    if s != [] && !Le(key(s[|s| - 1]), key(x)) {
      var init, last := s[..|s| - 1], s[|s| - 1];
      InsertKeeps(init, x, key, k);
      WithKeySnoc(Insert(init, x, key), last, key, k);
      WithKeySnoc(init, x, key, k);
      WithKeySnoc(s, x, key, k);
    }
  }

  lemma {:induction false} StableSortIsStable<T>(s: seq<T>, key: T -> Key)
    ensures IsStableSort(StableSort(s, key), s, key)
    decreases |s|
  {
    if s != [] {
      var init, last := s[..|s| - 1], s[|s| - 1];
      StableSortIsStable(init, key);
      var r := StableSort(init, key);
      InsertSorts(r, last, key);
      forall k
        ensures WithKey(Insert(r, last, key), key, k) == WithKey(s, key, k)
      {
        InsertKeeps(r, last, key, k);
        WithKeySnoc(r, last, key, k);
      }
    }
  }

  lemma LastKeys<T>(a: seq<T>, b: seq<T>, key: T -> Key)
    requires Sorted(a, key) && Sorted(b, key) && a != []
    requires forall k :: WithKey(a, key, k) == WithKey(b, key, k)
    ensures b != [] && Le(key(a[|a| - 1]), key(b[|b| - 1]))
  {
    var x := a[|a| - 1];
    WithKeyFinds(a, key, |a| - 1);
    assert x in WithKey(b, key, key(x));
    WithKeyFrom(b, key, key(x), x);
    var j :| 0 <= j < |b| && b[j] == x;
  }

  lemma SameEnds<T>(a: seq<T>, x: T, b: seq<T>, y: T)
    requires a + [x] == b + [y]
    ensures a == b && x == y
  {
    assert (a + [x])[..|a|] == a && (b + [y])[..|b|] == b;
    assert (a + [x])[|a|] == x && (b + [y])[|b|] == y;
  }

  /** A sequence has only one stable sort. */
  lemma {:induction false} StableSortUnique<T>(a: seq<T>, b: seq<T>, key: T -> Key)
    requires Sorted(a, key) && Sorted(b, key)
    requires forall k :: WithKey(a, key, k) == WithKey(b, key, k)
    ensures a == b
    decreases |a|
  {
    if a == [] {
      if b != [] { LastKeys(b, a, key); }
    } else {
      LastKeys(a, b, key);
      LastKeys(b, a, key);
      var ai, al, bi, bl := a[..|a| - 1], a[|a| - 1], b[..|b| - 1], b[|b| - 1];
      assert a == ai + [al] && b == bi + [bl];
      forall k
        ensures al == bl && WithKey(ai, key, k) == WithKey(bi, key, k)
      {
        WithKeySnoc(ai, al, key, key(al));
        WithKeySnoc(bi, bl, key, key(al));
        SameEnds(WithKey(ai, key, key(al)), al, WithKey(bi, key, key(al)), bl);
        WithKeySnoc(ai, al, key, k);
        WithKeySnoc(bi, bl, key, k);
        if key(al) == k { SameEnds(WithKey(ai, key, k), al, WithKey(bi, key, k), bl); }
      }
      var k := key(al);
      assert WithKey(ai, key, k) == WithKey(bi, key, k);
      StableSortUnique(ai, bi, key);
    }
  }

  /** When equal keys mean equal elements, a collection has one sorted listing. */
  lemma {:induction false} SortedListingUnique<T>(a: seq<T>, b: seq<T>, key: T -> Key)
    requires Sorted(a, key) && Sorted(b, key) && multiset(a) == multiset(b)
    requires forall x, y :: x in a && y in a && key(x) == key(y) ==> x == y
    ensures a == b
    decreases |a|
  {
    if a == [] {
      assert |multiset(b)| == 0;
    } else {
      LastAmong(a, b, key);
      LastAmong(b, a, key);
      var ai, al, bi, bl := a[..|a| - 1], a[|a| - 1], b[..|b| - 1], b[|b| - 1];
      assert al == bl;
      DropLast(a, key);
      DropLast(b, key);
      hide Sorted, Le;
      SortedListingUnique(ai, bi, key);
    }
  }

  lemma DropLast<T>(s: seq<T>, key: T -> Key)
    requires s != [] && Sorted(s, key)
    ensures var init, last := s[..|s| - 1], s[|s| - 1];
      && s == init + [last] && Sorted(init, key)
      && multiset(init) == multiset(s) - multiset{last}
      && forall x :: x in init ==> x in s
  {
    var init, last := s[..|s| - 1], s[|s| - 1];
    assert s == init + [last];
  }

  lemma LastAmong<T>(a: seq<T>, b: seq<T>, key: T -> Key)
    requires Sorted(b, key) && multiset(a) == multiset(b) && a != []
    ensures b != [] && a[|a| - 1] in b && Le(key(a[|a| - 1]), key(b[|b| - 1]))
  {
    var al := a[|a| - 1];
    assert al in multiset(a);
    assert al in multiset(b);
    var i :| 0 <= i < |b| && b[i] == al;
  }

  /** Everything in `a` belongs before everything in `b`. */
  ghost predicate Before<T>(a: seq<T>, b: seq<T>, key: T -> Key)
  {
    forall i, j :: 0 <= i < |a| && 0 <= j < |b| ==> key(a[i]).major < key(b[j]).major
  }

  lemma SwapBlocks<T>(a: seq<T>, b: seq<T>, key: T -> Key, k: Key)
    requires Before(a, b, key)
    ensures WithKey(b + a, key, k) == WithKey(a + b, key, k)
  {
    WithKeyConcat(a, b, key, k);
    WithKeyConcat(b, a, key, k);
    if i :| 0 <= i < |a| && key(a[i]) == k {
      WithKeyNone(b, key, k);
    } else {
      WithKeyNone(a, key, k);
    }
  }

  /** Three sorted blocks given newest first sort to the same blocks oldest first. */
  lemma BlocksReverse<T>(newest: seq<T>, middle: seq<T>, oldest: seq<T>, key: T -> Key)
    requires Sorted(newest, key) && Sorted(middle, key) && Sorted(oldest, key)
    requires Before(oldest, middle, key) && Before(middle, newest, key) && Before(oldest, newest, key)
    ensures StableSort(newest + middle + oldest, key) == oldest + middle + newest
  {
    var given, wanted := newest + middle + oldest, oldest + middle + newest;
    StableSortIsStable(given, key);
    assert Sorted(wanted, key);
    forall k
      ensures WithKey(given, key, k) == WithKey(wanted, key, k)
    {
      WithKeyConcat(newest + middle, oldest, key, k);
      WithKeyConcat(oldest + middle, newest, key, k);
      WithKeyConcat(newest, middle, key, k);
      WithKeyConcat(oldest, middle, key, k);
      SwapBlocks(middle, newest, key, k);
      SwapBlocks(oldest, newest, key, k);
      SwapBlocks(oldest, middle, key, k);
      WithKeyConcat(middle, newest, key, k);
      WithKeyConcat(oldest, newest, key, k);
      WithKeyConcat(newest, oldest, key, k);
      WithKeyConcat(middle, oldest, key, k);
      Rotate(WithKey(newest, key, k), WithKey(middle, key, k), WithKey(oldest, key, k));
    }
    StableSortUnique(StableSort(given, key), wanted, key);
  }

  lemma Rotate<T>(n: seq<T>, m: seq<T>, o: seq<T>)
    requires m + n == n + m && o + n == n + o && o + m == m + o
    ensures n + m + o == o + m + n
  {
    assert n + m + o == m + n + o == m + (n + o) == m + (o + n) == m + o + n;
  }
}
