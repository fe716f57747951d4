/** Python's `sorted(xs, key=k, reverse=True)`, the ordering both NLI
    scripts apply to their candidate windows: a stable sort by descending
    key, written as an insertion sort on sequences. */
module Ranking {

  /** No element is followed by one with a larger key. */
  predicate SortedDesc<T>(s: seq<T>, key: T -> real) {
    forall i, j :: 0 <= i < j < |s| ==> key(s[i]) >= key(s[j])
  }

  /** The elements of `s` whose key is exactly `k`, in their order in `s`. */
  function WithKey<T>(s: seq<T>, key: T -> real, k: real): seq<T> {
    if s == [] then []
    else WithKey(s[..|s| - 1], key, k) + (if key(s[|s| - 1]) == k then [s[|s| - 1]] else [])
  }

  /** Places `x` after every element whose key is at least its own. */
  function Insert<T>(x: T, s: seq<T>, key: T -> real): seq<T> {
    if s == [] then [x]
    else if key(s[0]) >= key(x) then [s[0]] + Insert(x, s[1..], key)
    else [x] + s
  }

  /** `sorted(xs, key=key, reverse=True)`. */
  function SortDesc<T>(xs: seq<T>, key: T -> real): seq<T> {
    if xs == [] then []
    else Insert(xs[|xs| - 1], SortDesc(xs[..|xs| - 1], key), key)
  }

  lemma {:induction false} InsertPerm<T>(x: T, s: seq<T>, key: T -> real)
    ensures multiset(Insert(x, s, key)) == multiset(s) + multiset{x}
  {
    if s != [] && key(s[0]) >= key(x) {
      InsertPerm(x, s[1..], key);
      assert s == [s[0]] + s[1..];
    }
  }

  lemma {:induction false} InsertSorted<T>(x: T, s: seq<T>, key: T -> real)
    requires SortedDesc(s, key)
    ensures SortedDesc(Insert(x, s, key), key)
  {
    if s != [] && key(s[0]) >= key(x) {
      var rest := Insert(x, s[1..], key);
      InsertSorted(x, s[1..], key);
      InsertPerm(x, s[1..], key);
      forall j | 0 <= j < |rest|
        ensures key(s[0]) >= key(rest[j])
      {
        assert rest[j] in multiset(rest);
        if rest[j] != x {
          assert rest[j] in multiset(s[1..]);
          var m :| 0 <= m < |s[1..]| && s[1..][m] == rest[j];
          assert s[m + 1] == rest[j];
        }
      }
    }
  }

  /** The result is ordered by descending key and is a permutation of `xs`. */
  lemma {:induction false} SortDescSorted<T>(xs: seq<T>, key: T -> real)
    ensures SortedDesc(SortDesc(xs, key), key)
    ensures multiset(SortDesc(xs, key)) == multiset(xs)
  {
    if xs != [] {
      var init := xs[..|xs| - 1];
      SortDescSorted(init, key);
      InsertSorted(xs[|xs| - 1], SortDesc(init, key), key);
      InsertPerm(xs[|xs| - 1], SortDesc(init, key), key);
      assert xs == init + [xs[|xs| - 1]];
    }
  }

  lemma {:induction false} WithKeyConcat<T>(a: seq<T>, b: seq<T>, key: T -> real, k: real)
    ensures WithKey(a + b, key, k) == WithKey(a, key, k) + WithKey(b, key, k)
    decreases |b|
  {
    if b == [] {
      assert a + b == a;
    } else {
      var b' := b[..|b| - 1];
      assert (a + b)[..|a + b| - 1] == a + b';
      WithKeyConcat(a, b', key, k);
    }
  }

  lemma {:induction false} WithKeyNone<T>(s: seq<T>, key: T -> real, k: real)
    requires forall i :: 0 <= i < |s| ==> key(s[i]) < k
    ensures WithKey(s, key, k) == []
  {
    if s != [] {
      WithKeyNone(s[..|s| - 1], key, k);
    }
  }

  lemma {:induction false} InsertWithKey<T>(x: T, s: seq<T>, key: T -> real, k: real)
    requires SortedDesc(s, key)
    ensures WithKey(Insert(x, s, key), key, k)
         == WithKey(s, key, k) + (if key(x) == k then [x] else [])
  {
    if s == [] {
      assert WithKey([x], key, k) == WithKey([x][..0], key, k) + (if key(x) == k then [x] else []);
    } else {
      var head := [s[0]];
      assert s == head + s[1..];
      WithKeyConcat(head, s[1..], key, k);
      if key(s[0]) >= key(x) {
        InsertWithKey(x, s[1..], key, k);
        WithKeyConcat(head, Insert(x, s[1..], key), key, k);
      } else {
        WithKeyConcat([x], s, key, k);
        assert WithKey([x], key, k) == WithKey([x][..0], key, k) + (if key(x) == k then [x] else []);
        if key(x) == k {
          WithKeyNone(s, key, k);
        }
      }
    }
  }

  /** Stability: elements with equal keys keep their relative order. */
  lemma {:induction false} SortDescStable<T>(xs: seq<T>, key: T -> real, k: real)
    ensures WithKey(SortDesc(xs, key), key, k) == WithKey(xs, key, k)
  {
    if xs != [] {
      var init := xs[..|xs| - 1];
      SortDescStable(init, key, k);
      SortDescSorted(init, key);
      InsertWithKey(xs[|xs| - 1], SortDesc(init, key), key, k);
    }
  }
}
