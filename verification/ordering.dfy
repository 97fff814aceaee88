/**
 * The orders the scripts sort by: `np.unique` (sorted distinct values), the
 * key order of `groupby`, and the stable multi-column `sort_values`.
 */
module Ordering {
  import opened Tables

  /** `lt` is irreflexive, transitive and relates any two different values. */
  ghost predicate StrictTotalOrder<T(!new)>(lt: (T, T) -> bool)
  {
    (forall a :: !lt(a, a))
    && (forall a, b, c :: lt(a, b) && lt(b, c) ==> lt(a, c))
    && (forall a, b :: a != b ==> lt(a, b) || lt(b, a))
  }

  /** Each element is strictly below every later one, so there are no repeats. */
  predicate StrictlySorted<T>(s: seq<T>, lt: (T, T) -> bool)
  {
    forall i, j :: 0 <= i < j < |s| ==> lt(s[i], s[j])
  }

  /** Python's `<` on `str`: lexicographic by code point, a proper prefix first. */
  predicate StrLt(a: string, b: string)
    decreases |a|
  {
    if a == [] then b != []
    else if b == [] then false
    else if a[0] != b[0] then a[0] < b[0]
    else StrLt(a[1..], b[1..])
  }

  predicate IntLt(a: int, b: int)
  {
    a < b
  }

  lemma {:induction false} StrLtIrreflexive(a: string)
    ensures !StrLt(a, a)
  {
    if a != [] {
      StrLtIrreflexive(a[1..]);
    }
  }

  lemma {:induction false} StrLtTransitive(a: string, b: string, c: string)
    requires StrLt(a, b) && StrLt(b, c)
    ensures StrLt(a, c)
    decreases |a|
  {
    if a != [] && b != [] && c != [] && a[0] == b[0] && b[0] == c[0] {
      StrLtTransitive(a[1..], b[1..], c[1..]);
    }
  }

  lemma {:induction false} StrLtTotal(a: string, b: string)
    requires a != b
    ensures StrLt(a, b) || StrLt(b, a)
    decreases |a|
  {
    if a != [] && b != [] && a[0] == b[0] {
      assert a == [a[0]] + a[1..] && b == [b[0]] + b[1..];
      StrLtTotal(a[1..], b[1..]);
    }
  }

  lemma StrLtIsStrictTotalOrder()
    ensures StrictTotalOrder(StrLt)
  {
    forall a | true ensures !StrLt(a, a) {
      StrLtIrreflexive(a);
    }
    forall a, b, c | StrLt(a, b) && StrLt(b, c) ensures StrLt(a, c) {
      StrLtTransitive(a, b, c);
    }
    forall a, b | a != b ensures StrLt(a, b) || StrLt(b, a) {
      StrLtTotal(a, b);
    }
  }

  lemma IntLtIsStrictTotalOrder()
    ensures StrictTotalOrder(IntLt)
  {
  }

  /** The key order of `groupby(['Stkcd', <integer column>])`: code first, then the integer. */
  predicate CodeIntLt(a: (Code, int), b: (Code, int))
  {
    StrLt(a.0, b.0) || (a.0 == b.0 && a.1 < b.1)
  }

  lemma CodeIntLtIsStrictTotalOrder()
    ensures StrictTotalOrder(CodeIntLt)
  {
    StrLtIsStrictTotalOrder();
  }

  /** Adds `x` to a strictly sorted sequence unless it is already there. */
  function InsertDistinct<T(==)>(x: T, s: seq<T>, lt: (T, T) -> bool): (r: seq<T>)
    ensures forall i :: 0 <= i < |r| ==> r[i] == x || r[i] in s
    ensures x in r && forall i :: 0 <= i < |s| ==> s[i] in r
  {
    if s == [] then [x]
    else if x == s[0] then s
    else if lt(x, s[0]) then [x] + s
    else
      var rest := InsertDistinct(x, s[1..], lt);
      assert forall i :: 1 <= i < |s| ==> s[i] == s[1..][i - 1];
      [s[0]] + rest
  }

  /**
   * `np.unique`: the distinct values of `s` in ascending order. Both directions
   * of membership are stated here; sortedness is `SortedDistinctSorted`.
   */
  function SortedDistinct<T(==)>(s: seq<T>, lt: (T, T) -> bool): (r: seq<T>)
    ensures forall i :: 0 <= i < |r| ==> r[i] in s
    ensures forall i :: 0 <= i < |s| ==> s[i] in r
  {
    if s == [] then []
    else
      var init := SortedDistinct(s[..|s| - 1], lt);
      assert forall i :: 0 <= i < |s| - 1 ==> s[i] == s[..|s| - 1][i];
      InsertDistinct(s[|s| - 1], init, lt)
  }

  lemma {:induction false} InsertDistinctSorted<T(!new)>(x: T, s: seq<T>, lt: (T, T) -> bool)
    requires StrictTotalOrder(lt)
    requires StrictlySorted(s, lt)
    ensures StrictlySorted(InsertDistinct(x, s, lt), lt)
  {
    if s != [] && x != s[0] && !lt(x, s[0]) {
      assert lt(s[0], x);
      InsertDistinctSorted(x, s[1..], lt);
      var rest := InsertDistinct(x, s[1..], lt);
      forall k | 0 <= k < |rest| ensures lt(s[0], rest[k]) {
        if rest[k] != x {
          assert rest[k] in s[1..];
        }
      }
      assert InsertDistinct(x, s, lt) == [s[0]] + rest;
    }
  }

  lemma {:induction false} SortedDistinctSorted<T(!new)>(s: seq<T>, lt: (T, T) -> bool)
    requires StrictTotalOrder(lt)
    ensures StrictlySorted(SortedDistinct(s, lt), lt)
  {
    if s != [] {
      SortedDistinctSorted(s[..|s| - 1], lt);
      InsertDistinctSorted(s[|s| - 1], SortedDistinct(s[..|s| - 1], lt), lt);
    }
  }

  /** A strictly sorted sequence under an irreflexive order has no repeated value. */
  lemma StrictlySortedDistinct<T(!new)>(s: seq<T>, lt: (T, T) -> bool, i: int, j: int)
    requires StrictTotalOrder(lt) && StrictlySorted(s, lt)
    requires 0 <= i < |s| && 0 <= j < |s| && s[i] == s[j]
    ensures i == j
  {
  }

  /** Position of a value in a sequence that holds it. */
  function IndexIn<T(==)>(x: T, s: seq<T>): (k: nat)
    requires x in s
    ensures k < |s| && s[k] == x
    ensures forall i :: 0 <= i < k ==> s[i] != x
  {
    if s[0] == x then 0
    else
      assert x in s[1..];
      1 + IndexIn(x, s[1..])
  }

  /** The orders a stable sort needs on its keys: irreflexive and transitive. */
  ghost predicate StrictOrder<K(!new)>(klt: (K, K) -> bool)
  {
    (forall a :: !klt(a, a)) && (forall a, b, c :: klt(a, b) && klt(b, c) ==> klt(a, c))
  }

  /** No later element of `s` has a key strictly below an earlier one's. */
  predicate SortedBy<T, K>(s: seq<T>, key: T -> K, klt: (K, K) -> bool)
  {
    forall i, j :: 0 <= i < j < |s| ==> !klt(key(s[j]), key(s[i]))
  }

  /** Inserts `x` after every element of `s` whose key is not strictly above `x`'s. */
  function InsertStable<T, K>(x: T, s: seq<T>, key: T -> K, klt: (K, K) -> bool): (r: seq<T>)
    ensures multiset(r) == multiset(s) + multiset{x}
  {
    if s == [] then [x]
    else if klt(key(x), key(s[0])) then [x] + s
    else
      assert s == [s[0]] + s[1..];
      [s[0]] + InsertStable(x, s[1..], key, klt)
  }

  /**
   * A stable sort by key (`sort_values` on several columns): rows are inserted
   * one by one in input order, each after every row whose key is not above its own.
   */
  function SortStable<T, K>(s: seq<T>, key: T -> K, klt: (K, K) -> bool): (r: seq<T>)
    ensures multiset(r) == multiset(s)
  {
    if s == [] then []
    else
      assert s == s[..|s| - 1] + [s[|s| - 1]];
      InsertStable(s[|s| - 1], SortStable(s[..|s| - 1], key, klt), key, klt)
  }

  lemma {:induction false} InsertStableSorted<T, K(!new)>(x: T, s: seq<T>, key: T -> K, klt: (K, K) -> bool)
    requires StrictOrder(klt) && SortedBy(s, key, klt)
    ensures SortedBy(InsertStable(x, s, key, klt), key, klt)
  {
    if s == [] {
    } else if klt(key(x), key(s[0])) {
      var r := [x] + s;
      forall i, j | 0 <= i < j < |r| ensures !klt(key(r[j]), key(r[i])) {
        if i == 0 {
          assert r[j] == s[j - 1];
          assert !klt(key(s[j - 1]), key(s[0]));
        }
      }
    } else {
      InsertStableSorted(x, s[1..], key, klt);
      var rest := InsertStable(x, s[1..], key, klt);
      assert multiset(rest) == multiset(s[1..]) + multiset{x};
      forall k | 0 <= k < |rest| ensures !klt(key(rest[k]), key(s[0])) {
        assert rest[k] in multiset(rest);
        if rest[k] != x {
          assert rest[k] in multiset(s[1..]);
          assert rest[k] in s[1..];
        }
      }
    }
  }

  /** The stable sort's result is sorted by key (and, by its ensures, a permutation of the input). */
  lemma {:induction false} SortStableSorted<T, K(!new)>(s: seq<T>, key: T -> K, klt: (K, K) -> bool)
    requires StrictOrder(klt)
    ensures SortedBy(SortStable(s, key, klt), key, klt)
  {
    if s != [] {
      SortStableSorted(s[..|s| - 1], key, klt);
      InsertStableSorted(s[|s| - 1], SortStable(s[..|s| - 1], key, klt), key, klt);
    }
  }

  lemma SortedByTail<T, K>(s: seq<T>, key: T -> K, klt: (K, K) -> bool)
    requires s != [] && SortedBy(s, key, klt)
    ensures SortedBy(s[1..], key, klt)
  {
    var tail := s[1..];
    forall i, j | 0 <= i < j < |tail| ensures !klt(key(tail[j]), key(tail[i])) {
      assert tail[i] == s[i + 1] && tail[j] == s[j + 1];
    }
  }

  lemma InsertStableCons<T, K>(x: T, s: seq<T>, key: T -> K, klt: (K, K) -> bool)
    requires s != [] && !klt(key(x), key(s[0]))
    ensures InsertStable(x, s, key, klt) == [s[0]] + InsertStable(x, s[1..], key, klt)
  {
  }

  lemma FilterCons<T>(a: T, rest: seq<T>, tail: seq<T>, extra: seq<T>, p: T -> bool)
    requires Filter(rest, p) == Filter(tail, p) + extra
    ensures Filter([a] + rest, p) == Filter([a] + tail, p) + extra
  {
    var head := Filter([a], p);
    calc {
      Filter([a] + rest, p);
    == { FilterConcat([a], rest, p); }
      head + Filter(rest, p);
    ==
      head + (Filter(tail, p) + extra);
    == { assert head + (Filter(tail, p) + extra) == (head + Filter(tail, p)) + extra; }
      (head + Filter(tail, p)) + extra;
    == { FilterConcat([a], tail, p); }
      Filter([a] + tail, p) + extra;
    }
  }

  lemma KeepsTiesStep<T, K>(x: T, s: seq<T>, key: T -> K, klt: (K, K) -> bool, p: T -> bool, extra: seq<T>)
    requires s != [] && !klt(key(x), key(s[0]))
    requires Filter(InsertStable(x, s[1..], key, klt), p) == Filter(s[1..], p) + extra
    ensures Filter(InsertStable(x, s, key, klt), p) == Filter(s, p) + extra
  {
    InsertStableCons(x, s, key, klt);
    FilterCons(s[0], InsertStable(x, s[1..], key, klt), s[1..], extra, p);
    assert [s[0]] + s[1..] == s;
  }

  /** In a sorted sequence whose head has a key above `k`, no element has key `k`. */
  lemma NoTiesAfterHigherHead<T, K(!new)>(s: seq<T>, key: T -> K, klt: (K, K) -> bool, p: T -> bool, k: K)
    requires StrictOrder(klt) && SortedBy(s, key, klt)
    requires forall e :: p(e) <==> key(e) == k
    requires s != [] && klt(k, key(s[0]))
    ensures Filter(s, p) == []
  {
    forall j | 0 <= j < |s| ensures !p(s[j]) {
      assert j > 0 ==> !klt(key(s[j]), key(s[0]));
    }
    FilterKeepsNone(s, p);
  }

  /** Inserting `x` into a sorted sequence puts it after every element with the same key. */
  lemma {:induction false} InsertStableKeepsTies<T, K(!new)>(x: T, s: seq<T>, key: T -> K, klt: (K, K) -> bool, p: T -> bool, k: K)
    requires StrictOrder(klt) && SortedBy(s, key, klt)
    requires forall e :: p(e) <==> key(e) == k
    ensures Filter(InsertStable(x, s, key, klt), p) == Filter(s, p) + (if p(x) then [x] else [])
  {
    if s == [] {
      FilterSnoc([], x, p);
    } else if klt(key(x), key(s[0])) {
      assert ([x] + s)[1..] == s;
      if p(x) {
        NoTiesAfterHigherHead(s, key, klt, p, k);
      }
    } else {
      SortedByTail(s, key, klt);
      InsertStableKeepsTies(x, s[1..], key, klt, p, k);
      KeepsTiesStep(x, s, key, klt, p, if p(x) then [x] else []);
    }
  }

  /** Stability: the rows sharing a key come out of the sort in their input order. */
  lemma {:induction false} SortStableKeepsTies<T, K(!new)>(s: seq<T>, key: T -> K, klt: (K, K) -> bool, p: T -> bool, k: K)
    requires StrictOrder(klt)
    requires forall e :: p(e) <==> key(e) == k
    ensures Filter(SortStable(s, key, klt), p) == Filter(s, p)
  {
    if s != [] {
      var init := s[..|s| - 1];
      SortStableKeepsTies(init, key, klt, p, k);
      SortStableSorted(init, key, klt);
      InsertStableKeepsTies(s[|s| - 1], SortStable(init, key, klt), key, klt, p, k);
      FilterSnoc(init, s[|s| - 1], p);
      assert init + [s[|s| - 1]] == s;
    }
  }
}
