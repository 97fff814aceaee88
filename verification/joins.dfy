/**
 * Equality joins (`pd.merge` with `how='left'` and `how='inner'`) and
 * `drop_duplicates(keep='last')`, over rows of any type with a key function.
 * A missing key (NaN, NaT) is a value like any other here, so it matches an
 * equal missing key, as pandas does when merging.
 */
module Joins {
  import opened Tables

  /** The right rows whose key is `k`, in right order. */
  function Matches<R, K(==)>(right: seq<R>, rk: R -> K, k: K): (m: seq<R>)
    ensures |m| <= |right|
    ensures forall i :: 0 <= i < |m| ==> rk(m[i]) == k && m[i] in right
    ensures forall i :: 0 <= i < |right| && rk(right[i]) == k ==> right[i] in m
    ensures m == [] <==> forall i :: 0 <= i < |right| ==> rk(right[i]) != k
  {
    if right == [] then []
    else
      assert forall i :: 1 <= i < |right| ==> right[i] == right[1..][i - 1];
      (if rk(right[0]) == k then [right[0]] else []) + Matches(right[1..], rk, k)
  }

  /** The first right row with key `k`, or nothing. */
  function Lookup<R, K(==)>(right: seq<R>, rk: R -> K, k: K): (o: Option<R>)
    ensures o.Some? <==> exists i :: 0 <= i < |right| && rk(right[i]) == k
    ensures o.Some? ==> o.value in right && rk(o.value) == k
  {
    var m := Matches(right, rk, k);
    if m == [] then None else Some(m[0])
  }

  /** No two rows of `s` share a key. */
  predicate UniqueKeys<T, K(==)>(s: seq<T>, key: T -> K)
  {
    forall i, j :: 0 <= i < j < |s| ==> key(s[i]) != key(s[j])
  }

  /** The rows a left merge produces for one left row: one per match, or one with nothing attached. */
  function JoinRow<L, R, K(==), O>(l: L, right: seq<R>, lk: L -> K, rk: R -> K, f: (L, Option<R>) -> O): (rows: seq<O>)
  {
    var m := Matches(right, rk, lk(l));
    if m == [] then [f(l, None)] else seq(|m|, i requires 0 <= i < |m| => f(l, Some(m[i])))
  }

  /** `pd.merge(left, right, how='left')`: left order kept, one output row per matching pair. */
  function LeftJoin<L, R, K(==), O>(left: seq<L>, right: seq<R>, lk: L -> K, rk: R -> K, f: (L, Option<R>) -> O): (r: seq<O>)
    ensures |r| >= |left|
  {
    if left == [] then []
    else LeftJoin(left[..|left| - 1], right, lk, rk, f) + JoinRow(left[|left| - 1], right, lk, rk, f)
  }

  /** The output of a left merge is the outputs of the left rows, in left order. */
  lemma {:induction false} LeftJoinConcat<L, R, K, O>(a: seq<L>, b: seq<L>, right: seq<R>, lk: L -> K, rk: R -> K, f: (L, Option<R>) -> O)
    ensures LeftJoin(a + b, right, lk, rk, f) == LeftJoin(a, right, lk, rk, f) + LeftJoin(b, right, lk, rk, f)
  {
    if b == [] {
      assert a + b == a;
    } else {
      var b' := b[..|b| - 1];
      var x := b[|b| - 1];
      var ab' := a + b';
      assert a + b == ab' + [x];
      assert b == b' + [x];
      LeftJoinConcat(a, b', right, lk, rk, f);
      LeftJoinSnoc(ab', x, right, lk, rk, f);
      LeftJoinSnoc(b', x, right, lk, rk, f);
      AppendRegroup(LeftJoin(a + b, right, lk, rk, f), LeftJoin(a, right, lk, rk, f),
        LeftJoin(b', right, lk, rk, f), JoinRow(x, right, lk, rk, f), LeftJoin(b, right, lk, rk, f));
    }
  }

  lemma AppendRegroup<O>(whole: seq<O>, a: seq<O>, b: seq<O>, c: seq<O>, bc: seq<O>)
    requires whole == (a + b) + c && bc == b + c
    ensures whole == a + bc
  {
  }

  /** One more left row appends that row's output. */
  lemma LeftJoinSnoc<L, R, K, O>(s: seq<L>, x: L, right: seq<R>, lk: L -> K, rk: R -> K, f: (L, Option<R>) -> O)
    ensures LeftJoin(s + [x], right, lk, rk, f) == LeftJoin(s, right, lk, rk, f) + JoinRow(x, right, lk, rk, f)
  {
    assert (s + [x])[..|s|] == s;
  }

  /** `o` is one of the rows a left merge makes of left row `l`. */
  ghost predicate FromLeft<L, R, K, O>(o: O, l: L, right: seq<R>, lk: L -> K, rk: R -> K, f: (L, Option<R>) -> O)
  {
    o == f(l, None) || exists j :: 0 <= j < |right| && rk(right[j]) == lk(l) && o == f(l, Some(right[j]))
  }

  /** Every row of a left merge comes from a left row, combined with nothing or with a right row of the same key. */
  lemma {:induction false} LeftJoinOrigin<L, R, K, O>(left: seq<L>, right: seq<R>, lk: L -> K, rk: R -> K, f: (L, Option<R>) -> O)
    ensures forall o :: o in LeftJoin(left, right, lk, rk, f) ==>
      exists i :: 0 <= i < |left| && FromLeft(o, left[i], right, lk, rk, f)
  {
    if left != [] {
      var init := left[..|left| - 1];
      var l := left[|left| - 1];
      var m := Matches(right, rk, lk(l));
      LeftJoinOrigin(init, right, lk, rk, f);
      forall o | o in LeftJoin(left, right, lk, rk, f)
        ensures exists i :: 0 <= i < |left| && FromLeft(o, left[i], right, lk, rk, f)
      {
        if o in LeftJoin(init, right, lk, rk, f) {
          var i :| 0 <= i < |init| && FromLeft(o, init[i], right, lk, rk, f);
          assert left[i] == init[i];
        } else {
          assert o in JoinRow(l, right, lk, rk, f);
          assert left[|left| - 1] == l;
          if m != [] {
            var k :| 0 <= k < |m| && o == f(l, Some(m[k]));
            assert m[k] in right;
            var j :| 0 <= j < |right| && right[j] == m[k];
            assert FromLeft(o, l, right, lk, rk, f);
          }
        }
      }
    }
  }

  /** A left row with no match yields exactly one row, carrying nothing from the right. */
  lemma JoinRowUnmatched<L, R, K, O>(l: L, right: seq<R>, lk: L -> K, rk: R -> K, f: (L, Option<R>) -> O)
    requires forall i :: 0 <= i < |right| ==> rk(right[i]) != lk(l)
    ensures JoinRow(l, right, lk, rk, f) == [f(l, None)]
  {
  }

  /** With unique right keys every left row yields exactly one row, carrying its lookup. */
  lemma JoinRowUnique<L, R, K, O>(l: L, right: seq<R>, lk: L -> K, rk: R -> K, f: (L, Option<R>) -> O)
    requires UniqueKeys(right, rk)
    ensures JoinRow(l, right, lk, rk, f) == [f(l, Lookup(right, rk, lk(l)))]
  {
    MatchesUnique(right, rk, lk(l));
  }

  lemma {:induction false} MatchesUnique<R, K>(right: seq<R>, rk: R -> K, k: K)
    requires UniqueKeys(right, rk)
    ensures |Matches(right, rk, k)| <= 1
  {
    if right != [] {
      var tail := right[1..];
      assert UniqueKeys(tail, rk) by {
        forall i, j | 0 <= i < j < |tail| ensures rk(tail[i]) != rk(tail[j]) {
          assert tail[i] == right[i + 1] && tail[j] == right[j + 1];
        }
      }
      MatchesUnique(tail, rk, k);
      if rk(right[0]) == k {
        forall i | 0 <= i < |tail| ensures rk(tail[i]) != k {
          assert tail[i] == right[i + 1];
        }
      }
    }
  }

  /**
   * With unique right keys a left merge is a lookup: the output has the left
   * rows in order, each combined with its one match or with nothing.
   */
  lemma LeftJoinUnique<L, R, K, O>(left: seq<L>, right: seq<R>, lk: L -> K, rk: R -> K, f: (L, Option<R>) -> O)
    requires UniqueKeys(right, rk)
    ensures |LeftJoin(left, right, lk, rk, f)| == |left|
    ensures forall i :: 0 <= i < |left| ==> LeftJoin(left, right, lk, rk, f)[i] == f(left[i], Lookup(right, rk, lk(left[i])))
  {
    var g := (l: L) => f(l, Lookup(right, rk, lk(l)));
    forall l: L ensures JoinRow(l, right, lk, rk, f) == [g(l)] {
      JoinRowUnique(l, right, lk, rk, f);
    }
    LeftJoinSingles(left, right, lk, rk, f, g);
  }

  /** A left merge in which every left row yields the one row `g` makes of it is `g` applied row by row. */
  lemma {:induction false} LeftJoinSingles<L, R, K, O>(left: seq<L>, right: seq<R>, lk: L -> K, rk: R -> K, f: (L, Option<R>) -> O, g: L -> O)
    requires forall l: L :: JoinRow(l, right, lk, rk, f) == [g(l)]
    ensures |LeftJoin(left, right, lk, rk, f)| == |left|
    ensures forall i :: 0 <= i < |left| ==> LeftJoin(left, right, lk, rk, f)[i] == g(left[i])
  {
    if left != [] {
      var init := left[..|left| - 1];
      var l := left[|left| - 1];
      var done := LeftJoin(init, right, lk, rk, f);
      LeftJoinSingles(init, right, lk, rk, f, g);
      var out := LeftJoin(left, right, lk, rk, f);
      assert out == done + [g(l)];
      assert |done| == |init|;
      forall i | 0 <= i < |left| ensures out[i] == g(left[i]) {
        if i < |init| {
          assert out[i] == done[i];
          assert left[i] == init[i];
        } else {
          assert out[i] == g(l);
        }
      }
    }
  }

  /** `pd.merge(left, right, how='inner')`: left order kept, one output row per matching pair. */
  function InnerJoin<L, R, K(==), O>(left: seq<L>, right: seq<R>, lk: L -> K, rk: R -> K, f: (L, R) -> O): (r: seq<O>)
  {
    if left == [] then []
    else
      var l := left[|left| - 1];
      var m := Matches(right, rk, lk(l));
      InnerJoin(left[..|left| - 1], right, lk, rk, f) + seq(|m|, i requires 0 <= i < |m| => f(l, m[i]))
  }

  /** Every row of an inner merge pairs a left row and a right row with the same key. */
  lemma {:induction false} InnerJoinPairsEqualKeys<L, R, K, O>(left: seq<L>, right: seq<R>, lk: L -> K, rk: R -> K, f: (L, R) -> O)
    ensures forall o :: o in InnerJoin(left, right, lk, rk, f) ==>
      exists i, j :: 0 <= i < |left| && 0 <= j < |right| && lk(left[i]) == rk(right[j]) && o == f(left[i], right[j])
  {
    if left != [] {
      var init := left[..|left| - 1];
      var l := left[|left| - 1];
      var m := Matches(right, rk, lk(l));
      InnerJoinPairsEqualKeys(init, right, lk, rk, f);
      var tail := seq(|m|, i requires 0 <= i < |m| => f(l, m[i]));
      forall o | o in InnerJoin(left, right, lk, rk, f)
        ensures exists i, j :: 0 <= i < |left| && 0 <= j < |right| && lk(left[i]) == rk(right[j]) && o == f(left[i], right[j])
      {
        if o in InnerJoin(init, right, lk, rk, f) {
          var i, j :| 0 <= i < |init| && 0 <= j < |right| && lk(init[i]) == rk(right[j]) && o == f(init[i], right[j]);
          assert left[i] == init[i];
        } else {
          assert o in tail;
          var k :| 0 <= k < |m| && tail[k] == o;
          assert m[k] in right;
          var j :| 0 <= j < |right| && right[j] == m[k];
          assert left[|left| - 1] == l;
        }
      }
    }
  }

  /** Every pair of a left row and a right row with the same key gives a row of the inner merge. */
  lemma {:induction false} InnerJoinComplete<L, R, K, O>(left: seq<L>, right: seq<R>, lk: L -> K, rk: R -> K, f: (L, R) -> O, i: nat, j: nat)
    requires i < |left| && j < |right| && lk(left[i]) == rk(right[j])
    ensures f(left[i], right[j]) in InnerJoin(left, right, lk, rk, f)
  {
    var init := left[..|left| - 1];
    var l := left[|left| - 1];
    if i < |init| {
      assert init[i] == left[i];
      InnerJoinComplete(init, right, lk, rk, f, i, j);
    } else {
      var m := Matches(right, rk, lk(l));
      var tail := seq(|m|, t requires 0 <= t < |m| => f(l, m[t]));
      assert right[j] in m;
      var t :| 0 <= t < |m| && m[t] == right[j];
      assert tail[t] == f(left[i], right[j]);
    }
  }

  /** A left row whose key no right row has contributes nothing to an inner merge. */
  lemma {:induction false} InnerJoinDropsUnmatched<L, R, K, O>(left: seq<L>, right: seq<R>, lk: L -> K, rk: R -> K, f: (L, R) -> O)
    requires forall i, j :: 0 <= i < |left| && 0 <= j < |right| ==> lk(left[i]) != rk(right[j])
    ensures InnerJoin(left, right, lk, rk, f) == []
  {
    if left != [] {
      var init := left[..|left| - 1];
      var l := left[|left| - 1];
      InnerJoinDropsUnmatched(init, right, lk, rk, f);
    }
  }

  /** Some row of `s` has key `k`. */
  predicate Occurs<T, K(==)>(s: seq<T>, key: T -> K, k: K)
  {
    exists j :: 0 <= j < |s| && key(s[j]) == k
  }

  /** `r` is `s` with some rows left out and the others in their input order. */
  ghost predicate Subsequence<T>(r: seq<T>, s: seq<T>)
    decreases |s|
  {
    if s == [] then r == []
    else Subsequence(r, s[1..]) || (r != [] && r[0] == s[0] && Subsequence(r[1..], s[1..]))
  }

  /**
   * `drop_duplicates(subset=key, keep='last')`: a row stays exactly when no
   * later row has its key. The ensures say the kept rows keep their input
   * order, the kept keys are unique, and every key of the input is kept;
   * `KeepLastLookup` says which row is kept.
   */
  function KeepLast<T, K(==)>(s: seq<T>, key: T -> K): (r: seq<T>)
    ensures |r| <= |s|
    ensures forall i :: 0 <= i < |r| ==> r[i] in s
    ensures Subsequence(r, s)
    ensures UniqueKeys(r, key)
    ensures forall i :: 0 <= i < |s| ==> Occurs(r, key, key(s[i]))
  {
    if s == [] then []
    else
      var rest := KeepLast(s[1..], key);
      assert forall i :: 1 <= i < |s| ==> s[i] == s[1..][i - 1];
      if Occurs(s[1..], key, key(s[0])) then rest
      else
        ConsNewKey(s, rest, key);
        assert ([s[0]] + rest)[1..] == rest;
        [s[0]] + rest
  }

  /** Putting a row with a new key in front keeps the keys unique and keeps every key of `s` present. */
  lemma ConsNewKey<T, K>(s: seq<T>, rest: seq<T>, key: T -> K)
    requires s != [] && UniqueKeys(rest, key) && !Occurs(rest, key, key(s[0]))
    requires forall i :: 0 <= i < |s[1..]| ==> Occurs(rest, key, key(s[1..][i]))
    ensures UniqueKeys([s[0]] + rest, key)
    ensures forall i :: 0 <= i < |s| ==> Occurs([s[0]] + rest, key, key(s[i]))
  {
    var r := [s[0]] + rest;
    assert forall i :: 1 <= i < |r| ==> r[i] == rest[i - 1];
    forall i | 0 <= i < |s| ensures Occurs(r, key, key(s[i])) {
      if i == 0 {
        assert r[0] == s[0];
      } else {
        assert s[i] == s[1..][i - 1];
        var j :| 0 <= j < |rest| && key(rest[j]) == key(s[i]);
        assert r[j + 1] == rest[j];
      }
    }
  }

  /** The last row of `s` with key `k`, if any. */
  function LastWith<T, K(==)>(s: seq<T>, key: T -> K, k: K): Option<T>
  {
    if s == [] then None
    else if key(s[|s| - 1]) == k then Some(s[|s| - 1])
    else LastWith(s[..|s| - 1], key, k)
  }

  lemma {:induction false} LastWithCons<T, K>(s: seq<T>, key: T -> K, k: K)
    requires s != []
    ensures LastWith(s, key, k) == if Occurs(s[1..], key, k) then LastWith(s[1..], key, k)
                                   else if key(s[0]) == k then Some(s[0]) else None
  {
    if |s| > 1 {
      var init := s[..|s| - 1];
      LastWithCons(init, key, k);
      assert init[1..] == s[1..][..|s[1..]| - 1];
      assert s[1..][|s[1..]| - 1] == s[|s| - 1];
      if key(s[|s| - 1]) != k {
        assert Occurs(s[1..], key, k) ==> Occurs(init[1..], key, k) by {
          if Occurs(s[1..], key, k) {
            var j :| 0 <= j < |s[1..]| && key(s[1..][j]) == k;
            assert j < |init[1..]| && init[1..][j] == s[1..][j];
          }
        }
        assert Occurs(init[1..], key, k) ==> Occurs(s[1..], key, k) by {
          if Occurs(init[1..], key, k) {
            var j :| 0 <= j < |init[1..]| && key(init[1..][j]) == k;
            assert s[1..][j] == init[1..][j];
          }
        }
      } else {
        assert Occurs(s[1..], key, k) by {
          assert key(s[1..][|s[1..]| - 1]) == k;
        }
      }
    }
  }

  /** The row `drop_duplicates(keep='last')` keeps for a key is the last input row with that key. */
  lemma {:induction false} KeepLastLookup<T, K>(s: seq<T>, key: T -> K, k: K)
    ensures Lookup(KeepLast(s, key), key, k) == LastWith(s, key, k)
  {
    if s != [] {
      var rest := KeepLast(s[1..], key);
      KeepLastLookup(s[1..], key, k);
      LastWithCons(s, key, k);
      if !Occurs(s[1..], key, key(s[0])) {
        var r := [s[0]] + rest;
        assert KeepLast(s, key) == r;
        assert r[1..] == rest;
        LookupCons(r, key, k);
        if key(s[0]) == k {
          assert !Occurs(s[1..], key, k);
        } else if !Occurs(s[1..], key, k) {
          forall i | 0 <= i < |rest| ensures key(rest[i]) != k {
            assert rest[i] in s[1..];
          }
        }
      } else if !Occurs(s[1..], key, k) {
        assert key(s[0]) != k;
      }
    }
  }

  lemma LookupCons<T, K>(r: seq<T>, key: T -> K, k: K)
    requires r != []
    ensures Lookup(r, key, k) == if key(r[0]) == k then Some(r[0]) else Lookup(r[1..], key, k)
  {
    assert Matches(r, key, k) == (if key(r[0]) == k then [r[0]] else []) + Matches(r[1..], key, k);
  }
}
