/**
 * Per-group positions: the rows that `groupby(key)` puts in one group, in
 * table order, and the trailing window of a group that `rolling(w)` and
 * `shift(1)` look at.
 */
module Groups {

  /** The positions of the rows whose key is `k`, in order. */
  function Positions<T, K(==)>(s: seq<T>, key: T -> K, k: K): (idx: seq<nat>)
    ensures forall t :: 0 <= t < |idx| ==> idx[t] < |s| && key(s[idx[t]]) == k
    ensures forall t, u :: 0 <= t < u < |idx| ==> idx[t] < idx[u]
    ensures forall j :: 0 <= j < |s| && key(s[j]) == k ==> j in idx
  {
    if s == [] then []
    else
      var init := s[..|s| - 1];
      var rest := Positions(init, key, k);
      assert forall t :: 0 <= t < |rest| ==> s[rest[t]] == init[rest[t]];
      rest + (if key(s[|s| - 1]) == k then [|s| - 1] else [])
  }

  /** A row is the last of its group's rows up to it. */
  lemma OwnPositionLast<T, K>(s: seq<T>, key: T -> K, i: nat)
    requires i < |s|
    ensures |Positions(s[..i + 1], key, key(s[i]))| > 0
    ensures Positions(s[..i + 1], key, key(s[i]))[|Positions(s[..i + 1], key, key(s[i]))| - 1] == i
  {
    assert s[..i + 1][..i] == s[..i];
  }

  /** The positions of group `k` up to row `i`, read in `s` itself. */
  lemma PrefixPositions<T, K>(s: seq<T>, key: T -> K, k: K, i: nat)
    requires i < |s|
    ensures var idx := Positions(s[..i + 1], key, k);
      (forall t :: 0 <= t < |idx| ==> idx[t] <= i && key(s[idx[t]]) == k)
      && (forall j :: 0 <= j <= i && key(s[j]) == k ==> j in idx)
  {
    var pre := s[..i + 1];
    assert forall j :: 0 <= j <= i ==> pre[j] == s[j];
  }

  /**
   * The last `w` rows of row `i`'s group up to row `i`: they end at `i`, are
   * in table order, and leave out none of the group's rows between them.
   */
  lemma TrailingWindow<T, K>(s: seq<T>, key: T -> K, i: nat, w: nat) returns (win: seq<nat>)
    requires i < |s| && 0 < w <= |Positions(s[..i + 1], key, key(s[i]))|
    ensures var idx := Positions(s[..i + 1], key, key(s[i])); win == idx[|idx| - w..]
    ensures |win| == w && win[w - 1] == i
    ensures forall t :: 0 <= t < w ==> win[t] <= i && key(s[win[t]]) == key(s[i])
    ensures forall t, u :: 0 <= t < u < w ==> win[t] < win[u]
    ensures forall j :: win[0] <= j <= i && key(s[j]) == key(s[i]) ==> j in win
  {
    var k := key(s[i]);
    var idx := Positions(s[..i + 1], key, k);
    OwnPositionLast(s, key, i);
    PrefixPositions(s, key, k, i);
    win := idx[|idx| - w..];
    SuffixWindow(s, key, k, idx, |idx| - w, i);
    SuffixFacts(s, key, k, idx, |idx| - w, i);
  }

  /** A suffix of an increasing list of group positions up to `last` is itself increasing, in the group and ends at `last`. */
  lemma SuffixFacts<T, K>(s: seq<T>, key: T -> K, k: K, idx: seq<nat>, start: nat, last: nat)
    requires start < |idx| && idx[|idx| - 1] == last
    requires forall t :: 0 <= t < |idx| ==> idx[t] <= last && idx[t] < |s| && key(s[idx[t]]) == k
    requires forall t, u :: 0 <= t < u < |idx| ==> idx[t] < idx[u]
    ensures var win := idx[start..];
      (win[|win| - 1] == last
      && (forall t :: 0 <= t < |win| ==> win[t] <= last && key(s[win[t]]) == k)
      && (forall t, u :: 0 <= t < u < |win| ==> win[t] < win[u]))
  {
    var win := idx[start..];
    assert forall t :: 0 <= t < |win| ==> win[t] == idx[start + t];
  }

  /** The suffix of an increasing list of all positions of group `k` up to `last` holds every such position in its range. */
  lemma SuffixWindow<T, K>(s: seq<T>, key: T -> K, k: K, idx: seq<nat>, start: nat, last: nat)
    requires start < |idx| && idx[|idx| - 1] == last && last < |s|
    requires forall t, u :: 0 <= t < u < |idx| ==> idx[t] < idx[u]
    requires forall j :: 0 <= j <= last && key(s[j]) == k ==> j in idx
    ensures forall j :: idx[start] <= j <= last && key(s[j]) == k ==> j in idx[start..]
  {
    forall j | idx[start] <= j <= last && key(s[j]) == k ensures j in idx[start..] {
      var p :| 0 <= p < |idx| && idx[p] == j;
      SuffixHolds(idx, start, p);
      assert idx[start..][p - start] == j;
    }
  }

  /** In an increasing sequence, a value at least the one at `k` sits at `k` or later. */
  lemma SuffixHolds(idx: seq<nat>, k: nat, p: nat)
    requires k < |idx| && p < |idx|
    requires forall t, u :: 0 <= t < u < |idx| ==> idx[t] < idx[u]
    requires idx[k] <= idx[p]
    ensures k <= p
  {
  }

  /** Two sequences with the same elements are empty together. */
  lemma EmptyExactlyTogether(a: seq<nat>, b: seq<nat>)
    requires forall x :: x in a <==> x in b
    ensures a == [] <==> b == []
  {
    if a != [] {
      assert a[0] in b;
    }
    if b != [] {
      assert b[0] in a;
    }
  }

  /** The tail of an increasing sequence holds exactly its elements other than the first. */
  lemma TailElements(a: seq<nat>)
    requires a != []
    requires forall t, u :: 0 <= t < u < |a| ==> a[t] < a[u]
    ensures forall x :: x in a ==> a[0] <= x
    ensures forall x :: x in a[1..] <==> x in a && x != a[0]
  {
    forall x ensures x in a[1..] <==> x in a && x != a[0] {
      if x in a[1..] {
        var t :| 0 <= t < |a[1..]| && a[1..][t] == x;
        assert a[t + 1] == x;
      }
      if x in a && x != a[0] {
        var t :| 0 <= t < |a| && a[t] == x;
        assert a[1..][t - 1] == x;
      }
    }
  }

  /** Two increasing sequences with the same elements are equal. */
  lemma {:induction false} IncreasingSameElements(a: seq<nat>, b: seq<nat>)
    requires forall t, u :: 0 <= t < u < |a| ==> a[t] < a[u]
    requires forall t, u :: 0 <= t < u < |b| ==> b[t] < b[u]
    requires forall x :: x in a <==> x in b
    ensures a == b
    decreases |a|
  {
    EmptyExactlyTogether(a, b);
    if a != [] {
      TailElements(a);
      TailElements(b);
      assert a[0] in b && b[0] in a;
      IncreasingSameElements(a[1..], b[1..]);
      assert a == [a[0]] + a[1..];
      assert b == [b[0]] + b[1..];
    }
  }

  /**
   * Positions of group `key(s[i])` that end at `i`, increase and leave out
   * none of the group's rows between them are the group's last positions up
   * to `i`.
   */
  lemma GroupWindowIsSuffix<T, K>(s: seq<T>, key: T -> K, i: nat, win: seq<nat>)
    requires i < |s| && win != [] && win[|win| - 1] == i
    requires forall t :: 0 <= t < |win| ==> win[t] <= i && key(s[win[t]]) == key(s[i])
    requires forall t, u :: 0 <= t < u < |win| ==> win[t] < win[u]
    requires forall j :: win[0] <= j <= i && key(s[j]) == key(s[i]) ==> j in win
    ensures var idx := Positions(s[..i + 1], key, key(s[i]));
      |idx| >= |win| && win == idx[|idx| - |win|..]
  {
    var k := key(s[i]);
    var idx := Positions(s[..i + 1], key, k);
    PrefixPositions(s, key, k, i);
    WindowInPositions(s, key, k, i, idx, win);
  }

  /** The same, for any increasing list `idx` of all the group's positions up to `i`. */
  lemma WindowInPositions<T, K>(s: seq<T>, key: T -> K, k: K, i: nat, idx: seq<nat>, win: seq<nat>)
    requires i < |s| && win != [] && win[|win| - 1] == i
    requires forall t :: 0 <= t < |idx| ==> idx[t] <= i && key(s[idx[t]]) == k
    requires forall t, u :: 0 <= t < u < |idx| ==> idx[t] < idx[u]
    requires forall j :: 0 <= j <= i && key(s[j]) == k ==> j in idx
    requires forall t :: 0 <= t < |win| ==> win[t] <= i && key(s[win[t]]) == k
    requires forall t, u :: 0 <= t < u < |win| ==> win[t] < win[u]
    requires forall j :: win[0] <= j <= i && key(s[j]) == k ==> j in win
    ensures |idx| >= |win| && win == idx[|idx| - |win|..]
  {
    assert win[0] in idx;
    var p :| 0 <= p < |idx| && idx[p] == win[0];
    SuffixSameElements(s, key, k, i, idx, p, win);
    SuffixIsWindow(idx, p, win);
  }

  /** An increasing sequence whose suffix from `p` has the elements of the increasing `win` ends in `win`. */
  lemma SuffixIsWindow(idx: seq<nat>, p: nat, win: seq<nat>)
    requires p < |idx|
    requires forall t, u :: 0 <= t < u < |idx| ==> idx[t] < idx[u]
    requires forall t, u :: 0 <= t < u < |win| ==> win[t] < win[u]
    requires forall x :: x in idx[p..] <==> x in win
    ensures |idx| >= |win| && win == idx[|idx| - |win|..]
  {
    forall t, u | 0 <= t < u < |idx[p..]| ensures idx[p..][t] < idx[p..][u] {
      assert idx[p..][t] == idx[p + t] && idx[p..][u] == idx[p + u];
    }
    IncreasingSameElements(idx[p..], win);
  }

  /** The suffix of the group's positions from `win[0]` on holds exactly the positions of `win`. */
  lemma SuffixSameElements<T, K>(s: seq<T>, key: T -> K, k: K, i: nat, idx: seq<nat>, p: nat, win: seq<nat>)
    requires p < |idx| && win != [] && idx[p] == win[0]
    requires forall t :: 0 <= t < |idx| ==> idx[t] <= i && idx[t] < |s| && key(s[idx[t]]) == k
    requires forall t, u :: 0 <= t < u < |idx| ==> idx[t] < idx[u]
    requires forall j :: 0 <= j <= i && j < |s| && key(s[j]) == k ==> j in idx
    requires forall t :: 0 <= t < |win| ==> win[t] <= i && win[t] < |s| && key(s[win[t]]) == k
    requires forall t, u :: 0 <= t < u < |win| ==> win[t] < win[u]
    requires forall j :: win[0] <= j <= i && j < |s| && key(s[j]) == k ==> j in win
    ensures forall x :: x in idx[p..] <==> x in win
  {
    forall x ensures x in idx[p..] <==> x in win {
      if x in idx[p..] {
        var t :| 0 <= t < |idx[p..]| && idx[p..][t] == x;
        assert idx[p + t] == x;
        assert t == 0 || idx[p] < idx[p + t];
      }
      if x in win {
        var t :| 0 <= t < |win| && win[t] == x;
        assert t == 0 || win[0] < win[t];
        assert x in idx;
        var q :| 0 <= q < |idx| && idx[q] == x;
        SuffixHolds(idx, p, q);
        assert idx[p..][q - p] == x;
      }
    }
  }
}
