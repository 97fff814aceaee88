/**
 * The stock x month panel of the monthly factors: the months numbered
 * 0..P-1 in ascending order (`ID_Mon`), and the grid that pairs every stock
 * with every month, stock by stock.
 */
module Panel {
  import opened Tables
  import opened Ordering

  /** `np.unique` of a Yearmon column: the distinct months, ascending. */
  function Months(ys: seq<int>): seq<int>
  {
    SortedDistinct(ys, IntLt)
  }

  /** The position of `x` in `s`, missing when `x` is not there (a left merge on the value). */
  function Find<T(==)>(s: seq<T>, x: T): (r: Option<nat>)
    ensures r.Some? <==> x in s
    ensures r.Some? ==> r.value < |s| && s[r.value] == x
  {
    if x in s then Some(IndexIn(x, s)) else None
  }

  /** The months are ascending and are exactly the values of the column. */
  lemma MonthsSorted(ys: seq<int>)
    ensures forall a, b :: 0 <= a < b < |Months(ys)| ==> Months(ys)[a] < Months(ys)[b]
    ensures forall y :: y in Months(ys) <==> y in ys
  {
    IntLtIsStrictTotalOrder();
    SortedDistinctSorted(ys, IntLt);
    var ms := Months(ys);
    forall y | y in ms ensures y in ys {
      var k :| 0 <= k < |ms| && ms[k] == y;
    }
    forall y | y in ys ensures y in ms {
      var k :| 0 <= k < |ys| && ys[k] == y;
    }
  }

  /**
   * `ID_Mon`: the month at position `k` has rank `k`, so the ranks are
   * 0..P-1, and a smaller month has a smaller rank.
   */
  lemma RanksAreDense(ys: seq<int>)
    ensures forall k :: 0 <= k < |Months(ys)| ==> Find(Months(ys), Months(ys)[k]) == Some(k)
    ensures forall a, b :: a in ys && b in ys ==>
      Find(Months(ys), a).Some? && Find(Months(ys), b).Some? && (a < b <==> Find(Months(ys), a).value < Find(Months(ys), b).value)
  {
    var ms := Months(ys);
    MonthsSorted(ys);
    forall k | 0 <= k < |ms| ensures Find(ms, ms[k]) == Some(k) {
      var r := Find(ms, ms[k]).value;
      assert ms[r] == ms[k];
    }
    forall a, b | a in ys && b in ys
      ensures Find(ms, a).Some? && Find(ms, b).Some? && (a < b <==> Find(ms, a).value < Find(ms, b).value)
    {
      var ra, rb := Find(ms, a).value, Find(ms, b).value;
      if ra < rb {
        assert ms[ra] < ms[rb];
      } else if rb < ra {
        assert ms[rb] < ms[ra];
      }
    }
  }

  /** A row of the panel: a stock, a month and the month's rank. */
  datatype GridRow = GridRow(stkcd: Code, yearmon: int, rank: nat)

  /** One stock paired with every month, in month order. */
  function MonthRows(c: Code, months: seq<int>): (r: seq<GridRow>)
    ensures |r| == |months| && forall j :: 0 <= j < |months| ==> r[j] == GridRow(c, months[j], j)
  {
    seq(|months|, j requires 0 <= j < |months| => GridRow(c, months[j], j))
  }

  /** `product(Stkcd_list, Mon_list)` merged with the ranks: stock-major. */
  function Grid(stocks: seq<Code>, months: seq<int>): (r: seq<GridRow>)
    ensures |r| == |stocks| * |months|
  {
    if stocks == [] then []
    else Grid(stocks[..|stocks| - 1], months) + MonthRows(stocks[|stocks| - 1], months)
  }

  /** The grid row at `i * P + j` pairs stock `i` with month `j`. */
  lemma {:induction false} GridAt(stocks: seq<Code>, months: seq<int>, i: nat, j: nat)
    requires i < |stocks| && j < |months|
    ensures i * |months| + j < |Grid(stocks, months)|
    ensures Grid(stocks, months)[i * |months| + j] == GridRow(stocks[i], months[j], j)
  {
    var n, m := |stocks|, |months|;
    var init := stocks[..n - 1];
    assert Grid(stocks, months) == Grid(init, months) + MonthRows(stocks[n - 1], months);
    assert i * m + j < n * m by {
      assert i * m <= (n - 1) * m;
    }
    if i < n - 1 {
      GridAt(init, months, i, j);
    } else {
      assert i * m == |Grid(init, months)|;
    }
  }

  /** Every grid row is some stock paired with some month and that month's rank. */
  lemma {:induction false} GridMembers(stocks: seq<Code>, months: seq<int>, row: GridRow)
    ensures row in Grid(stocks, months) <==>
      row.stkcd in stocks && row.rank < |months| && row.yearmon == months[row.rank]
  {
    if stocks != [] {
      var init := stocks[..|stocks| - 1];
      GridMembers(init, months, row);
      var last := MonthRows(stocks[|stocks| - 1], months);
      if row in last {
        var j :| 0 <= j < |last| && last[j] == row;
      }
      assert row.stkcd in stocks <==> row.stkcd in init || row.stkcd == stocks[|stocks| - 1];
      if row.stkcd == stocks[|stocks| - 1] && row.rank < |months| && row.yearmon == months[row.rank] {
        assert last[row.rank] == row;
      }
    }
  }

  /**
   * The grid built as `_construct_month_list` does: one pass over the
   * product appending the stock to one list and the month to the other.
   */
  method BuildGrid(stocks: seq<Code>, months: seq<int>) returns (monL1: seq<Code>, monL2: seq<int>)
    ensures |monL1| == |monL2| == |Grid(stocks, months)|
    ensures forall p :: 0 <= p < |monL1| ==>
      monL1[p] == Grid(stocks, months)[p].stkcd && monL2[p] == Grid(stocks, months)[p].yearmon
  {
    monL1, monL2 := [], [];
    var i := 0;
    while i < |stocks|
      invariant 0 <= i <= |stocks|
      invariant |monL1| == |monL2| == |Grid(stocks[..i], months)|
      invariant forall p :: 0 <= p < |monL1| ==>
        monL1[p] == Grid(stocks[..i], months)[p].stkcd && monL2[p] == Grid(stocks[..i], months)[p].yearmon
    {
      var done := Grid(stocks[..i], months);
      var row := MonthRows(stocks[i], months);
      var j := 0;
      while j < |months|
        invariant 0 <= j <= |months|
        invariant |monL1| == |monL2| == |done| + j
        invariant forall p :: 0 <= p < |monL1| ==>
          monL1[p] == (done + row[..j])[p].stkcd && monL2[p] == (done + row[..j])[p].yearmon
      {
        monL1 := monL1 + [stocks[i]];
        monL2 := monL2 + [months[j]];
        assert (done + row[..j + 1])[|done| + j] == row[j];
        assert forall p :: 0 <= p < |done| + j ==> (done + row[..j + 1])[p] == (done + row[..j])[p];
        j := j + 1;
      }
      assert stocks[..i + 1][..i] == stocks[..i];
      assert Grid(stocks[..i + 1], months) == done + row[..j];
      i := i + 1;
    }
    assert stocks[..i] == stocks;
  }
}
