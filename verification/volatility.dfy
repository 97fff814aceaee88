/**
 * volatility_processing.py: monthly volatility, the standard deviation of a
 * stock's daily returns within a month, reported on the stock's next grouped
 * month.
 */
module Volatility {
  import opened Tables
  import opened Text
  import opened Loader
  import opened Ordering
  import opened Groups

  /** A daily-return sheet row read with `dtype=str`: every cell text or missing. */
  datatype DailyRow = DailyRow(stkcd: Option<string>, trddt: Option<string>, dretwd: Option<string>)

  /** A row after the caption filter and `fillna("0")`. */
  datatype ReturnRow = ReturnRow(stkcd: Code, trddt: string, dretwd: string)

  /** A daily return with its month. */
  datatype MonthlyReturn = MonthlyReturn(stkcd: Code, yearmon: int, ret: real)

  /** A row of volatility_2.csv. */
  datatype VolatilityRow = VolatilityRow(stkcd: Code, yearmon: int, volatility: real)

  const Patterns: seq<string> := [".xlsx"]

  /** Drops caption rows (a missing code is not a caption) and fills missing cells with "0". */
  function CleanRow(row: DailyRow): (r: Option<ReturnRow>)
  {
    if row.stkcd.Some? && IsCaption(row.stkcd.value) then None
    else Some(ReturnRow(row.stkcd.GetOr("0"), row.trddt.GetOr("0"), row.dretwd.GetOr("0")))
  }

  /** The Yearmon of one row. */
  function YearmonOf(row: ReturnRow): Option<int>
  {
    DigitYearmon(row.trddt)
  }

  /** `My_YM`: the Yearmon of every row; `astype(int)` raises on a date with no digit. */
  function Yearmons(rows: seq<ReturnRow>): (r: Result<seq<int>>)
    ensures r.Ok? ==> |r.value| == |rows| && forall i :: 0 <= i < |rows| ==> DigitYearmon(rows[i].trddt) == Some(r.value[i])
    ensures r.Err? <==> exists i :: 0 <= i < |rows| && DigitYearmon(rows[i].trddt).None?
    ensures r.Err? ==> r.error == IntParseFailed
  {
    ParseAll(rows, YearmonOf, IntParseFailed)
  }

  /** One return read by `float()`. */
  function ReturnOf(row: ReturnRow): Option<real>
  {
    ParseNumber(row.dretwd)
  }

  /** `x.astype(float)` on the returns; raises on text that is not a number. */
  function Returns(rows: seq<ReturnRow>): (r: Result<seq<real>>)
    ensures r.Ok? ==> |r.value| == |rows| && forall i :: 0 <= i < |rows| ==> ParseNumber(rows[i].dretwd) == Some(r.value[i])
    ensures r.Err? <==> exists i :: 0 <= i < |rows| && ParseNumber(rows[i].dretwd).None?
    ensures r.Err? ==> r.error == FloatParseFailed
  {
    ParseAll(rows, ReturnOf, FloatParseFailed)
  }

  function Monthly(rows: seq<ReturnRow>, ys: seq<int>, xs: seq<real>): (r: seq<MonthlyReturn>)
    requires |ys| == |rows| == |xs|
    ensures |r| == |rows|
  {
    seq(|rows|, i requires 0 <= i < |rows| => MonthlyReturn(rows[i].stkcd, ys[i], xs[i]))
  }

  function KeyOf(m: MonthlyReturn): (Code, int) { (m.stkcd, m.yearmon) }

  function KeysOf(ms: seq<MonthlyReturn>): (r: seq<(Code, int)>)
    ensures |r| == |ms| && forall i :: 0 <= i < |ms| ==> r[i] == KeyOf(ms[i])
  {
    seq(|ms|, i requires 0 <= i < |ms| => KeyOf(ms[i]))
  }

  /** The returns of one (Stkcd, Yearmon) group, in row order. */
  function GroupReturns(ms: seq<MonthlyReturn>, k: (Code, int)): (r: seq<real>)
    ensures |r| <= |ms|
  {
    if ms == [] then []
    else
      var last := ms[|ms| - 1];
      GroupReturns(ms[..|ms| - 1], k) + (if KeyOf(last) == k then [last.ret] else [])
  }

  /** A value is in a group exactly when some row of the group carries it. */
  lemma {:induction false} GroupReturnsMembers(ms: seq<MonthlyReturn>, k: (Code, int), x: real)
    ensures x in GroupReturns(ms, k) <==> exists i :: 0 <= i < |ms| && KeyOf(ms[i]) == k && ms[i].ret == x
  {
    if ms != [] {
      var init := ms[..|ms| - 1];
      GroupReturnsMembers(init, k, x);
      if exists i :: 0 <= i < |init| && KeyOf(init[i]) == k && init[i].ret == x {
        var i :| 0 <= i < |init| && KeyOf(init[i]) == k && init[i].ret == x;
        assert ms[i] == init[i];
      }
      if exists i :: 0 <= i < |ms| && KeyOf(ms[i]) == k && ms[i].ret == x {
        var i :| 0 <= i < |ms| && KeyOf(ms[i]) == k && ms[i].ret == x;
        if i < |init| {
          assert init[i] == ms[i];
        }
      }
    }
  }

  /** A group's returns are the returns of the group's rows, in row order. */
  lemma {:induction false} GroupReturnsInOrder(ms: seq<MonthlyReturn>, k: (Code, int))
    ensures var idx := Positions(ms, KeyOf, k);
      |GroupReturns(ms, k)| == |idx| && forall t :: 0 <= t < |idx| ==> GroupReturns(ms, k)[t] == ms[idx[t]].ret
  {
    if ms != [] {
      var init := ms[..|ms| - 1];
      GroupReturnsInOrder(init, k);
      var before := Positions(init, KeyOf, k);
      forall t | 0 <= t < |before| ensures ms[before[t]] == init[before[t]] {
      }
    }
  }

  /** `Series.std()` (ddof 1): not a number for fewer than two values. */
  function SampleStd(xs: seq<real>, std: seq<real> -> real): Option<real>
  {
    if |xs| < 2 then None else Some(std(xs))
  }

  /** The position of the last grouped row of stock `c` among the first rows. */
  function LastOfStock(keys: seq<(Code, int)>, c: Code): (r: Option<nat>)
    ensures r.None? <==> forall j :: 0 <= j < |keys| ==> keys[j].0 != c
    ensures r.Some? ==> r.value < |keys| && keys[r.value].0 == c
    ensures r.Some? ==> forall k :: r.value < k < |keys| ==> keys[k].0 != c
  {
    if keys == [] then None
    else if keys[|keys| - 1].0 == c then Some(|keys| - 1)
    else
      var r := LastOfStock(keys[..|keys| - 1], c);
      assert forall j :: 0 <= j < |keys| - 1 ==> keys[..|keys| - 1][j] == keys[j];
      r
  }

  /** `groupby('Stkcd')['volatility'].shift(1)` at grouped row `g`. */
  function Shifted(keys: seq<(Code, int)>, vols: seq<Option<real>>, g: nat): Option<real>
    requires |vols| == |keys| && g < |keys|
  {
    match LastOfStock(keys[..g], keys[g].0)
    case None => None
    case Some(j) => vols[j]
  }

  /** The shifted column over all grouped rows. */
  function ShiftedAll(keys: seq<(Code, int)>, vols: seq<Option<real>>): (r: seq<Option<real>>)
    requires |vols| == |keys|
    ensures |r| == |keys| && forall g :: 0 <= g < |keys| ==> r[g] == Shifted(keys, vols, g)
  {
    seq(|keys|, g requires 0 <= g < |keys| => Shifted(keys, vols, g))
  }

  /** `dropna(subset=['volatility'])` over the first `n` grouped rows of the shifted column. */
  function VolatilityRows(keys: seq<(Code, int)>, shifted: seq<Option<real>>, n: nat): seq<VolatilityRow>
    requires |shifted| == |keys| && n <= |keys|
  {
    if n == 0 then []
    else
      var rest := VolatilityRows(keys, shifted, n - 1);
      match shifted[n - 1]
      case None => rest
      case Some(v) => rest + [VolatilityRow(keys[n - 1].0, keys[n - 1].1, v)]
  }

  /** The grouped keys, ascending. */
  function GroupKeys(ms: seq<MonthlyReturn>): seq<(Code, int)>
  {
    SortedDistinct(KeysOf(ms), CodeIntLt)
  }

  function GroupVols(ms: seq<MonthlyReturn>, keys: seq<(Code, int)>, std: seq<real> -> real): (r: seq<Option<real>>)
    ensures |r| == |keys| && forall g :: 0 <= g < |keys| ==> r[g] == SampleStd(GroupReturns(ms, keys[g]), std)
  {
    seq(|keys|, g requires 0 <= g < |keys| => SampleStd(GroupReturns(ms, keys[g]), std))
  }

  /** Everything after the concatenation. */
  function VolatilityTable(raw: seq<DailyRow>, std: seq<real> -> real): Result<seq<VolatilityRow>>
  {
    var d := FilterMap(raw, CleanRow);
    match Yearmons(d)
    case Err(e) => Err(e)
    case Ok(ys) =>
      match Returns(d)
      case Err(e) => Err(e)
      case Ok(xs) =>
        var ms := Monthly(d, ys, xs);
        var keys := GroupKeys(ms);
        Ok(VolatilityRows(keys, ShiftedAll(keys, GroupVols(ms, keys, std)), |keys|))
  }

  /** `main`: an unreadable file raises, no file at all makes the concatenation raise. */
  function VolatilityFactor(listing: seq<SheetFile<DailyRow>>, std: seq<real> -> real): Outcome<VolatilityRow>
  {
    match Concat(Load(listing, Patterns, Raise))
    case Err(e) => Raised(e)
    case Ok(raw) =>
      match VolatilityTable(raw, std)
      case Err(e) => Raised(e)
      case Ok(t) => Written(t)
  }

  /** The grouped table has one row per distinct (Stkcd, Yearmon) of the data, in ascending key order. */
  lemma GroupKeysSorted(ms: seq<MonthlyReturn>)
    ensures StrictlySorted(GroupKeys(ms), CodeIntLt)
    ensures forall k :: k in GroupKeys(ms) <==> exists i :: 0 <= i < |ms| && KeyOf(ms[i]) == k
  {
    CodeIntLtIsStrictTotalOrder();
    SortedDistinctSorted(KeysOf(ms), CodeIntLt);
    var keys := GroupKeys(ms);
    forall k ensures k in keys <==> exists i :: 0 <= i < |ms| && KeyOf(ms[i]) == k {
      if k in keys {
        var g :| 0 <= g < |keys| && keys[g] == k;
        assert keys[g] in KeysOf(ms);
      }
      if exists i :: 0 <= i < |ms| && KeyOf(ms[i]) == k {
        var i :| 0 <= i < |ms| && KeyOf(ms[i]) == k;
        assert KeysOf(ms)[i] == k;
      }
    }
  }

  /**
   * In the grouped order the shifted value is that of the previous grouped
   * row when it has the same stock, whatever its month, and missing on a
   * stock's first grouped row.
   */
  lemma ShiftIsPreviousRow(keys: seq<(Code, int)>, vols: seq<Option<real>>, g: nat)
    requires StrictlySorted(keys, CodeIntLt) && |vols| == |keys| && g < |keys|
    ensures Shifted(keys, vols, g) == if g > 0 && keys[g - 1].0 == keys[g].0 then vols[g - 1] else None
  {
    var c := keys[g].0;
    var pre := keys[..g];
    if g > 0 && keys[g - 1].0 == c {
      assert pre[|pre| - 1] == keys[g - 1];
    } else if g > 0 {
      var x := keys[g - 1].0;
      assert StrLt(x, c) by {
        assert CodeIntLt(keys[g - 1], keys[g]);
      }
      StrLtIrreflexive(c);
      forall j | 0 <= j < |pre| ensures pre[j].0 != c {
        assert pre[j] == keys[j];
        if j < g - 1 {
          assert CodeIntLt(keys[j], keys[g - 1]);
          if keys[j].0 != x {
            StrLtTransitive(keys[j].0, x, c);
          }
        }
      }
    }
  }

  /** An output row is exactly a grouped row whose shifted value is defined, carrying that value. */
  lemma {:induction false} VolatilityRowsAreShifted(keys: seq<(Code, int)>, shifted: seq<Option<real>>, n: nat, out: VolatilityRow)
    requires |shifted| == |keys| && n <= |keys|
    ensures out in VolatilityRows(keys, shifted, n) <==>
      exists g :: 0 <= g < n && keys[g] == (out.stkcd, out.yearmon) && shifted[g] == Some(out.volatility)
  {
    if n > 0 {
      VolatilityRowsAreShifted(keys, shifted, n - 1, out);
    }
  }

  /**
   * The volatility reported for a month is the deviation of the stock's
   * previous grouped month, and a stock's first grouped month is never output.
   */
  lemma VolatilityIsPreviousMonth(ms: seq<MonthlyReturn>, std: seq<real> -> real, out: VolatilityRow)
    ensures var keys := GroupKeys(ms);
      out in VolatilityRows(keys, ShiftedAll(keys, GroupVols(ms, keys, std)), |keys|) <==>
      exists g :: 0 < g < |keys| && keys[g] == (out.stkcd, out.yearmon) && keys[g - 1].0 == out.stkcd
        && SampleStd(GroupReturns(ms, keys[g - 1]), std) == Some(out.volatility)
  {
    var keys := GroupKeys(ms);
    var vols := GroupVols(ms, keys, std);
    var shifted := ShiftedAll(keys, vols);
    GroupKeysSorted(ms);
    forall g | 0 <= g < |keys|
      ensures shifted[g] == if g > 0 && keys[g - 1].0 == keys[g].0 then vols[g - 1] else None
    {
      ShiftIsPreviousRow(keys, vols, g);
    }
    PreviousRowRows(keys, vols, shifted, out);
  }

  lemma PreviousRowRows(keys: seq<(Code, int)>, vols: seq<Option<real>>, shifted: seq<Option<real>>, out: VolatilityRow)
    requires |vols| == |keys| == |shifted|
    requires forall g :: 0 <= g < |keys| ==>
      shifted[g] == if g > 0 && keys[g - 1].0 == keys[g].0 then vols[g - 1] else None
    ensures out in VolatilityRows(keys, shifted, |keys|) <==>
      exists g :: 0 < g < |keys| && keys[g] == (out.stkcd, out.yearmon) && keys[g - 1].0 == out.stkcd && vols[g - 1] == Some(out.volatility)
  {
    VolatilityRowsAreShifted(keys, shifted, |keys|, out);
  }

  /** Caption rows go; a missing code, date or return becomes "0", and a missing return reads as 0. */
  lemma CleanRowFills(row: DailyRow)
    ensures row.stkcd.Some? && IsCaption(row.stkcd.value) ==> CleanRow(row).None?
    ensures row.stkcd.None? ==> CleanRow(row) == Some(ReturnRow("0", row.trddt.GetOr("0"), row.dretwd.GetOr("0")))
    ensures CleanRow(row).Some? && row.dretwd.None? ==> ParseNumber(CleanRow(row).value.dretwd) == Some(0.0)
  {
    if CleanRow(row).Some? && row.dretwd.None? {
      ParseNumberDigits("0");
    }
  }

  /** The script raises on a date without digits first, then on a return that is not a number. */
  lemma VolatilityErrors(raw: seq<DailyRow>, std: seq<real> -> real)
    ensures var d := FilterMap(raw, CleanRow);
      (VolatilityTable(raw, std) == Err(IntParseFailed) <==> exists i :: 0 <= i < |d| && DigitYearmon(d[i].trddt).None?)
      && (VolatilityTable(raw, std) == Err(FloatParseFailed) <==>
            (forall i :: 0 <= i < |d| ==> DigitYearmon(d[i].trddt).Some?)
            && exists i :: 0 <= i < |d| && ParseNumber(d[i].dretwd).None?)
  {
    var d := FilterMap(raw, CleanRow);
    if Yearmons(d).Err? {
      assert VolatilityTable(raw, std) == Err(IntParseFailed);
    } else if Returns(d).Err? {
      assert VolatilityTable(raw, std) == Err(FloatParseFailed);
    } else {
      assert VolatilityTable(raw, std).Ok?;
    }
  }

  /** `main` as the script runs it: read, clean, add the Yearmon columns in place, group, shift, drop. */
  method Run(listing: seq<SheetFile<DailyRow>>, std: seq<real> -> real) returns (out: Outcome<VolatilityRow>)
    ensures out == VolatilityFactor(listing, std)
  {
    var loaded := ReadAndConcat(listing, Patterns, Raise);
    var raw := Concat(loaded);
    if raw.Err? {
      return Raised(raw.error);
    }
    var d := FilterMap(raw.value, CleanRow);
    var yearmon := Yearmons(d);
    if yearmon.Err? {
      return Raised(yearmon.error);
    }
    var dretwd := Returns(d);
    if dretwd.Err? {
      return Raised(dretwd.error);
    }
    var ret := Monthly(d, yearmon.value, dretwd.value);
    var keys := GroupKeys(ret);
    var rets := GroupVols(ret, keys, std);
    out := Written(VolatilityRows(keys, ShiftedAll(keys, rets), |keys|));
  }
}
