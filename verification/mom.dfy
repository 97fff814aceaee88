/**
 * mom_processing.py: the momentum factors of each stock and month of the
 * panel. maxret is last month's largest daily return, mom1m this month's
 * summed return, and mom6m, mom12m and mom36m rolling sums of monthly
 * returns over the stock's observed months up to last month.
 */
module Mom {
  import opened Tables
  import opened Text
  import opened Loader
  import opened Ordering
  import opened Groups
  import opened Panel

  /**
   * A daily-return sheet row. The date is what `to_datetime(format='%Y-%m-%d')`
   * makes of the cell once missing cells are 0: missing where it raises.
   */
  datatype DailyRow = DailyRow(stkcd: Option<Code>, trddt: Option<ParsedDate>, dretnd: Option<real>)

  /** A row of `d_`: captions dropped, missing code and return filled with 0. */
  datatype Daily = Daily(stkcd: Code, trddt: Option<ParsedDate>, ret: real)

  /** A row of `RET`: a daily return and its Yearmon. */
  datatype Ret = Ret(stkcd: Code, yearmon: int, ret: real)

  /** A row of `RET_`: a daily return and the rank of its month (`ID_Mon`). */
  datatype RankedRet = RankedRet(stkcd: Code, rank: nat, ret: real)

  /** A row of MOM_treated_1.csv. */
  datatype MomRow = MomRow(stkcd: Code, yearmon: int, maxret: Option<real>, mom1m: real,
                           mom6m: Option<real>, mom12m: Option<real>, mom36m: Option<real>)

  const Patterns: seq<string> := [".xlsx"]

  /** The output keeps the rows whose mom1m exceeds this. */
  const Floor: real := -9999.0

  /** The rolling windows as written: 5 months for mom6m, 11 for mom12m, 36 and 12 for mom36m. */
  const Mom6Window: nat := 5
  const Mom12Window: nat := 11
  const Long: nat := 36
  const Short: nat := 12

  /** The caption filter and `fillna(0)`; a missing code is not a caption. */
  function Clean(row: DailyRow): (r: Option<Daily>)
  {
    if row.stkcd.Some? && IsCaption(row.stkcd.value) then None
    else Some(Daily(row.stkcd.GetOr("0"), row.trddt, row.dretnd.GetOr(0.0)))
  }

  /** `to_datetime` and the Yearmon column: the first date that does not parse raises. */
  function Dated(rows: seq<Daily>): (r: Result<seq<Ret>>)
    ensures r.Ok? ==> |r.value| == |rows| && forall i :: 0 <= i < |rows| ==>
      rows[i].trddt.Some? && r.value[i] == Ret(rows[i].stkcd, CompactYearmon(rows[i].trddt.value), rows[i].ret)
    ensures r.Err? <==> exists i :: 0 <= i < |rows| && rows[i].trddt.None?
    ensures r.Err? ==> r.error == DateParseFailed
  {
    if rows == [] then Ok([])
    else
      var init := rows[..|rows| - 1];
      var last := rows[|rows| - 1];
      assert forall i :: 0 <= i < |init| ==> init[i] == rows[i];
      match Dated(init)
      case Err(e) => Err(e)
      case Ok(rs) =>
        match last.trddt
        case None => Err(DateParseFailed)
        case Some(d) => Ok(rs + [Ret(last.stkcd, CompactYearmon(d), last.ret)])
  }

  function YearmonOf(r: Ret): int { r.yearmon }

  function StkcdOf(r: Ret): Code { r.stkcd }

  /** The merge of `RET` with the month ranks; every month of the data has one. */
  function Ranked(rs: seq<Ret>, months: seq<int>): (r: seq<RankedRet>)
    requires forall i :: 0 <= i < |rs| ==> rs[i].yearmon in months
    ensures |r| == |rs|
    ensures forall i :: 0 <= i < |rs| ==>
      r[i].stkcd == rs[i].stkcd && r[i].ret == rs[i].ret && Find(months, rs[i].yearmon) == Some(r[i].rank)
  {
    seq(|rs|, i requires 0 <= i < |rs| => RankedRet(rs[i].stkcd, Find(months, rs[i].yearmon).value, rs[i].ret))
  }

  function KeyOf(r: RankedRet): (Code, int) { (r.stkcd, r.rank) }

  /** The daily returns of one (Stkcd, ID_Mon) group, in row order. */
  function GroupRets(rs: seq<RankedRet>, k: (Code, int)): (r: seq<real>)
    ensures r == [] <==> forall i :: 0 <= i < |rs| ==> KeyOf(rs[i]) != k
  {
    if rs == [] then []
    else
      var init := rs[..|rs| - 1];
      assert forall i :: 0 <= i < |init| ==> init[i] == rs[i];
      GroupRets(init, k) + (if KeyOf(rs[|rs| - 1]) == k then [rs[|rs| - 1].ret] else [])
  }

  /** A value is in a group exactly when some row of the group carries it. */
  lemma {:induction false} GroupRetsMembers(rs: seq<RankedRet>, k: (Code, int), x: real)
    ensures x in GroupRets(rs, k) <==> exists i :: 0 <= i < |rs| && KeyOf(rs[i]) == k && rs[i].ret == x
  {
    if rs != [] {
      var init := rs[..|rs| - 1];
      GroupRetsMembers(init, k, x);
      if exists i :: 0 <= i < |init| && KeyOf(init[i]) == k && init[i].ret == x {
        var i :| 0 <= i < |init| && KeyOf(init[i]) == k && init[i].ret == x;
        assert rs[i] == init[i];
      }
      if exists i :: 0 <= i < |rs| && KeyOf(rs[i]) == k && rs[i].ret == x {
        var i :| 0 <= i < |rs| && KeyOf(rs[i]) == k && rs[i].ret == x;
        if i < |init| {
          assert init[i] == rs[i];
        }
      }
    }
  }

  /** `max()` of a group, missing for a group with no row (the left merge finds nothing). */
  function MaxOpt(xs: seq<real>): (r: Option<real>)
    ensures r.Some? <==> xs != []
    ensures r.Some? ==> r.value in xs && forall i :: 0 <= i < |xs| ==> xs[i] <= r.value
  {
    if xs == [] then None else Some(MaxOf(xs))
  }

  /** `RETM`: the monthly sum of every (Stkcd, ID_Mon) group, in key order. */
  function MonthSums(rs: seq<RankedRet>, keys: seq<(Code, int)>): (r: seq<real>)
    ensures |r| == |keys| && forall g :: 0 <= g < |keys| ==> r[g] == Sum(GroupRets(rs, keys[g]))
  {
    seq(|keys|, g requires 0 <= g < |keys| => Sum(GroupRets(rs, keys[g])))
  }

  function StockOfKey(k: (Code, int)): Code { k.0 }

  /** The values at the given positions. */
  function Pick(xs: seq<real>, idx: seq<nat>): (r: seq<real>)
    requires forall t :: 0 <= t < |idx| ==> idx[t] < |xs|
    ensures |r| == |idx| && forall t :: 0 <= t < |idx| ==> r[t] == xs[idx[t]]
  {
    seq(|idx|, t requires 0 <= t < |idx| => xs[idx[t]])
  }

  /**
   * `groupby('Stkcd')['mom1m'].rolling(window=w).sum()` at row `g` of `RETM`:
   * the sum of the stock's last `w` monthly sums up to row `g`, missing
   * while the stock has fewer than `w` rows (`min_periods` is the window).
   */
  function Rolling(keys: seq<(Code, int)>, sums: seq<real>, g: nat, w: nat): Option<real>
    requires |sums| == |keys| && g < |keys|
  {
    WindowSum(sums, Positions(keys[..g + 1], StockOfKey, keys[g].0), w)
  }

  /** The sum of the values at the last `w` positions, missing when there are fewer. */
  function WindowSum(xs: seq<real>, idx: seq<nat>, w: nat): (r: Option<real>)
    requires forall t :: 0 <= t < |idx| ==> idx[t] < |xs|
    ensures r.Some? <==> |idx| >= w
  {
    if |idx| < w then None else Some(Sum(Pick(xs, idx[|idx| - w..])))
  }

  /** The merge on (Stkcd, ID_Mon - 1): the rolling sum of the stock's row for the previous month. */
  function Lagged(keys: seq<(Code, int)>, sums: seq<real>, c: Code, k: int, w: nat): Option<real>
    requires |sums| == |keys|
  {
    match Find(keys, (c, k - 1))
    case None => None
    case Some(g) => Rolling(keys, sums, g, w)
  }

  /** A finished grid row, or nothing when the output filter drops it. */
  function MomAt(rs: seq<RankedRet>, keys: seq<(Code, int)>, sums: seq<real>, row: GridRow): Option<MomRow>
    requires |sums| == |keys|
  {
    var c, k := row.stkcd, row.rank as int;
    var month := GroupRets(rs, (c, k));
    if month == [] || !(Sum(month) > Floor) then None
    else
      Some(MomRow(c, row.yearmon, MaxOpt(GroupRets(rs, (c, k - 1))), Sum(month),
                  Lagged(keys, sums, c, k, Mom6Window), Lagged(keys, sums, c, k, Mom12Window),
                  Minus(Lagged(keys, sums, c, k, Long), Lagged(keys, sums, c, k, Short))))
  }

  /** Every grid row finished, in grid order. */
  function Finished(rs: seq<RankedRet>, keys: seq<(Code, int)>, sums: seq<real>, grid: seq<GridRow>): (r: seq<Option<MomRow>>)
    requires |sums| == |keys|
    ensures |r| == |grid| && forall p :: 0 <= p < |grid| ==> r[p] == MomAt(rs, keys, sums, grid[p])
  {
    seq(|grid|, p requires 0 <= p < |grid| => MomAt(rs, keys, sums, grid[p]))
  }

  /** The month list, the ranks, the monthly groups and the grid, from the dated returns. */
  function MomTable(rs: seq<Ret>): seq<MomRow>
  {
    var months := Months(Seq(rs, YearmonOf));
    assert forall i :: 0 <= i < |rs| ==> rs[i].yearmon in months by {
      assert forall i :: 0 <= i < |rs| ==> Seq(rs, YearmonOf)[i] == rs[i].yearmon;
    }
    var stocks := SortedDistinct(Seq(rs, StkcdOf), StrLt);
    var ranked := Ranked(rs, months);
    var keys := SortedDistinct(Seq(ranked, KeyOf), CodeIntLt);
    Present(Finished(ranked, keys, MonthSums(ranked, keys), Grid(stocks, months)))
  }

  /**
   * `main`: no file at all leaves a frame without columns and the caption
   * filter raises; a date that does not parse raises; no data row leaves
   * the product empty and its unpacking raises.
   */
  function MomFactor(listing: seq<SheetFile<DailyRow>>): Outcome<MomRow>
  {
    match Load(listing, Patterns, Raise)
    case Failed(e) => Raised(e)
    case Frames(fs) =>
      if fs == [] then Raised(MissingColumn("Stkcd"))
      else
        match Dated(FilterMap(Flatten(fs), Clean))
        case Err(e) => Raised(e)
        case Ok(rs) => if rs == [] then Raised(EmptyProduct) else Written(MomTable(rs))
  }

  /** The script writes a table exactly when every file reads, some data row remains and every date parses. */
  lemma MomWritten(listing: seq<SheetFile<DailyRow>>)
    ensures MomFactor(listing) != Stopped
    ensures MomFactor(listing).Written? <==>
      Load(listing, Patterns, Raise).Frames? && Load(listing, Patterns, Raise).frames != []
      && var d := FilterMap(Flatten(Load(listing, Patterns, Raise).frames), Clean);
         d != [] && forall i :: 0 <= i < |d| ==> d[i].trddt.Some?
  {
  }

  /** Caption rows go; a missing code becomes "0" and a missing return 0; the date is left to the parser. */
  lemma CleanFills(row: DailyRow)
    ensures Clean(row).None? <==> row.stkcd.Some? && IsCaption(row.stkcd.value)
    ensures Clean(row).Some? ==>
      (Clean(row).value.trddt == row.trddt
       && (row.dretnd.None? ==> Clean(row).value.ret == 0.0)
       && (row.dretnd.Some? ==> Clean(row).value.ret == row.dretnd.value)
       && (row.stkcd.None? ==> Clean(row).value.stkcd == "0"))
  {
  }

  /** Yearmon = YYYYMMDD // 100 is the date's year * 100 + month. */
  lemma DatedYearmon(rows: seq<Daily>)
    requires Dated(rows).Ok?
    ensures forall i :: 0 <= i < |rows| ==> Dated(rows).value[i].yearmon == YearMonth(rows[i].trddt.value)
  {
    forall i | 0 <= i < |rows| ensures Dated(rows).value[i].yearmon == YearMonth(rows[i].trddt.value) {
      CompactYearmonIsYearMonth(rows[i].trddt.value);
    }
  }

  /**
   * maxret of a kept row is last month's largest daily return of the stock,
   * and is missing exactly when the stock has no row in the previous month.
   */
  lemma MaxretIsPreviousMonth(rs: seq<RankedRet>, keys: seq<(Code, int)>, sums: seq<real>, row: GridRow, out: MomRow)
    requires |sums| == |keys| && MomAt(rs, keys, sums, row) == Some(out)
    ensures out.maxret.Some? <==> exists i :: 0 <= i < |rs| && KeyOf(rs[i]) == (row.stkcd, row.rank - 1)
    ensures out.maxret.Some? ==>
      (exists i :: 0 <= i < |rs| && KeyOf(rs[i]) == (row.stkcd, row.rank - 1) && rs[i].ret == out.maxret.value)
      && forall i :: 0 <= i < |rs| && KeyOf(rs[i]) == (row.stkcd, row.rank - 1) ==> rs[i].ret <= out.maxret.value
  {
    var k := (row.stkcd, row.rank as int - 1);
    assert out.maxret == MaxOpt(GroupRets(rs, k));
    GroupMax(rs, k);
  }

  /** The maximum of a group is missing exactly for an empty group, and is otherwise the largest return of its rows. */
  lemma GroupMax(rs: seq<RankedRet>, k: (Code, int))
    ensures MaxOpt(GroupRets(rs, k)).Some? <==> exists i :: 0 <= i < |rs| && KeyOf(rs[i]) == k
    ensures MaxOpt(GroupRets(rs, k)).Some? ==>
      (exists i :: 0 <= i < |rs| && KeyOf(rs[i]) == k && rs[i].ret == MaxOpt(GroupRets(rs, k)).value)
      && forall i :: 0 <= i < |rs| && KeyOf(rs[i]) == k ==> rs[i].ret <= MaxOpt(GroupRets(rs, k)).value
  {
    var group := GroupRets(rs, k);
    var m := MaxOpt(group);
    if m.Some? {
      GroupRetsMembers(rs, k, m.value);
      forall i | 0 <= i < |rs| && KeyOf(rs[i]) == k ensures rs[i].ret <= m.value {
        GroupRetsMembers(rs, k, rs[i].ret);
        var t :| 0 <= t < |group| && group[t] == rs[i].ret;
      }
    }
  }

  /**
   * A grid row is kept exactly when the stock has daily rows in that same
   * month summing above -9999, and its mom1m is that sum.
   */
  lemma Mom1mIsSameMonth(rs: seq<RankedRet>, keys: seq<(Code, int)>, sums: seq<real>, row: GridRow)
    requires |sums| == |keys|
    ensures MomAt(rs, keys, sums, row).Some? <==>
      (exists i :: 0 <= i < |rs| && KeyOf(rs[i]) == (row.stkcd, row.rank)) && Sum(GroupRets(rs, (row.stkcd, row.rank))) > Floor
    ensures MomAt(rs, keys, sums, row).Some? ==>
      var out := MomAt(rs, keys, sums, row).value;
      out.stkcd == row.stkcd && out.yearmon == row.yearmon && out.mom1m == Sum(GroupRets(rs, (row.stkcd, row.rank)))
  {
  }

  /**
   * In the sorted `RETM` keys, the rows of stock `c` up to row `g` are
   * exactly the stock's observed months up to the month of row `g`.
   */
  lemma ObservedUpTo(keys: seq<(Code, int)>, g: nat, j: nat)
    requires StrictlySorted(keys, CodeIntLt) && g < |keys| && j < |keys|
    ensures (j <= g && keys[j].0 == keys[g].0) <==> (keys[j].0 == keys[g].0 && keys[j].1 <= keys[g].1)
  {
    StrLtIrreflexive(keys[g].0);
    if j < g {
      assert CodeIntLt(keys[j], keys[g]);
    } else if g < j {
      assert CodeIntLt(keys[g], keys[j]);
    }
  }

  /** The rows the rolling window draws on are the stock's observed months up to row `g`'s month. */
  lemma RollingDrawsOnObserved(keys: seq<(Code, int)>, g: nat)
    requires StrictlySorted(keys, CodeIntLt) && g < |keys|
    ensures forall j :: j in Positions(keys[..g + 1], StockOfKey, keys[g].0) <==>
      0 <= j < |keys| && keys[j].0 == keys[g].0 && keys[j].1 <= keys[g].1
  {
    PrefixPositions(keys, StockOfKey, keys[g].0, g);
    var idx := Positions(keys[..g + 1], StockOfKey, keys[g].0);
    forall j ensures j in idx <==> 0 <= j < |keys| && keys[j].0 == keys[g].0 && keys[j].1 <= keys[g].1 {
      if j in idx {
        var t :| 0 <= t < |idx| && idx[t] == j;
        ObservedUpTo(keys, g, j);
      }
      if 0 <= j < |keys| && keys[j].0 == keys[g].0 && keys[j].1 <= keys[g].1 {
        ObservedUpTo(keys, g, j);
      }
    }
  }

  /**
   * A defined rolling sum at row `g` is the sum over the stock's last `w`
   * rows up to row `g`, which leave out none of the stock's rows between them.
   */
  lemma RollingIsWindow(keys: seq<(Code, int)>, sums: seq<real>, g: nat, w: nat) returns (win: seq<nat>)
    requires |sums| == |keys| && g < |keys| && 0 < w
    requires Rolling(keys, sums, g, w).Some?
    ensures |win| == w && win[w - 1] == g
    ensures forall t :: 0 <= t < w ==> win[t] <= g && keys[win[t]].0 == keys[g].0
    ensures forall t, u :: 0 <= t < u < w ==> win[t] < win[u]
    ensures forall j :: win[0] <= j <= g && keys[j].0 == keys[g].0 ==> j in win
    ensures Rolling(keys, sums, g, w) == Some(Sum(Pick(sums, win)))
  {
    var idx := Positions(keys[..g + 1], StockOfKey, keys[g].0);
    win := TrailingWindow(keys, StockOfKey, g, w);
    WindowSumIs(sums, idx, w, win);
  }

  /** The window sum is the sum over the last `w` positions. */
  lemma WindowSumIs(xs: seq<real>, idx: seq<nat>, w: nat, win: seq<nat>)
    requires forall t :: 0 <= t < |idx| ==> idx[t] < |xs|
    requires |idx| >= w && win == idx[|idx| - w..]
    ensures forall t :: 0 <= t < |win| ==> win[t] < |xs|
    ensures WindowSum(xs, idx, w) == Some(Sum(Pick(xs, win)))
  {
  }

  /** Positions of one stock in increasing order have increasing months, and a window of them misses none. */
  lemma WindowRanks(keys: seq<(Code, int)>, g: nat, win: seq<nat>)
    requires StrictlySorted(keys, CodeIntLt) && g < |keys| && 0 < |win| && win[|win| - 1] == g
    requires forall t :: 0 <= t < |win| ==> win[t] <= g && keys[win[t]].0 == keys[g].0
    requires forall t, u :: 0 <= t < u < |win| ==> win[t] < win[u]
    requires forall j :: win[0] <= j <= g && keys[j].0 == keys[g].0 ==> j in win
    ensures forall t, u :: 0 <= t < u < |win| ==> keys[win[t]].1 < keys[win[u]].1
    ensures forall j :: 0 <= j < |keys| && keys[j].0 == keys[g].0 && keys[win[0]].1 <= keys[j].1 <= keys[g].1 ==> j in win
  {
    var c := keys[g].0;
    StrLtIrreflexive(c);
    forall t, u | 0 <= t < u < |win| ensures keys[win[t]].1 < keys[win[u]].1 {
      assert CodeIntLt(keys[win[t]], keys[win[u]]);
    }
    forall j | 0 <= j < |keys| && keys[j].0 == c && keys[win[0]].1 <= keys[j].1 <= keys[g].1 ensures j in win {
      ObservedUpTo(keys, g, j);
    }
  }

  /** The lagged rolling sum of grid row (c, k) is the rolling sum ending at the stock's month k-1. */
  lemma LaggedWindow(keys: seq<(Code, int)>, sums: seq<real>, c: Code, k: int, w: nat, v: real)
    requires StrictlySorted(keys, CodeIntLt) && |sums| == |keys| && 0 < w
    requires Lagged(keys, sums, c, k, w) == Some(v)
    ensures exists win: seq<nat> ::
      |win| == w && (forall t :: 0 <= t < w ==> win[t] < |keys| && keys[win[t]].0 == c)
      && keys[win[w - 1]] == (c, k - 1)
      && (forall t, u :: 0 <= t < u < w ==> keys[win[t]].1 < keys[win[u]].1)
      && (forall j :: 0 <= j < |keys| && keys[j].0 == c && keys[win[0]].1 <= keys[j].1 <= k - 1 ==> j in win)
      && v == Sum(Pick(sums, win))
  {
    var g := Find(keys, (c, k - 1)).value;
    var win := RollingIsWindow(keys, sums, g, w);
    WindowRanks(keys, g, win);
  }

  /** Concatenating positions concatenates the values picked. */
  lemma PickConcat(xs: seq<real>, a: seq<nat>, b: seq<nat>)
    requires forall t :: 0 <= t < |a| ==> a[t] < |xs|
    requires forall t :: 0 <= t < |b| ==> b[t] < |xs|
    ensures Pick(xs, a + b) == Pick(xs, a) + Pick(xs, b)
  {
  }

  /**
   * A stock with 36 rows up to row `g` has 12, and the 36-row sum less the
   * 12-row sum is the sum of the 24 rows that precede the last 12.
   */
  lemma RollingDifference(keys: seq<(Code, int)>, sums: seq<real>, g: nat)
    requires |sums| == |keys| && g < |keys|
    requires Rolling(keys, sums, g, Long).Some?
    ensures var idx := Positions(keys[..g + 1], StockOfKey, keys[g].0);
      |idx| >= Long && Rolling(keys, sums, g, Short).Some?
      && Rolling(keys, sums, g, Long).value - Rolling(keys, sums, g, Short).value == Sum(Pick(sums, idx[|idx| - Long..|idx| - Short]))
  {
    WindowSumSplit(sums, Positions(keys[..g + 1], StockOfKey, keys[g].0));
  }

  /** Over any positions, the sum of the last 36 less the sum of the last 12 is the sum of the 24 before them. */
  lemma WindowSumSplit(sums: seq<real>, idx: seq<nat>)
    requires |idx| >= Long && forall t :: 0 <= t < |idx| ==> idx[t] < |sums|
    ensures WindowSum(sums, idx, Short).Some?
    ensures WindowSum(sums, idx, Long).value - WindowSum(sums, idx, Short).value == Sum(Pick(sums, idx[|idx| - Long..|idx| - Short]))
  {
    var n := |idx|;
    var early, late := idx[n - Long..n - Short], idx[n - Short..];
    assert idx[n - Long..] == early + late;
    PickConcat(sums, early, late);
    SumConcat(Pick(sums, early), Pick(sums, late));
  }

  /**
   * mom36m = T36 - T12: defined exactly when T36 is, and then the sum of the
   * 24 observed months that precede the last 12 up to month k-1.
   */
  lemma Mom36Difference(keys: seq<(Code, int)>, sums: seq<real>, c: Code, k: int)
    requires |sums| == |keys|
    ensures Minus(Lagged(keys, sums, c, k, Long), Lagged(keys, sums, c, k, Short)).Some? <==> Lagged(keys, sums, c, k, Long).Some?
    ensures Lagged(keys, sums, c, k, Long).Some? ==>
      var g := Find(keys, (c, k - 1)).value;
      var idx := Positions(keys[..g + 1], StockOfKey, c);
      |idx| >= Long
      && Minus(Lagged(keys, sums, c, k, Long), Lagged(keys, sums, c, k, Short)) == Some(Sum(Pick(sums, idx[|idx| - Long..|idx| - Short])))
  {
    if Lagged(keys, sums, c, k, Long).Some? {
      var g := Find(keys, (c, k - 1)).value;
      assert keys[g] == (c, k - 1);
      assert Lagged(keys, sums, c, k, Long) == Rolling(keys, sums, g, Long);
      assert Lagged(keys, sums, c, k, Short) == Rolling(keys, sums, g, Short);
      RollingDifference(keys, sums, g);
    }
  }

  /** An output row is exactly the finished row of some grid row that the filter keeps. */
  lemma MomRowsAreKept(rs: seq<RankedRet>, keys: seq<(Code, int)>, sums: seq<real>, grid: seq<GridRow>, out: MomRow)
    requires |sums| == |keys|
    ensures out in Present(Finished(rs, keys, sums, grid)) <==> exists p :: 0 <= p < |grid| && MomAt(rs, keys, sums, grid[p]) == Some(out)
  {
    var f := Finished(rs, keys, sums, grid);
    PresentMembers(f, out);
    if Some(out) in f {
      var p :| 0 <= p < |f| && f[p] == Some(out);
    }
    if exists p :: 0 <= p < |grid| && MomAt(rs, keys, sums, grid[p]) == Some(out) {
      var p :| 0 <= p < |grid| && MomAt(rs, keys, sums, grid[p]) == Some(out);
      assert f[p] == Some(out);
    }
  }

  /** `main` as the script runs it: read and concatenate, clean, date, then the panel. */
  method Run(listing: seq<SheetFile<DailyRow>>) returns (out: Outcome<MomRow>)
    ensures out == MomFactor(listing)
  {
    var d := ReadAndConcat(listing, Patterns, Raise);
    if d.Failed? {
      return Raised(d.error);
    }
    if d.frames == [] {
      return Raised(MissingColumn("Stkcd"));
    }
    var cleaned := FilterMap(Flatten(d.frames), Clean);
    var ret := Dated(cleaned);
    if ret.Err? {
      return Raised(ret.error);
    }
    if ret.value == [] {
      return Raised(EmptyProduct);
    }
    out := Written(MomTable(ret.value));
  }
}
