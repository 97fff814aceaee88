/**
 * stdcf_processing.py: cash-flow volatility, the standard deviation of
 * CFO / revenue over a stock's last 16 reports, from the cash-flow and
 * income-statement sheets joined on (Stkcd, Accper).
 */
module Stdcf {
  import opened Tables
  import opened Loader
  import opened Text
  import opened Joins
  import opened Ordering
  import opened Groups

  type Key = (Option<Code>, Option<ParsedDate>)

  /** Cash-flow sheet row: C001000000 is the operating cash flow. */
  datatype CashFlowRow = CashFlowRow(stkcd: Option<Code>, accper: Option<ParsedDate>, c001000000: Cell)
  /** Income-statement row: B001100000 is total operating revenue. */
  datatype IncomeRow = IncomeRow(stkcd: Option<Code>, accper: Option<ParsedDate>, b001100000: Cell)

  datatype Keyed = Keyed(key: Key, value: Option<real>)

  /** A row of the inner merge. */
  datatype Joined = Joined(key: Key, cfo: Option<real>, saleq: Option<real>)

  /** A merged row with its quarterly ratio. */
  datatype RatioRow = RatioRow(key: Key, ratio: Option<real>)

  /** A row of stdcf_1.csv. */
  datatype StdcfRow = StdcfRow(stkcd: Option<Code>, accper: Option<ParsedDate>, stdcf: real)

  const Patterns: seq<string> := [".xlsx", ".xls"]

  /** `rolling(window=16, min_periods=16)`. */
  const Window: nat := 16

  function Cfo(row: CashFlowRow): Keyed
  {
    Keyed((row.stkcd, row.accper), ToNumeric(row.c001000000))
  }

  function Saleq(row: IncomeRow): Keyed
  {
    Keyed((row.stkcd, row.accper), ToNumeric(row.b001100000))
  }

  function KeyOf(k: Keyed): Key { k.key }

  function Pair(cf: Keyed, pf: Keyed): Joined
  {
    Joined(cf.key, cf.value, pf.value)
  }

  /** `saleq.replace(0, 0.01)`. */
  function AdjustRevenue(s: Option<real>): Option<real>
  {
    if s == Some(0.0) then Some(0.01) else s
  }

  /** `ratio = CFO / saleq_adj`. */
  function RatioOf(j: Joined): RatioRow
  {
    RatioRow(j.key, Divide(j.cfo, AdjustRevenue(j.saleq)))
  }

  function RatioKey(r: RatioRow): Key { r.key }

  /** Ascending codes, a missing code last (`na_position='last'`). */
  predicate CodeBefore(a: Option<Code>, b: Option<Code>)
  {
    a.Some? && (b.None? || StrLt(a.value, b.value))
  }

  /** Ascending dates, a missing date last. */
  predicate DateBefore(a: Option<ParsedDate>, b: Option<ParsedDate>)
  {
    a.Some? && (b.None? || DateLt(a.value, b.value))
  }

  /** The order of `sort_values(['Stkcd', 'Accper'])`. */
  predicate KeyLt(a: Key, b: Key)
  {
    CodeBefore(a.0, b.0) || (a.0 == b.0 && DateBefore(a.1, b.1))
  }

  lemma KeyLtIsStrictOrder()
    ensures StrictOrder(KeyLt)
  {
    forall a: Key ensures !KeyLt(a, a) {
      if a.0.Some? {
        StrLtIrreflexive(a.0.value);
      }
    }
    forall a: Key, b: Key, c: Key | KeyLt(a, b) && KeyLt(b, c) ensures KeyLt(a, c) {
      if a.0.Some? && b.0.Some? && c.0.Some? && StrLt(a.0.value, b.0.value) && StrLt(b.0.value, c.0.value) {
        StrLtTransitive(a.0.value, b.0.value, c.0.value);
      }
    }
  }

  /** The stock of a row: its group in `groupby('Stkcd')`, none for a missing code. */
  function StockOf(r: RatioRow): Option<Code> { r.key.0 }

  /** The ratios at the given positions. */
  function RatiosAt(rows: seq<RatioRow>, win: seq<nat>): (xs: seq<real>)
    requires forall t :: 0 <= t < |win| ==> win[t] < |rows| && rows[win[t]].ratio.Some?
    ensures |xs| == |win|
  {
    seq(|win|, t requires 0 <= t < |win| => rows[win[t]].ratio.value)
  }

  /**
   * The transform at row `i`: rows without a stock code belong to no group;
   * otherwise the window is the stock's last 16 rows up to `i`, all of which
   * need a ratio.
   */
  function StdcfAt(rows: seq<RatioRow>, i: nat, std: seq<real> -> real): Option<real>
    requires i < |rows|
  {
    match rows[i].key.0
    case None => None
    case Some(c) =>
      var idx := Positions(rows[..i + 1], StockOf, Some(c));
      if |idx| < Window then None
      else
        var win := idx[|idx| - Window..];
        assert forall t :: 0 <= t < |win| ==> win[t] < |rows|;
        if forall t :: 0 <= t < |win| ==> rows[win[t]].ratio.Some? then Some(std(RatiosAt(rows, win)))
        else None
  }

  /** The rows with a defined `stdcf`, in table order. */
  function StdcfRows(rows: seq<RatioRow>, n: nat, std: seq<real> -> real): seq<StdcfRow>
    requires n <= |rows|
  {
    if n == 0 then []
    else
      var rest := StdcfRows(rows, n - 1, std);
      match StdcfAt(rows, n - 1, std)
      case None => rest
      case Some(v) => rest + [StdcfRow(rows[n - 1].key.0, rows[n - 1].key.1, v)]
  }

  /** Steps 3-6 of `main` on the two non-empty tables. */
  function Sorted(cf: seq<CashFlowRow>, pf: seq<IncomeRow>): seq<RatioRow>
  {
    var joined := InnerJoin(Seq(cf, Cfo), Seq(pf, Saleq), KeyOf, KeyOf, Pair);
    SortStable(Seq(joined, RatioOf), RatioKey, KeyLt)
  }

  function StdcfTable(cf: seq<CashFlowRow>, pf: seq<IncomeRow>, std: seq<real> -> real): seq<StdcfRow>
  {
    var sorted := Sorted(cf, pf);
    StdcfRows(sorted, |sorted|, std)
  }

  /** `read_and_concat` here returns an empty frame instead of raising on an empty list. */
  function Rows<R>(loaded: Loaded<R>): Result<seq<R>>
  {
    match loaded
    case Failed(e) => Err(e)
    case Frames(fs) => Ok(Flatten(fs))
  }

  /** `main`: stop without writing when either table is empty. */
  function StdcfFactor(cfFiles: seq<SheetFile<CashFlowRow>>, pfFiles: seq<SheetFile<IncomeRow>>, std: seq<real> -> real): Outcome<StdcfRow>
  {
    var cf := Rows(Load(cfFiles, Patterns, Skip));
    if cf.Err? then Raised(cf.error) else
    var pf := Rows(Load(pfFiles, Patterns, Skip));
    if pf.Err? then Raised(pf.error) else
    if cf.value == [] || pf.value == [] then Stopped
    else Written(StdcfTable(cf.value, pf.value, std))
  }

  /** The script never raises; it stops exactly when one of the two tables has no row. */
  lemma StdcfStops(cfFiles: seq<SheetFile<CashFlowRow>>, pfFiles: seq<SheetFile<IncomeRow>>, std: seq<real> -> real)
    ensures Load(cfFiles, Patterns, Skip).Frames? && Load(pfFiles, Patterns, Skip).Frames?
    ensures !StdcfFactor(cfFiles, pfFiles, std).Raised?
    ensures StdcfFactor(cfFiles, pfFiles, std) == Stopped <==>
      Flatten(Load(cfFiles, Patterns, Skip).frames) == [] || Flatten(Load(pfFiles, Patterns, Skip).frames) == []
  {
    SkipNeverFails(cfFiles, Patterns);
    SkipNeverFails(pfFiles, Patterns);
  }

  /** Revenue exactly 0 becomes 0.01; every other value, negative ones included, is unchanged. */
  lemma AdjustRevenueOnlyZero(s: Option<real>)
    ensures AdjustRevenue(s) != Some(0.0)
    ensures s != Some(0.0) ==> AdjustRevenue(s) == s
    ensures AdjustRevenue(s).Some? <==> s.Some?
  {
  }

  /** The ratio is defined exactly when both CFO and revenue are, and ratio times adjusted revenue is CFO. */
  lemma RatioDefined(j: Joined)
    ensures RatioOf(j).ratio.Some? <==> j.cfo.Some? && j.saleq.Some?
    ensures RatioOf(j).ratio.Some? ==> RatioOf(j).ratio.value * AdjustRevenue(j.saleq).value == j.cfo.value
  {
  }

  /** Only keys present in both tables survive the inner merge. */
  lemma JoinedKeysInBoth(cf: seq<CashFlowRow>, pf: seq<IncomeRow>, j: Joined)
    requires j in InnerJoin(Seq(cf, Cfo), Seq(pf, Saleq), KeyOf, KeyOf, Pair)
    ensures exists a, b :: (0 <= a < |cf| && 0 <= b < |pf|
      && (cf[a].stkcd, cf[a].accper) == j.key == (pf[b].stkcd, pf[b].accper)
      && j.cfo == ToNumeric(cf[a].c001000000) && j.saleq == ToNumeric(pf[b].b001100000))
  {
    InnerJoinPairsEqualKeys(Seq(cf, Cfo), Seq(pf, Saleq), KeyOf, KeyOf, Pair);
  }

  /** A cash-flow row and an income row with the same (Stkcd, Accper) give a merged row carrying both values. */
  lemma JoinedFromBoth(cf: seq<CashFlowRow>, pf: seq<IncomeRow>, a: nat, b: nat)
    requires a < |cf| && b < |pf| && (cf[a].stkcd, cf[a].accper) == (pf[b].stkcd, pf[b].accper)
    ensures Joined((cf[a].stkcd, cf[a].accper), ToNumeric(cf[a].c001000000), ToNumeric(pf[b].b001100000))
      in InnerJoin(Seq(cf, Cfo), Seq(pf, Saleq), KeyOf, KeyOf, Pair)
  {
    InnerJoinComplete(Seq(cf, Cfo), Seq(pf, Saleq), KeyOf, KeyOf, Pair, a, b);
  }

  /** The window comes after the sort: the rows are ordered by (Stkcd, Accper) and are the merged rows. */
  lemma SortedByKey(cf: seq<CashFlowRow>, pf: seq<IncomeRow>)
    ensures SortedBy(Sorted(cf, pf), RatioKey, KeyLt)
    ensures multiset(Sorted(cf, pf))
         == multiset(Seq(InnerJoin(Seq(cf, Cfo), Seq(pf, Saleq), KeyOf, KeyOf, Pair), RatioOf))
  {
    KeyLtIsStrictOrder();
    SortStableSorted(Seq(InnerJoin(Seq(cf, Cfo), Seq(pf, Saleq), KeyOf, KeyOf, Pair), RatioOf), RatioKey, KeyLt);
  }

  /**
   * `win` is a rolling window for row `i`: 16 rows of row `i`'s stock that
   * end at row `i`, leave out none of the stock's rows between them, and all
   * have a ratio.
   */
  ghost predicate StockWindow(rows: seq<RatioRow>, i: nat, win: seq<nat>)
    requires i < |rows|
  {
    |win| == Window && win[Window - 1] == i
    && (forall t :: 0 <= t < Window ==> win[t] <= i && rows[win[t]].key.0 == rows[i].key.0 && rows[win[t]].ratio.Some?)
    && (forall t, u :: 0 <= t < u < Window ==> win[t] < win[u])
    && (forall j :: win[0] <= j <= i && rows[j].key.0 == rows[i].key.0 ==> j in win)
  }

  /** The window `StdcfAt` reads when it is defined: the last 16 positions of the stock up to `i`. */
  lemma DefinedWindow(rows: seq<RatioRow>, i: nat, std: seq<real> -> real) returns (win: seq<nat>)
    requires i < |rows| && StdcfAt(rows, i, std).Some?
    ensures rows[i].key.0.Some?
    ensures var idx := Positions(rows[..i + 1], StockOf, StockOf(rows[i]));
      |idx| >= Window && win == idx[|idx| - Window..]
    ensures forall t :: 0 <= t < |win| ==> win[t] < |rows| && rows[win[t]].ratio.Some?
    ensures StdcfAt(rows, i, std) == Some(std(RatiosAt(rows, win)))
  {
    var idx := Positions(rows[..i + 1], StockOf, StockOf(rows[i]));
    win := idx[|idx| - Window..];
  }

  /** A defined `stdcf` at row `i` is the deviation of the ratios of a rolling window for row `i`. */
  lemma StdcfWindow(rows: seq<RatioRow>, i: nat, std: seq<real> -> real)
    requires i < |rows| && StdcfAt(rows, i, std).Some?
    ensures rows[i].key.0.Some?
    ensures exists win :: StockWindow(rows, i, win) && StdcfAt(rows, i, std) == Some(std(RatiosAt(rows, win)))
  {
    var win := DefinedWindow(rows, i, std);
    TrailingIsStockWindow(rows, i, win);
  }

  /** The last 16 positions of row `i`'s stock, all with a ratio, form a rolling window for row `i`. */
  lemma TrailingIsStockWindow(rows: seq<RatioRow>, i: nat, win: seq<nat>)
    requires i < |rows|
    requires var idx := Positions(rows[..i + 1], StockOf, StockOf(rows[i]));
      |idx| >= Window && win == idx[|idx| - Window..]
    requires forall t :: 0 <= t < |win| ==> win[t] < |rows| && rows[win[t]].ratio.Some?
    ensures StockWindow(rows, i, win)
  {
    var trailing := TrailingWindow(rows, StockOf, i, Window);
    assert trailing == win;
    StockFacts(rows, i, win);
  }

  /** The group facts of the trailing window, read as a rolling window for row `i`. */
  lemma StockFacts(rows: seq<RatioRow>, i: nat, win: seq<nat>)
    requires i < |rows| && |win| == Window && win[Window - 1] == i
    requires forall t :: 0 <= t < Window ==> win[t] <= i && StockOf(rows[win[t]]) == StockOf(rows[i])
    requires forall t, u :: 0 <= t < u < Window ==> win[t] < win[u]
    requires forall j :: win[0] <= j <= i && StockOf(rows[j]) == StockOf(rows[i]) ==> j in win
    requires forall t :: 0 <= t < |win| ==> win[t] < |rows| && rows[win[t]].ratio.Some?
    ensures StockWindow(rows, i, win)
  {
  }

  /**
   * A stock with at least 16 rows up to row `i`, the last 16 of them all with
   * a ratio, has a `stdcf` at row `i`: the deviation of those 16 ratios.
   */
  lemma FullWindowDefined(rows: seq<RatioRow>, i: nat, std: seq<real> -> real)
    requires i < |rows| && rows[i].key.0.Some?
    requires var idx := Positions(rows[..i + 1], StockOf, rows[i].key.0);
      |idx| >= Window && forall t :: |idx| - Window <= t < |idx| ==> idx[t] < |rows| && rows[idx[t]].ratio.Some?
    ensures var idx := Positions(rows[..i + 1], StockOf, rows[i].key.0);
      var win := idx[|idx| - Window..];
      (forall t :: 0 <= t < |win| ==> win[t] < |rows| && rows[win[t]].ratio.Some?)
      && StdcfAt(rows, i, std) == Some(std(RatiosAt(rows, win)))
  {
    var idx := Positions(rows[..i + 1], StockOf, rows[i].key.0);
    var win := idx[|idx| - Window..];
    forall t | 0 <= t < |win| ensures win[t] < |rows| && rows[win[t]].ratio.Some? {
      assert win[t] == idx[|idx| - Window + t];
    }
  }

  /** A rolling window for row `i` can only be the last 16 positions of row `i`'s stock up to `i`. */
  lemma WindowIsTrailing(rows: seq<RatioRow>, i: nat, win: seq<nat>)
    requires i < |rows| && StockWindow(rows, i, win)
    ensures var idx := Positions(rows[..i + 1], StockOf, StockOf(rows[i]));
      |idx| >= Window && win == idx[|idx| - Window..]
  {
    StockWindowShape(rows, i, win);
    GroupWindowIsSuffix(rows, StockOf, i, win);
  }

  /** A rolling window for row `i`, read as positions of row `i`'s group under `StockOf`. */
  lemma StockWindowShape(rows: seq<RatioRow>, i: nat, win: seq<nat>)
    requires i < |rows| && StockWindow(rows, i, win)
    ensures win != [] && win[|win| - 1] == i && |win| == Window
    ensures forall t :: 0 <= t < |win| ==> win[t] <= i && StockOf(rows[win[t]]) == StockOf(rows[i])
    ensures forall t, u :: 0 <= t < u < |win| ==> win[t] < win[u]
    ensures forall j :: win[0] <= j <= i && StockOf(rows[j]) == StockOf(rows[i]) ==> j in win
  {
  }

  /**
   * `stdcf` is defined at row `i` exactly when the row has a stock code and a
   * rolling window for it exists; it is then the deviation of that window's
   * ratios, whichever such window is taken.
   */
  lemma StdcfDefinedIff(rows: seq<RatioRow>, i: nat, std: seq<real> -> real)
    requires i < |rows|
    ensures StdcfAt(rows, i, std).Some? <==> rows[i].key.0.Some? && exists win :: StockWindow(rows, i, win)
    ensures forall win :: StockWindow(rows, i, win) && rows[i].key.0.Some? ==>
      StdcfAt(rows, i, std) == Some(std(RatiosAt(rows, win)))
  {
    if StdcfAt(rows, i, std).Some? {
      StdcfWindow(rows, i, std);
    }
    forall win | StockWindow(rows, i, win) && rows[i].key.0.Some?
      ensures StdcfAt(rows, i, std) == Some(std(RatiosAt(rows, win)))
    {
      WindowGivesStdcf(rows, i, std, win);
    }
  }

  /** A rolling window for a row with a stock code gives that row's `stdcf`. */
  lemma WindowGivesStdcf(rows: seq<RatioRow>, i: nat, std: seq<real> -> real, win: seq<nat>)
    requires i < |rows| && rows[i].key.0.Some? && StockWindow(rows, i, win)
    ensures StdcfAt(rows, i, std) == Some(std(RatiosAt(rows, win)))
  {
    WindowIsTrailing(rows, i, win);
    TrailingGivesStdcf(rows, i, std, win);
  }

  /** The last 16 positions of a stock up to row `i`, all with a ratio, give row `i`'s `stdcf`. */
  lemma TrailingGivesStdcf(rows: seq<RatioRow>, i: nat, std: seq<real> -> real, win: seq<nat>)
    requires i < |rows| && rows[i].key.0.Some?
    requires var idx := Positions(rows[..i + 1], StockOf, rows[i].key.0);
      |idx| >= Window && win == idx[|idx| - Window..]
    requires forall t :: 0 <= t < |win| ==> win[t] < |rows| && rows[win[t]].ratio.Some?
    ensures StdcfAt(rows, i, std) == Some(std(RatiosAt(rows, win)))
  {
  }

  /** Row `i` of a stock with fewer than 16 rows up to it has no `stdcf`. */
  lemma StdcfNeedsSixteenRows(rows: seq<RatioRow>, i: nat, std: seq<real> -> real)
    requires i < |rows| && rows[i].key.0.Some?
    requires |Positions(rows[..i + 1], StockOf, rows[i].key.0)| < Window
    ensures StdcfAt(rows, i, std).None?
  {
  }

  /** An output row is exactly a sorted row with a defined `stdcf`, carrying its key. */
  lemma {:induction false} StdcfRowsAreDefined(rows: seq<RatioRow>, n: nat, std: seq<real> -> real, out: StdcfRow)
    requires n <= |rows|
    ensures out in StdcfRows(rows, n, std) <==>
      exists i :: 0 <= i < n && StdcfAt(rows, i, std) == Some(out.stdcf) && rows[i].key == (out.stkcd, out.accper)
  {
    if n > 0 {
      StdcfRowsAreDefined(rows, n - 1, std, out);
    }
  }

  /** `main` as the script runs it. */
  method Run(cfFiles: seq<SheetFile<CashFlowRow>>, pfFiles: seq<SheetFile<IncomeRow>>, std: seq<real> -> real) returns (out: Outcome<StdcfRow>)
    ensures out == StdcfFactor(cfFiles, pfFiles, std)
  {
    var cfLoaded := ReadAndConcat(cfFiles, Patterns, Skip);
    var cf := Rows(cfLoaded);
    if cf.Err? {
      return Raised(cf.error);
    }
    var pfLoaded := ReadAndConcat(pfFiles, Patterns, Skip);
    var pf := Rows(pfLoaded);
    if pf.Err? {
      return Raised(pf.error);
    }
    if cf.value == [] || pf.value == [] {
      return Stopped;
    }
    var df := Sorted(cf.value, pf.value);
    out := Written(StdcfRows(df, |df|, std));
  }
}
