/**
 * utils/smkWork/factor.py: the trading factors of each stock and month of
 * the share-change panel. dolvol is the log traded amount two months back,
 * turn the last three months' volume over the shares outstanding, zero the
 * number of trading days of a month, attached to the next month.
 */
module Trading {
  import opened Tables
  import opened Text
  import opened Loader
  import opened Ordering
  import opened Joins
  import opened Panel

  /**
   * A daily trading sheet row. The date is what `to_datetime(format='%Y-%m-%d')`
   * makes of the cell once missing cells are 0: missing where it raises.
   */
  datatype TradeRow = TradeRow(stkcd: Option<Code>, trddt: Option<ParsedDate>,
                               prccls: Option<real>, tolstknum: Option<real>, tolstknva: Option<real>)

  /** A row of the frame `process_old_data` returns: captions dropped, missing cells 0, columns renamed. */
  datatype Trade = Trade(stkcd: Code, date: Option<ParsedDate>, price: real, volume: real, amount: real)

  /** A row of TRD_Capchg.xlsx: a share change, its date and the shares outstanding. */
  datatype CapRow = CapRow(stkcd: Code, shrchgdt: Option<ParsedDate>, nshra: Option<real>)

  /** A row of `df` once its Yearmon column is added. */
  datatype Daily = Daily(stkcd: Code, yearmon: int, volume: real, amount: real)

  /** A row of `TRDCM`: the shares of a stock recorded in a month. */
  datatype CapMonth = CapMonth(stkcd: Code, yearmon: int, nshra: Option<real>)

  /** A row of `df` merged with the month ranks; the rank is missing for a month the share table lacks. */
  datatype RankedDaily = RankedDaily(stkcd: Code, yearmon: int, rank: Option<nat>, volume: real, amount: real)

  /** The prefix of the daily sheets that are read. */
  const StartStr: string := "LT"

  /** TRD_Capchg.xlsx repeats its column titles in its first two data rows. */
  const CaptionRows: nat := 2

  // ---------------------------------------------------------------- process_old_data

  /** The caption filter and `fillna(0)`; a missing code is not a caption. */
  function CleanTrade(row: TradeRow): (r: Option<Trade>)
    ensures r.None? <==> row.stkcd.Some? && IsCaption(row.stkcd.value)
    ensures r.Some? ==> !IsCaption(r.value.stkcd) && r.value.date == row.trddt
  {
    if row.stkcd.Some? && IsCaption(row.stkcd.value) then None
    else Some(Trade(row.stkcd.GetOr("0"), row.trddt, row.prccls.GetOr(0.0), row.tolstknum.GetOr(0.0), row.tolstknva.GetOr(0.0)))
  }

  /**
   * The frames read, concatenated and cleaned. With no frame the concatenation
   * is an empty frame without columns, and selecting Stkcd raises.
   */
  function OldData(loaded: Loaded<TradeRow>): (r: Result<seq<Trade>>)
    ensures r.Err? <==> loaded.Failed? || loaded.frames == []
    ensures loaded.Frames? && loaded.frames == [] ==> r == Err(MissingColumn("Stkcd"))
    ensures loaded.Failed? ==> r == Err(loaded.error)
  {
    match loaded
    case Failed(e) => Err(e)
    case Frames(fs) => if fs == [] then Err(MissingColumn("Stkcd")) else Ok(FilterMap(Flatten(fs), CleanTrade))
  }

  /** The rows kept are exactly the cleaned non-caption rows of the frames read. */
  lemma OldDataRows(fs: seq<seq<TradeRow>>, t: Trade)
    requires fs != []
    ensures t in OldData(Frames(fs)).value <==>
      exists i :: 0 <= i < |Flatten(fs)| && !(Flatten(fs)[i].stkcd.Some? && IsCaption(Flatten(fs)[i].stkcd.value))
        && CleanTrade(Flatten(fs)[i]) == Some(t)
    ensures t in OldData(Frames(fs)).value ==> !IsCaption(t.stkcd)
  {
    assert OldData(Frames(fs)).value == FilterMap(Flatten(fs), CleanTrade);
    FilterMapMembers(Flatten(fs), CleanTrade, t);
  }

  /** `process_old_data`: the walk that collects the frames, then the cleaning. */
  method ProcessOldData(listing: seq<SheetFile<TradeRow>>, startStr: string) returns (r: Result<seq<Trade>>)
    ensures r == OldData(ReadAll(OldDataFiles(listing, startStr), Raise))
  {
    var loaded := LoadOldData(listing, startStr);
    if loaded.Failed? {
      return Err(loaded.error);
    }
    var dfList := loaded.frames;
    if dfList == [] {
      return Err(MissingColumn("Stkcd"));
    }
    r := Ok(FilterMap(Flatten(dfList), CleanTrade));
  }

  // ---------------------------------------------------------------- _data_process

  /** `astype(str)`, the dashes removed, `astype(int) // 100`: the month as YYYYMM. */
  function YearmonOfDate(d: ParsedDate): (y: int)
    ensures y == YearMonth(d)
    ensures y / 100 == d.year && y % 100 == d.month
  {
    DashlessYearmonIsYearMonth(d);
    DashlessYearmon(DateText(d)).value
  }

  /** `My_yearmon(df, 'Date')` and the Yearmon column: the first date that does not parse raises. */
  function DailyOf(rows: seq<Trade>): (r: Result<seq<Daily>>)
    ensures r.Ok? ==> |r.value| == |rows| && forall i :: 0 <= i < |rows| ==>
      rows[i].date.Some? && r.value[i] == Daily(rows[i].stkcd, YearMonth(rows[i].date.value), rows[i].volume, rows[i].amount)
    ensures r.Err? <==> exists i :: 0 <= i < |rows| && rows[i].date.None?
    ensures r.Err? ==> r.error == DateParseFailed
  {
    if rows == [] then Ok([])
    else
      var init := rows[..|rows| - 1];
      var last := rows[|rows| - 1];
      assert forall i :: 0 <= i < |init| ==> init[i] == rows[i];
      match DailyOf(init)
      case Err(e) => Err(e)
      case Ok(ds) =>
        match last.date
        case None => Err(DateParseFailed)
        case Some(d) => Ok(ds + [Daily(last.stkcd, YearmonOfDate(d), last.volume, last.amount)])
  }

  /** `TRDC.iloc[2:]`: the rows after the two caption rows. */
  function AfterCaptions(rows: seq<CapRow>): (r: seq<CapRow>)
    ensures |r| == if |rows| <= CaptionRows then 0 else |rows| - CaptionRows
    ensures forall i :: 0 <= i < |r| ==> r[i] == rows[i + CaptionRows]
  {
    if |rows| <= CaptionRows then [] else rows[CaptionRows..]
  }

  /** `My_yearmon(TRDC, 'Shrchgdt')` and the Yearmon column. */
  function CapMonthsOf(rows: seq<CapRow>): (r: Result<seq<CapMonth>>)
    ensures r.Ok? ==> |r.value| == |rows| && forall i :: 0 <= i < |rows| ==>
      rows[i].shrchgdt.Some? && r.value[i] == CapMonth(rows[i].stkcd, YearMonth(rows[i].shrchgdt.value), rows[i].nshra)
    ensures r.Err? <==> exists i :: 0 <= i < |rows| && rows[i].shrchgdt.None?
    ensures r.Err? ==> r.error == DateParseFailed
  {
    if rows == [] then Ok([])
    else
      var init := rows[..|rows| - 1];
      var last := rows[|rows| - 1];
      assert forall i :: 0 <= i < |init| ==> init[i] == rows[i];
      match CapMonthsOf(init)
      case Err(e) => Err(e)
      case Ok(cs) =>
        match last.shrchgdt
        case None => Err(DateParseFailed)
        case Some(d) => Ok(cs + [CapMonth(last.stkcd, YearmonOfDate(d), last.nshra)])
  }

  function CapKey(m: CapMonth): (Code, int) { (m.stkcd, m.yearmon) }

  /** The two tables `_data_process` returns. */
  datatype Processed = Processed(daily: seq<Daily>, trdcm: seq<CapMonth>)

  /**
   * `_data_process`: the daily rows with their months, and `TRDCM`, the share
   * table reduced to one row per stock and month.
   */
  function DataProcess(loaded: Loaded<TradeRow>, capchg: seq<CapRow>): (r: Result<Processed>)
    ensures r.Err? <==> (OldData(loaded).Err? || CapMonthsOf(AfterCaptions(capchg)).Err?
      || DailyOf(OldData(loaded).value).Err?)
    ensures r.Ok? ==> UniqueKeys(r.value.trdcm, CapKey)
    ensures r.Ok? ==> r.value.trdcm == KeepLast(CapMonthsOf(AfterCaptions(capchg)).value, CapKey)
  {
    match OldData(loaded)
    case Err(e) => Err(e)
    case Ok(df) =>
      match CapMonthsOf(AfterCaptions(capchg))
      case Err(e) => Err(e)
      case Ok(cm) =>
        match DailyOf(df)
        case Err(e) => Err(e)
        case Ok(ds) => Ok(Processed(ds, KeepLast(cm, CapKey)))
  }

  /** The shares a month is given: those of the last share-table row of that stock and exact month, else 0. */
  function Shares(trdcm: seq<CapMonth>, c: Code, y: int): real
  {
    match Lookup(trdcm, CapKey, (c, y))
    case None => 0.0
    case Some(m) => m.nshra.GetOr(0.0)
  }

  /**
   * `TRDCM` keeps, for each stock and month, the last share change recorded
   * in that very month; a month without a change gets no shares, whatever an
   * earlier month recorded.
   */
  lemma SharesAreLastOfMonth(cm: seq<CapMonth>, c: Code, y: int)
    ensures Shares(KeepLast(cm, CapKey), c, y) ==
      match LastWith(cm, CapKey, (c, y)) case None => 0.0 case Some(m) => m.nshra.GetOr(0.0)
    ensures (forall i :: 0 <= i < |cm| ==> CapKey(cm[i]) != (c, y)) ==> Shares(KeepLast(cm, CapKey), c, y) == 0.0
  {
    KeepLastLookup(cm, CapKey, (c, y));
    var t := KeepLast(cm, CapKey);
    if forall i :: 0 <= i < |cm| ==> CapKey(cm[i]) != (c, y) {
      forall i | 0 <= i < |t| ensures CapKey(t[i]) != (c, y) {
        assert t[i] in cm;
      }
    }
  }

  // ---------------------------------------------------------------- _construct_month_list

  function CapYearmon(m: CapMonth): int { m.yearmon }

  function CapStkcd(m: CapMonth): Code { m.stkcd }

  /** `Mon_list`: the distinct months of `TRDCM`, ascending. */
  function MonthsOf(trdcm: seq<CapMonth>): seq<int>
  {
    Months(Seq(trdcm, CapYearmon))
  }

  /** `Stkcd_list`: the distinct stocks of `TRDCM`, ascending. */
  function StocksOf(trdcm: seq<CapMonth>): seq<Code>
  {
    SortedDistinct(Seq(trdcm, CapStkcd), StrLt)
  }

  /** The merge of `df` with `R2` on Yearmon: a day's rank is its month's position, missing when the month is not there. */
  function RankDaily(ds: seq<Daily>, months: seq<int>): (r: seq<RankedDaily>)
    ensures |r| == |ds|
    ensures forall i :: 0 <= i < |ds| ==>
      r[i].stkcd == ds[i].stkcd && r[i].yearmon == ds[i].yearmon
      && r[i].volume == ds[i].volume && r[i].amount == ds[i].amount
      && (r[i].rank.Some? <==> ds[i].yearmon in months)
      && (r[i].rank.Some? ==> r[i].rank.value < |months| && months[r[i].rank.value] == ds[i].yearmon)
  {
    seq(|ds|, i requires 0 <= i < |ds| =>
      RankedDaily(ds[i].stkcd, ds[i].yearmon, Find(months, ds[i].yearmon), ds[i].volume, ds[i].amount))
  }

  /** The three tables `_construct_month_list` returns: `R1`, `df` and `TRDCM`. */
  datatype MonthList = MonthList(grid: seq<GridRow>, daily: seq<RankedDaily>, trdcm: seq<CapMonth>)

  function MonthListOf(p: Processed): MonthList
  {
    var months := MonthsOf(p.trdcm);
    MonthList(Grid(StocksOf(p.trdcm), months), RankDaily(p.daily, months), p.trdcm)
  }

  function MonthListResult(loaded: Loaded<TradeRow>, capchg: seq<CapRow>): Result<MonthList>
  {
    match DataProcess(loaded, capchg)
    case Err(e) => Err(e)
    case Ok(p) => Ok(MonthListOf(p))
  }

  /**
   * The panel: every stock of the share table paired with every month of it,
   * stock-major, each month with its rank; ranks are 0..P-1 in month order.
   */
  lemma PanelShape(trdcm: seq<CapMonth>, row: GridRow)
    ensures |MonthListOf(Processed([], trdcm)).grid| == |StocksOf(trdcm)| * |MonthsOf(trdcm)|
    ensures row in Grid(StocksOf(trdcm), MonthsOf(trdcm)) <==>
      (exists i :: 0 <= i < |trdcm| && trdcm[i].stkcd == row.stkcd)
      && (exists j :: 0 <= j < |trdcm| && trdcm[j].yearmon == row.yearmon)
      && Find(MonthsOf(trdcm), row.yearmon) == Some(row.rank)
  {
    GridMembers(StocksOf(trdcm), MonthsOf(trdcm), row);
    StockListed(trdcm, row.stkcd);
    MonthRank(trdcm, row.yearmon, row.rank);
  }

  /** A stock is in `Stkcd_list` exactly when some row of the share table has it. */
  lemma StockListed(trdcm: seq<CapMonth>, c: Code)
    ensures c in StocksOf(trdcm) <==> exists i :: 0 <= i < |trdcm| && trdcm[i].stkcd == c
  {
    var cs := Seq(trdcm, CapStkcd);
    assert c in StocksOf(trdcm) <==> c in cs;
    if c in cs {
      var i :| 0 <= i < |cs| && cs[i] == c;
    }
    if exists i :: 0 <= i < |trdcm| && trdcm[i].stkcd == c {
      var i :| 0 <= i < |trdcm| && trdcm[i].stkcd == c;
      assert cs[i] == c;
    }
  }

  /** Month `rank` of `Mon_list` is `y` exactly when `y` is a month of the share table and the merge gives it that rank. */
  lemma MonthRank(trdcm: seq<CapMonth>, y: int, rank: nat)
    ensures (rank < |MonthsOf(trdcm)| && y == MonthsOf(trdcm)[rank]) <==>
      (exists j :: 0 <= j < |trdcm| && trdcm[j].yearmon == y) && Find(MonthsOf(trdcm), y) == Some(rank)
  {
    var ys := Seq(trdcm, CapYearmon);
    var months := MonthsOf(trdcm);
    MonthsSorted(ys);
    RanksAreDense(ys);
    assert (y in ys) <==> exists j :: 0 <= j < |trdcm| && trdcm[j].yearmon == y by {
      if y in ys {
        var j :| 0 <= j < |ys| && ys[j] == y;
      }
      if exists j :: 0 <= j < |trdcm| && trdcm[j].yearmon == y {
        var j :| 0 <= j < |trdcm| && trdcm[j].yearmon == y;
        assert ys[j] == y;
      }
    }
    if rank < |months| && y == months[rank] {
      assert y in months;
      assert Find(months, y) == Some(rank);
    }
  }

  /**
   * `_construct_month_list`: the data processed, the ranks merged into the
   * daily rows, and `R1` built by the product loop and merged with the ranks.
   */
  method ConstructMonthList(listing: seq<SheetFile<TradeRow>>, capchg: seq<CapRow>) returns (r: Result<MonthList>)
    ensures r == MonthListResult(ReadAll(OldDataFiles(listing, StartStr), Raise), capchg)
  {
    var df := ProcessOldData(listing, StartStr);
    if df.Err? {
      return Err(df.error);
    }
    var cm := CapMonthsOf(AfterCaptions(capchg));
    if cm.Err? {
      return Err(cm.error);
    }
    var ds := DailyOf(df.value);
    if ds.Err? {
      return Err(ds.error);
    }
    var trdcm := KeepLast(cm.value, CapKey);
    var monList := MonthsOf(trdcm);
    var stkcdList := StocksOf(trdcm);
    var monL1, monL2 := BuildGrid(stkcdList, monList);
    ghost var grid := Grid(stkcdList, monList);
    forall p | 0 <= p < |monL2| ensures monL2[p] in monList && Find(monList, monL2[p]) == Some(grid[p].rank) {
      GridMembers(stkcdList, monList, grid[p]);
      RanksAreDense(Seq(trdcm, CapYearmon));
    }
    var r1 := seq(|monL1|, p requires 0 <= p < |monL1| && p < |monL2| =>
      GridRow(monL1[p], monL2[p], Find(monList, monL2[p]).value));
    assert r1 == grid;
    r := Ok(MonthList(r1, RankDaily(ds.value, monList), trdcm));
  }

  // ---------------------------------------------------------------- dolvol

  /** A row of `Amount`: a day's stock, month rank and log traded amount. */
  datatype AmountRow = AmountRow(stkcd: Code, rank: Option<nat>, dolvol: real)

  /** `dolvol`: `np.log` of each day's amount, `ln` standing for the logarithm. */
  function AmountRows(ds: seq<RankedDaily>, ln: real -> real): (r: seq<AmountRow>)
    ensures |r| == |ds|
  {
    seq(|ds|, i requires 0 <= i < |ds| => AmountRow(ds[i].stkcd, ds[i].rank, ln(ds[i].amount)))
  }

  /** The right key of the dolvol merge: the stock and `ID_Mon_2`, missing with the rank. */
  function TwoAhead(a: AmountRow): (Code, Option<int>)
  {
    (a.stkcd, if a.rank.Some? then Some(a.rank.value + 2) else None)
  }

  /** The left key of the merges on `R1`: the stock and `ID_Mon`. */
  function GridKey(g: GridRow): (Code, Option<int>)
  {
    (g.stkcd, Some(g.rank as int))
  }

  /** A row of `R1_` while `turn` builds it: the grid row, dolvol, and the Volume_n columns added so far. */
  datatype Stage = Stage(row: GridRow, dolvol: Option<real>, volumes: seq<Option<real>>)

  function AttachDolvol(g: GridRow, a: Option<AmountRow>): Stage
  {
    Stage(g, if a.Some? then Some(a.value.dolvol) else None, [])
  }

  /** The daily row lies two ranks before the grid row, in the same stock. */
  predicate TwoBack(d: RankedDaily, g: GridRow)
  {
    d.stkcd == g.stkcd && d.rank.Some? && d.rank.value + 2 == g.rank
  }

  /** The merge of `R1` with `Amount` on the stock and `ID_Mon = ID_Mon_2`: one row per matching day. */
  function WithDolvol(grid: seq<GridRow>, ds: seq<RankedDaily>, ln: real -> real): (r: seq<Stage>)
    ensures |r| >= |grid|
  {
    LeftJoin(grid, AmountRows(ds, ln), GridKey, TwoAhead, AttachDolvol)
  }

  /** The rows one grid row yields: each carries it, no volume, and the dolvol of a matching amount row or of none. */
  lemma JoinRowStages(l: GridRow, amounts: seq<AmountRow>, s: Stage)
    requires s in JoinRow(l, amounts, GridKey, TwoAhead, AttachDolvol)
    ensures s.row == l && s.volumes == []
    ensures s.dolvol.Some? ==> exists j :: 0 <= j < |amounts| && TwoAhead(amounts[j]) == GridKey(l) && s.dolvol.value == amounts[j].dolvol
    ensures s.dolvol.None? ==> forall j :: 0 <= j < |amounts| ==> TwoAhead(amounts[j]) != GridKey(l)
  {
    var m := Matches(amounts, TwoAhead, GridKey(l));
    var rows := JoinRow(l, amounts, GridKey, TwoAhead, AttachDolvol);
    if m == [] {
      assert rows == [AttachDolvol(l, None)];
      assert s == Stage(l, None, []);
    } else {
      assert |rows| == |m| && forall k :: 0 <= k < |m| ==> rows[k] == AttachDolvol(l, Some(m[k]));
      var k :| 0 <= k < |rows| && rows[k] == s;
      assert s == Stage(l, Some(m[k].dolvol), []);
      assert m[k] in amounts && TwoAhead(m[k]) == GridKey(l);
      var j :| 0 <= j < |amounts| && amounts[j] == m[k];
    }
  }

  /** Each merged row comes from a grid row and carries no volume yet; its dolvol comes from a matching amount row, or none matches. */
  lemma {:induction false} DolvolJoinRows(grid: seq<GridRow>, amounts: seq<AmountRow>, s: Stage)
    requires s in LeftJoin(grid, amounts, GridKey, TwoAhead, AttachDolvol)
    ensures s.row in grid && s.volumes == []
    ensures s.dolvol.Some? ==> exists j :: 0 <= j < |amounts| && TwoAhead(amounts[j]) == GridKey(s.row) && s.dolvol.value == amounts[j].dolvol
    ensures s.dolvol.None? ==> forall j :: 0 <= j < |amounts| ==> TwoAhead(amounts[j]) != GridKey(s.row)
  {
    var init := grid[..|grid| - 1];
    var l := grid[|grid| - 1];
    assert LeftJoin(grid, amounts, GridKey, TwoAhead, AttachDolvol)
        == LeftJoin(init, amounts, GridKey, TwoAhead, AttachDolvol) + JoinRow(l, amounts, GridKey, TwoAhead, AttachDolvol);
    if s in LeftJoin(init, amounts, GridKey, TwoAhead, AttachDolvol) {
      DolvolJoinRows(init, amounts, s);
      assert s.row in grid;
    } else {
      JoinRowStages(l, amounts, s);
    }
  }

  /**
   * The dolvol attached to grid row (stock, k) is the log amount of one of
   * that stock's days of rank k-2, or missing when there is no such day.
   */
  lemma DolvolIsTwoMonthsBack(grid: seq<GridRow>, ds: seq<RankedDaily>, ln: real -> real, s: Stage)
    requires s in WithDolvol(grid, ds, ln)
    ensures s.row in grid && s.volumes == []
    ensures s.dolvol.Some? ==> exists j :: 0 <= j < |ds| && TwoBack(ds[j], s.row) && s.dolvol.value == ln(ds[j].amount)
    ensures s.dolvol.None? <==> forall j :: 0 <= j < |ds| ==> !TwoBack(ds[j], s.row)
  {
    var amounts := AmountRows(ds, ln);
    DolvolJoinRows(grid, amounts, s);
    AmountKeys(ds, ln, s.row);
    if s.dolvol.Some? {
      var j :| 0 <= j < |amounts| && TwoAhead(amounts[j]) == GridKey(s.row) && s.dolvol.value == amounts[j].dolvol;
      assert TwoBack(ds[j], s.row);
    }
  }

  /** An amount row matches grid row `g` exactly when its day lies two ranks before `g`. */
  lemma AmountKeys(ds: seq<RankedDaily>, ln: real -> real, g: GridRow)
    ensures forall j :: 0 <= j < |ds| ==>
      (TwoAhead(AmountRows(ds, ln)[j]) == GridKey(g) <==> TwoBack(ds[j], g))
      && AmountRows(ds, ln)[j].dolvol == ln(ds[j].amount)
  {
    var amounts := AmountRows(ds, ln);
    forall j | 0 <= j < |ds|
      ensures (TwoAhead(amounts[j]) == GridKey(g) <==> TwoBack(ds[j], g)) && amounts[j].dolvol == ln(ds[j].amount)
    {
      assert amounts[j] == AmountRow(ds[j].stkcd, ds[j].rank, ln(ds[j].amount));
    }
  }

  // ---------------------------------------------------------------- turn

  /** The day is of stock `c` and has rank `m`. */
  predicate InMonth(d: RankedDaily, c: Code, m: int)
  {
    d.stkcd == c && d.rank.Some? && d.rank.value == m
  }

  /** The volumes of stock `c`'s days of rank `m`, in table order. */
  function MonthVolumes(ds: seq<RankedDaily>, c: Code, m: int): (v: seq<real>)
    ensures v == [] <==> forall i :: 0 <= i < |ds| ==> !InMonth(ds[i], c, m)
  {
    if ds == [] then []
    else
      var init := ds[..|ds| - 1];
      var last := ds[|ds| - 1];
      assert forall i :: 0 <= i < |init| ==> init[i] == ds[i];
      MonthVolumes(init, c, m) + (if InMonth(last, c, m) then [last.volume] else [])
  }

  /** `VL` at (stock, rank): the stock's volume summed over the month, present when it traded then. */
  function Volume(ds: seq<RankedDaily>, c: Code, m: int): (r: Option<real>)
    ensures r.Some? <==> exists i :: 0 <= i < |ds| && InMonth(ds[i], c, m)
    ensures r.Some? ==> r.value == Sum(MonthVolumes(ds, c, m))
  {
    var v := MonthVolumes(ds, c, m);
    if v == [] then None else Some(Sum(v))
  }

  /** `Volume_1` .. `Volume_n` of grid row `g`: the stock's monthly volumes 1 .. n ranks back. */
  function Lags(ds: seq<RankedDaily>, g: GridRow, n: nat): (r: seq<Option<real>>)
    ensures |r| == n
  {
    seq(n, t requires 0 <= t < n => Volume(ds, g.stkcd, g.rank - (t + 1)))
  }

  lemma LagsSnoc(ds: seq<RankedDaily>, g: GridRow, n: nat)
    ensures Lags(ds, g, n + 1) == Lags(ds, g, n) + [Volume(ds, g.stkcd, g.rank - (n + 1))]
  {
  }

  /** One pass of the loop: the merge with `VL` on `ID_Mon = ID_Mon_n`, adding the column Volume_n. */
  function WithVolume(stages: seq<Stage>, ds: seq<RankedDaily>, n: nat): (r: seq<Stage>)
    ensures |r| == |stages|
    ensures forall i :: 0 <= i < |stages| ==>
      r[i].row == stages[i].row && r[i].dolvol == stages[i].dolvol
      && r[i].volumes == stages[i].volumes + [Volume(ds, stages[i].row.stkcd, stages[i].row.rank - n)]
  {
    seq(|stages|, i requires 0 <= i < |stages| =>
      stages[i].(volumes := stages[i].volumes + [Volume(ds, stages[i].row.stkcd, stages[i].row.rank - n)]))
  }

  /** The loop over `ID_Mon_1`, `ID_Mon_2`, `ID_Mon_3`: every row gets its volumes one, two and three ranks back. */
  method AttachVolumes(stages: seq<Stage>, ds: seq<RankedDaily>) returns (r: seq<Stage>)
    ensures |r| == |stages|
    ensures forall i :: 0 <= i < |stages| ==> r[i] == stages[i].(volumes := stages[i].volumes + Lags(ds, stages[i].row, 3))
  {
    r := stages;
    var n := 1;
    while n <= 3
      invariant 1 <= n <= 4
      invariant |r| == |stages|
      invariant forall i :: 0 <= i < |stages| ==> r[i] == stages[i].(volumes := stages[i].volumes + Lags(ds, stages[i].row, n - 1))
    {
      var next := WithVolume(r, ds, n);
      forall i | 0 <= i < |stages|
        ensures next[i] == stages[i].(volumes := stages[i].volumes + Lags(ds, stages[i].row, n))
      {
        LagsSnoc(ds, stages[i].row, n - 1);
        assert stages[i].volumes + Lags(ds, stages[i].row, n)
            == (stages[i].volumes + Lags(ds, stages[i].row, n - 1)) + [Volume(ds, stages[i].row.stkcd, stages[i].row.rank - n)];
      }
      r := next;
      n := n + 1;
    }
  }

  /** A row of the table `turn` returns, after `fillna(0)`. */
  datatype TurnRow = TurnRow(stkcd: Code, yearmon: int, rank: nat, dolvol: real,
                             volume1: real, volume2: real, volume3: real, nshra: real, turn: Option<real>)

  /** The merge with `TRDCM` on stock and Yearmon, `fillna(0)`, and turn = volume of the three months over the shares. */
  function Finish(s: Stage, trdcm: seq<CapMonth>): TurnRow
    requires |s.volumes| == 3
  {
    var v1, v2, v3 := s.volumes[0].GetOr(0.0), s.volumes[1].GetOr(0.0), s.volumes[2].GetOr(0.0);
    var nshra := Shares(trdcm, s.row.stkcd, s.row.yearmon);
    TurnRow(s.row.stkcd, s.row.yearmon, s.row.rank, s.dolvol.GetOr(0.0), v1, v2, v3, nshra,
            Divide(Some(v1 + v2 + v3), Some(nshra)))
  }

  /** The row `turn` makes of a merged row. */
  function TurnOf(s: Stage, ds: seq<RankedDaily>, trdcm: seq<CapMonth>): TurnRow
  {
    Finish(s.(volumes := Lags(ds, s.row, 3)), trdcm)
  }

  function TurnRows(stages: seq<Stage>, ds: seq<RankedDaily>, trdcm: seq<CapMonth>): (r: seq<TurnRow>)
    ensures |r| == |stages|
  {
    seq(|stages|, i requires 0 <= i < |stages| => TurnOf(stages[i], ds, trdcm))
  }

  function TurnTable(m: MonthList, ln: real -> real): seq<TurnRow>
  {
    TurnRows(WithDolvol(m.grid, m.daily, ln), m.daily, m.trdcm)
  }

  function TurnResult(loaded: Loaded<TradeRow>, capchg: seq<CapRow>, ln: real -> real): Result<seq<TurnRow>>
  {
    match MonthListResult(loaded, capchg)
    case Err(e) => Err(e)
    case Ok(m) => Ok(TurnTable(m, ln))
  }

  /** `turn`: the dolvol merge, the three volume merges, the share merge and the ratio. */
  method Turn(listing: seq<SheetFile<TradeRow>>, capchg: seq<CapRow>, ln: real -> real) returns (r: Result<seq<TurnRow>>)
    ensures r == TurnResult(ReadAll(OldDataFiles(listing, StartStr), Raise), capchg, ln)
  {
    var ml := ConstructMonthList(listing, capchg);
    if ml.Err? {
      return Err(ml.error);
    }
    var m := ml.value;
    var r1 := WithDolvol(m.grid, m.daily, ln);
    forall i | 0 <= i < |r1| ensures r1[i].volumes == [] {
      DolvolIsTwoMonthsBack(m.grid, m.daily, ln, r1[i]);
    }
    var staged := AttachVolumes(r1, m.daily);
    FinishStaged(r1, staged, m.daily, m.trdcm);
    r := Ok(FinishAll(staged, m.trdcm));
  }

  /** The share merge and the ratio over every row. */
  function FinishAll(staged: seq<Stage>, trdcm: seq<CapMonth>): (r: seq<TurnRow>)
    requires forall i :: 0 <= i < |staged| ==> |staged[i].volumes| == 3
    ensures |r| == |staged|
  {
    seq(|staged|, i requires 0 <= i < |staged| => Finish(staged[i], trdcm))
  }

  /** Finishing the rows the volume loop built from rows without volumes gives the turn rows. */
  lemma FinishStaged(stages: seq<Stage>, staged: seq<Stage>, ds: seq<RankedDaily>, trdcm: seq<CapMonth>)
    requires |staged| == |stages|
    requires forall i :: 0 <= i < |stages| ==> stages[i].volumes == []
    requires forall i :: 0 <= i < |stages| ==> staged[i] == stages[i].(volumes := stages[i].volumes + Lags(ds, stages[i].row, 3))
    ensures forall i :: 0 <= i < |staged| ==> |staged[i].volumes| == 3
    ensures FinishAll(staged, trdcm) == TurnRows(stages, ds, trdcm)
  {
    forall i | 0 <= i < |stages| ensures staged[i] == stages[i].(volumes := Lags(ds, stages[i].row, 3)) {
      assert stages[i].volumes + Lags(ds, stages[i].row, 3) == Lags(ds, stages[i].row, 3);
    }
  }

  /**
   * The row `turn` makes of a merged row keeps the panel row and its dolvol
   * (0 when absent), and Volume_n is the stock's volume n ranks back (0 when
   * absent).
   */
  lemma TurnOfMeaning(s: Stage, ds: seq<RankedDaily>, trdcm: seq<CapMonth>)
    ensures var out := TurnOf(s, ds, trdcm);
      out.stkcd == s.row.stkcd && out.yearmon == s.row.yearmon && out.rank == s.row.rank
      && out.dolvol == s.dolvol.GetOr(0.0)
      && out.volume1 == Volume(ds, out.stkcd, out.rank - 1).GetOr(0.0)
      && out.volume2 == Volume(ds, out.stkcd, out.rank - 2).GetOr(0.0)
      && out.volume3 == Volume(ds, out.stkcd, out.rank - 3).GetOr(0.0)
  {
    var st := s.(volumes := Lags(ds, s.row, 3));
    assert TurnOf(s, ds, trdcm) == Finish(st, trdcm);
    LagsThree(ds, s.row);
    FinishColumns(st, trdcm);
  }

  /**
   * The shares of a turn row are those of that exact month, and turn is the
   * three volumes over the shares, defined when the shares are not 0.
   */
  lemma TurnOfRatio(s: Stage, ds: seq<RankedDaily>, trdcm: seq<CapMonth>)
    ensures var out := TurnOf(s, ds, trdcm);
      out.nshra == Shares(trdcm, s.row.stkcd, s.row.yearmon)
      && (out.turn.Some? <==> out.nshra != 0.0)
      && (out.turn.Some? ==> out.turn.value * out.nshra == out.volume1 + out.volume2 + out.volume3)
  {
    var st := s.(volumes := Lags(ds, s.row, 3));
    FinishMeaning(st, trdcm);
    assert TurnOf(s, ds, trdcm) == Finish(st, trdcm);
  }

  /** The three lagged volumes of a grid row, one, two and three ranks back. */
  lemma LagsThree(ds: seq<RankedDaily>, g: GridRow)
    ensures Lags(ds, g, 3) == [Volume(ds, g.stkcd, g.rank - 1), Volume(ds, g.stkcd, g.rank - 2), Volume(ds, g.stkcd, g.rank - 3)]
  {
  }

  /** The share merge keeps the keys, and `fillna(0)` turns missing volumes and dolvol into 0. */
  lemma FinishColumns(s: Stage, trdcm: seq<CapMonth>)
    requires |s.volumes| == 3
    ensures var out := Finish(s, trdcm);
      out.stkcd == s.row.stkcd && out.yearmon == s.row.yearmon && out.rank == s.row.rank
      && out.dolvol == s.dolvol.GetOr(0.0)
      && out.volume1 == s.volumes[0].GetOr(0.0) && out.volume2 == s.volumes[1].GetOr(0.0) && out.volume3 == s.volumes[2].GetOr(0.0)
  {
  }

  /** The share merge and the ratio: missing volumes and shares count as 0, and turn is defined when the shares are not 0. */
  lemma FinishMeaning(s: Stage, trdcm: seq<CapMonth>)
    requires |s.volumes| == 3
    ensures var out := Finish(s, trdcm);
      out.stkcd == s.row.stkcd && out.yearmon == s.row.yearmon && out.rank == s.row.rank
      && out.dolvol == s.dolvol.GetOr(0.0)
      && out.volume1 == s.volumes[0].GetOr(0.0) && out.volume2 == s.volumes[1].GetOr(0.0) && out.volume3 == s.volumes[2].GetOr(0.0)
      && out.nshra == Shares(trdcm, s.row.stkcd, s.row.yearmon)
      && (out.turn.Some? <==> out.nshra != 0.0)
      && (out.turn.Some? ==> out.turn.value * out.nshra == out.volume1 + out.volume2 + out.volume3)
  {
    var out := Finish(s, trdcm);
    var q := Divide(Some(out.volume1 + out.volume2 + out.volume3), Some(out.nshra));
    assert out.turn == q;
  }

  /**
   * Each row of the turn table is a panel row with its dolvol from two ranks
   * back, or 0 when the stock did not trade then, and the volumes, shares
   * and turn of `TurnOfMeaning`.
   */
  lemma TurnRowMeaning(m: MonthList, ln: real -> real, i: nat)
    requires i < |TurnTable(m, ln)|
    ensures var out := TurnTable(m, ln)[i];
      var g := GridRow(out.stkcd, out.yearmon, out.rank);
      g in m.grid
      && ((exists j :: 0 <= j < |m.daily| && TwoBack(m.daily[j], g) && out.dolvol == ln(m.daily[j].amount))
          || ((forall j :: 0 <= j < |m.daily| ==> !TwoBack(m.daily[j], g)) && out.dolvol == 0.0))
      && out == TurnOf(WithDolvol(m.grid, m.daily, ln)[i], m.daily, m.trdcm)
  {
    var stages := WithDolvol(m.grid, m.daily, ln);
    var s := stages[i];
    DolvolIsTwoMonthsBack(m.grid, m.daily, ln, s);
    TurnOfMeaning(s, m.daily, m.trdcm);
    assert TurnTable(m, ln)[i] == TurnOf(s, m.daily, m.trdcm);
    assert GridRow(s.row.stkcd, s.row.yearmon, s.row.rank) == s.row;
  }

  /** Daily rows of one stock that traded 100, 200, 300 and 50 shares in the months of rank 0 to 3. */
  function FourMonths(): seq<RankedDaily>
  {
    [RankedDaily("000001", 202001, Some(0), 100.0, 1.0), RankedDaily("000001", 202002, Some(1), 200.0, 1.0),
     RankedDaily("000001", 202003, Some(2), 300.0, 1.0), RankedDaily("000001", 202004, Some(3), 50.0, 1.0)]
  }

  /** The month of rank 3 looks back at the volumes of ranks 2, 1 and 0, nearest first. */
  lemma FourMonthsLags()
    ensures Lags(FourMonths(), GridRow("000001", 202004, 3), 3) == [Some(300.0), Some(200.0), Some(100.0)]
  {
    var ds := FourMonths();
    forall m | 0 <= m < 3
      ensures Volume(ds, "000001", m) == Some(ds[m].volume)
    {
      OneDayMonth(ds, "000001", m, m);
      assert [ds[m].volume][..0] == [];
    }
  }

  /** With 1000 shares outstanding in the month of rank 3, its row has volumes 300, 200, 100 and turnover 0.6. */
  lemma TurnExample()
    ensures TurnOf(Stage(GridRow("000001", 202004, 3), None, []), FourMonths(), [CapMonth("000001", 202004, Some(1000.0))])
      == TurnRow("000001", 202004, 3, 0.0, 300.0, 200.0, 100.0, 1000.0, Some(0.6))
  {
    var trdcm := [CapMonth("000001", 202004, Some(1000.0))];
    FourMonthsLags();
    assert Matches(trdcm, CapKey, ("000001", 202004)) == [trdcm[0]] by {
      assert trdcm[1..] == [];
    }
  }

  /** A month in which the stock traded on one day only has that day's volume. */
  lemma {:induction false} OneDayMonth(ds: seq<RankedDaily>, c: Code, m: int, j: nat)
    requires j < |ds| && forall i :: 0 <= i < |ds| ==> (InMonth(ds[i], c, m) <==> i == j)
    ensures MonthVolumes(ds, c, m) == [ds[j].volume]
  {
    var init := ds[..|ds| - 1];
    if j == |ds| - 1 {
      assert MonthVolumes(init, c, m) == [];
    } else {
      OneDayMonth(init, c, m, j);
    }
  }

  // ---------------------------------------------------------------- zeroturn

  /** The group key of a day, missing when its month has no rank (`groupby` drops it). */
  function DayKey(d: RankedDaily): Option<(Code, int)>
  {
    if d.rank.Some? then Some((d.stkcd, d.rank.value as int)) else None
  }

  /** The number of days of stock `k.0` with rank `k.1`: the `count()` of the group. */
  function DayCount(ds: seq<RankedDaily>, k: (Code, int)): (n: nat)
    ensures n <= |ds|
    ensures n == 0 <==> forall i :: 0 <= i < |ds| ==> DayKey(ds[i]) != Some(k)
  {
    if ds == [] then 0
    else
      var init := ds[..|ds| - 1];
      assert forall i :: 0 <= i < |init| ==> init[i] == ds[i];
      DayCount(init, k) + (if DayKey(ds[|ds| - 1]) == Some(k) then 1 else 0)
  }

  /** A row of `Zeroturn`: the stock, its month rank, the day count, and the rank it is attached to. */
  datatype ZeroRow = ZeroRow(stkcd: Code, rank: int, zero: nat, nextRank: int)

  /** The groups of `Zeroturn`, in `groupby` order. */
  function ZeroKeys(ds: seq<RankedDaily>): seq<(Code, int)>
  {
    SortedDistinct(Present(Seq(ds, DayKey)), CodeIntLt)
  }

  /**
   * `zeroturn`: per stock and month rank, the `count()` of the 0/1 column
   * `zero`, attached to the next rank.
   */
  function Zeroturn(ds: seq<RankedDaily>): (r: seq<ZeroRow>)
    ensures |r| == |ZeroKeys(ds)|
  {
    var keys := ZeroKeys(ds);
    seq(|keys|, i requires 0 <= i < |keys| => ZeroRow(keys[i].0, keys[i].1, DayCount(ds, keys[i]), keys[i].1 + 1))
  }

  /** The rows are in key order and each is attached to the next rank. */
  lemma ZeroturnOrder(ds: seq<RankedDaily>)
    ensures forall i, j :: 0 <= i < j < |Zeroturn(ds)| ==>
      CodeIntLt((Zeroturn(ds)[i].stkcd, Zeroturn(ds)[i].rank), (Zeroturn(ds)[j].stkcd, Zeroturn(ds)[j].rank))
    ensures forall i :: 0 <= i < |Zeroturn(ds)| ==> Zeroturn(ds)[i].nextRank == Zeroturn(ds)[i].rank + 1
  {
    var keys := ZeroKeys(ds);
    CodeIntLtIsStrictTotalOrder();
    SortedDistinctSorted(Present(Seq(ds, DayKey)), CodeIntLt);
    assert forall i :: 0 <= i < |keys| ==> (Zeroturn(ds)[i].stkcd, Zeroturn(ds)[i].rank) == keys[i];
  }

  /** A row counts every day of its stock and month, zero volume or not, so at least one. */
  lemma ZeroturnCounts(ds: seq<RankedDaily>, i: nat)
    requires i < |Zeroturn(ds)|
    ensures Zeroturn(ds)[i].zero == DayCount(ds, (Zeroturn(ds)[i].stkcd, Zeroturn(ds)[i].rank))
    ensures Zeroturn(ds)[i].zero >= 1
  {
    var keys := ZeroKeys(ds);
    var cols := Seq(ds, DayKey);
    assert keys[i] in Present(cols);
    PresentMembers(cols, keys[i]);
    var j :| 0 <= j < |cols| && cols[j] == Some(keys[i]);
    assert DayKey(ds[j]) == Some(keys[i]);
  }

  /** Every day with a ranked month has the row of its stock and month. */
  lemma ZeroturnCovers(ds: seq<RankedDaily>, j: nat)
    requires j < |ds| && ds[j].rank.Some?
    ensures exists i :: 0 <= i < |Zeroturn(ds)| && Zeroturn(ds)[i].stkcd == ds[j].stkcd && Zeroturn(ds)[i].rank == ds[j].rank.value
  {
    var keys := ZeroKeys(ds);
    var cols := Seq(ds, DayKey);
    var k := (ds[j].stkcd, ds[j].rank.value as int);
    assert cols[j] == Some(k);
    PresentMembers(cols, k);
    var present := Present(cols);
    var p :| 0 <= p < |present| && present[p] == k;
    var i :| 0 <= i < |keys| && keys[i] == present[p];
    assert Zeroturn(ds)[i].stkcd == k.0 && Zeroturn(ds)[i].rank == k.1;
  }

  /** The count ignores the volume: changing the volumes, zero or not, changes no row. */
  lemma {:induction false} ZeroturnIgnoresVolume(ds: seq<RankedDaily>, es: seq<RankedDaily>)
    requires |ds| == |es|
    requires forall i :: 0 <= i < |ds| ==> ds[i].stkcd == es[i].stkcd && ds[i].rank == es[i].rank
    ensures Zeroturn(ds) == Zeroturn(es)
  {
    assert Seq(ds, DayKey) == Seq(es, DayKey);
    forall k ensures DayCount(ds, k) == DayCount(es, k) {
      SameKeysSameCount(ds, es, k);
    }
  }

  lemma {:induction false} SameKeysSameCount(ds: seq<RankedDaily>, es: seq<RankedDaily>, k: (Code, int))
    requires |ds| == |es|
    requires forall i :: 0 <= i < |ds| ==> DayKey(ds[i]) == DayKey(es[i])
    ensures DayCount(ds, k) == DayCount(es, k)
  {
    if ds != [] {
      SameKeysSameCount(ds[..|ds| - 1], es[..|es| - 1], k);
    }
  }

  /** A month with one day of zero volume and one day of volume 5 counts two. */
  lemma ZeroturnExample()
    ensures Zeroturn([RankedDaily("000001", 202001, Some(4), 0.0, 0.0), RankedDaily("000001", 202001, Some(4), 5.0, 10.0)])
         == [ZeroRow("000001", 4, 2, 5)]
  {
    var ds := [RankedDaily("000001", 202001, Some(4), 0.0, 0.0), RankedDaily("000001", 202001, Some(4), 5.0, 10.0)];
    TwoDaysOneGroup(ds[0], ds[1]);
    var r := Zeroturn(ds);
    assert |r| == 1;
    assert r[0] == ZeroRow("000001", 4, 2, 5);
  }

  /** Two days of the same stock and ranked month form one group that counts two. */
  lemma TwoDaysOneGroup(a: RankedDaily, b: RankedDaily)
    requires a.rank.Some? && DayKey(b) == DayKey(a)
    ensures ZeroKeys([a, b]) == [DayKey(a).value]
    ensures DayCount([a, b], DayKey(a).value) == 2
  {
    var k := DayKey(a).value;
    var ds := [a, b];
    assert Seq(ds, DayKey) == [Some(k), Some(k)];
    var one: seq<Option<(Code, int)>> := [Some(k)];
    assert Present(one) == [k] by {
      assert one[..0] == [];
    }
    assert Present([Some(k), Some(k)]) == [k, k] by {
      assert [Some(k), Some(k)][..1] == one;
    }
    var single: seq<(Code, int)> := [k];
    assert SortedDistinct(single, CodeIntLt) == [k] by {
      assert single[..0] == [];
    }
    assert SortedDistinct([k, k], CodeIntLt) == [k] by {
      assert [k, k][..1] == single;
    }
    assert ds[..1][..0] == [];
  }

  // ---------------------------------------------------------------- the output filter

  /** A row of the final table: the five factors after `fillna(0)`. */
  datatype FactorRow = FactorRow(stkcd: Code, yearmon: int, dolvol: real, turn: real, zero: real,
                                 stdDolvol: real, stdTurn: real)

  /** `flag`: the sum of the five factors. */
  function Flag(r: FactorRow): real
  {
    r.dolvol + r.turn + r.zero + r.stdDolvol + r.stdTurn
  }

  /** `FinalTable[FinalTable['flag'] != 0.0]`: a row is kept when its factors do not sum to 0. */
  function FlagFilter(rows: seq<FactorRow>): (r: seq<FactorRow>)
    ensures |r| <= |rows|
    ensures forall i :: 0 <= i < |r| ==> Flag(r[i]) != 0.0 && r[i] in rows
    ensures forall i :: 0 <= i < |rows| && Flag(rows[i]) != 0.0 ==> rows[i] in r
  {
    var keep := (x: FactorRow) => Flag(x) != 0.0;
    FilterMembers(rows, keep);
    Filter(rows, keep)
  }

  /**
   * The filter drops a row whose factors are all 0, but also one whose
   * factors only cancel, and keeps a row with any non-negative factor
   * positive and the others non-negative.
   */
  lemma FlagFilterCases(c: Code, y: int)
    ensures FlagFilter([FactorRow(c, y, 0.0, 0.0, 0.0, 0.0, 0.0)]) == []
    ensures FlagFilter([FactorRow(c, y, 1.0, -1.0, 0.0, 0.0, 0.0)]) == []
    ensures forall r: FactorRow ::
      r.dolvol >= 0.0 && r.turn >= 0.0 && r.zero >= 0.0 && r.stdDolvol >= 0.0 && r.stdTurn >= 0.0
      && (r.dolvol > 0.0 || r.turn > 0.0 || r.zero > 0.0 || r.stdDolvol > 0.0 || r.stdTurn > 0.0)
      ==> FlagFilter([r]) == [r]
  {
    forall r: FactorRow |
      r.dolvol >= 0.0 && r.turn >= 0.0 && r.zero >= 0.0 && r.stdDolvol >= 0.0 && r.stdTurn >= 0.0
      && (r.dolvol > 0.0 || r.turn > 0.0 || r.zero > 0.0 || r.stdDolvol > 0.0 || r.stdTurn > 0.0)
      ensures FlagFilter([r]) == [r]
    {
      assert [r][1..] == [];
    }
  }
}
