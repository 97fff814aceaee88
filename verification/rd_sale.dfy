/**
 * rd_sale_processing.py: research-and-development intensity, R&D expense
 * (B001216000) over total operating revenue (B001100000), from the income
 * statement sheets.
 */
module RdSale {
  import opened Tables
  import opened Text
  import opened Loader

  /** An income-statement row: stock code, report date after coercion, R&D and revenue cells. */
  datatype IncomeRow = IncomeRow(stkcd: Option<Code>, accper: Option<ParsedDate>, b001216000: Cell, b001100000: Cell)

  /** A row of rd_sale_1.csv. */
  datatype RdSaleRow = RdSaleRow(stkcd: Option<Code>, accper: Option<ParsedDate>, rdSale: real)

  const Patterns: seq<string> := [".xlsx"]

  /** The ratio column and the mask `(revenue > 0) & rd.notnull()`, for one row. */
  function RdSaleOf(row: IncomeRow): Option<RdSaleRow>
  {
    var rd, sale := ToNumeric(row.b001216000), ToNumeric(row.b001100000);
    if sale.Some? && sale.value > 0.0 && rd.Some? then Some(RdSaleRow(row.stkcd, row.accper, rd.value / sale.value))
    else None
  }

  function RdSaleTable(rows: seq<IncomeRow>): seq<RdSaleRow>
  {
    FilterMap(rows, RdSaleOf)
  }

  /** `main`: with no frame read, `pd.concat([])` raises; otherwise the filtered table is written. */
  function RdSaleFactor(listing: seq<SheetFile<IncomeRow>>): Outcome<RdSaleRow>
  {
    var inc := Concat(Load(listing, Patterns, Skip));
    if inc.Err? then Raised(inc.error) else Written(RdSaleTable(inc.value))
  }

  /** The script raises exactly when no file could be read, and then with the empty-concatenation error. */
  lemma RdSaleRaisesWithoutFrames(listing: seq<SheetFile<IncomeRow>>)
    ensures Load(listing, Patterns, Skip).Frames?
    ensures RdSaleFactor(listing).Raised? <==> Load(listing, Patterns, Skip).frames == []
    ensures RdSaleFactor(listing).Raised? ==> RdSaleFactor(listing).error == NoObjectsToConcatenate
    ensures !RdSaleFactor(listing).Stopped?
  {
    SkipNeverFails(listing, Patterns);
  }

  /**
   * An output row is exactly an input row with positive revenue and an R&D
   * value, carrying the ratio: ratio times revenue gives the R&D expense.
   */
  lemma RdSaleRowsAreRatios(rows: seq<IncomeRow>, out: RdSaleRow)
    ensures out in RdSaleTable(rows) <==>
      exists i :: 0 <= i < |rows| && rows[i].stkcd == out.stkcd && rows[i].accper == out.accper
        && ToNumeric(rows[i].b001100000).Some? && ToNumeric(rows[i].b001100000).value > 0.0
        && ToNumeric(rows[i].b001216000).Some?
        && out.rdSale * ToNumeric(rows[i].b001100000).value == ToNumeric(rows[i].b001216000).value
  {
    FilterMapMembers(rows, RdSaleOf, out);
    forall i | 0 <= i < |rows|
      ensures RdSaleOf(rows[i]) == Some(out) <==>
        rows[i].stkcd == out.stkcd && rows[i].accper == out.accper
        && ToNumeric(rows[i].b001100000).Some? && ToNumeric(rows[i].b001100000).value > 0.0
        && ToNumeric(rows[i].b001216000).Some?
        && out.rdSale * ToNumeric(rows[i].b001100000).value == ToNumeric(rows[i].b001216000).value
    {
      RatioOfRow(rows[i], out);
    }
  }

  /** One row yields `out` exactly when its revenue is positive, its R&D is a number and the ratio matches. */
  lemma RatioOfRow(row: IncomeRow, out: RdSaleRow)
    ensures RdSaleOf(row) == Some(out) <==>
      row.stkcd == out.stkcd && row.accper == out.accper
      && ToNumeric(row.b001100000).Some? && ToNumeric(row.b001100000).value > 0.0
      && ToNumeric(row.b001216000).Some?
      && out.rdSale * ToNumeric(row.b001100000).value == ToNumeric(row.b001216000).value
  {
    var rd, sale := ToNumeric(row.b001216000), ToNumeric(row.b001100000);
    if sale.Some? && sale.value > 0.0 && rd.Some? {
      DivisionInverse(rd.value, sale.value, out.rdSale);
    }
  }

  /** Negative R&D values are not filtered: such a row gives a negative ratio. */
  lemma RdSaleKeepsNegative(rows: seq<IncomeRow>, i: nat)
    requires i < |rows|
    requires ToNumeric(rows[i].b001100000).Some? && ToNumeric(rows[i].b001100000).value > 0.0
    requires ToNumeric(rows[i].b001216000).Some? && ToNumeric(rows[i].b001216000).value < 0.0
    ensures exists k :: 0 <= k < |RdSaleTable(rows)| && RdSaleTable(rows)[k].rdSale < 0.0
  {
    var out := RdSaleOf(rows[i]).value;
    FilterMapMembers(rows, RdSaleOf, out);
    var k :| 0 <= k < |RdSaleTable(rows)| && RdSaleTable(rows)[k] == out;
  }

  /** Kept rows keep their input order: the table of two blocks is the two tables in turn. */
  lemma RdSaleKeepsOrder(a: seq<IncomeRow>, b: seq<IncomeRow>)
    ensures RdSaleTable(a + b) == RdSaleTable(a) + RdSaleTable(b)
  {
    FilterMapConcat(a, b, RdSaleOf);
  }

  /** `main`: read, overwrite the two columns with their numeric coercion, compute, filter. */
  method Run(listing: seq<SheetFile<IncomeRow>>) returns (out: Outcome<RdSaleRow>)
    ensures out == RdSaleFactor(listing)
  {
    var loaded := ReadAndConcat(listing, Patterns, Skip);
    var inc := Concat(loaded);
    if inc.Err? {
      return Raised(inc.error);
    }
    out := Written(RdSaleTable(inc.value));
  }
}
