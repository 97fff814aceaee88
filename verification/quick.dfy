/**
 * quick_processing.py: the quick ratio (F010201A) taken as it is from the
 * solvency sheets, coerced to a number, rows without a number dropped.
 */
module Quick {
  import opened Tables
  import opened Text
  import opened Loader

  /** A solvency-sheet row: stock code, report date after coercion, the quick-ratio cell. */
  datatype SolvencyRow = SolvencyRow(stkcd: Option<Code>, accper: Option<ParsedDate>, f010201a: Cell)

  /** A row of quick_1.csv. */
  datatype QuickRow = QuickRow(stkcd: Option<Code>, accper: Option<ParsedDate>, quick: real)

  /** The loader reads `*.xlsx` first, then `*.xls`. */
  const Patterns: seq<string> := [".xlsx", ".xls"]

  /** `to_numeric(..., errors='coerce')` on the quick column, then the not-null mask, for one row. */
  function QuickOf(row: SolvencyRow): Option<QuickRow>
  {
    match ToNumeric(row.f010201a)
    case None => None
    case Some(q) => Some(QuickRow(row.stkcd, row.accper, q))
  }

  /** Steps 3-4 of `main`: the output table of the concatenated rows. */
  function QuickTable(rows: seq<SolvencyRow>): seq<QuickRow>
  {
    FilterMap(rows, QuickOf)
  }

  /** `main`: nothing written when no row was read, else the filtered table. */
  function QuickFactor(listing: seq<SheetFile<SolvencyRow>>): Outcome<QuickRow>
  {
    var loaded := Load(listing, Patterns, Skip);
    if loaded.Failed? then Raised(loaded.error)
    else
      var rows := Flatten(loaded.frames);
      if rows == [] then Stopped else Written(QuickTable(rows))
  }

  /** The script never raises: it writes a table or, with no rows at all, stops without writing. */
  lemma QuickStops(listing: seq<SheetFile<SolvencyRow>>)
    ensures Load(listing, Patterns, Skip).Frames?
    ensures !QuickFactor(listing).Raised?
    ensures QuickFactor(listing) == Stopped <==> Flatten(Load(listing, Patterns, Skip).frames) == []
  {
    SkipNeverFails(listing, Patterns);
  }

  /** An output row is exactly an input row whose quick cell coerces to that number. */
  lemma QuickRowsAreNumeric(rows: seq<SolvencyRow>, out: QuickRow)
    ensures out in QuickTable(rows) <==>
      exists i :: 0 <= i < |rows| && rows[i].stkcd == out.stkcd && rows[i].accper == out.accper
                  && ToNumeric(rows[i].f010201a) == Some(out.quick)
  {
    FilterMapMembers(rows, QuickOf, out);
    forall i | 0 <= i < |rows|
      ensures QuickOf(rows[i]) == Some(out) <==>
        rows[i].stkcd == out.stkcd && rows[i].accper == out.accper && ToNumeric(rows[i].f010201a) == Some(out.quick)
    {
    }
  }

  /** When every quick cell is numeric, every row is kept, in input order, with its value unchanged. */
  lemma QuickKeepsNumericRows(rows: seq<SolvencyRow>)
    requires forall i :: 0 <= i < |rows| ==> ToNumeric(rows[i].f010201a).Some?
    ensures |QuickTable(rows)| == |rows|
    ensures forall i :: 0 <= i < |rows| ==>
      QuickTable(rows)[i] == QuickRow(rows[i].stkcd, rows[i].accper, ToNumeric(rows[i].f010201a).value)
  {
    FilterMapTotal(rows, QuickOf);
  }

  /**
   * A row whose quick cell holds text that is not a number is dropped, not set
   * to 0: the table is the table of the rows around it.
   */
  lemma QuickDropsText(rows: seq<SolvencyRow>, i: nat, k: nat)
    requires i < |rows| && rows[i].f010201a.Text? && k < |rows[i].f010201a.s|
    requires !NumberChar(rows[i].f010201a.s[k])
    ensures QuickTable(rows) == QuickTable(rows[..i]) + QuickTable(rows[i + 1..])
  {
    ParseNumberRejects(rows[i].f010201a.s, k);
    DroppedRow(rows, i);
  }

  /** A row without a quick value leaves the table of the rows around it. */
  lemma DroppedRow(rows: seq<SolvencyRow>, i: nat)
    requires i < |rows| && QuickOf(rows[i]).None?
    ensures QuickTable(rows) == QuickTable(rows[..i]) + QuickTable(rows[i + 1..])
  {
    assert rows == rows[..i] + [rows[i]] + rows[i + 1..];
    FilterMapConcat(rows[..i] + [rows[i]], rows[i + 1..], QuickOf);
    FilterMapConcat(rows[..i], [rows[i]], QuickOf);
    assert FilterMap([rows[i]], QuickOf) == [] by {
      assert [rows[i]][..0] == [];
    }
  }

  /** A report date that did not parse does not by itself remove a row. */
  lemma QuickKeepsUndated(rows: seq<SolvencyRow>, i: nat)
    requires i < |rows| && rows[i].accper.None? && ToNumeric(rows[i].f010201a).Some?
    ensures QuickRow(rows[i].stkcd, None, ToNumeric(rows[i].f010201a).value) in QuickTable(rows)
  {
    QuickRowsAreNumeric(rows, QuickRow(rows[i].stkcd, None, ToNumeric(rows[i].f010201a).value));
  }

  /** `main` as the script runs it: read, stop on an empty frame, select, coerce, filter. */
  method Run(listing: seq<SheetFile<SolvencyRow>>) returns (out: Outcome<QuickRow>)
    ensures out == QuickFactor(listing)
  {
    var loaded := ReadAndConcat(listing, Patterns, Skip);
    if loaded.Failed? {
      return Raised(loaded.error);
    }
    var df := Flatten(loaded.frames);
    if df == [] {
      return Stopped;
    }
    var table := QuickTable(df);
    out := Written(table);
  }
}
