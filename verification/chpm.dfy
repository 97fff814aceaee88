/**
 * chpm_processing.py: change in profit margin, (EBIT - previous EBIT) / total
 * assets, from one profitability sheet (FI_T5.xlsx), the previous EBIT being
 * that of the stock's previous complete row in file order.
 */
module Chpm {
  import opened Tables
  import opened Text

  /** The sheet as read: the header row, then the data lines (the first of them holds the units). */
  datatype Sheet = Sheet(header: seq<string>, lines: seq<seq<Cell>>)

  /** One row with the four columns the script uses. */
  datatype Fit5Row = Fit5Row(stkcd: Option<Code>, accper: Cell, ebit: Option<real>, ebitta: Option<real>)

  /** A row of chpm_2.csv. */
  datatype ChpmRow = ChpmRow(stkcd: Code, accper: Cell, chpm: real)

  /** The position of the first column named `name`. */
  function ColumnIndex(names: seq<string>, name: string): (r: Option<nat>)
    ensures r.Some? ==> r.value < |names| && names[r.value] == name && name !in names[..r.value]
    ensures r.None? ==> name !in names
  {
    if names == [] then None
    else if names[0] == name then Some(0)
    else
      match ColumnIndex(names[1..], name)
      case None => None
      case Some(k) =>
        assert names[..k + 1] == [names[0]] + names[1..][..k];
        Some(k + 1)
  }

  /** `FIT5.columns.str.strip()`. */
  function Stripped(header: seq<string>): (r: seq<string>)
    ensures |r| == |header| && forall k :: 0 <= k < |header| ==> r[k] == Strip(header[k])
  {
    seq(|header|, k requires 0 <= k < |header| => Strip(header[k]))
  }

  /** The cell of a line in column `k`; a short line reads as blank there. */
  function CellAt(line: seq<Cell>, k: nat): Cell
  {
    if k < |line| then line[k] else Blank
  }

  /** `dtype={'Stkcd': str}`: text as it is, a number as `show` renders it, a blank cell missing. */
  function CodeOf(c: Cell, show: real -> string): Option<Code>
  {
    match c
    case Text(s) => Some(s)
    case Num(x) => Some(show(x))
    case Blank => None
  }

  /** The column positions of Stkcd, Accper, EBIT (F050601B) and EBITTA (F051101B), or the first missing name. */
  function Columns(header: seq<string>): Result<(nat, nat, nat, nat)>
  {
    var names := Stripped(header);
    var e, t := ColumnIndex(names, "F050601B"), ColumnIndex(names, "F051101B");
    var s, a := ColumnIndex(names, "Stkcd"), ColumnIndex(names, "Accper");
    if e.None? then Err(MissingColumn("EBIT"))
    else if t.None? then Err(MissingColumn("EBITTA"))
    else if s.None? then Err(MissingColumn("Stkcd"))
    else if a.None? then Err(MissingColumn("Accper"))
    else Ok((s.value, a.value, e.value, t.value))
  }

  /** `skiprows=[1]`: the line after the header is dropped. */
  function Body(sheet: Sheet): seq<seq<Cell>>
  {
    if sheet.lines == [] then [] else sheet.lines[1..]
  }

  /** Steps 1-4: the four columns of every data line, EBIT and EBITTA coerced to numbers. */
  function Fit5Rows(lines: seq<seq<Cell>>, cols: (nat, nat, nat, nat), show: real -> string): (r: seq<Fit5Row>)
    ensures |r| == |lines|
  {
    seq(|lines|, i requires 0 <= i < |lines| =>
      Fit5Row(CodeOf(CellAt(lines[i], cols.0), show), CellAt(lines[i], cols.1),
              ToNumeric(CellAt(lines[i], cols.2)), ToNumeric(CellAt(lines[i], cols.3))))
  }

  /** `dropna(subset=['Stkcd', 'Accper', 'EBIT', 'EBITTA'])` keeps a row. */
  predicate Complete(row: Fit5Row)
  {
    row.stkcd.Some? && row.accper != Blank && row.ebit.Some? && row.ebitta.Some?
  }

  /** The position of the last row of stock `c`, or nothing when the stock has no row. */
  function LastOf(rows: seq<Fit5Row>, c: Code): (r: Option<nat>)
    ensures r.None? <==> forall j :: 0 <= j < |rows| ==> rows[j].stkcd != Some(c)
    ensures r.Some? ==> r.value < |rows| && rows[r.value].stkcd == Some(c)
    ensures r.Some? ==> forall k :: r.value < k < |rows| ==> rows[k].stkcd != Some(c)
  {
    if rows == [] then None
    else if rows[|rows| - 1].stkcd == Some(c) then Some(|rows| - 1)
    else
      var r := LastOf(rows[..|rows| - 1], c);
      assert forall j :: 0 <= j < |rows| - 1 ==> rows[..|rows| - 1][j] == rows[j];
      r
  }

  /** `groupby('Stkcd')['EBIT'].shift(1)` at row `i`: the EBIT of the stock's previous row. */
  function Lag(rows: seq<Fit5Row>, i: nat): Option<real>
    requires i < |rows| && rows[i].stkcd.Some?
  {
    match LastOf(rows[..i], rows[i].stkcd.value)
    case None => None
    case Some(j) => rows[j].ebit
  }

  /**
   * Steps 6-10 for the first `n` complete rows: the lag, the mask
   * `EBIT_lag1.notna() & TA > 0`, and chpm.
   */
  function ChpmRows(rows: seq<Fit5Row>, n: nat): seq<ChpmRow>
    requires n <= |rows|
    requires forall i :: 0 <= i < |rows| ==> Complete(rows[i])
  {
    if n == 0 then []
    else
      var row := rows[n - 1];
      assert Complete(row);
      var lag := Lag(rows, n - 1);
      var rest := ChpmRows(rows, n - 1);
      if lag.Some? && row.ebitta.value > 0.0 then
        rest + [ChpmRow(row.stkcd.value, row.accper, (row.ebit.value - lag.value) / row.ebitta.value)]
      else rest
  }

  /** The output table of the rows as read. */
  function ChpmTable(rows: seq<Fit5Row>): seq<ChpmRow>
  {
    var complete := Filter(rows, Complete);
    ChpmRows(complete, |complete|)
  }

  /** The whole script on one sheet. */
  function ChpmFactor(sheet: Sheet, show: real -> string): Result<seq<ChpmRow>>
  {
    match Columns(sheet.header)
    case Err(e) => Err(e)
    case Ok(cols) => Ok(ChpmTable(Fit5Rows(Body(sheet), cols, show)))
  }

  /**
   * An output row is exactly a complete row `i` with TA > 0 whose stock has an
   * earlier complete row `j` and none in between: chpm times TA is row `i`'s
   * EBIT minus row `j`'s.
   */
  lemma {:induction false} ChpmRowsAreChanges(rows: seq<Fit5Row>, n: nat, out: ChpmRow)
    requires n <= |rows|
    requires forall i :: 0 <= i < |rows| ==> Complete(rows[i])
    ensures out in ChpmRows(rows, n) <==> exists i, j :: 0 <= j < i < n && IsChange(rows, i, j, out)
  {
    if n > 0 {
      var m := n - 1;
      ChpmRowsAreChanges(rows, m, out);
      ChangeAt(rows, m, out);
      if exists i, j :: 0 <= j < i < n && IsChange(rows, i, j, out) {
        var i, j :| 0 <= j < i < n && IsChange(rows, i, j, out);
        if i == m {
          assert exists j :: 0 <= j < m && IsChange(rows, m, j, out);
        }
      }
      if exists j :: 0 <= j < m && IsChange(rows, m, j, out) {
        var j :| 0 <= j < m && IsChange(rows, m, j, out);
        assert 0 <= j < m < n && IsChange(rows, m, j, out);
      }
    }
  }

  /** Row `i` adds to the output exactly the change against the stock's previous row, when there is one. */
  lemma ChangeAt(rows: seq<Fit5Row>, i: nat, out: ChpmRow)
    requires i < |rows|
    requires forall k :: 0 <= k < |rows| ==> Complete(rows[k])
    ensures out in ChpmRows(rows, i + 1) <==>
      out in ChpmRows(rows, i) || exists j :: 0 <= j < i && IsChange(rows, i, j, out)
  {
    var row := rows[i];
    assert Complete(row);
    var c := row.stkcd.value;
    var last := LastOf(rows[..i], c);
    var added := if last.Some? && row.ebitta.value > 0.0
      then [ChpmRow(c, row.accper, (row.ebit.value - rows[last.value].ebit.value) / row.ebitta.value)]
      else [];
    assert ChpmRows(rows, i + 1) == ChpmRows(rows, i) + added;
    if exists j :: 0 <= j < i && IsChange(rows, i, j, out) {
      var j :| 0 <= j < i && IsChange(rows, i, j, out);
      ChangeIsAgainstLast(rows, i, j, out);
    }
    if added != [] {
      var j := last.value;
      if out == added[0] {
        MadeIsChange(rows, i, j);
      }
    }
  }

  /** A change of row `i` is taken against the stock's last row before it, and is the chpm the script computes. */
  lemma ChangeIsAgainstLast(rows: seq<Fit5Row>, i: nat, j: nat, out: ChpmRow)
    requires j < i < |rows| && IsChange(rows, i, j, out)
    ensures LastOf(rows[..i], out.stkcd) == Some(j)
    ensures out == ChpmRow(out.stkcd, rows[i].accper, (rows[i].ebit.value - rows[j].ebit.value) / rows[i].ebitta.value)
  {
    var c := out.stkcd;
    var last := LastOf(rows[..i], c);
    assert rows[..i][j].stkcd == Some(c);
    assert rows[..i][last.value].stkcd == Some(c);
    assert last.value == j;
    DivisionInverse(rows[i].ebit.value - rows[j].ebit.value, rows[i].ebitta.value, out.chpm);
  }

  /** The chpm the script computes against the stock's last row is a change of row `i`. */
  lemma MadeIsChange(rows: seq<Fit5Row>, i: nat, j: nat)
    requires i < |rows| && Complete(rows[i]) && rows[i].ebitta.value > 0.0
    requires LastOf(rows[..i], rows[i].stkcd.value) == Some(j)
    requires Complete(rows[j])
    ensures j < i
    ensures IsChange(rows, i, j, ChpmRow(rows[i].stkcd.value, rows[i].accper,
      (rows[i].ebit.value - rows[j].ebit.value) / rows[i].ebitta.value))
  {
    var row := rows[i];
    var q := (row.ebit.value - rows[j].ebit.value) / row.ebitta.value;
    DivisionInverse(row.ebit.value - rows[j].ebit.value, row.ebitta.value, q);
    assert forall k :: j < k < i ==> rows[..i][k] == rows[k];
  }

  /** Row `out` is the chpm of complete row `i` against the same stock's previous complete row `j`. */
  ghost predicate IsChange(rows: seq<Fit5Row>, i: nat, j: nat, out: ChpmRow)
    requires j < i < |rows|
  {
    rows[i].stkcd == rows[j].stkcd == Some(out.stkcd)
    && (forall k :: j < k < i ==> rows[k].stkcd != rows[i].stkcd)
    && rows[i].ebitta.Some? && rows[i].ebitta.value > 0.0 && rows[i].ebit.Some? && rows[j].ebit.Some?
    && out.accper == rows[i].accper
    && out.chpm * rows[i].ebitta.value == rows[i].ebit.value - rows[j].ebit.value
  }

  /**
   * Incomplete rows are dropped before the lag, so they leave no gap in a
   * stock's sequence: removing one changes nothing.
   */
  lemma ChpmIgnoresIncomplete(a: seq<Fit5Row>, x: Fit5Row, b: seq<Fit5Row>)
    requires !Complete(x)
    ensures ChpmTable(a + [x] + b) == ChpmTable(a + b)
  {
    FilterConcat(a + [x], b, Complete);
    FilterConcat(a, [x], Complete);
    FilterConcat(a, b, Complete);
    assert Filter([x], Complete) == [] by {
      assert [x][1..] == [];
    }
    assert Filter(a, Complete) + [] == Filter(a, Complete);
  }

  /** The worked example: EBIT 10, 12, 9, 15 with TA 100 give no row, then 0.02, -0.03 and 0.06. */
  lemma ChpmExample(d1: Cell, d2: Cell, d3: Cell, d4: Cell)
    requires d1 != Blank && d2 != Blank && d3 != Blank && d4 != Blank
    ensures var rows := [Fit5Row(Some("000001"), d1, Some(10.0), Some(100.0)),
                         Fit5Row(Some("000001"), d2, Some(12.0), Some(100.0)),
                         Fit5Row(Some("000001"), d3, Some(9.0), Some(100.0)),
                         Fit5Row(Some("000001"), d4, Some(15.0), Some(100.0))];
      ChpmTable(rows) == [ChpmRow("000001", d2, 0.02), ChpmRow("000001", d3, -0.03), ChpmRow("000001", d4, 0.06)]
  {
    var rows := [Fit5Row(Some("000001"), d1, Some(10.0), Some(100.0)),
                 Fit5Row(Some("000001"), d2, Some(12.0), Some(100.0)),
                 Fit5Row(Some("000001"), d3, Some(9.0), Some(100.0)),
                 Fit5Row(Some("000001"), d4, Some(15.0), Some(100.0))];
    FilterKeepsAll(rows, Complete);
    assert LastOf(rows[..0], "000001") == None;
    assert LastOf(rows[..1], "000001") == Some(0);
    assert LastOf(rows[..2], "000001") == Some(1);
    assert LastOf(rows[..3], "000001") == Some(2);
    assert ChpmRows(rows, 1) == [];
    assert ChpmRows(rows, 2) == [ChpmRow("000001", d2, 0.02)];
    assert ChpmRows(rows, 3) == [ChpmRow("000001", d2, 0.02), ChpmRow("000001", d3, -0.03)];
  }

  /** Surrounding spaces around a column name are cut off. */
  lemma StripDropsPadding(name: string)
    requires name != [] && !IsSpace(name[0]) && !IsSpace(name[|name| - 1])
    ensures Strip(" " + name + " ") == name
  {
    var pad: string := " ";
    assert AllSpace(pad) by {
      assert IsSpace(' ');
    }
    StripPadded(pad, name, pad);
  }

  /** A header cell holding a name padded with spaces is found under that name. */
  lemma PaddedColumnFound(header: seq<string>, k: nat, name: string)
    requires k < |header| && header[k] == " " + name + " "
    requires name != [] && !IsSpace(name[0]) && !IsSpace(name[|name| - 1])
    requires forall j :: 0 <= j < k ==> Strip(header[j]) != name
    ensures ColumnIndex(Stripped(header), name) == Some(k)
  {
    StripDropsPadding(name);
    var names := Stripped(header);
    assert names[k] == name;
    assert name !in names[..k] by {
      forall j | 0 <= j < k ensures names[..k][j] != name {
        assert names[..k][j] == Strip(header[j]);
      }
    }
  }

  /** `main` as the script runs it, rebinding the frame step by step. */
  method Run(sheet: Sheet, show: real -> string) returns (result: Result<seq<ChpmRow>>)
    ensures result == ChpmFactor(sheet, show)
  {
    var cols := Columns(sheet.header);
    if cols.Err? {
      return Err(cols.error);
    }
    var fit5 := Fit5Rows(Body(sheet), cols.value, show);
    fit5 := Filter(fit5, Complete);
    var chpm := ChpmRows(fit5, |fit5|);
    result := Ok(chpm);
  }
}
