/**
 * The decisions `generate_excel_report` and `format_excel_sheet` (fileFunctions.py) make about
 * the spreadsheet: which cells hold what, which cells the vertical merge of the first three
 * columns empties, each row's fill colour, and each column's width. Borders, alignment and
 * writing the file are openpyxl's business and are not modelled.
 */
module Render {
  import opened Wrappers
  import opened Ascii
  import opened Report

  /** A worksheet cell's value: nothing (a merged-away cell), a string, or a page number. */
  datatype Cell = Empty | Text(s: string) | Number(n: nat)

  /** The number of columns of the report: the eight keys of a row. */
  const Columns: nat := 8

  /** The solid fill colours of "missing" and "mismatch" rows. */
  const RedFill: string := "FFC7CE"
  const GreenFill: string := "C6EFCE"

  /** `if cell.value`: an empty string, zero and a merged-away cell count as no value. */
  predicate Truthy(c: Cell) {
    match c
    case Empty => false
    case Text(s) => s != []
    case Number(n) => n != 0
  }

  /** `str(n)` for a natural number. */
  function Decimal(n: nat): (digits: string)
    ensures |digits| >= 1
    ensures forall i :: 0 <= i < |digits| ==> IsDigit(digits[i])
  {
    var last := ('0' as int + n % 10) as char;
    if n < 10 then [last] else Decimal(n / 10) + [last]
  }

  /** The number a string of decimal digits spells, most significant digit first. */
  function DigitsValue(digits: string): nat
    requires forall i :: 0 <= i < |digits| ==> IsDigit(digits[i])
  {
    if digits == [] then 0
    else
      var init := digits[..|digits| - 1];
      assert forall i :: 0 <= i < |init| ==> init[i] == digits[i];
      assert IsDigit(digits[|digits| - 1]);
      DigitsValue(init) * 10 + (digits[|digits| - 1] as int - '0' as int)
  }

  /** `str(n)` spells `n`, with no leading zero unless `n` is zero, so it is the one decimal form of `n`. */
  lemma {:induction false} DecimalSpellsNumber(n: nat)
    ensures DigitsValue(Decimal(n)) == n
    ensures Decimal(n)[0] == '0' <==> n == 0
  {
    var last := ('0' as int + n % 10) as char;
    assert last as int - '0' as int == n % 10;
    if n >= 10 {
      DecimalSpellsNumber(n / 10);
      var digits := Decimal(n);
      assert digits == Decimal(n / 10) + [last];
      assert digits[..|digits| - 1] == Decimal(n / 10);
      assert digits[0] == Decimal(n / 10)[0];
    }
  }

  /** `str(cell.value)`. */
  function Display(c: Cell): string
  {
    match c
    case Empty => "None"
    case Text(s) => s
    case Number(n) => Decimal(n)
  }

  /** The DataFrame's column names; the last two embed the two file names. */
  function Headers(motherName: string, candidateName: string): (headers: seq<string>)
    ensures |headers| == Columns
    ensures forall c :: 0 <= c < Columns ==> headers[c] != []
  {
    ["Product Name", "Product UIN", "Sample Affected", "Observation Category", "Part", "Page Number",
     "Filed Copy (" + motherName + ") Content", "Customer Copy (" + candidateName + ") Content"]
  }

  /** The cells `to_excel` writes for one row, in column order. */
  function RowCells(row: Row): (cells: seq<Cell>)
    ensures |cells| == Columns
  {
    [Text(row.productName), Text(row.productUin), Text(row.sampleAffected), Text(Label(row.category)),
     Text(row.part), Number(row.pageNumber), Text(row.filedContent), Text(row.customerContent)]
  }

  /** The sheet `df.to_excel` writes: the header row, then one row per report row. */
  function Table(motherName: string, candidateName: string, rows: seq<Row>): (table: seq<seq<Cell>>)
    ensures |table| == |rows| + 1
    ensures forall i :: 0 <= i < |table| ==> |table[i]| == Columns
  {
    var headers := Headers(motherName, candidateName);
    [seq(Columns, c requires 0 <= c < Columns => Text(headers[c]))]
      + seq(|rows|, i requires 0 <= i < |rows| => RowCells(rows[i]))
  }

  /**
   * `merge_cells` over rows 2 to the last of columns 1 to 3: the top cell of each merged block
   * keeps its value and the cells below it are emptied.
   */
  function Merged(table: seq<seq<Cell>>): (merged: seq<seq<Cell>>)
    ensures |merged| == |table|
    ensures forall i :: 0 <= i < |table| ==> |merged[i]| == |table[i]|
  {
    seq(|table|, i requires 0 <= i < |table| =>
      if i < 2 then table[i]
      else seq(|table[i]|, c requires 0 <= c < |table[i]| => if c < 3 then Empty else table[i][c]))
  }

  /** The fill the colouring loop gives a row, decided by its "Observation Category" cell. */
  function RowFill(cells: seq<Cell>): Option<string>
    requires |cells| > 3
  {
    if cells[3] == Text(Label(MissingInCustomerCopy)) then Some(RedFill)
    else if cells[3] == Text(Label(ContentMismatch)) then Some(GreenFill)
    else None
  }

  /** The cells of column `c`, top to bottom. */
  function Column(table: seq<seq<Cell>>, c: nat): (column: seq<Cell>)
    requires forall i :: 0 <= i < |table| ==> c < |table[i]|
    ensures |column| == |table|
  {
    seq(|table|, i requires 0 <= i < |table| => table[i][c])
  }

  /**
   * `max(len(str(cell.value)) for cell in col_cells if cell.value)`: the longest displayed value
   * of the column, counting only cells with a value (0 when there are none, a case the header
   * row rules out, as `SheetColumnsHaveValues` shows).
   */
  function MaxLength(column: seq<Cell>): (m: nat)
    ensures forall i :: 0 <= i < |column| && Truthy(column[i]) ==> |Display(column[i])| <= m
    ensures m == 0 || exists i :: 0 <= i < |column| && Truthy(column[i]) && m == |Display(column[i])|
  {
    if column == [] then 0
    else
      var init := MaxLength(column[..|column| - 1]);
      var last := column[|column| - 1];
      if Truthy(last) && |Display(last)| > init then |Display(last)| else init
  }

  /** The width given to a column: its longest displayed value plus 2. */
  function ColumnWidth(column: seq<Cell>): nat
  {
    MaxLength(column) + 2
  }

  /**
   * The fill and width loops at the end of `generate_excel_report`: every data row gets the fill
   * its category calls for, and every column the width of its longest value plus 2.
   */
  method FormatSheet(sheet: seq<seq<Cell>>) returns (fills: seq<Option<string>>, widths: seq<nat>)
    requires |sheet| >= 1
    requires forall i :: 0 <= i < |sheet| ==> |sheet[i]| == Columns
    ensures |fills| == |sheet| - 1
    ensures forall i :: 0 <= i < |fills| ==> fills[i] == RowFill(sheet[i + 1])
    ensures |widths| == Columns
    ensures forall c :: 0 <= c < Columns ==> widths[c] == ColumnWidth(Column(sheet, c))
  {
    fills := [];
    var row := 1;
    while row < |sheet|
      invariant 1 <= row <= |sheet|
      invariant |fills| == row - 1
      invariant forall i :: 0 <= i < |fills| ==> fills[i] == RowFill(sheet[i + 1])
    {
      fills := fills + [RowFill(sheet[row])];
      row := row + 1;
    }
    widths := [];
    var col := 0;
    while col < Columns
      invariant 0 <= col <= Columns
      invariant |widths| == col
      invariant forall c :: 0 <= c < col ==> widths[c] == ColumnWidth(Column(sheet, c))
    {
      widths := widths + [ColumnWidth(Column(sheet, col))];
      col := col + 1;
    }
  }

  /** The two labels differ, so a row's category decides its fill. */
  lemma LabelsDiffer()
    ensures Label(MissingInCustomerCopy) != Label(ContentMismatch)
  {
    assert |Label(MissingInCustomerCopy)| == 52 && |Label(ContentMismatch)| == 56;
  }

  /**
   * In a report sheet every data row is filled: red exactly when its row is a "missing" row,
   * green exactly when it is a "mismatch" row.
   */
  lemma ReportRowFills(motherName: string, candidateName: string, rows: seq<Row>, i: nat)
    requires i < |rows|
    ensures var sheet := Merged(Table(motherName, candidateName, rows));
      RowFill(sheet[i + 1]) == if rows[i].category == MissingInCustomerCopy then Some(RedFill) else Some(GreenFill)
  {
    LabelsDiffer();
    var table := Table(motherName, candidateName, rows);
    assert table[i + 1] == RowCells(rows[i]);
    assert Merged(table)[i + 1][3] == table[i + 1][3];
  }

  /** Two columns with the same valued cells, counted as sets, get the same width. */
  lemma SameValuesSameWidth(a: seq<Cell>, b: seq<Cell>)
    requires forall i :: 0 <= i < |a| && Truthy(a[i]) ==> a[i] in b
    requires forall i :: 0 <= i < |b| && Truthy(b[i]) ==> b[i] in a
    ensures ColumnWidth(a) == ColumnWidth(b)
  {
    var ma, mb := MaxLength(a), MaxLength(b);
    if ma != 0 {
      var i :| 0 <= i < |a| && Truthy(a[i]) && ma == |Display(a[i])|;
      var j :| 0 <= j < |b| && b[j] == a[i];
    }
    if mb != 0 {
      var i :| 0 <= i < |b| && Truthy(b[i]) && mb == |Display(b[i])|;
      var j :| 0 <= j < |a| && a[j] == b[i];
    }
  }

  /**
   * The merge does not change any column's width: the three merged columns hold one value per
   * report (the product name, the empty UIN and the sample date), so emptying the cells below
   * the first data row removes no value the width depends on.
   */
  lemma MergeKeepsWidths(motherName: string, candidateName: string, rows: seq<Row>, sample: string, c: nat)
    requires c < Columns
    requires forall i :: 0 <= i < |rows| ==> WellFormed(rows[i], sample)
    ensures ColumnWidth(Column(Merged(Table(motherName, candidateName, rows)), c))
         == ColumnWidth(Column(Table(motherName, candidateName, rows), c))
  {
    var table := Table(motherName, candidateName, rows);
    var merged := Merged(table);
    var a, b := Column(merged, c), Column(table, c);
    forall i | 0 <= i < |a| && Truthy(a[i]) ensures a[i] in b {
      assert a[i] == b[i];
    }
    forall i | 0 <= i < |b| && Truthy(b[i]) ensures b[i] in a {
      if i < 2 || c >= 3 {
        assert a[i] == b[i];
      } else {
        assert table[i] == RowCells(rows[i - 1]) && table[1] == RowCells(rows[0]);
        assert b[i] == b[1] && a[1] == b[1];
      }
    }
    SameValuesSameWidth(a, b);
  }

  /**
   * Every column of a report sheet has a value, its header, so `max` in the width loop never
   * meets an empty sequence and each width is at least the header's length plus 2.
   */
  lemma SheetColumnsHaveValues(motherName: string, candidateName: string, rows: seq<Row>, c: nat)
    requires c < Columns
    ensures var column := Column(Merged(Table(motherName, candidateName, rows)), c);
      && (exists i :: 0 <= i < |column| && Truthy(column[i]))
      && |Headers(motherName, candidateName)[c]| <= MaxLength(column)
  {
    var table := Table(motherName, candidateName, rows);
    var column := Column(Merged(table), c);
    assert column[0] == table[0][c] == Text(Headers(motherName, candidateName)[c]);
  }
}
