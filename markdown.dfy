/**
 * The markdown table renderer (`markdownTable` in main.go) and its types.
 *
 * The renderer writes a header row, a delimiter row and one row per data row
 * into a `text/tabwriter`, each cell terminated by a tab and each row by a
 * newline. The tabwriter then pads the columns. The model stops before that
 * padding: a rendered row is a `Line`, the text written before the first cell
 * (`lead`) and the cells, each of which the tabwriter receives followed by a
 * tab.
 */
module Markdown {
  import opened Wrappers
  import opened Values

  /** A column's alignment (`mdAlign`); `NoAlign` is Go's `none`. */
  datatype MdAlign = NoAlign | Left | Right | Center

  /** A column (`mdColumn`): its title, its alignment and an optional cell mapping. */
  datatype MdColumn = MdColumn(name: string, align: MdAlign, mapping: Option<Value --> Value>)

  /** A table (`mdTable`): its columns and its rows of dynamic values. */
  datatype MdTable = MdTable(columns: seq<MdColumn>, rows: seq<seq<Value>>)

  /** One rendered row before padding: the text before the first cell, then the cells. */
  datatype Line = Line(lead: string, cells: seq<string>)

  /** The error markdownTable returns for a table without columns. */
  const NoColumnsError: string := "no columns to render"

  // ---------------------------------------------------------------------------
  // Cells

  /** `strings.Repeat("-", n)`. */
  function Dashes(n: nat): (r: string)
    ensures |r| == n
    ensures forall i :: 0 <= i < n ==> r[i] == '-'
  {
    if n == 0 then "" else Dashes(n - 1) + "-"
  }

  /** The first character of a delimiter cell: a colon for left and centred columns. */
  function LeadingMark(a: MdAlign): char
  {
    match a
    case NoAlign | Right => '-'
    case Left | Center => ':'
  }

  /** The last character of a delimiter cell: a colon for centred and right columns. */
  function TrailingMark(a: MdAlign): char
  {
    match a
    case NoAlign | Left => '-'
    case Center | Right => ':'
  }

  /** A column's cell in the delimiter row. */
  function SeparatorCell(c: MdColumn): (r: string)
    ensures |r| == |c.name| + 2
    ensures r[0] == ':' <==> c.align == Left || c.align == Center
    ensures r[|r| - 1] == ':' <==> c.align == Center || c.align == Right
    ensures r[1..|r| - 1] == Dashes(|c.name|)
    ensures forall i :: 1 <= i < |r| - 1 ==> r[i] == '-'
  {
    [LeadingMark(c.align)] + Dashes(|c.name|) + [TrailingMark(c.align)]
  }

  /** A column's cell in the header row. */
  function HeaderCell(c: MdColumn): string
  {
    " " + c.name + " "
  }

  /** The row has a value for every column, and every mapping accepts its value. */
  ghost predicate Fits(columns: seq<MdColumn>, row: seq<Value>)
  {
    && |row| >= |columns|
    && forall i :: 0 <= i < |columns| && columns[i].mapping.Some? ==> columns[i].mapping.value.requires(row[i])
  }

  /** Every row of the table fits its columns: rendering neither indexes past a row nor makes a mapping panic. */
  ghost predicate Renderable(table: MdTable)
  {
    forall row :: row in table.rows ==> Fits(table.columns, row)
  }

  /** The value a column shows for `v`: the mapping's image when the column has one, `v` otherwise. */
  function Mapped(c: MdColumn, v: Value): Value
    requires c.mapping.Some? ==> c.mapping.value.requires(v)
  {
    if c.mapping.Some? then c.mapping.value(v) else v
  }

  /** A column's cell in a data row holding `v`. */
  function DataCell(c: MdColumn, v: Value): string
    requires c.mapping.Some? ==> c.mapping.value.requires(v)
  {
    " " + Verb(Mapped(c, v)) + " "
  }

  // ---------------------------------------------------------------------------
  // Rows and the whole table

  function HeaderLine(columns: seq<MdColumn>): Line
  {
    Line("| ", seq(|columns|, i requires 0 <= i < |columns| => HeaderCell(columns[i])))
  }

  function SeparatorLine(columns: seq<MdColumn>): Line
  {
    Line("|", seq(|columns|, i requires 0 <= i < |columns| => SeparatorCell(columns[i])))
  }

  function DataLine(columns: seq<MdColumn>, row: seq<Value>): Line
    requires Fits(columns, row)
  {
    Line("|", seq(|columns|, i requires 0 <= i < |columns| => DataCell(columns[i], row[i])))
  }

  /** What markdownTable writes: an error without columns, else the header, delimiter and data rows. */
  function Render(table: MdTable): Result<seq<Line>>
    requires Renderable(table)
  {
    if |table.columns| < 1 then Err(NoColumnsError)
    else
      var rows := table.rows;
      Ok([HeaderLine(table.columns), SeparatorLine(table.columns)]
         + seq(|rows|, k requires 0 <= k < |rows| => DataLine(table.columns, rows[k])))
  }

  // ---------------------------------------------------------------------------
  // markdownTable

  /** Renders the table row by row and cell by cell, as markdownTable writes it. */
  method MarkdownTable(table: MdTable) returns (r: Result<seq<Line>>)
    requires Renderable(table)
    ensures r == Render(table)
    ensures r.Err? <==> |table.columns| == 0
    ensures r.Err? ==> r.msg == NoColumnsError
    ensures r.Ok? ==> |r.value| == |table.rows| + 2
    ensures r.Ok? ==> forall line :: line in r.value ==> |line.cells| == |table.columns|
  {
    var columns := table.columns;
    if |columns| < 1 {
      return Err(NoColumnsError);
    }

    // The column names.
    var header: seq<string> := [];
    for i := 0 to |columns|
      invariant header == seq(i, j requires 0 <= j < i => HeaderCell(columns[j]))
    {
      header := header + [HeaderCell(columns[i])];
    }

    // The header separator.
    var separator: seq<string> := [];
    for i := 0 to |columns|
      invariant separator == seq(i, j requires 0 <= j < i => SeparatorCell(columns[j]))
    {
      separator := separator + [SeparatorCell(columns[i])];
    }

    // The rows.
    var lines := [Line("| ", header), Line("|", separator)];
    var rows := table.rows;
    for k := 0 to |rows|
      invariant |lines| == k + 2
      invariant lines[0] == HeaderLine(columns) && lines[1] == SeparatorLine(columns)
      invariant forall n :: 0 <= n < k ==> lines[n + 2] == DataLine(columns, rows[n])
    {
      var row := rows[k];
      assert Fits(columns, row);
      var cells: seq<string> := [];
      for i := 0 to |columns|
        invariant cells == seq(i, j requires 0 <= j < i => DataCell(columns[j], row[j]))
      {
        var val := row[i];
        if columns[i].mapping.Some? {
          val := columns[i].mapping.value(val);
        }
        cells := cells + [" " + Verb(val) + " "];
      }
      lines := lines + [Line("|", cells)];
    }
    ghost var data := seq(|rows|, k requires 0 <= k < |rows| => DataLine(columns, rows[k]));
    assert forall n :: 0 <= n < |rows| ==> lines[n + 2] == data[n];
    assert lines == [HeaderLine(columns), SeparatorLine(columns)] + data;
    r := Ok(lines);
  }

  // ---------------------------------------------------------------------------
  // Lemmas

  /**
   * How a cell of a delimiter row reads under section 4.10 of the GitHub
   * Flavored Markdown specification: hyphens, with an optional leading colon
   * (left), trailing colon (right) or both (centre); `None` for a cell that is
   * not a delimiter cell.
   */
  function ReadDelimiter(cell: string): Option<MdAlign>
  {
    var leading := |cell| > 0 && cell[0] == ':';
    var body := if leading then cell[1..] else cell;
    var trailing := |body| > 0 && body[|body| - 1] == ':';
    var dashes := if trailing then body[..|body| - 1] else body;
    if |dashes| == 0 || exists i :: 0 <= i < |dashes| && dashes[i] != '-' then None
    else if leading && trailing then Some(Center)
    else if leading then Some(Left)
    else if trailing then Some(Right)
    else Some(NoAlign)
  }

  /** A delimiter cell reads back as its column's alignment, unless it is a centred column without a name. */
  lemma SeparatorCellReadsBack(c: MdColumn)
    requires c.align != Center || |c.name| > 0
    ensures ReadDelimiter(SeparatorCell(c)) == Some(c.align)
  {
    var cell := SeparatorCell(c);
    var n := |c.name|;
    match c.align
    case NoAlign =>
      assert cell == Dashes(n + 2) by { assert cell == Dashes(n) + "-" + "-"; }
    case Left =>
      assert cell[1..] == Dashes(n + 1);
    case Right =>
      assert cell[..n + 1] == Dashes(n + 1);
    case Center =>
      assert cell[1..][..n] == Dashes(n);
  }

  /** A centred column without a name gets "::", which is not a delimiter cell. */
  lemma CenteredEmptyNameIsNoDelimiter(c: MdColumn)
    requires c.align == Center && c.name == ""
    ensures SeparatorCell(c) == "::"
    ensures ReadDelimiter(SeparatorCell(c)).None?
  {
  }

  /** The rendered delimiter row declares every column's alignment, and has as many cells as the header row. */
  lemma RenderedAlignments(table: MdTable)
    requires Renderable(table)
    requires forall i :: 0 <= i < |table.columns| ==> table.columns[i].name != ""
    ensures Render(table).Ok? ==> |Render(table).value[1].cells| == |Render(table).value[0].cells|
    ensures Render(table).Ok? ==>
      forall i :: 0 <= i < |table.columns| ==> ReadDelimiter(Render(table).value[1].cells[i]) == Some(table.columns[i].align)
  {
    forall i | 0 <= i < |table.columns|
      ensures ReadDelimiter(SeparatorCell(table.columns[i])) == Some(table.columns[i].align)
    {
      SeparatorCellReadsBack(table.columns[i]);
    }
  }

  /** Data row k shows, in column i, the mapped value of the row's i-th entry, and nothing else. */
  lemma RenderedDataCells(table: MdTable, k: nat, i: nat)
    requires Renderable(table) && |table.columns| > 0
    requires k < |table.rows| && i < |table.columns|
    ensures Fits(table.columns, table.rows[k])
    ensures |Render(table).value| == |table.rows| + 2
    ensures |Render(table).value[k + 2].cells| == |table.columns|
    ensures Render(table).value[k + 2].cells[i] == " " + Verb(Mapped(table.columns[i], table.rows[k][i])) + " "
  {
    assert table.rows[k] in table.rows;
  }
}
