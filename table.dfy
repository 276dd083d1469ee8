/**
 * The insert-table button of the editor: two prompts ask for the numbers of rows and
 * columns, and the markup of an r×c table is built by appending to a string in two
 * nested loops. The first row holds header cells, every other row data cells. The
 * prompts' answers are parameters (`None` for a cancelled prompt), and the markup is
 * returned instead of being inserted into the page.
 */
module Table {
  import opened Wrappers
  import opened JsString
  import opened JsNumber

  /** The pieces of markup the table is made of. */
  datatype Pieces = Pieces(tableOpen: string, rowOpen: string, rowClose: string,
                           headerCell: string, dataCell: string, tableClose: string)

  /**
   * The markup the button writes: a full-width table with collapsed borders, header cells
   * holding the word "title" on a grey ground, data cells holding the word "content", and
   * an empty paragraph after the table so that typing can go on below it.
   */
  const Markup: Pieces := Pieces(
    "<table style=\"border-collapse: collapse; width: 100%; margin: 1rem 0;\">",
    "<tr>",
    "</tr>",
    "<th style=\"border: 1px solid #ddd; padding: 8px; min-width: 50px; background: #f5f5f5; font-weight: bold;\">\U{C81C}\U{BAA9}</th>",
    "<td style=\"border: 1px solid #ddd; padding: 8px; min-width: 50px;\">\U{B0B4}\U{C6A9}</td>",
    "</table><p><br></p>")

  /** `parseInt(answer) || 3`: NaN and zero fall back to three. */
  function Dimension(answer: string): int
  {
    match ParseInt(answer, Auto)
    case None => 3
    case Some(n) => if n == 0 then 3 else n
  }

  /** How often `for (let i = 0; i < n; i++)` runs. */
  function Times(n: int): nat
  {
    if n > 0 then n else 0
  }

  /** The cell written in row `i`. */
  function Cell(m: Pieces, i: int): string
  {
    if i == 0 then m.headerCell else m.dataCell
  }

  /** A row of `c` copies of `cell`. */
  function Row(m: Pieces, cell: string, c: int): string
  {
    m.rowOpen + Repeat(cell, Times(c)) + m.rowClose
  }

  /** The rows of an r×c table, in order. */
  function Rows(m: Pieces, r: int, c: int): seq<string>
  {
    seq(Times(r), i requires 0 <= i < Times(r) => Row(m, Cell(m, i), c))
  }

  /** The strings of `parts` one after another. */
  function Concat(parts: seq<string>): string
  {
    if parts == [] then "" else Concat(parts[..|parts| - 1]) + parts[|parts| - 1]
  }

  /** The markup of an r×c table. */
  function TableMarkup(m: Pieces, r: int, c: int): string
  {
    m.tableOpen + Concat(Rows(m, r, c)) + m.tableClose
  }

  /**
   * What the button inserts for the prompts' answers: nothing when a prompt is cancelled
   * or answered with nothing (`if (rows && cols)`), otherwise the table.
   */
  function InsertedTable(rows: Option<string>, cols: Option<string>): Option<string>
  {
    if rows.Some? && rows.value != "" && cols.Some? && cols.value != "" then
      Some(TableMarkup(Markup, Dimension(rows.value), Dimension(cols.value)))
    else None
  }

  // ---------------------------------------------------------------------------
  // Properties

  /** An answer that is a non-zero whole number in decimal gives that many rows or columns. */
  lemma {:induction false} DimensionOfNumber(n: int)
    requires n != 0
    ensures Dimension(IntToString(n)) == n
  {
    ParseIntText(n, "");
    assert IntToString(n) + "" == IntToString(n);
  }

  /** An answer with no number at its start, or with zero, gives three. */
  lemma {:induction false} DimensionFallback(answer: string)
    requires ParseInt(answer, Auto) == None || ParseInt(answer, Auto) == Some(0)
    ensures Dimension(answer) == 3
  {
  }

  /** An answer that does not start with a digit or a sign after white space has no number. */
  lemma {:induction false} NonNumericAnswer(answer: string)
    requires TrimStart(answer) == [] || (!IsHexDigit(TrimStart(answer)[0]) && TrimStart(answer)[0] !in "+-")
    ensures Dimension(answer) == 3
  {
    ParseIntNoDigits(answer);
  }

  lemma {:induction false} RepeatSnoc(s: string, n: nat)
    ensures Repeat(s, n + 1) == Repeat(s, n) + s
  {
    if n > 0 {
      RepeatSnoc(s, n - 1);
    }
  }

  /** The rows of a table with one more row are its rows and the next row. */
  lemma {:induction false} RowsSnoc(m: Pieces, i: nat, c: int)
    ensures Rows(m, i + 1, c) == Rows(m, i, c) + [Row(m, Cell(m, i), c)]
  {
  }

  lemma {:induction false} ConcatSnoc(parts: seq<string>, last: string)
    ensures Concat(parts + [last]) == Concat(parts) + last
  {
    assert (parts + [last])[..|parts|] == parts;
  }

  /** Rows after the first are all the same row of data cells. */
  lemma {:induction false} DataRows(m: Pieces, k: nat, c: int)
    ensures Concat(Rows(m, k + 1, c)) == Row(m, m.headerCell, c) + Repeat(Row(m, m.dataCell, c), k)
  {
    RowsSnoc(m, k, c);
    ConcatSnoc(Rows(m, k, c), Row(m, Cell(m, k), c));
    if k == 0 {
      assert Rows(m, 0, c) == [];
    } else {
      DataRows(m, k - 1, c);
      RepeatSnoc(Row(m, m.dataCell, c), k - 1);
    }
  }

  /**
   * The table in closed form: with r > 0 it is one row of c header cells followed by
   * r - 1 rows of c data cells; with r <= 0 it has no rows; c <= 0 leaves the rows empty.
   */
  lemma {:induction false} TableClosedForm(m: Pieces, r: int, c: int)
    ensures r > 0 ==>
      TableMarkup(m, r, c)
      == m.tableOpen + (m.rowOpen + Repeat(m.headerCell, Times(c)) + m.rowClose)
         + Repeat(m.rowOpen + Repeat(m.dataCell, Times(c)) + m.rowClose, r - 1) + m.tableClose
    ensures r <= 0 ==> TableMarkup(m, r, c) == m.tableOpen + m.tableClose
  {
    if r > 0 {
      DataRows(m, r - 1, c);
    } else {
      assert Rows(m, r, c) == [];
    }
  }

  /** Cancelling either prompt, or answering it with nothing, inserts nothing. */
  lemma {:induction false} NothingWithoutAnswers(rows: Option<string>, cols: Option<string>)
    ensures InsertedTable(rows, cols).None? <==> rows in {None, Some("")} || cols in {None, Some("")}
  {
  }

  // ---------------------------------------------------------------------------
  // The handler

  /** Row `i` appended to `tableHtml`: its cells are appended one at a time. */
  method AppendRow(m: Pieces, tableHtml: string, i: int, c: int) returns (extended: string)
    ensures extended == tableHtml + Row(m, Cell(m, i), c)
  {
    extended := tableHtml + m.rowOpen;
    var j := 0;
    while j < c
      invariant j <= Times(c)
      invariant extended == tableHtml + m.rowOpen + Repeat(Cell(m, i), j)
    {
      RepeatSnoc(Cell(m, i), j);
      if i == 0 {
        extended := extended + m.headerCell;
      } else {
        extended := extended + m.dataCell;
      }
      j := j + 1;
    }
    extended := extended + m.rowClose;
  }

  /** The two nested loops of the handler: `r` rows of `c` cells between the table's tags. */
  method BuildTable(m: Pieces, r: int, c: int) returns (tableHtml: string)
    ensures tableHtml == TableMarkup(m, r, c)
  {
    tableHtml := m.tableOpen;
    var i := 0;
    while i < r
      invariant i <= Times(r)
      invariant tableHtml == m.tableOpen + Concat(Rows(m, i, c))
    {
      RowsSnoc(m, i, c);
      ConcatSnoc(Rows(m, i, c), Row(m, Cell(m, i), c));
      tableHtml := AppendRow(m, tableHtml, i, c);
      i := i + 1;
    }
    tableHtml := tableHtml + m.tableClose;
  }

  /** The click handler of the insert-table button, given the answers to its two prompts. */
  method InsertTable(rows: Option<string>, cols: Option<string>) returns (inserted: Option<string>)
    ensures inserted == InsertedTable(rows, cols)
  {
    if rows.Some? && rows.value != "" && cols.Some? && cols.value != "" {
      var r := Dimension(rows.value);
      var c := Dimension(cols.value);
      var tableHtml := BuildTable(Markup, r, c);
      inserted := Some(tableHtml);
    } else {
      inserted := None;
    }
  }
}
