/**
 * The small part of pandas the server relies on: building a DataFrame from
 * a list of rows and named columns, DataFrame.empty, and reading one column
 * as df[col].dropna().astype(str).tolist().
 */
module Frames {
  import opened Wrappers
  import opened ColumnLabels

  /** A cell of an extracted table: text, or None where the extractor found no text. */
  type Cell = Option<string>
  type Row = seq<Cell>
  type Table = seq<Row>

  /** A DataFrame: column labels (repetitions allowed) and rows of cells. */
  datatype Frame = Frame(columns: seq<string>, rows: seq<Row>)

  /** Why building or reading a frame fails. */
  datatype FrameError =
    | ShapeMismatch      // ValueError: "n columns passed, passed data had m columns"
    | DuplicateLabel     // df[col] is a frame for a repeated label, and a frame has no tolist()

  /** Every row has one cell per column. */
  predicate WellShaped(f: Frame) {
    forall i :: 0 <= i < |f.rows| ==> |f.rows[i]| == |f.columns|
  }

  /** The width of the widest row (0 for no rows). */
  function MaxWidth(rows: seq<Row>): (w: nat)
    ensures forall i :: 0 <= i < |rows| ==> |rows[i]| <= w
    ensures |rows| > 0 ==> exists i :: 0 <= i < |rows| && |rows[i]| == w
    ensures |rows| == 0 ==> w == 0
  {
    if |rows| == 0 then 0
    else
      var rest := MaxWidth(rows[1..]);
      assert forall i :: 1 <= i < |rows| ==> rows[i] == rows[1..][i - 1];
      if |rows[0]| >= rest then |rows[0]| else rest
  }

  /** A row filled up with None to width w. */
  function PadTo(row: Row, w: nat): (r: Row)
    requires |row| <= w
    ensures |r| == w && r[..|row|] == row
    ensures forall k :: |row| <= k < w ==> r[k] == None
  {
    row + seq(w - |row|, _ => None)
  }

  /**
   * pd.DataFrame(rows, columns=columns) for a list of row lists: shorter rows
   * are filled with None up to the widest one, and construction fails unless
   * that width equals the number of labels (an empty row list always works).
   */
  function BuildFrame(columns: seq<string>, rows: seq<Row>): (r: Result<Frame, FrameError>)
    ensures r.Ok? <==> (|rows| == 0 || MaxWidth(rows) == |columns|)
    ensures r.Ok? ==> WellShaped(r.value) && r.value.columns == columns && |r.value.rows| == |rows|
    ensures r.Ok? ==> forall i :: 0 <= i < |rows| ==>
      r.value.rows[i][..|rows[i]|] == rows[i] && forall k :: |rows[i]| <= k < |columns| ==> r.value.rows[i][k] == None
  {
    if |rows| == 0 then Ok(Frame(columns, []))
    else if MaxWidth(rows) != |columns| then Err(ShapeMismatch)
    else Ok(Frame(columns, seq(|rows|, i requires 0 <= i < |rows| => PadTo(rows[i], |columns|))))
  }

  /** DataFrame.empty: no rows or no columns. */
  predicate IsEmpty(f: Frame) {
    |f.rows| == 0 || |f.columns| == 0
  }

  /** The strings among the cells, in order (dropna().astype(str).tolist()). */
  function PresentValues(cells: seq<Cell>): (vs: seq<string>)
    ensures |vs| <= |cells|
    ensures forall v :: v in vs ==> Some(v) in cells
  {
    if |cells| == 0 then []
    else (match cells[0] case None => [] case Some(s) => [s]) + PresentValues(cells[1..])
  }

  /** The cells of column j, top to bottom. */
  function ColumnCells(f: Frame, j: nat): (cs: seq<Cell>)
    requires WellShaped(f) && j < |f.columns|
    ensures |cs| == |f.rows| && forall i :: 0 <= i < |f.rows| ==> cs[i] == f.rows[i][j]
  {
    seq(|f.rows|, i requires 0 <= i < |f.rows| => f.rows[i][j])
  }

  /**
   * df[col].dropna().astype(str).tolist() for the label of column j: the
   * column's strings when the label is unique, an error when pandas would
   * return several columns for it.
   */
  function ColumnValues(f: Frame, j: nat): (r: Result<seq<string>, FrameError>)
    requires WellShaped(f) && j < |f.columns|
    ensures r.Ok? <==> Occurrences(f.columns, f.columns[j]) == 1
    ensures r.Ok? ==> r.value == PresentValues(ColumnCells(f, j))
  {
    if Occurrences(f.columns, f.columns[j]) == 1 then Ok(PresentValues(ColumnCells(f, j)))
    else Err(DuplicateLabel)
  }
}
