/**
 * A pandas data frame as the pipeline uses it: named columns and rows
 * that map column names to cell values. A cell that a row does not hold
 * reads as missing (`NA`/`NaN`).
 */
module Frames {
  import opened Wrappers
  import Seqs

  /** A cell: missing, an integer, a float or a string. */
  datatype Value = Null | Int(i: int) | Real(r: real) | Str(s: string)

  type Row = map<string, Value>

  /** The column labels in order and the rows in index order (the index is 0..|rows|-1). */
  datatype Frame = Frame(columns: seq<string>, rows: seq<Row>)

  function Cell(row: Row, col: string): Value {
    if col in row then row[col] else Null
  }

  /** The numeric reading of a cell; missing and non-numeric cells have none. */
  function Num(v: Value): Option<real> {
    match v
    case Int(i) => Some(i as real)
    case Real(x) => Some(x)
    case _ => None
  }

  /** The numeric values of a column, in row order, missing ones skipped. */
  function NumbersOf(rows: seq<Row>, col: string): (r: seq<real>)
    ensures |r| <= |rows|
    ensures forall x :: x in r <==> exists i :: 0 <= i < |rows| && Num(Cell(rows[i], col)) == Some(x)
  {
    if rows == [] then []
    else
      var rest := NumbersOf(rows[1..], col);
      assert forall x :: (exists i :: 0 <= i < |rows[1..]| && Num(Cell(rows[1..][i], col)) == Some(x))
                     <==> (exists i :: 1 <= i < |rows| && Num(Cell(rows[i], col)) == Some(x)) by {
        forall x | exists i :: 1 <= i < |rows| && Num(Cell(rows[i], col)) == Some(x)
          ensures exists i :: 0 <= i < |rows[1..]| && Num(Cell(rows[1..][i], col)) == Some(x)
        {
          var i :| 1 <= i < |rows| && Num(Cell(rows[i], col)) == Some(x);
          assert rows[1..][i - 1] == rows[i];
        }
      }
      match Num(Cell(rows[0], col))
      case Some(x) => [x] + rest
      case None => rest
  }

  /** The labels of `cols` that the frame lacks, in the order of `cols`. */
  function MissingColumns(f: Frame, cols: seq<string>): (r: seq<string>)
    ensures forall c :: c in r <==> c in cols && c !in f.columns
    ensures r == [] <==> forall c :: c in cols ==> c in f.columns
  {
    Seqs.FilterMembership(cols, c => c !in f.columns);
    var r := Seqs.Filter(cols, c => c !in f.columns);
    assert r != [] ==> r[0] in r;
    r
  }

  /** A row restricted to the labels in `cols`. */
  function Project(row: Row, cols: seq<string>): (r: Row)
    ensures forall c :: c in cols ==> Cell(r, c) == Cell(row, c)
    ensures forall c :: c in r ==> c in cols
  {
    map c | c in row && c in cols :: row[c]
  }

  /**
   * `df[cols]`: fails with the absent labels (pandas' `KeyError`), otherwise
   * the same rows restricted to `cols`, with `cols` as the columns.
   */
  function Select(f: Frame, cols: seq<string>): (r: Result<Frame, seq<string>>)
    ensures r.Success? <==> forall c :: c in cols ==> c in f.columns
    ensures r.Failure? ==> r.error != [] && forall c :: c in r.error <==> c in cols && c !in f.columns
    ensures r.Success? ==> r.value.columns == cols && |r.value.rows| == |f.rows|
    ensures r.Success? ==> forall i, c :: 0 <= i < |f.rows| && c in cols ==> Cell(r.value.rows[i], c) == Cell(f.rows[i], c)
  {
    var missing := MissingColumns(f, cols);
    if missing != [] then
      assert missing[0] in missing;
      Failure(missing)
    else
      Success(Frame(cols, seq(|f.rows|, i requires 0 <= i < |f.rows| => Project(f.rows[i], cols))))
  }

  /** Selecting a frame's own columns changes nothing when its rows hold no other labels. */
  lemma SelectProjected(f: Frame)
    requires forall i :: 0 <= i < |f.rows| ==> Project(f.rows[i], f.columns) == f.rows[i]
    ensures Select(f, f.columns) == Success(f)
  {
    assert MissingColumns(f, f.columns) == [];
    var sel := Select(f, f.columns).value;
    assert |sel.rows| == |f.rows|;
    assert forall i :: 0 <= i < |f.rows| ==> sel.rows[i] == f.rows[i];
    assert sel.rows == f.rows;
  }
}
