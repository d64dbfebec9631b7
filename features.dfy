/**
 * What training and assignment share: the model's column lists, the
 * exceptions the steps raise, the encoded copy of a categorical column,
 * and the conversion of a table to the float matrix the networks read.
 */
module Features {
  import opened Wrappers
  import opened Frames
  import opened LabelEncoding

  /** The numeric model columns, in feature order. */
  const NumVars: seq<string> := ["h_num_per", "h_num_adu", "h_num_men", "h_num_noc", "h_tot_hab", "h_tfa_total"]

  /** The categorical model columns, in feature order (they follow the numeric ones). */
  const CatVars: seq<string> := ["ID_Tipo_Habitacion", "ID_canal", "ID_Pais_Origen", "ID_Segmento_Comp", "ID_Agencia"]

  /** The Python exception a step raises, with the labels or column it concerns. */
  datatype Raised =
    | KeyError(labels: seq<string>)
    | TypeError(column: string)
    | ValueError(column: string)
    | AttributeError
    | IndexError(column: string)

  /** The fitted encoders by column: each one's classes. */
  type Encoders = map<string, seq<string>>

  /** A float matrix, one feature vector per row. */
  type Matrix = seq<seq<real>>

  /** No column is listed twice. */
  predicate Distinct(cols: seq<string>) {
    forall i, j :: 0 <= i < j < |cols| ==> cols[i] != cols[j]
  }

  lemma ModelColumnsDistinct()
    ensures Distinct(CatVars) && Distinct(NumVars + CatVars)
  {
    var all := NumVars + CatVars;
    forall i, j | 0 <= i < j < |all| ensures all[i] != all[j] {
      var a, b := all[i], all[j];
      assert |a| != |b| || a[2] != b[2] || a[6] != b[6] || a[|a| - 1] != b[|b| - 1];
    }
    forall i, j | 0 <= i < j < |CatVars| ensures CatVars[i] != CatVars[j] {
      assert CatVars[i] == all[i + 6] && CatVars[j] == all[j + 6];
    }
  }

  /** `X[col]`: the cells of one column, in row order. */
  function Column(rows: seq<Row>, col: string): (cells: seq<Value>)
    ensures |cells| == |rows|
    ensures forall i :: 0 <= i < |rows| ==> cells[i] == Cell(rows[i], col)
  {
    seq(|rows|, i requires 0 <= i < |rows| => Cell(rows[i], col))
  }

  /** Every cell of the column is text. */
  predicate AllText(rows: seq<Row>, col: string) {
    forall i :: 0 <= i < |rows| ==> Cell(rows[i], col).Str?
  }

  /** No cell of the column is missing. */
  predicate NoNull(rows: seq<Row>, col: string) {
    forall i :: 0 <= i < |rows| ==> !Cell(rows[i], col).Null?
  }

  /** No cell of the column is text. */
  predicate NoText(rows: seq<Row>, col: string) {
    forall i :: 0 <= i < |rows| ==> !Cell(rows[i], col).Str?
  }

  /** `x` has as many rows as `rows` and the same cells in column `col`. */
  predicate SameColumn(rows: seq<Row>, x: seq<Row>, col: string) {
    |x| == |rows| && forall i :: 0 <= i < |rows| ==> Cell(x[i], col) == Cell(rows[i], col)
  }

  lemma SameColumnCells(rows: seq<Row>, x: seq<Row>, col: string)
    requires SameColumn(rows, x, col)
    ensures Column(x, col) == Column(rows, col)
    ensures AllText(x, col) <==> AllText(rows, col)
  {
  }

  lemma SameColumnTransitive(a: seq<Row>, b: seq<Row>, c: seq<Row>, col: string)
    requires SameColumn(a, b, col) && SameColumn(b, c, col)
    ensures SameColumn(a, c, col)
  {
  }

  /** `X[col] = codes`: the column replaced by integer codes, every other cell kept. */
  function WithCodes(rows: seq<Row>, col: string, codes: seq<nat>): (r: seq<Row>)
    requires |codes| == |rows|
    ensures |r| == |rows|
    ensures forall i :: 0 <= i < |rows| ==> Cell(r[i], col) == Int(codes[i])
    ensures forall c :: c != col ==> SameColumn(rows, r, c)
  {
    seq(|rows|, i requires 0 <= i < |rows| => rows[i][col := Int(codes[i])])
  }

  /** A cell after `fillna(-1)` and the float cast: missing reads -1, text cannot be cast. */
  function FilledCell(v: Value, col: string): (r: Result<real, Raised>)
    ensures r.Success? <==> !v.Str?
    ensures v.Null? ==> r == Success(-1.0)
    ensures Num(v).Some? ==> r == Success(Num(v).value)
  {
    match v
    case Null => Success(-1.0)
    case Int(i) => Success(i as real)
    case Real(x) => Success(x)
    case Str(_) => Failure(ValueError(col))
  }

  /** A cell cast to float without filling: missing (`pd.NA`) and text cannot be cast. */
  function CastCell(v: Value, col: string): (r: Result<real, Raised>)
    ensures r.Success? <==> Num(v).Some?
    ensures r.Success? ==> r.value == Num(v).value
  {
    match v
    case Null => Failure(TypeError(col))
    case Int(i) => Success(i as real)
    case Real(x) => Success(x)
    case Str(_) => Failure(ValueError(col))
  }

  /** The training feature vector of one row over `cols`. */
  function TrainingVector(row: Row, cols: seq<string>): (r: Result<seq<real>, Raised>)
    ensures r.Success? <==> forall j :: 0 <= j < |cols| ==> !Cell(row, cols[j]).Str?
    ensures r.Success? ==> |r.value| == |cols|
    ensures r.Success? ==> forall j :: 0 <= j < |cols| ==> Success(r.value[j]) == FilledCell(Cell(row, cols[j]), cols[j])
  {
    if cols == [] then Success([])
    else
      match FilledCell(Cell(row, cols[0]), cols[0])
      case Failure(e) => Failure(e)
      case Success(x) =>
        match TrainingVector(row, cols[1..])
        case Failure(e) => Failure(e)
        case Success(rest) => Success([x] + rest)
  }

  /** The assignment feature vector of one row over `cols`. */
  function AssignmentVector(row: Row, cols: seq<string>): (r: Result<seq<real>, Raised>)
    ensures r.Success? <==> forall j :: 0 <= j < |cols| ==> Num(Cell(row, cols[j])).Some?
    ensures r.Success? ==> |r.value| == |cols|
    ensures r.Success? ==> forall j :: 0 <= j < |cols| ==> r.value[j] == Num(Cell(row, cols[j])).value
  {
    if cols == [] then Success([])
    else
      match CastCell(Cell(row, cols[0]), cols[0])
      case Failure(e) => Failure(e)
      case Success(x) =>
        match AssignmentVector(row, cols[1..])
        case Failure(e) => Failure(e)
        case Success(rest) => Success([x] + rest)
  }

  /**
   * The two vectors of a row agree whenever the row has no missing model
   * cell; a missing cell makes the assignment cast fail where training
   * reads -1.
   */
  lemma VectorsAgree(row: Row, cols: seq<string>)
    ensures AssignmentVector(row, cols).Success? ==> TrainingVector(row, cols) == AssignmentVector(row, cols)
    ensures (exists j :: 0 <= j < |cols| && Cell(row, cols[j]).Null?) ==>
      AssignmentVector(row, cols).Failure? && (TrainingVector(row, cols).Success? <==> forall j :: 0 <= j < |cols| ==> !Cell(row, cols[j]).Str?)
  {
    var a, t := AssignmentVector(row, cols), TrainingVector(row, cols);
    if a.Success? {
      assert t.Success?;
      forall j | 0 <= j < |cols| ensures t.value[j] == a.value[j] {
        assert Num(Cell(row, cols[j])).Some?;
      }
    }
  }

  /** `astype(float32)` of a whole table for training: each row's vector, or the first failure. */
  function TrainingMatrix(rows: seq<Row>, cols: seq<string>): (r: Result<Matrix, Raised>)
    ensures r.Success? <==> forall i :: 0 <= i < |rows| ==> TrainingVector(rows[i], cols).Success?
    ensures r.Success? ==> |r.value| == |rows| && forall i :: 0 <= i < |rows| ==> r.value[i] == TrainingVector(rows[i], cols).value
  {
    if rows == [] then Success([])
    else
      match TrainingVector(rows[0], cols)
      case Failure(e) => Failure(e)
      case Success(v) =>
        match TrainingMatrix(rows[1..], cols)
        case Failure(e) => Failure(e)
        case Success(rest) => Success([v] + rest)
  }

  /** `X.values.astype(np.float32)` at assignment: each row's vector, or the first failure. */
  function AssignmentMatrix(rows: seq<Row>, cols: seq<string>): (r: Result<Matrix, Raised>)
    ensures r.Success? <==> forall i :: 0 <= i < |rows| ==> AssignmentVector(rows[i], cols).Success?
    ensures r.Success? ==> |r.value| == |rows| && forall i :: 0 <= i < |rows| ==> r.value[i] == AssignmentVector(rows[i], cols).value
  {
    if rows == [] then Success([])
    else
      match AssignmentVector(rows[0], cols)
      case Failure(e) => Failure(e)
      case Success(v) =>
        match AssignmentMatrix(rows[1..], cols)
        case Failure(e) => Failure(e)
        case Success(rest) => Success([v] + rest)
  }

  /** Where the assignment cast succeeds, the two matrices are the same. */
  lemma MatricesAgree(rows: seq<Row>, cols: seq<string>)
    requires AssignmentMatrix(rows, cols).Success?
    ensures TrainingMatrix(rows, cols) == AssignmentMatrix(rows, cols)
  {
    forall i | 0 <= i < |rows| ensures TrainingVector(rows[i], cols) == AssignmentVector(rows[i], cols) {
      VectorsAgree(rows[i], cols);
    }
  }
}
