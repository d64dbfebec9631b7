/**
 * `assign_clusters`: encodes the categorical columns with the trained
 * encoders, casts the model columns to floats without filling missing
 * cells, embeds the matrix with the trained network and labels each row
 * with k-means' `predict`. The network's embedding and `predict` are
 * parameters.
 */
module Assignment {
  import opened Wrappers
  import opened Frames
  import opened LabelEncoding
  import opened Features
  import opened Training

  /** The encoders know the column and the cell is one of its classes. */
  predicate Encodable(encoders: Encoders, col: string, v: Value) {
    col in encoders && v.Str? && v.s in encoders[col]
  }

  /** The loop replacing each categorical column by the codes of its trained encoder. */
  function EncodeWith(encoders: Encoders, rows: seq<Row>, cols: seq<string>): Result<seq<Row>, Raised>
    decreases |cols|
  {
    if cols == [] then Success(rows)
    else if cols[0] !in encoders then Failure(KeyError([cols[0]]))
    else
      match TransformColumn(encoders[cols[0]], Column(rows, cols[0]))
      case None => Failure(ValueError(cols[0]))
      case Some(codes) => EncodeWith(encoders, WithCodes(rows, cols[0], codes), cols[1..])
  }

  /** The float matrix fed to the network: selection, encoding and the cast without filling. */
  function AssignmentInput(f: Frame, encoders: Encoders, nums: seq<string>, cats: seq<string>): Result<Matrix, Raised> {
    match Select(f, nums + cats)
    case Failure(missing) => Failure(KeyError(missing))
    case Success(x) =>
      match EncodeWith(encoders, x.rows, cats)
      case Failure(e) => Failure(e)
      case Success(coded) => AssignmentMatrix(coded, nums + cats)
  }

  /** A copy of the table with the `cluster` column set to `labels` (appended when new). */
  function WithLabels(f: Frame, labels: seq<int>): (r: Frame)
    requires |labels| == |f.rows|
    ensures |r.rows| == |f.rows|
    ensures forall i :: 0 <= i < |f.rows| ==> Cell(r.rows[i], "cluster") == Int(labels[i])
    ensures forall i, c :: 0 <= i < |f.rows| && c != "cluster" ==> Cell(r.rows[i], c) == Cell(f.rows[i], c)
    ensures |f.columns| <= |r.columns| && r.columns[..|f.columns|] == f.columns
    ensures forall c :: c in r.columns <==> c in f.columns || c == "cluster"
  {
    var columns := if "cluster" in f.columns then f.columns else f.columns + ["cluster"];
    assert columns[..|f.columns|] == f.columns;
    Frame(columns, seq(|f.rows|, i requires 0 <= i < |f.rows| => f.rows[i]["cluster" := Int(labels[i])]))
  }

  /**
   * `assign_clusters(df, model)`: on success the same rows in the same
   * order, every cell outside `cluster` unchanged, the input's columns
   * first and one integer `cluster` cell per row.
   */
  function AssignClusters<Net, E, Km>(f: Frame, model: Bundle<Net, Km>,
                                      embed: (Net, Matrix) -> E, predict: (Km, E) -> seq<int>): (r: Result<Frame, Raised>)
    ensures r.Success? ==> |r.value.rows| == |f.rows|
    ensures r.Success? ==> forall i, c :: 0 <= i < |f.rows| && c != "cluster" ==> Cell(r.value.rows[i], c) == Cell(f.rows[i], c)
    ensures r.Success? ==> forall i :: 0 <= i < |f.rows| ==> Cell(r.value.rows[i], "cluster").Int?
    ensures r.Success? ==> |f.columns| <= |r.value.columns| && r.value.columns[..|f.columns|] == f.columns
    ensures r.Success? ==> forall c :: c in r.value.columns <==> c in f.columns || c == "cluster"
  {
    match AssignmentInput(f, model.encoders, model.numVars, model.catVars)
    case Failure(e) => Failure(e)
    case Success(m) =>
      var embeddings := embed(model.tabnet, m);
      match model.kmeans
      case None => Failure(AttributeError)
      case Some(km) =>
        var labels := predict(km, embeddings);
        if |labels| != |f.rows| then Failure(ValueError("cluster"))
        else Success(WithLabels(f, labels))
  }

  /** Every label lies in [0, k). */
  predicate InRange(labels: seq<int>, k: int) {
    forall j :: 0 <= j < |labels| ==> 0 <= labels[j] < k
  }

  /**
   * The labels are `predict` of the embedded input matrix, so they lie in
   * [0, best k) when the fitted model's predictions do.
   */
  lemma AssignedLabels<Net, E, Km>(f: Frame, model: Bundle<Net, Km>,
                                   embed: (Net, Matrix) -> E, predict: (Km, E) -> seq<int>)
    requires AssignClusters(f, model, embed, predict).Success? && model.bestK.Some?
    requires model.kmeans.Some? ==> forall e: E :: InRange(predict(model.kmeans.value, e), model.bestK.value)
    ensures AssignmentInput(f, model.encoders, model.numVars, model.catVars).Success? && model.kmeans.Some?
    ensures var labels := predict(model.kmeans.value, embed(model.tabnet, AssignmentInput(f, model.encoders, model.numVars, model.catVars).value));
      forall i :: 0 <= i < |f.rows| ==> Cell(AssignClusters(f, model, embed, predict).value.rows[i], "cluster") == Int(labels[i])
    ensures forall i :: 0 <= i < |f.rows| ==> 0 <= Cell(AssignClusters(f, model, embed, predict).value.rows[i], "cluster").i < model.bestK.value
  {
    var m := AssignmentInput(f, model.encoders, model.numVars, model.catVars).value;
    assert model.kmeans.Some?;
    PredictInRange(model.kmeans.value, embed(model.tabnet, m), predict, model.bestK.value);
  }

  lemma PredictInRange<Km, E>(km: Km, e: E, predict: (Km, E) -> seq<int>, k: int)
    requires forall e': E :: InRange(predict(km, e'), k)
    ensures InRange(predict(km, e), k)
  {
  }

  /** A categorical cell that its encoder does not know makes the encoding loop raise. */
  lemma {:induction false} EncodeWithUnseen(encoders: Encoders, rows: seq<Row>, cols: seq<string>, c: string, i: int)
    requires c in cols && 0 <= i < |rows| && !Encodable(encoders, c, Cell(rows[i], c))
    ensures EncodeWith(encoders, rows, cols).Failure?
    decreases |cols|
  {
    var col := cols[0];
    if col == c {
      if col in encoders {
        assert Column(rows, col)[i] == Cell(rows[i], c);
      }
    } else if col in encoders && TransformColumn(encoders[col], Column(rows, col)).Some? {
      var codes := TransformColumn(encoders[col], Column(rows, col)).value;
      var x := WithCodes(rows, col, codes);
      assert SameColumn(rows, x, c);
      EncodeWithUnseen(encoders, x, cols[1..], c, i);
    }
  }

  /**
   * A value a categorical column's encoder has not seen (or a missing one)
   * makes the assignment raise: no `cluster` column is produced.
   */
  lemma UnseenCategoryRejected<Net, E, Km>(f: Frame, model: Bundle<Net, Km>,
                                           embed: (Net, Matrix) -> E, predict: (Km, E) -> seq<int>, c: string, i: int)
    requires c in model.catVars && 0 <= i < |f.rows| && !Encodable(model.encoders, c, Cell(f.rows[i], c))
    ensures AssignClusters(f, model, embed, predict).Failure?
  {
    var cols := model.numVars + model.catVars;
    var sel := Select(f, cols);
    if sel.Success? {
      assert Cell(sel.value.rows[i], c) == Cell(f.rows[i], c);
      EncodeWithUnseen(model.encoders, sel.value.rows, model.catVars, c, i);
    }
  }

  /**
   * With the encoders a training loop fitted, the assignment loop gives
   * the rows that training encoded.
   */
  lemma {:induction false} EncodeWithFitted(acc: Encoders, rows: seq<Row>, cols: seq<string>, encoders: Encoders)
    requires Distinct(cols) && EncodeFrom(acc, rows, cols).Success?
    requires forall c :: c in cols ==> c in encoders && c in EncodeFrom(acc, rows, cols).value.0
    requires forall c :: c in cols ==> encoders[c] == EncodeFrom(acc, rows, cols).value.0[c]
    ensures EncodeWith(encoders, rows, cols) == Success(EncodeFrom(acc, rows, cols).value.1)
    decreases |cols|
  {
    if cols != [] {
      var col, rest := cols[0], cols[1..];
      DistinctTail(cols);
      var cells := Column(rows, col);
      var classes := Fit(Texts(cells).value);
      var codes := TransformColumn(classes, cells).value;
      var x := WithCodes(rows, col, codes);
      assert EncodeColumn(rows, col) == Success((classes, x));
      assert EncodeFrom(acc[col := classes], x, rest) == EncodeFrom(acc, rows, cols);
      EncodeFromKeeps(acc[col := classes], x, rest, col);
      EncodeWithFitted(acc[col := classes], x, rest, encoders);
    }
  }

  /**
   * Assigning the table a bundle was trained on feeds the network the
   * training matrix whenever the cast succeeds, and the cast succeeds
   * exactly when no numeric model cell is missing: training reads a
   * missing cell as -1 where assignment raises.
   */
  lemma AssignmentInputOnTrainingTable(f: Frame, nums: seq<string>, cats: seq<string>)
    requires Distinct(nums + cats) && Prepared(f, nums, cats).Success?
    ensures var input := AssignmentInput(f, Prepared(f, nums, cats).value.0, nums, cats);
      && (input.Success? ==> input.value == Prepared(f, nums, cats).value.1)
      && (input.Success? <==> forall c :: c in nums ==> NoNull(f.rows, c))
  {
    var cols := nums + cats;
    DistinctParts(nums, cats);
    PreparedOutcome(f, nums, cats);
    var rows := Select(f, cols).value.rows;
    var (encoders, coded) := EncodeFrom(map[], rows, cats).value;
    EncodeFromKeys(map[], rows, cats);
    forall c | c in cats ensures c in encoders { }
    EncodeWithFitted(map[], rows, cats, encoders);
    var input := AssignmentMatrix(coded, cols);
    if input.Success? {
      MatricesAgree(coded, cols);
    }
    forall c | c in nums ensures SameColumn(f.rows, coded, c) {
      assert SameColumn(f.rows, rows, c);
      EncodeFromUntouched(map[], rows, cats, c);
      SameColumnTransitive(f.rows, rows, coded, c);
    }
    forall c | c in cats ensures forall i :: 0 <= i < |coded| ==> Cell(coded[i], c).Int? {
      EncodeFromCoded(map[], rows, cats, c);
    }
    CastOutcome(f.rows, coded, nums, cats);
  }

  /** The cast without filling succeeds exactly when no numeric cell is missing. */
  lemma CastOutcome(rows: seq<Row>, coded: seq<Row>, nums: seq<string>, cats: seq<string>)
    requires forall c :: c in nums ==> SameColumn(rows, coded, c) && NoText(rows, c)
    requires forall c :: c in cats ==> forall i :: 0 <= i < |coded| ==> Cell(coded[i], c).Int?
    ensures AssignmentMatrix(coded, nums + cats).Success? <==> forall c :: c in nums ==> NoNull(rows, c)
  {
    var cols := nums + cats;
    if AssignmentMatrix(coded, cols).Success? {
      forall c | c in nums ensures NoNull(rows, c) {
        forall i | 0 <= i < |rows| ensures !Cell(rows[i], c).Null? {
          var j :| 0 <= j < |nums| && nums[j] == c;
          assert cols[j] == c;
          assert AssignmentVector(coded[i], cols).Success?;
        }
      }
    }
    if forall c :: c in nums ==> NoNull(rows, c) {
      forall i | 0 <= i < |coded| ensures AssignmentVector(coded[i], cols).Success? {
        forall j | 0 <= j < |cols| ensures Num(Cell(coded[i], cols[j])).Some? {
          if j < |nums| {
            assert cols[j] == nums[j] && nums[j] in nums;
          } else {
            assert cols[j] == cats[j - |nums|] && cols[j] in cats;
          }
        }
      }
    }
  }

  /**
   * Assigning the training table with the trained bundle: the network sees
   * the training matrix exactly when no numeric model cell is missing.
   */
  lemma AssignTrainingTable<Net, E, Km>(f: Frame, seed: int,
                                        pretrain: (Matrix, int) -> Result<Net, Raised>, embed: (Net, Matrix) -> E,
                                        fitKMeans: (E, int, int) -> Result<Km, Raised>,
                                        silhouette: (E, Km) -> Result<real, Raised>)
    requires Train(f, seed, pretrain, embed, fitKMeans, silhouette).Success?
    ensures var b := Train(f, seed, pretrain, embed, fitKMeans, silhouette).value;
      var input := AssignmentInput(f, b.encoders, b.numVars, b.catVars);
      && (input.Success? ==> input.value == Prepared(f, NumVars, CatVars).value.1)
      && (input.Success? <==> forall c :: c in NumVars ==> NoNull(f.rows, c))
  {
    ModelColumnsDistinct();
    AssignmentInputOnTrainingTable(f, NumVars, CatVars);
  }
}
