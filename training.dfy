/**
 * `train_cluster`: label-encodes the categorical columns, casts the model
 * columns to a float matrix with missing cells read as -1, pretrains the
 * tabular network on it, takes its embeddings and keeps the k among 4 and
 * 5 whose k-means partition has the higher silhouette score. The network,
 * k-means and the silhouette score are parameters: only how the pipeline
 * combines them is modelled.
 */
module Training {
  import opened Wrappers
  import opened Frames
  import opened LabelEncoding
  import opened Features

  /** The trained pipeline dictionary. */
  datatype Bundle<Net, Km> = Bundle(
    encoders: Encoders,
    tabnet: Net,
    kmeans: Option<Km>,
    numVars: seq<string>,
    catVars: seq<string>,
    bestK: Option<int>,
    silScore: real)

  /** The best candidate so far in the search for k: score, k and fitted model. */
  datatype Choice<Km> = Choice(score: real, k: Option<int>, km: Option<Km>)

  /** Column `col` of `x` holds codes of `classes` that decode to the text of column `col` of `rows`. */
  predicate Coded(rows: seq<Row>, x: seq<Row>, classes: seq<string>, col: string) {
    && |x| == |rows|
    && forall i :: 0 <= i < |rows| ==>
         Cell(rows[i], col).Str? && Cell(x[i], col).Int? && Decode(classes, Cell(x[i], col).i) == Some(Cell(rows[i], col).s)
  }

  /**
   * One encoder: fitted on the column's text (a missing cell cannot be
   * ordered against text and raises), then the column replaced by codes.
   */
  function EncodeColumn(rows: seq<Row>, col: string): (r: Result<(seq<string>, seq<Row>), Raised>)
    ensures r.Success? <==> AllText(rows, col)
    ensures r.Success? ==> r.value.0 == Fit(Texts(Column(rows, col)).value)
    ensures r.Success? ==> Coded(rows, r.value.1, r.value.0, col)
    ensures r.Success? ==> forall c :: c != col ==> SameColumn(rows, r.value.1, c)
  {
    var cells := Column(rows, col);
    match Texts(cells)
    case None => Failure(TypeError(col))
    case Some(texts) =>
      var classes := Fit(texts);
      TransformFittedColumn(cells);
      var codes := TransformColumn(classes, cells).value;
      var x := WithCodes(rows, col, codes);
      assert Coded(rows, x, classes, col) by {
        forall i | 0 <= i < |rows|
          ensures Decode(classes, Cell(x[i], col).i) == Some(Cell(rows[i], col).s)
        {
          assert Encode(classes, cells[i].s) == Some(codes[i]);
        }
      }
      Success((classes, x))
  }

  /** The encoder loop from the column `cols[0]` on, with `encoders` fitted so far. */
  function EncodeFrom(encoders: Encoders, rows: seq<Row>, cols: seq<string>): Result<(Encoders, seq<Row>), Raised>
    decreases |cols|
  {
    if cols == [] then Success((encoders, rows))
    else
      match EncodeColumn(rows, cols[0])
      case Failure(e) => Failure(e)
      case Success((classes, coded)) => EncodeFrom(encoders[cols[0] := classes], coded, cols[1..])
  }

  /** The encoder loop over the categorical columns. */
  method EncodeCategories(rows: seq<Row>) returns (r: Result<(Encoders, seq<Row>), Raised>)
    ensures r == EncodeFrom(map[], rows, CatVars)
  {
    var encoders: Encoders := map[];
    var x := rows;
    for i := 0 to |CatVars|
      invariant EncodeFrom(encoders, x, CatVars[i..]) == EncodeFrom(map[], rows, CatVars)
    {
      var col := CatVars[i];
      assert CatVars[i..][1..] == CatVars[i + 1..];
      var fitted := EncodeColumn(x, col);
      if fitted.Failure? {
        return Failure(fitted.error);
      }
      encoders := encoders[col := fitted.value.0];
      x := fitted.value.1;
    }
    return Success((encoders, x));
  }

  /** The encoder loop fails exactly when a cell of one of its (distinct) columns is not text. */
  lemma {:induction false} EncodeFromOutcome(encoders: Encoders, rows: seq<Row>, cols: seq<string>)
    requires Distinct(cols)
    ensures EncodeFrom(encoders, rows, cols).Success? <==> forall c :: c in cols ==> AllText(rows, c)
    decreases |cols|
  {
    if cols != [] {
      var col, rest := cols[0], cols[1..];
      DistinctTail(cols);
      if AllText(rows, col) {
        var (classes, x) := EncodeColumn(rows, col).value;
        EncodeFromOutcome(encoders[col := classes], x, rest);
        forall c | c in rest ensures AllText(x, c) <==> AllText(rows, c) {
          SameColumnCells(rows, x, c);
        }
      }
    }
  }

  lemma DistinctTail(cols: seq<string>)
    requires cols != [] && Distinct(cols)
    ensures Distinct(cols[1..]) && cols[0] !in cols[1..]
  {
    forall j | 0 <= j < |cols| - 1 ensures cols[1..][j] != cols[0] { assert cols[1..][j] == cols[j + 1]; }
  }

  /** The loop keeps the number of rows and leaves the columns it does not encode as they were. */
  lemma {:induction false} EncodeFromUntouched(encoders: Encoders, rows: seq<Row>, cols: seq<string>, c: string)
    requires EncodeFrom(encoders, rows, cols).Success? && c !in cols
    ensures SameColumn(rows, EncodeFrom(encoders, rows, cols).value.1, c)
    decreases |cols|
  {
    if cols != [] {
      var (classes, x) := EncodeColumn(rows, cols[0]).value;
      EncodeFromUntouched(encoders[cols[0] := classes], x, cols[1..], c);
      SameColumnTransitive(rows, x, EncodeFrom(encoders, rows, cols).value.1, c);
    }
  }

  /** The loop adds exactly one encoder per column it encodes. */
  lemma {:induction false} EncodeFromKeys(encoders: Encoders, rows: seq<Row>, cols: seq<string>)
    requires EncodeFrom(encoders, rows, cols).Success?
    ensures forall c :: c in EncodeFrom(encoders, rows, cols).value.0 <==> c in encoders || c in cols
    decreases |cols|
  {
    if cols != [] {
      var (classes, x) := EncodeColumn(rows, cols[0]).value;
      EncodeFromKeys(encoders[cols[0] := classes], x, cols[1..]);
    }
  }

  /** Encoders fitted earlier survive the rest of the loop unless a later column refits them. */
  lemma {:induction false} EncodeFromKeeps(encoders: Encoders, rows: seq<Row>, cols: seq<string>, k: string)
    requires EncodeFrom(encoders, rows, cols).Success? && k in encoders && k !in cols
    ensures k in EncodeFrom(encoders, rows, cols).value.0
    ensures EncodeFrom(encoders, rows, cols).value.0[k] == encoders[k]
    decreases |cols|
  {
    if cols != [] {
      var (classes, x) := EncodeColumn(rows, cols[0]).value;
      EncodeFromKeeps(encoders[cols[0] := classes], x, cols[1..], k);
    }
  }

  lemma CodedTransfer(rows: seq<Row>, x: seq<Row>, y: seq<Row>, classes: seq<string>, col: string)
    requires SameColumn(rows, x, col) && Coded(x, y, classes, col)
    ensures Coded(rows, y, classes, col)
  {
  }

  lemma CodedKept(rows: seq<Row>, x: seq<Row>, y: seq<Row>, classes: seq<string>, col: string)
    requires Coded(rows, x, classes, col) && SameColumn(x, y, col)
    ensures Coded(rows, y, classes, col)
  {
  }

  /**
   * After the loop over distinct columns every one of them has an encoder
   * fitted on its original text, and its cells are codes that decode to
   * that text.
   */
  lemma {:induction false} EncodeFromCoded(encoders: Encoders, rows: seq<Row>, cols: seq<string>, c: string)
    requires Distinct(cols) && EncodeFrom(encoders, rows, cols).Success? && c in cols
    ensures c in EncodeFrom(encoders, rows, cols).value.0
    ensures Coded(rows, EncodeFrom(encoders, rows, cols).value.1, EncodeFrom(encoders, rows, cols).value.0[c], c)
    ensures Texts(Column(rows, c)).Some?
    ensures EncodeFrom(encoders, rows, cols).value.0[c] == Fit(Texts(Column(rows, c)).value)
    decreases |cols|
  {
    var col, rest := cols[0], cols[1..];
    DistinctTail(cols);
    var step := EncodeColumn(rows, col).value;
    var classes, x := step.0, step.1;
    var out := EncodeFrom(encoders, rows, cols).value;
    assert EncodeFrom(encoders[col := classes], x, rest).value == out;
    if c == col {
      EncodeFromKeeps(encoders[col := classes], x, rest, col);
      EncodeFromUntouched(encoders[col := classes], x, rest, col);
      CodedKept(rows, x, out.1, classes, col);
    } else {
      assert c in rest;
      EncodeFromCoded(encoders[col := classes], x, rest, c);
      SameColumnCells(rows, x, c);
      CodedTransfer(rows, x, out.1, out.0[c], c);
    }
  }

  /**
   * The k-means fit with `k` clusters and its silhouette score, or the
   * exception fitting or scoring raises: k-means raises when there are
   * fewer rows than clusters, the score unless the labels number between
   * 2 and one less than the rows.
   */
  function Scored<E, Km>(emb: E, seed: int, fitKMeans: (E, int, int) -> Result<Km, Raised>,
                         silhouette: (E, Km) -> Result<real, Raised>, k: int): Result<(Km, real), Raised>
  {
    match fitKMeans(emb, k, seed)
    case Failure(e) => Failure(e)
    case Success(km) =>
      match silhouette(emb, km)
      case Failure(e) => Failure(e)
      case Success(score) => Success((km, score))
  }

  /** The best candidate after trying every k in [4, hi), or the first exception a fit or score raises. */
  function Scan<E, Km>(emb: E, seed: int, fitKMeans: (E, int, int) -> Result<Km, Raised>,
                       silhouette: (E, Km) -> Result<real, Raised>, hi: int): Result<Choice<Km>, Raised>
    requires hi >= 4
    decreases hi
  {
    if hi == 4 then Success(Choice(-1.0, None, None))
    else
      match Scan(emb, seed, fitKMeans, silhouette, hi - 1)
      case Failure(e) => Failure(e)
      case Success(best) =>
        match Scored(emb, seed, fitKMeans, silhouette, hi - 1)
        case Failure(e) => Failure(e)
        case Success((km, score)) =>
          Success(if score > best.score then Choice(score, Some(hi - 1), Some(km)) else best)
  }

  /** Once the search has raised, trying further k changes nothing: the exception propagates. */
  lemma {:induction false} ScanFailureStays<E, Km>(emb: E, seed: int, fitKMeans: (E, int, int) -> Result<Km, Raised>,
                                                   silhouette: (E, Km) -> Result<real, Raised>, lo: int, hi: int)
    requires 4 <= lo <= hi && Scan(emb, seed, fitKMeans, silhouette, lo).Failure?
    ensures Scan(emb, seed, fitKMeans, silhouette, hi) == Scan(emb, seed, fitKMeans, silhouette, lo)
    decreases hi
  {
    if hi > lo {
      ScanFailureStays(emb, seed, fitKMeans, silhouette, lo, hi - 1);
    }
  }

  /**
   * The search for k: tries 4 and 5 and keeps a candidate only on a
   * strictly higher score; an exception of a fit or a score ends it.
   */
  method SelectK<E, Km>(emb: E, seed: int, fitKMeans: (E, int, int) -> Result<Km, Raised>,
                        silhouette: (E, Km) -> Result<real, Raised>)
    returns (r: Result<Choice<Km>, Raised>)
    ensures r == Scan(emb, seed, fitKMeans, silhouette, 6)
  {
    var bestScore, bestK, bestKm := -1.0, None, None;
    for k := 4 to 6
      invariant Scan(emb, seed, fitKMeans, silhouette, k) == Success(Choice(bestScore, bestK, bestKm))
    {
      var fitted := fitKMeans(emb, k, seed);
      if fitted.Failure? {
        ScanFailureStays(emb, seed, fitKMeans, silhouette, k + 1, 6);
        return Failure(fitted.error);
      }
      var km := fitted.value;
      var scored := silhouette(emb, km);
      if scored.Failure? {
        ScanFailureStays(emb, seed, fitKMeans, silhouette, k + 1, 6);
        return Failure(scored.error);
      }
      var score := scored.value;
      if score > bestScore {
        bestScore, bestK, bestKm := score, Some(k), Some(km);
      }
    }
    return Success(Choice(bestScore, bestK, bestKm));
  }

  /**
   * The search raises exactly when fitting or scoring k = 4 or k = 5
   * raises, and then with k = 4's exception if that one raised.
   */
  lemma ScanOutcome<E, Km>(emb: E, seed: int, fitKMeans: (E, int, int) -> Result<Km, Raised>,
                           silhouette: (E, Km) -> Result<real, Raised>)
    ensures Scan(emb, seed, fitKMeans, silhouette, 6).Success? <==>
      Scored(emb, seed, fitKMeans, silhouette, 4).Success? && Scored(emb, seed, fitKMeans, silhouette, 5).Success?
    ensures Scored(emb, seed, fitKMeans, silhouette, 4).Failure? ==>
      Scan(emb, seed, fitKMeans, silhouette, 6) == Failure(Scored(emb, seed, fitKMeans, silhouette, 4).error)
    ensures Scored(emb, seed, fitKMeans, silhouette, 4).Success? && Scored(emb, seed, fitKMeans, silhouette, 5).Failure? ==>
      Scan(emb, seed, fitKMeans, silhouette, 6) == Failure(Scored(emb, seed, fitKMeans, silhouette, 5).error)
  {
  }

  /**
   * The selection rule, when both fits and scores succeed: k = 5 wins only
   * on a score strictly above both -1 and k = 4's, so a tie keeps 4; no k
   * is kept when neither beats -1; the kept score is the largest of -1
   * and the two scores, and the kept model is the one fitted with the
   * kept k.
   */
  lemma SelectionRule<E, Km>(emb: E, seed: int, fitKMeans: (E, int, int) -> Result<Km, Raised>,
                             silhouette: (E, Km) -> Result<real, Raised>)
    requires Scored(emb, seed, fitKMeans, silhouette, 4).Success? && Scored(emb, seed, fitKMeans, silhouette, 5).Success?
    ensures Scan(emb, seed, fitKMeans, silhouette, 6).Success?
    ensures var s4 := Scored(emb, seed, fitKMeans, silhouette, 4).value.1;
      var s5 := Scored(emb, seed, fitKMeans, silhouette, 5).value.1;
      var c := Scan(emb, seed, fitKMeans, silhouette, 6).value;
      && (c.k == Some(5) <==> s5 > s4 && s5 > -1.0)
      && (c.k == Some(4) <==> s4 > -1.0 && s5 <= s4)
      && (c.k == None <==> s4 <= -1.0 && s5 <= -1.0)
      && c.score == Max(-1.0, Max(s4, s5))
      && (c.k.Some? ==> c.km == Some(fitKMeans(emb, c.k.value, seed).value))
      && (c.k.None? ==> c.km.None?)
  {
  }

  function Max(a: real, b: real): real { if a < b then b else a }

  /** The whole of `train_cluster` with the learners as parameters. */
  function Train<Net, E, Km>(f: Frame, seed: int,
                             pretrain: (Matrix, int) -> Result<Net, Raised>, embed: (Net, Matrix) -> E,
                             fitKMeans: (E, int, int) -> Result<Km, Raised>,
                             silhouette: (E, Km) -> Result<real, Raised>): Result<Bundle<Net, Km>, Raised>
  {
    match Prepared(f, NumVars, CatVars)
    case Failure(e) => Failure(e)
    case Success((encoders, m)) =>
      match pretrain(m, seed)
      case Failure(e) => Failure(e)
      case Success(net) =>
        match Scan(embed(net, m), seed, fitKMeans, silhouette, 6)
        case Failure(e) => Failure(e)
        case Success(c) => Success(Bundle(encoders, net, c.km, NumVars, CatVars, c.k, c.score))
  }

  /**
   * `train_cluster(df, n_clusters, random_state)`. The requested number of
   * clusters takes no part: the result is the same for every `nClusters`.
   */
  method TrainCluster<Net, E, Km>(f: Frame, nClusters: int, seed: int,
                                  pretrain: (Matrix, int) -> Result<Net, Raised>, embed: (Net, Matrix) -> E,
                                  fitKMeans: (E, int, int) -> Result<Km, Raised>,
                                  silhouette: (E, Km) -> Result<real, Raised>)
    returns (r: Result<Bundle<Net, Km>, Raised>)
    ensures r == Train(f, seed, pretrain, embed, fitKMeans, silhouette)
  {
    var selected := Select(f, NumVars + CatVars);
    if selected.Failure? {
      return Failure(KeyError(selected.error));
    }
    var encoded := EncodeCategories(selected.value.rows);
    if encoded.Failure? {
      return Failure(encoded.error);
    }
    var (encoders, coded) := encoded.value;
    var matrix := TrainingMatrix(coded, NumVars + CatVars);
    if matrix.Failure? {
      return Failure(matrix.error);
    }
    var net := pretrain(matrix.value, seed);
    if net.Failure? {
      return Failure(net.error);
    }
    var embeddings := embed(net.value, matrix.value);
    var chosen := SelectK(embeddings, seed, fitKMeans, silhouette);
    if chosen.Failure? {
      return Failure(chosen.error);
    }
    var c := chosen.value;
    return Success(Bundle(encoders, net.value, c.km, NumVars, CatVars, c.k, c.score));
  }

  /**
   * Pretraining on `m` raises nothing, nor do the k-means fits and
   * silhouette scores for k = 4 and 5 on the network's embeddings.
   */
  predicate LearnersSucceed<Net, E, Km>(m: Matrix, seed: int,
                                        pretrain: (Matrix, int) -> Result<Net, Raised>, embed: (Net, Matrix) -> E,
                                        fitKMeans: (E, int, int) -> Result<Km, Raised>,
                                        silhouette: (E, Km) -> Result<real, Raised>)
  {
    && pretrain(m, seed).Success?
    && Scored(embed(pretrain(m, seed).value, m), seed, fitKMeans, silhouette, 4).Success?
    && Scored(embed(pretrain(m, seed).value, m), seed, fitKMeans, silhouette, 5).Success?
  }

  /**
   * Training succeeds exactly when the preparation succeeds and the
   * learners raise nothing on the prepared matrix; the preparation
   * succeeds exactly when every model column is present, every
   * categorical cell is text and no numeric cell is text.
   */
  lemma TrainOutcome<Net, E, Km>(f: Frame, seed: int,
                                 pretrain: (Matrix, int) -> Result<Net, Raised>, embed: (Net, Matrix) -> E,
                                 fitKMeans: (E, int, int) -> Result<Km, Raised>,
                                 silhouette: (E, Km) -> Result<real, Raised>)
    ensures Train(f, seed, pretrain, embed, fitKMeans, silhouette).Success? <==>
      && Prepared(f, NumVars, CatVars).Success?
      && LearnersSucceed(Prepared(f, NumVars, CatVars).value.1, seed, pretrain, embed, fitKMeans, silhouette)
    ensures Prepared(f, NumVars, CatVars).Success? <==>
      && (forall c :: c in NumVars + CatVars ==> c in f.columns)
      && (forall c :: c in CatVars ==> AllText(f.rows, c))
      && (forall c :: c in NumVars ==> NoText(f.rows, c))
  {
    ModelColumnsDistinct();
    PreparedOutcome(f, NumVars, CatVars);
    var p := Prepared(f, NumVars, CatVars);
    if p.Success? && pretrain(p.value.1, seed).Success? {
      ScanOutcome(embed(pretrain(p.value.1, seed).value, p.value.1), seed, fitKMeans, silhouette);
    }
  }

  /** The table preparation before the networks: selection, encoding and the cast. */
  function Prepared(f: Frame, nums: seq<string>, cats: seq<string>): Result<(Encoders, Matrix), Raised> {
    match Select(f, nums + cats)
    case Failure(missing) => Failure(KeyError(missing))
    case Success(x) =>
      match EncodeFrom(map[], x.rows, cats)
      case Failure(e) => Failure(e)
      case Success((encoders, coded)) =>
        match TrainingMatrix(coded, nums + cats)
        case Failure(e) => Failure(e)
        case Success(m) => Success((encoders, m))
  }

  lemma PreparedOutcome(f: Frame, nums: seq<string>, cats: seq<string>)
    requires Distinct(nums + cats)
    ensures Prepared(f, nums, cats).Success? <==>
      && (forall c :: c in nums + cats ==> c in f.columns)
      && (forall c :: c in cats ==> AllText(f.rows, c))
      && (forall c :: c in nums ==> NoText(f.rows, c))
  {
    var cols := nums + cats;
    DistinctParts(nums, cats);
    var sel := Select(f, cols);
    if sel.Success? {
      var rows := sel.value.rows;
      EncodeFromOutcome(map[], rows, cats);
      forall c | c in cols ensures SameColumn(f.rows, rows, c) { }
      forall c | c in cats ensures AllText(rows, c) <==> AllText(f.rows, c) {
        SameColumnCells(f.rows, rows, c);
      }
      var enc := EncodeFrom(map[], rows, cats);
      if enc.Success? {
        var coded := enc.value.1;
        forall c | c in nums ensures SameColumn(f.rows, coded, c) {
          EncodeFromUntouched(map[], rows, cats, c);
          SameColumnTransitive(f.rows, rows, coded, c);
        }
        forall c | c in cats ensures NoText(coded, c) {
          EncodeFromCoded(map[], rows, cats, c);
        }
        TrainingMatrixOutcome(f.rows, coded, nums, cats);
      }
    } else {
      var c :| c in cols && c !in f.columns;
    }
  }

  lemma DistinctParts(nums: seq<string>, cats: seq<string>)
    requires Distinct(nums + cats)
    ensures Distinct(cats)
    ensures forall c :: c in cats ==> c !in nums
  {
    var cols := nums + cats;
    forall i, j | 0 <= i < j < |cats| ensures cats[i] != cats[j] {
      assert cats[i] == cols[|nums| + i] && cats[j] == cols[|nums| + j];
    }
    forall c | c in cats ensures c !in nums {
      var j :| 0 <= j < |cats| && cats[j] == c;
      assert cols[|nums| + j] == c;
      forall i | 0 <= i < |nums| ensures nums[i] != c { assert cols[i] == nums[i]; }
    }
  }

  /** The cast of the encoded table fails exactly when a numeric cell of the input is text. */
  lemma TrainingMatrixOutcome(rows: seq<Row>, coded: seq<Row>, nums: seq<string>, cats: seq<string>)
    requires forall c :: c in nums ==> SameColumn(rows, coded, c)
    requires forall c :: c in cats ==> NoText(coded, c)
    ensures TrainingMatrix(coded, nums + cats).Success? <==> forall c :: c in nums ==> NoText(rows, c)
  {
    var cols := nums + cats;
    if TrainingMatrix(coded, cols).Success? {
      forall c | c in nums ensures NoText(rows, c) {
        forall i | 0 <= i < |rows| ensures !Cell(rows[i], c).Str? {
          var j :| 0 <= j < |nums| && nums[j] == c;
          assert cols[j] == c;
          assert TrainingVector(coded[i], cols).Success?;
        }
      }
    }
    if forall c :: c in nums ==> NoText(rows, c) {
      forall i | 0 <= i < |coded| ensures TrainingVector(coded[i], cols).Success? {
        forall j | 0 <= j < |cols| ensures !Cell(coded[i], cols[j]).Str? {
          if j < |nums| {
            assert cols[j] == nums[j] && nums[j] in nums;
          } else {
            assert cols[j] == cats[j - |nums|] && cols[j] in cats;
          }
        }
      }
    }
  }

  /**
   * A trained bundle holds one encoder per categorical column, fitted on
   * that column of the input, the model column lists, and a k among 4
   * and 5 or none.
   */
  lemma TrainedBundle<Net, E, Km>(f: Frame, seed: int,
                                  pretrain: (Matrix, int) -> Result<Net, Raised>, embed: (Net, Matrix) -> E,
                                  fitKMeans: (E, int, int) -> Result<Km, Raised>,
                                  silhouette: (E, Km) -> Result<real, Raised>)
    requires Train(f, seed, pretrain, embed, fitKMeans, silhouette).Success?
    ensures var b := Train(f, seed, pretrain, embed, fitKMeans, silhouette).value;
      && b.numVars == NumVars && b.catVars == CatVars
      && (forall c :: c in b.encoders <==> c in CatVars)
      && (forall c :: c in CatVars ==> AllText(f.rows, c) && b.encoders[c] == Fit(Texts(Column(f.rows, c)).value))
      && (b.bestK == None || b.bestK == Some(4) || b.bestK == Some(5))
  {
    ModelColumnsDistinct();
    PreparedEncoders(f, NumVars, CatVars);
    var m := Prepared(f, NumVars, CatVars).value.1;
    var emb := embed(pretrain(m, seed).value, m);
    ScanOutcome(emb, seed, fitKMeans, silhouette);
    SelectionRule(emb, seed, fitKMeans, silhouette);
  }

  lemma PreparedEncoders(f: Frame, nums: seq<string>, cats: seq<string>)
    requires Distinct(nums + cats) && Prepared(f, nums, cats).Success?
    ensures var encoders := Prepared(f, nums, cats).value.0;
      && (forall c :: c in encoders <==> c in cats)
      && (forall c :: c in cats ==> AllText(f.rows, c) && encoders[c] == Fit(Texts(Column(f.rows, c)).value))
  {
    DistinctParts(nums, cats);
    var rows := Select(f, nums + cats).value.rows;
    var encoders := EncodeFrom(map[], rows, cats).value.0;
    EncodeFromKeys(map[], rows, cats);
    forall c | c in cats ensures AllText(f.rows, c) && encoders[c] == Fit(Texts(Column(f.rows, c)).value) {
      EncodeFromCoded(map[], rows, cats, c);
      assert SameColumn(f.rows, rows, c);
      SameColumnCells(f.rows, rows, c);
    }
  }
}
