/**
 * `profile_segments`: groups the labelled table by `cluster` (a group for
 * missing labels included) and, per group, takes the mean of each numeric
 * model column rounded to two decimals and the most frequent value of each
 * categorical model column.
 */
module Profiling {
  import opened Wrappers
  import opened Ordering
  import opened Frames
  import opened Features
  import opened Stats
  import Seqs

  /** One row of the profile: the group's label (none for the missing-label group), its means and modes. */
  datatype Segment = Segment(cluster: Option<int>, means: seq<Option<real>>, modes: seq<string>)

  /** The group a row falls in. */
  function LabelOf(row: Row): Option<int> {
    match Cell(row, "cluster")
    case Int(i) => Some(i)
    case _ => None
  }

  /** Group order: integer labels ascending, the missing label last. */
  predicate KeyLt(a: Option<int>, b: Option<int>) {
    a.Some? && (b.None? || a.value < b.value)
  }

  /** Some row carries label `k`. */
  predicate Occurs(rows: seq<Row>, k: Option<int>) {
    exists n :: 0 <= n < |rows| && LabelOf(rows[n]) == k
  }

  /** The integer labels in row order. */
  function IntLabels(rows: seq<Row>): (r: seq<int>)
    ensures forall x :: x in r <==> Occurs(rows, Some(x))
  {
    if rows == [] then []
    else
      var rest := IntLabels(rows[1..]);
      assert forall x :: Occurs(rows, Some(x)) <==> LabelOf(rows[0]) == Some(x) || Occurs(rows[1..], Some(x)) by {
        forall x | Occurs(rows, Some(x)) && LabelOf(rows[0]) != Some(x) ensures Occurs(rows[1..], Some(x)) {
          var n :| 0 <= n < |rows| && LabelOf(rows[n]) == Some(x);
          assert rows[1..][n - 1] == rows[n];
        }
        forall x | Occurs(rows[1..], Some(x)) ensures Occurs(rows, Some(x)) {
          var n :| 0 <= n < |rows[1..]| && LabelOf(rows[1..][n]) == Some(x);
          assert rows[n + 1] == rows[1..][n];
        }
      }
      match LabelOf(rows[0])
      case Some(x) => [x] + rest
      case None => rest
  }

  /** `groupby("cluster", dropna=False)`'s keys: each label once, ascending, the missing label last. */
  function GroupKeys(rows: seq<Row>): (keys: seq<Option<int>>)
    ensures forall k :: k in keys <==> Occurs(rows, k)
    ensures forall i, j :: 0 <= i < j < |keys| ==> KeyLt(keys[i], keys[j])
  {
    IntLtIsStrictTotalOrder();
    SortedUniqueCorrect(IntLt, IntLabels(rows));
    var ints := SortedUnique(IntLt, IntLabels(rows));
    var labelled := seq(|ints|, i requires 0 <= i < |ints| => Some(ints[i]));
    assert forall k :: k in labelled <==> k.Some? && k.value in ints by {
      forall k: Option<int> | k.Some? && k.value in ints ensures k in labelled {
        var i :| 0 <= i < |ints| && ints[i] == k.value;
        assert labelled[i] == k;
      }
    }
    if Occurs(rows, None) then labelled + [None] else labelled
  }

  /** The rows of one group, in table order. */
  function Group(rows: seq<Row>, key: Option<int>): (g: seq<Row>)
    ensures forall row :: row in g <==> row in rows && LabelOf(row) == key
  {
    Seqs.FilterMembership(rows, row => LabelOf(row) == key);
    Seqs.Filter(rows, row => LabelOf(row) == key)
  }

  /** A group keeps its rows in table order, every copy of each. */
  lemma GroupKeepsCopies(rows: seq<Row>, key: Option<int>)
    ensures Seqs.IsSubsequence(Group(rows, key), rows)
    ensures forall row :: multiset(Group(rows, key))[row] == if LabelOf(row) == key then multiset(rows)[row] else 0
  {
    Seqs.FilterIsSubsequence(rows, row => LabelOf(row) == key);
    Seqs.FilterMultiset(rows, row => LabelOf(row) == key);
  }

  /** The text cells of a column, missing cells dropped, in row order. */
  function TextsOf(rows: seq<Row>, col: string): (r: seq<string>)
    ensures forall s :: s in r <==> exists n :: 0 <= n < |rows| && Cell(rows[n], col) == Str(s)
    ensures (forall n :: 0 <= n < |rows| ==> Cell(rows[n], col).Null?) ==> r == []
  {
    if rows == [] then []
    else
      var rest := TextsOf(rows[1..], col);
      assert forall s :: (exists n :: 0 <= n < |rows| && Cell(rows[n], col) == Str(s))
                     <==> Cell(rows[0], col) == Str(s) || exists n :: 0 <= n < |rows[1..]| && Cell(rows[1..][n], col) == Str(s) by {
        forall s | exists n :: 0 <= n < |rows| && Cell(rows[n], col) == Str(s)
          ensures Cell(rows[0], col) == Str(s) || exists n :: 0 <= n < |rows[1..]| && Cell(rows[1..][n], col) == Str(s)
        {
          var n :| 0 <= n < |rows| && Cell(rows[n], col) == Str(s);
          if n > 0 { assert rows[1..][n - 1] == rows[n]; }
        }
      }
      match Cell(rows[0], col)
      case Str(s) => [s] + rest
      case _ => rest
  }

  /** A mean rounded to hundredths; none stays none. */
  function RoundedMean(xs: seq<real>): Option<real> {
    match Mean(xs)
    case None => None
    case Some(m) => Some(Round2(m))
  }

  /** The modes of the group's columns, or `IndexError` for a column with no value in the group. */
  function Modes(group: seq<Row>, cols: seq<string>): Result<seq<string>, Raised>
    decreases |cols|
  {
    if cols == [] then Success([])
    else
      var first := Mode(TextsOf(group, cols[0]));
      if first.None? then Failure(IndexError(cols[0]))
      else
        match Modes(group, cols[1..])
        case Failure(e) => Failure(e)
        case Success(rest) => Success([first.value] + rest)
  }

  /**
   * The modes succeed exactly when every column has a value in the group,
   * and then hold, column by column, each column's mode.
   */
  lemma {:induction false} ModesAreColumnModes(group: seq<Row>, cols: seq<string>)
    ensures Modes(group, cols).Success? <==> forall j :: 0 <= j < |cols| ==> TextsOf(group, cols[j]) != []
    ensures Modes(group, cols).Success? ==> |Modes(group, cols).value| == |cols|
    ensures Modes(group, cols).Success? ==>
      forall j :: 0 <= j < |cols| ==> Mode(TextsOf(group, cols[j])) == Some(Modes(group, cols).value[j])
  {
    ModesSucceed(group, cols);
    if Modes(group, cols).Success? {
      ModesValues(group, cols);
    }
  }

  lemma {:induction false} ModesSucceed(group: seq<Row>, cols: seq<string>)
    ensures Modes(group, cols).Success? <==> AllHaveTexts(group, cols)
    decreases |cols|
  {
    if cols != [] {
      ModesSucceed(group, cols[1..]);
      AllHaveTextsCons(group, cols);
    }
  }

  /** Every column of `cols` has a value in the group. */
  predicate AllHaveTexts(group: seq<Row>, cols: seq<string>) {
    forall j :: 0 <= j < |cols| ==> TextsOf(group, cols[j]) != []
  }

  lemma AllHaveTextsCons(group: seq<Row>, cols: seq<string>)
    requires cols != []
    ensures AllHaveTexts(group, cols) <==> TextsOf(group, cols[0]) != [] && AllHaveTexts(group, cols[1..])
  {
    var tail := cols[1..];
    assert forall j :: 1 <= j < |cols| ==> cols[j] == tail[j - 1];
  }

  lemma {:induction false} ModesValues(group: seq<Row>, cols: seq<string>)
    requires Modes(group, cols).Success?
    ensures ColumnModes(group, cols, Modes(group, cols).value)
    decreases |cols|
  {
    if cols != [] {
      ModesValues(group, cols[1..]);
      var ms := Modes(group, cols).value;
      assert ms == [ms[0]] + Modes(group, cols[1..]).value;
      ColumnModesCons(group, cols, ms);
    }
  }

  /** `ms` holds, column by column, the mode of each of `cols` in the group. */
  predicate ColumnModes(group: seq<Row>, cols: seq<string>, ms: seq<string>) {
    |ms| == |cols| && forall j :: 0 <= j < |cols| ==> Mode(TextsOf(group, cols[j])) == Some(ms[j])
  }

  lemma ColumnModesCons(group: seq<Row>, cols: seq<string>, ms: seq<string>)
    requires cols != [] && ms != []
    ensures ColumnModes(group, cols, ms) <==>
      Mode(TextsOf(group, cols[0])) == Some(ms[0]) && ColumnModes(group, cols[1..], ms[1..])
  {
    var tail, rest := cols[1..], ms[1..];
    assert forall j :: 1 <= j < |cols| ==> cols[j] == tail[j - 1];
    assert forall j :: 1 <= j < |ms| ==> ms[j] == rest[j - 1];
  }

  /** The rounded means of the group's columns. */
  function Means(group: seq<Row>, cols: seq<string>): (r: seq<Option<real>>)
    ensures |r| == |cols|
  {
    seq(|cols|, j requires 0 <= j < |cols| => RoundedMean(NumbersOf(group, cols[j])))
  }

  /** The profile row of one group. */
  function Summarize(group: seq<Row>, key: Option<int>, nums: seq<string>, cats: seq<string>): Result<Segment, Raised> {
    match Modes(group, cats)
    case Failure(e) => Failure(e)
    case Success(modes) => Success(Segment(key, Means(group, nums), modes))
  }

  /** The profile rows of the groups with the given keys, in key order. */
  function Summaries(rows: seq<Row>, keys: seq<Option<int>>, nums: seq<string>, cats: seq<string>): Result<seq<Segment>, Raised>
    decreases |keys|
  {
    if keys == [] then Success([])
    else
      match Summarize(Group(rows, keys[0]), keys[0], nums, cats)
      case Failure(e) => Failure(e)
      case Success(s) =>
        match Summaries(rows, keys[1..], nums, cats)
        case Failure(e) => Failure(e)
        case Success(rest) => Success([s] + rest)
  }

  /**
   * The summaries succeed exactly when every group summarises, and then
   * hold one row per key, in key order.
   */
  lemma SummariesAreSegments(rows: seq<Row>, keys: seq<Option<int>>, nums: seq<string>, cats: seq<string>)
    ensures Summaries(rows, keys, nums, cats).Success? <==>
      forall i :: 0 <= i < |keys| ==> Summarize(Group(rows, keys[i]), keys[i], nums, cats).Success?
    ensures Summaries(rows, keys, nums, cats).Success? ==> |Summaries(rows, keys, nums, cats).value| == |keys|
    ensures Summaries(rows, keys, nums, cats).Success? ==>
      forall i :: 0 <= i < |keys| ==> Summarize(Group(rows, keys[i]), keys[i], nums, cats) == Success(Summaries(rows, keys, nums, cats).value[i])
  {
    SummariesSucceed(rows, keys, nums, cats);
    if Summaries(rows, keys, nums, cats).Success? {
      SummariesValues(rows, keys, nums, cats);
    }
  }

  lemma {:induction false} SummariesSucceed(rows: seq<Row>, keys: seq<Option<int>>, nums: seq<string>, cats: seq<string>)
    ensures Summaries(rows, keys, nums, cats).Success? <==> AllSummarize(rows, keys, nums, cats)
    decreases |keys|
  {
    if keys != [] {
      SummariesSucceed(rows, keys[1..], nums, cats);
      AllSummarizeCons(rows, keys, nums, cats);
    }
  }

  /** Every group with one of `keys` can be summarised. */
  predicate AllSummarize(rows: seq<Row>, keys: seq<Option<int>>, nums: seq<string>, cats: seq<string>) {
    forall i :: 0 <= i < |keys| ==> Summarize(Group(rows, keys[i]), keys[i], nums, cats).Success?
  }

  lemma AllSummarizeCons(rows: seq<Row>, keys: seq<Option<int>>, nums: seq<string>, cats: seq<string>)
    requires keys != []
    ensures AllSummarize(rows, keys, nums, cats) <==>
      Summarize(Group(rows, keys[0]), keys[0], nums, cats).Success? && AllSummarize(rows, keys[1..], nums, cats)
  {
    var tail := keys[1..];
    assert forall i :: 1 <= i < |keys| ==> keys[i] == tail[i - 1];
  }

  lemma {:induction false} SummariesValues(rows: seq<Row>, keys: seq<Option<int>>, nums: seq<string>, cats: seq<string>)
    requires Summaries(rows, keys, nums, cats).Success?
    ensures |Summaries(rows, keys, nums, cats).value| == |keys|
    ensures forall i :: 0 <= i < |keys| ==>
      Summarize(Group(rows, keys[i]), keys[i], nums, cats) == Success(Summaries(rows, keys, nums, cats).value[i])
    decreases |keys|
  {
    if keys != [] {
      var tail := keys[1..];
      SummariesValues(rows, tail, nums, cats);
      var r := Summaries(rows, keys, nums, cats).value;
      assert r[1..] == Summaries(rows, tail, nums, cats).value;
      forall i | 0 <= i < |keys| ensures Summarize(Group(rows, keys[i]), keys[i], nums, cats) == Success(r[i]) {
        if i > 0 { assert r[i] == r[1..][i - 1] && keys[i] == tail[i - 1]; }
      }
    }
  }

  /** The first of `cols` holding a cell that `ok` rejects. */
  function FirstBadColumn(rows: seq<Row>, cols: seq<string>, ok: Value -> bool): (r: Option<string>)
    ensures r.None? <==> forall c, n :: c in cols && 0 <= n < |rows| ==> ok(Cell(rows[n], c))
    ensures r.Some? ==> r.value in cols
  {
    if cols == [] then None
    else if forall n :: 0 <= n < |rows| ==> ok(Cell(rows[n], cols[0])) then
      assert forall c :: c in cols <==> c == cols[0] || c in cols[1..];
      FirstBadColumn(rows, cols[1..], ok)
    else
      assert cols[0] in cols;
      Some(cols[0])
  }

  /** A label pandas can group here: an integer or missing. */
  predicate IsLabel(v: Value) { v.Int? || v.Null? }

  /** A cell `mean` accepts: a number or missing. */
  predicate IsNumeric(v: Value) { !v.Str? }

  /** A categorical cell: text or missing. */
  predicate IsCategory(v: Value) { v.Str? || v.Null? }

  /**
   * `profile_segments(df)`: `KeyError` for absent columns, `TypeError`
   * for text in a numeric column, `IndexError` for a group whose
   * categorical column has no value; otherwise one row per group.
   */
  function ProfileSegments(f: Frame): Result<seq<Segment>, Raised> {
    Profile(f, NumVars, CatVars)
  }

  /** The profile over the numeric columns `nums` and the categorical columns `cats`. */
  function Profile(f: Frame, nums: seq<string>, cats: seq<string>): Result<seq<Segment>, Raised> {
    var missing := MissingColumns(f, ["cluster"] + nums + cats);
    if missing != [] then Failure(KeyError(missing))
    else
      match FirstBadColumn(f.rows, ["cluster"], IsLabel)
      case Some(c) => Failure(TypeError(c))
      case None =>
        match FirstBadColumn(f.rows, nums, IsNumeric)
        case Some(c) => Failure(TypeError(c))
        case None =>
          match FirstBadColumn(f.rows, cats, IsCategory)
          case Some(c) => Failure(TypeError(c))
          case None => Summaries(f.rows, GroupKeys(f.rows), nums, cats)
  }

  /** A successful profile is the summaries of the groups, in key order. */
  lemma ProfileIsSummaries(f: Frame, nums: seq<string>, cats: seq<string>)
    requires Profile(f, nums, cats).Success?
    ensures Profile(f, nums, cats) == Summaries(f.rows, GroupKeys(f.rows), nums, cats)
  {
  }

  /**
   * The profile has one row per distinct label of the table, integer
   * labels ascending and the missing label last.
   */
  lemma ProfileGroups(f: Frame)
    requires ProfileSegments(f).Success?
    ensures var r := ProfileSegments(f).value;
      && (forall i, j :: 0 <= i < j < |r| ==> KeyLt(r[i].cluster, r[j].cluster))
      && (forall k :: (exists i :: 0 <= i < |r| && r[i].cluster == k) <==> Occurs(f.rows, k))
  {
    ProfileGroupsOf(f, NumVars, CatVars);
  }

  lemma ProfileGroupsOf(f: Frame, nums: seq<string>, cats: seq<string>)
    requires Profile(f, nums, cats).Success?
    ensures var r := Profile(f, nums, cats).value;
      && (forall i, j :: 0 <= i < j < |r| ==> KeyLt(r[i].cluster, r[j].cluster))
      && (forall k :: (exists i :: 0 <= i < |r| && r[i].cluster == k) <==> Occurs(f.rows, k))
  {
    var keys := GroupKeys(f.rows);
    ProfileIsSummaries(f, nums, cats);
    SummariesValues(f.rows, keys, nums, cats);
    var r := Profile(f, nums, cats).value;
    forall i | 0 <= i < |r| ensures r[i].cluster == keys[i] {
      assert Summarize(Group(f.rows, keys[i]), keys[i], nums, cats) == Success(r[i]);
    }
    forall k | Occurs(f.rows, k) ensures exists i :: 0 <= i < |r| && r[i].cluster == k {
      var i :| 0 <= i < |keys| && keys[i] == k;
      assert r[i].cluster == k;
    }
  }

  /**
   * Each numeric entry of a profile row is the group's mean rounded to
   * hundredths; hence none exactly when the group has no value in that
   * column, and otherwise within half a hundredth of the range of the
   * group's values.
   */
  lemma ProfileMeans(f: Frame, i: int, j: int)
    requires ProfileSegments(f).Success?
    requires 0 <= i < |ProfileSegments(f).value| && 0 <= j < |NumVars|
    ensures var s := ProfileSegments(f).value[i];
      var xs := NumbersOf(Group(f.rows, s.cluster), NumVars[j]);
      && |s.means| == |NumVars|
      && s.means[j] == RoundedMean(xs)
      && (s.means[j].None? <==> xs == [])
      && (s.means[j].Some? ==> Min(xs) - 0.005 <= s.means[j].value <= Max(xs) + 0.005)
  {
    ProfileMeansOf(f, NumVars, CatVars, i, j);
  }

  lemma ProfileMeansOf(f: Frame, nums: seq<string>, cats: seq<string>, i: int, j: int)
    requires Profile(f, nums, cats).Success?
    requires 0 <= i < |Profile(f, nums, cats).value| && 0 <= j < |nums|
    ensures var s := Profile(f, nums, cats).value[i];
      var xs := NumbersOf(Group(f.rows, s.cluster), nums[j]);
      && |s.means| == |nums|
      && s.means[j] == RoundedMean(xs)
      && (s.means[j].None? <==> xs == [])
      && (s.means[j].Some? ==> Min(xs) - 0.005 <= s.means[j].value <= Max(xs) + 0.005)
  {
    var keys := GroupKeys(f.rows);
    ProfileIsSummaries(f, nums, cats);
    SummariesValues(f.rows, keys, nums, cats);
    var s := Profile(f, nums, cats).value[i];
    assert Summarize(Group(f.rows, keys[i]), keys[i], nums, cats) == Success(s);
  }

  /**
   * Each categorical entry of a profile row is a most frequent value of
   * that column in the group, the smallest of those as frequent.
   */
  lemma ProfileModes(f: Frame, i: int, j: int)
    requires ProfileSegments(f).Success?
    requires 0 <= i < |ProfileSegments(f).value| && 0 <= j < |CatVars|
    ensures var s := ProfileSegments(f).value[i];
      var ts := TextsOf(Group(f.rows, s.cluster), CatVars[j]);
      && |s.modes| == |CatVars|
      && s.modes[j] in ts
      && (forall v :: v in ts ==> Count(ts, v) <= Count(ts, s.modes[j]))
      && (forall v :: v in ts && v != s.modes[j] && Count(ts, v) == Count(ts, s.modes[j]) ==> StrLt(s.modes[j], v))
  {
    ProfileModesOf(f, NumVars, CatVars, i, j);
  }

  lemma ProfileModesOf(f: Frame, nums: seq<string>, cats: seq<string>, i: int, j: int)
    requires Profile(f, nums, cats).Success?
    requires 0 <= i < |Profile(f, nums, cats).value| && 0 <= j < |cats|
    ensures var s := Profile(f, nums, cats).value[i];
      var ts := TextsOf(Group(f.rows, s.cluster), cats[j]);
      && |s.modes| == |cats|
      && Mode(ts) == Some(s.modes[j])
  {
    var keys := GroupKeys(f.rows);
    ProfileIsSummaries(f, nums, cats);
    SummariesValues(f.rows, keys, nums, cats);
    var s := Profile(f, nums, cats).value[i];
    assert Summarize(Group(f.rows, keys[i]), keys[i], nums, cats) == Success(s);
    ModesAreColumnModes(Group(f.rows, keys[i]), cats);
  }

  /** A group whose categorical column is entirely missing makes the profile raise. */
  lemma ProfileNeedsCategories(f: Frame, n: int, c: string)
    requires 0 <= n < |f.rows| && c in CatVars
    requires forall m :: 0 <= m < |f.rows| && LabelOf(f.rows[m]) == LabelOf(f.rows[n]) ==> Cell(f.rows[m], c).Null?
    ensures ProfileSegments(f).Failure?
  {
    var k := LabelOf(f.rows[n]);
    GroupColumnEmpty(f.rows, k, c);
    EmptyCategoryFails(Group(f.rows, k), k, NumVars, CatVars, c);
    GroupFailureFails(f, NumVars, CatVars, k);
  }

  /** A group with no value in a categorical column cannot be summarised. */
  lemma EmptyCategoryFails(g: seq<Row>, k: Option<int>, nums: seq<string>, cats: seq<string>, c: string)
    requires c in cats && TextsOf(g, c) == []
    ensures Summarize(g, k, nums, cats).Failure?
  {
    var j :| 0 <= j < |cats| && cats[j] == c;
    ModesAreColumnModes(g, cats);
  }

  /** A group of the table that cannot be summarised makes the whole profile fail. */
  lemma GroupFailureFails(f: Frame, nums: seq<string>, cats: seq<string>, k: Option<int>)
    requires Occurs(f.rows, k) && Summarize(Group(f.rows, k), k, nums, cats).Failure?
    ensures Profile(f, nums, cats).Failure?
  {
    var keys := GroupKeys(f.rows);
    var i :| 0 <= i < |keys| && keys[i] == k;
    SummariesSucceed(f.rows, keys, nums, cats);
    assert Summaries(f.rows, keys, nums, cats).Failure?;
    if Profile(f, nums, cats).Success? {
      ProfileIsSummaries(f, nums, cats);
    }
  }

  /** A column missing in every row of a label has no value in that label's group. */
  lemma GroupColumnEmpty(rows: seq<Row>, k: Option<int>, c: string)
    requires forall m :: 0 <= m < |rows| && LabelOf(rows[m]) == k ==> Cell(rows[m], c).Null?
    ensures TextsOf(Group(rows, k), c) == []
  {
    var g := Group(rows, k);
    forall m | 0 <= m < |g| ensures Cell(g[m], c).Null? {
      assert g[m] in g;
      var p :| 0 <= p < |rows| && rows[p] == g[m];
    }
  }

  /** A table without rows profiles to no rows. */
  lemma ProfileOfEmpty(f: Frame)
    requires f.rows == [] && forall c :: c in ["cluster"] + NumVars + CatVars ==> c in f.columns
    ensures ProfileSegments(f) == Success([])
  {
    ProfileOfEmptyOf(f, NumVars, CatVars);
  }

  lemma ProfileOfEmptyOf(f: Frame, nums: seq<string>, cats: seq<string>)
    requires f.rows == [] && forall c :: c in ["cluster"] + nums + cats ==> c in f.columns
    ensures Profile(f, nums, cats) == Success([])
  {
    assert MissingColumns(f, ["cluster"] + nums + cats) == [];
    assert FirstBadColumn(f.rows, ["cluster"], IsLabel).None?;
    assert FirstBadColumn(f.rows, nums, IsNumeric).None?;
    assert FirstBadColumn(f.rows, cats, IsCategory).None?;
    assert IntLabels(f.rows) == [];
    assert !Occurs(f.rows, None);
    assert GroupKeys(f.rows) == [];
  }
}
