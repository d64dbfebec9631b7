/**
 * scikit-learn's `LabelEncoder` as the pipeline uses it on a categorical
 * column: `fit` keeps the distinct values in ascending order, `transform`
 * replaces each value by its position among them and refuses a value it
 * has not seen, `inverse_transform` reads a position back.
 */
module LabelEncoding {
  import opened Wrappers
  import opened Ordering
  import opened Frames

  /** `fit(values).classes_`: the distinct values, ascending. */
  function Fit(values: seq<string>): (classes: seq<string>)
    ensures StrictlySorted(StrLt, classes)
    ensures forall v :: v in classes <==> v in values
  {
    StrLtIsStrictTotalOrder();
    SortedUniqueCorrect(StrLt, values);
    SortedUnique(StrLt, values)
  }

  /** The code of one value: its position in `classes`, none for a value not among them. */
  function Encode(classes: seq<string>, v: string): (code: Option<nat>)
    ensures code.Some? <==> v in classes
    ensures code.Some? ==> code.value < |classes| && classes[code.value] == v
  {
    if classes == [] then None
    else if classes[0] == v then Some(0)
    else
      match Encode(classes[1..], v)
      case None => None
      case Some(c) => Some(c + 1)
  }

  /** The value of one code, none for a code out of range. */
  function Decode(classes: seq<string>, code: int): (v: Option<string>)
    ensures v.Some? <==> 0 <= code < |classes|
  {
    if 0 <= code < |classes| then Some(classes[code]) else None
  }

  /** Decoding the code of a fitted value gives the value back. */
  lemma DecodeEncode(values: seq<string>, v: string)
    requires v in values
    ensures Encode(Fit(values), v).Some?
    ensures Decode(Fit(values), Encode(Fit(values), v).value) == Some(v)
  {
  }

  /**
   * The codes are exactly 0 .. n-1 for n distinct values: each position's
   * value encodes to that position.
   */
  lemma EncodeDecode(values: seq<string>, code: nat)
    requires code < |Fit(values)|
    ensures Encode(Fit(values), Fit(values)[code]) == Some(code)
  {
    var classes := Fit(values);
    var c := Encode(classes, classes[code]).value;
    StrLtIsStrictTotalOrder();
    StrictlySortedDistinct(StrLt, classes, c, code);
  }

  /** Different values get different codes. */
  lemma EncodeInjective(values: seq<string>, a: string, b: string)
    requires Encode(Fit(values), a).Some? && Encode(Fit(values), a) == Encode(Fit(values), b)
    ensures a == b
  {
  }

  /** Codes follow the order of the values. */
  lemma EncodeMonotone(values: seq<string>, a: string, b: string)
    requires a in values && b in values
    ensures StrLt(a, b) <==> Encode(Fit(values), a).value < Encode(Fit(values), b).value
  {
    var classes := Fit(values);
    var i, j := Encode(classes, a).value, Encode(classes, b).value;
    StrLtIsStrictTotalOrder();
    if j < i {
      assert StrLt(b, a);
      if StrLt(a, b) { StrLtTransitive(a, b, a); StrLtIrreflexive(a); }
    } else if i == j {
      StrLtIrreflexive(a);
    }
  }

  /** A value absent at fit has no code. */
  lemma UnseenNotEncoded(values: seq<string>, v: string)
    requires v !in values
    ensures Encode(Fit(values), v) == None
  {
  }

  /** The text of every cell, or none when some cell is missing or not text. */
  function Texts(cells: seq<Value>): (r: Option<seq<string>>)
    ensures r.Some? <==> forall i :: 0 <= i < |cells| ==> cells[i].Str?
    ensures r.Some? ==> |r.value| == |cells| && forall i :: 0 <= i < |cells| ==> r.value[i] == cells[i].s
  {
    if cells == [] then Some([])
    else if !cells[0].Str? then None
    else
      match Texts(cells[1..])
      case None => None
      case Some(rest) => Some([cells[0].s] + rest)
  }

  /**
   * `transform` of a column: the codes of its cells, or a failure when a
   * cell is missing, not text or not among the classes.
   */
  function TransformColumn(classes: seq<string>, cells: seq<Value>): (r: Option<seq<nat>>)
    ensures r.Some? <==> forall i :: 0 <= i < |cells| ==> cells[i].Str? && cells[i].s in classes
    ensures r.Some? ==> |r.value| == |cells|
    ensures r.Some? ==> forall i :: 0 <= i < |cells| ==> Encode(classes, cells[i].s) == Some(r.value[i])
  {
    if cells == [] then Some([])
    else if !cells[0].Str? then None
    else
      match Encode(classes, cells[0].s)
      case None => None
      case Some(code) =>
        match TransformColumn(classes, cells[1..])
        case None => None
        case Some(rest) => Some([code] + rest)
  }

  /** Transforming the column an encoder was fitted on never fails. */
  lemma TransformFittedColumn(cells: seq<Value>)
    requires Texts(cells).Some?
    ensures TransformColumn(Fit(Texts(cells).value), cells).Some?
  {
    var texts := Texts(cells).value;
    forall i | 0 <= i < |cells| ensures cells[i].s in Fit(texts) {
      assert texts[i] == cells[i].s;
    }
  }
}
