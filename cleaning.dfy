/**
 * `clean_reservations`: the projection of the raw reservation table to the
 * columns the pipeline uses, followed by an ordered chain of row filters —
 * a non-negative fare, strictly positive guests, nights and rooms, and
 * three percentile bands, each computed on the rows that survived the
 * previous filter.
 */
module Cleaning {
  import opened Wrappers
  import opened Frames
  import opened Quantiles
  import Seqs

  /** The 24 columns kept, in this order. */
  const KeepColumns: seq<string> := [
    "ID_Reserva", "Fecha_hoy", "h_num_per", "h_num_adu", "h_num_men",
    "h_num_noc", "h_tot_hab", "ID_Programa", "ID_empresa", "ID_Paquete",
    "ID_Segmento_Comp", "ID_Agencia", "ID_Tipo_Habitacion", "ID_canal",
    "h_fec_lld", "h_fec_reg", "h_fec_sda", "ID_Pais_Origen",
    "Reservacion", "ID_estatus_reservaciones", "h_edo", "h_tfa_total",
    "moneda_cve", "h_ult_cam_fec"
  ]

  /** The columns trimmed to a percentile band, in the order the bands are applied. */
  const BandColumns: seq<string> := ["h_num_per", "h_num_noc", "h_tfa_total"]

  const LowQuantile: real := 0.0005
  const HighQuantile: real := 0.9995

  /** `df["h_tfa_total"] >= 0`; a missing fare compares false. */
  predicate FareOk(row: Row) {
    var v := Num(Cell(row, "h_tfa_total"));
    v.Some? && v.value >= 0.0
  }

  /** `df[col] > 0`; a missing value compares false. */
  predicate IsPositive(row: Row, col: string) {
    var v := Num(Cell(row, col));
    v.Some? && v.value > 0.0
  }

  /** Step 3: the rows with a non-negative fare, in order. */
  function DropNegativeFare(rows: seq<Row>): (r: seq<Row>)
    ensures Seqs.IsSubsequence(r, rows)
    ensures forall row :: row in r <==> row in rows && FareOk(row)
    ensures forall row :: multiset(r)[row] == if FareOk(row) then multiset(rows)[row] else 0
  {
    Seqs.FilterIsSubsequence(rows, FareOk);
    Seqs.FilterMultiset(rows, FareOk);
    Seqs.FilterMembership(rows, FareOk);
    Seqs.Filter(rows, FareOk)
  }

  /** One filter of step 4: the rows whose `col` is strictly positive, in order. */
  function KeepPositive(rows: seq<Row>, col: string): (r: seq<Row>)
    ensures Seqs.IsSubsequence(r, rows)
    ensures forall row :: row in r <==> row in rows && IsPositive(row, col)
    ensures forall row :: multiset(r)[row] == if IsPositive(row, col) then multiset(rows)[row] else 0
  {
    Seqs.FilterIsSubsequence(rows, row => IsPositive(row, col));
    Seqs.FilterMultiset(rows, row => IsPositive(row, col));
    Seqs.FilterMembership(rows, row => IsPositive(row, col));
    Seqs.Filter(rows, row => IsPositive(row, col))
  }

  /** `low <= df[col] <= high`; a missing value or bound (`NaN`) compares false. */
  predicate InBand(row: Row, col: string, low: Option<real>, high: Option<real>) {
    var v := Num(Cell(row, col));
    v.Some? && low.Some? && high.Some? && low.value <= v.value <= high.value
  }

  /** The band of `col` over `rows`: its 0.0005 and 0.9995 quantiles. */
  function LowBound(rows: seq<Row>, col: string): Option<real> {
    Quantile(NumbersOf(rows, col), LowQuantile)
  }

  function HighBound(rows: seq<Row>, col: string): Option<real> {
    Quantile(NumbersOf(rows, col), HighQuantile)
  }

  /** The rows whose `col` lies within `[low, high]`, in order. */
  function KeepWithin(rows: seq<Row>, col: string, low: Option<real>, high: Option<real>): (r: seq<Row>)
    ensures Seqs.IsSubsequence(r, rows)
    ensures forall row :: row in r <==> row in rows && InBand(row, col, low, high)
    ensures forall row :: multiset(r)[row] == if InBand(row, col, low, high) then multiset(rows)[row] else 0
  {
    if rows == [] then []
    else
      var rest := KeepWithin(rows[1..], col, low, high);
      assert forall row :: row in rows <==> row == rows[0] || row in rows[1..];
      assert multiset(rows) == multiset{rows[0]} + multiset(rows[1..]) by {
        assert rows == [rows[0]] + rows[1..];
      }
      if InBand(rows[0], col, low, high) then [rows[0]] + rest
      else
        Seqs.SubsequenceOfTail(rest, rows);
        rest
  }

  /** One band filter of step 5: the rows inside the band computed on `rows` themselves. */
  function BandStep(rows: seq<Row>, col: string): (r: seq<Row>)
    ensures Seqs.IsSubsequence(r, rows)
    ensures forall row :: row in r <==> row in rows && InBand(row, col, LowBound(rows, col), HighBound(rows, col))
    ensures forall row :: multiset(r)[row] == (if InBand(row, col, LowBound(rows, col), HighBound(rows, col)) then multiset(rows)[row] else 0)
  {
    KeepWithin(rows, col, LowBound(rows, col), HighBound(rows, col))
  }

  /** The band filters for `cols`, applied in order. */
  function BandSteps(rows: seq<Row>, cols: seq<string>): seq<Row>
    decreases |cols|
  {
    if cols == [] then rows
    else BandStep(BandSteps(rows, cols[..|cols| - 1]), cols[|cols| - 1])
  }

  /** Steps 3 and 4. */
  function Filtered(rows: seq<Row>): seq<Row> {
    KeepPositive(KeepPositive(KeepPositive(DropNegativeFare(rows), "h_num_per"), "h_num_noc"), "h_tot_hab")
  }

  /**
   * The cleaned table: fails with the missing columns when the input lacks
   * any of the 24, otherwise the projected rows that pass every filter.
   */
  function Clean(f: Frame): Result<Frame, seq<string>> {
    match Select(f, KeepColumns)
    case Failure(missing) => Failure(missing)
    case Success(g) => Success(Frame(KeepColumns, BandSteps(Filtered(g.rows), BandColumns)))
  }

  /** `clean_reservations`: the table is rebound filter by filter, the bands in a loop. */
  method CleanReservations(f: Frame) returns (r: Result<Frame, seq<string>>)
    ensures r == Clean(f)
  {
    var selected := Select(f, KeepColumns);
    if selected.Failure? {
      return Failure(selected.error);
    }
    var rows := selected.value.rows;
    rows := DropNegativeFare(rows);
    rows := KeepPositive(rows, "h_num_per");
    rows := KeepPositive(rows, "h_num_noc");
    rows := KeepPositive(rows, "h_tot_hab");
    rows := TrimOutliers(rows);
    r := Success(Frame(KeepColumns, rows));
  }

  /** Step 5: the band filters, one column at a time. */
  method TrimOutliers(rows: seq<Row>) returns (r: seq<Row>)
    ensures r == BandSteps(rows, BandColumns)
  {
    r := rows;
    for i := 0 to |BandColumns|
      invariant r == BandSteps(rows, BandColumns[..i])
    {
      BandStepsNext(rows, BandColumns, i);
      r := BandStep(r, BandColumns[i]);
    }
    assert BandColumns[..|BandColumns|] == BandColumns;
  }

  lemma BandStepsSnoc(rows: seq<Row>, cols: seq<string>)
    requires cols != []
    ensures BandSteps(rows, cols) == BandStep(BandSteps(rows, cols[..|cols| - 1]), cols[|cols| - 1])
  {
  }

  /** One more band step extends the prefix of columns by one. */
  lemma BandStepsNext(rows: seq<Row>, cols: seq<string>, i: nat)
    requires i < |cols|
    ensures BandSteps(rows, cols[..i + 1]) == BandStep(BandSteps(rows, cols[..i]), cols[i])
  {
    BandStepsSnoc(rows, cols[..i + 1]);
    assert cols[..i + 1][..i] == cols[..i];
  }

  lemma {:induction false} BandStepsSubsequence(rows: seq<Row>, cols: seq<string>, m: nat)
    requires m <= |cols|
    ensures Seqs.IsSubsequence(BandSteps(rows, cols), BandSteps(rows, cols[..m]))
    decreases |cols|
  {
    if m == |cols| {
      assert cols[..m] == cols;
      Seqs.SubsequenceReflexive(BandSteps(rows, cols));
    } else {
      var init := cols[..|cols| - 1];
      BandStepsSubsequence(rows, init, m);
      assert init[..m] == cols[..m];
      Seqs.SubsequenceTransitive(BandSteps(rows, cols), BandSteps(rows, init), BandSteps(rows, cols[..m]));
    }
  }

  lemma FilteredSubsequence(rows: seq<Row>)
    ensures Seqs.IsSubsequence(Filtered(rows), rows)
  {
    var a := DropNegativeFare(rows);
    var b := KeepPositive(a, "h_num_per");
    var c := KeepPositive(b, "h_num_noc");
    Seqs.SubsequenceTransitive(c, b, a);
    Seqs.SubsequenceTransitive(c, a, rows);
    Seqs.SubsequenceTransitive(Filtered(rows), c, rows);
  }

  /**
   * The cleaned rows keep their order and values: they are a subsequence
   * of the input rows restricted to the 24 columns, never more of them.
   */
  lemma CleanIsSubsequence(f: Frame)
    requires Clean(f).Success?
    ensures var out := Clean(f).value; var g := Select(f, KeepColumns).value;
      && out.columns == KeepColumns
      && Seqs.IsSubsequence(out.rows, g.rows)
      && |out.rows| <= |f.rows|
  {
    var g := Select(f, KeepColumns).value;
    var filtered := Filtered(g.rows);
    FilteredSubsequence(g.rows);
    BandStepsSubsequence(filtered, BandColumns, 0);
    Seqs.SubsequenceTransitive(Clean(f).value.rows, filtered, g.rows);
    Seqs.SubsequenceElements(Clean(f).value.rows, g.rows);
  }

  /** Every cleaned row has a non-negative fare and strictly positive guests, nights and rooms. */
  lemma CleanRowsValid(f: Frame)
    requires Clean(f).Success?
    ensures forall row :: row in Clean(f).value.rows ==>
      FareOk(row) && IsPositive(row, "h_num_per") && IsPositive(row, "h_num_noc") && IsPositive(row, "h_tot_hab")
  {
    var g := Select(f, KeepColumns).value;
    var filtered := Filtered(g.rows);
    BandStepsSubsequence(filtered, BandColumns, 0);
    Seqs.SubsequenceElements(Clean(f).value.rows, filtered);
  }

  /**
   * Every cleaned row lies within each band, computed over the rows that
   * entered that band's step: later steps keep the earlier bands.
   */
  lemma CleanWithinBands(f: Frame, j: nat)
    requires Clean(f).Success? && j < |BandColumns|
    ensures var entering := BandSteps(Filtered(Select(f, KeepColumns).value.rows), BandColumns[..j]);
      var col := BandColumns[j];
      forall row :: row in Clean(f).value.rows ==>
        InBand(row, col, LowBound(entering, col), HighBound(entering, col))
  {
    BandsHold(Filtered(Select(f, KeepColumns).value.rows), BandColumns, j);
  }

  /** A row that passes all band steps passes step `j` of them. */
  lemma BandsHold(rows: seq<Row>, cols: seq<string>, j: nat)
    requires j < |cols|
    ensures var entering := BandSteps(rows, cols[..j]);
      forall row :: row in BandSteps(rows, cols) ==>
        InBand(row, cols[j], LowBound(entering, cols[j]), HighBound(entering, cols[j]))
  {
    BandStepsSubsequence(rows, cols, j + 1);
    var prefix := cols[..j + 1];
    var entering := BandSteps(rows, cols[..j]);
    assert prefix[..|prefix| - 1] == cols[..j] && prefix[|prefix| - 1] == cols[j];
    BandStepsSnoc(rows, prefix);
    Seqs.SubsequenceElements(BandSteps(rows, cols), BandStep(entering, cols[j]));
  }

  /** Filtering on the fare again changes nothing. */
  lemma DropNegativeFareIdempotent(rows: seq<Row>)
    ensures DropNegativeFare(DropNegativeFare(rows)) == DropNegativeFare(rows)
  {
    Seqs.FilterIdempotent(rows, FareOk);
  }

  /** Filtering on positivity again changes nothing. */
  lemma KeepPositiveIdempotent(rows: seq<Row>, col: string)
    ensures KeepPositive(KeepPositive(rows, col), col) == KeepPositive(rows, col)
  {
    Seqs.FilterIdempotent(rows, row => IsPositive(row, col));
  }

  /** A booking for `n` guests, one night and one room, at a fare of 100. */
  function Booking(n: int): Row {
    map["h_num_per" := Int(n), "h_num_noc" := Int(1), "h_tot_hab" := Int(1), "h_tfa_total" := Int(100)]
  }

  /** One such booking per guest count, in order. */
  function BookingRows(counts: seq<int>): (r: seq<Row>)
    ensures |r| == |counts|
  {
    seq(|counts|, i requires 0 <= i < |counts| => Booking(counts[i]))
  }

  /** The guest counts as reals. */
  function Reals(counts: seq<int>): (r: seq<real>)
    ensures |r| == |counts|
  {
    seq(|counts|, i requires 0 <= i < |counts| => counts[i] as real)
  }

  /** A table of such bookings, with the 24 kept columns. */
  function Bookings(counts: seq<int>): Frame {
    Frame(KeepColumns, BookingRows(counts))
  }

  /**
   * Cleaning is not a fixed point: bookings for 1, 2, 3 and 3 guests are
   * cleaned to those for 2, 3 and 3 (the guest band is [1.0015, 3]), and
   * cleaning these again drops the booking for 2 (the band is then [2.001, 3]).
   */
  lemma CleanNotIdempotent()
    ensures Clean(Bookings([1, 2, 3, 3])) == Success(Bookings([2, 3, 3]))
    ensures Clean(Bookings([2, 3, 3])) == Success(Bookings([3, 3]))
    ensures Clean(Clean(Bookings([1, 2, 3, 3])).value) != Clean(Bookings([1, 2, 3, 3]))
  {
    ExamplePositive([1, 2, 3, 3]);
    ExamplePositive([2, 3, 3]);
    BandStepNotIdempotent();
    CleanBookings([1, 2, 3, 3], [2, 3, 3]);
    CleanBookings([2, 3, 3], [3, 3]);
    SecondPassDiffers([1, 2, 3, 3], [2, 3, 3], [3, 3]);
  }

  lemma ExamplePositive(counts: seq<int>)
    requires counts == [1, 2, 3, 3] || counts == [2, 3, 3]
    ensures forall i :: 0 <= i < |counts| ==> counts[i] > 0
  {
  }

  /** When two cleaning passes each shorten the table, the second pass changes the cleaned table. */
  lemma SecondPassDiffers(counts: seq<int>, once: seq<int>, twice: seq<int>)
    requires Clean(Bookings(counts)) == Success(Bookings(once))
    requires Clean(Bookings(once)) == Success(Bookings(twice))
    requires |twice| != |once|
    ensures Clean(Clean(Bookings(counts)).value) != Clean(Bookings(counts))
  {
    assert |Bookings(twice).rows| != |Bookings(once).rows|;
  }

  /**
   * Cleaning a table of bookings with positive guest counts comes down to
   * the guest band: the other filters and bands keep every booking.
   */
  lemma CleanBookings(counts: seq<int>, kept: seq<int>)
    requires kept != [] && forall i :: 0 <= i < |counts| ==> counts[i] > 0
    requires BandStep(BookingRows(counts), "h_num_per") == BookingRows(kept)
    ensures Clean(Bookings(counts)) == Success(Bookings(kept))
  {
    SelectBookings(counts);
    CleanedBookingRows(counts, kept);
  }

  /** The filters and bands take the bookings for `counts` to those for `kept`. */
  lemma CleanedBookingRows(counts: seq<int>, kept: seq<int>)
    requires kept != [] && forall i :: 0 <= i < |counts| ==> counts[i] > 0
    requires BandStep(BookingRows(counts), "h_num_per") == BookingRows(kept)
    ensures BandSteps(Filtered(BookingRows(counts)), BandColumns) == BookingRows(kept)
  {
    var rows := BookingRows(counts);
    FilteredBookings(counts);
    BandStepsUnfold(rows);
    KeptBandsHold(kept);
  }

  /** The night and fare bands keep every booking. */
  lemma KeptBandsHold(kept: seq<int>)
    requires kept != []
    ensures BandStep(BandStep(BookingRows(kept), "h_num_noc"), "h_tfa_total") == BookingRows(kept)
  {
    BookingCells(kept);
    ConstantBand(BookingRows(kept), "h_num_noc", 1.0);
    ConstantBand(BookingRows(kept), "h_tfa_total", 100.0);
  }

  /** The cells of the bookings. */
  lemma BookingCells(counts: seq<int>)
    ensures forall i :: 0 <= i < |counts| ==>
      && Cell(BookingRows(counts)[i], "h_num_per") == Int(counts[i])
      && Cell(BookingRows(counts)[i], "h_num_noc") == Int(1)
      && Cell(BookingRows(counts)[i], "h_tot_hab") == Int(1)
      && Cell(BookingRows(counts)[i], "h_tfa_total") == Int(100)
  {
  }

  /** Selecting the kept columns of a bookings table changes nothing. */
  lemma SelectBookings(counts: seq<int>)
    ensures Select(Bookings(counts), KeepColumns) == Success(Bookings(counts))
  {
    var f := Bookings(counts);
    forall i | 0 <= i < |f.rows| ensures Project(f.rows[i], f.columns) == f.rows[i] {
      ProjectBooking(counts[i]);
    }
    SelectProjected(f);
  }

  lemma ProjectBooking(n: int)
    ensures Project(Booking(n), KeepColumns) == Booking(n)
  {
    assert KeepColumns[2] == "h_num_per" && KeepColumns[5] == "h_num_noc";
    assert KeepColumns[6] == "h_tot_hab" && KeepColumns[21] == "h_tfa_total";
  }

  /** Bookings with positive guest counts pass the fare and positivity filters. */
  lemma FilteredBookings(counts: seq<int>)
    requires forall i :: 0 <= i < |counts| ==> counts[i] > 0
    ensures Filtered(BookingRows(counts)) == BookingRows(counts)
  {
    var rows := BookingRows(counts);
    BookingCells(counts);
    forall row | row in rows
      ensures FareOk(row) && IsPositive(row, "h_num_per") && IsPositive(row, "h_num_noc") && IsPositive(row, "h_tot_hab")
    {
      var i :| 0 <= i < |rows| && rows[i] == row;
    }
    KeptAll(DropNegativeFare(rows), rows);
    KeptAll(KeepPositive(rows, "h_num_per"), rows);
    KeptAll(KeepPositive(rows, "h_num_noc"), rows);
    KeptAll(KeepPositive(rows, "h_tot_hab"), rows);
  }

  /** A subsequence holding every copy of every element of the whole is the whole. */
  lemma KeptAll(r: seq<Row>, rows: seq<Row>)
    requires Seqs.IsSubsequence(r, rows)
    requires forall row :: row in rows ==> multiset(r)[row] == multiset(rows)[row]
    ensures r == rows
  {
    Seqs.SubsequenceElements(r, rows);
    assert multiset(r) == multiset(rows) by {
      forall row ensures multiset(r)[row] == multiset(rows)[row] {
        if row !in rows {
          assert row !in r;
        }
      }
    }
    assert |r| == |multiset(r)| == |multiset(rows)| == |rows|;
    Seqs.SubsequenceSameLength(r, rows);
  }

  /** The three bands, in order. */
  lemma BandStepsUnfold(rows: seq<Row>)
    ensures BandSteps(rows, BandColumns) == BandStep(BandStep(BandStep(rows, "h_num_per"), "h_num_noc"), "h_tfa_total")
  {
    assert BandColumns[..0] == [];
    BandStepsNext(rows, BandColumns, 0);
    BandStepsNext(rows, BandColumns, 1);
    BandStepsNext(rows, BandColumns, 2);
    assert BandColumns[..3] == BandColumns;
  }

  /** A band over a column holding one value keeps every row. */
  lemma ConstantBand(rows: seq<Row>, col: string, x: real)
    requires rows != [] && forall i :: 0 <= i < |rows| ==> Num(Cell(rows[i], col)) == Some(x)
    ensures BandStep(rows, col) == rows
  {
    ConstantNumbers(rows, col, x);
    QuantileOfConstant(NumbersOf(rows, col), x, LowQuantile);
    QuantileOfConstant(NumbersOf(rows, col), x, HighQuantile);
    assert forall i :: 0 <= i < |rows| ==> InBand(rows[i], col, Some(x), Some(x));
    KeepAllWithin(rows, col, Some(x), Some(x));
  }

  /** A column holding one value reads as that value only. */
  lemma ConstantNumbers(rows: seq<Row>, col: string, x: real)
    requires rows != [] && forall i :: 0 <= i < |rows| ==> Num(Cell(rows[i], col)) == Some(x)
    ensures x in NumbersOf(rows, col) && forall y :: y in NumbersOf(rows, col) ==> y == x
  {
    assert Num(Cell(rows[0], col)) == Some(x);
  }

  /**
   * One band step is not idempotent: on guest counts 1, 2, 3, 3 the first
   * step drops the 1 (the low bound is 1.0015) and a second step on the
   * survivors drops the 2 (the low bound is then 2.001).
   */
  lemma BandStepNotIdempotent()
    ensures BandStep(BookingRows([1, 2, 3, 3]), "h_num_per") == BookingRows([2, 3, 3])
    ensures BandStep(BandStep(BookingRows([1, 2, 3, 3]), "h_num_per"), "h_num_per") == BookingRows([3, 3])
  {
    FirstStepOfExample([1, 2, 3, 3]);
    SecondStepOfExample([2, 3, 3]);
  }

  /** The first step of the example keeps all but the 1. */
  lemma FirstStepOfExample(counts: seq<int>)
    requires counts == [1, 2, 3, 3]
    ensures BandStep(BookingRows(counts), "h_num_per") == BookingRows([2, 3, 3])
  {
    FourGuestBounds(counts);
    BandLeavesOutFirst(counts, 1.0015, 3.0);
    ExampleStep(counts, 1.0015, 3.0);
  }

  /** The second step of the example keeps all but the 2. */
  lemma SecondStepOfExample(counts: seq<int>)
    requires counts == [2, 3, 3]
    ensures BandStep(BookingRows(counts), "h_num_per") == BookingRows([3, 3])
  {
    ThreeGuestBounds(counts);
    BandLeavesOutFirst(counts, 2.001, 3.0);
    ExampleStep(counts, 2.001, 3.0);
  }

  /** Of the example's counts, only the first lies outside its band. */
  lemma BandLeavesOutFirst(counts: seq<int>, lo: real, hi: real)
    requires (counts == [1, 2, 3, 3] && lo == 1.0015 && hi == 3.0) || (counts == [2, 3, 3] && lo == 2.001 && hi == 3.0)
    ensures counts != [] && !(lo <= counts[0] as real <= hi)
    ensures forall i :: 1 <= i < |counts| ==> lo <= counts[i] as real <= hi
    ensures counts[1..] == if |counts| == 4 then [2, 3, 3] else [3, 3]
  {
  }

  /** A band step over guest counts whose band leaves out only the first count. */
  lemma ExampleStep(counts: seq<int>, lo: real, hi: real)
    requires counts != []
    requires LowBound(BookingRows(counts), "h_num_per") == Some(lo)
    requires HighBound(BookingRows(counts), "h_num_per") == Some(hi)
    requires !(lo <= counts[0] as real <= hi)
    requires forall i :: 1 <= i < |counts| ==> lo <= counts[i] as real <= hi
    ensures BandStep(BookingRows(counts), "h_num_per") == BookingRows(counts[1..])
  {
    var rows := BookingRows(counts);
    BookingRowsInBand(counts, lo, hi);
    KeepAllButFirst(rows, "h_num_per", Some(lo), Some(hi));
    BookingRowsTail(counts);
  }

  lemma BookingRowsInBand(counts: seq<int>, lo: real, hi: real)
    requires counts != [] && !(lo <= counts[0] as real <= hi)
    requires forall i :: 1 <= i < |counts| ==> lo <= counts[i] as real <= hi
    ensures !InBand(BookingRows(counts)[0], "h_num_per", Some(lo), Some(hi))
    ensures forall i :: 1 <= i < |counts| ==> InBand(BookingRows(counts)[i], "h_num_per", Some(lo), Some(hi))
  {
    GuestInBand(counts[0], lo, hi);
    forall i | 1 <= i < |counts| ensures InBand(BookingRows(counts)[i], "h_num_per", Some(lo), Some(hi)) {
      GuestInBand(counts[i], lo, hi);
    }
  }

  lemma BookingRowsTail(counts: seq<int>)
    requires counts != []
    ensures BookingRows(counts)[1..] == BookingRows(counts[1..])
  {
  }

  lemma GuestInBand(n: int, lo: real, hi: real)
    ensures InBand(Booking(n), "h_num_per", Some(lo), Some(hi)) <==> lo <= n as real <= hi
  {
    assert Cell(Booking(n), "h_num_per") == Int(n);
  }

  /** The guest column of such rows reads back the counts. */
  lemma {:induction false} GuestNumbers(counts: seq<int>)
    ensures NumbersOf(BookingRows(counts), "h_num_per") == Reals(counts)
  {
    if counts != [] {
      GuestNumbers(counts[1..]);
      BookingRowsTail(counts);
      assert Cell(Booking(counts[0]), "h_num_per") == Int(counts[0]);
      RealsCons(counts);
    }
  }

  lemma RealsCons(counts: seq<int>)
    requires counts != []
    ensures Reals(counts) == [counts[0] as real] + Reals(counts[1..])
  {
  }

  /** The band over guest counts 1, 2, 3, 3 is [1.0015, 3]. */
  lemma FourGuestBounds(counts: seq<int>)
    requires counts == [1, 2, 3, 3]
    ensures LowBound(BookingRows(counts), "h_num_per") == Some(1.0015)
    ensures HighBound(BookingRows(counts), "h_num_per") == Some(3.0)
  {
    GuestNumbers(counts);
    FourQuantiles(Reals(counts));
  }

  /** The band over guest counts 2, 3, 3 is [2.001, 3]. */
  lemma ThreeGuestBounds(counts: seq<int>)
    requires counts == [2, 3, 3]
    ensures LowBound(BookingRows(counts), "h_num_per") == Some(2.001)
    ensures HighBound(BookingRows(counts), "h_num_per") == Some(3.0)
  {
    GuestNumbers(counts);
    ThreeQuantiles(Reals(counts));
  }

  lemma FourQuantiles(s: seq<real>)
    requires s == [1.0, 2.0, 3.0, 3.0]
    ensures Quantile(s, LowQuantile) == Some(1.0015) && Quantile(s, HighQuantile) == Some(3.0)
  {
    assert Ascending(s);
    SortAscending(s);
    assert Position(4, LowQuantile) == 0.0015 && Position(4, HighQuantile) == 2.9985;
    assert (0.0015).Floor == 0 && (2.9985).Floor == 2;
    assert Quantile(s, LowQuantile) == Some(ReadAt(s, 0.0015));
    assert Quantile(s, HighQuantile) == Some(ReadAt(s, 2.9985));
  }

  lemma ThreeQuantiles(s: seq<real>)
    requires s == [2.0, 3.0, 3.0]
    ensures Quantile(s, LowQuantile) == Some(2.001) && Quantile(s, HighQuantile) == Some(3.0)
  {
    assert Ascending(s);
    SortAscending(s);
    assert Position(3, LowQuantile) == 0.001 && Position(3, HighQuantile) == 1.999;
    assert (0.001).Floor == 0 && (1.999).Floor == 1;
    assert Quantile(s, LowQuantile) == Some(ReadAt(s, 0.001));
    assert Quantile(s, HighQuantile) == Some(ReadAt(s, 1.999));
  }

  lemma KeepAllButFirst(rows: seq<Row>, col: string, low: Option<real>, high: Option<real>)
    requires rows != [] && !InBand(rows[0], col, low, high)
    requires forall i :: 1 <= i < |rows| ==> InBand(rows[i], col, low, high)
    ensures KeepWithin(rows, col, low, high) == rows[1..]
  {
    KeepAllWithin(rows[1..], col, low, high);
  }

  lemma KeepAllWithin(rows: seq<Row>, col: string, low: Option<real>, high: Option<real>)
    requires forall i :: 0 <= i < |rows| ==> InBand(rows[i], col, low, high)
    ensures KeepWithin(rows, col, low, high) == rows
  {
    forall row | row in rows ensures InBand(row, col, low, high) {
      var i :| 0 <= i < |rows| && rows[i] == row;
    }
    KeptAll(KeepWithin(rows, col, low, high), rows);
  }

}
