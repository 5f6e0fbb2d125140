/**
 * `extract_points`: turns one dataset (labels, units, rows of cells) into
 * normalised points `(index, energy in eV, kT in keV, value, uncertainty)`.
 */
module Points {
  import opened Wrappers
  import opened Text
  import opened Numbers
  import opened Columns
  import Units

  /** A data row as the loader hands it over; anything that is not a list or tuple is skipped. */
  datatype Row = Cells(cells: seq<Cell>) | NotAList

  /** A dataset: a label and a unit per column (either may be absent) and the data rows. */
  datatype Dataset = Dataset(labels: seq<Option<string>>, units: seq<Option<string>>, data: seq<Row>)

  /** One normalised point; `index` is the row's position in the dataset. */
  datatype Point = Point(index: nat, energy: Option<real>, kt: Option<real>, value: real, uncertainty: Option<real>)

  /** Labels and units are upper-cased, an absent one becomes the empty string. */
  function NormLabels(xs: seq<Option<string>>): (r: seq<string>)
    ensures |r| == |xs|
    ensures forall k :: 0 <= k < |xs| ==> r[k] == (if xs[k].Some? then Upper(xs[k].value) else "")
  {
    seq(|xs|, k requires 0 <= k < |xs| => if xs[k].Some? then Upper(xs[k].value) else "")
  }

  /** Length of Python's `s[:m]` for a sequence of length `n`: a negative `m` counts from the end. */
  function SliceEnd(n: nat, m: int): (r: nat)
    ensures r <= n
    ensures 0 <= m <= n ==> r == m
    ensures m >= n ==> r == n
    ensures m < 0 && -m <= n ==> r + -m == n
    ensures m < 0 && -m >= n ==> r == 0
  {
    if m >= 0 then (if m < n then m else n)
    else if n + m > 0 then n + m else 0
  }

  function Abs(x: real): real {
    if x < 0.0 then -x else x
  }

  /** Column `i` exists and the row is long enough to have it. */
  predicate Within(i: Option<nat>, cells: seq<Cell>) {
    i.Some? && i.value < |cells|
  }

  /** The number in column `i`, when the column exists, the row reaches it and the cell is numeric. */
  function NumberAt(cells: seq<Cell>, i: Option<nat>, parse: string -> Option<real>): Option<real> {
    if Within(i, cells) then ToNum(cells[i.value], parse) else None
  }

  /** The unit text of column `i`, or the empty string when the unit list is shorter. */
  function UnitAt(units: seq<string>, i: Option<nat>): string {
    if i.Some? && i.value < |units| then units[i.value] else ""
  }

  /**
   * The uncertainty of a row: an in-range error column alone decides (its
   * absolute value, or nothing when the cell is not numeric); only without
   * one are the `+DATA-ERR`/`-DATA-ERR` columns averaged.
   */
  function Uncertainty(cells: seq<Cell>, l: Layout, parse: string -> Option<real>): (r: Option<real>)
    ensures r.Some? ==> r.value >= 0.0
    ensures Within(l.err, cells) ==> (r.Some? <==> NumberAt(cells, l.err, parse).Some?)
    ensures Within(l.err, cells) && r.Some? ==> r.value == Abs(NumberAt(cells, l.err, parse).value)
    ensures !Within(l.err, cells) ==>
      (r.Some? <==> Within(l.errPlus, cells) && Within(l.errMinus, cells)
                    && NumberAt(cells, l.errPlus, parse).Some? && NumberAt(cells, l.errMinus, parse).Some?)
    ensures !Within(l.err, cells) && r.Some? ==>
      r.value == (Abs(NumberAt(cells, l.errPlus, parse).value) + Abs(NumberAt(cells, l.errMinus, parse).value)) / 2.0
  {
    if Within(l.err, cells) then
      match ToNum(cells[l.err.value], parse)
      case None => None
      case Some(e) => Some(Abs(e))
    else if Within(l.errPlus, cells) && Within(l.errMinus, cells) then
      match (ToNum(cells[l.errPlus.value], parse), ToNum(cells[l.errMinus.value], parse))
      case (Some(p), Some(m)) => Some((Abs(p) + Abs(m)) / 2.0)
      case _ => None
    else None
  }

  /** A row yields a point exactly when it is a list, reaches the value column and that cell is numeric. */
  predicate Usable(row: Row, valueColumn: nat, parse: string -> Option<real>) {
    row.Cells? && valueColumn < |row.cells| && ToNum(row.cells[valueColumn], parse).Some?
  }

  /** The point row `k` contributes, if any. */
  function PointAt(k: nat, row: Row, l: Layout, units: seq<string>, quantity: string, parse: string -> Option<real>): (r: Option<Point>)
    ensures r.Some? <==> Usable(row, l.value, parse)
    ensures r.Some? ==> r.value.index == k && Some(r.value.value) == ToNum(row.cells[l.value], parse)
    ensures r.Some? ==> r.value.uncertainty == Uncertainty(row.cells, l, parse)
    ensures r.Some? && quantity == "MACS" ==> r.value.energy.None?
    ensures r.Some? && quantity == "MACS" ==> (r.value.kt.Some? <==> NumberAt(row.cells, l.kt, parse).Some?)
    ensures r.Some? && quantity != "MACS" ==> r.value.kt.None?
    ensures r.Some? && quantity != "MACS" ==> (r.value.energy.Some? <==> NumberAt(row.cells, l.energy, parse).Some?)
    ensures r.Some? && quantity == "MACS" ==>
      r.value.kt == Units.KtToKev(NumberAt(row.cells, l.kt, parse), Some(UnitAt(units, l.kt)))
    ensures r.Some? && quantity != "MACS" ==>
      r.value.energy == Units.EnergyToEv(NumberAt(row.cells, l.energy, parse), Some(UnitAt(units, l.energy)))
  {
    match row
    case NotAList => None
    case Cells(cells) =>
      if l.value >= |cells| then None
      else
        match ToNum(cells[l.value], parse)
        case None => None
        case Some(v) =>
          var energy :=
            if quantity == "MACS" || !Within(l.energy, cells) then None
            else Units.EnergyToEv(ToNum(cells[l.energy.value], parse), Some(UnitAt(units, l.energy)));
          var kt :=
            if quantity != "MACS" || !Within(l.kt, cells) then None
            else Units.KtToKev(ToNum(cells[l.kt.value], parse), Some(UnitAt(units, l.kt)));
          Some(Point(k, energy, kt, v, Uncertainty(cells, l, parse)))
  }

  /** A per-row point function that stamps each point with the row's position. */
  ghost predicate Stamps(f: (nat, Row) -> Option<Point>) {
    forall i: nat, row: Row :: f(i, row).Some? ==> f(i, row).value.index == i
  }

  /** The points `f` yields for `rows`, whose first row has position `k`, in row order. */
  function Collect(rows: seq<Row>, k: nat, f: (nat, Row) -> Option<Point>): (r: seq<Point>)
    requires Stamps(f)
    ensures |r| <= |rows|
    ensures forall i :: 0 <= i < |r| ==> k <= r[i].index < k + |rows| && f(r[i].index, rows[r[i].index - k]) == Some(r[i])
    ensures forall i, j :: 0 <= i < j < |r| ==> r[i].index < r[j].index
    decreases |rows|
  {
    if |rows| == 0 then []
    else
      var rest := Collect(rows[1..], k + 1, f);
      assert forall i :: 0 <= i < |rest| ==> rows[rest[i].index - k] == rows[1..][rest[i].index - (k + 1)];
      if f(k, rows[0]).Some? then [f(k, rows[0]).value] + rest else rest
  }

  /** No row is dropped: every row for which `f` yields a point contributes that point. */
  lemma {:induction false} CollectComplete(rows: seq<Row>, k: nat, f: (nat, Row) -> Option<Point>, j: nat)
    requires Stamps(f)
    requires j < |rows| && f(k + j, rows[j]).Some?
    ensures f(k + j, rows[j]).value in Collect(rows, k, f)
    decreases |rows|
  {
    if j > 0 {
      assert rows[1..][j - 1] == rows[j];
      CollectComplete(rows[1..], k + 1, f, j - 1);
    }
  }

  /** The point function of one dataset layout. */
  function RowPoint(l: Layout, units: seq<string>, quantity: string, parse: string -> Option<real>): (f: (nat, Row) -> Option<Point>)
    ensures Stamps(f)
    ensures forall i: nat, row: Row :: f(i, row) == PointAt(i, row, l, units, quantity, parse)
  {
    (i: nat, row: Row) => PointAt(i, row, l, units, quantity, parse)
  }

  /** The layout `extract_points` reads a dataset through. */
  function LayoutOf(ds: Dataset): Option<Layout> {
    ResolveLayout(NormLabels(ds.labels))
  }

  /**
   * `extract_points`: no labels or no value column give no points; otherwise
   * the rows of the `max_points` slice are scanned in order and each point
   * is the one its own row yields.
   */
  function ExtractPoints(ds: Dataset, quantity: string, maxPoints: int, parse: string -> Option<real>): (r: seq<Point>)
    ensures |ds.labels| == 0 || ValueColumn(NormLabels(ds.labels)).None? ==> r == []
    ensures |r| <= SliceEnd(|ds.data|, maxPoints)
    ensures maxPoints >= 0 ==> |r| <= maxPoints
    ensures forall i, j :: 0 <= i < j < |r| ==> r[i].index < r[j].index
    ensures forall i :: 0 <= i < |r| ==> r[i].index < SliceEnd(|ds.data|, maxPoints)
    ensures forall i :: 0 <= i < |r| ==>
      && LayoutOf(ds).Some?
      && PointAt(r[i].index, ds.data[r[i].index], LayoutOf(ds).value, NormLabels(ds.units), quantity, parse) == Some(r[i])
  {
    var labels := NormLabels(ds.labels);
    if |labels| == 0 then []
    else
      match ResolveLayout(labels)
      case None => []
      case Some(l) =>
        var rows := ds.data[..SliceEnd(|ds.data|, maxPoints)];
        var f := RowPoint(l, NormLabels(ds.units), quantity, parse);
        var r := Collect(rows, 0, f);
        assert LayoutOf(ds) == Some(l);
        assert forall i :: 0 <= i < |r| ==> rows[r[i].index] == ds.data[r[i].index];
        assert forall i :: 0 <= i < |r| ==>
          PointAt(r[i].index, ds.data[r[i].index], l, NormLabels(ds.units), quantity, parse) == f(r[i].index, rows[r[i].index]);
        r
  }

  /** Every row of the slice that can yield a point contributes it. */
  lemma ExtractPointsComplete(ds: Dataset, quantity: string, maxPoints: int, parse: string -> Option<real>, l: Layout, j: nat)
    requires LayoutOf(ds) == Some(l)
    requires j < SliceEnd(|ds.data|, maxPoints) && Usable(ds.data[j], l.value, parse)
    ensures PointAt(j, ds.data[j], l, NormLabels(ds.units), quantity, parse).value in ExtractPoints(ds, quantity, maxPoints, parse)
  {
    var rows := ds.data[..SliceEnd(|ds.data|, maxPoints)];
    var f := RowPoint(l, NormLabels(ds.units), quantity, parse);
    assert rows[j] == ds.data[j];
    assert ExtractPoints(ds, quantity, maxPoints, parse) == Collect(rows, 0, f);
    CollectComplete(rows, 0, f, j);
  }

  /**
   * The shape of every extracted point: the value is the number in the
   * row's value column, a MACS point carries kT and never an energy, any
   * other point an energy and never kT, and an uncertainty is never negative.
   */
  lemma ExtractedPointShape(ds: Dataset, quantity: string, maxPoints: int, parse: string -> Option<real>, i: nat)
    requires i < |ExtractPoints(ds, quantity, maxPoints, parse)|
    ensures var p := ExtractPoints(ds, quantity, maxPoints, parse)[i];
      && LayoutOf(ds).Some?
      && Usable(ds.data[p.index], LayoutOf(ds).value.value, parse)
      && Some(p.value) == ToNum(ds.data[p.index].cells[LayoutOf(ds).value.value], parse)
      && (quantity == "MACS" ==> p.energy.None?)
      && (quantity != "MACS" ==> p.kt.None?)
      && (p.uncertainty.Some? ==> p.uncertainty.value >= 0.0)
  {
  }
}
