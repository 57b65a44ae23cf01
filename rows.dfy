/** The body rows of the Apps table: which rows `ensureRows` annotates, the
    two cells it inserts (`makeValueTdLike`), and the value `rowSortValue`
    reads back from them. */
module Rows {
  import opened Options
  import opened Metric
  import opened Derived
  import opened Headers

  /** A `td`: one of the page's own cells, or one the script made, which
      carries `data-tm-extra-cols` and shows a derived value. */
  datatype Cell = Base(content: MetricCell) | Extra(shown: Shown)

  type Row = seq<Cell>

  predicate HasExtra(row: Row) {
    exists k :: 0 <= k < |row| && row[k].Extra?
  }

  /** The cell `getPrimaryMetricFromCell` is given: a page cell, or nothing. */
  function ContentOf(c: Cell): Option<MetricCell> {
    match c
    case Base(m) => Some(m)
    case Extra(_) => None
  }

  /** A row is annotated when it has no derived cell yet, all three columns
      are mapped and the row has a cell at each of their positions. */
  predicate NeedsCells(row: Row, m: map<Column, nat>) {
    !HasExtra(row) && Impressions in m && Units in m && Sessions in m &&
    m[Impressions] < |row| && m[Units] < |row| && m[Sessions] < |row|
  }

  /** The two ratios of a row that needs its cells. */
  function RowRatios(row: Row, m: map<Column, nat>): Ratios
    requires NeedsCells(row, m)
  {
    ComputeDerived(PrimaryMetric(ContentOf(row[m[Impressions]])),
                   PrimaryMetric(ContentOf(row[m[Units]])),
                   PrimaryMetric(ContentOf(row[m[Sessions]])))
  }

  /** The conversion and sessions-per-unit cells, in that order. */
  function DerivedCells(d: Ratios): seq<Cell> {
    [Extra(FmtPercent(d.conv)), Extra(FmtNumber(d.spu))]
  }

  /** One row after `ensureRows`: the two derived cells right after the
      units cell when it needs them, otherwise as it was. */
  function AnnotateRow(row: Row, m: map<Column, nat>): Row {
    if NeedsCells(row, m) then
      var u := m[Units];
      row[..u + 1] + DerivedCells(RowRatios(row, m)) + row[u + 1..]
    else row
  }

  /** All body rows after `ensureRows`. */
  function AnnotateRows(rows: seq<Row>, m: map<Column, nat>): (r: seq<Row>)
    ensures |r| == |rows|
  {
    if rows == [] then [] else AnnotateRows(rows[..|rows| - 1], m) + [AnnotateRow(rows[|rows| - 1], m)]
  }

  /** Each annotated row is the annotation of the row at its place. */
  lemma {:induction false} AnnotateRowsAt(rows: seq<Row>, m: map<Column, nat>)
    ensures forall k :: 0 <= k < |rows| ==> AnnotateRows(rows, m)[k] == AnnotateRow(rows[k], m)
  {
    if rows != [] {
      var init := rows[..|rows| - 1];
      var last := AnnotateRow(rows[|rows| - 1], m);
      AnnotateRowsAt(init, m);
      var done := AnnotateRows(init, m);
      assert AnnotateRows(rows, m) == done + [last];
      forall k | 0 <= k < |rows| ensures AnnotateRows(rows, m)[k] == AnnotateRow(rows[k], m) {
        if k < |init| {
          assert rows[k] == init[k];
          assert (done + [last])[k] == done[k];
        }
      }
    }
  }

  /** How many rows need their cells: what `ensureRows` returns. */
  function CountNeeding(rows: seq<Row>, m: map<Column, nat>): (n: nat)
    ensures n <= |rows|
  {
    if rows == [] then 0
    else CountNeeding(rows[..|rows| - 1], m) + (if NeedsCells(rows[|rows| - 1], m) then 1 else 0)
  }

  /** The derived cells of a row, in order. */
  function Extras(row: Row): (e: seq<Shown>)
    ensures |e| <= |row|
  {
    if row == [] then []
    else Extras(row[..|row| - 1]) + (if row[|row| - 1].Extra? then [row[|row| - 1].shown] else [])
  }

  /** `rowSortValue`: the first derived cell for the conversion key, the
      second for any other, read back as a number; no such cell gives
      "not available". */
  function RowSortValue(row: Row, key: string): Option<real> {
    var extras := Extras(row);
    var idx := if key == "conv" then 0 else 1;
    if idx < |extras| then ReadBack(extras[idx], key) else None
  }

  // ---------------------------------------------------------------------
  // Properties

  lemma {:induction false} ExtrasOfPlain(row: Row)
    requires !HasExtra(row)
    ensures Extras(row) == []
  {
    if row != [] {
      var init := row[..|row| - 1];
      assert !HasExtra(init) by {
        forall k | 0 <= k < |init| ensures !init[k].Extra? {
          assert init[k] == row[k];
        }
      }
      ExtrasOfPlain(init);
    }
  }

  lemma {:induction false} ExtrasAppend(a: Row, b: Row)
    ensures Extras(a + b) == Extras(a) + Extras(b)
    decreases |b|
  {
    if b == [] {
      assert a + b == a;
    } else {
      var b' := b[..|b| - 1];
      assert (a + b)[..|a + b| - 1] == a + b';
      assert (a + b)[|a + b| - 1] == b[|b| - 1];
      ExtrasAppend(a, b');
    }
  }

  lemma ExtrasOfDerived(d: Ratios)
    ensures Extras(DerivedCells(d)) == [FmtPercent(d.conv), FmtNumber(d.spu)]
  {
    var cells := DerivedCells(d);
    assert cells[..1] == [cells[0]];
    assert cells[..1][..0] == [];
  }

  /** An annotated row has exactly two derived cells, conv then spu, right
      after its units cell; every other cell keeps its place. A row that
      does not need them is left alone. */
  lemma AnnotateShape(row: Row, m: map<Column, nat>)
    ensures var r := AnnotateRow(row, m);
      if NeedsCells(row, m) then
        var u := m[Units];
        var d := RowRatios(row, m);
        |r| == |row| + 2 && r[..u + 1] == row[..u + 1] && r[u + 3..] == row[u + 1..] &&
        r[u + 1] == Extra(FmtPercent(d.conv)) && r[u + 2] == Extra(FmtNumber(d.spu)) &&
        Extras(r) == [FmtPercent(d.conv), FmtNumber(d.spu)]
      else r == row
  {
    if NeedsCells(row, m) {
      var u := m[Units];
      var d := RowRatios(row, m);
      var r := AnnotateRow(row, m);
      var front, back := row[..u + 1], row[u + 1..];
      assert !HasExtra(front) && !HasExtra(back) by {
        forall k | 0 <= k < |front| ensures !front[k].Extra? {
          assert front[k] == row[k];
        }
        forall k | 0 <= k < |back| ensures !back[k].Extra? {
          assert back[k] == row[k + u + 1];
        }
      }
      ExtrasOfPlain(front);
      ExtrasOfPlain(back);
      ExtrasAppend(row[..u + 1] + DerivedCells(d), row[u + 1..]);
      ExtrasAppend(row[..u + 1], DerivedCells(d));
      ExtrasOfDerived(d);
    }
  }

  /** Reading the derived cells back gives the ratios themselves: the
      conversion under "conv" and sessions per unit under "spu". */
  lemma SortValueOfAnnotated(row: Row, m: map<Column, nat>)
    requires NeedsCells(row, m)
    ensures RowSortValue(AnnotateRow(row, m), "conv") == RowRatios(row, m).conv
    ensures RowSortValue(AnnotateRow(row, m), "spu") == RowRatios(row, m).spu
  {
    AnnotateShape(row, m);
    PercentReadsBack(RowRatios(row, m).conv);
    NumberReadsBack(RowRatios(row, m).spu);
  }

  /** A row left without derived cells sorts as "not available". */
  lemma SortValueOfPlain(row: Row, key: string)
    requires !HasExtra(row)
    ensures RowSortValue(row, key) == None
  {
    ExtrasOfPlain(row);
  }

  /** After annotation no row needs cells any more. */
  lemma AnnotatedNeedsNothing(row: Row, m: map<Column, nat>)
    ensures !NeedsCells(AnnotateRow(row, m), m)
  {
    if NeedsCells(row, m) {
      var u := m[Units];
      assert AnnotateRow(row, m)[u + 1].Extra?;
    }
  }

  /** A second annotation changes nothing. */
  lemma AnnotateIdempotent(row: Row, m: map<Column, nat>)
    ensures AnnotateRow(AnnotateRow(row, m), m) == AnnotateRow(row, m)
  {
    AnnotatedNeedsNothing(row, m);
  }

  lemma {:induction false} CountNoneNeeding(rows: seq<Row>, m: map<Column, nat>)
    requires forall k :: 0 <= k < |rows| ==> !NeedsCells(rows[k], m)
    ensures CountNeeding(rows, m) == 0
  {
    if rows != [] {
      CountNoneNeeding(rows[..|rows| - 1], m);
    }
  }

  /** On a table already annotated `ensureRows` reports nothing added, and
      a row that arrives later is the only one counted. */
  lemma SecondPassCounts(rows: seq<Row>, m: map<Column, nat>, arrived: Row)
    ensures CountNeeding(AnnotateRows(rows, m), m) == 0
    ensures CountNeeding(AnnotateRows(rows, m) + [arrived], m) == (if NeedsCells(arrived, m) then 1 else 0)
  {
    var done := AnnotateRows(rows, m);
    AnnotateRowsAt(rows, m);
    forall k | 0 <= k < |done| ensures !NeedsCells(done[k], m) {
      AnnotatedNeedsNothing(rows[k], m);
    }
    CountNoneNeeding(done, m);
    assert (done + [arrived])[..|done|] == done;
  }

  /** Annotating one more row of a prefix appends its annotation. */
  lemma AnnotateSnoc(rows0: seq<Row>, m: map<Column, nat>, i: nat)
    requires i < |rows0|
    ensures AnnotateRows(rows0[..i + 1], m) == AnnotateRows(rows0[..i], m) + [AnnotateRow(rows0[i], m)]
    ensures CountNeeding(rows0[..i + 1], m) == CountNeeding(rows0[..i], m) + (if NeedsCells(rows0[i], m) then 1 else 0)
  {
    assert rows0[..i + 1][..i] == rows0[..i];
  }

  /** Rows that need nothing are left as they are. */
  lemma {:induction false} AnnotateSettled(rows: seq<Row>, m: map<Column, nat>)
    requires forall k :: 0 <= k < |rows| ==> !NeedsCells(rows[k], m)
    ensures AnnotateRows(rows, m) == rows
  {
    if rows != [] {
      var init := rows[..|rows| - 1];
      assert forall k :: 0 <= k < |init| ==> init[k] == rows[k];
      AnnotateSettled(init, m);
      assert rows == init + [rows[|rows| - 1]];
    }
  }
}
