/** The Apps table as one value, and what one `apply` and one `applySort`
    do to it. The imperative steps in `AppsTable` are proved to produce
    exactly these outcomes; the lemmas here show a second `apply` changes
    nothing and that the sort outcome is unique. */
module Table {
  import opened Options
  import opened Headers
  import opened Rows
  import opened Sorting

  /** The header row (absent when the table has no `thead tr`), the body
      rows (absent when it has no `tbody`) and the sort state kept in the
      table's dataset (`tmSortKey`, `tmSortDir`, "" when unset). */
  datatype TableState = TableState(head: Option<seq<Th>>, body: Option<seq<Row>>, sortKey: string, sortDir: string)

  function HeaderCells(t: TableState): seq<Th> {
    if t.head.Some? then t.head.value else []
  }

  function BodyRows(t: TableState): seq<Row> {
    if t.body.Some? then t.body.value else []
  }

  /** `headerIndexMap(table).map`. */
  function HeaderMap(t: TableState): map<Column, nat> {
    IndexMap(BaseHeaders(HeaderCells(t)))
  }

  /** No header is a sort header unless the script injected it. */
  predicate Clean(t: TableState) {
    SortHeadersMarked(HeaderCells(t))
  }

  function EnsureHeaderStep(t: TableState, idxUnits: nat): TableState {
    if t.head.Some? then t.(head := Some(InsertHeaders(t.head.value, idxUnits))) else t
  }

  function EnsureRowsStep(t: TableState, m: map<Column, nat>): TableState {
    if t.body.Some? then t.(body := Some(AnnotateRows(t.body.value, m))) else t
  }

  /** The count `ensureRows` returns. */
  function Added(t: TableState, m: map<Column, nat>): nat {
    if t.body.Some? then CountNeeding(t.body.value, m) else 0
  }

  function WireStep(t: TableState): TableState {
    if t.head.Some? then t.(head := Some(Wire(t.head.value))) else t
  }

  function RefreshStep(t: TableState): TableState {
    if t.head.Some? then t.(head := Some(Refresh(t.head.value, t.sortKey, t.sortDir))) else t
  }

  /** The value each body row sorts by under the current key. */
  function SortValues(rows: seq<Row>, key: string): (vals: seq<Option<real>>)
    ensures |vals| == |rows|
    ensures forall k :: 0 <= k < |rows| ==> vals[k] == RowSortValue(rows[k], key)
  {
    seq(|rows|, k requires 0 <= k < |rows| => RowSortValue(rows[k], key))
  }

  /** `perm` is the order the comparator imposes on the body rows. */
  predicate IsSortOrder(t: TableState, perm: seq<nat>) {
    t.body.Some? && IsPermutation(perm, |t.body.value|) &&
    Sorted(SortValues(t.body.value, t.sortKey), t.sortDir, perm)
  }

  /** The sort state `onToggle` stores for header key `k`. */
  function Toggled(t: TableState, k: string): (u: TableState)
    ensures u.head == t.head && u.body == t.body && u.sortKey == k
    ensures u.sortDir == Desc <==> t.sortKey == k && t.sortDir == Asc
    ensures k != "" ==> ActiveSort(u.sortKey, u.sortDir)
  {
    t.(sortKey := k, sortDir := NextDir(t.sortKey, t.sortDir, k))
  }

  /** The table after its rows are put in the order `perm` and the headers
      refreshed. */
  function SortedStep(t: TableState, perm: seq<nat>): TableState
    requires IsSortOrder(t, perm)
  {
    RefreshStep(t.(body := Some(Reorder(t.body.value, perm))))
  }

  /** What `applySort` does: nothing without a body; only the header
      refresh without an active sort; otherwise the rows reordered by the
      comparator, then the refresh. */
  ghost predicate SortOutcome(t: TableState, u: TableState) {
    if t.body.None? then u == t
    else if !ActiveSort(t.sortKey, t.sortDir) then u == RefreshStep(t)
    else exists perm :: IsSortOrder(t, perm) && u == SortedStep(t, perm)
  }

  /** The state after headers and rows are ensured and the headers wired,
      just before `apply` sorts or refreshes. */
  function Prepared(t: TableState, m: map<Column, nat>): TableState
    requires Units in m
  {
    WireStep(EnsureRowsStep(EnsureHeaderStep(t, m[Units]), m))
  }

  /** What `apply` does to the Apps table: nothing when no header names the
      units column; otherwise it ensures the headers and rows, wires the
      sort headers, and then re-sorts when a sort is active and some row
      was annotated, or else only refreshes the headers. */
  ghost predicate ApplyOutcome(t: TableState, u: TableState) {
    var m := HeaderMap(t);
    if Units !in m then u == t
    else if ActiveSort(t.sortKey, t.sortDir) && Added(t, m) > 0 then SortOutcome(Prepared(t, m), u)
    else u == RefreshStep(Prepared(t, m))
  }

  // ---------------------------------------------------------------------
  // The sort outcome is unique

  lemma SortOrderUnique(t: TableState, p: seq<nat>, q: seq<nat>)
    requires IsSortOrder(t, p) && IsSortOrder(t, q)
    ensures p == q
  {
    SortedUnique(SortValues(t.body.value, t.sortKey), t.sortDir, p, q);
  }

  /** `applySort` has one outcome whatever sorting algorithm is used. */
  lemma SortOutcomeUnique(t: TableState, u: TableState, w: TableState)
    requires SortOutcome(t, u) && SortOutcome(t, w)
    ensures u == w
  {
    if t.body.Some? && ActiveSort(t.sortKey, t.sortDir) {
      var p :| IsSortOrder(t, p) && u == SortedStep(t, p);
      var q :| IsSortOrder(t, q) && w == SortedStep(t, q);
      SortOrderUnique(t, p, q);
    }
  }

  /** The sorted rows are the old rows, each exactly once. */
  lemma SortKeepsRows(t: TableState, perm: seq<nat>)
    requires IsSortOrder(t, perm)
    ensures SortedStep(t, perm).body.Some?
    ensures multiset(SortedStep(t, perm).body.value) == multiset(t.body.value)
  {
    ReorderPermutes(t.body.value, perm);
  }

  // ---------------------------------------------------------------------
  // A second apply changes nothing

  lemma InsertKeepsClean(ths: seq<Th>, idxUnits: nat)
    requires SortHeadersMarked(ths)
    ensures SortHeadersMarked(InsertHeaders(ths, idxUnits))
  {
    if !HasMarked(ths) && ths != [] {
      var a := Anchor(ths, idxUnits);
      var r := InsertHeaders(ths, idxUnits);
      forall k | 0 <= k < |r| ensures r[k].sortHeader ==> r[k].marked {
        if k <= a {
          assert r[k] == ths[k];
        } else if k > a + 2 {
          assert r[k] == ths[k - 2];
        }
      }
    }
  }

  lemma MarkedKept(ths: seq<Th>, key: string, dir: string)
    requires HasMarked(ths)
    ensures HasMarked(Wire(ths)) && HasMarked(Refresh(ths, key, dir))
  {
    var k :| 0 <= k < |ths| && ths[k].marked;
    assert Wire(ths)[k].marked && Refresh(ths, key, dir)[k].marked;
  }

  /** The header row after one `apply` and the facts about it a second
      `apply` relies on. */
  lemma HeadAfterApply(ths: seq<Th>, idxUnits: nat, key: string, dir: string)
    requires SortHeadersMarked(ths)
    ensures var h := Refresh(Wire(InsertHeaders(ths, idxUnits)), key, dir);
      BaseHeaders(h) == BaseHeaders(ths) && SortHeadersMarked(h) &&
      InsertHeaders(h, idxUnits) == h && Wire(h) == h && Refresh(h, key, dir) == h
  {
    var h1 := InsertHeaders(ths, idxUnits);
    var h2 := Wire(h1);
    var h := Refresh(h2, key, dir);
    InsertHeadersKeepBase(ths, idxUnits);
    InsertKeepsClean(ths, idxUnits);
    RefreshWireKeepBase(h1, key, dir);
    RefreshWireKeepBase(h2, key, dir);
    InsertHeadersIdempotent(ths, idxUnits, idxUnits);
    if HasMarked(h1) {
      MarkedKept(h1, key, dir);
      MarkedKept(h2, key, dir);
    }
    WireIdempotent(h1, key, dir);
    WireIdempotent(h2, key, dir);
    RefreshOverwrites(h2, key, dir, key, dir);
  }

  /** Every row the first apply leaves behind needs no cells. */
  lemma RowsSettled(rows: seq<Row>, m: map<Column, nat>, perm: seq<nat>)
    requires InBounds(perm, |rows|)
    ensures forall k :: 0 <= k < |perm| ==> !NeedsCells(Reorder(AnnotateRows(rows, m), perm)[k], m)
  {
    AnnotateRowsAt(rows, m);
    forall k | 0 <= k < |perm| ensures !NeedsCells(Reorder(AnnotateRows(rows, m), perm)[k], m) {
      AnnotatedNeedsNothing(rows[perm[k]], m);
    }
  }

  lemma ReorderRange<T>(rows: seq<T>)
    ensures InBounds(Range(|rows|), |rows|) && Reorder(rows, Range(|rows|)) == rows
  {
  }

  /** The state after one `apply` of a clean table: either untouched, or
      the prepared state refreshed with its rows in some order `perm`. */
  lemma ApplyShape(t: TableState, u: TableState) returns (perm: seq<nat>)
    requires Clean(t) && ApplyOutcome(t, u) && Units in HeaderMap(t)
    ensures var p := Prepared(t, HeaderMap(t));
      InBounds(perm, |BodyRows(p)|) &&
      u == RefreshStep(if p.body.Some? then p.(body := Some(Reorder(p.body.value, perm))) else p)
  {
    var m := HeaderMap(t);
    var p := Prepared(t, m);
    if ActiveSort(t.sortKey, t.sortDir) && Added(t, m) > 0 {
      assert p.body.Some? && p.sortKey == t.sortKey && p.sortDir == t.sortDir;
      perm :| IsSortOrder(p, perm) && u == SortedStep(p, perm);
    } else {
      perm := Range(|BodyRows(p)|);
      ReorderRange(BodyRows(p));
    }
  }

  /** Running `apply` again on the table it produced changes nothing: the
      headers are already there, wired and labelled, no row needs cells,
      and so no sort happens. */
  lemma ApplyIdempotent(t: TableState, u: TableState, v: TableState)
    requires Clean(t) && ApplyOutcome(t, u) && ApplyOutcome(u, v)
    ensures Clean(u) && v == u
  {
    var m := HeaderMap(t);
    if Units in m {
      var perm := ApplyShape(t, u);
      var p := Prepared(t, m);
      if t.head.Some? {
        HeadAfterApply(t.head.value, m[Units], t.sortKey, t.sortDir);
      }
      assert HeaderMap(u) == m;
      if t.body.Some? {
        RowsSettled(t.body.value, m, perm);
        CountNoneNeeding(u.body.value, m);
        AnnotateSettled(u.body.value, m);
      }
      assert Added(u, m) == 0;
      assert Prepared(u, m) == u;
    }
  }
}
