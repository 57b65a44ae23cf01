/** The Apps table as the script changes it: a header row and body rows
    held in fields that `apply` and its steps update in place, and the sort
    state kept in the table's dataset. Every step is proved to produce the
    outcome `Table` specifies for it. */
module AppsTables {
  import opened Options
  import opened Text
  import opened Metric
  import opened Derived
  import opened Headers
  import opened Rows
  import opened Sorting
  import opened Table

  /** The body of `ensureRows`' loop for one row: its derived cells made
      from the units cell and inserted after it, when the row has none
      yet and a cell in each mapped column. */
  method EnsureRow(row: Row, m: map<Column, nat>) returns (newRow: Row, changed: bool)
    ensures changed <==> NeedsCells(row, m)
    ensures newRow == AnnotateRow(row, m)
  {
    newRow, changed := row, false;
    // A row without derived cells has only base cells, so `baseTds` is
    // the row itself.
    if HasExtra(row) {
      return;
    }
    if Impressions !in m || Units !in m || Sessions !in m {
      return;
    }
    var iImp, iUnits, iSessions := m[Impressions], m[Units], m[Sessions];
    if iImp >= |row| || iUnits >= |row| || iSessions >= |row| {
      return;
    }
    var impressions := PrimaryMetric(ContentOf(row[iImp]));
    var units := PrimaryMetric(ContentOf(row[iUnits]));
    var sessions := PrimaryMetric(ContentOf(row[iSessions]));
    var d := ComputeDerived(impressions, units, sessions);
    var tdConv := Extra(FmtPercent(d.conv));
    var tdSpu := Extra(FmtNumber(d.spu));
    newRow := row[..iUnits + 1] + [tdConv, tdSpu] + row[iUnits + 1..];
    changed := true;
  }

  /** The loop of `headerIndexMap` over the header cells: marked headers
      are skipped, the others numbered in order and matched by label. */
  method IndexHeaders(ths: seq<Th>) returns (baseThs: seq<Th>, m: map<Column, nat>)
    ensures baseThs == BaseHeaders(ths)
    ensures m == IndexMap(baseThs)
  {
    baseThs := [];
    m := map[];
    var i := 0;
    while i < |ths|
      invariant 0 <= i <= |ths|
      invariant baseThs == BaseHeaders(ths[..i])
      invariant m == IndexMap(baseThs)
    {
      var th := ths[i];
      BaseHeadersSnoc(ths, i);
      if !th.marked {
        var idx := |baseThs|;
        IndexMapSnoc(baseThs, th);
        baseThs := baseThs + [th];
        var key := Label(th);
        if StartsWith(key, "impressions") {
          m := m[Impressions := idx];
        } else if StartsWith(key, "units") {
          m := m[Units := idx];
        } else if StartsWith(key, "sessions") {
          m := m[Sessions := idx];
        }
      }
      i := i + 1;
    }
    assert ths[..i] == ths;
  }

  /** The loop of `ensureRows` over the body rows. */
  method EnsureEachRow(rows0: seq<Row>, m: map<Column, nat>) returns (rows: seq<Row>, added: nat)
    ensures rows == AnnotateRows(rows0, m)
    ensures added == CountNeeding(rows0, m)
  {
    rows := [];
    added := 0;
    var i := 0;
    assert rows0[..0] == [];
    while i < |rows0|
      invariant 0 <= i <= |rows0|
      invariant rows == AnnotateRows(rows0[..i], m)
      invariant added == CountNeeding(rows0[..i], m)
    {
      var newRow, changed := EnsureRow(rows0[i], m);
      AnnotateSnoc(rows0, m, i);
      rows := rows + [newRow];
      if changed {
        added := added + 1;
      }
      i := i + 1;
    }
    assert rows0[..i] == rows0;
  }

  class AppsTable {
    /** The `th` cells of `thead tr`, absent when there is no such row. */
    var head: Option<seq<Th>>
    /** The rows of `tbody`, absent when there is no `tbody`. */
    var body: Option<seq<Row>>
    /** `data-tm-sort-key` and `data-tm-sort-dir` of the table, "" when unset. */
    var sortKey: string
    var sortDir: string

    function State(): TableState
      reads this
    {
      TableState(head, body, sortKey, sortDir)
    }

    constructor (head0: Option<seq<Th>>, body0: Option<seq<Row>>)
      ensures State() == TableState(head0, body0, "", "")
    {
      head := head0;
      body := body0;
      sortKey := "";
      sortDir := "";
    }

    /** `headerIndexMap`: the headers the script did not inject, and for each
        metric column the base position of the last header naming it. */
    method HeaderIndexMap() returns (baseThs: seq<Th>, m: map<Column, nat>)
      ensures baseThs == BaseHeaders(HeaderCells(State()))
      ensures m == IndexMap(baseThs)
    {
      baseThs, m := IndexHeaders(HeaderCells(State()));
    }

    /** `setSortState`. */
    method SetSortState(key: string, dir: string)
      modifies this
      ensures State() == old(State()).(sortKey := key, sortDir := dir)
    {
      sortKey := key;
      sortDir := dir;
    }

    /** `ensureHeader`: inserts the conv and spu headers after the units
        header once, cloned from it. `baseThs` is what `HeaderIndexMap`
        returned for this table. */
    method EnsureHeader(baseThs: seq<Th>, idxUnits: nat)
      requires baseThs == BaseHeaders(HeaderCells(State()))
      modifies this
      ensures State() == EnsureHeaderStep(old(State()), idxUnits)
    {
      if head.None? {
        return;
      }
      var ths := head.value;
      if HasMarked(ths) {
        return;
      }
      BaseOfUnmarked(ths);
      var unitsTh: Th;
      if idxUnits < |baseThs| {
        unitsTh := baseThs[idxUnits];
      } else if ths != [] {
        unitsTh := ths[|ths| - 1];
      } else {
        return;
      }
      var thConv := CloneHeaderLike(unitsTh, ConvLabel, "conv");
      var thSpu := CloneHeaderLike(unitsTh, SpuLabel, "spu");
      var anchor := if idxUnits < |ths| then idxUnits else |ths| - 1;
      head := Some(ths[..anchor + 1] + [thConv, thSpu] + ths[anchor + 1..]);
    }

    /** `ensureRows`: gives every row that needs them its two derived cells,
        right after the units cell, and returns how many rows it changed. */
    method EnsureRows(m: map<Column, nat>) returns (added: nat)
      modifies this
      ensures State() == EnsureRowsStep(old(State()), m)
      ensures added == Added(old(State()), m)
    {
      if body.None? {
        return 0;
      }
      var rows;
      rows, added := EnsureEachRow(body.value, m);
      body := Some(rows);
    }

    /** `wireSortHeaders`: binds the click and key handlers of every sort
        header not bound yet. */
    method WireSortHeaders()
      modifies this
      ensures State() == WireStep(old(State()))
    {
      if head.None? {
        return;
      }
      var ths := head.value;
      ghost var ths0 := ths;
      var i := 0;
      while i < |ths|
        invariant 0 <= i <= |ths| == |ths0|
        invariant forall k :: 0 <= k < i ==> ths[k] == Wire(ths0)[k]
        invariant forall k :: i <= k < |ths| ==> ths[k] == ths0[k]
      {
        if ths[i].sortHeader && !ths[i].bound {
          ths := ths[i := ths[i].(bound := true, handlers := true)];
        }
        i := i + 1;
      }
      assert ths == Wire(ths0);
      head := Some(ths);
    }

    /** `refreshSortHeaderUi`: relabels every sort header, with the arrow and
        `aria-sort` of the active sort on the header whose key it is. */
    method RefreshSortHeaderUi()
      modifies this
      ensures State() == RefreshStep(old(State()))
    {
      if head.None? {
        return;
      }
      var activeKey, activeDir := sortKey, sortDir;
      var ths := head.value;
      ghost var ths0 := ths;
      var i := 0;
      while i < |ths|
        invariant 0 <= i <= |ths| == |ths0|
        invariant forall k :: 0 <= k < i ==> ths[k] == RefreshHeader(ths0[k], activeKey, activeDir)
        invariant forall k :: i <= k < |ths| ==> ths[k] == ths0[k]
      {
        var th := ths[i];
        if th.sortHeader {
          var baseLabel := BaseLabel(th.sortKey);
          var isActive := th.sortKey == Some(activeKey) && (activeDir == Asc || activeDir == Desc);
          th := th.(text := baseLabel + Suffix(if isActive then Some(activeDir) else None),
                    ariaSort := Some(if isActive then (if activeDir == Asc then "ascending" else "descending") else "none"));
          ths := ths[i := th];
        }
        i := i + 1;
      }
      assert ths == Refresh(ths0, activeKey, activeDir);
      head := Some(ths);
    }

    /** `applySort`: without a body nothing; without an active sort only the
        refresh; otherwise the rows ordered by the comparator, then the
        refresh. */
    method ApplySort()
      modifies this
      ensures SortOutcome(old(State()), State())
    {
      if body.None? {
        return;
      }
      var key, dir := sortKey, sortDir;
      if !(key != "" && (dir == Asc || dir == Desc)) {
        RefreshSortHeaderUi();
        return;
      }
      var rows := body.value;
      var vals := SortValues(rows, key);
      var perm := StableOrder(vals, dir);
      ghost var t := State();
      assert IsSortOrder(t, perm);
      body := Some(Reorder(rows, perm));
      RefreshSortHeaderUi();
      assert State() == SortedStep(t, perm);
    }

    /** `onToggle` of the header whose `data-tm-sort-key` is `key`: nothing
        without a key; otherwise the next sort state stored and applied. */
    method OnToggle(key: Option<string>)
      modifies this
      ensures key.None? || key.value == "" ==> State() == old(State())
      ensures key.Some? && key.value != "" ==> SortOutcome(Toggled(old(State()), key.value), State())
    {
      if key.None? || key.value == "" {
        return;
      }
      var nextDir := if sortKey == key.value && sortDir == Asc then Desc else Asc;
      SetSortState(key.value, nextDir);
      ApplySort();
    }

    /** A click on header `i`: the handler runs only when its listeners
        are attached. */
    method Click(i: nat)
      requires i < |HeaderCells(State())|
      modifies this
      ensures var th := HeaderCells(old(State()))[i];
        if th.handlers && th.sortKey.Some? && th.sortKey.value != "" then
          SortOutcome(Toggled(old(State()), th.sortKey.value), State())
        else State() == old(State())
    {
      var th := HeaderCells(State())[i];
      if th.handlers {
        OnToggle(th.sortKey);
      }
    }

    /** A key press on header `i`: Enter and Space act as a click. */
    method KeyDown(i: nat, evKey: string)
      requires i < |HeaderCells(State())|
      modifies this
      ensures var th := HeaderCells(old(State()))[i];
        if (evKey == "Enter" || evKey == " ") && th.handlers && th.sortKey.Some? && th.sortKey.value != "" then
          SortOutcome(Toggled(old(State()), th.sortKey.value), State())
        else State() == old(State())
    {
      if evKey == "Enter" || evKey == " " {
        Click(i);
      }
    }

    /** `apply` on the Apps table. */
    method Apply()
      modifies this
      ensures ApplyOutcome(old(State()), State())
    {
      var baseThs, m := HeaderIndexMap();
      if Units !in m {
        return;
      }
      var iUnits := m[Units];
      var key, dir := sortKey, sortDir;
      var hasActiveSort := key != "" && (dir == Asc || dir == Desc);
      EnsureHeader(baseThs, iUnits);
      var addedRows := EnsureRows(m);
      WireSortHeaders();
      if hasActiveSort && addedRows > 0 {
        ApplySort();
      } else {
        RefreshSortHeaderUi();
      }
    }
  }
}
