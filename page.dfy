/** The script's top level on one page: finding the Apps table among the
    page's tables, `apply`, and the run/schedule/observe cycle whose flags
    `Scheduling` specifies. */
module Page {
  import opened Options
  import opened Headers
  import opened Table
  import opened AppsTables
  import opened Scheduling

  /** Which of the page's tables have header labels naming all three
      metric columns. */
  function AppsMarks(ts: seq<TableState>): (b: seq<bool>)
    ensures |b| == |ts|
    ensures forall k :: 0 <= k < |ts| ==> b[k] == IsAppsTable(HeaderCells(ts[k]))
  {
    seq(|ts|, k requires 0 <= k < |ts| => IsAppsTable(HeaderCells(ts[k])))
  }

  function FirstTrue(b: seq<bool>): (r: Option<nat>)
    ensures r.Some? ==> r.value < |b|
  {
    if b == [] then None
    else if b[0] then Some(0)
    else Shift(FirstTrue(b[1..]), 1)
  }

  function Shift(r: Option<nat>, d: nat): Option<nat> {
    if r.Some? then Some(r.value + d) else None
  }

  /** The table `findAppsTable` picks. */
  function FirstAppsTable(ts: seq<TableState>): (r: Option<nat>)
    ensures r.Some? ==> r.value < |ts|
  {
    FirstTrue(AppsMarks(ts))
  }

  lemma {:induction false} FirstTrueMeaning(b: seq<bool>)
    ensures var r := FirstTrue(b);
      (r.Some? ==> b[r.value] && forall k :: 0 <= k < r.value ==> !b[k]) &&
      (r.None? ==> forall k :: 0 <= k < |b| ==> !b[k])
  {
    if b != [] && !b[0] {
      FirstTrueMeaning(b[1..]);
      assert forall k :: 1 <= k < |b| ==> b[k] == b[1..][k - 1];
    }
  }

  /** The pick is the Apps table and no earlier table is; no pick means no
      table is. */
  lemma FirstAppsTableMeaning(ts: seq<TableState>)
    ensures var r := FirstAppsTable(ts);
      (r.Some? ==> IsAppsTable(HeaderCells(ts[r.value])) &&
                   forall k :: 0 <= k < r.value ==> !IsAppsTable(HeaderCells(ts[k]))) &&
      (r.None? ==> forall k :: 0 <= k < |ts| ==> !IsAppsTable(HeaderCells(ts[k])))
  {
    FirstTrueMeaning(AppsMarks(ts));
  }

  lemma ScanHit(b: seq<bool>, i: nat)
    requires i < |b| && b[i]
    ensures Shift(FirstTrue(b[i..]), i) == Some(i)
  {
  }

  /** Skipping one position that is not marked. */
  lemma ScanStep(b: seq<bool>, i: nat)
    requires i < |b| && !b[i]
    ensures Shift(FirstTrue(b[i..]), i) == Shift(FirstTrue(b[i + 1..]), i + 1)
  {
    assert b[i..][1..] == b[i + 1..];
  }

  /** What `apply` does to the page: nothing without an Apps table;
      otherwise `apply` on the first one and nothing to the others. */
  ghost predicate PageApplied(before: seq<TableState>, after: seq<TableState>) {
    |after| == |before| &&
    match FirstAppsTable(before)
    case None => after == before
    case Some(i) =>
      ApplyOutcome(before[i], after[i]) &&
      forall k :: 0 <= k < |before| && k != i ==> after[k] == before[k]
  }

  class Script {
    /** The page's tables in document order. Nothing in the script adds or
        removes tables, so the list is fixed; their contents change. */
    const tables: seq<AppsTable>
    var applyScheduled: bool
    var applyRunning: bool
    /** Whether the observer was created and whether it is connected. */
    var hasObserver: bool
    var observing: bool
    /** Frame callbacks requested and not yet run, and runs begun. */
    var pending: nat
    var runs: nat

    function Flags(): Scheduling.Flags
      reads this
    {
      Scheduling.Flags(applyScheduled, applyRunning, hasObserver, observing, pending, runs)
    }

    /** Distinct elements: no table is listed twice. */
    predicate Distinct() {
      forall j, k :: 0 <= j < k < |tables| ==> tables[j] != tables[k]
    }

    function States(): (ts: seq<TableState>)
      reads tables
      ensures |ts| == |tables|
      ensures forall k :: 0 <= k < |tables| ==> ts[k] == tables[k].State()
    {
      seq(|tables|, k reads tables requires 0 <= k < |tables| => tables[k].State())
    }

    constructor (page: seq<AppsTable>)
      ensures tables == page && Flags() == Initial
    {
      tables := page;
      applyScheduled, applyRunning, hasObserver, observing := false, false, false, false;
      pending, runs := 0, 0;
    }

    /** `findAppsTable`. */
    method FindAppsTable() returns (found: Option<nat>)
      ensures found == FirstAppsTable(States())
    {
      found := FindFirst(States());
    }

    /** `apply`. */
    method Apply()
      requires Distinct()
      modifies tables
      ensures PageApplied(old(States()), States())
    {
      var found := FindAppsTable();
      if found.None? {
        return;
      }
      var table := tables[found.value];
      table.Apply();
    }

    /** `runApplyCycle`: one guarded run of `apply` with the observer
        disconnected. */
    method RunApplyCycle()
      requires Distinct()
      modifies this, tables
      ensures Flags() == Cycle(old(Flags()))
      ensures if old(applyRunning) then States() == old(States()) else PageApplied(old(States()), States())
    {
      if applyRunning {
        return;
      }
      ghost var before := States();
      applyRunning := true;
      runs := runs + 1;
      if hasObserver {
        observing := false;
      }
      assert States() == before;
      ghost var f := Flags();
      Apply();
      assert Flags() == f;
      ghost var after := States();
      assert PageApplied(before, after);
      if hasObserver {
        observing := true;
      }
      applyRunning := false;
      assert States() == after;
    }

    /** `scheduleApply`. */
    method ScheduleApply()
      modifies this
      ensures Flags() == Schedule(old(Flags()))
    {
      if applyScheduled {
        return;
      }
      applyScheduled := true;
      pending := pending + 1;
    }

    /** The observer's callback. */
    method ObserverCallback()
      modifies this
      ensures Flags() == Observed(old(Flags()))
    {
      if applyRunning {
        return;
      }
      ScheduleApply();
    }

    /** The frame callback `scheduleApply` requested. */
    method FrameCallback()
      requires Distinct() && pending > 0
      modifies this, tables
      ensures Flags() == Cycle(Consume(old(Flags())))
      ensures if old(applyRunning) then States() == old(States()) else PageApplied(old(States()), States())
    {
      applyScheduled := false;
      pending := pending - 1;
      RunApplyCycle();
    }

    /** The top level of the script: one run, then the observer created and
        connected. */
    method Boot()
      requires Distinct() && Flags() == Initial
      modifies this, tables
      ensures Flags() == Steps(Initial, [RunStart, RunEnd, Install])
      ensures PageApplied(old(States()), States())
    {
      ghost var before := States();
      RunApplyCycle();
      ghost var after := States();
      assert PageApplied(before, after);
      ghost var f := Flags();
      hasObserver := true;
      observing := true;
      assert States() == after;
      assert Flags() == f.(observer := true, observing := true);
      Scheduling.Boot();
    }
  }

  /** The loop of `findAppsTable` over the page's tables. */
  method FindFirst(ts: seq<TableState>) returns (found: Option<nat>)
    ensures found == FirstAppsTable(ts)
  {
    ghost var marks := AppsMarks(ts);
    var i := 0;
    assert marks[0..] == marks;
    while i < |ts|
      invariant 0 <= i <= |ts|
      invariant FirstTrue(marks) == Shift(FirstTrue(marks[i..]), i)
    {
      if IsAppsTable(HeaderCells(ts[i])) {
        ScanHit(marks, i);
        return Some(i);
      }
      ScanStep(marks, i);
      i := i + 1;
    }
    return None;
  }
}
