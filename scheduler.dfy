/** The flags that throttle `apply` (`applyScheduled`, `applyRunning`) and
    the mutation observer, as a state machine driven by the events the
    browser delivers: a DOM mutation, an animation-frame callback, and the
    start and end of a run of `apply`. */
module Scheduling {
  /** `scheduled` and `running` are the script's two flags; `observer`
      says whether the observer was created and `observing` whether it is
      connected; `pending` counts animation-frame callbacks requested and
      not yet run; `runs` counts the runs of `apply` begun. */
  datatype Flags = Flags(scheduled: bool, running: bool, observer: bool, observing: bool,
                         pending: nat, runs: nat)

  datatype Event = Mutation | Frame | RunStart | RunEnd | Install

  /** The flags when the script starts: nothing scheduled, nothing running,
      no observer yet. */
  const Initial: Flags := Flags(false, false, false, false, 0, 0)

  /** The head of `runApplyCycle`: ignored while a run is in progress;
      otherwise the run is marked, the observer disconnected and `apply`
      begins. */
  function BeginRun(s: Flags): (r: Flags)
    ensures s.running ==> r == s
    ensures !s.running ==> r.running && r.runs == s.runs + 1 && (s.observer ==> !r.observing)
  {
    if s.running then s
    else s.(running := true, observing := if s.observer then false else s.observing, runs := s.runs + 1)
  }

  /** The `finally` block of `runApplyCycle`: the observer reconnected and
      the run flag cleared. */
  function EndRun(s: Flags): (r: Flags)
    ensures !r.running && (s.observer ==> r.observing)
  {
    s.(running := false, observing := if s.observer then true else s.observing)
  }

  /** The flag effect of a whole `runApplyCycle`. */
  function Cycle(s: Flags): Flags {
    if s.running then s else EndRun(BeginRun(s))
  }

  /** `scheduleApply`: requests a frame unless one is already requested. */
  function Schedule(s: Flags): (r: Flags)
    ensures r.scheduled
    ensures r.pending == (if s.scheduled then s.pending else s.pending + 1)
  {
    if s.scheduled then s else s.(scheduled := true, pending := s.pending + 1)
  }

  /** The observer's callback: nothing while `apply` runs, else a request. */
  function Observed(s: Flags): Flags {
    if s.running then s else Schedule(s)
  }

  /** The start of the frame callback: its request is used up and the flag
      that blocked further requests is cleared. */
  function Consume(s: Flags): Flags
    requires s.pending > 0
  {
    s.(scheduled := false, pending := s.pending - 1)
  }

  /** One event. A mutation reaches the callback only while the observer
      is connected; a frame callback fires only when one was requested and
      then starts a run; the end of a run is its `finally` block; `Install`
      creates and connects the observer. */
  function Step(s: Flags, e: Event): Flags {
    match e
    case Mutation => if s.observing then Observed(s) else s
    case Frame => if s.pending == 0 then s else BeginRun(Consume(s))
    case RunStart => BeginRun(s)
    case RunEnd => if s.running then EndRun(s) else s
    case Install => s.(observer := true, observing := true)
  }

  function Steps(s: Flags, es: seq<Event>): Flags
    decreases |es|
  {
    if es == [] then s else Steps(Step(s, es[0]), es[1..])
  }

  /** At most one frame callback is pending, exactly when `applyScheduled`
      is set; only an existing observer can be connected; and it is not
      connected while a run is in progress. */
  predicate Inv(s: Flags) {
    s.pending == (if s.scheduled then 1 else 0) &&
    (s.observing ==> s.observer) &&
    (s.running ==> !s.observing)
  }

  // ---------------------------------------------------------------------
  // Properties

  lemma InitialInv()
    ensures Inv(Initial)
  {
  }

  /** Every event keeps the invariant; the observer is only created by the
      top-level code, never during a run. */
  lemma StepKeepsInv(s: Flags, e: Event)
    requires Inv(s) && (e == Install ==> !s.running)
    ensures Inv(Step(s, e))
  {
  }

  /** After the observer is created, every sequence of events keeps the
      invariant, so no more than one frame callback is ever pending. */
  lemma {:induction false} StepsKeepInv(s: Flags, es: seq<Event>)
    requires Inv(s)
    requires forall k :: 0 <= k < |es| ==> es[k] != Install
    ensures Inv(Steps(s, es)) && Steps(s, es).pending <= 1
    decreases |es|
  {
    if es != [] {
      StepKeepsInv(s, es[0]);
      StepsKeepInv(Step(s, es[0]), es[1..]);
    }
  }

  /** The script's top level: one run, then the observer is created and
      connected, leaving it idle and observing. */
  lemma Boot()
    ensures Steps(Initial, [RunStart, RunEnd, Install]) ==
      Flags(false, false, true, true, 0, 1)
    ensures Inv(Steps(Initial, [RunStart, RunEnd, Install]))
  {
  }

  /** A mutation during a run is dropped, whether or not the observer is
      connected. */
  lemma MutationWhileRunning(s: Flags)
    requires s.running
    ensures Step(s, Mutation) == s && Observed(s) == s
  {
  }

  /** A run started while one is in progress does nothing. */
  lemma StartWhileRunning(s: Flags)
    requires s.running
    ensures Step(s, RunStart) == s && Cycle(s) == s
  {
  }

  /** A whole run clears the run flag, reconnects an existing observer,
      counts one run and changes nothing else. */
  lemma CycleRestores(s: Flags)
    requires !s.running
    ensures Cycle(s) == s.(observing := s.observing || s.observer, runs := s.runs + 1)
    ensures Steps(s, [RunStart, RunEnd]) == Cycle(s)
  {
  }

  /** From an idle, observed state, any burst of mutations leads to one
      requested frame ... */
  lemma {:induction false} BurstSchedulesOnce(s: Flags, n: nat)
    requires !s.running && s.observing && !s.scheduled && n >= 1
    ensures Steps(s, Mutations(n)) == s.(scheduled := true, pending := s.pending + 1)
  {
    if n > 1 {
      BurstSchedulesOnce(s, n - 1);
      StepsAppend(s, Mutations(n - 1), [Mutation]);
    }
  }

  function Mutations(n: nat): (es: seq<Event>)
    ensures |es| == n && forall k :: 0 <= k < n ==> es[k] == Mutation
  {
    if n == 0 then [] else Mutations(n - 1) + [Mutation]
  }

  lemma {:induction false} StepsAppend(s: Flags, a: seq<Event>, b: seq<Event>)
    ensures Steps(s, a + b) == Steps(Steps(s, a), b)
    decreases |a|
  {
    if a != [] {
      assert (a + b)[0] == a[0] && (a + b)[1..] == a[1..] + b;
      StepsAppend(Step(s, a[0]), a[1..], b);
    } else {
      assert a + b == b;
    }
  }

  /** ... and so to exactly one run: the burst is coalesced, and the state
      afterwards is the idle one with one more run. */
  lemma Coalesce(s: Flags, n: nat)
    requires Inv(s) && !s.running && s.observing && !s.scheduled && n >= 1
    ensures Steps(s, Mutations(n) + [Frame, RunEnd]) == s.(runs := s.runs + 1)
  {
    BurstSchedulesOnce(s, n);
    StepsAppend(s, Mutations(n), [Frame, RunEnd]);
  }

  /** The whole frame callback, when no run is in progress, is the frame
      event followed by the end of the run it started. */
  lemma FrameCallbackSteps(s: Flags)
    requires s.pending > 0 && !s.running
    ensures Cycle(Consume(s)) == Steps(s, [Frame, RunEnd])
  {
    assert [Frame, RunEnd][1..] == [RunEnd];
  }

  /** A frame callback that fires during a run uses up its request without
      starting a second run. */
  lemma FrameWhileRunning(s: Flags)
    requires s.running && s.pending > 0
    ensures Step(s, Frame) == Consume(s)
  {
  }
}
