/** executeConcurrent of ScyllaLoader.java: one task for each row of a batch, a semaphore that
    bounds how many requests are in flight, and the count of the rows that failed. */
module Executor {
  import opened Options

  datatype Phase = Waiting | InFlight | Done(succeeded: bool)

  // A task takes a permit, is interrupted while it waits for one, or ends its request.
  datatype Step = Acquire(task: nat) | Interrupt(task: nat) | Finish(task: nat, succeeded: bool)

  datatype State = State(permits: int, tasks: seq<Phase>)

  function Count(tasks: seq<Phase>, phase: Phase): (n: nat)
    ensures n <= |tasks|
  {
    if tasks == [] then 0 else (if tasks[0] == phase then 1 else 0) + Count(tasks[1..], phase)
  }

  function Holders(s: State): nat { Count(s.tasks, InFlight) }

  predicate AllDone(s: State) { forall i :: 0 <= i < |s.tasks| ==> s.tasks[i].Done? }

  predicate Enabled(s: State, step: Step) {
    step.task < |s.tasks| &&
    match step
    case Acquire(i) => s.tasks[i] == Waiting && s.permits > 0
    case Interrupt(i) => s.tasks[i] == Waiting
    case Finish(i, _) => s.tasks[i] == InFlight
  }

  function After(s: State, step: Step): State
    requires Enabled(s, step)
  {
    match step
    case Acquire(i) => State(s.permits - 1, s.tasks[i := InFlight])
    case Interrupt(i) => s.(tasks := s.tasks[i := Done(false)])
    case Finish(i, ok) => State(s.permits + 1, s.tasks[i := Done(ok)])
  }

  function Start(rows: nat, concurrency: int): State { State(concurrency, seq(rows, _ => Waiting)) }

  // A run: any enabled steps, in any order.
  predicate Run(s: State, steps: seq<Step>)
    decreases |steps|
  {
    steps == [] || (Enabled(s, steps[0]) && Run(After(s, steps[0]), steps[1..]))
  }

  function End(s: State, steps: seq<Step>): State
    requires Run(s, steps)
    decreases |steps|
  {
    if steps == [] then s else End(After(s, steps[0]), steps[1..])
  }

  lemma {:induction false} CountUpdate(tasks: seq<Phase>, i: nat, phase: Phase, counted: Phase)
    requires i < |tasks|
    ensures Count(tasks[i := phase], counted) ==
            Count(tasks, counted) - (if tasks[i] == counted then 1 else 0) + (if phase == counted then 1 else 0)
  {
    if i > 0 {
      CountUpdate(tasks[1..], i - 1, phase, counted);
      assert tasks[i := phase][1..] == tasks[1..][i - 1 := phase];
    } else {
      assert tasks[i := phase][1..] == tasks[1..];
    }
  }

  // How much is left to do.
  function Left(s: State): nat { 2 * Count(s.tasks, Waiting) + Count(s.tasks, InFlight) }

  lemma StepKeeps(s: State, step: Step)
    requires Enabled(s, step)
    ensures var t := After(s, step);
            t.permits + Holders(t) == s.permits + Holders(s) && |t.tasks| == |s.tasks| && Left(t) < Left(s)
            && (s.permits >= 0 ==> t.permits >= 0)
  {
    var i := step.task;
    var phase := After(s, step).tasks[i];
    CountUpdate(s.tasks, i, phase, InFlight);
    CountUpdate(s.tasks, i, phase, Waiting);
  }

  lemma {:induction false} StartIsIdle(rows: nat, concurrency: int)
    ensures Holders(Start(rows, concurrency)) == 0 && Left(Start(rows, concurrency)) == 2 * rows
  {
    if rows > 0 {
      StartIsIdle(rows - 1, concurrency);
      assert Start(rows, concurrency).tasks[1..] == Start(rows - 1, concurrency).tasks;
    }
  }

  lemma {:induction false} RunKeeps(s: State, steps: seq<Step>)
    requires Run(s, steps)
    ensures var t := End(s, steps);
            t.permits + Holders(t) == s.permits + Holders(s) && |t.tasks| == |s.tasks|
            && Left(t) + |steps| <= Left(s) && (s.permits >= 0 ==> t.permits >= 0)
    decreases |steps|
  {
    if steps != [] {
      StepKeeps(s, steps[0]);
      RunKeeps(After(s, steps[0]), steps[1..]);
    }
  }

  /** In every interleaving permits and requests in flight make up the concurrency, so there are
      never more in flight than that; and a run has at most two steps for each row. */
  lemma NeverTooMany(rows: nat, concurrency: int, steps: seq<Step>)
    requires Run(Start(rows, concurrency), steps)
    ensures var t := End(Start(rows, concurrency), steps);
            t.permits + Holders(t) == concurrency && |steps| <= 2 * rows
            && Holders(t) <= (if concurrency > 0 then concurrency else 0)
  {
    StartIsIdle(rows, concurrency);
    RunKeeps(Start(rows, concurrency), steps);
    if concurrency <= 0 {
      NothingInFlight(Start(rows, concurrency), steps);
    }
  }

  lemma {:induction false} NothingInFlight(s: State, steps: seq<Step>)
    requires s.permits <= 0 && Holders(s) == 0 && Run(s, steps)
    ensures End(s, steps).permits == s.permits && Holders(End(s, steps)) == 0
    ensures forall i :: 0 <= i < |steps| ==> steps[i].Interrupt?
    decreases |steps|
  {
    if steps != [] {
      if steps[0].Finish? {
        CountUpdate(s.tasks, steps[0].task, Done(true), InFlight);
        assert false;
      }
      StepKeeps(s, steps[0]);
      CountUpdate(s.tasks, steps[0].task, Done(false), InFlight);
      NothingInFlight(After(s, steps[0]), steps[1..]);
    }
  }

  lemma {:induction false} SomeTask(tasks: seq<Phase>, phase: Phase)
    ensures Count(tasks, phase) > 0 <==> phase in tasks
  {
    if tasks != [] {
      SomeTask(tasks[1..], phase);
    }
  }

  // A step other than an interruption can be taken.
  ghost predicate Progress(s: State) {
    exists step :: Enabled(s, step) && !step.Interrupt?
  }

  /** Until all tasks are done some task can go on without being interrupted, in every run of
      every batch that is not empty, exactly if the concurrency is at least one. */
  lemma ProgressIff(rows: nat, concurrency: int)
    requires rows > 0
    ensures (forall steps :: Run(Start(rows, concurrency), steps) && !AllDone(End(Start(rows, concurrency), steps))
               ==> Progress(End(Start(rows, concurrency), steps)))
            <==> concurrency >= 1
  {
    var s := Start(rows, concurrency);
    if concurrency >= 1 {
      forall steps | Run(s, steps) && !AllDone(End(s, steps)) ensures Progress(End(s, steps)) {
        NeverTooMany(rows, concurrency, steps);
        SomeStep(End(s, steps));
      }
    } else {
      assert Run(s, []) && End(s, []) == s && s.tasks[0] == Waiting;
      StartIsIdle(rows, concurrency);
      SomeTask(s.tasks, InFlight);
      assert !Progress(s);
    }
  }

  lemma SomeStep(s: State)
    requires s.permits + Holders(s) >= 1 && !AllDone(s)
    ensures Progress(s)
  {
    SomeTask(s.tasks, InFlight);
    if InFlight in s.tasks {
      var i :| 0 <= i < |s.tasks| && s.tasks[i] == InFlight;
      assert Enabled(s, Finish(i, true));
    } else {
      var i :| 0 <= i < |s.tasks| && !s.tasks[i].Done?;
      assert s.tasks[i] in s.tasks && s.tasks[i] == Waiting;
      assert Enabled(s, Acquire(i));
    }
  }

  function Acquired(steps: seq<Step>): nat {
    if steps == [] then 0 else (if steps[0].Acquire? then 1 else 0) + Acquired(steps[1..])
  }

  function Finished(steps: seq<Step>): nat {
    if steps == [] then 0 else (if steps[0].Finish? then 1 else 0) + Finished(steps[1..])
  }

  /** Over every run the permits that are missing are those that were acquired and not given back
      by a request that ended: an interrupted wait neither takes nor releases one. */
  lemma {:induction false} InterruptsReleaseNothing(s: State, steps: seq<Step>)
    requires Run(s, steps)
    ensures End(s, steps).permits == s.permits - Acquired(steps) + Finished(steps)
    ensures Holders(End(s, steps)) == Holders(s) + Acquired(steps) - Finished(steps)
    decreases |steps|
  {
    if steps != [] {
      StepKeeps(s, steps[0]);
      InterruptsReleaseNothing(After(s, steps[0]), steps[1..]);
    }
  }

  // --- Runs without interruptions -----------------------------------------------------------------

  predicate Uninterrupted(steps: seq<Step>) { forall i :: 0 <= i < |steps| ==> !steps[i].Interrupt? }

  // A run that goes on as long as it can.
  ghost predicate Exhausted(s: State, steps: seq<Step>) {
    Run(s, steps) && Uninterrupted(steps) && !Progress(End(s, steps))
  }

  /** A batch that is not interrupted, and goes on as long as it can, ends with all its tasks done,
      however they are scheduled, exactly if it has no rows or the concurrency is at least one;
      otherwise it blocks at once. */
  lemma UninterruptedEndsIff(rows: nat, concurrency: int)
    ensures (forall steps :: Exhausted(Start(rows, concurrency), steps) ==> AllDone(End(Start(rows, concurrency), steps)))
            <==> rows == 0 || concurrency >= 1
    ensures rows > 0 && concurrency < 1 ==>
              forall steps :: Run(Start(rows, concurrency), steps) && Uninterrupted(steps) ==> steps == []
  {
    var s := Start(rows, concurrency);
    if rows == 0 || concurrency >= 1 {
      forall steps: seq<Step> | Exhausted(s, steps) ensures AllDone(End(s, steps)) {
        NeverTooMany(rows, concurrency, steps);
        RunKeeps(s, steps);
        if !AllDone(End(s, steps)) && concurrency >= 1 {
          SomeStep(End(s, steps));
        }
      }
    } else {
      StartIsIdle(rows, concurrency);
      forall steps: seq<Step> | Run(s, steps) && Uninterrupted(steps) ensures steps == [] {
        NothingInFlight(s, steps);
        if steps != [] {
          SomeOtherStep(steps);
        }
      }
      ProgressIff(rows, concurrency);
      BlockedAtOnce(rows, concurrency);
    }
  }

  lemma SomeOtherStep(steps: seq<Step>)
    requires Uninterrupted(steps) && steps != []
    ensures exists i :: 0 <= i < |steps| && !steps[i].Interrupt?
  {
    assert !steps[0].Interrupt?;
  }

  lemma BlockedAtOnce(rows: nat, concurrency: int)
    requires rows > 0 && concurrency < 1
    ensures Exhausted(Start(rows, concurrency), []) && !AllDone(End(Start(rows, concurrency), []))
  {
    var s := Start(rows, concurrency);
    StartIsIdle(rows, concurrency);
    SomeTask(s.tasks, InFlight);
    assert s.tasks[0] == Waiting && End(s, []) == s;
  }

  /** With a concurrency of at least one every such run can be carried on until all is done. */
  lemma {:induction false} CanBeFinished(rows: nat, concurrency: int, steps: seq<Step>) returns (more: seq<Step>)
    requires concurrency >= 1 && Run(Start(rows, concurrency), steps) && Uninterrupted(steps)
    ensures Run(Start(rows, concurrency), steps + more) && Uninterrupted(more)
    ensures AllDone(End(Start(rows, concurrency), steps + more))
    decreases Left(End(Start(rows, concurrency), steps))
  {
    var s := Start(rows, concurrency);
    if AllDone(End(s, steps)) {
      more := [];
      assert steps + [] == steps;
    } else {
      NeverTooMany(rows, concurrency, steps);
      SomeStep(End(s, steps));
      var step: Step :| Enabled(End(s, steps), step) && !step.Interrupt?;
      RunThen(s, steps, step);
      StepKeeps(End(s, steps), step);
      var rest := CanBeFinished(rows, concurrency, steps + [step]);
      more := [step] + rest;
      assert steps + more == steps + [step] + rest;
    }
  }

  // --- The executor ----------------------------------------------------------------------------

  class Batch {
    var state: State
    const concurrency: int
    const rows: nat
    ghost var steps: seq<Step>

    ghost predicate Valid()
      reads this
    {
      Run(Start(rows, concurrency), steps) && state == End(Start(rows, concurrency), steps)
    }

    constructor (rows: nat, concurrency: int)
      ensures Valid() && this.rows == rows && this.concurrency == concurrency && steps == []
    {
      this.rows, this.concurrency, state, steps := rows, concurrency, Start(rows, concurrency), [];
    }

    method Take(step: Step)
      requires Valid() && Enabled(state, step)
      modifies this
      ensures Valid() && state == After(old(state), step) && steps == old(steps) + [step]
      ensures Left(state) < Left(old(state))
    {
      StepKeeps(state, step);
      RunThen(Start(rows, concurrency), steps, step);
      state := After(state, step);
      steps := steps + [step];
    }

    // One step of a scheduler that is free to choose any task that can go on; the environment
    // may interrupt one that waits.  False if it does not and no task can.
    method Schedule() returns (going: bool)
      requires Valid() && !AllDone(state)
      modifies this
      ensures Valid() && (going ==> Left(state) < Left(old(state)))
      ensures !going ==> state == old(state) && !Progress(state)
    {
      var interrupts: bool := *;
      if interrupts && exists i :: 0 <= i < |state.tasks| && state.tasks[i] == Waiting {
        var i: nat :| i < |state.tasks| && state.tasks[i] == Waiting;
        Take(Interrupt(i));
        return true;
      }
      if i: nat :| i < |state.tasks| && (state.tasks[i] == InFlight || (state.tasks[i] == Waiting && state.permits > 0)) {
        var succeeded: bool := *;
        if state.tasks[i] == InFlight {
          Take(Finish(i, succeeded));
        } else {
          Take(Acquire(i));
        }
        return true;
      }
      return false;
    }

    /** The sum over the joined tasks: the number of rows that did not succeed. */
    method Join() returns (failed: nat)
      requires Valid() && AllDone(state)
      ensures failed == Count(state.tasks, Done(false))
      ensures failed + Count(state.tasks, Done(true)) == rows
    {
      failed := 0;
      for i := 0 to |state.tasks|
        invariant failed + Count(state.tasks[i..], Done(false)) == Count(state.tasks, Done(false))
      {
        assert state.tasks[i..][1..] == state.tasks[i + 1..];
        failed := failed + if state.tasks[i].succeeded then 0 else 1;
      }
      AllCounted(state.tasks);
      RunKeeps(Start(rows, concurrency), steps);
    }
  }

  lemma {:induction false} RunThen(s: State, steps: seq<Step>, step: Step)
    requires Run(s, steps) && Enabled(End(s, steps), step)
    ensures Run(s, steps + [step]) && End(s, steps + [step]) == After(End(s, steps), step)
    decreases |steps|
  {
    if steps == [] {
      assert (steps + [step])[1..] == [];
      assert Run(After(s, step), []) && End(After(s, step), []) == After(s, step);
    } else {
      RunThen(After(s, steps[0]), steps[1..], step);
      assert (steps + [step])[1..] == steps[1..] + [step];
    }
  }

  lemma {:induction false} AllCounted(tasks: seq<Phase>)
    requires forall i :: 0 <= i < |tasks| ==> tasks[i].Done?
    ensures Count(tasks, Done(true)) + Count(tasks, Done(false)) == |tasks|
  {
    if tasks != [] {
      AllCounted(tasks[1..]);
    }
  }

  /** executeConcurrent: however its tasks are scheduled and interrupted, it returns the number of rows
      that did not succeed.  None means that it blocks for ever, with tasks that wait for a permit and are
      not interrupted; for that the concurrency has to be below one. */
  method ExecuteConcurrent(rows: nat, concurrency: int) returns (failed: Option<nat>, batch: Batch)
    ensures batch.Valid() && batch.rows == rows && batch.concurrency == concurrency
    ensures failed.Some? ==>
              && AllDone(batch.state) && failed.value == Count(batch.state.tasks, Done(false))
              && failed.value + Count(batch.state.tasks, Done(true)) == rows
    ensures failed.None? ==> concurrency < 1 && !AllDone(batch.state) && !Progress(batch.state)
  {
    batch := new Batch(rows, concurrency);
    while !AllDone(batch.state)
      invariant fresh(batch) && batch.Valid() && batch.rows == rows && batch.concurrency == concurrency
      decreases Left(batch.state)
    {
      var going := batch.Schedule();
      if !going {
        NeverTooMany(rows, concurrency, batch.steps);
        if concurrency >= 1 {
          SomeStep(batch.state);
        }
        return None, batch;
      }
    }
    var n := batch.Join();
    return Some(n), batch;
  }
}
