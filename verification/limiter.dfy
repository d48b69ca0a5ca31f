/**
 * The bounded task gate shared by every entry point of the article pipeline
 * (backend/src/common/concurrency-limiter.ts).
 *
 * `ConcurrencyLimiter` keeps the counter `running`. A task is admitted only
 * while `running < maxConcurrency`; admission raises the counter by one and the
 * `finally` lowers it by one whether the awaited function returned or threw.
 *
 * The class below runs tasks one after another, so a caller never has to wait
 * for a slot held by someone else. How several tasks interleave (each polling
 * the guard, each finishing at its own time) is modelled separately, as traces
 * of `Event`s replayed against the same counter.
 */
module Limiter {

  /** What awaiting a task produced: its value, or the message of what it threw. */
  datatype Outcome<+T> = Returned(value: T) | Threw(message: string)

  class ConcurrencyLimiter {
    const maxConcurrency: nat
    var running: nat

    ghost predicate Valid()
      reads this
    {
      running <= maxConcurrency
    }

    constructor (maxConcurrency: nat)
      ensures Valid()
      ensures this.maxConcurrency == maxConcurrency && running == 0
    {
      this.maxConcurrency := maxConcurrency;
      running := 0;
    }

    /** One test of the polling loop's guard, followed by admission when it passes. */
    method TryAdmit() returns (admitted: bool)
      requires Valid()
      modifies this
      ensures Valid()
      ensures admitted <==> old(running) < maxConcurrency
      ensures running == if admitted then old(running) + 1 else old(running)
    {
      admitted := running < maxConcurrency;
      if admitted {
        running := running + 1;
      }
    }

    /** The `finally` block: the slot taken at admission is given back. */
    method Release()
      requires Valid() && running > 0
      modifies this
      ensures Valid()
      ensures running == old(running) - 1
    {
      running := running - 1;
    }

    /** `getRunningCount`: reports the counter and changes nothing. */
    method GetRunningCount() returns (n: nat)
      requires Valid()
      ensures n == running && n <= maxConcurrency
    {
      n := running;
    }

    /** `run(task)`: admit, await the function, release. It is given by its
        outcome; whatever it returned or threw is passed through unchanged and
        the slot is given back in both cases. */
    method Run<T>(task: Outcome<T>) returns (r: Outcome<T>)
      requires Valid() && running < maxConcurrency
      modifies this
      ensures Valid()
      ensures running == old(running)
      ensures r == task
    {
      var admitted := TryAdmit();
      r := task;
      Release();
    }

    /** `runBatch(tasks)`: the tasks run one after another in list order; the
        first task that throws makes the whole batch throw with its message. */
    method RunBatch<T>(tasks: seq<Outcome<T>>) returns (r: Outcome<seq<T>>)
      requires Valid() && running < maxConcurrency
      modifies this
      ensures Valid()
      ensures running == old(running)
      ensures r == BatchOutcome(tasks)
    {
      var results: seq<T> := [];
      var i := 0;
      while i < |tasks|
        invariant 0 <= i <= |tasks|
        invariant Valid() && running == old(running)
        invariant forall k :: 0 <= k < i ==> tasks[k].Returned?
        invariant results == Values(tasks[..i])
      {
        var result := Run(tasks[i]);
        if result.Threw? {
          BatchOutcomeAtFirstThrow(tasks, i);
          return Threw(result.message);
        }
        assert tasks[..i + 1] == tasks[..i] + [tasks[i]];
        ValuesAppend(tasks[..i], tasks[i]);
        results := results + [result.value];
        i := i + 1;
      }
      assert tasks[..i] == tasks;
      BatchOutcomeAllReturned(tasks);
      r := Returned(results);
    }
  }

  /** The values of a list of outcomes that all returned, in order. */
  function Values<T>(tasks: seq<Outcome<T>>): seq<T>
    requires forall k :: 0 <= k < |tasks| ==> tasks[k].Returned?
  {
    if tasks == [] then [] else [tasks[0].value] + Values(tasks[1..])
  }

  lemma {:induction false} ValuesAppend<T>(tasks: seq<Outcome<T>>, t: Outcome<T>)
    requires forall k :: 0 <= k < |tasks| ==> tasks[k].Returned?
    requires t.Returned?
    ensures Values(tasks + [t]) == Values(tasks) + [t.value]
  {
    if tasks != [] {
      assert (tasks + [t])[1..] == tasks[1..] + [t];
      ValuesAppend(tasks[1..], t);
    }
  }

  /** What `runBatch` settles with: the list of all results in task order, or
      the message of the first task (in list order) that threw. */
  function BatchOutcome<T>(tasks: seq<Outcome<T>>): (r: Outcome<seq<T>>)
    ensures r.Returned? <==> forall k :: 0 <= k < |tasks| ==> tasks[k].Returned?
    ensures r.Returned? ==> |r.value| == |tasks|
    ensures r.Returned? ==> forall k :: 0 <= k < |tasks| ==> r.value[k] == tasks[k].value
    ensures r.Threw? ==>
      exists k :: 0 <= k < |tasks| && tasks[k] == Threw(r.message) && forall j :: 0 <= j < k ==> tasks[j].Returned?
  {
    if tasks == [] then Returned([])
    else match tasks[0]
      case Threw(m) => Threw(m)
      case Returned(v) =>
        var rest := BatchOutcome(tasks[1..]);
        if rest.Threw? then
          assert forall k :: 1 <= k < |tasks| ==> tasks[k] == tasks[1..][k - 1];
          rest
        else Returned([v] + rest.value)
  }

  lemma {:induction false} BatchOutcomeAtFirstThrow<T>(tasks: seq<Outcome<T>>, i: nat)
    requires i < |tasks| && tasks[i].Threw?
    requires forall k :: 0 <= k < i ==> tasks[k].Returned?
    ensures BatchOutcome(tasks) == Threw(tasks[i].message)
  {
    if i > 0 {
      BatchOutcomeAtFirstThrow(tasks[1..], i - 1);
    }
  }

  lemma {:induction false} BatchOutcomeAllReturned<T>(tasks: seq<Outcome<T>>)
    requires forall k :: 0 <= k < |tasks| ==> tasks[k].Returned?
    ensures BatchOutcome(tasks) == Returned(Values(tasks))
  {
    if tasks != [] {
      BatchOutcomeAllReturned(tasks[1..]);
    }
  }

  // ---------------------------------------------------------------------------
  // Interleavings

  /** What one task does to the shared limiter: `Poll` is one test of the
      `while (running >= maxConcurrency)` guard (admission when it passes),
      `Finish` is the `finally` of a task that was admitted, after it returned
      or threw. */
  datatype Event = Poll(task: nat) | Finish(task: nat)

  /** The limiter's counter together with the set of tasks that are inside their
      `try` block. */
  datatype Gate = Gate(running: nat, inside: set<nat>)

  function Step(max: nat, g: Gate, e: Event): Gate
  {
    match e
    case Poll(t) =>
      if t !in g.inside && g.running < max then Gate(g.running + 1, g.inside + {t}) else g
    case Finish(t) =>
      if t in g.inside && g.running > 0 then Gate(g.running - 1, g.inside - {t}) else g
  }

  /** The gate after a trace of events. A task only gets inside by a poll of
      its own, and only leaves by a finish of its own. */
  function Replay(max: nat, g: Gate, trace: seq<Event>): (r: Gate)
    ensures forall t :: t in r.inside && t !in g.inside ==> Poll(t) in trace
    ensures forall t :: t in g.inside && t !in r.inside ==> Finish(t) in trace
    decreases |trace|
  {
    if trace == [] then g
    else
      var g' := Step(max, g, trace[0]);
      var r := Replay(max, g', trace[1..]);
      assert forall e :: e in trace[1..] ==> e in trace;
      r
  }

  /** The counter is the number of admitted tasks that have not finished, and
      never exceeds the bound. */
  ghost predicate GateInvariant(max: nat, g: Gate)
  {
    g.running == |g.inside| && g.running <= max
  }

  /** Whatever the interleaving of polls and finishes, starting from an idle
      limiter the counter stays between 0 and `maxConcurrency`, and every admitted
      task gives its slot back exactly once: the counter always equals the number
      of tasks that were admitted and have not yet finished. */
  lemma {:induction false} ReplayKeepsInvariant(max: nat, g: Gate, trace: seq<Event>)
    requires GateInvariant(max, g)
    ensures GateInvariant(max, Replay(max, g, trace))
    decreases |trace|
  {
    if trace != [] {
      var g' := Step(max, g, trace[0]);
      match trace[0] {
        case Poll(t) =>
          if t !in g.inside && g.running < max {
            assert |g.inside + {t}| == |g.inside| + 1;
          }
        case Finish(t) =>
          if t in g.inside && g.running > 0 {
            assert |g.inside - {t}| == |g.inside| - 1;
          }
      }
      ReplayKeepsInvariant(max, g', trace[1..]);
    }
  }

  /** A poll admits a task exactly when the counter is below the bound, and
      admission raises the counter by exactly one; a finish of an admitted task
      lowers it by exactly one, and a second finish of the same task changes
      nothing. */
  lemma AdmissionAndRelease(max: nat, g: Gate, t: nat)
    requires GateInvariant(max, g) && t !in g.inside
    ensures var a := Step(max, g, Poll(t));
      (t in a.inside <==> g.running < max)
      && (t in a.inside ==> a.running == g.running + 1)
    ensures var a := Step(max, g, Poll(t));
      t in a.inside ==>
        var f := Step(max, a, Finish(t));
        f == g && Step(max, f, Finish(t)) == f
  {
    var a := Step(max, g, Poll(t));
    if t in a.inside {
      assert a.inside - {t} == g.inside;
    }
  }
}
