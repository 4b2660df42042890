/** Runs of a fallible step function, and the induction every whole-run theorem uses. */
module Runs {
  import opened Numbers

  /** Applies `ops` in order; the first failure ends the run. */
  ghost function Run<S, O>(step: (S, O) -> Result<S>, s: S, ops: seq<O>): Result<S> {
    if ops == [] then Ok(s)
    else
      match step(s, ops[0])
      case Err(e) => Err(e)
      case Ok(next) => Run(step, next, ops[1..])
  }

  /** `good` holds of every step of the run. */
  ghost predicate Steady<S, O>(step: (S, O) -> Result<S>, good: (S, O) -> bool, s: S, ops: seq<O>) {
    ops != [] ==>
      && good(s, ops[0])
      && (step(s, ops[0]).Ok? ==> Steady(step, good, step(s, ops[0]).value, ops[1..]))
  }

  /** What holds of every step holds of the steps of every run. */
  lemma {:induction false} AlwaysSteady<S(!new), O(!new)>(step: (S, O) -> Result<S>, good: (S, O) -> bool, s: S, ops: seq<O>)
    requires forall t, op :: good(t, op)
    ensures Steady(step, good, s, ops)
    decreases |ops|
  {
    if ops != [] && step(s, ops[0]).Ok? { AlwaysSteady(step, good, step(s, ops[0]).value, ops[1..]); }
  }

  /** What the steps of a run cost, each in the state it finds. */
  ghost function TotalCost<S, O>(step: (S, O) -> Result<S>, cost: (S, O) -> int, s: S, ops: seq<O>): int {
    if ops == [] then 0
    else cost(s, ops[0]) + if step(s, ops[0]).Ok? then TotalCost(step, cost, step(s, ops[0]).value, ops[1..]) else 0
  }

  lemma {:induction false} FreeRun<S(!new), O(!new)>(step: (S, O) -> Result<S>, cost: (S, O) -> int, s: S, ops: seq<O>)
    requires forall t, op :: cost(t, op) == 0
    ensures TotalCost(step, cost, s, ops) == 0
    decreases |ops|
  {
    if ops != [] && step(s, ops[0]).Ok? { FreeRun(step, cost, step(s, ops[0]).value, ops[1..]); }
  }

  /** What one good step keeps: `valid`, and `measure` up to the step's cost. */
  ghost predicate StepKeeps<S(!new), O(!new)>(step: (S, O) -> Result<S>, good: (S, O) -> bool, valid: S -> bool,
                                    measure: S -> int, cost: (S, O) -> int)
  {
    forall s, op {:trigger step(s, op)} :: valid(s) && good(s, op) && step(s, op).Ok? ==>
      valid(step(s, op).value) && measure(s) - cost(s, op) <= measure(step(s, op).value)
  }

  /** Then so does every run. */
  lemma {:induction false} RunKeeps<S(!new), O(!new)>(step: (S, O) -> Result<S>, good: (S, O) -> bool, valid: S -> bool,
                                            measure: S -> int, cost: (S, O) -> int, s: S, ops: seq<O>)
    requires StepKeeps(step, good, valid, measure, cost)
    requires valid(s) && Steady(step, good, s, ops) && Run(step, s, ops).Ok?
    ensures valid(Run(step, s, ops).value)
    ensures measure(s) - TotalCost(step, cost, s, ops) <= measure(Run(step, s, ops).value)
  {
    if ops != [] {
      RunKeeps(step, good, valid, measure, cost, step(s, ops[0]).value, ops[1..]);
    }
  }
}
