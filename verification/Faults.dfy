/** How external commands fail: a plan says, command by command, what happens. */
module Faults {
  /** How a command goes: normally; with a nonzero status and no effect; or with an
      exception (timeout, signal), before or after it took effect. */
  datatype Outcome = Fine | Nonzero | Raised(applied: bool)

  type Plan = seq<Outcome>

  /** The outcome of the `i`-th command. */
  function At(plan: Plan, i: nat): Outcome {
    if i < |plan| then plan[i] else Fine
  }

  /** Commands `a` to `b - 1` went normally. */
  predicate Went(plan: Plan, a: nat, b: nat) {
    forall i: nat :: a <= i < b ==> At(plan, i) == Fine
  }

  /** None of them raised; nonzero statuses are possible. */
  predicate Unraised(plan: Plan, a: nat, b: nat) {
    forall i: nat :: a <= i < b ==> !At(plan, i).Raised?
  }
}
