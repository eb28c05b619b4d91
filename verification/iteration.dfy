/** Repeated application of a one-step transition: the sequence of states a
    loop passes through when every iteration feeds its result into the next.
 */
module Iteration {

  /** The first `n` states of the run from `s`: `s`, `step(s)`,
      `step(step(s))`, ... */
  function Trajectory<S>(step: S -> S, s: S, n: nat): (states: seq<S>)
    ensures |states| == n
    ensures n > 0 ==> states[0] == s
    decreases n
  {
    if n == 0 then [] else [s] + Trajectory(step, step(s), n - 1)
  }

  /** Every state after the first is the step applied to its predecessor. */
  lemma {:induction false} TrajectorySteps<S>(step: S -> S, s: S, n: nat, k: nat)
    requires k + 1 < n
    ensures Trajectory(step, s, n)[k + 1] == step(Trajectory(step, s, n)[k])
    decreases k
  {
    var rest := Trajectory(step, step(s), n - 1);
    assert Trajectory(step, s, n) == [s] + rest;
    if k > 0 {
      TrajectorySteps(step, step(s), n - 1, k - 1);
    }
  }

  /** A shorter run is a prefix of a longer one. */
  lemma {:induction false} TrajectoryPrefix<S>(step: S -> S, s: S, m: nat, n: nat)
    requires m <= n
    ensures Trajectory(step, s, m) == Trajectory(step, s, n)[..m]
    decreases m
  {
    if m > 0 {
      TrajectoryPrefix(step, step(s), m - 1, n - 1);
      assert Trajectory(step, s, n) == [s] + Trajectory(step, step(s), n - 1);
    }
  }

  /** A property the start state has and every step keeps holds all along
      the run. */
  lemma {:induction false} TrajectoryInvariant<S>(step: S -> S, inv: S -> bool, s: S, n: nat)
    requires inv(s)
    requires forall x :: inv(x) ==> inv(step(x))
    ensures forall k :: 0 <= k < n ==> inv(Trajectory(step, s, n)[k])
    decreases n
  {
    if n > 0 {
      TrajectoryInvariant(step, inv, step(s), n - 1);
      assert Trajectory(step, s, n) == [s] + Trajectory(step, step(s), n - 1);
    }
  }

  /** A measure the step raises by one rises by one per state along the
      run. */
  lemma {:induction false} TrajectoryCounts<S>(step: S -> S, f: S -> int, s: S, n: nat)
    requires forall x :: f(step(x)) == f(x) + 1
    ensures forall k :: 0 <= k < n ==> f(Trajectory(step, s, n)[k]) == f(s) + k
    decreases n
  {
    if n > 0 {
      TrajectoryCounts(step, f, step(s), n - 1);
      assert Trajectory(step, s, n) == [s] + Trajectory(step, step(s), n - 1);
    }
  }
}
