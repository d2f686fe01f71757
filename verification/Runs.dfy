/** Runs of a state machine: a state to begin with, and one more after each operation. */
module Runs {

  /** Each operation takes the state before it to the state after it. */
  ghost predicate Follows<S(!new), O(!new)>(run: seq<S>, ops: seq<O>, moves: (S, O, S) -> bool) {
    && |run| == |ops| + 1
    && forall k {:trigger moves(run[k], ops[k], run[k + 1])} :: 0 <= k < |ops| ==> moves(run[k], ops[k], run[k + 1])
  }

  lemma FollowsNext<S(!new), O(!new)>(run: seq<S>, ops: seq<O>, op: O, s: S, moves: (S, O, S) -> bool)
    requires Follows(run, ops, moves) && moves(run[|ops|], op, s)
    ensures Follows(run + [s], ops + [op], moves)
  {
    var run', ops' := run + [s], ops + [op];
    forall k | 0 <= k < |ops'|
      ensures moves(run'[k], ops'[k], run'[k + 1])
    {
      if k < |ops| { assert moves(run[k], ops[k], run[k + 1]); }
    }
  }

  /** Every state of a run up to the `n`-th has the property. */
  ghost predicate Always<S(!new)>(run: seq<S>, n: nat, p: S -> bool) {
    n <= |run| && forall k :: 0 <= k < n ==> p(run[k])
  }

  lemma AlwaysNext<S(!new)>(run: seq<S>, n: nat, s: S, p: S -> bool)
    requires Always(run, n, p) && n <= |run| && (n < |run| ==> p(run[n])) && (n == |run| ==> p(s))
    ensures Always(run + [s], n + 1, p)
  {
  }
}
