/**
 * A reference meaning for a graph, independent of any run state: the outcome
 * of node i, given the input bindings env, is the node's outcome computed
 * from its arguments' and predecessors' outcomes, each input read from env
 * and each dependency evaluated afresh, with no sharing between the paths
 * that reach it.
 */
module Evaluation {
  import opened Outcomes
  import opened Graphs

  /** Node i, and every node it depends on, refers only to inputs that env binds. */
  ghost predicate Covered<V, C>(arena: seq<Graph<V, C>>, env: map<Input, Outcome<V, C>>, i: nat)
    requires i < |arena|
    decreases i, 1
  {
    var b := arena[i].builder;
    CoveredDeps(arena, env, i, b.inputs) && CoveredDeps(arena, env, i, PredDeps(b.predecessors))
  }

  ghost predicate CoveredDeps<V, C>(arena: seq<Graph<V, C>>, env: map<Input, Outcome<V, C>>, i: nat, ds: seq<Dep>)
    requires i <= |arena|
    decreases i, 0
  {
    forall m :: 0 <= m < |ds| ==>
      match ds[m]
      case InputDep(n) => n in env
      case GraphDep(j) => j < i && Covered(arena, env, j)
  }

  /** The outcome of node i under the bindings env. */
  ghost function Eval<V, C>(arena: seq<Graph<V, C>>, env: map<Input, Outcome<V, C>>, i: nat): Outcome<V, C>
    requires i < |arena| && Covered(arena, env, i)
    decreases i, 1
  {
    var b := arena[i].builder;
    NodeOutcome(b.node, b.fallback, EvalDeps(arena, env, i, b.inputs), EvalDeps(arena, env, i, PredDeps(b.predecessors)))
  }

  /** The outcomes of a list of dependencies of node i, in order. */
  ghost function EvalDeps<V, C>(arena: seq<Graph<V, C>>, env: map<Input, Outcome<V, C>>, i: nat, ds: seq<Dep>): seq<Outcome<V, C>>
    requires i <= |arena| && CoveredDeps(arena, env, i, ds)
    decreases i, 0
  {
    seq(|ds|, m requires 0 <= m < |ds| =>
      match ds[m]
      case InputDep(n) => env[n]
      case GraphDep(j) => Eval(arena, env, j))
  }

  /** Whether node i's function is called under env: all its arguments and predecessors succeed. */
  ghost predicate EvalInvokes<V, C>(arena: seq<Graph<V, C>>, env: map<Input, Outcome<V, C>>, i: nat)
    requires i < |arena| && Covered(arena, env, i)
  {
    var b := arena[i].builder;
    Invokes(EvalDeps(arena, env, i, b.inputs), EvalDeps(arena, env, i, PredDeps(b.predecessors)))
  }
}
