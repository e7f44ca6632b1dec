/**
 * The invariant a run keeps between two calls of futureForGraph, and its
 * preservation by every step of the resolution.
 *
 * A run's state is accounted for by the graph instances whose bindings have
 * been added ("visited"): those already resolved (the memo) and those still
 * being resolved (the ancestors A of the node at hand).  The invariant says
 * that
 *   - each instance's bindings were added once, and the run's bindings are
 *     exactly the union of the visited instances' bindings, with no input
 *     bound by two of them;
 *   - every memoized outcome is the node's outcome computed from the
 *     memoized outcomes and bindings of its own dependencies, and the node
 *     function of a memoized instance was called iff all those dependencies
 *     succeeded;
 *   - no node function was called twice, and only memoized instances' were.
 * R is a set of instances closed under dependencies (in the theorems, those
 * reachable from the root) that contains every instance visited.
 */
module RunInvariant {
  import opened Outcomes
  import opened Graphs
  import opened Traversal

  ghost predicate NoDup(s: seq<nat>) {
    forall a, b :: 0 <= a < b < |s| ==> s[a] != s[b]
  }

  ghost predicate InArena<V, C>(arena: seq<Graph<V, C>>, vs: seq<nat>) {
    forall k :: 0 <= k < |vs| ==> vs[k] < |arena|
  }

  /** The bindings of the instances vs, added in order. */
  ghost function Merged<V, C>(arena: seq<Graph<V, C>>, vs: seq<nat>): map<Input, Outcome<V, C>>
    requires InArena(arena, vs)
  {
    if vs == [] then map[] else Merged(arena, vs[..|vs| - 1]) + arena[vs[|vs| - 1]].bindings
  }

  /** Each instance of vs, when added, bound no input already bound. */
  ghost predicate BoundOnce<V, C>(arena: seq<Graph<V, C>>, vs: seq<nat>)
    requires InArena(arena, vs)
  {
    vs == [] ||
    (BoundOnce(arena, vs[..|vs| - 1]) &&
     Merged(arena, vs[..|vs| - 1]).Keys !! arena[vs[|vs| - 1]].bindings.Keys)
  }

  /** An input is in the merged bindings iff one of the instances binds it. */
  lemma {:induction false} MergedKeys<V, C>(arena: seq<Graph<V, C>>, vs: seq<nat>, n: Input)
    requires InArena(arena, vs)
    ensures n in Merged(arena, vs) <==> exists a :: 0 <= a < |vs| && n in arena[vs[a]].bindings
  {
    if vs != [] {
      var pre := vs[..|vs| - 1];
      MergedKeys(arena, pre, n);
      if n in Merged(arena, vs) && n !in arena[vs[|vs| - 1]].bindings {
        var a :| 0 <= a < |pre| && n in arena[pre[a]].bindings;
        assert vs[a] == pre[a];
      }
      if exists a :: 0 <= a < |vs| && n in arena[vs[a]].bindings {
        var a :| 0 <= a < |vs| && n in arena[vs[a]].bindings;
        if a < |pre| {
          assert pre[a] == vs[a];
        }
      }
    }
  }

  /** Instances at two positions of a list added without clashes bind disjoint inputs. */
  lemma {:induction false} BoundOnceDisjoint<V, C>(arena: seq<Graph<V, C>>, vs: seq<nat>, a: nat, b: nat)
    requires InArena(arena, vs) && BoundOnce(arena, vs) && a < b < |vs|
    ensures arena[vs[a]].bindings.Keys !! arena[vs[b]].bindings.Keys
  {
    var pre := vs[..|vs| - 1];
    if b < |vs| - 1 {
      assert pre[a] == vs[a] && pre[b] == vs[b];
      BoundOnceDisjoint(arena, pre, a, b);
    } else {
      assert pre[a] == vs[a];
      forall n | n in arena[vs[a]].bindings ensures n in Merged(arena, pre) {
        MergedKeys(arena, pre, n);
      }
    }
  }

  ghost predicate AllResolved<V, C>(s: State<V, C>, ds: seq<Dep>) {
    forall k :: 0 <= k < |ds| ==> Resolved(s, ds[k])
  }

  /** Every argument and predecessor of b has its outcome in s. */
  ghost predicate NodeResolved<V, C>(s: State<V, C>, b: Builder<V, C>) {
    AllResolved(s, b.inputs) && AllResolved(s, PredDeps(b.predecessors))
  }

  ghost function DepOutcomes<V, C>(s: State<V, C>, ds: seq<Dep>): seq<Outcome<V, C>>
    requires AllResolved(s, ds)
  {
    seq(|ds|, k requires 0 <= k < |ds| => DepOutcome(s, ds[k]))
  }

  /** The node's outcome computed from its dependencies' outcomes in s. */
  ghost function NodeOutcomeIn<V, C>(s: State<V, C>, b: Builder<V, C>): Outcome<V, C>
    requires NodeResolved(s, b)
  {
    NodeOutcome(b.node, b.fallback, DepOutcomes(s, b.inputs), DepOutcomes(s, PredDeps(b.predecessors)))
  }

  /** Whether the node function is called, judged from its dependencies' outcomes in s. */
  ghost predicate InvokesIn<V, C>(s: State<V, C>, b: Builder<V, C>)
    requires NodeResolved(s, b)
  {
    Invokes(DepOutcomes(s, b.inputs), DepOutcomes(s, PredDeps(b.predecessors)))
  }

  ghost predicate ConsistentAt<V, C>(arena: seq<Graph<V, C>>, s: State<V, C>, k: nat) {
    && k < |arena| && k in s.memo
    && NodeResolved(s, arena[k].builder)
    && s.memo[k] == NodeOutcomeIn(s, arena[k].builder)
    && (k in s.invoked <==> InvokesIn(s, arena[k].builder))
  }

  ghost predicate Consistent<V, C>(arena: seq<Graph<V, C>>, s: State<V, C>) {
    forall k :: k in s.memo ==> ConsistentAt(arena, s, k)
  }

  ghost predicate Core<V, C>(arena: seq<Graph<V, C>>, s: State<V, C>, A: set<nat>, R: set<nat>) {
    && (forall k :: k in A ==> k < |arena|)
    && InArena(arena, s.visited)
    && NoDup(s.visited)
    && (forall k :: k in s.visited <==> k in s.memo || k in A)
    && (forall k :: k in s.memo ==> k !in A)
    && (forall k :: k in s.visited ==> k in R)
    && s.bindings == Merged(arena, s.visited)
    && BoundOnce(arena, s.visited)
    && Consistent(arena, s)
  }

  /** The invariant between two calls of futureForGraph. */
  ghost predicate Inv<V, C>(arena: seq<Graph<V, C>>, s: State<V, C>, A: set<nat>, R: set<nat>) {
    && Core(arena, s, A, R)
    && NoDup(s.invoked)
    && (forall k :: k in s.invoked ==> k in s.memo)
  }

  /** What holds once node i has been run and produced o, before it is memoized. */
  ghost predicate AfterRun<V, C>(arena: seq<Graph<V, C>>, s: State<V, C>, A: set<nat>, R: set<nat>, i: nat, o: Outcome<V, C>) {
    && i < |arena|
    && Core(arena, s, A + {i}, R)
    && NoDup(s.invoked)
    && (forall k :: k in s.invoked ==> k in s.memo || k == i)
    && NodeResolved(s, arena[i].builder)
    && o == NodeOutcomeIn(s, arena[i].builder)
    && (i in s.invoked <==> InvokesIn(s, arena[i].builder))
  }

  /** R contains the dependencies of each of its instances. */
  ghost predicate Closed<V, C>(arena: seq<Graph<V, C>>, R: set<nat>) {
    forall k :: k in R ==> k < |arena| && DepsIn(arena[k].builder.inputs, R) && DepsIn(PredDeps(arena[k].builder.predecessors), R)
  }

  ghost predicate DepsIn(ds: seq<Dep>, R: set<nat>) {
    forall m :: 0 <= m < |ds| && ds[m].GraphDep? ==> ds[m].graph in R
  }

  /**
   * A run error names what caused it: an unbound input is one an instance of
   * R refers to; a duplicate binding names a non-empty set of inputs, each
   * bound by two different instances of R.
   */
  ghost predicate Witnessed<V, C>(arena: seq<Graph<V, C>>, R: set<nat>, e: Error) {
    match e
    case UnboundInput(n) =>
      exists x :: x in R && x < |arena| && n in Referenced(arena[x].builder)
    case DuplicateBinding(ns) =>
      ns != {} &&
      forall n :: n in ns ==> exists x, y :: x in R && y in R && x != y && x < |arena| && y < |arena| &&
                                             n in arena[x].bindings && n in arena[y].bindings
  }

  /** Outcomes available in s stay available, and the same, in any continuation of s. */
  lemma DepOutcomesStable<V, C>(s: State<V, C>, s': State<V, C>, ds: seq<Dep>)
    requires Extends(s, s') && AllResolved(s, ds)
    ensures AllResolved(s', ds) && DepOutcomes(s', ds) == DepOutcomes(s, ds)
  {
    assert forall k :: 0 <= k < |ds| ==> DepOutcome(s', ds[k]) == DepOutcome(s, ds[k]);
  }

  /** Consistency of the memoized instances survives a continuation that calls none of their functions. */
  lemma ConsistentStable<V, C>(arena: seq<Graph<V, C>>, s: State<V, C>, s': State<V, C>)
    requires Consistent(arena, s) && Extends(s, s')
    requires forall k :: k in s.memo ==> (k in s'.invoked <==> k in s.invoked)
    ensures forall k :: k in s.memo ==> ConsistentAt(arena, s', k)
  {
    forall k | k in s.memo ensures ConsistentAt(arena, s', k) {
      assert ConsistentAt(arena, s, k);
      var b := arena[k].builder;
      DepOutcomesStable(s, s', b.inputs);
      DepOutcomesStable(s, s', PredDeps(b.predecessors));
    }
  }

  /** run(state), first step: adding instance i's bindings. */
  lemma AddStep<V, C>(arena: seq<Graph<V, C>>, s: State<V, C>, i: nat, A: set<nat>, R: set<nat>)
    requires i < |arena| && Inv(arena, s, A, R) && i !in s.memo && i !in A && i in R
    ensures var r := AddBindingsSpec(s, arena[i].bindings);
            && (r.Failure? ==> Witnessed(arena, R, r.error))
            && (r.Success? ==> Inv(arena, r.value.(visited := r.value.visited + [i]), A + {i}, R))
  {
    var b := arena[i].bindings;
    if s.bindings.Keys !! b.Keys {
      assert AddBindingsSpec(s, b).value == s.(bindings := s.bindings + b);
      AddSucceeds(arena, s, i, A, R);
    } else {
      AddFails(arena, s, i, A, R);
    }
  }

  lemma AddFails<V, C>(arena: seq<Graph<V, C>>, s: State<V, C>, i: nat, A: set<nat>, R: set<nat>)
    requires i < |arena| && Inv(arena, s, A, R) && i !in s.memo && i !in A && i in R
    ensures AddBindingsSpec(s, arena[i].bindings).Failure? ==> Witnessed(arena, R, AddBindingsSpec(s, arena[i].bindings).error)
  {
    var ns := s.bindings.Keys * arena[i].bindings.Keys;
    assert i !in s.visited;
    forall n | n in ns
      ensures exists x, y :: x in R && y in R && x != y && x < |arena| && y < |arena| &&
                             n in arena[x].bindings && n in arena[y].bindings
    {
      MergedKeys(arena, s.visited, n);
      var a :| 0 <= a < |s.visited| && n in arena[s.visited[a]].bindings;
      assert s.visited[a] in s.visited;
    }
  }

  lemma AddSucceeds<V, C>(arena: seq<Graph<V, C>>, s: State<V, C>, i: nat, A: set<nat>, R: set<nat>)
    requires i < |arena| && Inv(arena, s, A, R) && i !in s.memo && i !in A && i in R
    requires s.bindings.Keys !! arena[i].bindings.Keys
    ensures Inv(arena, s.(bindings := s.bindings + arena[i].bindings, visited := s.visited + [i]), A + {i}, R)
  {
    var s2 := s.(bindings := s.bindings + arena[i].bindings, visited := s.visited + [i]);
    assert i !in s.visited;
    assert s2.visited[..|s.visited|] == s.visited;
    assert InArena(arena, s2.visited);
    assert s2.bindings == Merged(arena, s2.visited);
    assert BoundOnce(arena, s2.visited);
    assert Extends(s, s2);
    ConsistentStable(arena, s, s2);
    assert NoDup(s2.visited) by {
      forall a, c | 0 <= a < c < |s2.visited| ensures s2.visited[a] != s2.visited[c] {
        if c == |s.visited| {
          assert s2.visited[a] == s.visited[a];
          assert s.visited[a] in s.visited;
        }
      }
    }
    assert forall k :: k in s2.visited <==> k in s.visited || k == i;
    assert Core(arena, s2, A + {i}, R);
  }

  /** futureForGraph, last step: memoizing the outcome o of instance j. */
  lemma MemoStep<V, C>(arena: seq<Graph<V, C>>, s: State<V, C>, j: nat, o: Outcome<V, C>, A: set<nat>, R: set<nat>)
    requires AfterRun(arena, s, A, R, j, o) && j !in A
    ensures Inv(arena, s.(memo := s.memo[j := o]), A, R)
  {
    var s' := s.(memo := s.memo[j := o]);
    MemoConsistent(arena, s, j, o, A, R);
    assert forall k :: k in s'.visited <==> k in s'.memo || k in A;
    assert Core(arena, s', A, R);
  }

  lemma MemoConsistent<V, C>(arena: seq<Graph<V, C>>, s: State<V, C>, j: nat, o: Outcome<V, C>, A: set<nat>, R: set<nat>)
    requires AfterRun(arena, s, A, R, j, o)
    ensures Consistent(arena, s.(memo := s.memo[j := o]))
  {
    var s' := s.(memo := s.memo[j := o]);
    assert j !in s.memo;
    assert Extends(s, s');
    ConsistentStable(arena, s, s');
    var b := arena[j].builder;
    DepOutcomesStable(s, s', b.inputs);
    DepOutcomesStable(s, s', PredDeps(b.predecessors));
    assert ConsistentAt(arena, s', j);
  }

  /** future, last step: calling the node function when the join succeeds. */
  lemma InvokeStep<V, C>(arena: seq<Graph<V, C>>, s: State<V, C>, i: nat, A: set<nat>, R: set<nat>,
                         futures: seq<Outcome<V, C>>, preds: seq<Outcome<V, C>>)
    requires i < |arena| && Inv(arena, s, A + {i}, R) && NodeResolved(s, arena[i].builder)
    requires futures == DepOutcomes(s, arena[i].builder.inputs)
    requires preds == DepOutcomes(s, PredDeps(arena[i].builder.predecessors))
    ensures var s' := if Invokes(futures, preds) then s.(invoked := s.invoked + [i]) else s;
            AfterRun(arena, s', A, R, i, NodeOutcome(arena[i].builder.node, arena[i].builder.fallback, futures, preds))
  {
    assert i !in s.memo;
    if Invokes(futures, preds) {
      InvokeCalls(arena, s, i, A, R);
    }
  }

  lemma InvokeCalls<V, C>(arena: seq<Graph<V, C>>, s: State<V, C>, i: nat, A: set<nat>, R: set<nat>)
    requires i < |arena| && Inv(arena, s, A + {i}, R) && NodeResolved(s, arena[i].builder) && i !in s.memo
    ensures var s' := s.(invoked := s.invoked + [i]);
            && Core(arena, s', A + {i}, R) && NoDup(s'.invoked)
            && NodeResolved(s', arena[i].builder)
            && NodeOutcomeIn(s', arena[i].builder) == NodeOutcomeIn(s, arena[i].builder)
            && InvokesIn(s', arena[i].builder) == InvokesIn(s, arena[i].builder)
  {
    var s' := s.(invoked := s.invoked + [i]);
    assert i !in s.invoked;
    assert Extends(s, s');
    ConsistentStable(arena, s, s');
    var b := arena[i].builder;
    DepOutcomesStable(s, s', b.inputs);
    DepOutcomesStable(s, s', PredDeps(b.predecessors));
  }

  /** The outcomes a dependency list resolves to are its outcomes in the final state. */
  lemma DepsOutcomes<V, C>(arena: seq<Graph<V, C>>, i: nat, ds: seq<Dep>, s: State<V, C>)
    requires WellFormed(arena) && i < |arena| && Below(ds, i) && DepsSpec(arena, i, ds, s).Success?
    ensures AllResolved(DepsSpec(arena, i, ds, s).value.1, ds)
    ensures DepsSpec(arena, i, ds, s).value.0 == DepOutcomes(DepsSpec(arena, i, ds, s).value.1, ds)
   {
    DepsExtends(arena, i, ds, s);
  }

  /** run(state) keeps the invariant, or fails with an error that names its cause. */
  lemma {:induction false} RunKeeps<V, C>(arena: seq<Graph<V, C>>, i: nat, s: State<V, C>, A: set<nat>, R: set<nat>)
    requires WellFormed(arena) && i < |arena| && Closed(arena, R) && i in R
    requires Inv(arena, s, A, R) && i !in s.memo && i !in A && (forall a :: a in A ==> i < a)
    ensures var r := RunSpec(arena, i, s);
            && (r.Success? ==> AfterRun(arena, r.value.1, A, R, i, r.value.0))
            && (r.Failure? ==> Witnessed(arena, R, r.error))
    decreases i, 2, 0
  {
    AddStep(arena, s, i, A, R);
    match AddBindingsSpec(s, arena[i].bindings)
    case Failure(_) =>
    case Success(s1) =>
      FutureKeeps(arena, i, s1.(visited := s1.visited + [i]), A, R);
  }

  /** future keeps the invariant, with i among the instances being resolved. */
  lemma {:induction false} FutureKeeps<V, C>(arena: seq<Graph<V, C>>, i: nat, s: State<V, C>, A: set<nat>, R: set<nat>)
    requires WellFormed(arena) && i < |arena| && Closed(arena, R) && i in R
    requires Inv(arena, s, A + {i}, R) && i !in A && (forall a :: a in A ==> i < a)
    ensures var r := FutureSpec(arena, i, s);
            && (r.Success? ==> AfterRun(arena, r.value.1, A, R, i, r.value.0))
            && (r.Failure? ==> Witnessed(arena, R, r.error))
    decreases i, 1, 0
  {
    var b := arena[i].builder;
    assert NodeWellFormed(arena[i], i);
    var A' := A + {i};
    assert forall m :: 0 <= m < |b.inputs| && b.inputs[m].InputDep? ==> b.inputs[m].input in Referenced(b);
    DepsKeep(arena, i, b.inputs, s, A', R);
    match DepsSpec(arena, i, b.inputs, s)
    case Failure(_) =>
    case Success((futures, s1)) =>
      DepsKeep(arena, i, PredDeps(b.predecessors), s1, A', R);
      match DepsSpec(arena, i, PredDeps(b.predecessors), s1)
      case Failure(_) =>
      case Success((preds, s2)) =>
        NodeStep(arena, i, s, A, R, futures, s1, preds, s2);
  }

  /** future, once both dependency lists are resolved: the node's outcome and call, from the resolved outcomes. */
  lemma NodeStep<V, C>(arena: seq<Graph<V, C>>, i: nat, s: State<V, C>, A: set<nat>, R: set<nat>,
                       futures: seq<Outcome<V, C>>, s1: State<V, C>, preds: seq<Outcome<V, C>>, s2: State<V, C>)
    requires WellFormed(arena) && i < |arena|
    requires Below(arena[i].builder.inputs, i) && Below(PredDeps(arena[i].builder.predecessors), i)
    requires DepsSpec(arena, i, arena[i].builder.inputs, s) == Success((futures, s1))
    requires DepsSpec(arena, i, PredDeps(arena[i].builder.predecessors), s1) == Success((preds, s2))
    requires Inv(arena, s2, A + {i}, R)
    ensures var s3 := if Invokes(futures, preds) then s2.(invoked := s2.invoked + [i]) else s2;
            AfterRun(arena, s3, A, R, i, NodeOutcome(arena[i].builder.node, arena[i].builder.fallback, futures, preds))
  {
    var b := arena[i].builder;
    DepsOutcomes(arena, i, b.inputs, s);
    DepsOutcomes(arena, i, PredDeps(b.predecessors), s1);
    DepsExtends(arena, i, PredDeps(b.predecessors), s1);
    DepOutcomesStable(s1, s2, b.inputs);
    InvokeStep(arena, s2, i, A, R, futures, preds);
  }

  /** Resolving a list of dependencies of node i keeps the invariant. */
  lemma {:induction false} DepsKeep<V, C>(arena: seq<Graph<V, C>>, i: nat, ds: seq<Dep>, s: State<V, C>, A: set<nat>, R: set<nat>)
    requires WellFormed(arena) && i < |arena| && Below(ds, i) && Closed(arena, R) && i in R
    requires DepsIn(ds, R)
    requires forall m :: 0 <= m < |ds| && ds[m].InputDep? ==> ds[m].input in Referenced(arena[i].builder)
    requires Inv(arena, s, A, R) && (forall a :: a in A ==> i <= a)
    ensures var r := DepsSpec(arena, i, ds, s);
            && (r.Success? ==> Inv(arena, r.value.1, A, R))
            && (r.Failure? ==> Witnessed(arena, R, r.error))
    decreases i, 0, |ds|
  {
    if ds != [] {
      var pre := ds[..|ds| - 1];
      DepsKeep(arena, i, pre, s, A, R);
      match DepsSpec(arena, i, pre, s)
      case Failure(_) =>
      case Success((os, s1)) =>
        match ds[|ds| - 1]
        case InputDep(n) =>
          assert n in Referenced(arena[i].builder);
        case GraphDep(j) =>
          FutureForKeeps(arena, j, s1, A, R);
    }
  }

  /** futureForGraph keeps the invariant. */
  lemma {:induction false} FutureForKeeps<V, C>(arena: seq<Graph<V, C>>, j: nat, s: State<V, C>, A: set<nat>, R: set<nat>)
    requires WellFormed(arena) && j < |arena| && Closed(arena, R) && j in R
    requires Inv(arena, s, A, R) && (forall a :: a in A ==> j < a)
    ensures var r := FutureForSpec(arena, j, s);
            && (r.Success? ==> Inv(arena, r.value.1, A, R))
            && (r.Failure? ==> Witnessed(arena, R, r.error))
    decreases j, 3, 0
  {
    if j !in s.memo {
      RunKeeps(arena, j, s, A, R);
      match RunSpec(arena, j, s)
      case Failure(_) =>
      case Success((o, s1)) =>
        MemoStep(arena, s1, j, o, A, R);
    }
  }
}
