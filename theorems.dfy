/**
 * What one run of a prepared graph guarantees, from the empty TraverseState.
 *
 * The graph instances a run touches are exactly those reachable from the
 * root.  If the run succeeds, each of them had its bindings added once, no
 * input was bound twice, every node function was called at most once, and
 * each node's outcome is the one the reference evaluation gives under the
 * run's bindings.  If it fails, the error names its cause.
 */
module RunTheorems {
  import opened Outcomes
  import opened Graphs
  import opened Traversal
  import opened RunInvariant
  import opened Evaluation

  /** A dependency's reachable set is part of the reachable set of the list it belongs to. */
  lemma {:induction false} ReachAllHas<V, C>(arena: seq<Graph<V, C>>, i: nat, ds: seq<Dep>, m: nat)
    requires WellFormed(arena) && i <= |arena| && Below(ds, i) && m < |ds| && ds[m].GraphDep?
    ensures Reach(arena, ds[m].graph) <= ReachAll(arena, i, ds)
    decreases |ds|
  {
    var pre := ds[..|ds| - 1];
    if m < |ds| - 1 {
      assert pre[m] == ds[m];
      ReachAllHas(arena, i, pre, m);
    }
  }

  /** Everything reachable through a list is reachable through one of its graph dependencies. */
  lemma {:induction false} ReachAllFrom<V, C>(arena: seq<Graph<V, C>>, i: nat, ds: seq<Dep>, k: nat)
    requires WellFormed(arena) && i <= |arena| && Below(ds, i) && k in ReachAll(arena, i, ds)
    ensures exists m :: 0 <= m < |ds| && ds[m].GraphDep? && ds[m].graph < i && k in Reach(arena, ds[m].graph)
    decreases |ds|
  {
    var pre := ds[..|ds| - 1];
    if ds[|ds| - 1].InputDep? || k !in Reach(arena, ds[|ds| - 1].graph) {
      ReachAllFrom(arena, i, pre, k);
      var m :| 0 <= m < |pre| && pre[m].GraphDep? && pre[m].graph < i && k in Reach(arena, pre[m].graph);
      assert ds[m] == pre[m];
    }
  }

  /** A node reachable from i lies at or below i, and all it reaches i reaches too. */
  lemma {:induction false} ReachSub<V, C>(arena: seq<Graph<V, C>>, i: nat, k: nat)
    requires WellFormed(arena) && i < |arena| && k in Reach(arena, i)
    ensures k <= i && Reach(arena, k) <= Reach(arena, i)
    decreases i
  {
    if k != i {
      var b := arena[i].builder;
      assert NodeWellFormed(arena[i], i);
      var ds := if k in ReachAll(arena, i, b.inputs) then b.inputs else PredDeps(b.predecessors);
      ReachAllFrom(arena, i, ds, k);
      var m :| 0 <= m < |ds| && ds[m].GraphDep? && ds[m].graph < i && k in Reach(arena, ds[m].graph);
      ReachSub(arena, ds[m].graph, k);
      ReachAllHas(arena, i, ds, m);
    }
  }

  /** The nodes reachable from the root contain the root and their own dependencies. */
  lemma ReachClosed<V, C>(arena: seq<Graph<V, C>>, root: nat)
    requires WellFormed(arena) && root < |arena|
    ensures root in Reach(arena, root) && Closed(arena, Reach(arena, root))
  {
    var R := Reach(arena, root);
    forall k | k in R
      ensures k < |arena| && DepsIn(arena[k].builder.inputs, R) && DepsIn(PredDeps(arena[k].builder.predecessors), R)
    {
      ReachSub(arena, root, k);
      var b := arena[k].builder;
      assert NodeWellFormed(arena[k], k);
      forall m | 0 <= m < |b.inputs| && b.inputs[m].GraphDep? ensures b.inputs[m].graph in R {
        ReachAllHas(arena, k, b.inputs, m);
      }
      forall m | 0 <= m < |b.predecessors| ensures PredDeps(b.predecessors)[m].graph in R {
        ReachAllHas(arena, k, PredDeps(b.predecessors), m);
      }
    }
  }

  /** A set closed under dependencies that holds node i's dependencies holds everything i reaches but i. */
  lemma {:induction false} ReachWithin<V, C>(arena: seq<Graph<V, C>>, M: set<nat>, i: nat)
    requires WellFormed(arena) && i < |arena| && Closed(arena, M)
    requires DepsIn(arena[i].builder.inputs, M) && DepsIn(PredDeps(arena[i].builder.predecessors), M)
    ensures Reach(arena, i) <= M + {i}
    decreases i
  {
    var b := arena[i].builder;
    assert NodeWellFormed(arena[i], i);
    forall k | k in Reach(arena, i) && k != i ensures k in M {
      var ds := if k in ReachAll(arena, i, b.inputs) then b.inputs else PredDeps(b.predecessors);
      ReachAllFrom(arena, i, ds, k);
      var m :| 0 <= m < |ds| && ds[m].GraphDep? && ds[m].graph < i && k in Reach(arena, ds[m].graph);
      ReachWithin(arena, M, ds[m].graph);
    }
  }

  /** The graph dependencies of a resolved list are memoized. */
  lemma ResolvedIn<V, C>(s: State<V, C>, ds: seq<Dep>)
    requires AllResolved(s, ds)
    ensures DepsIn(ds, s.memo.Keys)
  {
    assert forall m :: 0 <= m < |ds| ==> Resolved(s, ds[m]);
  }

  /** The value bound to an input is the one bound by the single instance binding it. */
  lemma {:induction false} MergedValue<V, C>(arena: seq<Graph<V, C>>, vs: seq<nat>, a: nat, n: Input)
    requires InArena(arena, vs) && BoundOnce(arena, vs) && a < |vs| && n in arena[vs[a]].bindings
    ensures n in Merged(arena, vs) && Merged(arena, vs)[n] == arena[vs[a]].bindings[n]
  {
    var pre := vs[..|vs| - 1];
    if a < |vs| - 1 {
      assert pre[a] == vs[a];
      MergedValue(arena, pre, a, n);
    }
  }

  /** The state after a run from the empty state, with what the invariant says about it. */
  lemma RunFacts<V, C>(arena: seq<Graph<V, C>>, root: nat)
    requires WellFormed(arena) && root < |arena|
    ensures root in Reach(arena, root) && Closed(arena, Reach(arena, root))
    ensures var r := RunSpec(arena, root, Initial());
            && (r.Success? ==> AfterRun(arena, r.value.1, {}, Reach(arena, root), root, r.value.0))
            && (r.Failure? ==> Witnessed(arena, Reach(arena, root), r.error))
  {
    ReachClosed(arena, root);
    var s0: State<V, C> := Initial();
    assert Inv(arena, s0, {}, Reach(arena, root));
    RunKeeps(arena, root, s0, {}, Reach(arena, root));
  }

  /** In a successful run every reachable instance other than the root is memoized, and no other one. */
  lemma RunCovers<V, C>(arena: seq<Graph<V, C>>, root: nat)
    requires WellFormed(arena) && root < |arena| && RunSpec(arena, root, Initial()).Success?
    ensures var s := RunSpec(arena, root, Initial()).value.1;
            && AfterRun(arena, s, {}, Reach(arena, root), root, RunSpec(arena, root, Initial()).value.0)
            && (forall x :: x in s.visited <==> x in Reach(arena, root))
            && (forall x :: x in s.memo <==> x in Reach(arena, root) && x != root)
  {
    RunFacts(arena, root);
    var s := RunSpec(arena, root, Initial()).value.1;
    var b := arena[root].builder;
    forall k | k in s.memo ensures ConsistentAt(arena, s, k) {}
    forall k | k in s.memo
      ensures k < |arena| && DepsIn(arena[k].builder.inputs, s.memo.Keys) && DepsIn(PredDeps(arena[k].builder.predecessors), s.memo.Keys)
    {
      assert ConsistentAt(arena, s, k);
      ResolvedIn(s, arena[k].builder.inputs);
      ResolvedIn(s, PredDeps(arena[k].builder.predecessors));
    }
    ResolvedIn(s, b.inputs);
    ResolvedIn(s, PredDeps(b.predecessors));
    ReachWithin(arena, s.memo.Keys, root);
  }

  /** A node's outcome in a consistent state is its reference evaluation under the state's bindings. */
  lemma {:induction false} NodeIsEval<V, C>(arena: seq<Graph<V, C>>, s: State<V, C>, x: nat)
    requires WellFormed(arena) && x < |arena| && Consistent(arena, s) && NodeResolved(s, arena[x].builder)
    ensures Covered(arena, s.bindings, x)
    ensures DepOutcomes(s, arena[x].builder.inputs) == EvalDeps(arena, s.bindings, x, arena[x].builder.inputs)
    ensures DepOutcomes(s, PredDeps(arena[x].builder.predecessors)) ==
            EvalDeps(arena, s.bindings, x, PredDeps(arena[x].builder.predecessors))
    ensures NodeOutcomeIn(s, arena[x].builder) == Eval(arena, s.bindings, x)
    ensures InvokesIn(s, arena[x].builder) == EvalInvokes(arena, s.bindings, x)
    decreases x, 1
  {
    var b := arena[x].builder;
    assert NodeWellFormed(arena[x], x);
    DepsAreEval(arena, s, x, b.inputs);
    DepsAreEval(arena, s, x, PredDeps(b.predecessors));
  }

  lemma {:induction false} DepsAreEval<V, C>(arena: seq<Graph<V, C>>, s: State<V, C>, x: nat, ds: seq<Dep>)
    requires WellFormed(arena) && x < |arena| && Consistent(arena, s) && AllResolved(s, ds) && Below(ds, x)
    ensures CoveredDeps(arena, s.bindings, x, ds)
    ensures DepOutcomes(s, ds) == EvalDeps(arena, s.bindings, x, ds)
    decreases x, 0
  {
    forall m | 0 <= m < |ds| && ds[m].GraphDep?
      ensures Covered(arena, s.bindings, ds[m].graph) && s.memo[ds[m].graph] == Eval(arena, s.bindings, ds[m].graph)
    {
      var j := ds[m].graph;
      assert Resolved(s, ds[m]);
      assert ConsistentAt(arena, s, j);
      NodeIsEval(arena, s, j);
    }
  }

  /**
   * Memoization is transparent: in a successful run the root's outcome, and
   * the outcome memoized for every other reachable instance, is the
   * reference evaluation of that instance under the run's bindings.
   */
  lemma RunAgreesWithEvaluation<V, C>(arena: seq<Graph<V, C>>, root: nat)
    requires WellFormed(arena) && root < |arena| && RunSpec(arena, root, Initial()).Success?
    ensures var (o, s) := RunSpec(arena, root, Initial()).value;
            && Covered(arena, s.bindings, root) && o == Eval(arena, s.bindings, root)
            && forall x :: x in Reach(arena, root) && x != root ==>
                 x < |arena| && x in s.memo && Covered(arena, s.bindings, x) && s.memo[x] == Eval(arena, s.bindings, x)
  {
    RunCovers(arena, root);
    var s := RunSpec(arena, root, Initial()).value.1;
    NodeIsEval(arena, s, root);
    forall x | x in Reach(arena, root) && x != root
      ensures x < |arena| && x in s.memo && Covered(arena, s.bindings, x) && s.memo[x] == Eval(arena, s.bindings, x)
    {
      assert ConsistentAt(arena, s, x);
      NodeIsEval(arena, s, x);
    }
  }

  /**
   * In a successful run each reachable instance's node function is called
   * exactly once if all its arguments and predecessors succeed, and never
   * otherwise; no other function is called.  Two instances over the same
   * function are two calls.
   */
  lemma RunCallsEachNodeAtMostOnce<V, C>(arena: seq<Graph<V, C>>, root: nat)
    requires WellFormed(arena) && root < |arena| && RunSpec(arena, root, Initial()).Success?
    ensures var s := RunSpec(arena, root, Initial()).value.1;
            && NoDup(s.invoked)
            && (forall x :: x in s.invoked ==> x in Reach(arena, root))
            && forall x :: x in Reach(arena, root) ==>
                 x < |arena| && Covered(arena, s.bindings, x) && (x in s.invoked <==> EvalInvokes(arena, s.bindings, x))
  {
    RunCovers(arena, root);
    var s := RunSpec(arena, root, Initial()).value.1;
    forall x | x in Reach(arena, root)
      ensures x < |arena| && Covered(arena, s.bindings, x) && (x in s.invoked <==> EvalInvokes(arena, s.bindings, x))
    {
      if x != root {
        assert ConsistentAt(arena, s, x);
      }
      NodeIsEval(arena, s, x);
    }
  }

  /**
   * In a successful run the bindings of every reachable instance, and of no
   * other, were added exactly once, and no two of them bind the same input.
   */
  lemma RunBindsEachInstanceOnce<V, C>(arena: seq<Graph<V, C>>, root: nat)
    requires WellFormed(arena) && root < |arena| && RunSpec(arena, root, Initial()).Success?
    ensures var s := RunSpec(arena, root, Initial()).value.1;
            && NoDup(s.visited) && (forall x :: x in s.visited <==> x in Reach(arena, root))
            && (forall x, y :: x in Reach(arena, root) && y in Reach(arena, root) && x != y ==>
                  x < |arena| && y < |arena| && arena[x].bindings.Keys !! arena[y].bindings.Keys)
  {
    BindingFacts(arena, root);
    var s := RunSpec(arena, root, Initial()).value.1;
    VisitedDisjoint(arena, s.visited, Reach(arena, root));
  }

  /** In a successful run every binding of a reachable instance is in the run's bindings, with its value. */
  lemma RunKeepsInstanceBindings<V, C>(arena: seq<Graph<V, C>>, root: nat)
    requires WellFormed(arena) && root < |arena| && RunSpec(arena, root, Initial()).Success?
    ensures var s := RunSpec(arena, root, Initial()).value.1;
            forall x, n :: x in Reach(arena, root) && x < |arena| && n in arena[x].bindings ==>
              n in s.bindings && s.bindings[n] == arena[x].bindings[n]
  {
    MergeFacts(arena, root);
    VisitedValues(arena, RunSpec(arena, root, Initial()).value.1, Reach(arena, root));
  }

  /** In a successful run every input bound comes from a reachable instance. */
  lemma RunBindingsFromReachable<V, C>(arena: seq<Graph<V, C>>, root: nat)
    requires WellFormed(arena) && root < |arena| && RunSpec(arena, root, Initial()).Success?
    ensures var s := RunSpec(arena, root, Initial()).value.1;
            forall n :: n in s.bindings ==> exists x :: x in Reach(arena, root) && x < |arena| && n in arena[x].bindings
  {
    MergeFacts(arena, root);
    VisitedKeys(arena, RunSpec(arena, root, Initial()).value.1, Reach(arena, root));
  }

  /** In a successful run every input a reachable node refers to is bound. */
  lemma RunBindsReferencedInputs<V, C>(arena: seq<Graph<V, C>>, root: nat)
    requires WellFormed(arena) && root < |arena| && RunSpec(arena, root, Initial()).Success?
    ensures var s := RunSpec(arena, root, Initial()).value.1;
            forall x :: x in Reach(arena, root) ==> x < |arena| && Referenced(arena[x].builder) <= s.bindings.Keys
  {
    BindingFacts(arena, root);
    var s := RunSpec(arena, root, Initial()).value.1;
    ReachableReferencedBound(arena, s, root, Reach(arena, root));
  }

  lemma ReachableReferencedBound<V, C>(arena: seq<Graph<V, C>>, s: State<V, C>, root: nat, R: set<nat>)
    requires root < |arena| && Consistent(arena, s) && NodeResolved(s, arena[root].builder)
    requires forall x :: x in R ==> x in s.memo || x == root
    ensures forall x :: x in R ==> x < |arena| && Referenced(arena[x].builder) <= s.bindings.Keys
  {
    forall x | x in R ensures x < |arena| && Referenced(arena[x].builder) <= s.bindings.Keys {
      if x != root {
        assert ConsistentAt(arena, s, x);
      }
      ReferencedBound(s, arena[x].builder);
    }
  }

  /** The parts of the invariant that speak about bindings, at the end of a successful run. */
  lemma BindingFacts<V, C>(arena: seq<Graph<V, C>>, root: nat)
    requires WellFormed(arena) && root < |arena| && RunSpec(arena, root, Initial()).Success?
    ensures var s := RunSpec(arena, root, Initial()).value.1;
            && InArena(arena, s.visited) && NoDup(s.visited) && BoundOnce(arena, s.visited)
            && s.bindings == Merged(arena, s.visited)
            && (forall x :: x in s.visited <==> x in Reach(arena, root))
            && (forall x :: x in s.memo <==> x in Reach(arena, root) && x != root)
            && Consistent(arena, s) && NodeResolved(s, arena[root].builder)
  {
    RunCovers(arena, root);
  }

  /** The bindings of a successful run, as the merge of the reachable instances' bindings. */
  lemma MergeFacts<V, C>(arena: seq<Graph<V, C>>, root: nat)
    requires WellFormed(arena) && root < |arena| && RunSpec(arena, root, Initial()).Success?
    ensures var s := RunSpec(arena, root, Initial()).value.1;
            && InArena(arena, s.visited) && BoundOnce(arena, s.visited) && s.bindings == Merged(arena, s.visited)
            && (forall x :: x in s.visited <==> x in Reach(arena, root))
  {
    BindingFacts(arena, root);
  }

  lemma VisitedDisjoint<V, C>(arena: seq<Graph<V, C>>, vs: seq<nat>, R: set<nat>)
    requires InArena(arena, vs) && BoundOnce(arena, vs) && (forall x :: x in vs <==> x in R)
    ensures forall x, y :: x in R && y in R && x != y ==>
              x < |arena| && y < |arena| && arena[x].bindings.Keys !! arena[y].bindings.Keys
  {
    forall x, y | x in R && y in R && x != y
      ensures x < |arena| && y < |arena| && arena[x].bindings.Keys !! arena[y].bindings.Keys
    {
      var a :| 0 <= a < |vs| && vs[a] == x;
      var c :| 0 <= c < |vs| && vs[c] == y;
      if a < c {
        BoundOnceDisjoint(arena, vs, a, c);
      } else {
        BoundOnceDisjoint(arena, vs, c, a);
      }
    }
  }

  lemma VisitedValues<V, C>(arena: seq<Graph<V, C>>, s: State<V, C>, R: set<nat>)
    requires InArena(arena, s.visited) && BoundOnce(arena, s.visited) && s.bindings == Merged(arena, s.visited)
    requires forall x :: x in s.visited <==> x in R
    ensures forall x, n :: x in R && x < |arena| && n in arena[x].bindings ==>
              n in s.bindings && s.bindings[n] == arena[x].bindings[n]
  {
    forall x, n | x in R && x < |arena| && n in arena[x].bindings
      ensures n in s.bindings && s.bindings[n] == arena[x].bindings[n]
    {
      var a :| 0 <= a < |s.visited| && s.visited[a] == x;
      MergedValue(arena, s.visited, a, n);
    }
  }

  lemma VisitedKeys<V, C>(arena: seq<Graph<V, C>>, s: State<V, C>, R: set<nat>)
    requires InArena(arena, s.visited) && s.bindings == Merged(arena, s.visited)
    requires forall x :: x in s.visited <==> x in R
    ensures forall n :: n in s.bindings ==> exists x :: x in R && x < |arena| && n in arena[x].bindings
  {
    forall n | n in s.bindings ensures exists x :: x in R && x < |arena| && n in arena[x].bindings {
      MergedKeys(arena, s.visited, n);
      var a :| 0 <= a < |s.visited| && n in arena[s.visited[a]].bindings;
      assert s.visited[a] in s.visited;
    }
  }

  /** Every input a resolved node refers to is bound. */
  lemma ReferencedBound<V, C>(s: State<V, C>, b: Builder<V, C>)
    requires NodeResolved(s, b)
    ensures Referenced(b) <= s.bindings.Keys
  {
    forall n | n in Referenced(b) ensures n in s.bindings {
      var m :| 0 <= m < |b.inputs| && b.inputs[m].InputDep? && b.inputs[m].input == n;
      assert Resolved(s, b.inputs[m]);
    }
  }

  /**
   * A run that fails names its cause: an unbound input that a reachable node
   * refers to, or a non-empty set of inputs each bound by two different
   * reachable instances.
   */
  lemma RunErrorsNameTheirCause<V, C>(arena: seq<Graph<V, C>>, root: nat)
    requires WellFormed(arena) && root < |arena| && RunSpec(arena, root, Initial()).Failure?
    ensures Witnessed(arena, Reach(arena, root), RunSpec(arena, root, Initial()).error)
  {
    RunFacts(arena, root);
  }

  /** Two reachable instances that bind the same input make the run fail. */
  lemma DuplicateBindingFails<V, C>(arena: seq<Graph<V, C>>, root: nat, x: nat, y: nat, n: Input)
    requires WellFormed(arena) && root < |arena|
    requires x in Reach(arena, root) && y in Reach(arena, root) && x != y
    requires x < |arena| && y < |arena| && n in arena[x].bindings && n in arena[y].bindings
    ensures RunResult(arena, root).Failure?
  {
    if RunSpec(arena, root, Initial()).Success? {
      RunBindsEachInstanceOnce(arena, root);
    }
  }

  /** An input a reachable node refers to, bound by no reachable instance, makes the run fail. */
  lemma UnboundInputFails<V, C>(arena: seq<Graph<V, C>>, root: nat, x: nat, n: Input)
    requires WellFormed(arena) && root < |arena|
    requires x in Reach(arena, root) && x < |arena| && n in Referenced(arena[x].builder)
    requires forall y :: y in Reach(arena, root) && y < |arena| ==> n !in arena[y].bindings
    ensures RunResult(arena, root).Failure?
  {
    if RunSpec(arena, root, Initial()).Success? {
      RunBindingsFromReachable(arena, root);
      RunBindsReferencedInputs(arena, root);
    }
  }
}
