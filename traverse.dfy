/**
 * One run of a prepared graph: the per-run TraverseState and the resolution
 * of a node (PreparedGraph.run(state), future, nodeFuture).
 *
 * The functions RunSpec, FutureSpec, DepsSpec and FutureForSpec state what a
 * run computes, step for step in the order the code takes them; the class
 * TraverseState and the methods Run and Future do the same work on mutable
 * state and are proved to agree with them.  A synchronous error (an unbound
 * input, a duplicate binding across subgraphs) aborts the whole run, so it is
 * a Failure of the Result rather than a failed outcome.
 */
module Traversal {
  import opened Outcomes
  import opened Graphs

  /**
   * The observable state of a run: the bindings added so far, the outcome
   * memoized per graph instance, and, for reasoning only, the node functions
   * called (in call order) and the instances whose bindings were added (in
   * order).
   */
  datatype State<V, C> = State(
    bindings: map<Input, Outcome<V, C>>,
    memo: map<nat, Outcome<V, C>>,
    invoked: seq<nat>,
    visited: seq<nat>)

  function Initial<V, C>(): State<V, C> {
    State(map[], map[], [], [])
  }

  /** s' continues s: no memoized outcome or binding is dropped or changed, and the logs only grow. */
  ghost predicate Extends<V, C>(s: State<V, C>, s': State<V, C>) {
    && (forall k :: k in s.memo ==> k in s'.memo && s'.memo[k] == s.memo[k])
    && (forall n :: n in s.bindings ==> n in s'.bindings && s'.bindings[n] == s.bindings[n])
    && s.invoked <= s'.invoked
    && s.visited <= s'.visited
  }

  /** A dependency whose outcome is available in s: a bound input, or a memoized graph. */
  ghost predicate Resolved<V, C>(s: State<V, C>, d: Dep) {
    match d
    case InputDep(n) => n in s.bindings
    case GraphDep(j) => j in s.memo
  }

  ghost function DepOutcome<V, C>(s: State<V, C>, d: Dep): Outcome<V, C>
    requires Resolved(s, d)
  {
    match d
    case InputDep(n) => s.bindings[n]
    case GraphDep(j) => s.memo[j]
  }

  /**
   * TraverseState.addBindings: the graph's bindings join the run's bindings.
   * If any input is bound already, the run fails naming every input bound
   * twice, and nothing is added.
   */
  function AddBindingsSpec<V, C>(s: State<V, C>, b: map<Input, Outcome<V, C>>): (r: Result<State<V, C>>)
    ensures r.Success? <==> s.bindings.Keys !! b.Keys
    ensures r.Failure? ==> r.error == DuplicateBinding(s.bindings.Keys * b.Keys) && r.error.inputs != {}
    ensures r.Success? ==> r.value == s.(bindings := r.value.bindings)
    ensures r.Success? ==> r.value.bindings.Keys == s.bindings.Keys + b.Keys
    ensures r.Success? ==> forall n :: n in s.bindings ==> r.value.bindings[n] == s.bindings[n]
    ensures r.Success? ==> forall n :: n in b ==> r.value.bindings[n] == b[n]
  {
    var dup := s.bindings.Keys * b.Keys;
    if dup != {} then
      Failure(DuplicateBinding(dup))
    else
      assert forall n :: n in s.bindings && n in b ==> n in dup;
      Success(s.(bindings := s.bindings + b))
  }

  /** PreparedGraph.run(state): add this graph's own bindings, then resolve it. */
  function RunSpec<V, C>(arena: seq<Graph<V, C>>, i: nat, s: State<V, C>): (r: Result<(Outcome<V, C>, State<V, C>)>)
    requires WellFormed(arena) && i < |arena|
    decreases i, 2, 0
  {
    match AddBindingsSpec(s, arena[i].bindings)
    case Failure(e) => Failure(e)
    case Success(s1) => FutureSpec(arena, i, s1.(visited := s1.visited + [i]))
  }

  /**
   * PreparedGraph.future: resolve the arguments in declared order, then the
   * predecessors, join them all, and compute the node's outcome; the node
   * function is called only when the join succeeds.
   */
  function FutureSpec<V, C>(arena: seq<Graph<V, C>>, i: nat, s: State<V, C>): (r: Result<(Outcome<V, C>, State<V, C>)>)
    requires WellFormed(arena) && i < |arena|
    decreases i, 1, 0
  {
    var b := arena[i].builder;
    assert NodeWellFormed(arena[i], i);
    match DepsSpec(arena, i, b.inputs, s)
    case Failure(e) => Failure(e)
    case Success((futures, s1)) =>
      match DepsSpec(arena, i, PredDeps(b.predecessors), s1)
      case Failure(e) => Failure(e)
      case Success((preds, s2)) =>
        var o := NodeOutcome(b.node, b.fallback, futures, preds);
        var s3 := if Invokes(futures, preds) then s2.(invoked := s2.invoked + [i]) else s2;
        Success((o, s3))
  }

  /**
   * Resolution of a list of dependencies of node i, left to right: a bound
   * input is looked up in the run's bindings (an unbound one aborts the run,
   * naming it), a graph goes through the per-graph cache.  The outcomes
   * collected are, in declared order, exactly the bindings and memoized
   * outcomes of the dependencies.
   */
  function DepsSpec<V, C>(arena: seq<Graph<V, C>>, i: nat, ds: seq<Dep>, s: State<V, C>)
    : (r: Result<(seq<Outcome<V, C>>, State<V, C>)>)
    requires WellFormed(arena) && i < |arena| && Below(ds, i)
    decreases i, 0, |ds|
  {
    if ds == [] then Success(([], s))
    else
      var last := ds[|ds| - 1];
      match DepsSpec(arena, i, ds[..|ds| - 1], s)
      case Failure(e) => Failure(e)
      case Success((os, s1)) =>
        match last
        case InputDep(n) =>
          if n in s1.bindings then Success((os + [s1.bindings[n]], s1))
          else Failure(UnboundInput(n))
        case GraphDep(j) =>
          match FutureForSpec(arena, j, s1)
          case Failure(e) => Failure(e)
          case Success((o, s2)) => Success((os + [o], s2))
  }

  /**
   * TraverseState.futureForGraph: a graph instance already resolved in this
   * run yields its memoized outcome; otherwise it is run in the same state and
   * its outcome memoized.  Afterwards the instance's outcome is in the memo.
   */
  function FutureForSpec<V, C>(arena: seq<Graph<V, C>>, j: nat, s: State<V, C>): (r: Result<(Outcome<V, C>, State<V, C>)>)
    requires WellFormed(arena) && j < |arena|
    decreases j, 3, 0
  {
    if j in s.memo then Success((s.memo[j], s))
    else
      match RunSpec(arena, j, s)
      case Failure(e) => Failure(e)
      case Success((o, s1)) => Success((o, s1.(memo := s1.memo[j := o])))
  }

  /** run(state) only extends the state: nothing memoized or bound is dropped or changed, the logs only grow. */
  lemma {:induction false} RunExtends<V, C>(arena: seq<Graph<V, C>>, i: nat, s: State<V, C>)
    requires WellFormed(arena) && i < |arena|
    ensures var r := RunSpec(arena, i, s); r.Success? ==> Extends(s, r.value.1)
    decreases i, 2, 0
  {
    match AddBindingsSpec(s, arena[i].bindings)
    case Failure(_) =>
    case Success(s1) =>
      FutureExtends(arena, i, s1.(visited := s1.visited + [i]));
  }

  /** future only extends the state. */
  lemma {:induction false} FutureExtends<V, C>(arena: seq<Graph<V, C>>, i: nat, s: State<V, C>)
    requires WellFormed(arena) && i < |arena|
    ensures var r := FutureSpec(arena, i, s); r.Success? ==> Extends(s, r.value.1)
    decreases i, 1, 0
  {
    var b := arena[i].builder;
    assert NodeWellFormed(arena[i], i);
    DepsExtends(arena, i, b.inputs, s);
    match DepsSpec(arena, i, b.inputs, s)
    case Failure(_) =>
    case Success((_, s1)) =>
      DepsExtends(arena, i, PredDeps(b.predecessors), s1);
  }

  /**
   * Resolving a dependency list only extends the state, yields one outcome
   * per dependency, and each is that dependency's binding or memoized outcome
   * in the final state.
   */
  lemma {:induction false} DepsExtends<V, C>(arena: seq<Graph<V, C>>, i: nat, ds: seq<Dep>, s: State<V, C>)
    requires WellFormed(arena) && i < |arena| && Below(ds, i)
    ensures var r := DepsSpec(arena, i, ds, s);
            r.Success? ==> Extends(s, r.value.1) && |r.value.0| == |ds|
    ensures var r := DepsSpec(arena, i, ds, s);
            r.Success? ==> forall k :: 0 <= k < |ds| ==>
              Resolved(r.value.1, ds[k]) && r.value.0[k] == DepOutcome(r.value.1, ds[k])
    decreases i, 0, |ds|
  {
    if ds != [] {
      var pre, d := ds[..|ds| - 1], ds[|ds| - 1];
      assert ds == pre + [d];
      DepsExtends(arena, i, pre, s);
      match DepsSpec(arena, i, pre, s)
      case Failure(_) =>
      case Success((os, s1)) =>
        match d
        case InputDep(n) =>
          if n in s1.bindings {
            ResolvedAppend(s1, s1, pre, d, os, s1.bindings[n]);
          }
        case GraphDep(j) =>
          FutureForExtends(arena, j, s1);
          match FutureForSpec(arena, j, s1)
          case Failure(_) =>
          case Success((o, s2)) =>
            ResolvedAppend(s1, s2, pre, d, os, o);
    }
  }

  /** One more resolved dependency, with the earlier ones still resolved as they were. */
  lemma ResolvedAppend<V, C>(s: State<V, C>, s': State<V, C>, ds: seq<Dep>, d: Dep, os: seq<Outcome<V, C>>, o: Outcome<V, C>)
    requires Extends(s, s') && |os| == |ds|
    requires forall k :: 0 <= k < |ds| ==> Resolved(s, ds[k]) && os[k] == DepOutcome(s, ds[k])
    requires Resolved(s', d) && o == DepOutcome(s', d)
    ensures forall k :: 0 <= k < |ds| + 1 ==>
              Resolved(s', (ds + [d])[k]) && (os + [o])[k] == DepOutcome(s', (ds + [d])[k])
  {
  }

  /** futureForGraph only extends the state, and leaves the instance's outcome memoized. */
  lemma {:induction false} FutureForExtends<V, C>(arena: seq<Graph<V, C>>, j: nat, s: State<V, C>)
    requires WellFormed(arena) && j < |arena|
    ensures var r := FutureForSpec(arena, j, s);
            r.Success? ==> Extends(s, r.value.1) && j in r.value.1.memo && r.value.1.memo[j] == r.value.0
    decreases j, 3, 0
  {
    if j !in s.memo {
      RunExtends(arena, j, s);
    }
  }

  /** run(): a run with a fresh state. */
  function RunResult<V, C>(arena: seq<Graph<V, C>>, root: nat): Result<Outcome<V, C>>
    requires WellFormed(arena) && root < |arena|
  {
    match RunSpec(arena, root, Initial())
    case Failure(e) => Failure(e)
    case Success((o, _)) => Success(o)
  }

  /** The method's result r and final state s' are those the specification gives. */
  ghost predicate Agrees<V, C>(spec: Result<(Outcome<V, C>, State<V, C>)>, r: Result<Outcome<V, C>>, s': State<V, C>) {
    match spec
    case Failure(e) => r == Failure(e)
    case Success((o, s)) => r == Success(o) && s' == s
  }

  /** Once a prefix of the dependencies fails, so does the whole list, with the same error. */
  lemma {:induction false} DepsFailureStays<V, C>(arena: seq<Graph<V, C>>, i: nat, ds: seq<Dep>, n: nat, s: State<V, C>)
    requires WellFormed(arena) && i < |arena| && Below(ds, i) && n <= |ds|
    requires DepsSpec(arena, i, ds[..n], s).Failure?
    ensures DepsSpec(arena, i, ds, s) == DepsSpec(arena, i, ds[..n], s)
    decreases |ds| - n
  {
    if n < |ds| {
      assert ds[..n + 1][..n] == ds[..n];
      DepsFailureStays(arena, i, ds, n + 1, s);
    } else {
      assert ds[..n] == ds;
    }
  }

  /** future, once both dependency lists are resolved. */
  lemma FutureFromDeps<V, C>(arena: seq<Graph<V, C>>, i: nat, s0: State<V, C>,
                             futures: seq<Outcome<V, C>>, s1: State<V, C>, preds: seq<Outcome<V, C>>, s2: State<V, C>)
    requires WellFormed(arena) && i < |arena|
    requires Below(arena[i].builder.inputs, i) && Below(PredDeps(arena[i].builder.predecessors), i)
    requires DepsSpec(arena, i, arena[i].builder.inputs, s0) == Success((futures, s1))
    requires DepsSpec(arena, i, PredDeps(arena[i].builder.predecessors), s1) == Success((preds, s2))
    ensures FutureSpec(arena, i, s0) ==
            Success((NodeOutcome(arena[i].builder.node, arena[i].builder.fallback, futures, preds),
                     if Invokes(futures, preds) then s2.(invoked := s2.invoked + [i]) else s2))
  {
  }

  /**
   * The per-run state.  bindings and memo are the state the source keeps;
   * invoked and visited record, for the proofs, which node functions were
   * called and whose bindings were added.
   */
  class TraverseState<V, C> {
    var bindings: map<Input, Outcome<V, C>>
    var memo: map<nat, Outcome<V, C>>
    ghost var invoked: seq<nat>
    ghost var visited: seq<nat>

    ghost function Snapshot(): State<V, C>
      reads this
    {
      State(bindings, memo, invoked, visited)
    }

    /** TraverseState.empty */
    constructor Empty()
      ensures Snapshot() == Initial()
    {
      bindings := map[];
      memo := map[];
      invoked := [];
      visited := [];
    }

    method AddBindings(b: map<Input, Outcome<V, C>>) returns (err: Option<Error>)
      modifies this
      ensures match AddBindingsSpec(old(Snapshot()), b)
              case Failure(e) => err == Some(e) && Snapshot() == old(Snapshot())
              case Success(s) => err == None && Snapshot() == s
    {
      var dup := bindings.Keys * b.Keys;
      if dup != {} {
        return Some(DuplicateBinding(dup));
      }
      bindings := bindings + b;
      err := None;
    }

    method FutureForGraph(arena: seq<Graph<V, C>>, j: nat) returns (r: Result<Outcome<V, C>>)
      requires WellFormed(arena) && j < |arena|
      modifies this
      ensures Agrees(FutureForSpec(arena, j, old(Snapshot())), r, Snapshot())
      decreases j, 3
    {
      if j in memo {
        return Success(memo[j]);
      }
      r := Run(arena, j, this);
      if r.Success? {
        memo := memo[j := r.value];
      }
    }
  }

  /** PreparedGraph.run(state) */
  method Run<V, C>(arena: seq<Graph<V, C>>, i: nat, st: TraverseState<V, C>) returns (r: Result<Outcome<V, C>>)
    requires WellFormed(arena) && i < |arena|
    modifies st
    ensures Agrees(RunSpec(arena, i, old(st.Snapshot())), r, st.Snapshot())
    decreases i, 2
  {
    var err := st.AddBindings(arena[i].bindings);
    if err.Some? {
      return Failure(err.value);
    }
    st.visited := st.visited + [i];
    r := Future(arena, i, st);
  }

  /** The list results r and final state s' are those the specification gives. */
  ghost predicate AgreesDeps<V, C>(spec: Result<(seq<Outcome<V, C>>, State<V, C>)>, r: Result<seq<Outcome<V, C>>>, s': State<V, C>) {
    match spec
    case Failure(e) => r == Failure(e)
    case Success((os, s)) => r == Success(os) && s' == s
  }

  /** The loop of future over the node's arguments, in declared order (Dep.getFuture). */
  method ArgumentFutures<V, C>(arena: seq<Graph<V, C>>, i: nat, st: TraverseState<V, C>) returns (r: Result<seq<Outcome<V, C>>>)
    requires WellFormed(arena) && i < |arena|
    modifies st
    ensures Below(arena[i].builder.inputs, i)
    ensures AgreesDeps(DepsSpec(arena, i, arena[i].builder.inputs, old(st.Snapshot())), r, st.Snapshot())
    decreases i, 0
  {
    var inputs := arena[i].builder.inputs;
    assert NodeWellFormed(arena[i], i);
    ghost var s0 := st.Snapshot();
    var futures: seq<Outcome<V, C>> := [];
    var k := 0;
    while k < |inputs|
      invariant k <= |inputs|
      invariant DepsSpec(arena, i, inputs[..k], s0) == Success((futures, st.Snapshot()))
    {
      assert inputs[..k + 1][..k] == inputs[..k];
      var inputFuture: Outcome<V, C>;
      match inputs[k] {
        case InputDep(n) =>
          if n !in st.bindings {
            DepsFailureStays(arena, i, inputs, k + 1, s0);
            return Failure(UnboundInput(n));
          }
          inputFuture := st.bindings[n];
        case GraphDep(j) =>
          var res := st.FutureForGraph(arena, j);
          if res.Failure? {
            DepsFailureStays(arena, i, inputs, k + 1, s0);
            return Failure(res.error);
          }
          inputFuture := res.value;
      }
      futures := futures + [inputFuture];
      k := k + 1;
    }
    assert inputs[..k] == inputs;
    r := Success(futures);
  }

  /** The loop of future over the node's predecessors, through the per-graph cache. */
  method PredecessorFutures<V, C>(arena: seq<Graph<V, C>>, i: nat, st: TraverseState<V, C>) returns (r: Result<seq<Outcome<V, C>>>)
    requires WellFormed(arena) && i < |arena|
    modifies st
    ensures Below(PredDeps(arena[i].builder.predecessors), i)
    ensures AgreesDeps(DepsSpec(arena, i, PredDeps(arena[i].builder.predecessors), old(st.Snapshot())), r, st.Snapshot())
    decreases i, 0
  {
    var predecessors := arena[i].builder.predecessors;
    var pds := PredDeps(predecessors);
    assert NodeWellFormed(arena[i], i);
    ghost var s0 := st.Snapshot();
    var mustHappenBefore: seq<Outcome<V, C>> := [];
    var k := 0;
    while k < |predecessors|
      invariant k <= |predecessors|
      invariant DepsSpec(arena, i, pds[..k], s0) == Success((mustHappenBefore, st.Snapshot()))
    {
      assert pds[..k + 1][..k] == pds[..k];
      var res := st.FutureForGraph(arena, predecessors[k]);
      if res.Failure? {
        DepsFailureStays(arena, i, pds, k + 1, s0);
        return Failure(res.error);
      }
      mustHappenBefore := mustHappenBefore + [res.value];
      k := k + 1;
    }
    assert pds[..k] == pds;
    r := Success(mustHappenBefore);
  }

  /** PreparedGraph.future together with nodeFuture */
  method Future<V, C>(arena: seq<Graph<V, C>>, i: nat, st: TraverseState<V, C>) returns (r: Result<Outcome<V, C>>)
    requires WellFormed(arena) && i < |arena|
    modifies st
    ensures Agrees(FutureSpec(arena, i, old(st.Snapshot())), r, st.Snapshot())
    decreases i, 1
  {
    var b := arena[i].builder;
    ghost var s0 := st.Snapshot();

    var args := ArgumentFutures(arena, i, st);
    if args.Failure? {
      return Failure(args.error);
    }
    var futures := args.value;
    DepsExtends(arena, i, b.inputs, s0);
    assert |futures| == |b.inputs|;  // the source's sanity check
    ghost var s1 := st.Snapshot();

    var before := PredecessorFutures(arena, i, st);
    if before.Failure? {
      return Failure(before.error);
    }
    var preds := before.value;
    FutureFromDeps(arena, i, s0, futures, s1, preds, st.Snapshot());

    // nodeFuture: the node function runs on the argument values once everything is done
    var mustHappenBefore := futures + preds;
    var allFuture := AllAsList(mustHappenBefore);
    var nodeFuture: Outcome<V, C>;
    match allFuture {
      case Succeeded(_) =>
        ConcatSucceeded(futures, preds);
        st.invoked := st.invoked + [i];
        nodeFuture := b.node(Values(futures));
      case Failed(c) =>
        nodeFuture := Failed(c);
      case Pending =>
        nodeFuture := Pending;
    }
    r := Success(WithFallback(nodeFuture, b.fallback));
  }

  /** run() and run(executor): resolve the graph in a fresh state. */
  method RunGraph<V, C>(arena: seq<Graph<V, C>>, root: nat) returns (r: Result<Outcome<V, C>>)
    requires WellFormed(arena) && root < |arena|
    ensures r == RunResult(arena, root)
  {
    var st := new TraverseState.Empty();
    r := Run(arena, root, st);
  }
}
