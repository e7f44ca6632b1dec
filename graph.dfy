/**
 * Graph instances of one Trickle program, held in an arena.
 *
 * A graph instance is a builder (node function, declared argument
 * dependencies, ordering-only predecessors, optional fallback) together with
 * the graph's own input bindings.  Binding an input makes a NEW instance with
 * the same builder, so an instance is identified by its position in the
 * arena, never by its contents: two instances over the same function are two
 * nodes.  Every dependency points to a lower position, which makes the graph
 * acyclic by construction, as the forward-only building API does.
 */
module Graphs {
  import opened Outcomes

  /** An input is its name: two inputs with the same name are the same slot. */
  type Input = string

  /** An argument dependency: a bound input, or the result of another graph instance. */
  datatype Dep = InputDep(input: Input) | GraphDep(graph: nat)

  datatype Builder<!V, !C> = Builder(
    node: seq<V> -> Outcome<V, C>,
    arity: nat,
    inputs: seq<Dep>,
    predecessors: seq<nat>,
    fallback: Option<C -> Outcome<V, C>>)

  /** A prepared graph: a builder shared by reference, plus this instance's own bindings. */
  datatype Graph<!V, !C> = Graph(builder: Builder<V, C>, bindings: map<Input, Outcome<V, C>>)

  /** The synchronous configuration errors: they abort the call instead of failing a future. */
  datatype Error = DuplicateBinding(inputs: set<Input>) | UnboundInput(input: Input)

  datatype Result<+T> = Success(value: T) | Failure(error: Error)

  /** Predecessors seen as dependencies, so that arguments and predecessors resolve alike. */
  function PredDeps(ps: seq<nat>): (ds: seq<Dep>)
    ensures |ds| == |ps| && forall k :: 0 <= k < |ps| ==> ds[k] == GraphDep(ps[k])
  {
    seq(|ps|, k requires 0 <= k < |ps| => GraphDep(ps[k]))
  }

  /** Every graph dependency in ds points below position i. */
  ghost predicate Below(ds: seq<Dep>, i: nat) {
    forall k :: 0 <= k < |ds| && ds[k].GraphDep? ==> ds[k].graph < i
  }

  /** The node at position i declares as many arguments as its function takes and depends only on earlier nodes. */
  ghost predicate NodeWellFormed<V, C>(g: Graph<V, C>, i: nat) {
    && |g.builder.inputs| == g.builder.arity
    && Below(g.builder.inputs, i)
    && Below(PredDeps(g.builder.predecessors), i)
  }

  ghost predicate WellFormed<V, C>(arena: seq<Graph<V, C>>) {
    forall i :: 0 <= i < |arena| ==> NodeWellFormed(arena[i], i)
  }

  /** The input names that a builder's arguments refer to. */
  ghost function Referenced<V, C>(b: Builder<V, C>): set<Input> {
    set k | 0 <= k < |b.inputs| && b.inputs[k].InputDep? :: b.inputs[k].input
  }

  /**
   * Binding an input (addToInputs, reached by both bind overloads: a plain
   * value is a succeeded outcome, a future is its outcome).  It fails at once,
   * naming the input, when this graph's own bindings already hold it;
   * otherwise it yields a new graph with the same builder and exactly one
   * more binding.
   */
  function AddToInputs<V, C>(g: Graph<V, C>, input: Input, value: Outcome<V, C>): (r: Result<Graph<V, C>>)
    ensures r.Success? <==> input !in g.bindings
    ensures r.Failure? ==> r.error == DuplicateBinding({input})
    ensures r.Success? ==> r.value.builder == g.builder
    ensures r.Success? ==> r.value.bindings.Keys == g.bindings.Keys + {input}
    ensures r.Success? ==> r.value.bindings[input] == value
    ensures r.Success? ==> forall n :: n in g.bindings ==> r.value.bindings[n] == g.bindings[n]
  {
    if input in g.bindings then Failure(DuplicateBinding({input}))
    else Success(Graph(g.builder, g.bindings[input := value]))
  }

  /** bind(input, value): a plain value is bound as an already succeeded outcome. */
  function Bind<V, C>(g: Graph<V, C>, input: Input, value: V): (r: Result<Graph<V, C>>)
    ensures r.Success? <==> input !in g.bindings
    ensures r.Failure? ==> r.error == DuplicateBinding({input})
    ensures r.Success? ==> r.value.builder == g.builder && input in r.value.bindings && r.value.bindings[input] == Succeeded(value)
  {
    AddToInputs(g, input, Succeeded(value))
  }

  /** bind(input, future): the future itself is bound, whatever state it is in. */
  function BindFuture<V, C>(g: Graph<V, C>, input: Input, future: Outcome<V, C>): (r: Result<Graph<V, C>>)
    ensures r.Success? <==> input !in g.bindings
    ensures r.Failure? ==> r.error == DuplicateBinding({input})
    ensures r.Success? ==> r.value.builder == g.builder && input in r.value.bindings && r.value.bindings[input] == future
  {
    AddToInputs(g, input, future)
  }

  /** Binding the same input twice on one graph fails on the second call, naming the input. */
  lemma BindTwiceFails<V, C>(g: Graph<V, C>, input: Input, a: V, b: V)
    requires Bind(g, input, a).Success?
    ensures Bind(Bind(g, input, a).value, input, b) == Failure(DuplicateBinding({input}))
  {
  }

  /** Binding two different inputs gives the same graph in either order. */
  lemma BindOrderIrrelevant<V, C>(g: Graph<V, C>, x: Input, y: Input, a: Outcome<V, C>, b: Outcome<V, C>)
    requires x != y && x !in g.bindings && y !in g.bindings
    ensures AddToInputs(g, x, a).Success? && AddToInputs(AddToInputs(g, x, a).value, y, b).Success?
    ensures AddToInputs(g, y, b).Success? && AddToInputs(AddToInputs(g, y, b).value, x, a).Success?
    ensures AddToInputs(AddToInputs(g, x, a).value, y, b) == AddToInputs(AddToInputs(g, y, b).value, x, a)
  {
    assert g.bindings[x := a][y := b] == g.bindings[y := b][x := a];
  }

  /**
   * A bound graph is a new instance: appending it to the arena keeps the
   * arena well formed, and it differs from the instance it was bound from,
   * over the same builder with one binding more.  The instance bound from is
   * a value, so it stays as it was.
   */
  lemma BindAppendsInstance<V, C>(arena: seq<Graph<V, C>>, i: nat, input: Input, value: Outcome<V, C>)
    requires WellFormed(arena) && i < |arena|
    requires AddToInputs(arena[i], input, value).Success?
    ensures WellFormed(arena + [AddToInputs(arena[i], input, value).value])
    ensures var g := AddToInputs(arena[i], input, value).value;
            && g != arena[i] && g.builder == arena[i].builder
            && g.bindings.Keys == arena[i].bindings.Keys + {input} && input !in arena[i].bindings
  {
    var g := AddToInputs(arena[i], input, value).value;
    var arena' := arena + [g];
    assert NodeWellFormed(arena[i], i);
    forall j | 0 <= j < |arena'| ensures NodeWellFormed(arena'[j], j) {
      if j < |arena| {
        assert arena'[j] == arena[j];
      }
    }
  }

  /** The nodes a node can reach through arguments and predecessors, itself included. */
  ghost function Reach<V, C>(arena: seq<Graph<V, C>>, i: nat): set<nat>
    requires WellFormed(arena) && i < |arena|
    decreases i, 1, 0
  {
    var b := arena[i].builder;
    assert NodeWellFormed(arena[i], i);
    {i} + ReachAll(arena, i, b.inputs) + ReachAll(arena, i, PredDeps(b.predecessors))
  }

  ghost function ReachAll<V, C>(arena: seq<Graph<V, C>>, i: nat, ds: seq<Dep>): set<nat>
    requires WellFormed(arena) && i <= |arena| && Below(ds, i)
    decreases i, 0, |ds|
  {
    if ds == [] then {}
    else
      var rest := ReachAll(arena, i, ds[..|ds| - 1]);
      match ds[|ds| - 1]
      case InputDep(_) => rest
      case GraphDep(j) => rest + Reach(arena, j)
  }
}
