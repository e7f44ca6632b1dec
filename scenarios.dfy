/**
 * The graphs of the repository's own tests, run through the model.
 * Failure causes are strings.  In the binding tests values are strings too;
 * the call-count tests mix string and integer results, so there a value is
 * a Val.  A node function given arguments of the wrong number or kind fails
 * (the arity and types are fixed by the builder).
 */
module Scenarios {
  import opened Outcomes
  import opened Graphs
  import opened Traversal

  function Suffix1(args: seq<string>): Outcome<string, string> {
    if |args| == 1 then Succeeded(args[0] + ", 1") else Failed("arity")
  }

  function Join2(args: seq<string>): Outcome<string, string> {
    if |args| == 2 then Succeeded(args[0] + ", " + args[1]) else Failed("arity")
  }

  /** call(f).with(deps): a node over f with these arguments, no predecessors and no fallback. */
  function Call<V>(f: seq<V> -> Outcome<V, string>, deps: seq<Dep>): (b: Builder<V, string>)
    ensures b.node == f && b.arity == |b.inputs| && b.inputs == deps && b.predecessors == [] && b.fallback.None?
  {
    Builder(f, |deps|, deps, [], None)
  }

  /** A node whose only argument is an input nobody binds. */
  function MissingInputArena(): (arena: seq<Graph<string, string>>)
    ensures |arena| == 1 && WellFormed(arena)
    ensures Referenced(arena[0].builder) == {"somethingWeirdd"} && arena[0].bindings == map[]
  {
    var arena := [Graph(Call(Suffix1, [InputDep("somethingWeirdd")]), map[])];
    assert NodeWellFormed(arena[0], 0);
    assert Referenced(arena[0].builder) == {"somethingWeirdd"} by {
      assert arena[0].builder.inputs[0] == InputDep("somethingWeirdd");
    }
    arena
  }

  /** Running a graph whose input is not bound fails, naming the input. */
  lemma MissingInputNamed()
    ensures RunResult(MissingInputArena(), 0) == Failure(UnboundInput("somethingWeirdd"))
  {
    var arena := MissingInputArena();
    var s0: State<string, string> := Initial();
    var s1 := s0.(visited := [0]);
    assert AddBindingsSpec(s0, arena[0].bindings) == Success(s0);
    assert RunSpec(arena, 0, s0) == FutureSpec(arena, 0, s1);
    var ds := arena[0].builder.inputs;
    assert DepsSpec(arena, 0, ds[..0], s1) == Success(([], s1));
    assert ds[..0] == [];
    assert DepsSpec(arena, 0, ds, s1) == Failure(UnboundInput("somethingWeirdd"));
  }

  /**
   * A subgraph bound to "erich" used as the argument of a graph whose own
   * binding of the same input is "volker".
   */
  function ChainedArena(): (arena: seq<Graph<string, string>>)
    ensures |arena| == 2 && WellFormed(arena)
    ensures "mein Name" in arena[0].bindings && "mein Name" in arena[1].bindings
  {
    var n := "mein Name";
    var arena := [Graph(Call(Suffix1, [InputDep(n)]), map[n := Succeeded("erich")]),
                  Graph(Call(Suffix1, [GraphDep(0)]), map[n := Succeeded("volker")])];
    assert NodeWellFormed(arena[0], 0) && NodeWellFormed(arena[1], 1);
    arena
  }

  /** Binding an input that a subgraph binds too fails when the subgraph is reached, naming the input. */
  lemma ChainedDuplicateNamed()
    ensures RunResult(ChainedArena(), 1) == Failure(DuplicateBinding({"mein Name"}))
  {
    var arena := ChainedArena();
    var n := "mein Name";
    var s0: State<string, string> := Initial();
    var s1 := s0.(bindings := arena[1].bindings, visited := [1]);
    assert s0.bindings + arena[1].bindings == arena[1].bindings;
    assert AddBindingsSpec(s0, arena[1].bindings) == Success(s0.(bindings := arena[1].bindings));
    assert RunSpec(arena, 1, s0) == FutureSpec(arena, 1, s1);
    var ds := arena[1].builder.inputs;
    assert ds[..0] == [];
    assert DepsSpec(arena, 1, ds[..0], s1) == Success(([], s1));
    assert s1.bindings.Keys * arena[0].bindings.Keys == {n};
    assert AddBindingsSpec(s1, arena[0].bindings) == Failure(DuplicateBinding({n}));
    assert FutureForSpec(arena, 0, s1) == Failure(DuplicateBinding({n}));
    assert DepsSpec(arena, 1, ds, s1) == Failure(DuplicateBinding({n}));
  }

  /**
   * Two subgraphs over the same function, each binding the same two inputs,
   * joined by a third node.
   */
  ghost predicate IsDiamondArena(arena: seq<Graph<string, string>>) {
    var a, b := "mitt namn", "nåt";
    && |arena| == 3 && WellFormed(arena)
    && arena[0] == Graph(Call(Suffix1, [InputDep(a)]), map[a := Succeeded("erik"), b := Succeeded("hej")])
    && arena[1] == Graph(Call(Suffix1, [InputDep(a)]), map[a := Succeeded("folke"), b := Succeeded("hopp")])
    && arena[2] == Graph(Call(Join2, [GraphDep(0), GraphDep(1)]), map[])
  }

  function DiamondArena(): (arena: seq<Graph<string, string>>)
    ensures IsDiamondArena(arena)
    ensures arena[0].bindings.Keys == arena[1].bindings.Keys == {"mitt namn", "nåt"}
    ensures arena[2].bindings == map[]
  {
    var a, b := "mitt namn", "nåt";
    var arena := [Graph(Call(Suffix1, [InputDep(a)]), map[a := Succeeded("erik"), b := Succeeded("hej")]),
                  Graph(Call(Suffix1, [InputDep(a)]), map[a := Succeeded("folke"), b := Succeeded("hopp")]),
                  Graph(Call(Join2, [GraphDep(0), GraphDep(1)]), map[])];
    assert NodeWellFormed(arena[0], 0) && NodeWellFormed(arena[1], 1) && NodeWellFormed(arena[2], 2);
    arena
  }

  /** The diamond's first subgraph resolves: its bindings are added and its function is called once. */
  lemma DiamondFirstBranch(arena: seq<Graph<string, string>>, s1: State<string, string>)
    requires IsDiamondArena(arena) && s1 == State(map[], map[], [], [2])
    ensures FutureForSpec(arena, 0, s1) ==
            Success((Suffix1(["erik"]), State(arena[0].bindings, map[0 := Suffix1(["erik"])], [0], [2, 0])))
  {
    var a := "mitt namn";
    assert arena[0].bindings[a] == Succeeded("erik");
    var s2 := s1.(bindings := arena[0].bindings, visited := [2, 0]);
    assert s1.bindings + arena[0].bindings == arena[0].bindings;
    assert AddBindingsSpec(s1, arena[0].bindings) == Success(s1.(bindings := arena[0].bindings));
    assert s1.visited + [0] == [2, 0];
    assert RunSpec(arena, 0, s1) == FutureSpec(arena, 0, s2);
    var ds0 := arena[0].builder.inputs;
    assert ds0 == [InputDep(a)];
    assert ds0[..0] == [];
    assert DepsSpec(arena, 0, ds0[..0], s2) == Success(([], s2));
    var erik: seq<Outcome<string, string>> := [Succeeded("erik")];
    assert [] + [Succeeded("erik")] == erik;
    assert DepsSpec(arena, 0, ds0, s2) == Success((erik, s2));
    assert PredDeps([]) == [];
    assert DepsSpec(arena, 0, PredDeps([]), s2) == Success(([], s2));
    assert erik + [] == erik;
    assert Values(erik) == ["erik"];
    assert NodeOutcome(Suffix1, None, erik, []) == Suffix1(["erik"]);
    assert Invokes(erik, []);
    assert s2.invoked + [0] == [0];
    assert arena[0].builder == Builder(Suffix1, 1, ds0, [], None);
    assert FutureSpec(arena, 0, s2) == Success((Suffix1(["erik"]), s2.(invoked := [0])));
  }

  /** Merging two subgraphs that bind the same inputs fails, naming every input bound twice. */
  lemma DiamondDuplicateNamesBoth()
    ensures RunResult(DiamondArena(), 2) == Failure(DuplicateBinding({"mitt namn", "nåt"}))
  {
    DiamondRun(DiamondArena());
  }

  lemma DiamondRun(arena: seq<Graph<string, string>>)
    requires IsDiamondArena(arena)
    ensures RunSpec(arena, 2, Initial()) == Failure(DuplicateBinding({"mitt namn", "nåt"}))
  {
    var s1: State<string, string> := State(map[], map[], [], [2]);
    DiamondFirstBranch(arena, s1);
    var s3 := State(arena[0].bindings, map[0 := Suffix1(["erik"])], [0], [2, 0]);
    DiamondClash(arena, s3);
    DiamondRoot(arena, s1, Suffix1(["erik"]), s3, DuplicateBinding({"mitt namn", "nåt"}));
  }

  /** The second subgraph's bindings clash with the first's on both inputs. */
  lemma DiamondClash(arena: seq<Graph<string, string>>, s3: State<string, string>)
    requires IsDiamondArena(arena) && s3 == State(arena[0].bindings, map[0 := Suffix1(["erik"])], [0], [2, 0])
    ensures FutureForSpec(arena, 1, s3) == Failure(DuplicateBinding({"mitt namn", "nåt"}))
  {
    var a, b := "mitt namn", "nåt";
    assert s3.bindings.Keys * arena[1].bindings.Keys == {a, b};
    assert AddBindingsSpec(s3, arena[1].bindings) == Failure(DuplicateBinding({a, b}));
  }

  /** The join node of the diamond fails with the error its second argument fails with. */
  lemma DiamondRoot(arena: seq<Graph<string, string>>, s1: State<string, string>, o: Outcome<string, string>,
                    s3: State<string, string>, e: Error)
    requires WellFormed(arena) && |arena| == 3
    requires arena[2] == Graph(Call(Join2, [GraphDep(0), GraphDep(1)]), map[])
    requires s1 == State(map[], map[], [], [2])
    requires FutureForSpec(arena, 0, s1) == Success((o, s3))
    requires FutureForSpec(arena, 1, s3) == Failure(e)
    ensures RunSpec(arena, 2, Initial()) == Failure(e)
  {
    var s0: State<string, string> := Initial();
    assert s0.bindings + arena[2].bindings == map[];
    assert AddBindingsSpec(s0, arena[2].bindings) == Success(s0);
    assert s0.visited + [2] == [2];
    assert RunSpec(arena, 2, s0) == FutureSpec(arena, 2, s1);
    var ds := arena[2].builder.inputs;
    assert ds[..1] == [GraphDep(0)] && ds[..1][..0] == [];
    assert [] + [o] == [o];
    assert DepsSpec(arena, 2, ds[..1], s1) == Success(([o], s3));
    assert DepsSpec(arena, 2, ds, s1) == Failure(e);
  }

  /** A value of the call-count tests: a String or an Integer. */
  datatype Val = Str(s: string) | Num(n: int)

  /** greet: "hello " + name + "!" */
  function Greet(args: seq<Val>): Outcome<Val, string> {
    if |args| == 1 && args[0].Str? then Succeeded(Str("hello " + args[0].s + "!")) else Failed("bad arguments")
  }

  /** noop: its argument, unchanged. */
  function Noop(args: seq<Val>): Outcome<Val, string> {
    if |args| == 1 then Succeeded(args[0]) else Failed("bad arguments")
  }

  /** node2 of the twin test: input1 + input2. */
  function Concat2(args: seq<Val>): Outcome<Val, string> {
    if |args| == 2 && args[0].Str? && args[1].Str? then Succeeded(Str(args[0].s + args[1].s)) else Failed("bad arguments")
  }

  /** node2 of the shared-dependency test: input1.length() + input2.length(). */
  function LengthSum2(args: seq<Val>): Outcome<Val, string> {
    if |args| == 2 && args[0].Str? && args[1].Str? then Succeeded(Num(|args[0].s| + |args[1].s|)) else Failed("bad arguments")
  }

  const Name: Input := "theInnnput"
  const Hello: string := "hello " + "rouz" + "!"

  /** futureForGraph of an instance not yet resolved: it is run, and its outcome memoized. */
  lemma Memoized(arena: seq<Graph<Val, string>>, j: nat, s: State<Val, string>,
                 o: Outcome<Val, string>, s': State<Val, string>)
    requires WellFormed(arena) && j < |arena| && j !in s.memo
    requires RunSpec(arena, j, s) == Success((o, s'))
    ensures FutureForSpec(arena, j, s) == Success((o, s'.(memo := s'.memo[j := o])))
  {
  }

  /** run(state) on an instance none of whose bindings is bound yet: add them, then resolve. */
  lemma RunAddsBindings(arena: seq<Graph<Val, string>>, j: nat, s: State<Val, string>)
    requires WellFormed(arena) && j < |arena| && s.bindings.Keys !! arena[j].bindings.Keys
    ensures RunSpec(arena, j, s) ==
            FutureSpec(arena, j, s.(bindings := s.bindings + arena[j].bindings, visited := s.visited + [j]))
  {
    assert AddBindingsSpec(s, arena[j].bindings) == Success(s.(bindings := s.bindings + arena[j].bindings));
  }

  /** A node without predecessors resolves its (empty) predecessor list without touching the state. */
  lemma NoPredecessors(arena: seq<Graph<Val, string>>, j: nat, s: State<Val, string>)
    requires WellFormed(arena) && j < |arena| && arena[j].builder.predecessors == []
    ensures Below(PredDeps(arena[j].builder.predecessors), j)
    ensures DepsSpec(arena, j, PredDeps(arena[j].builder.predecessors), s) == Success(([], s))
  {
    assert PredDeps([]) == [];
  }

  /** A one-argument node on a succeeded argument: called once, with that value. */
  lemma CallOne(f: seq<Val> -> Outcome<Val, string>, v: Val)
    ensures Invokes<Val, string>([Succeeded(v)], [])
    ensures NodeOutcome(f, None, [Succeeded(v)], []) == f([v])
  {
    var one: seq<Outcome<Val, string>> := [Succeeded(v)];
    assert one + [] == one;
    assert Values(one) == [v];
  }

  /** A two-argument node on two succeeded arguments: called once, with both values in order. */
  lemma CallTwo(f: seq<Val> -> Outcome<Val, string>, v1: Val, v2: Val)
    ensures Invokes<Val, string>([Succeeded(v1), Succeeded(v2)], [])
    ensures NodeOutcome(f, None, [Succeeded(v1), Succeeded(v2)], []) == f([v1, v2])
  {
    var two: seq<Outcome<Val, string>> := [Succeeded(v1), Succeeded(v2)];
    assert two + [] == two;
    assert Values(two) == [v1, v2];
  }

  /** Running a greet instance whose input is bound to "rouz" calls greet once and yields the greeting. */
  lemma RunGreet(arena: seq<Graph<Val, string>>, j: nat, s: State<Val, string>)
    requires WellFormed(arena) && j < |arena| && arena[j].builder == Call(Greet, [InputDep(Name)])
    requires s.bindings.Keys !! arena[j].bindings.Keys
    requires Name in s.bindings + arena[j].bindings && (s.bindings + arena[j].bindings)[Name] == Succeeded(Str("rouz"))
    ensures RunSpec(arena, j, s) ==
            Success((Succeeded(Str(Hello)), s.(bindings := s.bindings + arena[j].bindings,
                                               invoked := s.invoked + [j], visited := s.visited + [j])))
  {
    var s1 := s.(bindings := s.bindings + arena[j].bindings, visited := s.visited + [j]);
    RunAddsBindings(arena, j, s);
    var ds := arena[j].builder.inputs;
    assert ds[..0] == [];
    var rouz: seq<Outcome<Val, string>> := [Succeeded(Str("rouz"))];
    assert [] + rouz == rouz;
    assert DepsSpec(arena, j, ds, s1) == Success((rouz, s1));
    NoPredecessors(arena, j, s1);
    FutureFromDeps(arena, j, s1, rouz, s1, [], s1);
    CallOne(Greet, Str("rouz"));
  }

  /** Running a noop instance resolves its argument graph k, then calls noop, passing the value on. */
  lemma RunNoop(arena: seq<Graph<Val, string>>, j: nat, k: nat, s: State<Val, string>,
                v: Val, s': State<Val, string>)
    requires WellFormed(arena) && k < j < |arena| && arena[j].builder == Call(Noop, [GraphDep(k)])
    requires s.bindings.Keys !! arena[j].bindings.Keys
    requires FutureForSpec(arena, k, s.(bindings := s.bindings + arena[j].bindings, visited := s.visited + [j])) ==
             Success((Succeeded(v), s'))
    ensures RunSpec(arena, j, s) == Success((Succeeded(v), s'.(invoked := s'.invoked + [j])))
  {
    var s1 := s.(bindings := s.bindings + arena[j].bindings, visited := s.visited + [j]);
    RunAddsBindings(arena, j, s);
    var ds := arena[j].builder.inputs;
    assert ds[..0] == [];
    var one: seq<Outcome<Val, string>> := [Succeeded(v)];
    assert [] + one == one;
    assert DepsSpec(arena, j, ds, s1) == Success((one, s'));
    NoPredecessors(arena, j, s');
    FutureFromDeps(arena, j, s1, one, s', [], s');
    CallOne(Noop, v);
  }

  /**
   * Running a two-argument node over graphs k1 and k2 resolves both in
   * order, then calls the node function once on both values.
   */
  lemma RunPair(arena: seq<Graph<Val, string>>, j: nat, f: seq<Val> -> Outcome<Val, string>, k1: nat, k2: nat,
                s: State<Val, string>, v1: Val, s1: State<Val, string>, v2: Val, s2: State<Val, string>)
    requires WellFormed(arena) && k1 < j && k2 < j && j < |arena| && arena[j].builder == Call(f, [GraphDep(k1), GraphDep(k2)])
    requires s.bindings.Keys !! arena[j].bindings.Keys
    requires FutureForSpec(arena, k1, s.(bindings := s.bindings + arena[j].bindings, visited := s.visited + [j])) ==
             Success((Succeeded(v1), s1))
    requires FutureForSpec(arena, k2, s1) == Success((Succeeded(v2), s2))
    ensures RunSpec(arena, j, s) == Success((f([v1, v2]), s2.(invoked := s2.invoked + [j])))
  {
    var s0 := s.(bindings := s.bindings + arena[j].bindings, visited := s.visited + [j]);
    RunAddsBindings(arena, j, s);
    PairArguments(arena, j, k1, k2, s0, v1, s1, v2, s2);
    NoPredecessors(arena, j, s2);
    FutureFromDeps(arena, j, s0, [Succeeded(v1), Succeeded(v2)], s2, [], s2);
    CallTwo(f, v1, v2);
  }

  /** The two argument graphs of a two-argument node are resolved left to right. */
  lemma PairArguments(arena: seq<Graph<Val, string>>, j: nat, k1: nat, k2: nat, s0: State<Val, string>,
                      v1: Val, s1: State<Val, string>, v2: Val, s2: State<Val, string>)
    requires WellFormed(arena) && k1 < j && k2 < j && j < |arena| && arena[j].builder.inputs == [GraphDep(k1), GraphDep(k2)]
    requires FutureForSpec(arena, k1, s0) == Success((Succeeded(v1), s1))
    requires FutureForSpec(arena, k2, s1) == Success((Succeeded(v2), s2))
    ensures Below(arena[j].builder.inputs, j)
    ensures DepsSpec(arena, j, arena[j].builder.inputs, s0) == Success(([Succeeded(v1), Succeeded(v2)], s2))
  {
    var ds := arena[j].builder.inputs;
    assert ds[..1] == [GraphDep(k1)] && ds[..1][..0] == [];
    var one: seq<Outcome<Val, string>> := [Succeeded(v1)];
    var two: seq<Outcome<Val, string>> := [Succeeded(v1), Succeeded(v2)];
    assert [] + one == one && one + [Succeeded(v2)] == two;
    assert DepsSpec(arena, j, ds[..1], s0) == Success((one, s1));
  }

  /**
   * greet over an input, noop over greet, and the length sum over noop and
   * greet; only the outermost graph is bound.
   */
  ghost predicate IsSharedArena(arena: seq<Graph<Val, string>>) {
    && |arena| == 3 && WellFormed(arena)
    && arena[0] == Graph(Call(Greet, [InputDep(Name)]), map[])
    && arena[1] == Graph(Call(Noop, [GraphDep(0)]), map[])
    && arena[2] == Graph(Call(LengthSum2, [GraphDep(1), GraphDep(0)]), map[Name := Succeeded(Str("rouz"))])
  }

  function SharedArena(): (arena: seq<Graph<Val, string>>)
    ensures IsSharedArena(arena)
    ensures arena[0].builder.node == Greet && arena[1].builder.node != Greet && arena[2].builder.node != Greet
  {
    var arena := [Graph(Call(Greet, [InputDep(Name)]), map[]),
                  Graph(Call(Noop, [GraphDep(0)]), map[]),
                  Graph(Call(LengthSum2, [GraphDep(1), GraphDep(0)]), map[Name := Succeeded(Str("rouz"))])];
    assert NodeWellFormed(arena[0], 0) && NodeWellFormed(arena[1], 1) && NodeWellFormed(arena[2], 2);
    assert Noop([Str("a")]) != Greet([Str("a")]) && LengthSum2([Str("a"), Str("b")]) != Greet([Str("a"), Str("b")]);
    arena
  }

  /**
   * A graph used both directly and through another node is resolved once:
   * every node function is called once, innermost first, so greet is called
   * exactly once, and the result is the sum of the two greetings' lengths, 22.
   */
  lemma SharedDependencyCalledOnce()
    ensures RunSpec(SharedArena(), 2, Initial()) ==
            Success((Succeeded(Num(22)),
                     State(map[Name := Succeeded(Str("rouz"))], map[0 := Succeeded(Str(Hello)), 1 := Succeeded(Str(Hello))],
                           [0, 1, 2], [2, 1, 0])))
  {
    SharedRun(SharedArena());
  }

  lemma SharedRun(arena: seq<Graph<Val, string>>)
    requires IsSharedArena(arena)
    ensures RunSpec(arena, 2, Initial()) ==
            Success((Succeeded(Num(22)),
                     State(map[Name := Succeeded(Str("rouz"))], map[0 := Succeeded(Str(Hello)), 1 := Succeeded(Str(Hello))],
                           [0, 1, 2], [2, 1, 0])))
  {
    var b := arena[2].bindings;
    var H := Succeeded(Str(Hello));
    var s4 := State(b, map[0 := H, 1 := H], [0, 1], [2, 1, 0]);
    SharedBranch(arena);
    SharedRoot(arena, State(b, map[], [], [2]), s4);
    assert s4.invoked + [2] == [0, 1, 2];
  }

  /** The shared graph's first argument: noop over greet, each called once and memoized. */
  lemma SharedBranch(arena: seq<Graph<Val, string>>)
    requires IsSharedArena(arena)
    ensures FutureForSpec(arena, 1, State(arena[2].bindings, map[], [], [2])) ==
            Success((Succeeded(Str(Hello)), State(arena[2].bindings, map[0 := Succeeded(Str(Hello)), 1 := Succeeded(Str(Hello))],
                                                  [0, 1], [2, 1, 0])))
  {
    var H := Succeeded(Str(Hello));
    var s1 := State(arena[2].bindings, map[], [], [2]);
    GreetThenNoop(arena, 0, 1, s1);
    assert [] + [0, 1] == [0, 1] && [2] + [1, 0] == [2, 1, 0];
    assert s1.memo[0 := H][1 := H] == map[0 := H, 1 := H];
  }

  /** The outermost node of the shared graph: noop's result first, then greet's, memoized already. */
  lemma SharedRoot(arena: seq<Graph<Val, string>>, s1: State<Val, string>, s4: State<Val, string>)
    requires WellFormed(arena) && |arena| == 3
    requires arena[2] == Graph(Call(LengthSum2, [GraphDep(1), GraphDep(0)]), map[Name := Succeeded(Str("rouz"))])
    requires s1 == State(arena[2].bindings, map[], [], [2])
    requires FutureForSpec(arena, 1, s1) == Success((Succeeded(Str(Hello)), s4))
    requires 0 in s4.memo && s4.memo[0] == Succeeded(Str(Hello))
    ensures RunSpec(arena, 2, Initial()) == Success((Succeeded(Num(22)), s4.(invoked := s4.invoked + [2])))
  {
    var s0: State<Val, string> := Initial();
    var none: map<Input, Outcome<Val, string>> := map[];
    assert none + arena[2].bindings == arena[2].bindings;
    assert s0.(bindings := s0.bindings + arena[2].bindings, visited := s0.visited + [2]) == s1;
    assert FutureForSpec(arena, 0, s4) == Success((Succeeded(Str(Hello)), s4));
    RunPair(arena, 2, LengthSum2, 1, 0, s0, Str(Hello), s4, Str(Hello), s4);
    assert |Hello| == 11;
  }

  /**
   * A greet instance g and a noop instance n over it, neither resolved yet,
   * in a state binding Name to "rouz": resolving n resolves g on the way,
   * calls greet and then noop once each, and memoizes both.
   */
  lemma GreetThenNoop(arena: seq<Graph<Val, string>>, g: nat, n: nat, s: State<Val, string>)
    requires WellFormed(arena) && g < n < |arena|
    requires arena[g] == Graph(Call(Greet, [InputDep(Name)]), map[])
    requires arena[n] == Graph(Call(Noop, [GraphDep(g)]), map[])
    requires g !in s.memo && n !in s.memo
    requires Name in s.bindings && s.bindings[Name] == Succeeded(Str("rouz"))
    ensures FutureForSpec(arena, n, s) ==
            Success((Succeeded(Str(Hello)), State(s.bindings, s.memo[g := Succeeded(Str(Hello))][n := Succeeded(Str(Hello))],
                                                  s.invoked + [g, n], s.visited + [n, g])))
  {
    var H := Succeeded(Str(Hello));
    var none: map<Input, Outcome<Val, string>> := map[];
    assert s.bindings + none == s.bindings;
    var s1 := s.(visited := s.visited + [n]);
    assert s.(bindings := s.bindings + arena[n].bindings, visited := s.visited + [n]) == s1;
    RunGreet(arena, g, s1);
    var g1 := s1.(invoked := s1.invoked + [g], visited := s1.visited + [g]);
    assert s1.(bindings := s1.bindings + arena[g].bindings, invoked := s1.invoked + [g], visited := s1.visited + [g]) == g1;
    Memoized(arena, g, s1, H, g1);
    var m := g1.(memo := g1.memo[g := H]);
    RunNoop(arena, n, g, s, Str(Hello), m);
    Memoized(arena, n, s, H, m.(invoked := m.invoked + [n]));
    assert s.invoked + [g] + [n] == s.invoked + [g, n];
    assert s.visited + [n] + [g] == s.visited + [n, g];
  }

  /** futureForGraph of an unresolved two-argument node: run as by RunPair, then memoized. */
  lemma MemoizedPair(arena: seq<Graph<Val, string>>, j: nat, f: seq<Val> -> Outcome<Val, string>, k1: nat, k2: nat,
                     s: State<Val, string>, v1: Val, s1: State<Val, string>, v2: Val, s2: State<Val, string>)
    requires WellFormed(arena) && k1 < j && k2 < j && j < |arena| && arena[j].builder == Call(f, [GraphDep(k1), GraphDep(k2)])
    requires s.bindings.Keys !! arena[j].bindings.Keys && j !in s.memo
    requires FutureForSpec(arena, k1, s.(bindings := s.bindings + arena[j].bindings, visited := s.visited + [j])) ==
             Success((Succeeded(v1), s1))
    requires FutureForSpec(arena, k2, s1) == Success((Succeeded(v2), s2))
    ensures FutureForSpec(arena, j, s) ==
            Success((f([v1, v2]), s2.(invoked := s2.invoked + [j], memo := s2.memo[j := f([v1, v2])])))
  {
    RunPair(arena, j, f, k1, k2, s, v1, s1, v2, s2);
    Memoized(arena, j, s, f([v1, v2]), s2.(invoked := s2.invoked + [j]));
  }

  /**
   * Two greet instances over the same input, one used twice (directly and
   * through noop), the other once.
   */
  ghost predicate IsTwinArena(arena: seq<Graph<Val, string>>) {
    && |arena| == 5 && WellFormed(arena)
    && arena[0] == Graph(Call(Greet, [InputDep(Name)]), map[])
    && arena[1] == Graph(Call(Greet, [InputDep(Name)]), map[])
    && arena[2] == Graph(Call(Noop, [GraphDep(0)]), map[])
    && arena[3] == Graph(Call(Concat2, [GraphDep(2), GraphDep(0)]), map[])
    && arena[4] == Graph(Call(Concat2, [GraphDep(3), GraphDep(1)]), map[Name := Succeeded(Str("rouz"))])
  }

  function TwinArena(): (arena: seq<Graph<Val, string>>)
    ensures IsTwinArena(arena)
    ensures arena[0].builder.node == Greet && arena[1].builder.node == Greet
    ensures forall k :: 2 <= k < 5 ==> arena[k].builder.node != Greet
  {
    var arena := [Graph(Call(Greet, [InputDep(Name)]), map[]),
                  Graph(Call(Greet, [InputDep(Name)]), map[]),
                  Graph(Call(Noop, [GraphDep(0)]), map[]),
                  Graph(Call(Concat2, [GraphDep(2), GraphDep(0)]), map[]),
                  Graph(Call(Concat2, [GraphDep(3), GraphDep(1)]), map[Name := Succeeded(Str("rouz"))])];
    assert NodeWellFormed(arena[0], 0) && NodeWellFormed(arena[1], 1) && NodeWellFormed(arena[2], 2);
    assert NodeWellFormed(arena[3], 3) && NodeWellFormed(arena[4], 4);
    assert Noop([Str("a")]) != Greet([Str("a")]) && Concat2([Str("a"), Str("b")]) != Greet([Str("a"), Str("b")]);
    arena
  }

  /** The first argument of the twin graph: greet, noop over it, and their concatenation. */
  lemma TwinLeft(arena: seq<Graph<Val, string>>, s4: State<Val, string>)
    requires IsTwinArena(arena) && s4 == State(map[Name := Succeeded(Str("rouz"))], map[], [], [4])
    ensures FutureForSpec(arena, 3, s4) ==
            Success((Succeeded(Str(Hello + Hello)),
                     State(s4.bindings, map[0 := Succeeded(Str(Hello)), 2 := Succeeded(Str(Hello)), 3 := Succeeded(Str(Hello + Hello))],
                           [0, 2, 3], [4, 3, 2, 0])))
  {
    var b := s4.bindings;
    var H := Succeeded(Str(Hello));
    TwinLeftBranch(arena);
    TwinLeftRoot(arena, s4, State(b, map[], [], [4, 3]), State(b, map[0 := H, 2 := H], [0, 2], [4, 3, 2, 0]));
  }

  /** noop over the first greet instance, reached first through the twin graph's first concatenation. */
  lemma TwinLeftBranch(arena: seq<Graph<Val, string>>)
    requires IsTwinArena(arena)
    ensures FutureForSpec(arena, 2, State(arena[4].bindings, map[], [], [4, 3])) ==
            Success((Succeeded(Str(Hello)), State(arena[4].bindings, map[0 := Succeeded(Str(Hello)), 2 := Succeeded(Str(Hello))],
                                                  [0, 2], [4, 3, 2, 0])))
  {
    var H := Succeeded(Str(Hello));
    var s3 := State(arena[4].bindings, map[], [], [4, 3]);
    GreetThenNoop(arena, 0, 2, s3);
    assert [] + [0, 2] == [0, 2] && [4, 3] + [2, 0] == [4, 3, 2, 0];
    assert s3.memo[0 := H][2 := H] == map[0 := H, 2 := H];
  }

  /** The twin graph's first concatenation: noop's result, then the first greet's, memoized already. */
  lemma TwinLeftRoot(arena: seq<Graph<Val, string>>, s4: State<Val, string>, s3: State<Val, string>,
                     m2: State<Val, string>)
    requires WellFormed(arena) && |arena| == 5
    requires arena[3] == Graph(Call(Concat2, [GraphDep(2), GraphDep(0)]), map[])
    requires 3 !in s4.memo && s3 == s4.(visited := s4.visited + [3])
    requires FutureForSpec(arena, 2, s3) == Success((Succeeded(Str(Hello)), m2))
    requires m2.memo == map[0 := Succeeded(Str(Hello)), 2 := Succeeded(Str(Hello))] && m2.invoked == [0, 2]
    ensures FutureForSpec(arena, 3, s4) ==
            Success((Succeeded(Str(Hello + Hello)),
                     State(m2.bindings, map[0 := Succeeded(Str(Hello)), 2 := Succeeded(Str(Hello)), 3 := Succeeded(Str(Hello + Hello))],
                           [0, 2, 3], m2.visited)))
  {
    var none: map<Input, Outcome<Val, string>> := map[];
    assert s4.bindings + none == s4.bindings;
    assert s4.(bindings := s4.bindings + arena[3].bindings, visited := s4.visited + [3]) == s3;
    assert FutureForSpec(arena, 0, m2) == Success((Succeeded(Str(Hello)), m2));
    MemoizedPair(arena, 3, Concat2, 2, 0, s4, Str(Hello), m2, Str(Hello), m2);
    assert m2.invoked + [3] == [0, 2, 3];
  }

  /**
   * Two graph instances over the same function are two nodes: greet is
   * called once for each, twice in all, even though the first is reached
   * twice.
   */
  lemma TwinInstancesCalledOnceEach()
    ensures RunSpec(TwinArena(), 4, Initial()).Success?
    ensures RunSpec(TwinArena(), 4, Initial()).value.0 == Succeeded(Str(Hello + Hello + Hello))
    ensures RunSpec(TwinArena(), 4, Initial()).value.1.invoked == [0, 2, 3, 1, 4]
  {
    TwinRun(TwinArena());
  }

  /** The second argument of the twin graph: the second greet instance, called although greet ran before. */
  lemma TwinRight(arena: seq<Graph<Val, string>>, m3: State<Val, string>)
    requires IsTwinArena(arena)
    requires m3 == State(map[Name := Succeeded(Str("rouz"))],
                         map[0 := Succeeded(Str(Hello)), 2 := Succeeded(Str(Hello)), 3 := Succeeded(Str(Hello + Hello))],
                         [0, 2, 3], [4, 3, 2, 0])
    ensures FutureForSpec(arena, 1, m3) ==
            Success((Succeeded(Str(Hello)), State(m3.bindings, m3.memo[1 := Succeeded(Str(Hello))], [0, 2, 3, 1], [4, 3, 2, 0, 1])))
  {
    var none: map<Input, Outcome<Val, string>> := map[];
    assert m3.bindings + none == m3.bindings;
    RunGreet(arena, 1, m3);
    var g1 := m3.(invoked := [0, 2, 3, 1], visited := [4, 3, 2, 0, 1]);
    assert m3.(bindings := m3.bindings + arena[1].bindings, invoked := m3.invoked + [1], visited := m3.visited + [1]) == g1;
    Memoized(arena, 1, m3, Succeeded(Str(Hello)), g1);
  }

  lemma TwinRun(arena: seq<Graph<Val, string>>)
    requires IsTwinArena(arena)
    ensures RunSpec(arena, 4, Initial()).Success?
    ensures RunSpec(arena, 4, Initial()).value.0 == Succeeded(Str(Hello + Hello + Hello))
    ensures RunSpec(arena, 4, Initial()).value.1.invoked == [0, 2, 3, 1, 4]
  {
    var b := arena[4].bindings;
    var H := Succeeded(Str(Hello));
    var s4 := State(b, map[], [], [4]);
    TwinLeft(arena, s4);
    var m3 := State(b, map[0 := H, 2 := H, 3 := Succeeded(Str(Hello + Hello))], [0, 2, 3], [4, 3, 2, 0]);
    TwinRight(arena, m3);
    var m1 := State(b, m3.memo[1 := H], [0, 2, 3, 1], [4, 3, 2, 0, 1]);
    TwinRoot(arena, s4, m3, m1);
    TwinResult(arena, m1);
  }

  /** The twin graph's outer concatenation: the first concatenation's result, then the second greet's. */
  lemma TwinRoot(arena: seq<Graph<Val, string>>, s4: State<Val, string>, m3: State<Val, string>,
                 m1: State<Val, string>)
    requires WellFormed(arena) && |arena| == 5
    requires arena[4] == Graph(Call(Concat2, [GraphDep(3), GraphDep(1)]), map[Name := Succeeded(Str("rouz"))])
    requires s4 == State(arena[4].bindings, map[], [], [4])
    requires FutureForSpec(arena, 3, s4) == Success((Succeeded(Str(Hello + Hello)), m3))
    requires FutureForSpec(arena, 1, m3) == Success((Succeeded(Str(Hello)), m1))
    ensures RunSpec(arena, 4, Initial()) == Success((Succeeded(Str(Hello + Hello + Hello)), m1.(invoked := m1.invoked + [4])))
  {
    var s0: State<Val, string> := Initial();
    var none: map<Input, Outcome<Val, string>> := map[];
    assert none + arena[4].bindings == arena[4].bindings;
    assert s0.(bindings := s0.bindings + arena[4].bindings, visited := s0.visited + [4]) == s4;
    RunPair(arena, 4, Concat2, 3, 1, s0, Str(Hello + Hello), m3, Str(Hello), m1);
  }

  /** The twin graph's run, read off: its value, and the calls in the order made. */
  lemma TwinResult(arena: seq<Graph<Val, string>>, m1: State<Val, string>)
    requires WellFormed(arena) && |arena| == 5 && m1.invoked == [0, 2, 3, 1]
    requires RunSpec(arena, 4, Initial()) == Success((Succeeded(Str(Hello + Hello + Hello)), m1.(invoked := m1.invoked + [4])))
    ensures RunSpec(arena, 4, Initial()).Success?
    ensures RunSpec(arena, 4, Initial()).value.0 == Succeeded(Str(Hello + Hello + Hello))
    ensures RunSpec(arena, 4, Initial()).value.1.invoked == [0, 2, 3, 1, 4]
  {
    assert m1.invoked + [4] == [0, 2, 3, 1, 4];
  }
}
