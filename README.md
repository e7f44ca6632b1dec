# Trickle prepared graphs: binding and one run

This project is a Dafny model of the core of Trickle's `PreparedGraph`. A prepared graph is a graph node together with values bound to its named inputs. The model covers two parts of it.

- **Binding inputs.** `bind` and `addToInputs` return a new prepared graph. It has the same builder and one more input binding. Binding an input that this graph already holds fails at once with "Duplicate binding for input".
- **Running the graph.** `run(TraverseState)`, `future` and `nodeFuture` resolve the graph in these steps:
  1. Add the graph's own bindings to the run's shared state.
  2. Resolve the argument dependencies in declared order.
  3. Resolve the predecessor graphs through the state's per-graph cache.
  4. Join everything, and call the node function on the argument values alone once all of them have succeeded.
  5. Wrap the result in the fallback.

## How the model represents this

- **Futures** become outcomes (`Outcomes`): `Succeeded(value)`, `Failed(cause)` or `Pending`, where `Pending` means not done yet. The Guava combinators become total functions:
  - `AllAsList` is the join;
  - `WithFallback` is the recovery;
  - `NodeOutcome` is one node's future.
- **Graph instances** live in an arena, a sequence of `Graph(builder, bindings)` (`Graphs`).
  - An instance's identity is its index. So two prepared graphs over the same node function are two instances.
  - Each argument or predecessor points to a lower index, which makes the graph acyclic. An input is identified by its name.
- **The run.** The functions `RunSpec`, `FutureSpec`, `DepsSpec` and `FutureForSpec` give the result of a run step for step (`Traversal`).
  - The class `TraverseState` and the methods `Run` and `Future` do the same work on mutable state. They have the bindings map and the memo map; the two loops of `future` are the methods `ArgumentFutures` and `PredecessorFutures`. All of them are proved to agree with those functions, and the lemmas `RunExtends`, `FutureExtends`, `DepsExtends` and `FutureForExtends` show that a run step only extends the state.
  - A synchronous error aborts the whole run, so it is a `Failure` of `Result`, not a failed outcome. The two errors are an unbound input and a duplicate binding across subgraphs.
- **The invariant of a run** (`RunInvariant`) is kept by every step. The run's bindings are the disjoint union of the bindings of the instances visited so far. Every memoized outcome is the node outcome of its dependencies' outcomes, and a node function was called exactly when its dependencies all succeeded.
- **A reference evaluation** (`Evaluation`) computes each node afresh, with no sharing. The theorems (`RunTheorems`) show that the memoized run agrees with it.
- **The repository's tests** are modelled as concrete graphs in `Scenarios`.

## Model

| member | source | states |
|---|---|---|
| Graphs.AddToInputs | trickle/src/main/java/com/spotify/trickle/PreparedGraph.java:145-154 | Binding succeeds exactly when this graph's own map does not hold the input. On success the result has the same builder, the old keys plus the input, the new value for it and every old entry unchanged. On failure the error is a duplicate binding naming the input. |
| Graphs.Bind | trickle/src/main/java/com/spotify/trickle/PreparedGraph.java:62-65 | bind(input, value) binds the plain value as an already succeeded outcome. It succeeds iff the graph does not hold the input yet; the result keeps the builder. Otherwise it fails with a duplicate binding naming the input. |
| Graphs.BindFuture | trickle/src/main/java/com/spotify/trickle/PreparedGraph.java:67-70 | bind(input, future) binds the future itself, in whatever state it is. It succeeds and fails exactly as bind(input, value) does. |
| Graphs.BindTwiceFails | trickle/src/main/java/com/spotify/trickle/PreparedGraph.java:145-147 | Binding the same input a second time on the graph returned by the first bind fails, naming that input. |
| Graphs.BindOrderIrrelevant | trickle/src/main/java/com/spotify/trickle/PreparedGraph.java:148-153 | Binding two different fresh inputs succeeds in either order and gives the same graph. |
| Graphs.BindAppendsInstance | trickle/src/main/java/com/spotify/trickle/PreparedGraph.java:43-44 | A bound graph is a new instance, different from the one it was bound from, over the same builder with one binding more. Adding it keeps the arena acyclic. That the original graph stays unchanged holds by construction: graphs are values. |
| Outcomes.Values | trickle/src/main/java/com/spotify/trickle/PreparedGraph.java:134-139 | The node's argument values are one per argument future, in order, each that future's value. |
| Outcomes.AllAsList | trickle/src/main/java/com/spotify/trickle/PreparedGraph.java:105 | The join succeeds iff every dependency has succeeded, and then with their values in order. It fails iff some dependency failed. It is pending iff none failed and not all succeeded. |
| Outcomes.WithFallback | trickle/src/main/java/com/spotify/trickle/PreparedGraph.java:109-123 | Computes the fallback's recovery of a failed outcome and passes any other outcome through. Its properties are stated by DependencyFailurePropagates, FallbackRecoversDependencyFailure and NodeFailureRecovered. |
| Outcomes.NodeOutcome | trickle/src/main/java/com/spotify/trickle/PreparedGraph.java:105-142 | Computes one node's future: the join of arguments and predecessors, the node function on the argument values once the join succeeds, then the fallback. Its properties are stated by NodeCalledWithArgumentValues, PredecessorValuesIgnored, PendingWhileDependencyPending and NodeNotCalledUnlessAllSucceed. |
| Outcomes.AllAsListFirstFailure | trickle/src/main/java/com/spotify/trickle/PreparedGraph.java:105 | When several dependencies fail, the join reports the cause of the first one in list order. |
| Outcomes.FirstFailureIndex | trickle/src/main/java/com/spotify/trickle/PreparedGraph.java:105 | The index it returns is the first failed dependency. |
| Outcomes.ConcatSucceeded | trickle/src/main/java/com/spotify/trickle/PreparedGraph.java:89-105 | The joined list of arguments and predecessors has all succeeded iff both parts have. |
| Outcomes.NodeCalledWithArgumentValues | trickle/src/main/java/com/spotify/trickle/PreparedGraph.java:126-139 | Once all arguments and predecessors have succeeded, the node function is called. It gets exactly one value per argument, in declared order, and its result goes through the fallback. |
| Outcomes.PredecessorValuesIgnored | trickle/src/main/java/com/spotify/trickle/PreparedGraph.java:100-105 | Predecessors' values never reach the node. Only the fact that they succeeded does. |
| Outcomes.DependencyFailurePropagates | trickle/src/main/java/com/spotify/trickle/PreparedGraph.java:109-123 | Without a fallback, a failed dependency becomes the node's failure with the identical cause, and the node function is not called. |
| Outcomes.FallbackRecoversDependencyFailure | trickle/src/main/java/com/spotify/trickle/PreparedGraph.java:109-119 | With a fallback, the node's outcome after a failed dependency is the fallback applied to that cause. |
| Outcomes.NodeFailureRecovered | trickle/src/main/java/com/spotify/trickle/PreparedGraph.java:109-123 | When the node function itself fails, the fallback gets its cause. Without a fallback the failure is passed on unchanged. |
| Outcomes.PendingWhileDependencyPending | trickle/src/main/java/com/spotify/trickle/PreparedGraph.java:126-142 | While a dependency is not done and none has failed, the node is not done and its function has not been called. |
| Outcomes.NodeNotCalledUnlessAllSucceed | trickle/src/main/java/com/spotify/trickle/PreparedGraph.java:126-142 | Unless every argument and predecessor succeeded, the node function is not called and the node's outcome does not depend on it. |
| Traversal.AddBindingsSpec | trickle/src/main/java/com/spotify/trickle/PreparedGraph.java:84 | Adding bindings succeeds iff none of them is bound already in the run. On success, only the bindings change: they become the old ones plus the new ones, with values kept. Otherwise the error names the non-empty set of inputs bound twice. |
| Traversal.RunSpec | trickle/src/main/java/com/spotify/trickle/PreparedGraph.java:83-86 | Computes run(state): add the graph's bindings, then resolve it. Its properties are stated by RunExtends and RunInvariant.RunKeeps, and the method Run is proved to agree with it. |
| Traversal.FutureSpec | trickle/src/main/java/com/spotify/trickle/PreparedGraph.java:88-143 | Computes future: the arguments, then the predecessors, then the node's outcome, recording a call of the node function only when the join succeeds. Its properties are stated by FutureExtends, FutureFromDeps and RunInvariant.FutureKeeps. |
| Traversal.DepsSpec | trickle/src/main/java/com/spotify/trickle/PreparedGraph.java:89-103 | Computes the resolution of a dependency list left to right, aborting at an unbound input or a failing subgraph. Its properties are stated by DepsExtends, DepsFailureStays and RunInvariant.DepsKeep. |
| Traversal.FutureForSpec | trickle/src/main/java/com/spotify/trickle/PreparedGraph.java:102 | Computes futureForGraph: a memoized outcome, or a run of the instance whose outcome is then memoized. Its properties are stated by FutureForExtends and RunInvariant.FutureForKeeps. |
| Traversal.RunResult | trickle/src/main/java/com/spotify/trickle/PreparedGraph.java:72-80 | Computes run(): a run from a fresh state. The method RunGraph is proved to agree with it, and RunTheorems states what a successful or failed run means. |
| Traversal.RunExtends | trickle/src/main/java/com/spotify/trickle/PreparedGraph.java:83-86 | Adding the bindings, then resolving, only extends the run state. No memoized outcome or binding is lost or changed, and the logs only grow. |
| Traversal.FutureExtends | trickle/src/main/java/com/spotify/trickle/PreparedGraph.java:88-143 | Resolving a node only extends the run state. |
| Traversal.DepsExtends | trickle/src/main/java/com/spotify/trickle/PreparedGraph.java:89-103 | Resolving a dependency list only extends the run state and gives one outcome per dependency, in declared order. Each outcome is that input's binding or that graph's memoized outcome in the resulting state. |
| Traversal.FutureForExtends | trickle/src/main/java/com/spotify/trickle/PreparedGraph.java:102 | Asking the per-graph cache for an instance only extends the run state, and afterwards the outcome returned is the one memoized for it. |
| Traversal.DepsFailureStays | trickle/src/main/java/com/spotify/trickle/PreparedGraph.java:92-103 | An error in a prefix of the dependencies aborts the rest with that same error. |
| Traversal.TraverseState.Empty | trickle/src/main/java/com/spotify/trickle/PreparedGraph.java:79 | A fresh run state has no bindings and no memoized outcomes. |
| Traversal.TraverseState.AddBindings | trickle/src/main/java/com/spotify/trickle/PreparedGraph.java:84 | The state changes, or the error is reported, exactly as AddBindingsSpec gives. |
| Traversal.TraverseState.FutureForGraph | trickle/src/main/java/com/spotify/trickle/PreparedGraph.java:102 | The result and new state are those of FutureForSpec. A memoized instance is not run again. |
| Traversal.Run | trickle/src/main/java/com/spotify/trickle/PreparedGraph.java:83-86 | The result and new state are those of RunSpec. |
| Traversal.ArgumentFutures | trickle/src/main/java/com/spotify/trickle/PreparedGraph.java:92-97 | The loop over the declared inputs gives the argument outcomes and new state that DepsSpec gives for the inputs, or aborts with its error. |
| Traversal.PredecessorFutures | trickle/src/main/java/com/spotify/trickle/PreparedGraph.java:100-103 | The loop over the predecessors asks the per-graph cache for each in order, giving the outcomes and new state that DepsSpec gives for the predecessors, or aborts with its error. |
| Traversal.Future | trickle/src/main/java/com/spotify/trickle/PreparedGraph.java:88-143 | The result and new state are those of FutureSpec. It runs the two loops, then joins arguments and predecessors and calls the node function only when the join succeeds. |
| Traversal.RunGraph | trickle/src/main/java/com/spotify/trickle/PreparedGraph.java:72-80 | Running a graph with a fresh state gives the result RunResult specifies. |
| RunInvariant.RunKeeps | trickle/src/main/java/com/spotify/trickle/PreparedGraph.java:83-86 | run(state) keeps the run invariant and leaves the node resolved with its node outcome. Otherwise it fails with an error whose cause is named. |
| RunInvariant.FutureKeeps | trickle/src/main/java/com/spotify/trickle/PreparedGraph.java:88-143 | future keeps the run invariant. The node function was called iff all its dependencies succeeded. |
| RunInvariant.DepsKeep | trickle/src/main/java/com/spotify/trickle/PreparedGraph.java:89-103 | Resolving a dependency list keeps the run invariant, or fails with an error whose cause is named. |
| RunInvariant.FutureForKeeps | trickle/src/main/java/com/spotify/trickle/PreparedGraph.java:102 | Asking the per-graph cache keeps the run invariant, or fails with an error whose cause is named. |
| RunTheorems.RunAgreesWithEvaluation | trickle/src/main/java/com/spotify/trickle/PreparedGraph.java:83-143 | A successful run's result equals the reference evaluation, with no sharing, under the run's bindings. So does the outcome memoized for every other reachable instance. Memoization is therefore transparent. |
| RunTheorems.RunCallsEachNodeAtMostOnce | trickle/src/test/java/com/spotify/trickle/TrickleTest.java:112-180 | In a successful run no node function is called twice, and only reachable instances' functions are called. A reachable instance's function is called iff its arguments and predecessors all succeed. Two instances over one function are two calls. |
| RunTheorems.RunBindsEachInstanceOnce | trickle/src/main/java/com/spotify/trickle/PreparedGraph.java:84 | In a successful run, the bindings of exactly the reachable instances were added, each once. No two of those instances bind the same input. |
| RunTheorems.RunKeepsInstanceBindings | trickle/src/main/java/com/spotify/trickle/PreparedGraph.java:84 | In a successful run every binding of a reachable instance is in the run's bindings, with its value. |
| RunTheorems.RunBindingsFromReachable | trickle/src/main/java/com/spotify/trickle/PreparedGraph.java:84 | In a successful run every bound input comes from some reachable instance. |
| RunTheorems.RunBindsReferencedInputs | trickle/src/main/java/com/spotify/trickle/PreparedGraph.java:92-95 | In a successful run every input that a reachable node refers to is bound. |
| RunTheorems.RunErrorsNameTheirCause | trickle/src/main/java/com/spotify/trickle/PreparedGraph.java:84-95 | A failed run names its cause. It is either an input some reachable node refers to, or a non-empty set of inputs each bound by two different reachable instances. |
| RunTheorems.DuplicateBindingFails | gtrickle-master/src/test/java/com/spotify/trickle/TrickleApiTest.java:75-127 | If two reachable instances bind the same input, the run fails. |
| RunTheorems.UnboundInputFails | gtrickle-master/src/test/java/com/spotify/trickle/TrickleApiTest.java:35-53 | If a reachable node refers to an input that no reachable instance binds, the run fails. |
| Scenarios.MissingInputNamed | gtrickle-master/src/test/java/com/spotify/trickle/TrickleApiTest.java:35-53 | Running a node whose input nobody binds fails, naming that input. |
| Scenarios.ChainedDuplicateNamed | gtrickle-master/src/test/java/com/spotify/trickle/TrickleApiTest.java:75-94 | A subgraph and its caller binding the same input makes the run fail, naming that input. |
| Scenarios.DiamondDuplicateNamesBoth | gtrickle-master/src/test/java/com/spotify/trickle/TrickleApiTest.java:96-127 | In a diamond whose two branches bind the same two inputs, the run fails naming both. |
| Scenarios.SharedDependencyCalledOnce | trickle/src/test/java/com/spotify/trickle/TrickleTest.java:112-144 | An instance reached by two paths is called once. The run calls each of the three functions once, greet first, and produces 22, the sum of the two greetings' lengths. |
| Scenarios.TwinInstancesCalledOnceEach | trickle/src/test/java/com/spotify/trickle/TrickleTest.java:146-180 | Two instances over the same function are each called once: two calls of that function, and the expected value. |

## Left out

- **Futures, executors and threads.** The model leaves out Guava futures, executors (including `sameThreadExecutor`) and thread timing. An outcome is the state a future eventually reports. `Pending` is a state, not a wait, and nothing models when a future completes.
- Outcomes.AllAsListFirstFailure: when several dependencies fail, the model reports the first one in list order. In the code, the winner depends on which future fails first in time.
- **A throwing fallback.** The model treats a fallback that throws as a fallback returning `Failed` with that exception. A node function that throws is likewise a node function returning `Failed`.
- **Null checks** are left out: the model's values cannot be null. This covers the constructor's checks (PreparedGraph.java lines 53-56) and the NullPointerException that binding a null value raises when the new map is built (`bind(input, null)`, line 152).
- **Introspection.** The forwarding methods `name`, `arguments`, `predecessors` and `type` (lines 156-174) are trivial forwards to the builder and are left out.
- **Arity dispatch.** `TrickleNode.create`, the typed `Func1`…`Func5` interfaces and the construction API of `GraphBuilder` (`call`, `with`, `after`, `fallback`, `named`) are left out; `Graphs.Builder` holds only the data a built graph carries. A node is a function on a sequence of values with a declared arity.
- **Typing.** Values are one generic type, and an input is identified by its name. Java's per-input generic types are not modelled. The call-count scenarios, whose functions return strings and integers, use one value type `Scenarios.Val` with a case for each.
- **The implementation of TraverseState is not part of this model.** The class `Traversal.TraverseState` models its state and its `empty`, `addBindings` and `futureForGraph` by the contract their calls and the tests require. On a duplicate, addBindings reports every input of the intersection, as the diamond test expects. The executor it carries is left out.
- RunTheorems.UnboundInputFails: this is one direction only. The code adds each instance's bindings when that instance is visited (line 84), not in a pass before the run. So an input that only a later-visited sibling binds is still unbound when an earlier node looks it up, and the run fails. A run can therefore fail with an unbound input even though some reachable instance binds it.
- RunTheorems.DuplicateBindingFails: this states only that the run fails. Which error is reported depends on visiting order: a duplicate binding, or an unbound input looked up before the second binding.
- **The sanity check** that there is one argument future per declared input (line 107) is an assertion proved in `Traversal.Future`, not a runtime check.
