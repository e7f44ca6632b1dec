/**
 * Synchronous stand-in for the futures a Trickle graph composes.
 *
 * A future is modelled by the state it eventually reports: done with a value,
 * failed with a cause, or not done yet.  The three future combinators that the
 * resolution of one node uses (join of all dependencies, transform by the node
 * function, recovery by the fallback) become total functions on outcomes.
 */
module Outcomes {

  datatype Option<+T> = None | Some(value: T)

  datatype Outcome<+V, +C> = Succeeded(value: V) | Failed(cause: C) | Pending

  predicate AllSucceeded<V, C>(os: seq<Outcome<V, C>>) {
    forall k :: 0 <= k < |os| ==> os[k].Succeeded?
  }

  predicate NoFailure<V, C>(os: seq<Outcome<V, C>>) {
    forall k :: 0 <= k < |os| ==> !os[k].Failed?
  }

  /** Position k holds the first failed outcome of os. */
  predicate IsFirstFailure<V, C>(os: seq<Outcome<V, C>>, k: int) {
    0 <= k < |os| && os[k].Failed? && forall m :: 0 <= m < k ==> !os[m].Failed?
  }

  /** The values of outcomes that have all succeeded, one per outcome, in order. */
  function Values<V, C>(os: seq<Outcome<V, C>>): (vs: seq<V>)
    requires AllSucceeded(os)
    ensures |vs| == |os|
    ensures forall k :: 0 <= k < |os| ==> vs[k] == os[k].value
  {
    if os == [] then [] else [os[0].value] + Values(os[1..])
  }

  /**
   * The joint completion signal of a list of futures (allAsList): it fails
   * as soon as one of them fails, stays pending while one is pending, and
   * otherwise succeeds with all values in list order.  When several fail, the
   * cause reported is that of the first in list order.
   */
  function AllAsList<V, C>(os: seq<Outcome<V, C>>): (r: Outcome<seq<V>, C>)
    ensures r.Succeeded? <==> AllSucceeded(os)
    ensures r.Succeeded? ==> r.value == Values(os)
    ensures r.Failed? <==> !NoFailure(os)
    ensures r.Pending? <==> NoFailure(os) && !AllSucceeded(os)
  {
    if os == [] then Succeeded([])
    else
      var rest := AllAsList(os[1..]);
      assert forall k :: 0 < k < |os| ==> os[k] == os[1..][k - 1];
      match os[0]
      case Failed(c) => Failed(c)
      case Pending => if rest.Failed? then Failed(rest.cause) else Pending
      case Succeeded(v) =>
        match rest
        case Succeeded(vs) => Succeeded([v] + vs)
        case Failed(c) => Failed(c)
        case Pending => Pending
  }

  /** The first failure in list order is the one the join reports. */
  lemma {:induction false} AllAsListFirstFailure<V, C>(os: seq<Outcome<V, C>>, k: int)
    requires IsFirstFailure(os, k)
    ensures AllAsList(os) == Failed(os[k].cause)
  {
    if k > 0 {
      assert IsFirstFailure(os[1..], k - 1);
      AllAsListFirstFailure(os[1..], k - 1);
    }
  }

  /**
   * Recovery of a node's future: a failure is handed to the fallback when
   * there is one and passed on with the same cause when there is none.  A
   * fallback that throws is a fallback returning Failed with its exception.
   */
  function WithFallback<V, C>(o: Outcome<V, C>, fallback: Option<C -> Outcome<V, C>>): Outcome<V, C>
  {
    if o.Failed? then
      match fallback
      case Some(f) => f(o.cause)
      case None => Failed(o.cause)
    else o
  }

  /**
   * The outcome of one node: wait for the arguments and the predecessors
   * together, call the node function with the argument values only, and wrap
   * the whole in the fallback.
   */
  function NodeOutcome<V, C>(node: seq<V> -> Outcome<V, C>, fallback: Option<C -> Outcome<V, C>>,
                             args: seq<Outcome<V, C>>, preds: seq<Outcome<V, C>>): Outcome<V, C>
  {
    var mustHappenBefore := args + preds;
    var allFuture := AllAsList(mustHappenBefore);
    var nodeFuture :=
      match allFuture
      case Succeeded(_) =>
        assert forall k :: 0 <= k < |args| ==> mustHappenBefore[k] == args[k];
        node(Values(args))
      case Failed(c) => Failed(c)
      case Pending => Pending;
    WithFallback(nodeFuture, fallback)
  }

  /** Whether the node function is called: only when every argument and every predecessor has succeeded. */
  predicate Invokes<V, C>(args: seq<Outcome<V, C>>, preds: seq<Outcome<V, C>>) {
    AllAsList(args + preds).Succeeded?
  }

  lemma {:induction false} ConcatSucceeded<V, C>(args: seq<Outcome<V, C>>, preds: seq<Outcome<V, C>>)
    ensures AllSucceeded(args + preds) <==> AllSucceeded(args) && AllSucceeded(preds)
  {
    assert forall k :: 0 <= k < |args| ==> (args + preds)[k] == args[k];
    assert forall k :: 0 <= k < |preds| ==> (args + preds)[|args| + k] == preds[k];
  }

  /**
   * When every dependency has succeeded, the node function is called with
   * exactly one value per argument, in declared order, and the result goes
   * through the fallback.
   */
  lemma NodeCalledWithArgumentValues<V, C>(node: seq<V> -> Outcome<V, C>, fallback: Option<C -> Outcome<V, C>>,
                                          args: seq<Outcome<V, C>>, preds: seq<Outcome<V, C>>)
    requires AllSucceeded(args) && AllSucceeded(preds)
    ensures Invokes(args, preds)
    ensures NodeOutcome(node, fallback, args, preds) == WithFallback(node(Values(args)), fallback)
    ensures |Values(args)| == |args| && forall k :: 0 <= k < |args| ==> Values(args)[k] == args[k].value
  {
    ConcatSucceeded(args, preds);
  }

  /** The position of the first failed outcome, when there is one. */
  function FirstFailureIndex<V, C>(os: seq<Outcome<V, C>>): (k: nat)
    requires !NoFailure(os)
    ensures IsFirstFailure(os, k)
  {
    if os[0].Failed? then 0
    else
      assert !NoFailure(os[1..]) by {
        var m :| 0 <= m < |os| && os[m].Failed?;
        assert os[1..][m - 1] == os[m];
      }
      1 + FirstFailureIndex(os[1..])
  }

  /** Predecessor results are never passed to the node: only their completion matters. */
  lemma PredecessorValuesIgnored<V, C>(node: seq<V> -> Outcome<V, C>, fallback: Option<C -> Outcome<V, C>>,
                                      args: seq<Outcome<V, C>>, preds: seq<Outcome<V, C>>, preds': seq<Outcome<V, C>>)
    requires |preds| == |preds'| && AllSucceeded(preds) && AllSucceeded(preds')
    ensures NodeOutcome(node, fallback, args, preds) == NodeOutcome(node, fallback, args, preds')
  {
    ConcatSucceeded(args, preds);
    ConcatSucceeded(args, preds');
    var joint, joint' := args + preds, args + preds';
    assert forall m :: 0 <= m < |args| ==> joint[m] == args[m] && joint'[m] == args[m];
    assert forall m :: 0 <= m < |preds| ==> joint[|args| + m] == preds[m] && joint'[|args| + m] == preds'[m];
    if !NoFailure(args) {
      var first := FirstFailureIndex(args);
      assert IsFirstFailure(joint, first);
      assert IsFirstFailure(joint', first);
      AllAsListFirstFailure(joint, first);
      AllAsListFirstFailure(joint', first);
    } else if !AllSucceeded(args) {
      assert NoFailure(joint) && NoFailure(joint');
    }
  }

  /**
   * A failure of an argument or a predecessor, without a fallback, becomes
   * the node's failure with the identical cause; the node function plays no
   * part.
   */
  lemma DependencyFailurePropagates<V, C>(node: seq<V> -> Outcome<V, C>,
                                         args: seq<Outcome<V, C>>, preds: seq<Outcome<V, C>>, k: int)
    requires IsFirstFailure(args + preds, k)
    ensures !Invokes(args, preds)
    ensures NodeOutcome(node, None, args, preds) == Failed((args + preds)[k].cause)
  {
    AllAsListFirstFailure(args + preds, k);
  }

  /** With a fallback, a failed dependency's cause is handed to the fallback, whose outcome is the node's. */
  lemma FallbackRecoversDependencyFailure<V, C>(node: seq<V> -> Outcome<V, C>, f: C -> Outcome<V, C>,
                                               args: seq<Outcome<V, C>>, preds: seq<Outcome<V, C>>, k: int)
    requires IsFirstFailure(args + preds, k)
    ensures !Invokes(args, preds)
    ensures NodeOutcome(node, Some(f), args, preds) == f((args + preds)[k].cause)
  {
    AllAsListFirstFailure(args + preds, k);
  }

  /**
   * A failure of the node function itself (a thrown exception or a failed
   * future) goes to the fallback too, or is passed on unchanged without one.
   */
  lemma NodeFailureRecovered<V, C>(node: seq<V> -> Outcome<V, C>, fallback: Option<C -> Outcome<V, C>>,
                                  args: seq<Outcome<V, C>>, preds: seq<Outcome<V, C>>, c: C)
    requires AllSucceeded(args) && AllSucceeded(preds)
    requires node(Values(args)) == Failed(c)
    ensures fallback.None? ==> NodeOutcome(node, fallback, args, preds) == Failed(c)
    ensures fallback.Some? ==> NodeOutcome(node, fallback, args, preds) == fallback.value(c)
  {
    NodeCalledWithArgumentValues(node, fallback, args, preds);
  }

  /**
   * While a dependency is not done and none has failed, the node is not done
   * either; neither the node function nor the fallback has been called.
   */
  lemma PendingWhileDependencyPending<V, C>(node: seq<V> -> Outcome<V, C>, fallback: Option<C -> Outcome<V, C>>,
                                           args: seq<Outcome<V, C>>, preds: seq<Outcome<V, C>>, k: int)
    requires 0 <= k < |args + preds| && (args + preds)[k].Pending?
    requires NoFailure(args + preds)
    ensures !Invokes(args, preds)
    ensures NodeOutcome(node, fallback, args, preds) == Pending
  {
  }

  /** When the node function is not called, the node's outcome does not depend on it. */
  lemma NodeNotCalledUnlessAllSucceed<V, C>(node: seq<V> -> Outcome<V, C>, node': seq<V> -> Outcome<V, C>,
                                           fallback: Option<C -> Outcome<V, C>>,
                                           args: seq<Outcome<V, C>>, preds: seq<Outcome<V, C>>)
    requires !(AllSucceeded(args) && AllSucceeded(preds))
    ensures !Invokes(args, preds)
    ensures NodeOutcome(node, fallback, args, preds) == NodeOutcome(node', fallback, args, preds)
  {
    ConcatSucceeded(args, preds);
  }
}
