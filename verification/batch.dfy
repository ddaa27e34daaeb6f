/** A failure-isolating pass over a sequence: each item goes through a step
    that may raise; results of the items that did not raise are kept in
    order, the others are set aside with what they raised, and the pass
    always reaches the end. */
module Batches {
  import opened Json

  /** A step that raised: the item as the handler sees it, with the exception. */
  datatype Failure<X> = Failure(item: X, error: Error)

  /** What one step gives: a result, or the failure the handler logs. The
      logged item can differ from the input when the step changed the item in
      place before it raised. */
  datatype Attempt<X, Y> = Done(value: Y) | Raised(failure: Failure<X>)

  /** The state of the pass: kept results, and failures in input order. */
  datatype Batch<X, Y> = Batch(kept: seq<Y>, failures: seq<Failure<X>>)

  /** The state after one more item. */
  function Step<X, Y>(b: Batch<X, Y>, x: X, step: X -> Attempt<X, Y>): Batch<X, Y>
  {
    match step(x)
    case Done(y) => b.(kept := b.kept + [y])
    case Raised(f) => b.(failures := b.failures + [f])
  }

  /** The state after the items of `xs`, in order, from an empty start. */
  function RunAll<X, Y>(step: X -> Attempt<X, Y>, xs: seq<X>): (b: Batch<X, Y>)
    ensures |b.kept| + |b.failures| == |xs|
    decreases |xs|
  {
    if xs == [] then Batch([], [])
    else Step(RunAll(step, xs[..|xs| - 1]), xs[|xs| - 1], step)
  }

  /** The loop itself: `for x in xs: try: kept.append(step(x)) except: log`. */
  method RunLoop<X, Y>(step: X -> Attempt<X, Y>, xs: seq<X>) returns (b: Batch<X, Y>)
    ensures b == RunAll(step, xs)
  {
    var kept: seq<Y> := [];
    var failures: seq<Failure<X>> := [];
    var i := 0;
    while i < |xs|
      invariant 0 <= i <= |xs|
      invariant Batch(kept, failures) == RunAll(step, xs[..i])
    {
      assert xs[..i + 1][..i] == xs[..i];
      match step(xs[i]) {
        case Done(y) =>
          kept := kept + [y];
        case Raised(f) =>
          failures := failures + [f];
      }
      i := i + 1;
    }
    assert xs[..|xs|] == xs;
    b := Batch(kept, failures);
  }

  /** Indices of the items whose step did not raise, in increasing order. */
  function KeptIndices<X, Y>(step: X -> Attempt<X, Y>, xs: seq<X>): (idx: seq<nat>)
    ensures forall k :: 0 <= k < |idx| ==> idx[k] < |xs| && step(xs[idx[k]]).Done?
    ensures forall i :: 0 <= i < |xs| && step(xs[i]).Done? ==> i in idx
    ensures forall k, l :: 0 <= k < l < |idx| ==> idx[k] < idx[l]
    decreases |xs|
  {
    if xs == [] then []
    else
      var n := |xs| - 1;
      var front := KeptIndices(step, xs[..n]);
      assert forall i :: 0 <= i < n ==> xs[..n][i] == xs[i];
      front + (if step(xs[n]).Done? then [n] else [])
  }

  /** The kept results are exactly those of the items that did not raise, in
      input order: the k-th result comes from the k-th successful item. */
  lemma {:induction false} KeptInOrder<X, Y>(step: X -> Attempt<X, Y>, xs: seq<X>)
    ensures |RunAll(step, xs).kept| == |KeptIndices(step, xs)|
    ensures forall k :: 0 <= k < |KeptIndices(step, xs)| ==>
      RunAll(step, xs).kept[k] == step(xs[KeptIndices(step, xs)[k]]).value
    decreases |xs|
  {
    if xs != [] {
      var n := |xs| - 1;
      KeptInOrder(step, xs[..n]);
      var front := KeptIndices(step, xs[..n]);
      forall k | 0 <= k < |front|
        ensures xs[..n][front[k]] == xs[front[k]]
      {
      }
    }
  }

  /** Every failure is what the step of some input item raised. */
  lemma {:induction false} FailuresRaised<X, Y>(step: X -> Attempt<X, Y>, xs: seq<X>)
    ensures forall f :: f in RunAll(step, xs).failures ==>
      exists i :: 0 <= i < |xs| && step(xs[i]) == Raised(f)
    decreases |xs|
  {
    if xs != [] {
      var n := |xs| - 1;
      FailuresRaised(step, xs[..n]);
      forall f | f in RunAll(step, xs).failures
        ensures exists i :: 0 <= i < |xs| && step(xs[i]) == Raised(f)
      {
        if f in RunAll(step, xs[..n]).failures {
          var i :| 0 <= i < n && step(xs[..n][i]) == Raised(f);
          assert xs[..n][i] == xs[i];
        } else {
          assert step(xs[n]) == Raised(f);
        }
      }
    }
  }

  /** The pass is item-by-item: a sequence split in two is processed as its
      halves, so a failure in the first half does not affect the second. */
  lemma {:induction false} RunAllAppend<X, Y>(step: X -> Attempt<X, Y>, a: seq<X>, b: seq<X>)
    ensures RunAll(step, a + b).kept == RunAll(step, a).kept + RunAll(step, b).kept
    ensures RunAll(step, a + b).failures == RunAll(step, a).failures + RunAll(step, b).failures
    decreases |b|
  {
    if b == [] {
      assert a + b == a;
    } else {
      var n := |b| - 1;
      assert (a + b)[..|a + b| - 1] == a + b[..n];
      assert (a + b)[|a + b| - 1] == b[n];
      RunAllAppend(step, a, b[..n]);
    }
  }

  /** When no item raises, every result is kept in place. */
  lemma {:induction false} AllSucceed<X, Y>(step: X -> Attempt<X, Y>, xs: seq<X>)
    requires forall i :: 0 <= i < |xs| ==> step(xs[i]).Done?
    ensures |RunAll(step, xs).kept| == |xs|
    ensures RunAll(step, xs).failures == []
    ensures forall i :: 0 <= i < |xs| ==> RunAll(step, xs).kept[i] == step(xs[i]).value
    decreases |xs|
  {
    if xs != [] {
      var n := |xs| - 1;
      assert forall i :: 0 <= i < n ==> xs[..n][i] == xs[i];
      AllSucceed(step, xs[..n]);
    }
  }

  /** N items of which exactly one raises give N - 1 results, those of the
      items before and after it, and a single failure. */
  lemma ExactlyOneFailure<X, Y>(step: X -> Attempt<X, Y>, before: seq<X>, bad: X, after: seq<X>)
    requires step(bad).Raised?
    requires forall i :: 0 <= i < |before| ==> step(before[i]).Done?
    requires forall i :: 0 <= i < |after| ==> step(after[i]).Done?
    ensures |RunAll(step, before + [bad] + after).kept| == |before| + |after|
    ensures RunAll(step, before + [bad] + after).kept
      == RunAll(step, before).kept + RunAll(step, after).kept
    ensures RunAll(step, before + [bad] + after).failures == [step(bad).failure]
  {
    RunAllAppend(step, before + [bad], after);
    RunAllAppend(step, before, [bad]);
    assert [bad][..0] == [];
    AllSucceed(step, before);
    AllSucceed(step, after);
  }
}
