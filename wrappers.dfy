/** Option and Result, and the "map over a sequence, stop at the first error" shape of
    a Python loop whose body may raise. */
module Wrappers {

  datatype Option<+T> = None | Some(value: T)

  datatype Result<+R, +E> = Success(value: R) | Failure(error: E)

  /** `for x in xs: out.append(f(x))` where `f` may raise: the loop over all but the last
      element, then the last one; the first failure aborts the whole loop. */
  function Traverse<A, B, E>(xs: seq<A>, f: A -> Result<B, E>): Result<seq<B>, E>
    decreases |xs|
  {
    if xs == [] then Success([])
    else
      match Traverse(xs[..|xs| - 1], f)
      case Failure(e) => Failure(e)
      case Success(ys) =>
        match f(xs[|xs| - 1])
        case Failure(e) => Failure(e)
        case Success(y) => Success(ys + [y])
  }

  /** One more iteration of the loop. */
  lemma TraverseStep<A, B, E>(xs: seq<A>, f: A -> Result<B, E>, i: nat)
    requires i < |xs|
    ensures Traverse(xs[..i + 1], f) ==
      match Traverse(xs[..i], f)
      case Failure(e) => Failure(e)
      case Success(ys) =>
        match f(xs[i])
        case Failure(e) => Failure(e)
        case Success(y) => Success(ys + [y])
  {
    assert xs[..i + 1][..i] == xs[..i];
  }

  /** Once the loop has failed, the remaining elements do not change its outcome. */
  lemma {:induction false} TraverseStops<A, B, E>(xs: seq<A>, f: A -> Result<B, E>, i: nat)
    requires i <= |xs| && Traverse(xs[..i], f).Failure?
    ensures Traverse(xs, f) == Traverse(xs[..i], f)
    decreases |xs| - i
  {
    if i < |xs| {
      TraverseStep(xs, f, i);
      TraverseStops(xs, f, i + 1);
    } else {
      assert xs[..i] == xs;
    }
  }

  /** The loop succeeds exactly when every element does, and then keeps one result per element,
      in order; when it fails, it reports the failure of an element all of whose predecessors succeed. */
  lemma {:induction false} TraverseSpec<A, B, E>(xs: seq<A>, f: A -> Result<B, E>)
    ensures Traverse(xs, f).Success? <==> forall k :: 0 <= k < |xs| ==> f(xs[k]).Success?
    ensures Traverse(xs, f).Success? ==>
      (|Traverse(xs, f).value| == |xs| &&
       forall k :: 0 <= k < |xs| ==> Traverse(xs, f).value[k] == f(xs[k]).value)
    ensures Traverse(xs, f).Failure? ==>
      exists k :: 0 <= k < |xs| && f(xs[k]) == Failure(Traverse(xs, f).error) &&
        (forall j :: 0 <= j < k ==> f(xs[j]).Success?)
    decreases |xs|
  {
    if xs != [] {
      var n := |xs| - 1;
      var front := xs[..n];
      TraverseSpec(front, f);
      assert forall k :: 0 <= k < n ==> front[k] == xs[k];
      match Traverse(front, f)
      case Failure(e) =>
        var k :| 0 <= k < n && f(front[k]) == Failure(e) && (forall j :: 0 <= j < k ==> f(front[j]).Success?);
        assert f(xs[k]) == Failure(e);
      case Success(ys) =>
        match f(xs[n])
        case Failure(e) =>
        case Success(y) =>
          assert forall k :: 0 <= k < n ==> (ys + [y])[k] == ys[k];
    }
  }

  /** The error Traverse reports is the one of the first element that fails. */
  lemma TraverseFirstError<A, B, E>(xs: seq<A>, f: A -> Result<B, E>, i: nat)
    requires i < |xs| && f(xs[i]).Failure?
    requires forall j :: 0 <= j < i ==> f(xs[j]).Success?
    ensures Traverse(xs, f) == Failure(f(xs[i]).error)
  {
    TraverseSpec(xs, f);
    var r := Traverse(xs, f);
    var k :| 0 <= k < |xs| && f(xs[k]) == Failure(r.error) && (forall j :: 0 <= j < k ==> f(xs[j]).Success?);
    assert !(k < i) && !(i < k);
  }

  /** Two loop bodies that agree on every element make the same loop. */
  lemma {:induction false} TraverseCongruent<A, B, E>(xs: seq<A>, f: A -> Result<B, E>, g: A -> Result<B, E>)
    requires forall k :: 0 <= k < |xs| ==> f(xs[k]) == g(xs[k])
    ensures Traverse(xs, f) == Traverse(xs, g)
    decreases |xs|
  {
    if xs != [] {
      var front := xs[..|xs| - 1];
      assert forall k :: 0 <= k < |front| ==> front[k] == xs[k];
      TraverseCongruent(front, f, g);
    }
  }
}
