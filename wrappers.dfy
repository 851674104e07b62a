/** Failure-carrying datatypes shared by every module. */
module Wrappers {

  datatype Option<+T> = None | Some(value: T)

  datatype Result<+T, +E> = Success(value: T) | Failure(error: E) {
    predicate IsFailure() { Failure? }

    function PropagateFailure<U>(): Result<U, E>
      requires Failure?
    {
      Failure(error)
    }

    function Extract(): T
      requires Success?
    {
      value
    }
  }

  /** Pass or fail with an error, for steps that change state and return nothing. */
  datatype Outcome<+E> = Pass | Fail(error: E)

  /** The results of a sequential stream collected in order: the values when every element
      succeeds, otherwise the error of the first element that fails. */
  function Sequence<T, E>(results: seq<Result<T, E>>): (r: Result<seq<T>, E>)
    ensures r.Success? <==> forall i :: 0 <= i < |results| ==> results[i].Success?
    ensures r.Success? ==>
              |r.value| == |results| && forall i :: 0 <= i < |results| ==> results[i] == Success(r.value[i])
    decreases |results|
  {
    if results == [] then Success([])
    else
      var init := results[..|results| - 1];
      assert forall i :: 0 <= i < |init| ==> init[i] == results[i];
      match Sequence(init)
      case Failure(e) => Failure(e)
      case Success(values) =>
        match results[|results| - 1]
        case Failure(e) => Failure(e)
        case Success(v) => Success(values + [v])
  }

  /** Once a prefix fails, the whole sequence fails with the same error. */
  lemma {:induction false} SequenceFailedPrefix<T, E>(results: seq<Result<T, E>>, n: nat)
    requires n <= |results| && Sequence(results[..n]).Failure?
    ensures Sequence(results) == Sequence(results[..n])
    decreases |results|
  {
    if n < |results| {
      var init := results[..|results| - 1];
      assert init[..n] == results[..n];
      SequenceFailedPrefix(init, n);
    } else {
      assert results[..n] == results;
    }
  }

  /** The first element that fails decides the error. */
  lemma SequenceFirstFailure<T, E>(results: seq<Result<T, E>>, i: nat)
    requires i < |results| && results[i].Failure?
    requires forall j :: 0 <= j < i ==> results[j].Success?
    ensures Sequence(results) == Failure(results[i].error)
  {
    var before := results[..i];
    assert forall j :: 0 <= j < |before| ==> before[j] == results[j];
    assert Sequence(before).Success?;
    var upTo := results[..i + 1];
    assert upTo[..i] == before && upTo[i] == results[i];
    SequenceFailedPrefix(results, i + 1);
  }

  /** One more element after a prefix that succeeded: either its error ends the sequence, or its
      value extends the collected prefix. */
  lemma SequenceStep<T, E>(results: seq<Result<T, E>>, i: nat, values: seq<T>)
    requires i < |results| && Sequence(results[..i]) == Success(values)
    ensures results[i].Failure? ==> Sequence(results) == Failure(results[i].error)
    ensures results[i].Success? ==> Sequence(results[..i + 1]) == Success(values + [results[i].value])
  {
    var upTo := results[..i + 1];
    assert upTo[..i] == results[..i] && upTo[i] == results[i];
    if results[i].Failure? {
      SequenceFailedPrefix(results, i + 1);
    }
  }

  /** A failing sequence fails with the error of one of its own elements. */
  lemma {:induction false} SequenceFailure<T, E>(results: seq<Result<T, E>>)
    requires Sequence(results).Failure?
    ensures exists i :: 0 <= i < |results| && results[i] == Failure(Sequence(results).error)
    decreases |results|
  {
    var init := results[..|results| - 1];
    assert forall j :: 0 <= j < |init| ==> init[j] == results[j];
    if Sequence(init).Failure? {
      SequenceFailure(init);
      var i :| 0 <= i < |init| && init[i] == Failure(Sequence(init).error);
      assert results[i] == Failure(Sequence(results).error);
    } else {
      assert results[|results| - 1] == Failure(Sequence(results).error);
    }
  }

}
