/** Option and Result, the failure-compatible wrappers the rest of the model
    uses to turn the source's exceptions into values. */
module Wrappers {

  datatype Option<+T> = None | Some(value: T) {

    function GetOr(default: T): T {
      match this
      case Some(v) => v
      case None => default
    }
  }

  /** Success carries the computed value; Failure carries the fault that the
      source would have raised as an exception. */
  datatype Result<+R, +E> = Success(value: R) | Failure(error: E) {

    predicate IsFailure() {
      Failure?
    }

    function PropagateFailure<U>(): Result<U, E>
      requires Failure?
    {
      Failure(error)
    }

    function Extract(): R
      requires Success?
    {
      value
    }
  }

  /** Runs a sequence of computations left to right: the values of all of
      them, or the fault of the first that fails. */
  function Collect<T, E>(rs: seq<Result<T, E>>): (r: Result<seq<T>, E>)
    ensures r.Success? ==> |r.value| == |rs|
    decreases |rs|
  {
    if rs == [] then Success([])
    else
      var x :- rs[0];
      var rest :- Collect(rs[1..]);
      Success([x] + rest)
  }

  /** Collecting fails exactly when one computation fails, and then with
      the fault of the first one that does. */
  lemma {:induction false} CollectFailsIff<T, E>(rs: seq<Result<T, E>>)
    ensures Collect(rs).Failure? <==> exists i :: 0 <= i < |rs| && rs[i].Failure?
    ensures Collect(rs).Failure? ==>
      exists i :: && 0 <= i < |rs| && rs[i].Failure? && Collect(rs).error == rs[i].error
                  && forall j :: 0 <= j < i ==> rs[j].Success?
    decreases |rs|
  {
    if rs != [] {
      var tail := rs[1..];
      CollectFailsIff(tail);
      assert forall i :: 1 <= i < |rs| ==> tail[i - 1] == rs[i];
      if rs[0].Success? && Collect(tail).Failure? {
        var i :| && 0 <= i < |tail| && tail[i].Failure? && Collect(tail).error == tail[i].error
                 && forall j :: 0 <= j < i ==> tail[j].Success?;
        assert rs[i + 1] == tail[i];
      }
    }
  }

  /** Value i of a successful collection is the value of computation i. */
  lemma {:induction false} CollectAt<T, E>(rs: seq<Result<T, E>>, i: nat)
    requires Collect(rs).Success? && i < |rs|
    ensures rs[i] == Success(Collect(rs).value[i])
    decreases i
  {
    var rest := Collect(rs[1..]);
    assert Collect(rs).value == [rs[0].value] + rest.value;
    if i > 0 {
      CollectAt(rs[1..], i - 1);
    }
  }
}
