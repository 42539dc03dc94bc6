/** Option, Result and the Python exception values the model raises or
    receives from a remote call. */
module Wrappers {

  datatype Option<+T> = None | Some(value: T)

  /** The Python exception classes that matter to the control flow. */
  datatype ErrorClass =
    | RateLimitError       // anthropic.RateLimitError
    | ApiError             // any other exception raised by a provider SDK
    | AttributeError
    | TypeError
    | IndexError
    | KeyError
    | ValueError
    | AssertionError

  /** An exception: its class and the text `str(e)` gives. */
  datatype Error = Error(cls: ErrorClass, message: string)

  /** A value, or the exception raised while computing it. */
  datatype Result<+T> = Ok(value: T) | Err(error: Error) {
    predicate IsFailure() { Err? }

    function PropagateFailure<U>(): Result<U>
      requires Err?
    {
      Err(error)
    }

    function Extract(): T
      requires Ok?
    {
      value
    }
  }

  /** The values of a run of results, or the first error among them: what a
      loop that appends each value and lets the first exception escape builds. */
  function Collect<T>(rs: seq<Result<T>>): (r: Result<seq<T>>)
    decreases |rs|
    ensures r.Ok? <==> forall k :: 0 <= k < |rs| ==> rs[k].Ok?
    ensures r.Ok? ==> |r.value| == |rs| && forall k :: 0 <= k < |rs| ==> r.value[k] == rs[k].value
    ensures r.Err? ==> exists k :: 0 <= k < |rs| && rs[k] == Err(r.error) && forall j :: 0 <= j < k ==> rs[j].Ok?
  {
    if |rs| == 0 then Ok([])
    else
      var init := Collect(rs[..|rs| - 1]);
      var last := rs[|rs| - 1];
      assert forall k :: 0 <= k < |rs| - 1 ==> rs[..|rs| - 1][k] == rs[k];
      if init.Err? then init
      else if last.Err? then Err(last.error)
      else Ok(init.value + [last.value])
  }

  /** Appending one more result to a run that has not failed. */
  lemma CollectSnoc<T>(rs: seq<Result<T>>, x: Result<T>)
    requires Collect(rs).Ok?
    ensures Collect(rs + [x]) == if x.Ok? then Ok(Collect(rs).value + [x.value]) else Err(x.error)
  {
    assert (rs + [x])[..|rs|] == rs;
  }

  /** A run of one result. */
  lemma CollectOne<T>(x: Result<T>)
    ensures Collect([x]) == if x.Ok? then Ok([x.value]) else Err(x.error)
  {
    var none: seq<Result<T>> := [];
    assert [x] == none + [x];
    CollectSnoc(none, x);
    if x.Ok? {
      assert Collect(none).value + [x.value] == [x.value];
    }
  }

  /** Once a prefix of the run has failed, the run fails with the same error. */
  lemma {:induction false} CollectErrStays<T>(rs: seq<Result<T>>, k: nat)
    requires k <= |rs| && Collect(rs[..k]).Err?
    ensures Collect(rs) == Collect(rs[..k])
    decreases |rs| - k
  {
    if k < |rs| {
      assert rs[..k + 1][..k] == rs[..k];
      CollectErrStays(rs, k + 1);
    } else {
      assert rs[..k] == rs;
    }
  }

  /** One more step of a run that has not failed. */
  lemma CollectStep<T>(rs: seq<Result<T>>, i: nat)
    requires i < |rs| && Collect(rs[..i]).Ok?
    ensures Collect(rs[..i + 1]) == if rs[i].Ok? then Ok(Collect(rs[..i]).value + [rs[i].value]) else Err(rs[i].error)
  {
    assert rs[..i + 1] == rs[..i] + [rs[i]];
    CollectSnoc(rs[..i], rs[i]);
  }

  /** A failing element after a run that has not failed decides the whole run. */
  lemma CollectFails<T>(rs: seq<Result<T>>, i: nat, e: Error)
    requires i < |rs| && Collect(rs[..i]).Ok? && rs[i] == Err(e)
    ensures Collect(rs) == Err(e)
  {
    CollectStep(rs, i);
    CollectErrStays(rs, i + 1);
  }
}
