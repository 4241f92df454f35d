/** Option and Result types, and the Python exceptions the modelled code can raise. */
module Wrappers {

  /** `None` also stands for a missing attribute and, for losses, for NaN. */
  datatype Option<+T> = None | Some(value: T)

  /** A failure-compatible result, usable with `:-`. */
  datatype Result<+T, +E> = Success(value: T) | Failure(error: E) {

    predicate IsFailure() {
      Failure?
    }

    function PropagateFailure<U>(): Result<U, E>
      requires Failure?
    {
      Failure(error)
    }

    function Extract(): T
      requires Success?
    {
      value
    }
  }

  /** The exceptions raised by the modelled Python code, by kind. */
  datatype Error =
    | FileNotFound(path: string)      // os.listdir on a directory that is not there
    | OpenFailed(path: string)        // xr.open_dataset on a path it cannot open, absent or unreadable
    | KeyError(key: string)           // a missing configuration entry, file attribute or `ds[name]`
    | AttributeError(name: string)    // `ds.longitude` / `ds.latitude` on a dataset without it
    | IndexError                      // indexing an empty sequence
    | TypeError                       // pd.DatetimeIndex built from a single timestamp
    | UnboundLocal(name: string)      // a local variable read before any assignment
    | NoObjectsToConcatenate          // pd.concat of an empty list

  type Outcome<T> = Result<T, Error>

  /** `[f(x) for x in xs]` where `f` may raise: the first failure ends the loop. */
  function MapOutcome<A, B>(xs: seq<A>, f: A -> Outcome<B>): (r: Outcome<seq<B>>)
    ensures r.Success? <==> forall i :: 0 <= i < |xs| ==> f(xs[i]).Success?
    ensures r.Success? ==> |r.value| == |xs| && forall i :: 0 <= i < |xs| ==> r.value[i] == f(xs[i]).value
    ensures r.Failure? ==> exists k :: 0 <= k < |xs| && f(xs[k]).Failure? && r.error == f(xs[k]).error
                                    && forall j :: 0 <= j < k ==> f(xs[j]).Success?
  {
    if |xs| == 0 then Success([])
    else
      var y :- f(xs[0]);
      var ys :- MapOutcome(xs[1..], f);
      assert forall i :: 1 <= i < |xs| ==> xs[i] == xs[1..][i - 1];
      Success([y] + ys)
  }
}
