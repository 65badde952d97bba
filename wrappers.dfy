/** Optional values, results and the Python exceptions the pipeline can raise. */
module Wrappers {

  /** Python's `None` / a present value. */
  datatype Option<+T> = None | Some(value: T) {
    function GetOr(default: T): T {
      match this
      case Some(v) => v
      case None => default
    }
  }

  /** The built-in exceptions the modelled code can raise; every one of them aborts the run. */
  datatype Exception =
    | KeyError           // a dictionary lookup with `[]` on a missing key
    | IndexError         // `[0]` on an empty list
    | TypeError          // a call with the wrong number of arguments, or `join` over a `None`
    | ValueError         // `int()` on a string that is not a number
    | AttributeError     // attribute access on `None`, or `getattr` of an unknown name
    | UnboundLocalError  // reading a local that no branch assigned

  /** A computation that either returns a value or raises. */
  datatype Result<+T> = Ok(value: T) | Err(error: Exception) {
    predicate IsFailure() {
      Err?
    }

    function PropagateFailure<U>(): Result<U>
      requires Err?
    {
      Err(error)
    }

    function Extract(): T
      requires Ok?
    {
      value
    }
  }

  /** A statement that either completes or raises. */
  datatype Outcome = Pass | Fail(error: Exception)

  /** `d.get(k)`: the value under `k`, or `None`. */
  function Get<K, V>(m: map<K, V>, k: K): (r: Option<V>)
    ensures r.Some? <==> k in m
    ensures r.Some? ==> r.value == m[k]
  {
    if k in m then Some(m[k]) else None
  }

  /** `d[k]`: the value under `k`, or a `KeyError`. */
  function Lookup<K, V>(m: map<K, V>, k: K): (r: Result<V>)
    ensures r.Ok? <==> k in m
    ensures r.Ok? ==> r.value == m[k]
    ensures r.Err? ==> r.error == KeyError
  {
    if k in m then Ok(m[k]) else Err(KeyError)
  }
}
