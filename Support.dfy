/** Error values, the failure-compatible Result type and Python's subscript
    rules, shared by the loader and evaluation modules. */
module Support {

  /** The exceptions the data-preparation code can raise. */
  datatype Error =
    | IndexOutOfRange             // IndexError from a list or array subscript
    | BadShape                    // ValueError from a NumPy shape mismatch
    | ParseError                  // ValueError from np.loadtxt on a ragged table
    | FileMissing(path: string)   // OSError when a file cannot be opened
    | InvalidClassCount           // AssertionError in the dataset constructor
    | EmptyConcatenation          // ValueError from np.hstack of no arrays
    | LengthMismatch              // ValueError from np.hstack of columns of unequal length
    | MissingArgument             // TypeError from a call that omits a required parameter

  datatype Option<+T> = None | Some(value: T)

  datatype Result<+T> = Ok(value: T) | Err(error: Error) {
    predicate IsFailure() { Err? }

    function PropagateFailure<U>(): Result<U>
      requires Err?
    {
      Err(error)
    }

    function Extract(): T
      requires Ok?
    {
      value
    }
  }

  /** Resolves the subscript `i` into a Python list or NumPy axis of length `n`:
      a negative subscript counts from the end, anything else out of range raises. */
  function PyIndex(n: nat, i: int): (r: Result<nat>)
    ensures r.Ok? <==> -(n as int) <= i < n
    ensures r.Ok? ==> r.value < n && r.value % n == i % n
  {
    if 0 <= i < n then Ok(i)
    else if -(n as int) <= i < 0 then Ok(n + i)
    else Err(IndexOutOfRange)
  }

  /** Runs a sequence of steps in order: all their values, or the error of
      the first step that fails (a raised exception ends the loop). */
  function Collect<T>(rs: seq<Result<T>>): (r: Result<seq<T>>)
    ensures r.Ok? <==> forall k :: 0 <= k < |rs| ==> rs[k].Ok?
    ensures r.Ok? ==> |r.value| == |rs| && forall k :: 0 <= k < |rs| ==> r.value[k] == rs[k].value
  {
    if rs == [] then Ok([])
    else
      var v :- rs[0];
      var rest :- Collect(rs[1..]);
      assert forall k :: 1 <= k < |rs| ==> rs[k] == rs[1..][k - 1];
      Ok([v] + rest)
  }

  /** One step per input, in input order. */
  function Steps<X, T>(xs: seq<X>, step: X -> Result<T>): (rs: seq<Result<T>>)
    ensures |rs| == |xs|
    ensures forall k :: 0 <= k < |xs| ==> rs[k] == step(xs[k])
  {
    seq(|xs|, k requires 0 <= k < |xs| => step(xs[k]))
  }

  /** Collect fails with the error of the first failing step. */
  lemma {:induction false} CollectFirstError<T>(rs: seq<Result<T>>, i: nat)
    requires i < |rs| && rs[i].Err?
    requires forall k :: 0 <= k < i ==> rs[k].Ok?
    ensures Collect(rs) == Err(rs[i].error)
  {
    if i > 0 {
      assert forall k :: 0 <= k < i - 1 ==> rs[1..][k] == rs[k + 1];
      CollectFirstError(rs[1..], i - 1);
    }
  }
}
