/** Results, options and the error values that the modelled operations return. */
module Core {

  datatype Option<+T> = None | Some(value: T)

  /** The cases of the Rust `CoreError` that the modelled code can produce.
      Field names and byte counts carried for display are left out. */
  datatype CoreError =
    | InvalidLength
    | InvalidTlv
    | UnknownCriticalTlv(ty: int)
    | DuplicateTlv(ty: int)
    | MissingField
    | InvalidUtf8
    | SignatureVerificationFailed
    | AeadOperation
    | KemOperation
    | PqSigOperation
    | UnsupportedAlgorithm
    | MessageParsing
    | MessageKeyUnavailable
    | PolicyViolation(reason: string)

  datatype Result<+T> = Ok(value: T) | Err(error: CoreError) {
    predicate IsFailure() {
      Err?
    }

    function PropagateFailure<U>(): Result<U>
      requires Err?
    {
      Err(error)
    }

    function Extract(): T
      requires Ok?
    {
      value
    }
  }

  datatype Unit = Unit

  /** `Err(e)` unless the condition holds; used as `:- Need(cond, e);`. */
  function Need(condition: bool, e: CoreError): (r: Result<Unit>)
    ensures r.Ok? <==> condition
  {
    if condition then Ok(Unit) else Err(e)
  }

  function Max(a: int, b: int): int {
    if a < b then b else a
  }

  /** The outcome when `done` was read before the rest gave `r`. */
  function Prefixed<T>(done: seq<T>, r: Result<seq<T>>): Result<seq<T>> {
    match r
    case Ok(rest) => Ok(done + rest)
    case Err(e) => Err(e)
  }

  lemma PrefixedStep<T>(done: seq<T>, next: seq<T>, r: Result<seq<T>>)
    ensures Prefixed(done + next, r) == Prefixed(done, Prefixed(next, r))
    ensures Prefixed([], r) == r && Prefixed(done, Ok([])) == Ok(done)
  {
    if r.Ok? {
      assert done + next + r.value == done + (next + r.value) && [] + r.value == r.value;
    }
    assert done + [] == done;
  }

  /** All values, or the first error. */
  function Collect<T>(rs: seq<Result<T>>): (r: Result<seq<T>>)
    ensures r.Ok? ==> |r.value| == |rs|
  {
    if rs == [] then Ok([])
    else
      var first :- rs[0];
      var rest :- Collect(rs[1..]);
      Ok([first] + rest)
  }

  lemma {:induction false} CollectExactly<T>(rs: seq<Result<T>>, ts: seq<T>)
    ensures Collect(rs) == Ok(ts) <==> |ts| == |rs| && forall i :: 0 <= i < |rs| ==> rs[i] == Ok(ts[i])
    decreases |rs|
  {
    if rs != [] && ts != [] {
      CollectExactly(rs[1..], ts[1..]);
      assert ts == [ts[0]] + ts[1..];
      if |ts| == |rs| && forall i :: 0 <= i < |rs| ==> rs[i] == Ok(ts[i]) {
        assert forall i :: 0 <= i < |rs| - 1 ==> rs[1..][i] == Ok(ts[1..][i]);
      }
    }
  }

  lemma {:induction false} CollectStops<T>(rs: seq<Result<T>>, i: nat)
    requires i < |rs| && rs[i].Err? && forall j :: 0 <= j < i ==> rs[j].Ok?
    ensures Collect(rs) == Err(rs[i].error)
    decreases |rs|
  {
    if i > 0 {
      CollectStops(rs[1..], i - 1);
    }
  }
}
