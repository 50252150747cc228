/**
 * The exceptions the services throw, as values, and the failure-compatible
 * Result type that carries them.
 */
module Results {

  datatype Option<+T> = None | Some(value: T)

  datatype Error =
      /** ResourceNotFoundException with its message. */
    | ResourceNotFound(message: string)
      /**
       * ResourceNotFoundException("No cryptocurrencies found with valid data
       * for the date: " + date), the date being an epoch day.
       */
    | NoCryptoForDate(date: int)
      /** NoSuchElementException from a bare Optional.orElseThrow(). */
    | NoSuchElement
      /** ArithmeticException from BigDecimal division by zero. */
    | DivisionByZero
      /** ValidationException with its message. */
    | Validation(message: string)
      /** CryptoDataMalformedException with its message. */
    | DataMalformed(message: string)
      /** IllegalStateException from Collectors.toMap on a repeated key. */
    | DuplicateKey(key: string)
      /** CompletionException thrown by CompletableFuture.join around the task's exception. */
    | Completion(cause: Error)

  datatype Result<+T> = Ok(value: T) | Err(error: Error) {
    predicate IsFailure() {
      Err?
    }

    function PropagateFailure<U>(): Result<U>
      requires Err?
    {
      Err(error)
    }

    function Extract(): T
      requires Ok?
    {
      value
    }
  }

  /**
   * stream.map(f).toList() where f may throw: the elements are mapped in
   * order and the first one that fails aborts the whole pipeline.
   */
  function MapAll<A, B>(s: seq<A>, f: A -> Result<B>): (r: Result<seq<B>>)
    ensures r.Ok? <==> forall i :: 0 <= i < |s| ==> f(s[i]).Ok?
    ensures r.Ok? ==> |r.value| == |s| && forall i :: 0 <= i < |s| ==> f(s[i]) == Ok(r.value[i])
    ensures r.Err? ==> exists i :: 0 <= i < |s| && f(s[i]) == Err(r.error) && forall j :: 0 <= j < i ==> f(s[j]).Ok?
  {
    if s == [] then Ok([])
    else
      var init := s[..|s| - 1];
      assert forall i :: 0 <= i < |init| ==> init[i] == s[i];
      match MapAll(init, f)
      case Err(e) => Err(e)
      case Ok(vs) =>
        match f(s[|s| - 1])
        case Err(e) => Err(e)
        case Ok(v) => Ok(vs + [v])
  }
}
