/** Results of the mapping operations: a value, or the exception the C# code throws. */
module Results {

  /** The exceptions that escape the mapper. None of them is caught inside it. */
  datatype Error =
    | ArgumentNull(paramName: string)     // ArgumentNullException carrying the parameter name
    | NullReference                       // a null record dereferenced
    | MissingDefaultConstructor           // Activator.CreateInstance<T> on a type without one
    | DuplicateKey(key: string)           // Dictionary.Add of a key already present
    | ConversionFailed(property: string)  // Enum.ToObject or Convert.ChangeType rejected a value
    | GetMethodNotFound(property: string) // PropertyInfo.GetValue on a property without a getter

  datatype Option<+T> = None | Some(value: T)

  datatype Result<+T> = Success(value: T) | Failure(error: Error) {
    predicate IsFailure() {
      Failure?
    }

    function PropagateFailure<U>(): Result<U>
      requires Failure?
    {
      Failure(error)
    }

    function Extract(): T
      requires Success?
    {
      value
    }
  }

  /** Applies `f` to each element in order and stops at the first failure,
      as a `foreach` loop whose body may throw does. */
  function Traverse<A, B>(xs: seq<A>, f: A --> Result<B>): (r: Result<seq<B>>)
    requires forall i :: 0 <= i < |xs| ==> f.requires(xs[i])
    ensures r.Success? <==> forall i :: 0 <= i < |xs| ==> f(xs[i]).Success?
    ensures r.Success? ==>
      |r.value| == |xs| && forall i :: 0 <= i < |xs| ==> f(xs[i]) == Success(r.value[i])
    ensures r.Failure? ==>
      exists i :: 0 <= i < |xs| && f(xs[i]) == Failure(r.error)
                  && forall j :: 0 <= j < i ==> f(xs[j]).Success?
    decreases |xs|
  {
    if |xs| == 0 then Success([])
    else
      var head :- f(xs[0]);
      var tail :- Traverse(xs[1..], f);
      Success([head] + tail)
  }

  /** Two loops whose bodies succeed on the same elements and throw the same error
      wherever the first one throws stop with the same error. */
  lemma {:induction false} TraverseSameFailure<A, B>(xs: seq<A>, f: A --> Result<B>, g: A --> Result<B>)
    requires forall i :: 0 <= i < |xs| ==> f.requires(xs[i]) && g.requires(xs[i])
    requires forall i :: 0 <= i < |xs| ==> f(xs[i]).Success? == g(xs[i]).Success?
    requires forall i :: 0 <= i < |xs| && f(xs[i]).Failure? ==> g(xs[i]) == f(xs[i])
    ensures Traverse(xs, f).Success? == Traverse(xs, g).Success?
    ensures Traverse(xs, f).Failure? ==> Traverse(xs, g) == Traverse(xs, f)
    decreases |xs|
  {
    if |xs| > 0 {
      TraverseSameFailure(xs[1..], f, g);
    }
  }
}
