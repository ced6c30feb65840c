/** Result.h: a value that is empty, holds a Value or holds an Error.  A
    panic is modelled as a failure carrying the panic's reason. */
module Results {
  import W = Wrappers

  /** state_ together with the member of the union it selects. */
  datatype Content<V, E> = Empty | HoldsValue(value: V) | HoldsError(error: E)

  const UninitializedReason := "Uninitialized Result"
  const HoldsErrorReason := "Result holds Error, not Value"
  const HoldsValueReason := "Result holds Value, not Error"

  /** panicIfError followed by the value read. */
  function ValueOf<V, E>(c: Content<V, E>): (r: W.Result<V, string>)
    ensures r.Success? <==> c.HoldsValue?
    ensures r.Success? ==> r.value == c.value
    ensures c.Empty? ==> r == W.Failure(UninitializedReason)
    ensures c.HoldsError? ==> r == W.Failure(HoldsErrorReason)
  {
    match c
    case HoldsValue(v) => W.Success(v)
    case Empty => W.Failure(UninitializedReason)
    case HoldsError(_) => W.Failure(HoldsErrorReason)
  }

  /** panicIfNotError followed by the error read. */
  function ErrorOf<V, E>(c: Content<V, E>): (r: W.Result<E, string>)
    ensures r.Success? <==> c.HoldsError?
    ensures r.Success? ==> r.value == c.error
    ensures c.Empty? ==> r == W.Failure(UninitializedReason)
    ensures c.HoldsValue? ==> r == W.Failure(HoldsValueReason)
  {
    match c
    case HoldsError(e) => W.Success(e)
    case Empty => W.Failure(UninitializedReason)
    case HoldsValue(_) => W.Failure(HoldsValueReason)
  }

  /** Exactly one of hasValue, hasError and empty holds. */
  lemma ExactlyOneState<V, E>(c: Content<V, E>)
    ensures (c.HoldsValue? && !c.HoldsError? && !c.Empty?) ||
            (!c.HoldsValue? && c.HoldsError? && !c.Empty?) ||
            (!c.HoldsValue? && !c.HoldsError? && c.Empty?)
  {
  }

  /** The two accessors never both succeed, and on an empty result both
      panic with the same reason. */
  lemma AccessorsExclusive<V, E>(c: Content<V, E>)
    ensures !(ValueOf(c).Success? && ErrorOf(c).Success?)
    ensures c.Empty? <==> ValueOf(c).Failure? && ErrorOf(c).Failure?
    ensures c.Empty? ==> ValueOf(c).error == ErrorOf(c).error
  {
  }

  class Result<V, E> {
    var content: Content<V, E>

    /** Result(): the empty state. */
    constructor ()
      ensures content == Empty
    {
      content := Empty;
    }

    /** Ok(value) and the Value constructors. */
    constructor Ok(value: V)
      ensures content == HoldsValue(value)
    {
      content := HoldsValue(value);
    }

    /** Error(error) and the ErrorConstruct constructors. */
    constructor Error(error: E)
      ensures content == HoldsError(error)
    {
      content := HoldsError(error);
    }

    /** Move construction: this takes over other's state and payload, and
        other is left empty. */
    constructor MoveFrom(other: Result<V, E>)
      modifies other
      ensures content == old(other.content) && other.content == Empty
    {
      content := other.content;
      new;
      other.content := Empty;
    }

    /** Copy construction: this reproduces other, which is unchanged. */
    constructor CopyFrom(other: Result<V, E>)
      ensures content == other.content
    {
      content := other.content;
    }

    /** Move assignment; assigning a result to itself changes nothing. */
    method MoveAssign(other: Result<V, E>)
      modifies this, other
      ensures other == this ==> content == old(content)
      ensures other != this ==> content == old(other.content) && other.content == Empty
    {
      if other != this {
        content := other.content;
        other.content := Empty;
      }
    }

    /** Copy assignment; other is unchanged, and so is a self-assignment. */
    method CopyAssign(other: Result<V, E>)
      modifies this
      ensures content == old(other.content)
      ensures other != this ==> other.content == old(other.content)
    {
      if other != this {
        content := other.content;
      }
    }

    predicate HasValue()
      reads this
    {
      content.HoldsValue?
    }

    predicate HasError()
      reads this
    {
      content.HoldsError?
    }

    predicate IsEmpty()
      reads this
    {
      content.Empty?
    }

    /** value(): the value, or a panic. */
    function GetValue(): (r: W.Result<V, string>)
      reads this
      ensures r.Success? <==> HasValue()
      ensures r == ValueOf(content)
    {
      ValueOf(content)
    }

    /** error(): the error, or a panic. */
    function GetError(): (r: W.Result<E, string>)
      reads this
      ensures r.Success? <==> HasError()
      ensures r == ErrorOf(content)
    {
      ErrorOf(content)
    }
  }
}
