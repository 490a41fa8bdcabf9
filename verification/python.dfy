/** The few pieces of Python semantics the transformations depend on: the
    exceptions they can raise, and what happens when a method is called
    through its class instead of through an instance. */
module Python {

  /** The exceptions a transformation can raise. */
  datatype Error = TypeError | AssertionError

  /** A value, or the exception raised instead of producing it. */
  datatype Result<+T> = Success(value: T) | Failure(error: Error) {
    /** Applies `g` to a value and passes an exception through. */
    function MapValue<U>(g: T -> U): Result<U> {
      match this
      case Success(v) => Success(g(v))
      case Failure(e) => Failure(e)
    }
  }

  /** `Cls.method(args)` with no instance in front, as Python 2 evaluates it:
      `Cls.method` is an unbound method, which checks that its first argument
      is an instance of `Cls` and that the arguments fill every declared
      parameter, `self` included, and raises TypeError otherwise. `outcome`
      is what the method would return had the call gone through. */
  function CallThroughClass<T>(declared: nat, supplied: nat, firstIsInstance: bool, outcome: T): (r: Result<T>)
    ensures r.Success? <==> firstIsInstance && supplied == declared
    ensures r.Success? ==> r.value == outcome
    ensures r.Failure? ==> r.error == TypeError
  {
    if firstIsInstance && supplied == declared then Success(outcome) else Failure(TypeError)
  }
}
