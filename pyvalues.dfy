/** Python values and exceptions as seen by the resolution tree's setters.
    A setter either returns normally (Pass) or raises one of the Python exception
    kinds the core uses. */
module PyValues {

  /** The dynamically typed values a caller can hand to a setter or constructor:
      None, an int, a str, a list or a dict with string keys. */
  datatype Value =
    | Null
    | Int(i: int)
    | Str(s: string)
    | List(items: seq<Value>)
    | Dict(entries: map<string, Value>)

  /** The Python exception classes raised by the core. */
  datatype Error = ValueError | TypeError | NameError | NotImplementedError

  /** Outcome of a statement that may raise. */
  datatype Status = Pass | Raised(error: Error)

  /** Outcome of a constructor or computation that may raise. */
  datatype Result<T> = Ok(value: T) | Err(error: Error)

  /** An argument that the source expects to be an instance of some class:
      either such an instance, or any plain value (None included). */
  datatype Arg<T> = Instance(obj: T) | Plain(v: Value)

  /** The check shared by every string-valued setter:
      `None` raises ValueError, a non-string raises TypeError. */
  function RequireString(v: Value): (st: Status)
    ensures st == Pass <==> v.Str?
    ensures v.Null? ==> st == Raised(ValueError)
    ensures !v.Null? && !v.Str? ==> st == Raised(TypeError)
  {
    if v.Null? then Raised(ValueError)
    else if !v.Str? then Raised(TypeError)
    else Pass
  }

  /** The check shared by every object-valued setter:
      `None` raises ValueError, anything that is not an instance raises TypeError. */
  function RequireInstance<T>(a: Arg<T>): (st: Status)
    ensures st == Pass <==> a.Instance?
    ensures a.Plain? && a.v.Null? ==> st == Raised(ValueError)
    ensures a.Plain? && !a.v.Null? ==> st == Raised(TypeError)
  {
    match a
    case Instance(_) => Pass
    case Plain(v) => if v.Null? then Raised(ValueError) else Raised(TypeError)
  }
}
