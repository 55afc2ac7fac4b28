/** Runtime notions of PHP and of the framework that the package relies on:
    the values its arrays hold, PHP's `empty()`, and the exceptions the core raises. */
module Php {

  datatype Option<T> = None | Some(value: T)

  /** A value held in one of the package's PHP arrays. A Carbon timestamp is an
      object, whatever instant it denotes; instants are whole seconds. */
  datatype Value =
    | Null
    | Bool(b: bool)
    | Int(i: int)
    | Str(s: string)
    | Time(t: int)
    | Arr(items: seq<Value>)

  /** PHP's `empty()`: null, false, 0, "", "0" and the empty array are empty; an object never is. */
  predicate IsEmpty(v: Value)
  {
    match v
    case Null => true
    case Bool(b) => !b
    case Int(i) => i == 0
    case Str(s) => s == "" || s == "0"
    case Time(_) => false
    case Arr(items) => items == []
  }

  /** The exceptions the core can end in. A PHP notice (an undefined array index,
      reading a property of null, an undefined offset) is turned into an
      ErrorException by the framework's error handler, so it ends the call too. */
  datatype Error =
    | IncorrectUsage                       // IncorrectUsageException from send()
    | InvalidArgument(key: string)         // InvalidArgumentException from send()
    | UndefinedIndex(key: string)          // notice: undefined array index
    | UndefinedOffset(offset: int)         // notice: undefined collection offset
    | PropertyOfNonObject(property: string) // notice: property of null
    | ModelNotFound                        // ModelNotFoundException from firstOrFail()

  datatype Result<T> = Ok(value: T) | Err(error: Error)

  datatype Outcome = Pass | Fail(error: Error)
}
