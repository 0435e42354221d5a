/** Failure-compatible results for the exceptions the codec can raise. */
module Wrappers {

  /** The failures the .NET code can end in, one constructor per cause, with the exception each raises. */
  datatype Error =
    | Unterminated     // ArgumentOutOfRangeException: a bracket, brace or quote region reaches the end of the text and Substring starts past it
    | NoProgress       // StackOverflowException: the splitter recurses on a remainder that starts with the separator and never returns
    | IndexOutOfRange  // ArgumentOutOfRangeException: a List<string> of split parts is indexed past its end ([0] of an empty list, [1] of a singleton)
    | BadSubstring     // ArgumentOutOfRangeException: the two enclosing markers are stripped from a text shorter than two characters
    | Format           // FormatException: Convert.ToInt32 / Convert.ToInt64 on text that is not an integer
    | Overflow         // OverflowException: Convert.ToInt32 / Convert.ToInt64 on an integer outside the target width
    | NullReference    // NullReferenceException: a null container, item or map value is dereferenced while encoding
    | InvalidCast      // InvalidCastException: a value is cast to a type it does not have, or stored into an array of another element type
    | CannotCreate     // ArgumentException from Activator.CreateInstance on an open generic type, or InvalidOperationException from MakeGenericType on a non-generic one
    | NullKey          // ArgumentNullException: a null key is stored into a map
    | NullValue        // ArgumentNullException: null is added to a List<E>, or stored as a map value, whose E or value type is a value type
    | WrongType        // ArgumentException: a value of another type is added to a List<E> or stored as a map key or value

  datatype Option<+T> = None | Some(value: T)

  datatype Result<+T> = Ok(value: T) | Err(error: Error) {
    predicate IsFailure() {
      Err?
    }

    function PropagateFailure<U>(): Result<U>
      requires Err?
    {
      Err(error)
    }

    function Extract(): T
      requires Ok?
    {
      value
    }
  }
}
