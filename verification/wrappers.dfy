/** Failure-carrying results for the modelled C# code.

    The C# program reports errors in two ways: some methods return an
    empty array or `false`, and the rest throw a .NET exception that nothing
    in the program catches. The thrown exceptions are modelled as `Failure`
    values so that every operation stays total. */
module Wrappers {

  /** `None` stands for a C# `null` reference or an absent value. */
  datatype Option<+T> = None | Some(value: T)

  /** The .NET exceptions the modelled code can raise. */
  datatype Fault =
    | IndexOutOfRange     // an array index outside the array
    | NullReference       // a member access through a `null` reference
    | ArgumentOutOfRange  // `Random.Next(x, y)` called with x > y

  datatype Result<+T> = Success(value: T) | Failure(error: Fault)
}
