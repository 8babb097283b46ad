/** The exceptions the modelled code can raise, as values. */
module Exceptions {

  datatype Exception =
    | InvalidOperation    // `First()` of an empty name list
    | IndexOutOfRange     // an array index past the end
    | ArgumentOutOfRange  // a list index past the end, or a bad `Substring` range
    | Format              // `int.Parse` of text that is not an integer
    | Overflow            // `int.Parse` of an integer outside the 32-bit range
    | UnsupportedModel    // the explicit "unsupported model" throw
    | NotImplemented      // a strategy stub
    | UnknownTaskMode     // the strategy factory's default branch
}
