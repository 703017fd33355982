/** Error kinds raised by the query core, and the result type that carries them. */
module Results {

  /** Every way the query core can fail. Python raises these as exceptions
      (ValueError, AssertionError, KeyError or TypeError); here they are values. */
  datatype Error =
    | TooManyRightParentheses          // Tokenize: depth went negative
    | MissingRightParentheses          // Tokenize: depth positive at the end
    | UnclosedGroup(token: string)     // a token opens with '(' but does not end with ')'
    | MalformedComparison(token: string) // an operator token does not split into field and value
    | UnknownField(field: string)      // the field is not a key of the field mapping
    | NotComparable(field: string)     // an ordering operator on a non-comparable field
    | BadInteger(text: string)         // int() of a text that is not an integer
    | BadDate(text: string)            // a date that does not parse
    | MisplacedOr                      // OR closes a group that is still universal
    | UniversalNotIterable             // the universal marker is iterated as if it were rows

  datatype Result<+T> = Ok(value: T) | Err(error: Error) {
    predicate IsFailure() { Err? }

    function PropagateFailure<U>(): Result<U>
      requires Err?
    {
      Err(error)
    }

    function Extract(): T
      requires Ok?
    {
      value
    }
  }
}
