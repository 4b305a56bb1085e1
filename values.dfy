/** Values the keyword library passes around, and the errors its keywords raise. */
module Values {

  datatype Option<T> = None | Some(value: T)

  /** The outcome of an operation that returns a value or raises. */
  datatype Result<T> = Ok(value: T) | Err(error: Error)

  /** The outcome of a keyword that returns nothing or raises. */
  datatype Outcome = Pass | Fail(error: Error)

  /** A keyword argument as it reaches the library: a string (the test runner's
      default) or an integer (an argument written as a number variable). */
  datatype Arg = Text(s: string) | Num(n: int)

  /** The exceptions the library raises, one constructor per distinct cause. */
  datatype Error =
    | AttributeNotFound(token: string)                  // no symbol and no integer literal; the message names the module
    | InvalidInteger(text: string)                      // int() rejected a string
    | InvalidLogLevel(level: Arg)                       // unknown log level
    | NoActiveConnectionProperty                        // the owner lacks the active-connection attribute
    | NoConnectionActive                                // the active connection is None
    | UnsetSelection(key: string)                       // a scope key read before it was written
    | InvalidEntityPath                                 // the entity path parser rejected the string
    | NotExactlyOneResource                             // zero or several resources carry the entity path
    | RdrNotFound(id: string)                           // no RDR of the requested kind with this id
    | MalformedParameter                                // a test parameter without '='
    | ParameterNotFound(name: string)                   // the selected test has no such parameter
    | EventNotFumi                                      // the selected event is not a FUMI event
    | EventNotDimi                                      // the selected event is not a DIMI event
    | NoEventOfType(eventType: int)                     // the event queue ran dry before an event of the type
    | NonExistingConnection(indexOrAlias: Arg)          // the connection cache knows no such index or alias
    | NoSession                                         // an attribute looked up on the None session
    | TransportError                                    // the HPI daemon could not be reached
    | NotEqual(expected: Arg, actual: Arg)              // an equality assertion failed
}
