/**
 * Success/failure wrappers shared by the whole model.  The library signals
 * failure by throwing .NET exceptions; every such throw is modelled as a
 * `Failure` carrying the exception kind and, where the library gives one, a
 * reason.  A reference that may be `null` is modelled as an `Option`.
 */
module Wrappers {

  datatype Option<T> = None | Some(value: T)
  {
    function GetOr(default: T): T
    {
      match this
      case None => default
      case Some(v) => v
    }
  }

  /** Why an `ArgumentException` was thrown. */
  datatype ArgumentReason =
    | BlankName                 // an attribute was given a null or whitespace name
    | NegativeIndex             // ValueAttribute index < 0
    | NonPositiveLength         // ValueAttribute length <= 0
    | DuplicateKey              // a dictionary received two equal keys
    | BadMatchResult            // a match result and its handler disagree
    | NoVerbGiven               // no handler for "no verb"
    | NoHandlerForVerb(verb: string)

  /** Why a `NotSupportedException` was thrown. */
  datatype NotSupportedReason =
    | BadOptionPrefix           // the option prefix is neither '-' nor '/'
    | BadOptionName(name: string)
    | NoOptionProperties        // an options type with no attributed property
    | MixedMutability           // some properties writable, some not
    | UnsupportedTargetType     // a property type the value converter does not know

  /** The exception kinds the modelled code can throw. */
  datatype Error =
    | ArgumentNull
    | Argument(reason: ArgumentReason)
    | NotSupported(why: NotSupportedReason)
    | InvalidOperation
    | IndexOutOfRange
    | ArgumentOutOfRange
    | KeyNotFound
    | NullReference

  datatype Result<T> = Success(value: T) | Failure(error: Error)

  /** The result of an operation that returns nothing (a `void` member). */
  datatype Outcome = Pass | Fail(error: Error)
}
