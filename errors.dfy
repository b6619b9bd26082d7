/** Go error values as the code base builds them (pkg/utils/errors.go and the
    `errors.New` / `fmt.Errorf("...: %w", err)` calls of every layer). */
module Errors {
  import opened Common

  /** A non-nil Go `error`. */
  datatype GoError =
    | Plain(text: string)                                    // errors.New(text)
    | Wrapped(message: string, inner: GoError)               // fmt.Errorf("%s: %w", message, inner)
    | App(err: Option<GoError>, message: string, code: int)  // *utils.AppError; err may be nil

  /** `err.Error()`. None stands for the nil-pointer panic of an AppError whose
      message is empty and whose wrapped error is nil. */
  function Text(e: GoError): Option<string> {
    match e
    case Plain(t) => Some(t)
    case Wrapped(m, inner) =>
      (match Text(inner)
       case Some(t) => Some(m + ": " + t)
       case None => None)
    case App(None, m, _) => if m != "" then Some(m) else None
    case App(Some(inner), m, _) => if m != "" then Some(m) else Text(inner)
  }

  /** `errors.Unwrap`: the error one level down the chain, if any. */
  function Unwrap(e: GoError): Option<GoError> {
    match e
    case Plain(_) => None
    case Wrapped(_, inner) => Some(inner)
    case App(err, _, _) => err
  }

  /** True when the text of `e` is exactly `t`. */
  predicate HasText(e: GoError, t: string) {
    Text(e) == Some(t)
  }

  /** `NewAppError`: the message wins when non-empty, the wrapped error's text is the
      fallback, and unwrapping gives back exactly the error that was stored. */
  function NewAppError(err: Option<GoError>, message: string, code: int): (r: GoError)
    ensures Unwrap(r) == err
    ensures r.App? && r.code == code
    ensures message != "" ==> Text(r) == Some(message)
    ensures message == "" && err.Some? ==> Text(r) == Text(err.value)
    ensures message == "" && err.None? ==> Text(r) == None
  {
    App(err, message, code)
  }

  /** `WrapError(err, message)`: text `message + ": " + err.Error()`, unwrapping to `err`. */
  function WrapError(err: GoError, message: string): (r: GoError)
    ensures Unwrap(r) == Some(err)
    ensures Text(err).Some? ==> Text(r) == Some(message + ": " + Text(err).value)
    ensures Text(err).None? ==> Text(r) == None
  {
    Wrapped(message, err)
  }
}
