/**
 * Go error values as the querier packages create, wrap and compare them.
 */
module Errors {

  datatype Error =
    | Sentinel(name: string, text: string)      // a package-level errors.New value, compared by identity
    | Wrapped(prefix: string, cause: Error)     // fmt.Errorf(prefix + "%w", cause)
    | Plain(text: string)                       // errors.New, or fmt.Errorf without %w: a fresh value
    | LemmaNotFound(suggestions: seq<string>)   // camgo.ErrLemmaNotFound, a slice of suggestions

  /** Error(): the message a caller sees. */
  function Message(e: Error): string {
    match e
    case Sentinel(_, text) => text
    case Wrapped(prefix, cause) => prefix + Message(cause)
    case Plain(text) => text
    case LemmaNotFound(_) => "lemma not found"
  }

  /**
   * errors.Is against a sentinel: `e` is that very value or wraps it. A Plain
   * error is never a sentinel, whatever its text, since errors.New allocates.
   */
  predicate Is(e: Error, target: Error)
    requires target.Sentinel?
  {
    match e
    case Sentinel(_, _) => e == target
    case Wrapped(_, cause) => Is(cause, target)
    case Plain(_) => false
    case LemmaNotFound(_) => false
  }
}
