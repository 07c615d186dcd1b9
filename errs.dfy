/** The error model of pkg/errs: business errors (an `*Err`) against every
    other Go error value the core produces. */
module Errs {
  import opened Wrappers

  /** The fields of the Go struct `Err`; a nil `Details` map is `None`. */
  datatype Err = Err(message: string, code: string, details: Option<map<string, string>>)

  /** A Go `error` value as it occurs in the core. */
  datatype Error =
    | Expected(err: Err)                      // an *Err, returned as it is
    | Wrapped(context: string, cause: Error)  // fmt.Errorf(context + "%w", cause)
    | Plain(message: string)                  // any other error (library errors, fmt.Errorf without %w)

  /** `New`: a business error with the given message and code and no details. */
  function New(message: string, code: string): (e: Err)
    ensures e.message == message && e.code == code && e.details == None
  {
    Err(message, code, None)
  }

  /** The text `Error()` yields.  For an `*Err` it is the message alone. */
  function ErrorText(e: Error): (text: string)
    ensures e.Expected? ==> text == e.err.message
    ensures e.Wrapped? ==> |text| >= |e.context| && text[..|e.context|] == e.context
  {
    match e
    case Expected(err) => err.message
    case Wrapped(context, cause) => context + ErrorText(cause)
    case Plain(message) => message
  }

  /** `IsExpected`: a type assertion on the error itself; nothing is unwrapped. */
  predicate IsExpected(e: Error)
  {
    e.Expected?
  }

  /** `GetCode`: the code of an `*Err`, and "" for every other error. */
  function GetCode(e: Error): (code: string)
    ensures IsExpected(e) ==> code == e.err.code
    ensures !IsExpected(e) ==> code == ""
  {
    if e.Expected? then e.err.code else ""
  }

  /** What the comment on `IsExpected` describes: an `*Err` found anywhere in the
      chain of wrapped causes (the behaviour of `errors.As`). */
  predicate HasErrInChain(e: Error)
  {
    match e
    case Expected(_) => true
    case Wrapped(_, cause) => HasErrInChain(cause)
    case Plain(_) => false
  }

  /** `New` yields an expected error whose code is the given code and whose
      text is the message only. */
  lemma NewIsExpected(message: string, code: string)
    ensures IsExpected(Expected(New(message, code)))
    ensures GetCode(Expected(New(message, code))) == code
    ensures ErrorText(Expected(New(message, code))) == message
  {
  }

  /** Wrapping with `%w` hides a business error from `IsExpected` and `GetCode`,
      although the chain still holds it. */
  lemma WrappedIsUnexpected(context: string, err: Err)
    ensures !IsExpected(Wrapped(context, Expected(err)))
    ensures GetCode(Wrapped(context, Expected(err))) == ""
    ensures HasErrInChain(Wrapped(context, Expected(err)))
  {
  }

  /** An error is expected exactly when it is an `*Err` at the top; at any depth
      of wrapping it is not. */
  lemma {:induction false} ExpectedOnlyAtTop(e: Error)
    ensures IsExpected(e) ==> HasErrInChain(e)
    ensures IsExpected(e) <==> (HasErrInChain(e) && !e.Wrapped?)
  {
    match e
    case Expected(_) =>
    case Wrapped(_, cause) =>
    case Plain(_) =>
  }
}
