/**
 Cancellation and the errors the in-memory repository returns. A Go
 `context.Context` is reduced to whether it is already done and, if so,
 why; `ctx.Err()` is the matching `ContextErr`.
 */
module Errors {

  datatype ContextError = Canceled | DeadlineExceeded

  /** `Background` is a context that is not done; `Done(cause)` one whose `Done()` channel is closed. */
  datatype Context = Background | Done(cause: ContextError)
  {
    /** `ctx.Err()`, defined once the context is done. */
    function Err(): Error
      requires Done?
    {
      ContextErr(cause)
    }
  }

  /** The fixed text before the key in a not-found error. */
  const NotFoundPrefix := "no account with id "

  datatype Error =
    | ContextErr(cause: ContextError)
    | NotFound(id: string)
  {
    /**
     The text of the error as the program formats it: Go's texts for the two
     context errors, and "no account with id " followed by the key otherwise.
     */
    function Message(): (m: string)
      ensures NotFound? <==> |m| >= 19 && m[..19] == NotFoundPrefix
      ensures NotFound? ==> m[19..] == id
    {
      match this
      case ContextErr(Canceled) =>
        assert "context canceled"[0] != NotFoundPrefix[0];
        "context canceled"
      case ContextErr(DeadlineExceeded) =>
        assert "context deadline exceeded"[0] != NotFoundPrefix[0];
        "context deadline exceeded"
      case NotFound(id) => NotFoundPrefix + id
    }
  }

  /** Two errors have the same text exactly when they are the same error: the text names the key that was not found. */
  lemma {:induction false} MessageIdentifiesError(e: Error, f: Error)
    ensures e.Message() == f.Message() <==> e == f
  {
    if e.Message() == f.Message() && e.NotFound? {
      assert e.id == e.Message()[19..] == f.id;
    }
  }
}
