/** What the server's code throws and catches: plain `Error` objects, tRPC's `TRPCError`
    (a subclass of `Error` carrying a code and an optional cause), and values thrown that
    are not `Error` instances at all. */
module Errors {

  /** The tRPC error codes this server raises. */
  datatype ErrorCode = BadRequest | TooManyRequests | InternalServerError

  /** One failed check of an input schema: where it failed and the schema's message. */
  datatype Issue = Issue(path: seq<string>, message: string)

  /** A thrown value. */
  datatype Thrown =
    | JsError(message: string)   // `new Error(message)`
    | Trpc(error: TrpcError)     // `new TRPCError({...})`
    | NonError                   // something that is not an `Error` instance

  /** The `cause` of a TRPCError: none, a caught value, or the issues of a failed input
      validation. */
  datatype Cause = NoCause | Caused(thrown: Thrown) | ValidationIssues(issues: seq<Issue>)

  datatype TrpcError = TrpcError(code: ErrorCode, message: string, cause: Cause)

  /** `error instanceof Error ? error.message : fallback`. */
  function MessageOr(e: Thrown, fallback: string): string {
    match e
    case JsError(m) => m
    case Trpc(t) => t.message
    case NonError => fallback
  }
}
