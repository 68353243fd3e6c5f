/**
 * The responses a request handler can produce, and the rule of the request
 * transaction: the database work of a request is committed when the response
 * is informational, successful or a redirection, and rolled back otherwise.
 */
module Http {
  datatype Response =
    | Success              // 200 with a rendered fragment
    | SeeOther             // 303 redirect
    | BadRequest(msg: string)
    | NotFound
    | Unauthorized
    | Panic(msg: string)   // an unwrap, todo!, unreachable! or assert! fired

  /** Whether the request transaction is committed for this response. */
  predicate Commits(r: Response)
  {
    r.Success? || r.SeeOther?
  }
}
