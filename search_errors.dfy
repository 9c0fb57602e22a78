/**
 * The search-service error classifier (middleware/meilisearchErrorHandler.js).
 * An Express error handler that turns an upstream connection failure into a
 * 503, an upstream authentication failure into a 500, and hands every other
 * error to the next handler unchanged.
 */
module SearchErrors {
  import opened Wrappers

  /** The `cause` object attached to an upstream error; only its `code` is read. */
  datatype Cause = Cause(code: Option<string>)

  /** The fields of the error object the handler inspects. */
  datatype Error = Error(cause: Option<Cause>, message: Option<string>)

  /** The JSON body of a written response. */
  datatype Body = Body(success: bool, message: string, error: string)

  /** Exactly one of: a response is written, or `next(err)` is called. */
  datatype Outcome = Respond(status: int, body: Body) | Next(err: Error)

  const SERVICE_UNAVAILABLE: int := 503
  const INTERNAL_SERVER_ERROR: int := 500

  const UnavailableBody: Body := Body(false,
    "Search service is currently unavailable. Please try again later.",
    "SEARCH_SERVICE_UNAVAILABLE")

  const AuthFailedBody: Body := Body(false,
    "Search service authentication failed. Please contact support.",
    "SEARCH_SERVICE_AUTH_ERROR")

  /** `sub` occurs in `s` starting at index `i`. */
  ghost predicate OccursAt(s: string, sub: string, i: int) {
    0 <= i && i + |sub| <= |s| && s[i..i + |sub|] == sub
  }

  /** JavaScript `s.includes(sub)`: `sub` occurs somewhere in `s` (the empty string occurs everywhere). */
  function Includes(s: string, sub: string): (r: bool)
    ensures r <==> exists i :: OccursAt(s, sub, i)
    decreases |s|
  {
    if |sub| <= |s| && s[..|sub|] == sub then
      assert OccursAt(s, sub, 0);
      true
    else if s == [] then
      false
    else
      IncludesTail(s, sub);
      Includes(s[1..], sub)
  }

  /** When `sub` is not a prefix of a non-empty `s`, its occurrences in `s` are those in `s[1..]`, shifted by one. */
  lemma IncludesTail(s: string, sub: string)
    requires s != [] && !(|sub| <= |s| && s[..|sub|] == sub)
    ensures (exists i :: OccursAt(s, sub, i)) <==> (exists j :: OccursAt(s[1..], sub, j))
  {
    if i :| OccursAt(s, sub, i) {
      assert i != 0;
      assert s[1..][i - 1..i - 1 + |sub|] == s[i..i + |sub|];
      assert OccursAt(s[1..], sub, i - 1);
    }
    if j :| OccursAt(s[1..], sub, j) {
      assert s[j + 1..j + 1 + |sub|] == s[1..][j..j + |sub|];
      assert OccursAt(s, sub, j + 1);
    }
  }

  /** `err.message && err.message.includes("has failed")`. */
  predicate MessageSaysFailed(e: Error)
    ensures MessageSaysFailed(e) <==> e.message.Some? && exists i :: OccursAt(e.message.value, "has failed", i)
  {
    Truthy(e.message) && Includes(e.message.value, "has failed")
  }

  /** The cause code equals `code`; false when there is no cause or no code. */
  predicate CauseCodeIs(e: Error, code: string) {
    e.cause.Some? && e.cause.value.code == Some(code)
  }

  /**
   * The handler's decision. The connection test comes first, so an error whose
   * message says "has failed" is a 503 even when its code is an auth code;
   * both tests require a cause, so an error without one always goes to `next`.
   */
  function Classify(e: Error): (r: Outcome)
    ensures r.Respond? ==> !r.body.success
    ensures r.Next? ==> r.err == e
    ensures e.cause.None? ==> r == Next(e)
    ensures CauseCodeIs(e, "UND_ERR_SOCKET") ==> r == Respond(503, UnavailableBody)
    ensures e.cause.Some? && e.message.Some?
            && (exists i :: OccursAt(e.message.value, "has failed", i))
            ==> r == Respond(503, UnavailableBody)
    ensures (CauseCodeIs(e, "missing_authorization_header") || CauseCodeIs(e, "invalid_api_key"))
            && !(e.message.Some? && exists i :: OccursAt(e.message.value, "has failed", i))
            ==> r == Respond(500, AuthFailedBody)
    ensures r.Next? <==>
            e.cause.None?
            || (!CauseCodeIs(e, "UND_ERR_SOCKET")
                && !CauseCodeIs(e, "missing_authorization_header")
                && !CauseCodeIs(e, "invalid_api_key")
                && !(e.message.Some? && exists i :: OccursAt(e.message.value, "has failed", i)))
  {
    if e.cause.Some? && (CauseCodeIs(e, "UND_ERR_SOCKET") || MessageSaysFailed(e)) then
      Respond(SERVICE_UNAVAILABLE, UnavailableBody)
    else if e.cause.Some? && (CauseCodeIs(e, "missing_authorization_header") || CauseCodeIs(e, "invalid_api_key")) then
      Respond(INTERNAL_SERVER_ERROR, AuthFailedBody)
    else
      Next(e)
  }
}
