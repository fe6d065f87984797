/** The response shapes shared by the handlers, the presence test they apply to
    environment variables, and what an upstream Notion call can answer. */
module Http {
  import opened Wrappers

  /** An environment variable counts as set when it is present and not the empty
      string. */
  predicate Configured(v: Option<string>) {
    v.Some? && v.value != ""
  }

  /** An upstream JSON error body, forwarded without being interpreted. */
  datatype Payload = Payload(json: string)

  /** The JSON body: `ok` true with an endpoint-specific value, or `ok` false with
      either an error message or the upstream error body. */
  datatype Body<T> =
    | Success(value: T)
    | Failure(error: string)
    | UpstreamFailure(payload: Payload)

  /** What a handler writes: a status code, an optional `Set-Cookie` header and the
      JSON body. */
  datatype Response<T> = Response(status: int, setCookie: Option<string>, body: Body<T>)

  /** The answer of one Notion call: a value decoded from an `ok` response, or the
      non-2xx status together with the body Notion sent. */
  datatype UpstreamReply<T> =
    | Delivered(value: T)
    | Rejected(status: int, payload: Payload)

  /** A failure answer: the given status, no cookie, and a body carrying `ok` false and
      the error message. */
  function Fail<T>(status: int, message: string): (r: Response<T>)
    ensures r.status == status && r.setCookie.None? && r.body == Failure(message)
  {
    Response(status, None, Failure(message))
  }
}
