/**
 * The values that cross the transport boundary. The network call itself
 * is not modelled: a transport is any function from the request the
 * client prepares to the outcome of sending it.
 */
module Http {
  import opened Wrappers

  type Headers = map<string, string>

  /** The value a request body serialises (`JSON.stringify({ ingredients })`). */
  datatype RequestBody = IngredientsBody(ingredients: seq<string>)

  /** The part of RequestInit that the client passes to `request`; `verb` is its `method`. */
  datatype RequestOptions = RequestOptions(verb: Option<string>, body: Option<RequestBody>, headers: Headers)

  /** `{}`: no method, no body, no extra headers. */
  const NoOptions := RequestOptions(None, None, map[])

  /** What the transport is asked to send. */
  datatype HttpRequest = HttpRequest(verb: string, url: string, headers: Headers, body: Option<RequestBody>)

  /** The shape `{ message?: string; error?: string }` the client reads from an error body. */
  datatype ErrorBody = ErrorBody(message: Option<string>, error: Option<string>)

  /**
   * A response. `payload` is what `response.json()` yields read as the
   * caller's type, `errorBody` what it yields read as an error body;
   * None where the body does not parse.
   */
  datatype Response<T> = Response(status: nat, statusText: string, payload: Option<T>, errorBody: Option<ErrorBody>)

  /** What a failed `fetch` throws: an Error object with its message, or any other value. */
  datatype Thrown = ErrorObject(message: string) | OtherValue

  /** The outcome of one `fetch`: it throws, or a response arrives. */
  datatype Transport<T> = NetworkFailure(thrown: Thrown) | Received(response: Response<T>)

  /** `response.ok`: the status is in the range 200 to 299. */
  predicate IsOk(status: nat) {
    200 <= status <= 299
  }
}
