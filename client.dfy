/**
 * The Dermalytics API client: construction and normalisation of its
 * configuration, the prepared request, the interpretation of a transport
 * outcome (error-message extraction and status classification), and the
 * two domain operations.
 */
module Client {
  import opened Wrappers
  import opened Text
  import opened Uri
  import opened Errors
  import opened Http

  const DefaultBaseUrl := "https://api.dermalytics.dev"
  const ApiKeyRequired := "API key is required"
  const NetworkRequestFailed := "Network request failed"
  const InvalidResponseFormat := "Invalid response format from server"
  const ServerErrorPrefix := "Server error: "
  const IngredientNameRequired := "Ingredient name is required"
  const IngredientsRequired := "Ingredients array is required and must not be empty"
  const IngredientsPath := "/ingredients/"
  const AnalyzePath := "/analyze"

  /** DermalyticsConfig: an API key and an optional base URL. */
  datatype Config = Config(apiKey: string, baseUrl: Option<string>)

  /** The two values a client keeps for its lifetime. */
  datatype Settings = Settings(apiKey: string, baseUrl: string)

  /** `.replace(/\/$/, '')`: drops one `/` at the very end, if there is one. */
  function StripOneTrailingSlash(s: string): (r: string)
    ensures r + "/" == s || (r == s && (s == [] || s[|s| - 1] != '/'))
  {
    if |s| > 0 && s[|s| - 1] == '/' then s[..|s| - 1] else s
  }

  /** `(config.baseUrl || DefaultBaseUrl)` with one trailing slash stripped. */
  function NormalizeBaseUrl(baseUrl: Option<string>): (r: string)
    ensures baseUrl == None || baseUrl == Some("") ==> r == DefaultBaseUrl
    ensures baseUrl.Some? && baseUrl.value != "" ==>
              r + "/" == baseUrl.value || (r == baseUrl.value && baseUrl.value[|baseUrl.value| - 1] != '/')
  {
    var chosen := if baseUrl.Some? && baseUrl.value != "" then baseUrl.value else DefaultBaseUrl;
    StripOneTrailingSlash(chosen)
  }

  /**
   * The checks and assignments of the constructor: a blank API key is
   * rejected, otherwise the key is kept trimmed and the base URL normalised.
   */
  function Configure(config: Config): (r: Result<Settings, ErrorKind>)
    ensures r.Failure? <==> IsBlank(config.apiKey)
    ensures r.Failure? ==> r.error == Validation(ApiKeyRequired)
    ensures r.Success? ==> r.value.apiKey == Trim(config.apiKey) && r.value.apiKey != [] && IsTrimmed(r.value.apiKey)
    ensures r.Success? ==> r.value.baseUrl == NormalizeBaseUrl(config.baseUrl)
  {
    if IsBlank(config.apiKey) then Failure(Validation(ApiKeyRequired))
    else Success(Settings(Trim(config.apiKey), NormalizeBaseUrl(config.baseUrl)))
  }

  /** A message field counts when it is present and non-empty (JavaScript truthiness). */
  predicate IsTruthy(field: Option<string>) {
    field.Some? && field.value != ""
  }

  /** The message used when the error body gives none. */
  function FallbackMessage(status: nat, statusText: string): string {
    "HTTP " + DecimalString(status) + ": " + statusText
  }

  /**
   * `errorData.message || errorData.error || "HTTP <status>: <statusText>"`,
   * where an error body that does not parse gives the last.
   */
  function ExtractMessage(status: nat, statusText: string, body: Option<ErrorBody>): (r: string)
    ensures body.Some? && IsTruthy(body.value.message) ==> r == body.value.message.value
    ensures body.Some? && !IsTruthy(body.value.message) && IsTruthy(body.value.error) ==> r == body.value.error.value
    ensures (body.None? || (!IsTruthy(body.value.message) && !IsTruthy(body.value.error)))
            ==> r == FallbackMessage(status, statusText)
    ensures r != ""
  {
    match body
    case Some(ErrorBody(message, error)) =>
      if IsTruthy(message) then message.value
      else if IsTruthy(error) then error.value
      else FallbackMessage(status, statusText)
    case None => FallbackMessage(status, statusText)
  }

  predicate IsServerError(status: nat) {
    status == 500 || status == 502 || status == 503 || status == 504
  }

  /** The status switch of handleErrorResponse: one error for every status. */
  function Classify(status: nat, message: string): (e: ErrorKind)
    ensures e.Authentication? <==> status == 401 || status == 403
    ensures e.NotFound? <==> status == 404
    ensures e.RateLimit? <==> status == 429
    ensures e.Validation? <==> status == 400
    ensures e.Api? <==> !(status in {400, 401, 403, 404, 429})
    ensures e.message == if IsServerError(status) then ServerErrorPrefix + message else message
  {
    match status
    case 401 => Authentication(message)
    case 403 => Authentication(message)
    case 404 => NotFound(message)
    case 429 => RateLimit(message)
    case 400 => Validation(message)
    case 500 => Api(ServerErrorPrefix + message)
    case 502 => Api(ServerErrorPrefix + message)
    case 503 => Api(ServerErrorPrefix + message)
    case 504 => Api(ServerErrorPrefix + message)
    case _ => Api(message)
  }

  /**
   * handleErrorResponse: the error a non-ok response throws, the status
   * classification applied to the extracted message. Only the five
   * classified statuses give something other than an APIError, and the
   * message is never empty.
   */
  function ErrorFor<T>(response: Response<T>): (e: ErrorKind)
    ensures e.message != ""
    ensures e.Api? <==> !(response.status in {400, 401, 403, 404, 429})
  {
    Classify(response.status, ExtractMessage(response.status, response.statusText, response.errorBody))
  }

  /** What a network failure becomes: an APIError with the thrown Error's message. */
  function NetworkMessage(thrown: Thrown): string {
    match thrown
    case ErrorObject(message) => message
    case OtherValue => NetworkRequestFailed
  }

  /**
   * The try/catch steps of `request` after the call: a thrown transport
   * error, a non-ok status, an unparseable success body and a parsed one
   * each lead to one result.
   */
  function Interpret<T>(t: Transport<T>): (r: Result<T, ErrorKind>)
    ensures r.Success? <==> t.Received? && IsOk(t.response.status) && t.response.payload.Some?
    ensures r.Success? ==> r.value == t.response.payload.value
    ensures t.NetworkFailure? ==> r == Failure(Api(NetworkMessage(t.thrown)))
    ensures t.Received? && !IsOk(t.response.status) ==> r == Failure(ErrorFor(t.response))
    ensures t.Received? && IsOk(t.response.status) && t.response.payload.None? ==> r == Failure(Api(InvalidResponseFormat))
  {
    match t
    case NetworkFailure(thrown) => Failure(Api(NetworkMessage(thrown)))
    case Received(response) =>
      if !IsOk(response.status) then Failure(ErrorFor(response))
      else match response.payload
        case None => Failure(Api(InvalidResponseFormat))
        case Some(v) => Success(v)
  }

  /** The endpoint for an ingredient: `/ingredients/` followed by its trimmed name, URL-encoded. */
  function IngredientEndpoint(name: string): string {
    IngredientsPath + EncodeUriComponent(Trim(name))
  }

  /** A rejected call throws its error without touching the transport; a planned request is sent once. */
  function Perform<T>(call: Result<HttpRequest, ErrorKind>, fetch: HttpRequest -> Transport<T>): Result<T, ErrorKind> {
    match call
    case Failure(e) => Failure(e)
    case Success(req) => Interpret(fetch(req))
  }

  /** The configured client; its two fields never change after construction. */
  class Dermalytics {
    const apiKey: string
    const baseUrl: string

    /** What construction guarantees of the key: non-empty and trimmed. */
    ghost predicate Valid() {
      apiKey != [] && IsTrimmed(apiKey)
    }

    constructor (settings: Settings)
      requires settings.apiKey != [] && IsTrimmed(settings.apiKey)
      ensures Valid()
      ensures apiKey == settings.apiKey && baseUrl == settings.baseUrl
    {
      apiKey := settings.apiKey;
      baseUrl := settings.baseUrl;
    }

    /** `new Dermalytics(config)`: fails with a ValidationError on a blank key. */
    static method Create(config: Config) returns (r: Result<Dermalytics, ErrorKind>)
      ensures r.Failure? <==> IsBlank(config.apiKey)
      ensures r.Failure? ==> r.error == Validation(ApiKeyRequired)
      ensures r.Success? ==> fresh(r.value) && r.value.Valid()
      ensures r.Success? ==> r.value.apiKey == Trim(config.apiKey) && r.value.baseUrl == NormalizeBaseUrl(config.baseUrl)
    {
      match Configure(config)
      case Failure(e) =>
        r := Failure(e);
      case Success(settings) =>
        var client := new Dermalytics(settings);
        r := Success(client);
    }

    /** The two headers every request carries. */
    function DefaultHeaders(): Headers {
      map["Authorization" := "Bearer " + apiKey, "Content-Type" := "application/json"]
    }

    /**
     * The request `request` hands to fetch: the URL joins base URL and
     * endpoint, the caller's headers are merged last and so win.
     */
    function Prepare(endpoint: string, options: RequestOptions): (req: HttpRequest)
      requires Valid()
      ensures req.url == baseUrl + endpoint
      ensures req.verb == options.verb.GetOr("GET") && req.body == options.body
      ensures req.headers.Keys == {"Authorization", "Content-Type"} + options.headers.Keys
      ensures forall k :: k in options.headers ==> req.headers[k] == options.headers[k]
      ensures "Authorization" !in options.headers ==>
                req.headers["Authorization"] == "Bearer " + apiKey && req.headers["Authorization"] != "Bearer "
      ensures "Content-Type" !in options.headers ==> req.headers["Content-Type"] == "application/json"
    {
      HttpRequest(options.verb.GetOr("GET"), baseUrl + endpoint, DefaultHeaders() + options.headers, options.body)
    }

    /**
     * The validation of getIngredient and the request it then makes: a
     * blank name is rejected, otherwise a GET of the base URL followed by
     * the ingredient endpoint, with the two default headers and no body.
     */
    function IngredientCall(name: string): (r: Result<HttpRequest, ErrorKind>)
      requires Valid()
      ensures r.Failure? <==> IsBlank(name)
      ensures r.Failure? ==> r.error == Validation(IngredientNameRequired)
      ensures r.Success? ==> r.value == HttpRequest("GET", baseUrl + IngredientEndpoint(name), DefaultHeaders(), None)
    {
      if IsBlank(name) then Failure(Validation(IngredientNameRequired))
      else
        assert DefaultHeaders() + map[] == DefaultHeaders();
        Success(Prepare(IngredientEndpoint(name), NoOptions))
    }

    /**
     * The validation of analyze and the request it then makes: an empty
     * list is rejected, otherwise a POST of `{ ingredients }` to
     * `<baseUrl>/analyze` with the two default headers.
     */
    function AnalyzeCall(ingredients: seq<string>): (r: Result<HttpRequest, ErrorKind>)
      requires Valid()
      ensures r.Failure? <==> ingredients == []
      ensures r.Failure? ==> r.error == Validation(IngredientsRequired)
      ensures r.Success? ==>
        r.value == HttpRequest("POST", baseUrl + AnalyzePath, DefaultHeaders(), Some(IngredientsBody(ingredients)))
    {
      if ingredients == [] then Failure(Validation(IngredientsRequired))
      else
        var req := Prepare(AnalyzePath, RequestOptions(Some("POST"), Some(IngredientsBody(ingredients)), map[]));
        assert DefaultHeaders() + map[] == DefaultHeaders();
        Success(req)
    }

    /** getIngredient: the planned request, if any, sent once and its outcome interpreted. */
    function GetIngredient<T>(name: string, fetch: HttpRequest -> Transport<T>): (r: Result<T, ErrorKind>)
      requires Valid()
      ensures IsBlank(name) ==> r == Failure(Validation(IngredientNameRequired))
      ensures !IsBlank(name) ==> r == Interpret(fetch(IngredientCall(name).value))
    {
      Perform(IngredientCall(name), fetch)
    }

    /** analyze: the planned request, if any, sent once and its outcome interpreted. */
    function Analyze<T>(ingredients: seq<string>, fetch: HttpRequest -> Transport<T>): (r: Result<T, ErrorKind>)
      requires Valid()
      ensures ingredients == [] ==> r == Failure(Validation(IngredientsRequired))
      ensures ingredients != [] ==> r == Interpret(fetch(AnalyzeCall(ingredients).value))
    {
      Perform(AnalyzeCall(ingredients), fetch)
    }
  }
}
