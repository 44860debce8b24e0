# Dermalytics client — a Dafny model

This project models the decision logic of the `Dermalytics` API client in the
TypeScript SDK (`src/client.ts`), and proves properties of that model. It covers:

- **Construction.** The API key is validated and kept trimmed. When no base URL
  is given, or the given one is empty, `https://api.dermalytics.dev` is used.
  One trailing `/` is then removed.
- **Error-message extraction.** The message is the error body's `message`,
  else its `error`, else `HTTP <status>: <statusText>`.
- **Status classification.** Each non-ok status leads to exactly one of the five
  error kinds the SDK throws. The kinds are a flat `ErrorKind` datatype, one
  constructor for each of five of the six subclasses of the SDK's error base
  class; NotImplementedError, which the client never throws, is left out.
  Statuses 500, 502, 503 and 504 get a `Server error: ` prefix.
- **Request outcome.** Each of the following leads to one result: a thrown
  network error, a non-ok status, an ok response whose body does not parse,
  and an ok response whose body parses.
- **The request and the two domain operations.** The model covers the request
  handed to the transport: the URL `baseUrl + endpoint`, the default headers,
  caller headers merged last, and the verb. `getIngredient` and `analyze`
  validate their input before any request.

Layout:

- `wrappers.dfy`: `Option` and `Result`.
- `errors.dfy`: the error taxonomy.
- `text.dfy`: ECMAScript `String.prototype.trim`, and the decimal numeral of a
  status.
- `uri.dfy`: `encodeURIComponent` as ECMAScript defines it. The unreserved
  characters `A-Z a-z 0-9 - _ . ! ~ * ' ( )` are kept. Every other code point
  becomes its UTF-8 bytes (RFC 3629), each byte written `%XY` with upper-case
  hex. The file also holds the inverse decoding and the round-trip proof.
- `http.dfy`: the request, response and transport-outcome values.
- `client.dfy`: the client class and its operations.
- `client_properties.dfy`: lemmas that relate several operations.

The transport is a parameter. `getIngredient` and `analyze` take a function
`fetch: HttpRequest -> Transport<T>` that maps the prepared request to what
sending it produces. "No request is made" is stated as "the result is the same
for every transport". A response carries the two views the client takes of its
body:

- `payload`: the JSON read as the caller's type;
- `errorBody`: the JSON read as `{ message?, error? }`.

Either view is `None` when the body does not parse. `response.ok` is a status
from 200 to 299.

Two behaviours of the code worth noting:

- **Header merge.** The caller's headers are spread after the two defaults, so
  they override `Authorization` and `Content-Type`.
- **Base URL `"/"`.** It normalises to the empty string: the default is chosen
  before the slash is stripped and is not chosen again afterwards.

## Model

| member | source | states |
|---|---|---|
| Text.Trim | src/client.ts:23 | the trimmed key is a slice of the input, everything cut from either end is whitespace, and neither end of the result is whitespace |
| ClientProperties.TrimUnique | src/client.ts:27 | trim is determined by that contract: a trimmed middle, wrapped in whitespace on both sides, is exactly what trim returns |
| ClientProperties.TrimIdempotent | src/client.ts:27 | trimming the stored key again changes nothing |
| ClientProperties.TrimOfTrimmed | src/client.ts:27 | a string whose ends are not whitespace is its own trim |
| ClientProperties.BlankIffAllWhitespace | src/client.ts:23 | `trim().length === 0` holds exactly when every character is whitespace |
| Client.StripOneTrailingSlash | src/client.ts:28 | the result is the input minus one final `/`, or the input itself when it does not end in `/` |
| Client.NormalizeBaseUrl | src/client.ts:28 | an absent or empty base URL gives the default host; any other loses its final `/` when it ends in one, and is kept unchanged otherwise |
| ClientProperties.TrailingSlashIrrelevant | src/client.ts:28 | `x/` and `x` configure the same base URL, namely `x` |
| ClientProperties.SlashOnlyBaseUrlIsEmpty | src/client.ts:28 | a base URL of `/` normalises to the empty string |
| ClientProperties.OnlyOneSlashStripped | src/client.ts:28 | `x//` keeps one slash: exactly one is removed |
| Client.Configure | src/client.ts:22-29 | fails exactly when the key is blank, with `Validation("API key is required")`; otherwise the kept key is the trimmed, non-empty input, and the base URL is normalised |
| Client.Dermalytics.Create | src/client.ts:22-29 | construction fails exactly on a blank key, with that error; otherwise a fresh client holds the trimmed, non-empty key and the normalised base URL |
| Client.Dermalytics.constructor | src/client.ts:27-28 | the two fields are assigned once, from settings whose key is non-empty and trimmed, so every client satisfies `Valid()` |
| Client.ExtractMessage | src/client.ts:74-81 | a non-empty `message` wins, then a non-empty `error`, else `HTTP <status>: <statusText>`, which is also the result when the body does not parse; the message is never empty |
| ClientProperties.UnparsedBodyLikeEmptyBody | src/client.ts:76-81 | a body that does not parse gives the same message as a body whose two fields are both unusable |
| Text.DecimalString | src/client.ts:74 | the status is rendered as a non-empty string of digits with no leading zero |
| ClientProperties.DecimalRoundTrip | src/client.ts:74 | the rendered status reads back as the status |
| ClientProperties.FallbackIdentifiesStatus | src/client.ts:74 | two different statuses never give the same fallback message |
| Client.Classify | src/client.ts:83-100 | 401/403 give Authentication, 404 NotFound, 429 RateLimit and 400 Validation, each exactly; every other status gives Api; the message gets `Server error: ` prepended exactly for 500, 502, 503 and 504 |
| Client.ErrorFor | src/client.ts:73-101 | handleErrorResponse: Classify applied to ExtractMessage's result, so its behaviour follows from those two contracts; it is an APIError exactly for the statuses outside 400, 401, 403, 404 and 429, and its message is never empty |
| Client.Interpret | src/client.ts:49-65 | success exactly when a response arrived with an ok status and a parseable body, and then the value is that body; a network failure gives Api with the thrown Error's message or `Network request failed`; a non-ok status gives its classified error; an ok response with an unparseable body gives Api(`Invalid response format from server`) |
| ClientProperties.OutcomeTaxonomy | src/client.ts:49-100 | names, for each error kind, every transport outcome that leads to it, in both directions |
| ClientProperties.ResponseErrorsHaveMessages | src/client.ts:56-99 | an error caused by a response, rather than by the network, always carries a non-empty message |
| Client.Dermalytics.Prepare | src/client.ts:36-48 | the URL is base URL followed by endpoint; the verb defaults to GET; the body is passed through; the headers are the two defaults plus the caller's, and the caller's values win; Authorization is `Bearer <apiKey>`, never `Bearer ` alone since every client holds a non-empty key, and Content-Type `application/json`, unless the caller overrides them |
| Uri.EncodeUriComponent | src/client.ts:119 | the encoding holds only unreserved characters and `%`; it is never shorter than the input; it equals the input exactly when the input is all unreserved |
| Uri.PercentRoundTrip | src/client.ts:119 | decoding the `%XY` triples of a byte sequence gives back that byte sequence |
| Uri.Utf8RoundTrip | src/client.ts:119 | decoding the UTF-8 bytes of a character gives back its code point |
| Uri.UriRoundTrip | src/client.ts:119 | decoding an encoded component gives back the component: the encoding loses nothing |
| Client.Dermalytics.IngredientCall | src/client.ts:114-119 | fails exactly on a blank name, with `Validation("Ingredient name is required")`; otherwise a GET of base URL + `/ingredients/` + the encoded trimmed name, with the default headers and no body |
| Client.Dermalytics.GetIngredient | src/client.ts:114-120 | a blank name fails with that error; otherwise the result is the interpretation of the transport's answer to the planned request |
| ClientProperties.BlankNameSendsNothing | src/client.ts:115-117 | a blank name gives the same failure whatever the transport would answer: no request is made |
| ClientProperties.LookupDependsOnOneRequest | src/client.ts:119 | a valid lookup depends only on the transport's answer to the one planned request |
| ClientProperties.IngredientNameIsOneSegment | src/client.ts:119 | after `/ingredients/` the endpoint holds no `/`, `?` or `#` |
| ClientProperties.DistinctNamesDistinctEndpoints | src/client.ts:119 | names that differ after trimming have different endpoints |
| ClientProperties.DistinctNamesDistinctUrls | src/client.ts:119 | lookups of names that differ after trimming request different URLs |
| ClientProperties.PlainNameSentVerbatim | src/client.ts:119 | a non-empty name made of unreserved characters is sent as written after `/ingredients/` |
| ClientProperties.NiacinamideLookup | src/client.ts:114-120 | `getIngredient("Niacinamide")` GETs `<baseUrl>/ingredients/Niacinamide` and, on a 200 response, returns the parsed body unchanged |
| Client.Dermalytics.AnalyzeCall | src/client.ts:132-140 | fails exactly on an empty list, with `Validation("Ingredients array is required and must not be empty")`; otherwise a POST of `{ ingredients }` to base URL + `/analyze`, with the default headers |
| Client.Dermalytics.Analyze | src/client.ts:132-141 | an empty list fails with that error; otherwise the result is the interpretation of the transport's answer to the planned request |
| ClientProperties.EmptyListSendsNothing | src/client.ts:133-135 | an empty list gives the same failure whatever the transport would answer: no request is made |
| ClientProperties.AnalysisDependsOnOneRequest | src/client.ts:137-140 | a valid analysis depends only on the transport's answer to the one planned request |
| ClientProperties.AquaGlycerinAnalysis | src/client.ts:132-141 | `analyze(["Aqua", "Glycerin"])` POSTs that list to `<baseUrl>/analyze` and, on a 200 response, returns the parsed body unchanged |

## Left out

- `fetch` and `response.json()` are I/O. They are replaced by the transport
  parameter and the two optional views of a response body.
- `JSON.stringify({ ingredients })` is serialisation. The request carries the
  value it serialises, `IngredientsBody(ingredients)`, instead of its text.
- The `async`/`Promise` machinery is not modelled. A thrown error is a
  `Failure` result.
- The JavaScript type guards (`typeof … !== 'string'`, `Array.isArray`,
  `!config.apiKey`, `!name`) are not modelled: Dafny's types already exclude
  non-string keys and names and non-array lists. A `null` or `undefined` key or
  name is not representable, and an empty string is covered by the blank check.
- Lone UTF-16 surrogates are not modelled. Dafny characters are Unicode scalar
  values, so the `URIError` that `encodeURIComponent` throws for a lone
  surrogate cannot arise.
- Non-string `message` or `error` fields in an error body are not modelled: the
  error body has only the string fields the client reads. A JSON `null` body
  makes the field access throw inside the same `try`, so it is the `None` case.
- Headers are modelled with exact-case keys only. Case-insensitive header
  names, caller headers given as a `Headers` object or as a list of pairs, and
  the `RequestInit` fields other than `method`, `body` and `headers` are not
  modelled.
- The error classes' `name` and prototype plumbing are not modelled; an
  `ErrorKind` constructor stands for each class. `NotImplementedError` is not
  modelled because the client never throws it.
- The payload shapes of `src/types.ts` are not modelled. A success payload is
  the generic `T`.
- The test file expects a placeholder message that the client never produces,
  so no property is taken from it.
