/** Properties of the client model that relate several calls or several operations. */
module ClientProperties {
  import opened Wrappers
  import opened Text
  import opened Uri
  import opened Errors
  import opened Http
  import opened Client

  // ---- trim ----------------------------------------------------------------

  /** A whitespace prefix followed by anything else is exactly the leading count. */
  lemma LeadingCountOf(p: string, x: string)
    requires AllWhitespace(p) && (x == [] || !IsWhitespace(x[0]))
    ensures LeadingCount(p + x) == |p|
  {
    var s := p + x;
    var k := LeadingCount(s);
    if x != [] {
      assert s[|p|] == x[0];
    }
    assert forall i :: 0 <= i < |p| ==> s[i] == p[i];
  }

  /** A whitespace suffix preceded by anything else is exactly the trailing count. */
  lemma TrailingCountOf(x: string, q: string)
    requires AllWhitespace(q) && (x == [] || !IsWhitespace(x[|x| - 1]))
    ensures TrailingCount(x + q) == |q|
  {
    var s := x + q;
    if x != [] {
      assert s[|x| - 1] == x[|x| - 1];
    }
    assert forall i :: |x| <= i < |s| ==> s[i] == q[i - |x|];
  }

  /** A string is blank exactly when every character of it is whitespace. */
  lemma BlankIffAllWhitespace(s: string)
    ensures IsBlank(s) <==> AllWhitespace(s)
  {
    var r := Trim(s);
    var i, j :| 0 <= i <= j <= |s| && r == s[i..j] && AllWhitespace(s[..i]) && AllWhitespace(s[j..]);
    if r == [] {
      forall k | 0 <= k < |s| ensures IsWhitespace(s[k]) {
        if k < i { assert s[k] == s[..i][k]; } else { assert s[k] == s[j..][k - j]; }
      }
    }
    if AllWhitespace(s) {
      assert s + [] == s;
      LeadingCountOf(s, []);
    }
  }

  /**
   * Trim is determined by what it promises: whatever is wrapped in
   * whitespace on both sides, and has none at its own ends, is what trim
   * returns.
   */
  lemma TrimUnique(p: string, m: string, q: string)
    requires AllWhitespace(p) && AllWhitespace(q) && IsTrimmed(m)
    ensures Trim(p + m + q) == m
  {
    var s := p + m + q;
    if m == [] {
      assert AllWhitespace(s) by {
        forall k | 0 <= k < |s| ensures IsWhitespace(s[k]) {
          if k < |p| { assert s[k] == p[k]; } else { assert s[k] == q[k - |p|]; }
        }
      }
      BlankIffAllWhitespace(s);
    } else {
      assert s == p + (m + q);
      LeadingCountOf(p, m + q);
      assert s[|p|..] == m + q;
      TrailingCountOf(m, q);
      assert s[|p|..|p| + |m|] == m;
    }
  }

  /** Trimming twice is trimming once. */
  lemma TrimIdempotent(s: string)
    ensures Trim(Trim(s)) == Trim(s)
  {
    var t := Trim(s);
    TrimUnique([], t, []);
    assert [] + t + [] == t;
  }

  /** A string with no whitespace at its ends is its own trim. */
  lemma TrimOfTrimmed(s: string)
    requires IsTrimmed(s)
    ensures Trim(s) == s
  {
    TrimUnique([], s, []);
    assert [] + s + [] == s;
  }

  // ---- status rendering ------------------------------------------------------

  /** The numeral of a status reads back as that status. */
  lemma {:induction false} DecimalRoundTrip(n: nat)
    ensures DecimalValue(DecimalString(n)) == n
  {
    if n >= 10 {
      DecimalRoundTrip(n / 10);
      var d := DecimalString(n / 10);
      var s := d + [DigitChar(n % 10)];
      assert s[..|s| - 1] == d;
    }
  }

  /** Different statuses give different fallback messages. */
  lemma FallbackIdentifiesStatus(s1: nat, s2: nat, statusText: string)
    requires FallbackMessage(s1, statusText) == FallbackMessage(s2, statusText)
    ensures s1 == s2
  {
    var d1, d2 := DecimalString(s1), DecimalString(s2);
    assert |d1| == |d2|;
    assert d1 == FallbackMessage(s1, statusText)[5..5 + |d1|];
    assert d2 == FallbackMessage(s2, statusText)[5..5 + |d2|];
    DecimalRoundTrip(s1);
    DecimalRoundTrip(s2);
  }

  // ---- base URL --------------------------------------------------------------

  /** `"https://x/"` and `"https://x"` configure the same base URL. */
  lemma TrailingSlashIrrelevant(x: string)
    requires x != "" && x[|x| - 1] != '/'
    ensures NormalizeBaseUrl(Some(x + "/")) == NormalizeBaseUrl(Some(x)) == x
  {
    assert (x + "/")[..|x|] == x;
  }

  /** Only one slash is removed: `"https://x//"` keeps one. */
  lemma OnlyOneSlashStripped(x: string)
    ensures NormalizeBaseUrl(Some(x + "//")) == x + "/"
  {
    assert (x + "//")[..|x| + 1] == x + "/";
  }

  /** A base URL of a single `/` becomes the empty string: the default is not chosen again after stripping. */
  lemma SlashOnlyBaseUrlIsEmpty(x: string)
    requires x == "/"
    ensures NormalizeBaseUrl(Some(x)) == ""
  {
  }

  // ---- error messages and classification ---------------------------------------

  /**
   * An error body that does not parse is treated like one without usable
   * fields: both give the `HTTP <status>: <statusText>` text.
   */
  lemma UnparsedBodyLikeEmptyBody(status: nat, statusText: string, message: Option<string>, error: Option<string>)
    requires !IsTruthy(message) && !IsTruthy(error)
    ensures ExtractMessage(status, statusText, None) == ExtractMessage(status, statusText, Some(ErrorBody(message, error)))
  {
  }

  /**
   * The taxonomy of one request: which error kinds a transport outcome can
   * lead to, and from which outcomes.
   */
  lemma OutcomeTaxonomy<T>(t: Transport<T>)
    ensures Interpret(t).Failure? && Interpret(t).error.Authentication?
            <==> t.Received? && (t.response.status == 401 || t.response.status == 403)
    ensures Interpret(t).Failure? && Interpret(t).error.NotFound? <==> t.Received? && t.response.status == 404
    ensures Interpret(t).Failure? && Interpret(t).error.RateLimit? <==> t.Received? && t.response.status == 429
    ensures Interpret(t).Failure? && Interpret(t).error.Validation? <==> t.Received? && t.response.status == 400
    ensures Interpret(t).Failure? && Interpret(t).error.Api? <==>
              || t.NetworkFailure?
              || (IsOk(t.response.status) && t.response.payload.None?)
              || (!IsOk(t.response.status) && !(t.response.status in {400, 401, 403, 404, 429}))
  {
  }

  /** Every error a response (rather than the network) causes carries a non-empty message. */
  lemma ResponseErrorsHaveMessages<T>(response: Response<T>)
    requires Interpret(Received(response)).Failure?
    ensures Interpret(Received(response)).error.message != ""
  {
  }

  // ---- domain operations ---------------------------------------------------------

  /** A blank ingredient name fails the same way whatever the transport would do: no request is made. */
  lemma BlankNameSendsNothing<T>(client: Dermalytics, name: string, f: HttpRequest -> Transport<T>, g: HttpRequest -> Transport<T>)
    requires client.Valid()
    requires IsBlank(name)
    ensures client.GetIngredient(name, f) == client.GetIngredient(name, g) == Failure(Validation(IngredientNameRequired))
  {
  }

  /** An empty ingredient list fails the same way whatever the transport would do: no request is made. */
  lemma EmptyListSendsNothing<T>(client: Dermalytics, f: HttpRequest -> Transport<T>, g: HttpRequest -> Transport<T>)
    requires client.Valid()
    ensures client.Analyze([], f) == client.Analyze([], g) == Failure(Validation(IngredientsRequired))
  {
  }

  /**
   * A valid lookup makes exactly one request: two transports that answer
   * the planned request alike give the same result.
   */
  lemma LookupDependsOnOneRequest<T>(client: Dermalytics, name: string, f: HttpRequest -> Transport<T>, g: HttpRequest -> Transport<T>)
    requires client.Valid()
    requires !IsBlank(name)
    requires f(client.IngredientCall(name).value) == g(client.IngredientCall(name).value)
    ensures client.GetIngredient(name, f) == client.GetIngredient(name, g)
  {
  }

  /**
   * A valid analysis makes exactly one request: two transports that answer
   * the planned request alike give the same result.
   */
  lemma AnalysisDependsOnOneRequest<T>(client: Dermalytics, ingredients: seq<string>, f: HttpRequest -> Transport<T>, g: HttpRequest -> Transport<T>)
    requires client.Valid()
    requires ingredients != []
    requires f(client.AnalyzeCall(ingredients).value) == g(client.AnalyzeCall(ingredients).value)
    ensures client.Analyze(ingredients, f) == client.Analyze(ingredients, g)
  {
  }

  /**
   * The encoded name is one path segment: after `/ingredients/` there is
   * no `/`, `?` or `#`.
   */
  lemma IngredientNameIsOneSegment(name: string, k: nat)
    requires |IngredientsPath| <= k < |IngredientsPath + EncodeUriComponent(Trim(name))|
    ensures var c := (IngredientsPath + EncodeUriComponent(Trim(name)))[k]; c != '/' && c != '?' && c != '#'
  {
    var encoded := EncodeUriComponent(Trim(name));
    var c := encoded[k - |IngredientsPath|];
    assert (IngredientsPath + encoded)[k] == c;
    assert IsUnreserved(c) || c == '%';
  }

  /** Names that differ after trimming have different endpoints: the encoding loses nothing. */
  lemma DistinctNamesDistinctEndpoints(a: string, b: string)
    requires Trim(a) != Trim(b)
    ensures IngredientEndpoint(a) != IngredientEndpoint(b)
  {
    var ea, eb := EncodeUriComponent(Trim(a)), EncodeUriComponent(Trim(b));
    assert IngredientEndpoint(a)[|IngredientsPath|..] == ea;
    assert IngredientEndpoint(b)[|IngredientsPath|..] == eb;
    UriRoundTrip(Trim(a));
    UriRoundTrip(Trim(b));
  }

  /** Lookups of names that differ after trimming request different URLs. */
  lemma DistinctNamesDistinctUrls(client: Dermalytics, a: string, b: string)
    requires client.Valid()
    requires !IsBlank(a) && !IsBlank(b) && Trim(a) != Trim(b)
    ensures client.IngredientCall(a).value.url != client.IngredientCall(b).value.url
  {
    DistinctNamesDistinctEndpoints(a, b);
    var ua, ub := client.IngredientCall(a).value.url, client.IngredientCall(b).value.url;
    assert ua[|client.baseUrl|..] == IngredientEndpoint(a);
    assert ub[|client.baseUrl|..] == IngredientEndpoint(b);
  }

  /** A name made of unreserved characters, without surrounding whitespace, is sent as written. */
  lemma PlainNameSentVerbatim<T>(client: Dermalytics, name: string, fetch: HttpRequest -> Transport<T>)
    requires client.Valid()
    requires name != [] && AllUnreserved(name)
    ensures client.GetIngredient(name, fetch)
            == Interpret(fetch(HttpRequest("GET", client.baseUrl + (IngredientsPath + name), client.DefaultHeaders(), None)))
  {
    assert !IsWhitespace(name[0]) && !IsWhitespace(name[|name| - 1]);
    TrimOfTrimmed(name);
  }

  /**
   * `getIngredient("Niacinamide")` sends a GET of `<baseUrl>/ingredients/` followed by the name as written
   * and, on a 200 response, returns the body unchanged. The name is passed
   * as a parameter equal to `"Niacinamide"`.
   */
  lemma NiacinamideLookup<T>(client: Dermalytics, name: string, fetch: HttpRequest -> Transport<T>, body: T, errorBody: Option<ErrorBody>)
    requires client.Valid()
    requires name == "Niacinamide"
    requires fetch(HttpRequest("GET", client.baseUrl + (IngredientsPath + name), client.DefaultHeaders(), None))
             == Received(Response(200, "OK", Some(body), errorBody))
    ensures client.GetIngredient(name, fetch) == Success(body)
  {
    assert AllUnreserved(name);
    PlainNameSentVerbatim(client, name, fetch);
  }

  /** `analyze(["Aqua", "Glycerin"])` posts that list and, on a 200 response, returns the body unchanged. */
  lemma AquaGlycerinAnalysis<T>(client: Dermalytics, fetch: HttpRequest -> Transport<T>, body: T, errorBody: Option<ErrorBody>)
    requires client.Valid()
    requires fetch(HttpRequest("POST", client.baseUrl + "/analyze", client.DefaultHeaders(), Some(IngredientsBody(["Aqua", "Glycerin"]))))
             == Received(Response(200, "OK", Some(body), errorBody))
    ensures client.Analyze(["Aqua", "Glycerin"], fetch) == Success(body)
  {
  }
}
