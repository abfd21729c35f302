/**
 * The request dispatcher: the status rule that decides whether a response
 * yields its body or raises `ResponseError`, the log label that follows the
 * same rule, and `runFetch`, which renders the URL, merges the client's and
 * the call's fetch options, builds the header table and hands the request
 * to the fetch library. The fetch library itself is outside the model: the
 * response it returns is a parameter.
 */
module StaticClient {
  import opened Wrappers
  import opened Text
  import opened Records
  import opened Resources
  import opened FetchHeaders
  import opened Clients

  // ---------------------------------------------------------------------
  // Responses
  // ---------------------------------------------------------------------

  /** The parts of a fetch `Response` the dispatcher reads; `body` is the text `response.text()` resolves to. */
  datatype Response = Response(status: int, statusText: string, body: string)
  {
    /** `response.ok` */
    predicate Ok()
    {
      200 <= status <= 299
    }
  }

  /** `response.ok || response.status === 304`: 2xx, or Not Modified answered from the cache. */
  predicate Accepted(response: Response)
  {
    response.Ok() || response.status == 304
  }

  /** `ResponseError`: an error that carries the response it was raised for. */
  datatype ResponseError = ResponseError(response: Response)
  {
    /** `${response.status} ${response.statusText}` */
    function Message(): string
    {
      IntToString(response.status) + " " + response.statusText
    }
  }

  /** The message reads back as the status, a space, and the status text. */
  lemma ResponseErrorMessage(e: ResponseError)
    ensures var m := e.Message();
      var i := IndexOf(m, ' ');
      i.Some? && ParseInt(m[..i.value]) == e.response.status && m[i.value + 1..] == e.response.statusText
  {
    var digits := IntToString(e.response.status);
    ParseIntToString(e.response.status);
    assert ' ' !in digits by {
      forall j | 0 <= j < |digits| ensures digits[j] != ' ' {
        assert digits[j] == '-' || IsDigit(digits[j]);
      }
    }
    IndexOfSplit(digits, ' ', e.response.statusText);
    var m := e.Message();
    assert m == digits + [' '] + e.response.statusText;
    assert m[..|digits|] == digits;
    assert m[|digits| + 1..] == e.response.statusText;
  }

  /** What `response.json()` would be given: `{}` for an empty body, otherwise the body's JSON text. */
  datatype Dto = EmptyObject | Json(text: string)

  /**
   * `getObjectFromResponse`: a 2xx or 304 response yields its body, an
   * empty body yielding the empty object; any other status, including the
   * other 3xx codes, raises a `ResponseError` carrying the response.
   */
  function GetObjectFromResponse(response: Response): (r: Result<Dto, ResponseError>)
    ensures r.Success? <==> Accepted(response)
    ensures r.Failure? ==> r.error.response == response
    ensures r.Success? ==> (r.value.EmptyObject? <==> response.body == "")
    ensures r.Success? && r.value.Json? ==> r.value.text == response.body
  {
    if Accepted(response) then
      Success(if response.body != "" then Json(response.body) else EmptyObject)
    else
      Failure(ResponseError(response))
  }

  /** The label `logResponse` writes. */
  function LogLabel(response: Response): string
  {
    if response.Ok() || response.status == 304 then "successful" else "unsuccessful"
  }

  /** `Response: <label> <status> <statusText>` */
  function LogMessage(response: Response): string
  {
    "Response: " + LogLabel(response) + " " + IntToString(response.status) + " " + response.statusText
  }

  /** After the `Response: <label> ` prefix, the log line is the text of the `ResponseError` for the same response. */
  lemma LogMessageReadsBack(response: Response)
    ensures var m := LogMessage(response);
      var head := "Response: " + LogLabel(response) + " ";
      |head| <= |m| && m[..|head|] == head && m[|head|..] == ResponseError(response).Message()
  {
    var head := "Response: " + LogLabel(response) + " ";
    var m := LogMessage(response);
    assert m == head + ResponseError(response).Message();
  }

  /** The log calls a response successful exactly when its body is returned rather than raised. */
  lemma LogLabelAgrees(response: Response)
    ensures LogLabel(response) == "successful" <==> GetObjectFromResponse(response).Success?
    ensures LogLabel(response) == "unsuccessful" <==> GetObjectFromResponse(response).Failure?
  {
  }

  /** 200, 201 and 304 are logged as successful; 301 and 404 are not. */
  lemma LogLabelExamples(statusText: string, body: string)
    ensures LogLabel(Response(200, statusText, body)) == "successful"
    ensures LogLabel(Response(201, statusText, body)) == "successful"
    ensures LogLabel(Response(304, statusText, body)) == "successful"
    ensures LogLabel(Response(301, statusText, body)) == "unsuccessful"
    ensures LogLabel(Response(404, statusText, body)) == "unsuccessful"
  {
  }

  // ---------------------------------------------------------------------
  // runFetch
  // ---------------------------------------------------------------------

  datatype Verb = Delete | Get | Patch | Post | Put

  /** The method name `runFetch` is called with. */
  function MethodName(verb: Verb): string
  {
    match verb
    case Delete => "delete"
    case Get => "get"
    case Patch => "patch"
    case Post => "post"
    case Put => "put"
  }

  /** Every verb has its own method name. */
  lemma MethodNamesDistinct(a: Verb, b: Verb)
    ensures MethodName(a) == MethodName(b) <==> a == b
  {
    if a != b {
      assert MethodName(a)[0] != MethodName(b)[0] || MethodName(a)[1] != MethodName(b)[1];
    }
  }

  /**
   * The options a call passes to `runFetch`. `body` is the JSON text
   * `JSON.stringify` makes of the call's body, `None` for an undefined body.
   */
  datatype CallOptions = CallOptions(
    path: string,
    pathParameters: Option<Record<Option<string>>>,
    queryParameters: Option<Record<QueryValue>>,
    headers: Option<Record<string>>,
    rawResponse: bool,
    retrySettings: Option<Record<RetryOption>>,
    body: Option<string>)

  /** The options handed to the fetch library, after `pickBy` and with the headers as a plain object. */
  datatype FetchOptions = FetchOptions(
    httpMethod: string,
    headers: map<string, string>,
    retry: Option<Record<RetryOption>>,
    body: Option<string>,
    cacheManager: Option<CacheManager>)

  datatype Request = Request(url: string, options: FetchOptions)

  /** The URL: a `Resource` over the client's base URI and parameters and the call's path and parameters. */
  function RequestUrl(config: ClientConfig, options: CallOptions): Result<string, RenderError>
  {
    NewResource(config.baseUri, config.parameters, Some(options.path), options.pathParameters, options.queryParameters).ToString()
  }

  /**
   * `_.merge({}, defaultsFromClientConfig, currentOptionsFromRequest)`
   * followed by `_.pickBy(finalOptions, _.identity)`, with `headers` the
   * plain object the header table flattens to. The call's retry settings
   * are merged key by key over the client's; a `null` or missing cache
   * manager, missing retry settings and an undefined or empty body are
   * dropped.
   */
  function Options(verb: Verb, config: ClientConfig, options: CallOptions, headers: map<string, string>): (r: FetchOptions)
    ensures r.httpMethod == MethodName(verb) && r.headers == headers
    ensures r.retry.Some? <==> config.retrySettings.Some? || options.retrySettings.Some?
    ensures r.retry.Some? ==> forall k ::
      (k in r.retry.value.values <==>
        (config.retrySettings.Some? && k in config.retrySettings.value.values) ||
        (options.retrySettings.Some? && k in options.retrySettings.value.values))
    ensures r.retry.Some? ==> forall k :: k in r.retry.value.values ==>
      r.retry.value.values[k] ==
        if options.retrySettings.Some? && k in options.retrySettings.value.values
        then options.retrySettings.value.values[k]
        else config.retrySettings.value.values[k]
    ensures r.cacheManager.Some? <==> config.cacheManager.Given?
    ensures r.cacheManager.Some? ==> r.cacheManager.value == config.cacheManager.value
    ensures r.body.Some? <==> options.body.Some? && options.body.value != ""
    ensures r.body.Some? ==> r.body == options.body
  {
    // the merge: the request sets `method`, `retry` and `body`; the client sets `cacheManager` and `retry`
    var cacheManager := config.cacheManager;
    var retry := MergeRecord(MergeRecord(None, config.retrySettings), options.retrySettings);
    MergedRetry(config.retrySettings, options.retrySettings);
    var body := options.body;
    // `pickBy(identity)`: objects and non-empty strings are truthy
    FetchOptions(
      MethodName(verb),
      headers,
      retry,
      if body.Some? && body.value != "" then body else None,
      if cacheManager.Given? then Some(cacheManager.value) else None)
  }

  /** The call's retry settings merged key by key over the client's, both merged into `{}`. */
  lemma MergedRetry(client: Option<Record<RetryOption>>, call: Option<Record<RetryOption>>)
    ensures var r := MergeRecord(MergeRecord(None, client), call);
      (r.Some? <==> client.Some? || call.Some?) &&
      (r.Some? ==> forall k ::
        (k in r.value.values <==> (client.Some? && k in client.value.values) || (call.Some? && k in call.value.values))) &&
      (r.Some? ==> forall k :: k in r.value.values ==>
        r.value.values[k] == if call.Some? && k in call.value.values then call.value.values[k] else client.value.values[k])
  {
  }

  /** The request `runFetch` makes, or the error rendering its URL raises. */
  function RequestFor(verb: Verb, config: ClientConfig, options: CallOptions): Result<Request, RenderError>
  {
    var url :- RequestUrl(config, options);
    var headers := EffectiveHeaders(config.headers.GetOr(Empty()), options.headers.GetOr(Empty()));
    Success(Request(url, Options(verb, config, options, headers)))
  }

  /** What a failed call raises. */
  datatype Failure = RenderFailed(renderError: RenderError) | ResponseFailed(responseError: ResponseError)

  /** What `runFetch` resolves to, or raises. */
  datatype Outcome = RawResponse(response: Response) | Object(dto: Dto) | Thrown(failure: Failure)

  /**
   * `options.rawResponse ? response : getObjectFromResponse(response)`:
   * the raw response whatever its status, or the body when the status is
   * accepted, or the `ResponseError`.
   */
  function Settle(options: CallOptions, response: Response): (r: Outcome)
    ensures r.RawResponse? <==> options.rawResponse
    ensures r.RawResponse? ==> r.response == response
    ensures !options.rawResponse ==> (r.Object? <==> Accepted(response))
    ensures r.Thrown? ==> r.failure == ResponseFailed(ResponseError(response))
    ensures r.Object? ==> GetObjectFromResponse(response) == Success(r.dto)
    ensures r.Object? ==> (r.dto.EmptyObject? <==> response.body == "") && (r.dto.Json? ==> r.dto.text == response.body)
    ensures !options.rawResponse && GetObjectFromResponse(response).Success? ==>
      r == Object(GetObjectFromResponse(response).value)
  {
    if options.rawResponse then RawResponse(response)
    else
      match GetObjectFromResponse(response)
      case Success(dto) => Object(dto)
      case Failure(e) => Thrown(ResponseFailed(e))
  }

  /**
   * A call with `verb` and `options` on a client configured with `config`,
   * answered with `response`, makes `request` and ends in `outcome`: a URL
   * that fails to render raises before any request is made.
   */
  predicate Dispatches(verb: Verb, config: ClientConfig, options: CallOptions, response: Response,
                       request: Option<Request>, outcome: Outcome)
  {
    match RequestFor(verb, config, options)
    case Failure(e) => request == None && outcome == Thrown(RenderFailed(e))
    case Success(q) => request == Some(q) && outcome == Settle(options, response)
  }

  /**
   * `runFetch(method, options)`; `response` stands for what the fetch
   * library answers to the request.
   */
  method RunFetch(verb: Verb, client: BaseClient, options: CallOptions, response: Response)
    returns (request: Option<Request>, outcome: Outcome)
    ensures Dispatches(verb, client.clientConfig, options, response, request, outcome)
  {
    var config := client.clientConfig;
    var url := RequestUrl(config, options);
    if url.Failure? {
      return None, Thrown(RenderFailed(url.error));
    }
    var clientHeaders := config.headers.GetOr(Empty());
    var callHeaders := options.headers.GetOr(Empty());
    var headers := new Headers(clientHeaders);
    ghost var start := headers.table;
    var i := 0;
    while i < |callHeaders.keys|
      invariant 0 <= i <= |callHeaders.keys|
      invariant headers.Valid()
      invariant headers.table == SetAll(start, callHeaders.keys[..i], callHeaders.values)
    {
      var name := callHeaders.keys[i];
      SetAllNext(start, callHeaders.keys, callHeaders.values, i);
      headers.Set(name, callHeaders.values[name]);
      i := i + 1;
    }
    assert callHeaders.keys[..i] == callHeaders.keys;
    var finalOptions := Options(verb, config, options, headers.Flatten());
    request := Some(Request(url.value, finalOptions));
    outcome := Settle(options, response);
    RequestBuilt(verb, config, options, url.value, headers.table);
  }

  /** The loop over call-site headers sets one more of them. */
  lemma SetAllNext(t: Table, keys: seq<string>, from: map<string, string>, i: nat)
    requires i < |keys|
    requires forall k :: k in keys ==> k in from
    ensures SetAll(t, keys[..i + 1], from) == Replaced(SetAll(t, keys[..i], from), keys[i], from[keys[i]])
  {
    assert keys[..i + 1][..i] == keys[..i];
  }

  /** The request `runFetch` makes from the rendered URL and the headers it built. */
  lemma RequestBuilt(verb: Verb, config: ClientConfig, options: CallOptions, url: string, t: Table)
    requires RequestUrl(config, options) == Success(url)
    requires t == SetAll(AppendAll(Empty(), config.headers.GetOr(Empty()).keys, config.headers.GetOr(Empty()).values),
                         options.headers.GetOr(Empty()).keys, options.headers.GetOr(Empty()).values)
    requires Consistent(t)
    ensures RequestFor(verb, config, options) == Success(Request(url, Options(verb, config, options, Flattened(t))))
  {
  }

  /** `_get(options)` */
  method GetRequest(client: BaseClient, options: CallOptions, response: Response)
    returns (request: Option<Request>, outcome: Outcome)
    ensures Dispatches(Get, client.clientConfig, options, response, request, outcome)
  {
    request, outcome := RunFetch(Get, client, options, response);
  }

  /** `_delete(options)` */
  method DeleteRequest(client: BaseClient, options: CallOptions, response: Response)
    returns (request: Option<Request>, outcome: Outcome)
    ensures Dispatches(Delete, client.clientConfig, options, response, request, outcome)
  {
    request, outcome := RunFetch(Delete, client, options, response);
  }

  /** `_patch(options)` */
  method PatchRequest(client: BaseClient, options: CallOptions, response: Response)
    returns (request: Option<Request>, outcome: Outcome)
    ensures Dispatches(Patch, client.clientConfig, options, response, request, outcome)
  {
    request, outcome := RunFetch(Patch, client, options, response);
  }

  /** `_post(options)` */
  method PostRequest(client: BaseClient, options: CallOptions, response: Response)
    returns (request: Option<Request>, outcome: Outcome)
    ensures Dispatches(Post, client.clientConfig, options, response, request, outcome)
  {
    request, outcome := RunFetch(Post, client, options, response);
  }

  /** `_put(options)` */
  method PutRequest(client: BaseClient, options: CallOptions, response: Response)
    returns (request: Option<Request>, outcome: Outcome)
    ensures Dispatches(Put, client.clientConfig, options, response, request, outcome)
  {
    request, outcome := RunFetch(Put, client, options, response);
  }

  /** Two verbs make the same request but for the method name, and end the same way. */
  lemma VerbsDifferOnlyInMethod(a: Verb, b: Verb, config: ClientConfig, options: CallOptions)
    ensures RequestFor(a, config, options).Success? <==> RequestFor(b, config, options).Success?
    ensures RequestFor(a, config, options).Failure? ==> RequestFor(a, config, options) == RequestFor(b, config, options)
    ensures RequestFor(a, config, options).Success? ==>
      var p, q := RequestFor(a, config, options).value, RequestFor(b, config, options).value;
      p.url == q.url && p.options.httpMethod == MethodName(a) && q.options.httpMethod == MethodName(b) &&
      p.options.(httpMethod := "") == q.options.(httpMethod := "")
  {
  }

  /** Client headers whose names differ only in case travel as one header, their values joined by ", " in order. */
  lemma CaseVariantsJoined(a: string, b: string, x: string, y: string, call: Record<string>, m: string)
    requires a != b && SameName(a, b) && SameName(a, m)
    requires LastMatch(call.keys, call.values, m).None?
    ensures var client: Record<string> := FromPairs([(a, x), (b, y)]);
      Lower(m) in EffectiveHeaders(client, call) &&
      EffectiveHeaders(client, call)[Lower(m)] == x + ", " + y
  {
    var client: Record<string> := FromPairs([(a, x), (b, y)]);
    MatchingTwo(a, b, x, y, m);
    EffectiveHeadersValues(client, call, m);
    assert Join([x, y], ", ") == x + ", " + y;
  }

  lemma MatchingTwo(a: string, b: string, x: string, y: string, m: string)
    requires a != b && SameName(a, m) && SameName(b, m)
    ensures var client: Record<string> := FromPairs([(a, x), (b, y)]);
      Matching(client.keys, client.values, m) == [x, y]
  {
    var client: Record<string> := FromPairs([(a, x), (b, y)]);
    FromTwoPairs(a, b, x, y);
    MatchingPair(client.keys, client.values, a, b, x, y, m);
  }

  lemma MatchingPair(keys: seq<string>, from: map<string, string>, a: string, b: string, x: string, y: string, m: string)
    requires keys == [a, b] && from == map[a := x, b := y] && a != b
    requires SameName(a, m) && SameName(b, m)
    ensures Matching(keys, from, m) == [x, y]
  {
    var one := keys[..1];
    assert one == [a];
    assert Matching(one, from, m) == [x] by {
      assert one[..0] == [];
    }
    assert Matching(keys, from, m) == Matching(one, from, m) + [y];
  }

  lemma FromTwoPairs<V>(a: string, b: string, x: V, y: V)
    requires a != b
    ensures FromPairs([(a, x), (b, y)]).keys == [a, b]
    ensures FromPairs([(a, x), (b, y)]).values == map[a := x, b := y]
  {
    var pairs := [(a, x), (b, y)];
    assert pairs[..1] == [(a, x)];
    assert pairs[..1][..0] == [];
    var none: Record<V> := FromPairs(pairs[..1][..0]);
    assert none == Empty();
    var one := FromPairs(pairs[..1]);
    assert one == Records.Put(none, a, x);
    assert one.keys == [a] && one.values == map[a := x];
    assert FromPairs(pairs) == Records.Put(one, b, y);
  }

  /** With no configuration and no call-site headers, a request carries the default headers. */
  lemma DefaultRequestHeaders(cache: CacheManager, verb: Verb, options: CallOptions)
    requires options.headers.None?
    requires RequestFor(verb, Configured(cache, None), options).Success?
    ensures RequestFor(verb, Configured(cache, None), options).value.options.headers ==
      map["content-type" := "application/json", "connection" := "close"]
  {
    var config := Configured(cache, None);
    calc {
      RequestFor(verb, config, options).value.options.headers;
      { RequestHeaders(verb, config, options); }
      EffectiveHeaders(config.headers.GetOr(Empty()), options.headers.GetOr(Empty()));
      { DefaultsWithoutUserConfig(cache); }
      EffectiveHeaders(DefaultHeaders(), Empty());
      { DefaultHeaderTable(); }
      map["content-type" := "application/json", "connection" := "close"];
    }
  }

  /** A request carries the effective headers of the client's and the call's headers. */
  lemma RequestHeaders(verb: Verb, config: ClientConfig, options: CallOptions)
    requires RequestFor(verb, config, options).Success?
    ensures RequestFor(verb, config, options).value.options.headers ==
      EffectiveHeaders(config.headers.GetOr(Empty()), options.headers.GetOr(Empty()))
  {
  }

  lemma DefaultHeaderTable()
    ensures EffectiveHeaders(DefaultHeaders(), Empty()) == map["content-type" := "application/json", "connection" := "close"]
  {
    var client := DefaultHeaders();
    var t := DefaultsAppended();
    AppendFromEmpty(client, "");
    var e: Table := Empty();
    assert SetAll(t, e.keys, map[]) == t;
    FlattenedDefaults(t);
  }

  lemma DefaultsAppended() returns (t: Table)
    ensures t == AppendAll(Empty(), DefaultHeaders().keys, DefaultHeaders().values)
    ensures t.values == map["content-type" := ["application/json"], "connection" := ["close"]]
  {
    var ct, cn := "content-type", "connection";
    var client := DefaultHeaders();
    FromTwoPairs(ct, cn, "application/json", "close");
    assert !SameName(ct, cn) by {
      assert |Lower(ct)| != |Lower(cn)|;
    }
    t := AppendAll(Empty(), client.keys, client.values);
    AppendTwo(Empty(), client.keys, client.values, ct, cn, "application/json", "close");
  }

  /** Two headers of different names appended into an empty table. */
  lemma AppendTwo(e: Table, keys: seq<string>, from: map<string, string>, a: string, b: string, x: string, y: string)
    requires e.values == map[]
    requires keys == [a, b] && from == map[a := x, b := y] && !SameName(a, b)
    ensures AppendAll(e, keys, from).values == map[a := [x], b := [y]]
  {
    var one := keys[..1];
    assert one == [a] && one[..0] == [];
    assert AppendAll(e, one[..0], from) == e;
    var t1 := AppendAll(e, one, from);
    assert t1 == Appended(e, a, x);
    AppendedFresh(e, a, x);
    assert AppendAll(e, keys, from) == Appended(t1, b, y);
    AppendedFresh(t1, b, y);
  }

  lemma AppendedFresh(t: Table, name: string, value: string)
    requires forall k :: k in t.values ==> !SameName(k, name)
    ensures Appended(t, name, value).values == t.values[name := [value]]
  {
    assert Find(t, name).None?;
  }

  lemma FlattenedDefaults(t: Table)
    requires t.values == map["content-type" := ["application/json"], "connection" := ["close"]]
    ensures Consistent(t)
    ensures Flattened(t) == map["content-type" := "application/json", "connection" := "close"]
  {
    var ct, cn := "content-type", "connection";
    LowerUnchanged(ct);
    LowerUnchanged(cn);
    assert |Lower(ct)| != |Lower(cn)|;
    FlattenedTwo(t, ct, cn, "application/json", "close");
  }

  lemma FlattenedTwo(t: Table, a: string, b: string, x: string, y: string)
    requires t.values == map[a := [x], b := [y]]
    requires Lower(a) == a && Lower(b) == b && a != b
    ensures Consistent(t)
    ensures Flattened(t) == map[a := x, b := y]
  {
    ConsistentTwo(t, a, b, x, y);
    var f := Flattened(t);
    assert f.Keys == {a, b} by {
      FlattenedTwoKeys(t, a, b, x, y);
    }
    assert f[a] == x by {
      JoinOne(x, ", ");
    }
    assert f[b] == y by {
      JoinOne(y, ", ");
    }
  }

  lemma ConsistentTwo(t: Table, a: string, b: string, x: string, y: string)
    requires t.values == map[a := [x], b := [y]]
    requires Lower(a) == a && Lower(b) == b && a != b
    ensures Consistent(t)
  {
    assert t.values.Keys == {a, b};
  }

  lemma FlattenedTwoKeys(t: Table, a: string, b: string, x: string, y: string)
    requires t.values == map[a := [x], b := [y]]
    requires Lower(a) == a && Lower(b) == b && a != b
    requires Consistent(t)
    ensures Flattened(t).Keys == {a, b}
  {
    var f := Flattened(t);
    assert a in f by {
      assert a in t.values;
    }
    assert b in f by {
      assert b in t.values;
    }
    forall n | n in f ensures n == a || n == b {
      var k :| k in t.values && Lower(k) == n;
    }
  }

  lemma JoinOne(x: string, sep: string)
    ensures Join([x], sep) == x
  {
  }
}
