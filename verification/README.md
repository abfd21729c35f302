# commerce-sdk-core request building, in Dafny

This project models the request-building core of the Salesforce Commerce
Cloud SDK core library (commerce-sdk-core) and proves properties of the model.
It covers three source files:

- **`Resource`** (`src/base/resource.ts`) turns a base-URI template, a path
  template and query parameters into a URL.
  - Each `{name}` placeholder is filled from its own parameter object. A
    missing value raises "Failed to find a value for required path parameter
    '<name>'".
  - The query string is written with qs: comma format for ordinary keys and
    repeated format for `refine`. Encoding follows RFC 3986: unreserved
    characters stay as they are; every other character is written as its
    UTF-8 bytes in `%XX` form.
- **The dispatcher** (`src/base/staticClient.ts`):
  - The status rule: a 2xx or 304 response yields its body, an empty body
    yields `{}`, and any other status raises `ResponseError`.
  - The `ResponseError` message and the success label of the response log.
  - `runFetch`, which:
    1. renders the URL;
    2. merges the client's and the call's fetch options with lodash `merge`
       and `pickBy`;
    3. loads the client headers into a minipass-fetch `Headers` table;
    4. sets the call-site headers over them;
    5. hands the request to the fetch library.
  - The five verb wrappers.
- **`BaseClient`** (`src/base/client.ts`) holds `DEFAULT_CLIENT_CONFIG`. Its
  constructor fills `clientConfig` by merging, in place, the defaults and
  then the user's configuration into `{}`.

## Modules

| file | module | what it holds |
|---|---|---|
| `wrappers.dfy` | `Wrappers` | `Option` and `Result` |
| `text.dfy` | `Text` | `join`, `indexOf`, integer text and parsing, ASCII lower-casing |
| `records.dfy` | `Records` | JavaScript plain objects: ordered distinct own keys plus values; property assignment, `Object.assign`, lodash `merge` of flat objects, object literals |
| `percent.dfy` | `PercentEncoding` | the qs encoder (RFC 3986 format), UTF-8, and a percent-decoder it is proved against |
| `query_parsing.dfy` | `QueryParsing` | a reader for flat query strings; the partner of the query writer in the round-trip lemmas |
| `resource.dfy` | `Resources` | template scanning and filling, query-string writing, `Resource.toString` |
| `headers.dfy` | `FetchHeaders` | the minipass-fetch `Headers` table as a class (`append`, `set`, iteration), and the header merge of `runFetch` |
| `clients.dfy` | `Clients` | `ClientConfig`, the default configuration, lodash `merge` of configurations, class `BaseClient` |
| `static_client.dfy` | `StaticClient` | responses, `ResponseError`, `getObjectFromResponse`, the log label, fetch options, method `RunFetch` with its header loop, the verb wrappers |

## Model

| member | source | states |
|---|---|---|
| Resources.Next | src/base/resource.ts:44 | One step of the left-to-right scan for `/\{([^}]+)\}/g`. It consumes at least one character and its segment spells exactly the text consumed. A placeholder name is never empty and never holds `}`. |
| Resources.SegmentsRoundTrip | src/base/resource.ts:44 | The scan loses nothing: writing the segments back gives the template. |
| Resources.Fill | src/base/resource.ts:44-50 | Filling succeeds exactly when every placeholder has a defined value. A failure names the first placeholder without one, and every placeholder before it is defined. |
| Resources.Substitute | src/base/resource.ts:43-52 | The same two facts for a whole template and its placeholders. |
| Resources.SubstitutePathParameters | src/base/resource.ts:43 | An undefined template renders as `""`. With undefined parameters, rendering succeeds exactly when the template has no placeholder. |
| Resources.SubstituteLiteral | src/base/resource.ts:44 | A template without `{` comes back unchanged, whatever the parameters. |
| Resources.SubstituteUnchanged | src/base/resource.ts:44 | A template in which the scan finds no placeholder comes back unchanged, whatever the parameters. This includes templates with `{}` or an unclosed `{`. |
| Resources.FillUnparse | src/base/resource.ts:44-46 | Text outside placeholders is copied to the output as it is. |
| Resources.MessageNamesParameter | src/base/resource.ts:48-50 | The error message is the fixed text followed by the missing name and a closing `'`. The name reads back from the message. |
| Resources.SubstitutePlaceholder | src/base/resource.ts:44-50 | The first placeholder is replaced by its value, inserted verbatim, and filling goes on after it. A placeholder without a value fails with `MissingParameter(name)`, before anything later is looked at. |
| Resources.SubstituteEmptyBraces | src/base/resource.ts:44 | `{}` is not a placeholder: both braces stay in the output. |
| Resources.SubstituteUnclosed | src/base/resource.ts:44 | A `{` with no `}` after it stays in the output. |
| PercentEncoding.Encode | src/base/resource.ts:73-75 | Encoded text holds only unreserved characters and `%`, and every `%` is followed by two upper-case hexadecimal digits (`0`-`9`, `A`-`F`). It is never shorter than its input, and it is exactly as long only when every input character is unreserved. |
| PercentEncoding.Escape | src/base/resource.ts:73-75 | A byte is written as `%` and two upper-case hexadecimal digits whose value is the byte. |
| PercentEncoding.EncodeExamples | test/resource.test.ts:199 | A space, `=`, `(` and `)` are written `%20`, `%3D`, `%28` and `%29`. |
| PercentEncoding.EncodeUnreserved | src/base/resource.ts:73-75 | Text made of unreserved characters is written as it is. |
| PercentEncoding.DecodeEncode | src/base/resource.ts:73-75 | Percent-decoding the encoder's output gives the UTF-8 bytes of the original text. |
| PercentEncoding.EncodeAvoids | src/base/resource.ts:73-75 | The encoder never writes `&`, `=` or `,`. |
| Resources.EncodeJoin | src/base/resource.ts:73-75 | An encoded comma-joined array is its encoded elements joined by `%2C`. |
| Resources.QueryValueText | src/base/resource.ts:73-75 | For one ordinary key: undefined and the empty array write nothing; null writes `key=`; a scalar writes `key=<encoded text>`; an array writes its encoded elements joined by `%2C`. |
| Resources.QueryNullIsEmptyString | src/base/resource.ts:73-75 | `null` and `""` are written alike. |
| Resources.QueryArrayOfOne | src/base/resource.ts:73-75 | A one-element array is written like its element. |
| Resources.QueryStringRoundTrip | src/base/resource.ts:71-79 | Reading the query string back yields exactly these pairs, in order: every key but `refine` in comma format, then the repeated `refine` pairs when `refine` is truthy. |
| Resources.QueryStringEmpty | src/base/resource.ts:71-79 | The query string is empty exactly when no pair is written and `refine` is falsy. |
| Resources.QueryRefineAlone | src/base/resource.ts:77-79 | A truthy `refine` is always written after `&`, even when nothing else is written. |
| Resources.QueryRefineFalsy | src/base/resource.ts:71-79 | A falsy `refine` is dropped altogether. It never reaches the ordinary parameters. |
| Resources.NewResource | src/base/resource.ts:27-33 | The base URI and every given argument are stored as they are. Missing arguments become `{}` and `""`. |
| Resources.RenderFailure | src/base/resource.ts:59-68 | Rendering fails exactly when a placeholder of the base URI or of the path has no value. The base URI is checked first, and the error names the first such placeholder. |
| Resources.RenderPlain | src/base/resource.ts:59-84 | With no placeholders and nothing in the query, the URL is the base URI followed by the path, unchanged. Here "no placeholders" means the scan for `{name}` finds none, so `{}` and a lone `{` are allowed. |
| Resources.RenderedQuery | src/base/resource.ts:81-83 | The URL is the filled base URI and path. After them, exactly when the query string is non-empty, come `?` and a query string that reads back as the query pairs. |
| Resources.RenderSeparateParameters | src/base/resource.ts:60-68 | The base URI is filled only from the base-URI parameters and the path only from the path parameters, so one name may take two values. |
| Resources.RenderRefineAlone | src/base/resource.ts:77-83 | A truthy `refine` with no other parameter gives a URL containing `?&refine=`. |
| Records.Assign | src/base/client.ts:64 | lodash `merge` of a flat object: source values win. New keys follow the target's keys in the source's order. |
| Records.AssignDefined | src/base/client.ts:64 | The same when values may be undefined: an undefined source value never replaces a target value. |
| Clients.MergeKeepsUndefined | src/base/client.ts:64 | An undefined field of the source, or an undefined parameter value, leaves the target's value. |
| Clients.MergedDefaults | src/base/client.ts:63-64 | Merging the defaults into `{}` copies them. |
| Clients.Configured | src/base/client.ts:62-65 | What a new client holds: the user's `baseUri` and `retrySettings`; the default cache manager object unless the user gives one or `null`; the default headers overlaid per exact key by the user's headers, keeping their order; the default parameters overlaid per key, where an undefined user value keeps the default. |
| Clients.DefaultsWithoutUserConfig | src/base/client.ts:35-52 | Without a configuration, a client holds exactly the defaults, the shared cache manager included. |
| Clients.BaseClient.constructor | src/base/client.ts:62-65 | After construction, `clientConfig` is the merged configuration. |
| FetchHeaders.Headers.constructor | src/base/staticClient.ts:155 | `new Headers(object)` appends each entry in property order and leaves a consistent table. |
| FetchHeaders.Headers.Append | src/base/staticClient.ts:155 | `append` keeps the table consistent and adds the value to the list of the header it denotes in any case. |
| FetchHeaders.Headers.Set | src/base/staticClient.ts:159 | `set` keeps the table consistent and replaces the list of that header by the one value. |
| FetchHeaders.AppendedValues | src/base/staticClient.ts:155 | After `append`, the header's values are the old ones plus the new one; other headers are unchanged. |
| FetchHeaders.ReplacedValues | src/base/staticClient.ts:159 | After `set`, the header's values are exactly the new one; other headers are unchanged. |
| FetchHeaders.AppendAllValues | src/base/staticClient.ts:155 | Appending headers in order collects, per header, the values of all names denoting it, in order. |
| FetchHeaders.SetAllValues | src/base/staticClient.ts:158-160 | Setting headers in order leaves, per header, the value of the last name denoting it. |
| FetchHeaders.FlattenedValues | src/base/staticClient.ts:170 | The plain object made from the table has a lower-cased key for each header with values. The value under that key is the header's values joined by ", ". |
| FetchHeaders.EffectiveHeadersValues | src/base/staticClient.ts:155-170 | A call-site header replaces, never extends, every client header of the same name in any case. Client headers differing only in case become one header with values joined by ", ". All other client headers are kept. |
| StaticClient.CaseVariantsJoined | src/base/staticClient.ts:155 | Two client headers differing only in case travel as one header with value `x, y`. |
| StaticClient.DefaultRequestHeaders | src/base/staticClient.ts:155-170 | With no configuration and no call-site headers, a request carries exactly `content-type: application/json` and `connection: close`. |
| StaticClient.ResponseErrorMessage | src/base/staticClient.ts:29-33 | The error message is the status and the status text, separated by the message's first space. |
| StaticClient.GetObjectFromResponse | src/base/staticClient.ts:50-60 | The body is returned exactly when the status is 200–299 or 304. An empty body gives the empty object. Every other status raises a `ResponseError` carrying the response. |
| StaticClient.LogLabelAgrees | src/base/staticClient.ts:90-93 | The log says "successful" exactly when the body would be returned, and "unsuccessful" exactly when it would be raised. |
| StaticClient.LogLabelExamples | src/base/staticClient.ts:91-92 | 200, 201 and 304 are successful; 301 and 404 are not. |
| StaticClient.LogMessageReadsBack | src/base/staticClient.ts:90-93 | The log line is `Response: `, the label and a space, followed by the same status-and-text string the response error carries. |
| StaticClient.Options | src/base/staticClient.ts:132-166 | The call's retry settings are merged per key over the client's: a key the call sets takes the call's value, and any other key keeps the client's. Retry settings are present when either side has them. A `null` or missing cache manager is dropped. An undefined or empty body is dropped. |
| StaticClient.Settle | src/base/staticClient.ts:176 | With `rawResponse`, the response is returned whatever its status. Otherwise the outcome is the object `getObjectFromResponse` resolves to exactly when the status is accepted: `{}` for an empty body, the body's JSON text otherwise. Any other status gives the `ResponseError` carrying the response. |
| StaticClient.RunFetch | src/base/staticClient.ts:109-177 | A URL that fails to render raises before any request. Otherwise the request carries the URL, the merged options and the header table built by the `set` loop, and the outcome settles the response. |
| StaticClient.MethodNamesDistinct | src/base/staticClient.ts:110 | Each verb has its own method name. |
| StaticClient.VerbsDifferOnlyInMethod | src/base/staticClient.ts:187-283 | Two verbs render the same URL, fail alike, and make requests that differ only in the method name. |
| StaticClient.GetRequest | src/base/staticClient.ts:187-197 | `_get` dispatches with `get`. |
| StaticClient.DeleteRequest | src/base/staticClient.ts:207-217 | `_delete` dispatches with `delete`. |
| StaticClient.PatchRequest | src/base/staticClient.ts:227-239 | `_patch` dispatches with `patch`. |
| StaticClient.PostRequest | src/base/staticClient.ts:249-261 | `_post` dispatches with `post`. |
| StaticClient.PutRequest | src/base/staticClient.ts:271-283 | `_put` dispatches with `put`. |

Some properties hold by construction:

- Rendering the same `Resource` twice gives the same string, and dispatching is
  deterministic, because every operation is a function of its inputs.
- Building a client never changes `DEFAULT_CLIENT_CONFIG`, because the
  defaults are a value (`DefaultClientConfig`).
- The default cache manager is shared by reference: `Configured` returns the
  very object it is given.

### Where the code is followed rather than its documentation

- **`?&refine=…`.** The class comment (`src/base/resource.ts:20-22`) shows
  `{refine: [1, 2]}` rendering as `?refine=1&refine=2`. The code appends `&`
  and the `refine` pairs to the query string whatever comes before, so a lone
  `refine` gives `?&refine=1&refine=2` (`Resources.RenderRefineAlone`).
- **Falsy `refine`.** The code writes `refine` only when it is truthy, so
  `refine: ""`, `0`, `false` and `null` are dropped.
- **Array values.** The same comment shows `{a: [1, 2]}` as `?a=1,2`. The
  encoder writes the comma as `%2C`, as the tests expect.

## Left out

- **The network call and what it does.** The HTTP call itself, its retries
  and HTTP caching belong to make-fetch-happen (`src/base/staticClient.ts:173`)
  and are not modelled. The response the fetch library returns is a
  parameter of `RunFetch`.
- **The LRU store, the Keyv adapter, the cache-manager interface and the
  Redis cache manager.** None of them has request-building behaviour. A cache
  manager is only an object identity here (`Clients.CacheManager`).
- **Logging.** `logFetch`, the debug log, `sdkLogger` and the `dotenv` call
  only produce log text. `logResponse`'s label and message are modelled
  (`LogLabel`, `LogMessage`); writing them is not.
- **JSON.** `JSON.stringify` of the call body and `JSON.parse` of the
  response body are left out. A body is its JSON text (`CallOptions.body`,
  `Dto.Json`).
- **`src/index.ts`** only re-exports, and is not part of this model.
- **Header order.** The final
  headers are a map from lower-cased names to values. minipass-fetch sorts
  names when iterating, and that order is not modelled.
- **Header validation.** minipass-fetch's validation of header names and values,
  which throws on invalid characters, is not modelled.
- **Cache managers are taken by reference only.** A cache manager
  given as a plain object, rather than a class instance, would be deep-merged
  into the default instance by lodash. The model takes every cache manager by
  reference.
- **Nested configuration.** Only the cache manager may be `null`. Nested
  objects inside header values, parameter values or retry options are not
  modelled.
- **Query values.** Numbers are safe integers (magnitude at most
  2^53 - 1), whose `String()` text is plain decimal. Floating-point values,
  larger integers and the exponent form `String()` uses from 10^21 on
  (`1e+21`) are left out. Nested objects are left out too: values are
  scalars or arrays of scalars.
- **Property order.** Records keep insertion order. JavaScript lists
  integer-like keys first, in ascending order; that ordering is not modelled.
- **Strings.** Dafny strings are sequences of Unicode scalar values, so
  JavaScript's lone UTF-16 surrogates, which the encoder mishandles, cannot
  occur here.
- **Verb wrappers.** `_get` and `_delete` declare no `body`. The model passes
  the call options through unchanged, as happens at run time, so a body given
  to them anyway is sent.
- **Tests that do not match the code.** Three are not asserted:
  - `test/staticClient/headers.test.ts:256-278` expects duplicate-case
    call-site headers to be joined; the code's `set` keeps the last one.
  - `test/staticClient/headers.test.ts:321-355` tests helpers
    (`getHeaders`, `mergeHeaders`) that `src/base/staticClient.ts` does not
    define.
  - `test/fetchOptions.test.ts` relies on a `fetchOptions` configuration
    field that `src/base/client.ts` does not have.
