# http-aws4: request construction and response rendering, in Dafny

`http-aws4` is a command-line HTTP client that signs each request with AWS
Signature Version 4, sends it, and prints the response. This project models
the string, map and integer logic in `src/http-aws4.js` that sits between
argument parsing and the SDK:

- how the positional tokens become a method, a URL and a header map;
- how the region and the service are inferred from the URL by two regular
  expressions;
- how `normalizeHeaders` lower-cases header names in place, and how
  `createRequest` lays the user agent, the user's headers and the host header
  over the SDK's defaults;
- how `handleResponse` accumulates the body and classifies the status;
- what `formatHeaders`, `formatResponse` and `handleError` print, and the
  exit code.

Modules, one per concern:

| file | module | models |
|---|---|---|
| `wrappers.dfy` | `Wrappers` | `Option`, `Result` |
| `text.dfy` | `Text` | `\w`, `[a-z0-9-]/i`, ASCII case mapping, `indexOf`, integer to decimal |
| `ordering.dfy` | `Ordering` | the default `Array.prototype.sort` order on strings, insertion sort, uniqueness of the sorted order |
| `cli.dfy` | `Cli` | method/URL choice, header tokens, the header-token loop |
| `inference.dfy` | `Inference` | the region and service regular expressions |
| `inference_examples.dfy` | `InferenceExamples` | the inference functions on concrete hosts |
| `script.dfy` | `Script` | the top of the script: tokens and region option to an invocation |
| `headers.dfy` | `Headers` | header objects with key order, `normalizeHeaders` |
| `request.dfy` | `Request` | the header merge of `createRequest` |
| `response.dfy` | `Response` | body accumulation and status classification |
| `render.dfy` | `Render` | printed lines, `formatHeaders`, `formatResponse`, `handleError`, the final `then`/`catch` |

A header object is a JavaScript object, so the model keeps its key order
(`names`) beside its fields. Mutated objects (`request.headers`) are the class
`Headers.HeaderObject`; objects only read (the response headers) are the value
`Headers.HeaderView`. Console output is a sequence of `Render.Line` records: the
logger function used (`log`, `info`, `warn`, `error`), the text, and whether the
line went through the colouring wrapper or was written bare (the highlighted
JSON body). JSON re-serialisation (`JSON.stringify(JSON.parse(body), null, 2)`),
`cardinal.highlight` and `clean-stack` are passed in as functions; a result of
`None` stands for a call that throws.

Four behaviours of the script are easy to misread:

- The region expression is `([a-z0-9-]+)\.\w+\.amazonaws\.com(?:\/|:|$)`, so it
  needs `<region>.<word>.amazonaws.com`. A host of the form
  `<service>.<region>.amazonaws.com`, such as `dynamodb.us-east-1.amazonaws.com`
  or `foo.us-west-2.amazonaws.com`, has no match, and the script stops before any
  request unless `--region` is given (`InferenceExamples.RegionalServiceHost`).
- `--service` is declared but never read: the service is always inferred.
- Highlighting is attempted only for a body whose content type mentions `json`
  and which `JSON.parse` accepted; any other body is printed as received.
- Every failure that reaches `handleError` exits with code 1: an HTTP failure
  status and a thrown error end the process the same way.

## Model

| member | source | states |
|---|---|---|
| `Cli.ChooseMethodAndUrl` | src/http-aws4.js:32-38 | a first token matching `^\w+$` becomes the upper-cased method and the next token the URL; otherwise the first token is the URL and the method is GET; all later tokens are left, in order, for header parsing; a method token with nothing after it is the missing-URL error |
| `Cli.MethodIsUpperWord` | src/http-aws4.js:32-33 | a chosen method is a non-empty run of word characters with no lower-case letter |
| `Cli.ParseHeaderToken` | src/http-aws4.js:56-58 | the header name is the lower-cased text before the first colon and the value everything after it, untrimmed; a token with no colon gives name `""` and the whole token as value; names are lower-case |
| `Cli.HeaderTokenRoundTrip` | src/http-aws4.js:56-58 | a token with a colon is its name's original spelling, a colon and its value, and lower-casing that spelling gives the name |
| `Cli.ParseHeaderTokens` | src/http-aws4.js:54-59 | the loop that shifts tokens and writes each into the map yields exactly `HeaderMap` of the tokens |
| `Cli.HeaderMapLastWins` | src/http-aws4.js:55-59 | a name is in the header map iff some token names it, and its value comes from the last token with that lower-cased name |
| `Cli.HeaderMapKeysLowerCase` | src/http-aws4.js:58 | every header name produced from tokens is lower-case |
| `Inference.InferRegion` | src/http-aws4.js:47 | the result is None iff the region expression matches nowhere; otherwise it is the group of the leftmost match, and that group is a whole label (at the start or after a character outside `[a-z0-9-]`) |
| `Inference.InferService` | src/http-aws4.js:51 | the result is None iff the service expression matches nowhere; otherwise it is the group of the leftmost match, the maximal run of word characters right before `.amazonaws.com` followed by `/`, `:` or the end |
| `Inference.ResolveRegion` | src/http-aws4.js:45-48 | an explicit region option is used verbatim, even when empty; only its absence triggers inference |
| `Inference.RegionMatchFromStart` | src/http-aws4.js:47 | a region match at the start of the URL is the one reported |
| `Inference.ServiceMatchFromStart` | src/http-aws4.js:51 | a service match at the start of the URL is the one reported |
| `InferenceExamples.SearchDomainHost` | src/http-aws4.js:45-52 | `us-east-1.es.amazonaws.com` gives region `us-east-1` and service `es` |
| `InferenceExamples.GlobalServiceHost` | src/http-aws4.js:51 | `dynamodb.amazonaws.com` gives service `dynamodb` |
| `InferenceExamples.RegionalServiceHost` | src/http-aws4.js:47 | `dynamodb.us-east-1.amazonaws.com` has no region match |
| `Script.ParseInvocation` | src/http-aws4.js:29-59 | the top of the script fails with a missing URL, then a region failure, then a service failure, in that order; otherwise it yields the chosen method and URL, the region, the inferred service and the header map of the remaining tokens |
| `Headers.HeaderObject.Set` | src/http-aws4.js:115 | a property write updates the field and appends the key to the key order only when it is new |
| `Headers.HeaderObject.Delete` | src/http-aws4.js:116 | a property delete removes the field and its key from the key order |
| `Headers.HeaderObject.Assign` | src/http-aws4.js:129-132 | copying a source object overrides the target's fields with the source's and keeps all other fields |
| `Headers.NormalizeHeaders` | src/http-aws4.js:109-119 | iterating a snapshot of the keys while writing and deleting leaves exactly the fields `Normalized` describes |
| `Headers.UnvisitedMixedKept` | src/http-aws4.js:110-116 | when the loop reaches a mixed-case key it is still present with its original value, so the value copied is the original one |
| `Headers.NormalizedValues` | src/http-aws4.js:109-119 | after the loop a lower-case key holds the value of its last mixed-case spelling in key order, or its own value when it has none |
| `Headers.NormalizedKeySet` | src/http-aws4.js:109-119 | after normalisation every key is lower-case and the key set is the set of lower-cased original keys |
| `Headers.NormalizedKeepsLoneKey` | src/http-aws4.js:113-117 | a lower-case key with no mixed-case spelling beside it keeps its value |
| `Headers.NormalizedMixedWins` | src/http-aws4.js:114-116 | a mixed-case key's value overwrites its lower-case twin when no later mixed-case spelling of that name follows |
| `Headers.NormalizeIdempotent` | src/http-aws4.js:109-119 | normalising an already normalised object, in any key order, changes nothing |
| `Request.MergedHeaders` | src/http-aws4.js:129-132 | `host` is always the endpoint host; a user header overrides the user agent and the defaults of the same name; `user-agent` is the fixed user agent unless the user supplied one; keys no layer writes keep their prior values |
| `Request.RequestHeaderNamesLowerCase` | src/http-aws4.js:128-132 | when the user headers come from the header tokens, every header name of the created request is lower-case |
| `Request.MergedNamesLowerCase` | src/http-aws4.js:129-132 | when the prior and the user's header names are lower-case, so is every merged name, the two fixed names included |
| `Request.CreateRequest` | src/http-aws4.js:121-132 | the request gets the given method, region and body, and its headers become the merge of the normalised defaults, the user agent, the user headers and the host |
| `Response.Classify` | src/http-aws4.js:156-163 | the response resolves iff 200 <= status < 300; a resolution carries the metadata unchanged and a rejection carries the complete metadata as the error's response |
| `Response.StatusBoundaries` | src/http-aws4.js:157 | statuses 199 and 300 reject, 200 and 299 resolve |
| `Response.HandleResponse` | src/http-aws4.js:145-166 | the body is the in-order concatenation of the data chunks starting from the empty string; at the end the status classifies the metadata; a stream error rejects with that error |
| `Response.ConcatAppend` | src/http-aws4.js:147-155 | accumulating two runs of chunks gives the first body followed by the second |
| `Response.ConcatCons` | src/http-aws4.js:147-155 | the body starts with the first chunk and continues with the rest in order |
| `Response.ConcatLength` | src/http-aws4.js:147-155 | the body length is the total length of the chunks |
| `Ordering.SortStrings` | src/http-aws4.js:76 | the sorted key list is ascending and a permutation of the keys |
| `Ordering.SortedUnique` | src/http-aws4.js:76 | two ascending arrangements of the same names are equal, so the printed order does not depend on the sorting algorithm |
| `Ordering.SortStringsUnique` | src/http-aws4.js:76 | the sorted key list is the only ascending arrangement of the keys |
| `Ordering.SortDistinctIsStrict` | src/http-aws4.js:76 | distinct keys come out strictly ascending |
| `Render.IsJsonType` | src/http-aws4.js:88 | true iff the content type is present and contains `json` with a word boundary on each side |
| `Render.WriteHeaderLines` | src/http-aws4.js:77-79 | the per-name loop writes exactly one `name: value` line per name, in the order given |
| `Render.FormatHeaders` | src/http-aws4.js:75-79 | one `name: value` line per header, names strictly ascending, each header exactly once |
| `Render.RenderBody` | src/http-aws4.js:87-97 | the body is re-serialised only when the content type mentions `json`; a parse failure leaves it unchanged; a bare highlighted line appears iff the stream is not `error`, colours are on, and re-serialising and highlighting succeed; `[empty response]` is printed for a missing body |
| `Render.FormatResponse` | src/http-aws4.js:81-98 | prints the status line, the sorted header lines, an empty line and the body line, all on the given stream |
| `Render.ErrorStreamSameRules` | src/http-aws4.js:81-102 | an HTTP failure is printed on the error stream with the same lines a success would get with colours off, and nothing there is highlighted |
| `Render.HandleError` | src/http-aws4.js:100-107 | an error with a response is printed as a response on the error stream, any other error as its cleaned stack; the exit code is 1 in both cases |
| `Render.Settle` | src/http-aws4.js:175-177 | the exit code is 0 iff the response resolved; a resolved response is printed on the info stream, a rejection through `handleError` |
| `Render.Respond` | src/http-aws4.js:145-177 | the process succeeds iff the stream ended with a 2xx status, and a received response is printed in full whatever its status |

## Left out

- Request signing (`AWS.Signers.V4(...).addAuthorization`, lines 133-134) is an SDK call; the model stops at the request handed to the signer.
- Credential resolution (`config.getCredentials`, line 168) is SDK and environment I/O.
- The transport (`AWS.NodeHttpClient`, `handleRequest`, lines 62 and 138-143), including its printing of the request line and request headers, and the event-emitter wiring of the response: the model takes the status, headers, data chunks and the way the stream ended as inputs.
- Reading standard input and the `Promise.all` orchestration (lines 170-174) are I/O and asynchronous plumbing.
- `normalize-url` (lines 40-43) is a library: the URL token is taken as already normalised.
- `JSON.parse`/`JSON.stringify`, `cardinal.highlight` and `clean-stack` are libraries, passed in as functions; the `chalk` colouring and the logger construction (lines 64-73) become the `Colored`/`Bare` style of a line.
- `yargs`: at least one positional token is a precondition (`demand(1)`); its conversion of numeric-looking tokens to numbers is not modelled.
- `process.exit` and Node's handling of an uncaught exception: the exit code is a returned value, and the inference failures of lines 47 and 51 are `CliError` values.
- `USER_AGENT` is built from `package.json`, which is not part of this model; `Request.USER_AGENT` is a stand-in string.
- Text.Lower: `toLowerCase` and `toUpperCase` are modelled on ASCII letters only; the regular-expression classes are ASCII-only in the source as well.
- Ordering.Less: the default sort compares UTF-16 code units, the model compares characters; the two orders differ only for characters outside the Basic Multilingual Plane.
- Cli.HeaderMap: the token map is a plain object in the script, where writing the key `__proto__` goes to the prototype setter and a string value is ignored, so a `__proto__:...` token is dropped there; the model treats `__proto__` as an ordinary key, so such a token appears in `Cli.HeaderMap` and in the merged request headers.
- Headers.HeaderObject: JavaScript enumerates integer-like keys first, and a `__proto__` key is not an ordinary property; the model treats every key as an ordinary string key in insertion order.
- Headers.HeaderObject.Assign: the order in which new keys are appended is not stated, and `Headers.NormalizeHeaders` states the fields but not the resulting key order; neither order affects the signed or printed headers, which are sorted.
- Render.FormatResponse: the response headers are always present in the metadata the script builds, so the falsy `resp.headers` branch of line 83 is not modelled; header values are strings (Node's list-valued headers are not modelled).
- Render.RenderBody: a missing body stands for `undefined`; a `null` body (which `JSON.parse` would read as the text "null") does not occur in the script's metadata and is not modelled. The metadata body always starts as a string, so `[empty response]` is never printed for a received response.
