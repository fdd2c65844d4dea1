# yii3-swoole adapter core in Dafny

A model of the adapter that runs a Yii3 web application on the Swoole HTTP server.
Three parts are modelled:

- **Request conversion** (`RequestConverter`). `RequestConverter::convert` turns the
  native Swoole request into a PSR-7 server request. The native request is a set of
  loosely typed PHP arrays plus a raw-body accessor. The model covers the method,
  the URI, the scheme heuristic, the header loop, cookies, query and body
  parameters, and the raw body.
- **Response emission** (`ResponseEmitter`). `ResponseEmitter::emit` writes a
  PSR-7 response onto the native response. The model is the trace of native calls
  the emitter makes: one status call, one header call per header value, one `end`.
  Its partner is a recording native response (`Replay`). It rejects a status
  after a header, a header before the status, and anything after `end`.
- **The server runner** (`ServerConfig`, `WorkerBootstrap`, `RequestDispatch`).
  This covers the immutable `with...` configurators, the per-worker bootstrap that
  swaps a fallback error handler for the real one, and `handleRequest`.
  `handleRequest` converts the request and runs the application inside
  try/catch/finally; the conversion and every collaborator call in it return or
  fail as a failure oracle says.

Supporting modules:

- `Wrappers` holds `Option`.
- `Traces` holds failures, outcomes and `Count` over traces.
- `PhpArrays` models ordered PHP arrays with distinct string keys, and PHP
  scalars (string, integer, float, boolean) with their conversion to string.
  Server variables and server options hold such values, as the native server
  fills them: ports and times are integers, `request_time_float` is a float.
- `Psr7` holds the PSR-7 values the adapter relies on: case-insensitive header
  replacement, URI components and streams with a cursor.

The environment becomes parameters:

- The native request is a datatype value.
- The DI container, the application, the error catcher and the error handlers
  are opaque collaborators. Each of their calls is an event in a trace.
- In request dispatch, every collaborator call and the conversion itself may
  return or throw, as a field of `DispatchOracle` says.
- In the bootstrap, resolving the real handler, `runBootstrap` and `checkEvents`
  may throw, as a field of `BootOracle` says. The error handlers' `register`,
  `unregister` and `debug` calls always return in the model.

Notes on the source as written:

- The `temporaryErrorHandler` field (Server.php:28) is read at Server.php:156 but
  never assigned. So `createTemporaryErrorHandler` always builds a new fallback
  handler for a configured server (`ConfiguredServerHasNoCachedHandler`).
- The uploaded files are read (RequestConverter.php:27) but never attached. The
  converted request always has no uploaded files.
- An empty raw body is treated like a missing one: no body is attached.
- PHP array keys are case-sensitive, but `withHeader` matches names up to case.
  When two native header names differ only in case, the later one's value
  replaces the earlier one. So "every native header reads back as its value"
  holds for headers not repeated later up to case (`ConvertHeaderValue`). That
  covers every header when the names are lower-case, as the native server
  supplies them (`ConvertLowercaseHeaders`).
- The emit inside the `try` can fail after it has already called `status` or
  `header`. The catch block then emits the error response on the same native
  response, so a second status call follows (`EmitFailureEmitsAgain`).
- Suppose the first emit fails and `process` then fails. `$psrResponse` still
  holds the application's response, so `afterEmit` receives that response rather
  than `null`, although it was never completely sent
  (`ProcessFailureAfterEmitFailure`).
- Two steps run before the `try`: resolving the application (Server.php:129-131)
  and converting the request (Server.php:136). A failure in either propagates at
  once. Nothing is emitted, and `afterEmit` and `shutdown` do not run
  (`TeardownLimits`).
- PHP's `finally` semantics are modelled. A failing `afterEmit` skips `shutdown`
  and replaces the pending failure.

## Model

| member | source | states |
|---|---|---|
| PhpArrays.Lookup | src/Bridge/RequestConverter.php:30-35 | `$a[$k] ?? default` finds nothing exactly when no entry has key `k`; a found value is stored under `k` |
| Psr7.GetHeaderWithHeader | src/Bridge/RequestConverter.php:55-57 | after `withHeader(n, vs)`, `getHeader(m)` is `vs` when `m` names the same header up to ASCII case, and unchanged otherwise |
| Psr7.WithHeaderUnique | src/Bridge/RequestConverter.php:55-57 | `withHeader` keeps header names pairwise distinct up to case |
| Psr7.CreateUri | src/Bridge/RequestConverter.php:33-36 | the URI built from the request target has no scheme or host, a path free of `?` and `#`, and a query free of `#` |
| Psr7.CreateUriWithQuery | src/Bridge/RequestConverter.php:33-36 | a path and query free of the separators come back unchanged from `createUri(path . '?' . query)` |
| Psr7.CreateUriPathOnly | src/Bridge/RequestConverter.php:33-35 | a path free of the separators comes back unchanged with an empty query when no query string is set |
| Psr7.GetContents | src/Bridge/ResponseEmitter.php:35 | `getContents` is the content after the cursor (the content is the part before the cursor followed by the result), and empty past the end |
| Psr7.Rewind | src/Bridge/ResponseEmitter.php:26-28 | rewinding a seekable stream keeps its content, and reading afterwards gives the whole content |
| RequestConverter.RequestTarget | src/Bridge/RequestConverter.php:33-36 | the target starts with the request URI (default `/`); it is exactly that when no query string is set, and otherwise continues with `?` and the literal query string |
| RequestConverter.ApplyHeaders | src/Bridge/RequestConverter.php:55-57 | the header loop adds no more entries than there are native headers, and every resulting entry is an earlier one or a native header with its single value |
| RequestConverter.Scheme | src/Bridge/RequestConverter.php:44-47 | the scheme is `https` exactly when the `https` server variable is the string `on`, and `http` otherwise: the comparison is strict, so `true` or `1` give `http` |
| RequestConverter.RequestUri | src/Bridge/RequestConverter.php:33-48 | path, query and fragment come from parsing the request target; the host is the `host` header when one was sent, else empty; the scheme is the heuristic's |
| RequestConverter.LastValue | src/Bridge/RequestConverter.php:55-57 | reference definition for the header loop: no value exactly when no native header has that name up to case |
| PhpArrays.ToPhpString | src/Bridge/RequestConverter.php:34-35 | the `.` operator turns a string into itself, an integer into its decimal text with `-` exactly when negative, and `false` alone into the empty string |
| PhpArrays.IntStringRoundTrip | src/Bridge/RequestConverter.php:34-35 | an integer server variable enters the request target as decimal digits that read back as the integer |
| RequestConverter.ConvertTypedServer | src/Bridge/RequestConverter.php:44-52 | a server array typed as the native server fills it (integer port and time, float time, `https` set to `true`) is kept as the request's server parameters, and the strict comparison leaves the scheme `http` |
| RequestConverter.Convert | src/Bridge/RequestConverter.php:20-81 | method from `request_method`, default `GET`; scheme `https` iff `https` is `on`; host from the header; server variables passed through unchanged; cookie, query and body arrays passed through, `[]` when null; no uploaded files; a body exactly when the raw content is neither false nor empty, and then equal to it |
| RequestConverter.ApplyHeadersGet | src/Bridge/RequestConverter.php:55-57 | after the header loop, `getHeader(name)` is the one-element list of the last native value with that name up to case, or what it was before the loop |
| RequestConverter.ApplyHeadersUnique | src/Bridge/RequestConverter.php:55-57 | the header loop keeps header names pairwise distinct |
| RequestConverter.ConvertHeaderValue | src/Bridge/RequestConverter.php:55-57 | a native header whose name is not repeated later reads back as exactly its one value (replacement, not append) |
| RequestConverter.ConvertLowercaseHeaders | src/Bridge/RequestConverter.php:55-57 | with lower-case native names, every native header reads back as exactly its value |
| RequestConverter.ConvertHeaderShape | src/Bridge/RequestConverter.php:54-57 | converted header names are distinct, each name has at most one value, and a name has a value iff some native header carries it up to case |
| RequestConverter.ConvertUriPathQuery | src/Bridge/RequestConverter.php:32-36 | when the request URI has no `?` or `#` and the query string no `#`, the URI path is the request URI (default `/`), the query is the query string (default empty) and there is no fragment |
| RequestConverter.ConvertTestRequest | tests/Bridge/RequestConverterTest.php:40-46 | the repository's converter test: method `GET`, scheme `http`, host `example.com`, query parameters `param => value`, body `{"foo":"bar"}` |
| RequestConverter.ConvertTestRequestUri | tests/Bridge/RequestConverterTest.php:43-44 | the same test: path `/test`, query `param=value` |
| RequestConverter.ConvertTestRequestHeader | tests/Bridge/RequestConverterTest.php:47 | the same test: `getHeader('content-type')` is `['application/json']` |
| ResponseEmitter.ValueCalls | src/Bridge/ResponseEmitter.php:19-21 | the inner loop makes one header call per value, in value order, each with the header's name |
| ResponseEmitter.HeaderCalls | src/Bridge/ResponseEmitter.php:18-22 | the header loops make exactly as many calls as there are header values, all of them header calls |
| ResponseEmitter.Payload | src/Bridge/ResponseEmitter.php:25-35 | the content handed to `end` is the whole body when it is seekable, and the rest after the cursor (empty past the end) otherwise |
| ResponseEmitter.Emit | src/Bridge/ResponseEmitter.php:12-36 | `emit` makes two calls more than there are header values, starting with the response's status and reason and ending with `end` of the payload |
| ResponseEmitter.EmitShape | src/Bridge/ResponseEmitter.php:12-36 | the status call comes first, `end` comes last, and everything in between is a header call; there is exactly one status call and one `end`, and the header calls number the header values |
| ResponseEmitter.EmitHeaderAt | src/Bridge/ResponseEmitter.php:18-22 | value `j` of header `k` is emitted right after the status and all values of earlier headers: map order, then value order |
| ResponseEmitter.EmitPayload | src/Bridge/ResponseEmitter.php:25-35 | `end` receives the whole content of a seekable body whatever its cursor, and the rest after the cursor of an unseekable one |
| ResponseEmitter.EmitAccepted | src/Bridge/ResponseEmitter.php:12-36 | a fresh recording native response accepts the whole emission and ends with the response's status, every header value in order, and the payload |
| ServerConfig.NewServer | src/Server.php:25-28 | a new server listens on `127.0.0.1:9501` with no options and no stored fallback handler, and keeps the constructor's arguments |
| ServerConfig.NewDefaultServer | src/Server.php:30-34 | `new Server($rootPath)` has debug mode and the events check off, no environment, and the default listen address and options |
| ServerConfig.WithHost | src/Server.php:70-75 | `withHost` yields a copy with the new host and everything else unchanged |
| ServerConfig.WithPort | src/Server.php:77-82 | `withPort` yields a copy with the new port and everything else unchanged |
| ServerConfig.WithOptions | src/Server.php:84-89 | `withOptions` yields a copy with the new options and everything else unchanged |
| ServerConfig.ConfiguratorsOverride | src/Server.php:70-89 | setting a field to its current value changes nothing, and a later setting of the same field overrides an earlier one |
| ServerConfig.ConfiguratorsCommute | src/Server.php:70-89 | the three configurators commute pairwise |
| ServerConfig.CreateTemporaryErrorHandler | src/Server.php:154-162 | a stored handler is returned as is; otherwise a new fallback handler logs to `runtime/logs/app.log` under the root path |
| ServerConfig.ConfiguredServerHasNoCachedHandler | src/Server.php:154-161 | a constructed and configured server always gets a new fallback handler, because nothing stores one |
| WorkerBootstrap.RegisterErrorHandler | src/Server.php:164-173 | the handler given to unregister is unregistered first; debug mode is applied right before registering; the new handler is registered exactly once, last; the trace holds nothing else |
| WorkerBootstrap.Bootstrap | src/Server.php:110-125 | the bootstrap completes exactly when resolution, the hooks and the events check all succeed; otherwise the first failure propagates and the trace ends with the step that raised it |
| WorkerBootstrap.RegisterSwapsSlot | src/Server.php:164-173 | starting from a slot that holds at most the handler being unregistered, no point of the trace has two handlers registered, and at the end only the new one is |
| WorkerBootstrap.BootstrapSingleHandler | src/Server.php:110-125 | whatever fails, at most one error handler is registered at any time; after a completed bootstrap only the resolved handler is registered; when resolution fails the fallback stays registered |
| WorkerBootstrap.BootstrapOrder | src/Server.php:110-125 | without failures: fallback registered (debug first when configured), real handler resolved, fallback unregistered, real handler registered, bootstrap hooks, events check |
| WorkerBootstrap.BootstrapStopsAtFailure | src/Server.php:110-125 | a failure stops the sequence where it happens and propagates; the bootstrap completes exactly when resolution, the hooks and the events check all succeed |
| RequestDispatch.HandleRequest | src/Server.php:127-152 | every trace starts with resolving the application; the request completes only when resolution, conversion, `afterEmit` and `shutdown` all succeed; the trace ends with `shutdown` exactly when resolution, conversion and `afterEmit` succeed |
| RequestDispatch.TryBlock | src/Server.php:138-141 | the try block starts the application; `$psrResponse` is set, to the application's response, exactly when start and handle return; the block fails exactly when start, handle or emit fails |
| RequestDispatch.CatchBlock | src/Server.php:142-147 | the catch block resolves the error catcher first, then calls `process` with the request and a handler wrapping the caught failure; `$psrResponse` becomes the error response only when `process` returns and keeps its earlier value otherwise; the block fails exactly when resolution, `process` or the emit fails |
| RequestDispatch.Finally | src/Server.php:148-151 | the finally block appends `afterEmit($psrResponse ?? null)` and, unless that fails, `shutdown`; a failure of `afterEmit`, else of `shutdown`, else the pending one propagates; the outcome is normal exactly when none of them failed |
| RequestDispatch.EmitCalls | src/Server.php:141 | a failing emit performed a proper prefix of the full call sequence, so never its `end`; a successful one performed all of it |
| RequestDispatch.TeardownRunsOnce | src/Server.php:136-151 | once the application is resolved, the request converted and `afterEmit` returns, `afterEmit` and `shutdown` each run exactly once, as the last two events, whatever failed before |
| RequestDispatch.TeardownLimits | src/Server.php:129-151 | a failure resolving the application or converting the request happens before the `try`, so nothing else runs; a failing `afterEmit` skips `shutdown` and its failure propagates |
| RequestDispatch.SuccessPath | src/Server.php:138-141 | when start, handle and emit succeed, the application's response is emitted once and completely, the error catcher is not involved, `afterEmit` receives that response, and the request completes |
| RequestDispatch.HandleFailureRecovered | src/Server.php:142-147 | when `handle` fails, the error catcher processes the same request with a handler wrapping that failure, and its response is the one emitted and passed to `afterEmit` |
| RequestDispatch.ErrorCatcherFailure | src/Server.php:142-149 | when the error catcher also fails, nothing is emitted, `afterEmit` receives `null`, and the catcher's failure propagates after the teardown |
| RequestDispatch.EmitFailureEmitsAgain | src/Server.php:138-147 | when the first emit fails midway, the error response is emitted on the same native response, so there are two emits; after a partial first emit there are two status calls |
| RequestDispatch.ProcessFailureAfterEmitFailure | src/Server.php:140-149 | when the first emit fails and `process` then fails, `afterEmit` receives the application's incompletely sent response, no `end` was made, and `process`'s failure propagates |
| RequestDispatch.AtMostOneEnd | src/Server.php:127-152 | whatever fails, the native response is ended at most once, and a request that completes normally was ended exactly once |

## Left out

- `Server::run` (Server.php:91-108) is left out. It builds the Swoole server, applies the options and registers the worker-start and request callbacks, all of which is I/O in the Swoole extension. `bootstrap` and `handleRequest` are modelled as the two callbacks.
- RequestConverter.Convert: does not say which native requests make the conversion throw. Examples are a request target that `parse_url` rejects, a header name PHP turns into an integer key, and a missing `server` array. `Convert` is total, and the dispatcher takes the conversion's failure from the oracle's `convert` field.
- WorkerBootstrap.Bootstrap: a failing `register`, `unregister` or `debug` call on an error handler is not modelled; those calls always return.
- The constructor's configuration-group names, directories and config modifiers (Server.php:30-68) are left out. They are passed unchanged to the runner base class, which is not part of this model.
- Container resolution, `ErrorHandler::register/unregister/debug`, `Application::start/handle/afterEmit/shutdown` and `ErrorCatcher::process` are third-party code. They appear as opaque events. Whether container resolution, the application calls and `process` return or throw comes from an oracle; the error handlers' calls always return (see `WorkerBootstrap.Bootstrap` above).
- The Nyholm PSR-7 internals are left out: header-value trimming and validation, the `Host` header that the server request's constructor derives from the URI when `createServerRequest` builds it, host lower-casing, and authority parsing and percent-encoding in `createUri`. The model keeps only the replacement semantics of `withHeader` and a split of the request target at the first `#` and then the first `?`.
- RequestConverter.Convert: the native server always sets `request_method` to a string, and the model's server variables keep that guarantee (`ServerVars`). A non-string method would make `createServerRequest` throw a type error under strict types; that failure is not modelled apart from the dispatcher's `convert` oracle field. A `null` server variable, which `isset` and `??` treat as unset, is not modelled.
- PhpArrays.ToPhpString: a float is carried as the text PHP prints for it, so PHP's float-to-string formatting is not modelled.
- RequestConverter.RequestUri: keeps the `host` header verbatim, whereas the message library lower-cases hosts.
- Native Swoole's handling of repeated `header()` calls with the same name is left out. The emitter's calls are modelled, not what the extension does with them.
- The emitter leaves the stream cursor at the end after reading; the model does not track stream state after `emit`.
- Chained previous exceptions are left out; a failure is identified by its message only.
- `StartCommand`, the console DI configuration and `NumericHelper` are left out: they are outside the adapter core.
- Only the header, URI, body and parameter fields of the native request are used. The uploaded-file array is modelled as a field that the conversion ignores, as the source does.
