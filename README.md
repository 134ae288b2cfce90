# httputils in Dafny

A model of the core of the Go package `httputils` (struktur AG), with proofs
about it. The package holds small helpers for HTTP services:

- **Content negotiation.** A simplified reading of the `Accept` header (section 14.1 of RFC 2616) for endpoints that serve one fixed media type, and a matcher for the request's `Content-Type`.
- **Gzip wrapper.** It picks the first `Accept-Encoding` token (section 14.3 of RFC 2616) that is exactly `gzip` or `deflate`, marks the response, and closes the compressor after the handler.
- **Static file handler.** It removes a `ver=` segment in the second position of the path and then sets far-future caching headers.
- **Download handler.** It names the last path element in a `Content-Disposition: attachment` header (section 4.1 of RFC 6266).
- **Welcome response.** The map behind a `{"<name>": "Welcome", "version": "<version>"}` greeting, mounted by convention at `/welcome` (the constant `Welcome.WelcomePath`, welcome.go:14).
- **Exit-status coordinator and logging helpers.** A process exit status that only rises, plus shutdown hooks that run once, in order.
- **Server.** It listens on TCP or on a Unix socket. A stale socket file is detected, removed and recreated once, and the socket mode is widened by group read and write. TLS configuration is validated, and the sequential part of `Start` and `Stop` is modelled.

Modules follow the Go files:

| file | module | what it holds |
|---|---|---|
| `content_negotiation.dfy` | `ContentNegotiation` | media types, parsing and matching |
| `gzip.dfy` | `Gzip` | the encoding choice |
| `static.dfy` | `Static` | the static handler |
| `download.dfy` | `Download` | the download handler |
| `welcome.dfy` | `Welcome` | the welcome map |
| `exitstatus.dfy` | `ExitStatus` | the exit coordinator |
| `log.dfy` | `Log` | the logging helpers |
| `sockets.dfy` | `Sockets` | `socketListen` and `createUnixSocket` against an abstract operating system |
| `server.dfy` | `ServerLifecycle` | the `Server` type |

Shared pieces:

- `GoStrings` models the parts of Go's `strings` package the code calls: `Split`, `Join`, `Trim`, `TrimSpace` and `HasPrefix`.
- `GoPath` models `path.Split`.
- `Http` holds header maps, and a request and response writer whose headers are set in place. The writer records a trace of observable steps: errors replied, compressors opened and closed, handlers called, files served.
- `Wrappers` holds `Option` and `Result`.

The source is imperative wherever it changes state, and the model keeps that form:

- The exit coordinator and the server are classes whose methods update their fields.
- The response writer and the abstract operating system are objects that methods modify.
- The loops of `AcceptsContentType`, the gzip wrapper and `ExitWithStatus` are `while` loops with invariants.

Each such method is proved against a pure function, and the properties are lemmas about those functions.

A few behaviours of the code are worth knowing:

- `Listen` does not refuse a second call. It binds again and overwrites the listener, leaving none when binding fails.
- `ListenTLSWithConfig` installs the default next protocols in the caller's config before it binds. So a config that failed to bind is still changed.
- `createUnixSocket` reports a stat or chmod failure together with a live listener. `socketListen` then dials its own socket and reports that "another process" is listening.

## Model

| member | source | states |
|---|---|---|
| ContentNegotiation.MimeType.Matches | content_negotiation.go:68-78 | an incomplete target never matches; `*/*` matches exactly the complete targets; `T/*` matches exactly the complete targets of type `T`; any pattern with another subtype matches only the identical complete type |
| ContentNegotiation.MimeType.String | content_negotiation.go:80-82 | defines the printed form, type and subtype joined by '/'; `ParseString` is its round trip with `ParseMimeType` |
| ContentNegotiation.ParseMimeType | content_negotiation.go:50-66 | the parsed type and subtype never contain '/' |
| ContentNegotiation.ParseTrims | content_negotiation.go:53 | parsing is unaffected by blanks around the raw value |
| ContentNegotiation.ParseIgnoresParameters | content_negotiation.go:53-54 | everything from the first ';' on is ignored |
| ContentNegotiation.ParseString | content_negotiation.go:50-66 | `parseMimeType(m.String()) == m` for parts without '/', ';' or outer blanks |
| ContentNegotiation.ParseIgnoresThirdPart | content_negotiation.go:54-57 | a third '/'-separated part is dropped |
| ContentNegotiation.BareStar | content_negotiation.go:58-60 | a lone `*` parses as `*/*` and matches exactly the complete targets |
| ContentNegotiation.SingleToken | content_negotiation.go:55-61 | any other lone token gets an empty subtype and matches nothing |
| ContentNegotiation.Accepts | content_negotiation.go:16-34 | defines acceptance without loops: no Accept header, an empty first value, or some comma-separated element of some value whose parsed media type matches the parsed content type |
| ContentNegotiation.AcceptsContentType | content_negotiation.go:16-34 | the nested search returns true iff there is no Accept header, its first value is empty, or some comma-separated element of some value matches the parsed content type |
| ContentNegotiation.AcceptsMoreValues | content_negotiation.go:24-31 | adding a further Accept value never withdraws acceptance |
| ContentNegotiation.SingleAcceptValue | content_negotiation.go:23-33 | one comma-free Accept value accepts exactly what its media type matches |
| ContentNegotiation.AcceptsWithoutPreference | content_negotiation_test.go:8-21 | no Accept header, or a blank one, accepts any content type |
| ContentNegotiation.AcceptsExactType | content_negotiation_test.go:23-39 | `text/xml` accepts text/xml |
| ContentNegotiation.AcceptsAdjacentListElement | content_negotiation_test.go:26 | `text/html,text/xml` accepts text/xml |
| ContentNegotiation.AcceptsListElement | content_negotiation_test.go:27 | `text/html, text/xml` accepts text/xml |
| ContentNegotiation.AcceptsWithAdjacentParameters | content_negotiation_test.go:28 | `text/xml;q=0.8` accepts text/xml |
| ContentNegotiation.AcceptsWithParameters | content_negotiation_test.go:29 | `text/xml ;q=0.6` accepts text/xml |
| ContentNegotiation.AcceptsSubtypeWildcard | content_negotiation_test.go:30 | `text/*` accepts text/xml |
| ContentNegotiation.AcceptsFullWildcard | content_negotiation_test.go:31 | `*/*` accepts text/xml |
| ContentNegotiation.AcceptsBareStar | content_negotiation_test.go:65-71 | a lone `*` accepts exactly the content types with both parts |
| ContentNegotiation.RejectsOtherType | content_negotiation_test.go:41-47 | `text/xml` does not accept text/html |
| ContentNegotiation.RejectsTypeWildcard | content_negotiation_test.go:49-55 | `*/xml` does not accept text/xml |
| ContentNegotiation.RejectsMissingSubtype | content_negotiation_test.go:57-63 | a type without subtype, such as `text`, accepts nothing |
| ContentNegotiation.AcceptsPrinted | content_negotiation.go:16-34 | an Accept header holding one printed media type accepts a printed content type iff the first matches the second |
| ContentNegotiation.AcceptsLaterElement | content_negotiation.go:25-27 | a matching media type after a comma and any run of blanks, none included, is found |
| ContentNegotiation.AcceptsIgnoringParameters | content_negotiation.go:25-27 | a media type followed by any run of blanks, then `;` and parameters, accepts exactly what the media type matches |
| ContentNegotiation.ParsedWithParameters | content_negotiation.go:50-66 | a printed media type followed by blanks, `;` and parameters parses back to itself, and the value holds no comma |
| ContentNegotiation.ContainsContentType | content_negotiation.go:40-44 | a true answer needs a complete Content-Type, and a request without one never matches, not even `*/*` |
| ContentNegotiation.ContainsPrinted | content_negotiation.go:40-44 | with a printed Content-Type and pattern, the answer is the pattern's match against the type |
| ContentNegotiation.ContainsExactType | content_negotiation.go:40-44 | a text/xml request contains text/xml |
| ContentNegotiation.ContainsSubtypeWildcard | content_negotiation.go:40-44 | a text/xml request contains `text/*` |
| ContentNegotiation.ContainsFullWildcard | content_negotiation.go:40-44 | a text/xml request contains `*/*` |
| Gzip.Recognise | gzip.go:32-34 | a recognised token is, trimmed, the name of its coding |
| Gzip.RecognisedIffNamed | gzip.go:32-42 | a token selects a coding iff, whitespace-trimmed, it equals that coding's name exactly |
| Gzip.FirstRecognised | gzip.go:31-54 | the chosen position holds a recognised token and every token before it is unrecognised; when none is chosen, no token is recognised |
| Gzip.Prepare | gzip.go:28-59 | the loop's choice is the first recognised token; a failing compressor gives a 500 with the headers `http.Error` sets and nothing else; compressing sets Content-Encoding to the coding's name and then Vary: Accept-Encoding; otherwise nothing changes |
| Gzip.Decide | gzip.go:28-54 | defines the decision: the first token, in order, whose trimmed form is `gzip` or `deflate` picks the coding, a failing codec turns it into the 500 reply, and no such token leaves the response uncompressed; `Prepare` is proved to reach it |
| Gzip.FirstRecognisedAt | gzip.go:31-54 | the token the loop stops at, with none recognised before it, is the first recognised one |
| Gzip.OpenCompressor | gzip.go:35-41 | one switch case: the compressor opens iff its codec does not fail, and then Content-Encoding names the coding; otherwise the `http.Error` reply with its headers |
| Gzip.Finish | gzip.go:40 | the one compressor opened is closed; headers stay |
| Gzip.Serve | gzip.go:27-62 | the whole wrapper: the handler runs once with the plain or the compressing writer, not at all after a 500, and the compressor is closed after it |
| Gzip.LaterTokensIgnored | gzip.go:51-53 | tokens after the first recognised one change nothing |
| Gzip.AbsentHeaderIsUncompressed | gzip.go:28 | a missing Accept-Encoding splits to one empty token and leaves the response uncompressed |
| Gzip.ParametersNotRecognised | gzip.go:32-34 | `gzip;q=0.5` is not recognised: quality parameters are not parsed |
| Gzip.UpperCaseNotRecognised | gzip.go:33-34 | `GZIP` is not recognised: names are compared case-sensitively |
| Gzip.PaddedTokenRecognised | gzip.go:32-34 | a blank-padded `gzip` is recognised |
| Gzip.FirstTokenWins | gzip.go:31-54 | `deflate, gzip` selects deflate |
| Static.StripVersion | static.go:42-45 | defines the rewrite: a path with more than three segments whose third starts with `ver=` loses that segment; `StripRemovesOneSegment` and `StrippedIffVersioned` state what it does |
| Static.StripRemovesOneSegment | static.go:42-45 | the rewritten path's segments are the old ones without the third, in order |
| Static.StrippedIffVersioned | static.go:43 | the path changes iff it has more than three segments and the third starts with `ver=` |
| Static.StripsSecondPosition | static.go:43-45 | a version segment in second position is removed and the rest joined |
| Static.KeepsTrailingVersion | static.go:43 | `/a/ver=1` (nothing after the version) is not rewritten |
| Static.KeepsOtherPositions | static.go:43 | a third segment that is not a version keeps the path as it is |
| Static.StripExample | static.go:41-45 | `/a/ver=1/b/c` becomes `/a/b/c` |
| Static.CacheHeaders | static.go:46-49 | a versioned path gets Expires, `Cache-Control: public, max-age=31536000` and `X-Content-Type-Options: nosniff`; an unversioned one gets none; other headers stay |
| Static.CachedIffStripped | static.go:43-50 | Cache-Control is set iff the path was rewritten |
| Static.ServeStatic | static.go:31-58 | the leading '/' is written back to the request; the file served is the cleaned, stripped path, inside the gzip wrapper, with the cache headers iff stripped; after a compressor failure only the 500 reply and its headers |
| Http.WithLeadingSlash | static.go:33-37 | a path gets a leading '/' iff it had none |
| Http.ErrorHeader | gzip.go:37 | the headers `http.Error` leaves: Content-Type `text/plain; charset=utf-8` and `X-Content-Type-Options: nosniff` added, every other header kept |
| Http.ResponseWriter.Error | gzip.go:37 | `http.Error` sets those headers and replies with the status |
| Download.ContentDisposition | download.go:41 | the value is `attachment;filename="`, the name verbatim, and `"` |
| Download.FilenameOf | download.go:41 | reading the name back from a header value and writing it again gives the value |
| Download.DispositionRoundTrip | download.go:41 | writing a name and reading it back gives the name |
| Download.AttachmentName | download.go:40 | the name holds no '/' and ends the path, after an empty or '/'-terminated directory |
| Download.ServeDownload | download.go:29-49 | the leading '/' is written back; Content-Disposition is set before the file is served with the plain writer |
| Welcome.MakeWelcomeHandler | welcome.go:22-29 | keys are exactly the name and "version"; "version" maps to the version; the name maps to "Welcome" unless it is "version", when the map is just `{"version": version}` |
| ExitStatus.Merge | exitstatus.go:28-34 | the new status is the larger of the old and the requested one |
| ExitStatus.MergeCommutes | exitstatus.go:28-34 | the order of status requests does not matter |
| ExitStatus.StatusAfterIsHighest | exitstatus.go:28-34 | after a run of requests the status is the highest of the start and every request |
| ExitStatus.RegisteredExactly | exitstatus.go:20-22 | each hook is registered as often as a hook asks to register it |
| ExitStatus.StatusAfterAppend | exitstatus.go:28-34 | later requests continue from the status earlier ones left |
| ExitStatus.RegisteredAppend | exitstatus.go:20-22 | registrations keep their order |
| ExitStatus.EffectsContain | exitstatus.go:42-44 | every action of every run hook takes effect |
| ExitStatus.ExitCodeBounds | exitstatus.go:42-45 | the exit code is at least the status before the hooks and every status a hook asks for |
| ExitStatus.Coordinator.constructor | exitstatus.go:12-15 | status 0, no hooks, no exit in progress |
| ExitStatus.Coordinator.Atexit | exitstatus.go:20-22 | the hook is appended; the status is unchanged |
| ExitStatus.Coordinator.SetExitStatus | exitstatus.go:28-34 | the status becomes the merge of old and requested; hooks are unchanged |
| ExitStatus.Coordinator.RunHook | exitstatus.go:43 | a hook's status requests and registrations take effect in order |
| ExitStatus.Coordinator.ExitWithStatus | exitstatus.go:40-48 | the hooks registered before the call run exactly once each, in order, hooks they register are not run, and the process exits with the status they leave; a second call waits for ever |
| Log.LogErrorf | log.go:14-17 | the status becomes the merge with 1; hooks and exit state are unchanged |
| Log.LogFatalf | log.go:21-24 | the process exits, after all hooks, with the status they leave starting from the merge with 1 |
| Log.LogPrintFatalf | log.go:28-31 | the same effect as LogFatalf |
| Log.FatalCodeIsFailure | log.go:21-24 | a fatal log exits with at least 1 and at least the status it found |
| Log.ErrorfIdempotent | log.go:16 | a second error log leaves the status unchanged |
| Sockets.CreateUnix | server.go:212-232 | success means a live socket at the path with mode `createMode \| 0060`; without a listener nothing changed |
| Sockets.CreateUnixSocket | server.go:212-232 | the listen, stat and chmod sequence against the operating system, as CreateUnix |
| Sockets.SocketListen | server.go:174-210 | the create, dial, remove and retry sequence against the operating system, as SocketListenSpec |
| Sockets.SocketListenSpec | server.go:174-210 | defines socketListen step by step: resolve, create, dial on failure, then remove and retry once for a Unix path; resolve and bind for a TCP address; the socket lemmas below are about it |
| Sockets.ModeWidened | server.go:230 | widening keeps every old bit and sets group read and write, nothing else |
| Sockets.CreateSucceedsIff | server.go:212-232 | creation succeeds iff the path is free and listen, stat and chmod all succeed |
| Sockets.LiveSocketRefused | server.go:184-196 | a live socket at the path gives "another process" and changes nothing |
| Sockets.StaleSocketReplaced | server.go:187-193 | a stale socket or other file is removed and replaced by a fresh socket |
| Sockets.RemoveFailureReported | server.go:188-190 | a failing remove is returned with nothing changed |
| Sockets.RetryFailureReported | server.go:191-193 | creation is retried once and the retry's error is returned |
| Sockets.OwnSocketMistakenForAnother | server.go:184-187 | a stat or chmod failure after listening gives "another process", with the new socket left bound |
| Sockets.LiveSocketKept | server.go:174-210 | a live socket is never removed or replaced |
| Sockets.CreateTouchesOnlyPath | server.go:212-232 | creation touches only its own path |
| Sockets.UnixTouchesOnlyPath | server.go:179-197 | a Unix address leaves TCP bindings and every other path alone |
| Sockets.TcpTouchesOnlyAddress | server.go:198-206 | a TCP address leaves the file system alone and binds at most itself |
| Sockets.TcpDoubleBindFails | server.go:203-205 | a bound TCP address cannot be bound again |
| Sockets.TcpBindsOnce | server.go:198-208 | a free TCP address is bound and then refuses a second bind |
| ServerLifecycle.PlainAddress | server.go:33-36 | an empty address becomes `:http` |
| ServerLifecycle.TlsAddress | server.go:82-85 | an empty address becomes `:https` |
| ServerLifecycle.DefaultNextProtos | server.go:94-96 | `http/1.1` is installed only when there were no next protocols at all |
| ServerLifecycle.ServeResult | server.go:132-140 | Start returns nil on quit, and a Serve error only when the server is not closing |
| ServerLifecycle.ServeOutcome | server.go:45-50 | a listen error is returned, otherwise the serve result |
| ServerLifecycle.TlsServeOutcomeAsWritten | server.go:71-77 | a listen error is turned into nil |
| ServerLifecycle.NilMeansListening | server.go:45-50 | a nil result from the intended outcome means listening succeeded |
| ServerLifecycle.TlsListenErrorSwallowed | server.go:108-113 | as written, a failed TLS listen reports nil where the intended outcome reports the error |
| ServerLifecycle.Server.constructor | server.go:23-29 | no listener, not closing, not started |
| ServerLifecycle.Server.Listen | server.go:32-41 | binds the defaulted address; on failure the listener is cleared |
| ServerLifecycle.Server.ListenTLSWithConfig | server.go:81-104 | a nil or certificate-less config is rejected before binding; next protocols are defaulted in place; success wraps the listener, failure keeps the old one |
| ServerLifecycle.Server.ListenTLS | server.go:53-67 | a copy of the server's config gets exactly the loaded certificate; the server's own config is never changed |
| ServerLifecycle.Server.Start | server.go:121-131 | without a listener Start fails, otherwise it is started |
| ServerLifecycle.Server.AwaitServe | server.go:132-140 | the wait ends as ServeResult says |
| ServerLifecycle.Server.Stop | server.go:144-153 | before Start it fails; otherwise it flags closing, then closes the listener, then sends quit, returning the close error |
| ServerLifecycle.Server.ServeUntilSignalled | server.go:155-172 | Start and its wait |
| ServerLifecycle.Server.ListenAndServe | server.go:45-50 | a listen error is returned with no listener left; otherwise the raw listener is kept, the server is started and the serve result returned; the TLS config, closing flag and stop steps are unchanged |
| ServerLifecycle.Server.ListenAndServeTLS | server.go:71-77 | as written: a load or listen failure is reported as nil and keeps the old listener; on success a fresh config holding exactly the loaded certificate wraps the listener and the server is started; the server's own config is unchanged |
| ServerLifecycle.Server.ListenAndServeTLSWithConfig | server.go:108-113 | as written: an invalid config or listen failure is reported as nil and keeps the old listener, with nothing bound for an invalid config; the caller's config keeps its certificates and gets the default next protocols once it passed the checks; on success it wraps the listener and the server is started |

## Left out

- Media type parsing works on Unicode scalar values. `strings.TrimSpace` is modelled through the 25 characters Go's `unicode.IsSpace` accepts.
- Header keys are taken in canonical form. `http.CanonicalHeaderKey` is the identity on the keys used here.
- ContentNegotiation.AcceptsContentType: it requires an Accept key to hold at least one value. Go indexes `values[0]` unguarded and would panic otherwise, but `net/http` never stores an empty list.
- The gzip and zlib codecs and `http.Error` bodies are not modelled. Whether creating a compressor fails is the parameter `codecFails`. Written bytes are not modelled.
- Gzip.Prepare, Gzip.Serve, Static.ServeStatic: on the 500 path only the two headers that current Go releases' `http.Error` sets are modelled: `Content-Type`, and `X-Content-Type-Options`, which older releases did not set. The clearing of `Content-Length` and similar headers that newer releases add is not modelled. The path is unreachable in the source: `gzip.NewWriterLevel` and `zlib.NewWriterLevel` fail only for a level outside the valid range, and `BestSpeed` is inside it.
- `path.Clean` is a function parameter `clean`, treated as given.
- The `Expires` value depends on `time.Now()` and is a parameter. No date arithmetic is modelled.
- file.go is not part of this model. `ServeFile` only branches on file system results and hands off to `http.ServeContent`; a served file is recorded as an event with the headers set at that point.
- JSON encoding of the welcome map is left out. The handler returned by `MakeWelcomeHandler` encodes the same map for every request.
- Log output (`log.Printf`, `fmt.Printf`) is left out; only the effect on the exit state is modelled.
- `os.Exit` becomes the terminal value `Exited(ran, code)`.
- The two mutexes are not modelled. A concurrent second `ExitWithStatus` is represented by `Blocked`.
- Hooks are limited to calling `SetExitStatus` and `Atexit`. A hook that calls `ExitWithStatus` (a deadlock in Go) or panics is not modelled.
- The operating system is abstract: bound TCP addresses, plus file system entries at socket paths that are live sockets, stale sockets or other files.
- Faults are fixed per path. A path whose listen fails fails on the retry too.
- Sockets.TcpDoubleBindFails, Sockets.TcpBindsOnce: TCP addresses are compared as strings. `:http` and `:80` name the same port but count as two addresses, and `:0`, which gets a fresh port on every bind, is treated as one fixed address. These two lemmas hold only for repeated binds of the identical string.
- Resolving an address fails exactly for the addresses listed in the faults.
- The connection `net.Dial` opens and never closes, and the file type bits of `os.FileMode`, are not modelled.
- Closing a listener fails when its address is no longer held.
- TLS internals are left out. `tls.LoadX509KeyPair` is the parameter `loadFails`, and `tls.NewListener` only wraps the listener with its config.
- The goroutine running `Serve` is not modelled, and neither are the channel race between Serve and `quit` and the memory visibility of `closing`. Start is split into its check (`Start`) and its wait (`AwaitServe`), and the event that ends the wait is a parameter.
- A send on `quit` that nobody receives blocks for ever in Go, for example on a second `Stop`. In the model the send is recorded as a step.
- `Stop` on a listener that a failed `Listen` reset to nil is a nil-interface call that panics in Go. It is the failure `NilListener` in the model.
- Signal handling in `serveUntilSignalled` (server.go:155-172) is left out. `ServeUntilSignalled` is only `Start` and its wait.
- `http.Server.Serve` itself, the serving of requests, is left out.

## Findings

| source | as written | input that shows it | evidently intended | confidence | as-written member | corrected member |
|---|---|---|---|---|---|---|
| server.go:72-74 | `ListenAndServeTLS` returns nil when `ListenTLS` fails, and `ListenAndServeTLSWithConfig` does the same at server.go:109-111 | a TLS server whose address is already bound: binding fails and the call reports success without serving | return the listen error, as `ListenAndServe` does at server.go:46-48 | not executed | ServerLifecycle.TlsServeOutcomeAsWritten | ServerLifecycle.ServeOutcome |

`Server.ListenAndServeTLS` and `Server.ListenAndServeTLSWithConfig` keep the behaviour as written, because that is what callers of the package observe. `Server.ListenAndServe` and `NilMeansListening` use the corrected outcome. `TlsListenErrorSwallowed` shows the two differ on every listen error.
