# rxpress HTTP engine core, modelled in Dafny

rxpress is a small Express-style HTTP/1.1 server library. This project models the engine's core:

- **Request.** `Request::new` splits the request line into method, target and version. It splits the target at its first `?` into a path and a query map. The request then offers lookups over the headers, route parameters and query parameters.
- **Routes.** `Route::matches` compares the upper-cased request method and then the `/`-separated segments. A segment starting with `:` binds a parameter on the request.
- **Router.** `Router::handle` dispatches to the first route that matches. When no route matches, it replies 404.
- **Response.** An HTTP response has a `sent` flag, a status code and reason, and a header map. It is written to the stream once, as a status line, the header lines, a `Content-Length` and the body.
- **Status table.** It maps `HttpStatus` to codes and codes to reason phrases.
- **Parser.** It reads the request line, the header block and a `Content-Length` body off a connection.
- **Server.** It builds its address and registers routes, one method per HTTP verb.
- **Legacy types.** The first request and response types. The legacy request type has the same fields and the same `new`, `header`, `param`, `query` and `parse_query`, and shares their model. It lacks the six `_or`/`_expect` accessors. The response type has no `sent` flag and always writes the reason `OK`.

Modules follow the source files:

| source | module |
|---|---|
| `src/http/request.rs` and `src/request.rs` | `HttpRequest` (request.dfy) |
| `src/router/route.rs` | `Routes` (route.dfy) |
| `src/router.rs` | `Routing` (router.dfy) |
| `src/http/response.rs` | `HttpResponse` (response.dfy) |
| `src/response.rs` | `LegacyResponse` (legacy_response.dfy) |
| `src/status.rs` | `StatusCodes` (status.dfy) |
| `src/http/parser.rs` | `Parser` (parser.dfy) |
| `src/server.rs` | `HttpServer` (server.dfy) |

Supporting modules:

- `Text`: the string operations the source borrows from Rust's `str`: `split`, `split_once`, `split_whitespace`, `trim`, `trim_start_matches`, ASCII case mapping and `eq_ignore_ascii_case`.
- `Decimal`: decimal formatting and `usize` parsing.
- `Assoc`: the "insert pairs into a map, last one wins" fold behind `parse_query`, `get_headers` and parameter binding.
- `Bytes`: UTF-8 encoding and the lossy decoding of the body.
- `Wire`: the connection. The output side is a `Stream` object whose log records every write and flush. An `Oracle` decides whether each write fails and, for a failing `write_all`, how many of its bytes got out first. An empty write always succeeds, since `write_all` of an empty buffer does not touch the socket. A flush always succeeds, since `TcpStream::flush` does nothing and returns `Ok`; the `failed to flush stream` branch is therefore never taken. The input side is a `Reader` holding the lines still to come and the bytes after them.
- `Wrappers`: `Option` and `Result`.

Each module's shape follows the source:

- Objects whose fields change become classes with `modifies` clauses: `Request` (only `params` changes), both `Response` types, `Router`, `Server`, `Stream` and `Reader`.
- Loops become methods proved against a specification function: `Matches`, `Handle`, `ParseQuery`, `Header`, `RenderHeaders`, `GetHeaders`.
- Pure code becomes functions with lemmas.

A Rust `HashMap`'s iteration order is unspecified, so the order of the headers on the wire is left open. `Transmits` says only that *some* order listing every key exactly once was used.

## Model

| member | source | states |
|---|---|---|
| HttpRequest.ParseRequestLine | src/http/request.rs:122-127 | Gives the method, target and version as whitespace-free tokens. |
| HttpRequest.RequestLineOfTokens | src/http/request.rs:122-127 | Tokens joined by single spaces parse back to exactly those three tokens when there are three. For any other number of tokens the result is `GET / HTTP/1.1`. |
| HttpRequest.RequestLineExample | src/http/request.rs:116-118 | The documented line `GET /hello?developer=alfaarghy HTTP/1.1` gives method `GET`, that target, and version `HTTP/1.1`. |
| HttpRequest.RequestLineFallback | src/http/request.rs:124-127 | A line of two tokens falls back to `GET / HTTP/1.1`, and so does an empty line. |
| HttpRequest.QueryPair | src/http/request.rs:441-447 | Splits a piece at its first `=`: the key holds no `=`, and key `=` value rebuilds the piece. A piece with no `=` maps to the empty value. |
| HttpRequest.QueryMapKeys | src/http/request.rs:438-450 | The keys of the parsed query are exactly the keys of its `&`-separated pieces. |
| HttpRequest.ParseQuery | src/http/request.rs:438-450 | The loop builds exactly `QueryMap(q)`. The legacy copy is src/request.rs:114-126. |
| HttpRequest.QueryLastWins | src/http/request.rs:441-447 | The value of a key comes from the last piece that has that key. |
| HttpRequest.QueryOfPieces | src/http/request.rs:440-448 | Pieces joined by `&` are parsed one by one and inserted in order. |
| HttpRequest.QueryEmpty | src/http/request.rs:440-448 | The empty query string gives `{"": ""}`. |
| HttpRequest.QueryFirstEquals | src/http/request.rs:442 | `a=1=2` maps `a` to `1=2`. |
| HttpRequest.QueryDuplicate | src/http/request.rs:443 | `a=1&a=2` maps `a` to `2`. |
| HttpRequest.QueryTest | src/http/request.rs:563-568 | `a=1&b=2&empty` gives a=1, b=2 and empty="". |
| HttpRequest.QuerySinglePair | src/http/request.rs:440-448 | A single `k=v` gives `{k: v}`. |
| HttpRequest.SplitTarget | src/http/request.rs:129-133 | Splits the target at its first `?`: the path holds no `?` and the query is parsed from the rest. Without a `?`, the path is the whole target and the query map is empty. |
| HttpRequest.TargetWithQuery | src/http/request.rs:129-131 | `p?q`, where `p` holds no `?`, splits into `p` and `QueryMap(q)`. |
| HttpRequest.MissingHeader | src/http/request.rs:242-248 | The error text contains ``Required header `key` is missing``. |
| HttpRequest.MissingParam | src/http/request.rs:336-342 | The error text contains ``Required route parameter `key` is missing``. |
| HttpRequest.MissingQuery | src/http/request.rs:428-434 | The error text contains ``Required query parameter `key` is missing``. |
| HttpRequest.Request.constructor | src/http/request.rs:121-144 | The fields are the request line's parts and the target's path and query, plus the given headers and body. Params start empty. The legacy copy is src/request.rs:35-58. |
| HttpRequest.Request.Header | src/http/request.rs:176-181 | Returns a value exactly when some stored key equals `key` ignoring ASCII case, and then it is that key's value. The legacy copy is src/request.rs:73-78. |
| HttpRequest.Request.HeaderOr | src/http/request.rs:206-211 | Exact-key lookup: the stored value, or the default when the key is absent. |
| HttpRequest.Request.HeaderExpect | src/http/request.rs:242-248 | `Ok` iff the exact key is present, with its value. Otherwise the error names the key. |
| HttpRequest.Request.Param | src/http/request.rs:277-279 | `Some` iff the key is bound, with its value. The legacy copy is src/request.rs:92-94. |
| HttpRequest.Request.ParamOr | src/http/request.rs:303-308 | The bound value, or the default. |
| HttpRequest.Request.ParamExpect | src/http/request.rs:336-342 | `Ok` iff the key is bound. Otherwise the error names the key. |
| HttpRequest.Request.Query | src/http/request.rs:370-372 | `Some` iff the key is in the query map, with its value. The legacy copy is src/request.rs:108-110. |
| HttpRequest.Request.QueryOr | src/http/request.rs:396-401 | The query value, or the default. |
| HttpRequest.Request.QueryExpect | src/http/request.rs:428-434 | `Ok` iff the key is in the query map. Otherwise the error names the key. |
| HttpRequest.Request.HeaderOrIgnoringCase | src/http/request.rs:183-211 | The lookup the documentation promises: a value under a key equal to `key` ignoring ASCII case, else the default. |
| HttpRequest.Request.HeaderExpectIgnoringCase | src/http/request.rs:213-248 | `Ok` iff some key equals `key` ignoring ASCII case, with that key's value. Otherwise the same error. |
| HttpRequest.AccessorsAgree | src/http/request.rs:303-342 | The `_or` and `_expect` forms give a default or an error exactly when the plain lookup finds nothing. |
| HttpRequest.ExactKeyFoundIgnoringCase | src/http/request.rs:176-211 | Every exact-key hit of `header_or` is also a hit of `header`. |
| HttpRequest.OneHeaderFoundIgnoringCase | src/request.rs:151-160 | A request built with one header finds it by `header` under any spelling that differs only in ASCII case, as the test does with `Content-Type` and `content-type`. |
| Routes.ParamName | src/router/route.rs:39 | `trim_start_matches(':')` strips every leading `:` and nothing else. |
| Routes.FirstMismatch | src/router/route.rs:36-47 | The first position where a literal segment differs from the request's, or the length when there is none. |
| Routes.MatchOutcome | src/router/route.rs:24-50 | The result is false with params unchanged on a method mismatch or a segment-count mismatch. Otherwise it is true iff every literal segment agrees. Params are only ever added or overwritten. |
| Routes.Matches | src/router/route.rs:23-49 | Returns the verdict of `MatchOutcome` and leaves `req.params` as it says, including the bindings made before a later literal mismatch. |
| Routes.BindSegments | src/router/route.rs:35-48 | The segment loop succeeds exactly when no segment disagrees. It binds the parameters of the segments before the first disagreement, on top of the params already there. |
| Routes.BindAfterStep | src/router/route.rs:36-47 | One loop step binds the segment's name to a non-empty request segment and otherwise changes nothing. |
| Routes.BoundValue | src/router/route.rs:37-42 | A parameter segment bound to a non-empty value keeps it unless a later segment of the same name overwrites it. |
| Routes.KeyUnbound | src/router/route.rs:40-42 | A name whose every segment meets an empty request segment is never bound. |
| Routes.ParamBound | src/router/route.rs:37-42 | After a match the parameter's name maps to the request segment at its position. |
| Routes.KeyUntouched | src/router/route.rs:40-42 | A key that is never bound keeps its old presence and value. |
| Routes.MatchedLiteralsEqual | src/router/route.rs:44-46 | In a matching route, every literal segment equals the request's segment. |
| Routes.LowercaseRouteNeverMatches | src/router/route.rs:25-27 | A route registered with a lower-case letter in its method never matches. |
| Routes.LowercaseRequestMatches | src/router/route.rs:25 | The request method is upper-cased: `get` reaches `GET`, but not a route stored as `get`. |
| Routes.StaticRouteMatches | src/router/route.rs:61-66 | `/lit` matches `/seg` iff they are equal, binding nothing. |
| Routes.ParamRouteMatches | src/router/route.rs:69-75 | `/lit/:name` matches `/lit/value` and binds `name` to `value`, unless the value is empty (src/router/route.rs:78-84), when it binds nothing. |
| Routes.PartialBinding | src/router/route.rs:36-46 | A route that binds a parameter and then fails on a later literal still leaves that binding in the request. |
| Routing.ParamsAfterAttempts | src/router.rs:24-29 | The params left by running `matches` on each route in turn. The old keys are kept. |
| Routing.FirstTrueFromFinds | src/router.rs:24-29 | The scan in registration order stops at the first route from `from` on that accepts. No earlier route from `from` accepts. Without a match, none accepts. |
| Routing.FirstMatch | src/router.rs:24-29 | The first route, in registration order, that accepts. None earlier accepts. Without a match, no route accepts. |
| Routing.ParamsAfterDispatch | src/router.rs:24-31 | The params after dispatch: those of every attempt up to the accepted route, or of all attempts. |
| Routing.LaterRoutesIgnored | src/router.rs:25-28 | Routes added after the first match change neither the chosen route nor the params. |
| Routing.NextRouteTried | src/router.rs:24-29 | In a table where nothing matched, an added route is chosen iff it accepts in the state the earlier attempts left behind. |
| Routing.StaleBindingKept | src/router.rs:24-31 | A rejected route's bindings stay in the request after the 404. |
| Routing.Router.constructor | src/router.rs:13-15 | The table starts empty. |
| Routing.Router.AddRoute | src/router.rs:18-20 | Appends exactly one route. |
| Routing.ReplyNotFound | src/router.rs:31 | Sets status 404 with reason `Not Found` and sends `404 Not Found` as `text/plain`, unless a response was already sent. |
| Routing.Router.Handle | src/router.rs:23-32 | Leaves the table unchanged and the params as `ParamsAfterDispatch` says. On a match it returns the first matching route's handler and does not touch the response. Otherwise it sets status 404 with reason `Not Found` and sends `404 Not Found` as `text/plain`, unless a response was already sent. |
| HttpResponse.ReadToString | src/http/response.rs:216 | The file's contents, or `None` when it cannot be read. |
| HttpResponse.MissingFileBody | src/http/response.rs:221-224 | The error page names the missing path. |
| HttpResponse.HeaderLines | src/http/response.rs:234-239 | One `key: value` line per key, in the given order. |
| HttpResponse.Head | src/http/response.rs:242-248 | The head starts with the status line `HTTP/1.1 code reason` and CRLF. |
| HttpResponse.RenderHeaders | src/http/response.rs:234-239 | Every key appears exactly once, as `key: value`, and the lines are joined by CRLF. |
| HttpResponse.EachHeaderOnce | src/http/response.rs:234-239 | Each header is rendered on exactly one line. |
| HttpResponse.Response.constructor | src/http/response.rs:41-53 | Status 200 `OK`, not sent, only the powered-by header, nothing written. |
| HttpResponse.Response.Status | src/http/response.rs:92-110 | For a variant: its code and the table's reason. For a bare code: the table's reason. For a code and reason: both verbatim. |
| HttpResponse.Response.SetHeader | src/http/response.rs:121-124 | Inserts or replaces exactly that key. |
| HttpResponse.Response.WriteResponse | src/http/response.rs:233-263 | Writes the head, the body and a flush, stopping at the first failure. |
| HttpResponse.TransmitsDelivers | src/http/response.rs:250-260 | The peer receives a prefix of head and body: all of both exactly when both writes succeed, less than the head when the head's write fails, the head and less than the body when only the body's write fails. |
| HttpResponse.EmptyBodyCompletes | src/http/response.rs:255-262 | An empty body's write cannot fail, so once the head is out the flush follows. |
| Wire.WriteAt | src/http/response.rs:250 | `write_all`: an empty buffer succeeds, and a failing call has sent a strict prefix of its buffer. |
| HttpResponse.Response.Send | src/http/response.rs:136-146 | The first call sets `text/plain` and transmits one response with the current status. Later calls write nothing and change nothing. |
| HttpResponse.Response.Json | src/http/response.rs:158-168 | The same, with `application/json`. |
| HttpResponse.Response.Html | src/http/response.rs:182-192 | The same, with `text/html; charset=utf-8`. |
| HttpResponse.Response.HtmlFile | src/http/response.rs:207-229 | Sends the file's contents as HTML. When the file cannot be read, it sends a 500 page naming the path. Nothing happens once a response was sent. |
| HttpResponse.Response.ReplyMissingFile | src/http/response.rs:220-226 | Status 500 `Internal Server Error`, and a transmission of the page naming the path. The headers and the `sent` flag do not change. |
| HttpResponse.SecondSendIgnored | src/http/response.rs:136-146 | Of two sends, only the first reaches the stream. |
| HttpResponse.ReasonOnWire | src/http/response.rs:99-102 | A bare code goes out with the table's reason for that code. |
| StatusCodes.Code | src/status.rs:192-194 | Each variant's code is between 100 and 511 and names the variant back. |
| StatusCodes.Reason | src/status.rs:107-182 | A non-empty phrase exactly for the listed codes. |
| StatusCodes.TableCoversVariants | src/status.rs:23-95 | Every variant has a phrase, and distinct variants have distinct codes. |
| StatusCodes.FromCodeInverse | src/status.rs:23-95 | The discriminant table is injective. |
| StatusCodes.CodeExamples | src/status.rs:203-207 | OK is 200, NotFound is 404, InternalServerError is 500. |
| StatusCodes.ReasonExamples | src/status.rs:211-216 | 200 is "OK", 404 is "Not Found", and 418 is "I'm a Teapot" with that capitalisation. Unlisted codes give the empty string. |
| Parser.RequestLineOf | src/http/parser.rs:9-23 | `Ok` with the first line's text. `no request line` at end of input, `failed to read request line` on a read error. |
| Parser.GetRequestLine | src/http/parser.rs:9-23 | Returns `RequestLineOf` and consumes one line. |
| Parser.HeaderField | src/http/parser.rs:35-39 | `None` exactly for a line without `:`. |
| Parser.HeaderFieldShape | src/http/parser.rs:36 | The key holds no upper-case letter and no `:`. The value is trimmed at both ends. |
| Parser.HeaderFieldOf | src/http/parser.rs:35-36 | `key:value`, with no `:` in the key, gives the trimmed, lower-cased key and the trimmed value. |
| Parser.HeaderEnd | src/http/parser.rs:29-43 | The first empty line or read error, or the end of input. |
| Parser.FieldOf | src/http/parser.rs:31-39 | A field exactly for a well-formed line. |
| Parser.GetHeaders | src/http/parser.rs:26-46 | Returns `HeaderMap`: the fields of the lines before the stop, later lines overriding earlier ones. Consumes those lines and the stop line. |
| Parser.NothingAfterStop | src/http/parser.rs:32-33 | Lines after an empty line or a read error do not affect the headers. |
| Parser.FieldsConcat | src/http/parser.rs:29-43 | Fields of concatenated lines are concatenated. |
| Parser.MalformedSkipped | src/http/parser.rs:37-39 | A non-empty line without `:` is skipped. |
| Parser.LaterLineOverwrites | src/http/parser.rs:36 | A later line with the same key overwrites the earlier value. |
| Parser.HostHeaderExample | src/http/parser.rs:35-36 | `Host: a:1` gives `host` and `a:1`, split at the first colon. |
| Parser.FieldsLowerCase | src/http/parser.rs:36 | Every parsed key is free of upper-case letters. |
| Parser.HeaderKeysLowerCase | src/http/parser.rs:36 | Every key of the header map is free of upper-case letters. |
| Parser.BodyLength | src/http/parser.rs:54-55 | A length exactly when `content-length` is present and parses as a `usize`. |
| Parser.BodyOf | src/http/parser.rs:49-68 | `Ok("")` without a length. A length from 2^63 on is the `vec!` capacity-overflow panic. Otherwise the lossily decoded first `n` bytes, or `failed to read body` when fewer remain. |
| Parser.GetBody | src/http/parser.rs:49-68 | Returns `BodyOf`. It consumes the body's bytes, and reads nothing on a panic or without a length. |
| Parser.BodyRoundTrip | src/http/parser.rs:54-58 | An ASCII body sent with its own length comes back unchanged. |
| Parser.HugeLengthPanics | src/http/parser.rs:55-56 | Every accepted length from 2^63 on panics before reading, whatever the connection holds; `9223372036854775808` is the smallest. |
| Parser.BoundedBodyOf | src/http/parser.rs:54-63 | The intended reading: an error exactly when the length exceeds the bytes that remain, never a panic. |
| Parser.BoundedBodyAgrees | src/http/parser.rs:54-63 | Agrees with `get_body` wherever `get_body` returns, and fails where `get_body` panics on a connection shorter than 2^63 bytes. |
| Parser.NoBreakSpaceTrimmed | src/http/parser.rs:36 | A no-break space after the colon is trimmed like a space: `X-Name:` U+00A0 `bob` stores `bob`. |
| Decimal.ParseLeadingZero | src/http/parser.rs:55 | `parse::<usize>` accepts leading zeros with the same value. |
| Parser.HeaderLineRead | src/http/parser.rs:35-36 | `key: value`, already trimmed, gives the lower-cased key and the value. |
| Parser.ContentLengthLineRead | src/http/parser.rs:36 | `Content-Length: n` is stored under `content-length`. |
| HttpServer.AddressFor | src/server.rs:78-86 | The address is `127.0.0.1:` followed by the port. |
| HttpServer.AddressExample | src/server.rs:352-355 | Port 3000 gives `127.0.0.1:3000`. |
| HttpServer.Server.constructor | src/server.rs:78-86 | The address for the port and a fresh, empty router. |
| HttpServer.Server.Address | src/server.rs:239-241 | The stored address. |
| HttpServer.Server.Get | src/server.rs:101-103 | Appends one `GET` route. |
| HttpServer.Server.Post | src/server.rs:118-120 | Appends one `POST` route. |
| HttpServer.Server.Put | src/server.rs:135-137 | Appends one `PUT` route. |
| HttpServer.Server.Delete | src/server.rs:152-154 | Appends one `DELETE` route. |
| HttpServer.Server.Patch | src/server.rs:169-171 | Appends one `PATCH` route. |
| HttpServer.Server.Options | src/server.rs:187-189 | Appends one `OPTIONS` route. |
| HttpServer.Server.Head | src/server.rs:204-206 | Appends one `HEAD` route. |
| HttpServer.Server.GetRequestLine | src/server.rs:279-294 | The same rule as the parser's. |
| HttpServer.Server.GetHeaders | src/server.rs:297-320 | The same stop, split, trim, lower-case and skip rules as the parser's. |
| HttpServer.Server.GetBody | src/server.rs:323-343 | The same `Content-Length` rule as the parser's, including the panic from 2^63 on. |
| HttpServer.RegistrationOrder | src/server.rs:101-120 | Routes are kept in registration order. |
| HttpServer.ExactLookupMissesSentHeader | src/http/request.rs:206-211 | On headers read by the parser, `header_or` and `header_expect` miss every key with an upper-case letter. |
| HttpServer.SentHeaderFoundIgnoringCase | src/http/request.rs:176-181 | A header sent as `Key: value` is found by the case-insensitive lookup under `Key`. |
| LegacyResponse.Response.constructor | src/response.rs:16-25 | Status 200 and only the powered-by header. |
| LegacyResponse.Response.Status | src/response.rs:36-39 | Stores the code. |
| LegacyResponse.Response.SetHeader | src/response.rs:51-54 | Inserts or replaces exactly that key. |
| LegacyResponse.Response.WriteResponse | src/response.rs:85-104 | Writes the head with reason `OK`, then the body and a flush. The first failure stops the sequence, and the method reports whether none failed. |
| LegacyResponse.Response.Send | src/response.rs:65-68 | Sets `text/plain` and writes a whole response on every call. |
| LegacyResponse.Response.Json | src/response.rs:79-82 | Sets `application/json` and writes a whole response on every call. |
| LegacyResponse.SendTwice | src/response.rs:65-68 | Two sends write two responses back to back. |
| LegacyResponse.HeadsDiffer | src/response.rs:94-99 | Heads that differ only in their reason phrase differ. |
| LegacyResponse.MislabelledHead | src/response.rs:94-99 | For every code whose reason is not `OK`, the head written differs from the head carrying the code's reason. |
| LegacyResponse.NotFoundSaysOK | src/response.rs:94-99 | A 404 goes out as `HTTP/1.1 404 OK`, not `Not Found`. |

## Left out

- `Server::run`, `handle_connection`, `src/connection.rs` and `src/main.rs`: accepting TCP connections and wiring parser, request, router and response together. `run` handles the connections one at a time, on the thread that called it, inside its accept loop (src/server.rs:230-232). The model keeps each step as its own method; the sockets and the accept loop are left out.
- Handler invocation: `Routing.Router.Handle` returns the id of the handler to call and does not run it. Handlers are arbitrary user closures.
- Type mismatch in `src/router.rs` and `src/server.rs`: both import the legacy request and response types (src/server.rs:26-27), which src/lib.rs:292-295 does not declare as modules, and `handle_connection` builds the legacy types (src/server.rs:269-270). The modelled `HttpServer` reading methods feed the current `Request`, as `src/connection.rs` does. `Route::matches` takes the current request type, and the router is called from `src/connection.rs` with the current types. The router is modelled with the current `Request` and `Response`.
- `eprintln!`, `println!` and the warnings on a second send and on malformed headers: these are console output with no effect on state.
- The status module's `StatusArg` conversions (`From<HttpStatus>`, `From<u16>`, `From<(u16, &str)>`): the file that defines them is not part of this model. The three forms are the `StatusArg` datatype, passed explicitly.
- `Route::new`: it is the datatype constructor `Route(method, path, handler)`.
- Unicode: `to_uppercase` is modelled on ASCII letters only. `trim` and `split_whitespace` use the full Unicode White_Space set, as `char::is_whitespace` does. `String::from_utf8_lossy` is modelled as ASCII-preserving, with every other byte replaced by U+FFFD. Multibyte UTF-8 decoding is not modelled.
- I/O errors other than end of input: a failed read is one `LineError` or a premature end of the byte stream. `BufReader`'s internal buffering is not modelled. `Reader` holds the lines and then the remaining bytes.
- HashMap iteration order: header order on the wire is existential. When several header keys differ only in case, which one `header` returns is left open.
- Parser.BodyOf, Parser.GetBody, HttpServer.Server.GetBody: a length below 2^63 whose allocation the machine cannot satisfy aborts the process in the source. The model treats it as an ordinary length (a failed read when fewer bytes remain), because memory is not modelled. A partial read before a failure is not described.
- HttpServer.Server.GetRequestLine, HttpServer.Server.GetHeaders, HttpServer.Server.GetBody: these delegate to the parser's model, which applies the same rules. Their `eprintln!` messages are not modelled.
- LegacyResponse.Response.WriteResponse: an `unwrap` panic is modelled as the method returning `completed == false` after the failed step. The unwinding is not modelled; no thread is spawned per connection, so it unwinds the thread that handles the connection.
- The concrete route tests (`/hello`, `/users/:id`, `/users/`) are stated for every literal and parameter name of that shape. They are not instantiated with the test's strings.

## Findings

| source | as written | input that shows it | evidently intended | confidence | as-written member | corrected member |
|---|---|---|---|---|---|---|
| src/http/request.rs:206-211 | `header_or` and `header_expect` look the key up exactly, but src/http/parser.rs:36 stores every header key lower-cased. The documented usages `header_or("Content-Type", "text/plain")` (src/http/request.rs:193) and `header_expect("Authorization")` (src/http/request.rs:28, :222) therefore return the default and err on a request read off a connection. | header line `Content-Type: application/json`, lookup `header_or("Content-Type", "text/plain")` | the lookup `header` performs, ignoring ASCII case | medium, not executed | HttpServer.ExactLookupMissesSentHeader | HttpServer.SentHeaderFoundIgnoringCase |
| src/http/parser.rs:55-56 (src/server.rs:330-331 does the same) | `vec![0; size]` panics with "capacity overflow" before any read when the length exceeds `isize::MAX`. `run` (src/server.rs:225-232) handles each connection inside its accept loop, so one request stops the server. | `Content-Length: 9223372036854775808` | a failed read, `Err("failed to read body")` | high, not executed | Parser.HugeLengthPanics | Parser.BoundedBodyOf |
| src/response.rs:94-99 | The status line hard-codes the reason `OK`, so `status(404)` writes `HTTP/1.1 404 OK`. | `status(404)` then `send("Not found")` | the code's own reason phrase, as src/http/response.rs:242-248 writes it | high, not executed | LegacyResponse.NotFoundSaysOK | HttpResponse.ReasonOnWire |
