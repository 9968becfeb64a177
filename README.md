# OpenBMC HTTP polling client, modelled in Dafny

`fsmhttp/proto.py` is a small HTTP/1.1 client for an OpenBMC rack
controller. At any time it has one connection and one request in flight.

- It logs in with `POST /login [user, passwd]` and keeps the session cookie
  the server sets.
- It then asks for `GET /api/storage/rack`.
- It reassembles the response from the chunks the event loop hands to
  `process_data`, counting down the declared `Content-Length`.
- Finally it walks the decoded rack document against a tree of point
  specifications, printing one `(metric name, value, time)` sample per
  matched scalar.

This project models that client:

| module | what it models |
|---|---|
| `Json` | decoded JSON values. An object keeps its members in order. |
| `Text` | the Python string operations the client uses: `find`, `split(sep)`, `split()`, `startswith`, slicing, `int()`, and decimal formatting of a length. |
| `Request` | the request texts `get` and `post` stage, with lemmas on their framing. Framing follows section 2.1 of RFC 9112 (header fields ended by an empty line) and section 6.2 of RFC 9112 (`Content-Length`). |
| `Response` | how the first chunk of a response is read: the two-way split at CRLF CRLF, and the header loop, as a method proved against a function. |
| `Points` | `_process_points` and `on_data`, as a pure walk. It returns the samples printed and whether the walk ran to its end without raising. `str.format(**context)` is modelled for `{name}` placeholders and `{{` `}}`. A reference function, `Selected`, gives what the walk should select. |
| `RackData` | the decoding steps of `_on_rack_data` and its loop over the configured top-level keys. |
| `Session` | the whole client state as the value `Conn`. It also holds each operation as a function on that value: `get`, `post`, `process_data` (`Step`), `_on_response`, `_on_login` and `_on_rack_data`, plus the event loop feeding chunks (`Deliver`). The lemmas state what the client promises. |
| `Client` | class `OpenBmcHttpClient`. Its fields are the client's fields and its methods update them in place. Each method is proved to leave `Snapshot()` exactly where the matching `Session` function says. |
| `Scenarios` | two concrete runs worked through the general lemmas: a login answer read in one chunk, and a rack walk with the configuration shape of `main`. |

Exceptions that escape `process_data` are the outcome `Raised(fault)`:

- the two-name unpack of the head split (`MalformedHead`);
- `int()` on a `Content-Length` value (`BadContentLength`);
- `_status[1]` (`NoStatusCode`).

Exceptions inside a phase handler are folded into `False`, as in
`_on_response`. Samples printed before such an exception stay printed.

Headers are not buffered across chunks, and the model reproduces this. A
first chunk without CRLF CRLF gives `Raised(MalformedHead)`, and so does one
with a second CRLF CRLF after the first. Three further quirks are kept as
written:

- a computed count of exactly `-1` is taken for "no length";
- a negative count is never guarded against;
- `Set-Cookie:` is kept as the whole text after its twelfth character.

## Model

| member | source | states |
|---|---|---|
| Text.Drop | fsmhttp/proto.py:66 | `h[k:]` has the length Python gives and holds the characters of `h` from `k` on |
| Text.Find | fsmhttp/proto.py:59 | the index found is one where the delimiter occurs and no earlier index matches; `None` means it occurs nowhere |
| Text.FindInPrefix | fsmhttp/proto.py:59 | a first occurrence that lies inside a prefix is the first occurrence in that prefix too |
| Text.NoFindInPrefix | fsmhttp/proto.py:59 | a delimiter absent from a text is absent from each of its prefixes |
| Text.Split | fsmhttp/proto.py:60 | `str.split(sep)` always yields at least one piece, so `headers[0]` exists |
| Text.SplitJoin | fsmhttp/proto.py:22-27 | lines without CR, joined by CRLF, split back into exactly those lines |
| Text.HeadEndAfterLines | fsmhttp/proto.py:22-27 | in non-empty CR-free lines joined by CRLF and followed by CRLF CRLF, the first CRLF CRLF is the one right after the lines |
| Text.NoHeadEndInLines | fsmhttp/proto.py:22-27 | no CRLF CRLF starts inside the joined lines |
| Text.Word | fsmhttp/proto.py:62 | the first token is the longest space-free prefix and ends at a space or at the end |
| Text.Words | fsmhttp/proto.py:62 | `str.split()` yields only non-empty tokens |
| Text.WordOfPrefix | fsmhttp/proto.py:62 | a space-free prefix followed by a space (or nothing) is the first token |
| Text.WordsCons | fsmhttp/proto.py:62 | the token list of `token + rest` is that token followed by the tokens of `rest` |
| Text.WordsSpace | fsmhttp/proto.py:62 | a leading space adds no token |
| Text.StatusWords | fsmhttp/proto.py:62 | for a status line `version SP code ...` the first two tokens are the version and the code, so `_status[1]` is the code |
| Text.Decimal | fsmhttp/proto.py:34-39 | `"{}".format(n)` of a length is a non-empty string of digits |
| Text.DecimalValue | fsmhttp/proto.py:34-39 | the digits of `"{}".format(n)` read back as `n` |
| Text.ParseDecimal | fsmhttp/proto.py:34-39 | `int()` of the `Content-Length` value `post` writes (after the space) parses back to the number written |
| Text.ParseInt | fsmhttp/proto.py:70 | definition of `int()` on a header value in base 10: surrounding white space is stripped, one sign is allowed and at least one digit is required, otherwise it raises (`None`); `Text.ParseDecimal` shows it reads back what `post` writes |
| Json.Get | fsmhttp/proto.py:143 | `d.get(k)` finds a field named `k`, and gives `None` exactly when no field has that name |
| Request.GetFraming | fsmhttp/proto.py:22-27 | the GET text ends with its only CRLF CRLF, and what comes before it splits back into the GET's header lines |
| Request.GetCookieField | fsmhttp/proto.py:26 | the GET has a `Cookie:` line iff `cookies` is truthy, and that line is `Cookie: ` followed by the whole cookie |
| Request.GetKeepAliveField | fsmhttp/proto.py:25 | the GET has `Connection: keep-alive` iff keep-alive is configured |
| Request.PostCookieField | fsmhttp/proto.py:38 | the POST has a `Cookie:` line iff `cookies` is truthy, and that line carries the whole cookie |
| Request.PostKeepAliveField | fsmhttp/proto.py:37 | the POST has `Connection: keep-alive` iff keep-alive is configured |
| Request.GetRequest | fsmhttp/proto.py:22-27 | definition of the text `get` stages: its header lines joined by CRLF, then CRLF CRLF; its properties are `Request.GetFraming`, `Request.GetCookieField` and `Request.GetKeepAliveField` |
| Request.PostRequest | fsmhttp/proto.py:34-41 | definition of the text `post` stages: its header lines joined by CRLF, CRLF CRLF, the body `{"data":...}` and CRLF CRLF again; its properties are `Request.PostFraming`, `Request.PostBodyLength`, `Request.PostCookieField`, `Request.PostKeepAliveField` and `Response.PostDeclaresBodyLength` |
| Request.FramingOfLines | fsmhttp/proto.py:22-41 | for well-formed header lines and any body, the head ends at the first CRLF CRLF, the body follows it, and the head splits back into the lines |
| Request.RequestLineWellFormed | fsmhttp/proto.py:22-34 | the request line is non-empty and CR-free when the URL is |
| Request.OptionalWellFormed | fsmhttp/proto.py:25-38 | the optional keep-alive and cookie lines are well formed when the cookie is CR-free |
| Request.GetLinesWellFormed | fsmhttp/proto.py:22-27 | every GET header line is non-empty and CR-free when URL, host and cookie are |
| Request.LengthLineWellFormed | fsmhttp/proto.py:34-39 | the `Content-Length` line is well formed |
| Request.PostTrailerWellFormed | fsmhttp/proto.py:34 | the fixed POST lines after the cookie are well formed |
| Request.PostLinesWellFormed | fsmhttp/proto.py:29-41 | every POST header line is non-empty and CR-free when URL, host and cookie are |
| Request.PostFraming | fsmhttp/proto.py:29-41 | the POST head ends at the first CRLF CRLF, the wrapped body then CRLF CRLF follow, and the head splits back into the POST's header lines |
| Request.PostBodyLength | fsmhttp/proto.py:34-39 | the wrapper `{"data":...}` adds exactly 9 characters, the amount `post` adds to the payload length |
| Response.SplitHead | fsmhttp/proto.py:59 | the two-name unpack succeeds iff CRLF CRLF occurs and does not occur again after its first occurrence; then the chunk is head, CRLF CRLF, body |
| Response.ScanFrom | fsmhttp/proto.py:64-72 | definition of the header loop from line `i` on, carrying the loop's `cookies` and counter: a `Set-Cookie:` line takes `h[12:]` and breaks once the counter is set, a `Content-Length:` line sets the counter to the value less the fragment length and breaks once a cookie is held, `int()` failing raises; `Response.ScanHeaders` is the loop proved equal to it |
| Response.HeaderScan | fsmhttp/proto.py:63-72 | definition of the whole loop, entered with no cookie and the counter at `-1`; its properties are `Response.NoLengthIsSentinel`, `Response.OneLength`, `Response.NoCookieLine`, `Response.OneCookie` and `Response.AgreedLengthEitherWay` |
| Response.ScanHeaders | fsmhttp/proto.py:63-72 | the header loop, with both early `break`s, computes exactly the reference scan `HeaderScan` |
| Response.NotBoth | fsmhttp/proto.py:65-69 | no header line is both a `Set-Cookie:` and a `Content-Length:` line |
| Response.NoLengthKeepsCounter | fsmhttp/proto.py:63-72 | with no `Content-Length:` line from some point on, the rest of the loop cannot raise and leaves the counter as it was |
| Response.NoLengthIsSentinel | fsmhttp/proto.py:58-72 | with no `Content-Length:` line the counter stays at `-1` |
| Response.OneLengthSetsCounter | fsmhttp/proto.py:69-70 | one parseable `Content-Length: n` line from some point on makes the counter `n - len(body fragment)` |
| Response.OneLength | fsmhttp/proto.py:69-70 | one `Content-Length: n` line in the head makes the counter `n - len(body fragment)` |
| Response.NoCookieKeepsCookie | fsmhttp/proto.py:63-66 | with no `Set-Cookie:` line from some point on, the rest of the loop keeps the local `cookies` |
| Response.NoCookieLine | fsmhttp/proto.py:63-66 | with no `Set-Cookie:` line the loop finds no cookie |
| Response.OneCookieFrom | fsmhttp/proto.py:64-68 | one `Set-Cookie:` line from some point on yields its value `h[12:]` |
| Response.OneCookie | fsmhttp/proto.py:64-68 | a head with one `Set-Cookie:` line yields exactly `h[12:]` of that line |
| Response.NotLengthAt | fsmhttp/proto.py:69 | a line differing from `Content-Length:` at one of its first 15 positions is not a length line |
| Response.NotCookieAt | fsmhttp/proto.py:65 | a line differing from `Set-Cookie:` at one of its first 11 positions is not a cookie line |
| Response.OptionalLinesNoFields | fsmhttp/proto.py:25-38 | the keep-alive and `Cookie:` lines the client sends are neither `Set-Cookie:` nor `Content-Length:` lines |
| Response.PostLinesFields | fsmhttp/proto.py:34 | of the POST's own header lines, only the last is a length line, and that one is no cookie line |
| Response.PostDeclaresBodyLength | fsmhttp/proto.py:29-41 | read with the header loop, a POST's head leaves no cookie and a counter of exactly 0 for its wrapped body: it declares exactly the length of the body it writes |
| Response.AgreedLength | fsmhttp/proto.py:63-72 | when every `Content-Length:` line declares the same `n`, the loop cannot raise, and once a length line is seen the counter is `n - len(body fragment)` |
| Response.ScanShift | fsmhttp/proto.py:63-72 | two runs of the loop over the same lines with different fragment lengths, neither meeting the sentinel, agree on the cookie, on whether `int()` raised, on whether the counter stayed `-1`, and on counter plus fragment length |
| Response.LengthsAvoidSentinel | fsmhttp/proto.py:67-72 | when the declared length is at least the fragment length, no computed counter is `-1` |
| Response.AgreedLengthEitherWay | fsmhttp/proto.py:63-72 | a head declaring `n` read with a fragment of length `b <= n` leaves counter `n - b`; with all `n` characters it leaves 0; the cookie is the same both ways |
| Points.IndexOf | fsmhttp/proto.py:149 | the brace found is the first one in the template; `None` means there is none |
| Points.FormatPlain | fsmhttp/proto.py:149 | a literal character of the template is copied to the name |
| Points.FormatLiteral | fsmhttp/proto.py:149 | a brace-free text is copied through `format` unchanged |
| Points.FormatOneHole | fsmhttp/proto.py:149 | `pre{name}post` formats to `pre`, the rendered value of `name`, `post`, and raises iff the context has no field `name` |
| Points.HoleParts | fsmhttp/proto.py:149 | a `{name}` placeholder without braces inside is closed by the first `}`, which yields the name and what follows |
| Points.FormatOtherHole | fsmhttp/proto.py:149 | a placeholder that is not a plain key (attribute, index, conversion, format spec, positional) is taken as raising, whatever the context holds |
| Points.FormatWith | fsmhttp/proto.py:149 | definition of `template.format(**fields)` for literal text, `{{`, `}}` and `{name}`; a missing key or a malformed or non-plain placeholder raises (`None`); its properties are `Points.FormatOneHole`, `Points.FormatOtherHole`, `Points.FormatPrint` and `Points.SubstFailsIffMissing` |
| Points.Format | fsmhttp/proto.py:149 | definition of `point[0].format(**context)`: the context must be a mapping, else it raises; used by `Points.FieldLeafSample` and `Points.ListLeafRaises` |
| Points.FormatPrint | fsmhttp/proto.py:149 | a template printed from literal and placeholder pieces formats to their substitution: the parser and printer of templates agree |
| Points.SubstFailsIffMissing | fsmhttp/proto.py:149 | substitution fails iff some placeholder names a field absent from the context |
| Points.Extract | fsmhttp/proto.py:135-149 | every sample emitted by the walk carries the time `tm` it was given |
| Points.Fields | fsmhttp/proto.py:141-143 | every sample emitted from an object's fields carries `tm` |
| Points.Items | fsmhttp/proto.py:144-146 | every sample emitted from a list's elements carries `tm` |
| Points.FieldLeafSample | fsmhttp/proto.py:138-149 | a scalar field under a leaf emits exactly one sample with the raw (unscaled) value and the template formatted from the object holding it, then goes on with the next field; a missing placeholder raises with nothing emitted |
| Points.ListLeafRaises | fsmhttp/proto.py:144-149 | a scalar list element under a leaf raises and prints nothing, because the context is the list |
| Points.Under | fsmhttp/proto.py:143 | prefixing a key keeps every located scalar, in order, with the key put in front of its path and its value unchanged |
| Points.Values | fsmhttp/proto.py:149 | one printed value per sample |
| Points.ExtractSelects | fsmhttp/proto.py:135-149 | the values the walk prints are a prefix of the scalars the spec tree selects, in document order, and all of them when it does not raise |
| Points.FieldsSelect | fsmhttp/proto.py:141-143 | the same, for an object's fields from some field on |
| Points.ItemsSelect | fsmhttp/proto.py:144-146 | the same, for a list's elements from some element on |
| RackData.DefaultDataRaises | fsmhttp/proto.py:129-130 | a body without `data` always raises, since the default is a string indexed by `'rack'` |
| RackData.StringDataRaises | fsmhttp/proto.py:130 | a `data` member that is a JSON string, not a mapping, raises at `['rack']` |
| RackData.RackOf | fsmhttp/proto.py:129-130 | definition of the two decoding steps: decode the body, take `data` (or the string default), index it by `rack` and decode that string; every exception on the way is `None`; its properties are `RackData.DefaultDataRaises` and `RackData.StringDataRaises` |
| RackData.RackEmission | fsmhttp/proto.py:129-133 | definition of what `_on_rack_data` prints: nothing when decoding raises, else the loop `RackFrom` over the decoded rack |
| RackData.RackFrom | fsmhttp/proto.py:131-132 | every sample the loop emits carries `tm` |
| RackData.RackOkHasKeys | fsmhttp/proto.py:131-132 | a loop that does not raise found every configured top-level key in the rack object |
| RackData.RackSelects | fsmhttp/proto.py:131-132 | the loop prints a prefix of what the configuration selects from the rack, in configuration order, and all of it when it does not raise |
| Session.OnResponse | fsmhttp/proto.py:103-121 | `_on_response` keeps the invariant that a counted response has a body |
| Session.Absorb | fsmhttp/proto.py:58-77 | taking in a chunk keeps that invariant |
| Session.Finish | fsmhttp/proto.py:79-89 | the counter decision keeps that invariant |
| Session.Step | fsmhttp/proto.py:51-89 | `process_data` keeps that invariant |
| Session.Deliver | fsmhttp/proto.py:51-89 | a run of chunks keeps that invariant |
| Session.StageGet | fsmhttp/proto.py:18-27 | definition of `get` on the state: url set, body `None`, counter `-1`, the GET text staged, every other field kept; `Client.OpenBmcHttpClient.Get` is proved to do exactly this |
| Session.StagePost | fsmhttp/proto.py:29-41 | definition of `post` on the state: url set, body `None`, counter `-1`, the POST text of the encoded payload staged, every other field kept; `Client.OpenBmcHttpClient.Post` is proved to do exactly this |
| Session.Initial | fsmhttp/proto.py:95-101 | definition of the state after construction, the login POST staged; its properties are `Session.InitialStagesLogin` |
| Session.OnLogin | fsmhttp/proto.py:123-126 | definition of `_on_login`: the rack phase, the rack GET with the stored cookie staged, True; its properties are `Session.LoginAccepted` |
| Session.OnRackData | fsmhttp/proto.py:128-133 | definition of `_on_rack_data` with the exception swallowed: what the walk printed is appended, and the answer is False; its properties are `Session.RackAnswered` and `Session.RackUndecodable` |
| Session.InitialStagesLogin | fsmhttp/proto.py:95-101 | a new client is in the login phase with the counter at `-1`, no body, no cookie and nothing printed; it has staged a cookie-less POST of `[user, passwd]` to `/login`, whose head splits at its first CRLF CRLF and declares exactly its body's length |
| Session.EmptyChunk | fsmhttp/proto.py:52-54 | an empty chunk returns 0 and changes nothing but `_retries`, which becomes 0 |
| Session.NoLengthStops | fsmhttp/proto.py:58-81 | a head without `Content-Length` stops the connection with the counter at `-1`; only body, status, cookie and retries change, and the response hook is not called |
| Session.OvershootLooksUnframed | fsmhttp/proto.py:70-81 | a first fragment one character longer than declared makes the counter `-1`, which is taken for "no length": the connection stops and no hook runs |
| Session.DeclaredLengthAwaits | fsmhttp/proto.py:70-89 | a declared length `n` with a first fragment of length `f` (any count but 0 and -1, negative ones included) waits with counter `n - f`, state WAIT_ANSWER, the fragment as body and the status tokens; nothing else changes |
| Session.HeadNotBuffered | fsmhttp/proto.py:59 | a first chunk without CRLF CRLF, or with a second CRLF CRLF in the body, raises and changes nothing but `_retries` |
| Session.OverrunNeverCompletes | fsmhttp/proto.py:76-89 | once the counter is below `-1`, no sequence of chunks ever completes the response; only counter, body, state and retries change |
| Session.HeadCookieAdopted | fsmhttp/proto.py:64-74 | a head with one `Set-Cookie:` line stores its whole value `h[12:]` when it is non-empty, and keeps the old cookie otherwise |
| Session.HeadCookieKept | fsmhttp/proto.py:63-74 | a head with no `Set-Cookie:` line keeps the previous cookie |
| Session.LaterChunkConserves | fsmhttp/proto.py:75-77 | a later chunk is appended to the body and the counter drops by its length, so counter plus body length is unchanged; url, status, cookie, phase, output, state and retries are kept |
| Session.ServerErrorEnds | fsmhttp/proto.py:104-106 | status `500` returns False and changes nothing |
| Session.LoginRejectedEnds | fsmhttp/proto.py:107-110 | status `401` on `/login` returns False and changes nothing |
| Session.ExpiredSessionRelogs | fsmhttp/proto.py:107-114 | status `401` elsewhere clears the cookie, returns to the login phase and stages a cookie-less `POST /login [user, passwd]` that declares exactly its body's length; it returns True and leaves the output alone |
| Session.LoginAccepted | fsmhttp/proto.py:116-126 | any other status in the login phase adopts a non-empty cookie and moves to the rack phase. It stages `GET /api/storage/rack`, which ends at its only CRLF CRLF and carries a `Cookie:` line iff the kept cookie is truthy, and returns True |
| Session.RackAnswered | fsmhttp/proto.py:116-133 | any other status in the rack phase adopts a non-empty cookie, appends what the walk prints and returns False. The printed values are a prefix of what the configuration selects, and all of it when nothing raised |
| Session.RackUndecodable | fsmhttp/proto.py:116-133 | any other status in the rack phase, with a body from which no rack decodes, adopts a non-empty cookie, prints nothing and returns False: the exception does not escape |
| Session.CounterDecides | fsmhttp/proto.py:79-89 | `process_data` waits iff the counter is neither 0 nor `-1`, and asks to send only when it is 0. On 0 it runs the hook with the stored url, status code, cookie and body, sets READY and asks to send iff the hook returned True. While it waits the state becomes WAIT_ANSWER. On `-1` it stops and changes nothing |
| Session.OnResponseIgnoresState | fsmhttp/proto.py:103-133 | `_on_response` neither reads nor changes the connection state |
| Session.FinishIgnoresState | fsmhttp/proto.py:83-86 | a complete response is handled the same way in either connection state, and it ends the wait |
| Session.DeliverBody | fsmhttp/proto.py:75-89 | while waiting for exactly the remaining body, the later chunks together complete it: the hook sees the whole body, however it was split |
| Session.DeliverAwaits | fsmhttp/proto.py:88-89 | a chunk answered by -1 passes the next chunk to the same client |
| Session.RestDelivered | fsmhttp/proto.py:58-89 | after a head whose counter awaits exactly the rest, the later chunks reach the same completion as one chunk holding everything |
| Session.SplitHeadPrefix | fsmhttp/proto.py:59 | cutting off the end of a body keeps the head split |
| Session.HeadRead | fsmhttp/proto.py:58-74 | reading a first chunk stores the fragment, the status tokens, the counter and the cookie found, and then decides on the counter |
| Session.HeadScans | fsmhttp/proto.py:63-72 | a head that declares one length `n` yields the same cookie whatever prefix of the body came with it, and counter `n - b` for a fragment of length `b` |
| Session.HeadScansSplit | fsmhttp/proto.py:63-72 | the same, for a body that arrives as a first fragment and a rest |
| Session.HeadsRead | fsmhttp/proto.py:58-74 | a head with a body, or with only its first fragment, stores the same status and cookie, with counter 0 or the length of the rest |
| Session.HeadsFromText | fsmhttp/proto.py:58-74 | the two readings of a head that declares one length: whole gives counter 0, split gives the length of the rest; the two states then differ only in body and counter |
| Session.DeliverEnds | fsmhttp/proto.py:79-89 | the loop stops feeding chunks once `process_data` answers anything but 0 or -1 |
| Session.WholeFirst | fsmhttp/proto.py:83-86 | a first chunk holding the whole response ends the exchange; later chunks are never read |
| Session.ChunkingInvariance | fsmhttp/proto.py:51-89 | a response whose head comes whole in the first chunk and declares its body length ends the same way however its body is split into chunks: same fields, same outcome, same hook call |
| Session.AfterHead | fsmhttp/proto.py:75-89 | once both readings of the head are known, the chunked and the one-chunk delivery agree |
| Client.OpenBmcHttpClient.constructor | fsmhttp/proto.py:95-101 | a new object holds the initial state with the login POST staged |
| Client.OpenBmcHttpClient.Get | fsmhttp/proto.py:18-27 | `get` sets url, no body, counter `-1` and the GET text, and touches no other field |
| Client.OpenBmcHttpClient.Post | fsmhttp/proto.py:29-41 | `post` sets url, no body, counter `-1` and the POST text of the encoded payload, and touches no other field |
| Client.OpenBmcHttpClient.ProcessData | fsmhttp/proto.py:51-89 | `process_data` changes the fields and returns exactly what `Session.Step` says, and keeps the invariant |
| Client.OpenBmcHttpClient.Absorb | fsmhttp/proto.py:58-77 | reading a head or a later chunk in place agrees with `Session.Absorb`, including the two exceptions |
| Client.OpenBmcHttpClient.OnResponse | fsmhttp/proto.py:103-121 | the status dispatch in place agrees with `Session.OnResponse` |
| Client.OpenBmcHttpClient.OnLogin | fsmhttp/proto.py:123-126 | `_on_login` in place agrees with `Session.OnLogin` |
| Client.OpenBmcHttpClient.OnRackData | fsmhttp/proto.py:128-133 | `_on_rack_data` in place appends exactly what `Session.OnRackData` prints and returns False |
| Client.OpenBmcHttpClient.WalkRack | fsmhttp/proto.py:131-132 | the loop over the configured keys prints what `RackFrom` prints and reports whether it raised |
| Scenarios.AnswerSplit | fsmhttp/proto.py:59-60 | a concrete login answer splits into its three header lines and a two-character body |
| Scenarios.AnswerScan | fsmhttp/proto.py:63-72 | its header loop finds cookie `sid=abc` and a counter of 0 |
| Scenarios.AnswerStatus | fsmhttp/proto.py:62 | its status code is `200` |
| Scenarios.LoginExchange | fsmhttp/proto.py:51-126 | that answer, read in one chunk by a new client, stores the cookie, stages the rack GET carrying it and asks to send it |
| Scenarios.NodeName | fsmhttp/proto.py:149 | `node.{location}.power` formats to `node.a1.power` from a node whose location is `a1` |
| Scenarios.DottedKeyNotLookedUp | fsmhttp/proto.py:149 | `{a.b}` is not a look-up of a field named `a.b`: with only such a field in the context it raises |
| Scenarios.NodeFields | fsmhttp/proto.py:141-143 | such a node emits one sample for `power` and nothing for its unconfigured `location` |
| Scenarios.NodeItems | fsmhttp/proto.py:144-146 | a list of one such node keeps the node spec for its element |
| Scenarios.NodePowerSample | fsmhttp/proto.py:131-149 | with the `zones`/`nodes`/`power` part of `main`'s configuration, a rack holding one node emits exactly the sample `node.a1.power` with the raw power value |

## Left out

- `TcpTransport`, its constructor arguments (`interval`, `port`, the socket family), `_write`, `send_buf`, `_build_buf`, `stop()`, `select.EPOLLOUT` and the `READY`/`WAIT_ANSWER` constants belong to a library that is not part of this model. `stop()` and `EPOLLOUT` are the outcomes `Stop` and `SendNext`; the states are `Ready` and `WaitAnswer`.
- The initial values of `_cookies` and `_state` are assumed to be no cookie and `Ready`. Nothing in `fsmhttp/proto.py` assigns them before the first response, and `TcpTransport`, where they would be set, is not part of this model. Without such a default, a login answer without `Set-Cookie:` would fail when line 84 reads `self._cookies`.
- `tm = time()` when no time is passed reads a clock: `tm` is always a parameter.
- `json_encode`, `json_decode` and the rendering of a value inside a template are library calls: they are the `encode`, `decode` and `render` parameters of `Config`.
- `str(data, 'utf-8')` and `bytes(..., 'ascii')`: chunks and requests are sequences of characters, one character per byte. This assumes ASCII traffic. The code counts the first fragment in characters and later chunks in bytes, and for non-ASCII UTF-8 text those differ. The model treats both counts as the same, and it cannot express a byte sequence that is not valid UTF-8.
- Client.OpenBmcHttpClient.Post: does not model `bytes(..., 'ascii')` raising on a non-ASCII payload, URL, host or cookie.
- Client.OpenBmcHttpClient.Get: does not model `bytes(..., 'ascii')` raising on a non-ASCII URL, host or cookie.
- `print` in `on_data` is modelled as appending a `Sample` to the `output` field; the text layout of the printed line is not modelled.
- `str.format`: only literal text, `{{`, `}}` and `{name}` placeholders whose name is a plain key are modelled. A placeholder with attribute access (`.`), indexing (`[`), a conversion (`!`) or a format spec (`:`) is treated as raising, although Python may print something for it (`{location[0]}`, `{location!r}`); so is a positional one, as Python raises for it with no positional arguments.
- `int()`: digit separators (`_`) and non-ASCII digits are not accepted by the model.
- The scale factor of a leaf is kept in the spec datatype but never used, as in the code.
- `main()` and the `fsmsock.async` event loop are configuration and a driver; the loop is modelled only as `Deliver`, which feeds chunks while `process_data` answers 0 or -1.
- `HttpClient._on_response` (which returns `None`) and the class split into `HttpClient` and `OpenBmcHttpClient` are merged into one class, since only the subclass is ever built.
- Session.ChunkingInvariance: covers only responses that meet four conditions:
  - the head arrives whole in the first chunk;
  - every `Content-Length:` line declares one length, at least as long as the first fragment;
  - the status line has at least two words;
  - the body holds no CRLF CRLF.

  A head split across chunks raises, as shown by `Session.HeadNotBuffered`. A body holding CRLF CRLF does not keep invariance: delivered whole it raises the two-name unpack of line 59, while split after the head it can complete.
- Request.GetFraming: assumes a URL, host and cookie without CR; a lone CR not followed by LF would frame the same but is not covered.
- Request.PostFraming: assumes a URL, host and cookie without CR, as `Request.GetFraming` does.
- Session.LoginAccepted: assumes the host and the cookies are free of CR, as `Request.GetFraming` does; a server cookie with a lone CR is not covered.
