# checkin-bot-go: request encoding of the Slack client

This project models the part of `main.go` that builds the text of requests to
the Slack Web API, and proves properties of it in Dafny. That is:

- `StringMapToPostBody`. It writes a `map[string]string` as a JSON-like object.
  It appends `"key":"value",` for each pair to a buffer that starts with `{`.
  When the map is not empty, it truncates the last two bytes. Then it appends `}`.
- `StringMapToGetBody`. It writes a map as a query string. It appends
  `key=value&` for each pair to a buffer that starts with `?`. When the map is
  not empty and `trail` is false, it truncates the last two bytes.
- The URL that `PerformGet` builds: the base URL, the path, the GET body and,
  with authentication, `token=<API_TOKEN>`.
- The URL that `PerformPost` builds: the base URL and the path.
- The payload map that `SendMessage` builds, with the URL and the body of the
  `chat.postMessage` request it sends.

The model reproduces what the code does, including its quirks:

- The two-byte truncation removes more than the trailing separator. In the POST
  body it also removes the closing quote of the last value: `{"a": "b"}` gives
  `{"a":"b}`. In the GET body without a trailing separator it also removes the
  last byte of the last `key=value` parameter: the value's last character, or
  the `=` when the value is empty. The same map gives `?a=`, and `{"a": ""}`
  gives `?a`.
- Nothing is escaped, neither for JSON nor for URLs.
- `SendMessage` puts `thread_ts` in the payload only when `thread` is empty,
  and then with the empty value. A non-empty thread reference is never sent.

A Go map's `range` visits keys in an order the runtime picks anew on each loop.
The model takes that order as an input, `order`: the map's keys without
repetition (`GoMaps.IsIterationOrder`). `GoMaps.Enumerate` gives the pairs the
loop sees in that order. Everything proved holds for every such order. Body
lengths are stated in terms of the map alone (`GoMaps.MapTextLength`, defined on
the set of keys), so they do not depend on the order.

Two reference renderings are partners to the encoders.
`BodyEncoding.JsonObject` is the object with comma-separated members.
`BodyEncoding.QueryString` is the query string with `&`-separated parameters.
Lemmas state exactly how each encoder's output differs from them.

Files:

- `go_maps.dfy` (module `GoMaps`): iteration orders, the pairs a `range` loop
  visits, and order-independent sums over a map.
- `body_encoding.dfy` (module `BodyEncoding`): the two encoders as methods with
  loops, the functions that specify them, and the reference renderings.
- `slack_api.dfy` (module `SlackApi`): URL assembly and `SendMessage`.

The Go program has no check-in session logic: no roster, no sessions, no event
dispatch and no admin check. The only trace is the commented-out route at
`main.go:214`. This model follows the code, so none of that is modelled.

## Model

| member | source | states |
|---|---|---|
| `GoMaps.Enumerate` | main.go:40 | The loop visits exactly one pair per key of the iteration order. The i-th pair is the i-th key of the iteration order with its value in the map. |
| `GoMaps.IterationOrderInvariants` | main.go:40-43 | For any iteration order, the loop visits `len(m)` pairs. Their keys and values have the same total length `MapTextLength(m)` whatever the order, so `len(m) > 0` holds exactly when the loop runs at least once. |
| `GoMaps.EnumerateTextLength` | main.go:40 | Summing key and value lengths in visiting order equals summing them over the set of keys (order independence, by induction). |
| `BodyEncoding.PostField` | main.go:41 | The fragment written per pair is its key and value plus exactly 6 bytes. It starts with a quote and ends with a quote followed by a comma. |
| `BodyEncoding.PostFields` | main.go:40-42 | All fragments together have length: key and value lengths plus 6 per pair. So the buffer holds at least 6 bytes per pair before the truncation. |
| `BodyEncoding.PostBody` | main.go:37-48 | The POST body always starts with `{` and ends with `}`. Its length is 2 for no pairs; otherwise it is the key and value lengths plus 6 per pair (`2 + Σ(len(k)+len(v)+6) − 2`). |
| `BodyEncoding.StringMapToPostBody` | main.go:37-48 | The loop over the map with a `{` buffer, the truncation and the closing `}` give `PostBody` of the pairs in iteration order. Its length is 2 for an empty map, otherwise `MapTextLength(m) + 6·len(m)`, for every iteration order. It starts with `{` and ends with `}`. |
| `BodyEncoding.GetField` | main.go:54 | The fragment written per pair is its key and value plus exactly 2 bytes, and it ends with `&`. |
| `BodyEncoding.GetFields` | main.go:53-55 | All fragments together have length: key and value lengths plus 2 per pair. So the truncation never reaches the `?`. |
| `BodyEncoding.GetBody` | main.go:50-60 | The GET body always starts with `?`. Its length is `1 + Σ(len(k)+len(v)+2)`, minus 2 exactly when there are pairs and `trail` is false. |
| `BodyEncoding.StringMapToGetBody` | main.go:50-60 | The loop over the map with a `?` buffer and the conditional truncation give `GetBody` of the pairs in iteration order. Its length is `1 + MapTextLength(m) + 2·len(m)`, minus 2 when the map is not empty and `trail` is false, for every iteration order. It starts with `?`. |
| `BodyEncoding.UntrailedQueryString` | main.go:56-58 | The query string cut by its last byte still starts with `?`. |
| `BodyEncoding.PostFieldsAreJsonMembers` | main.go:40-42 | For at least one pair, the comma-terminated fragments are the comma-separated JSON members followed by one comma (induction). |
| `BodyEncoding.GetFieldsAreQueryParams` | main.go:53-55 | For at least one pair, the `&`-terminated fragments are the `&`-separated parameters followed by one `&` (induction). |
| `BodyEncoding.PostBodyDropsClosingQuote` | main.go:43-46 | For no pairs the POST body is `{}`, the JSON object itself. Otherwise it is the JSON object with exactly one byte removed: the quote that closes the last value. |
| `BodyEncoding.GetBodyAgainstQueryString` | main.go:52-59 | For no pairs the GET body is `?`, whatever `trail` is. With `trail` it is the query string followed by `&`, with nothing removed. Without `trail` it is the query string minus its last byte: the last value's last character, or the `=` when that value is empty. |
| `BodyEncoding.TruncationExamples` | main.go:37-60 | The map `{"a": "b"}` gives the POST body `{"a":"b}`. It gives the GET body `?a=` without a trailing separator and `?a=b&` with one. The map `{"a": ""}` gives the GET body `?a` without a trailing separator. |
| `SlackApi.GetUrl` | main.go:100-105 | With auth, the GET URL is the base URL, the path, and the query string of the body's pairs followed by `token` as one more parameter. Without auth, it is the base URL, the path and the query string cut by its last byte (just `?` for no pairs). |
| `SlackApi.GetUrlShape` | main.go:101-105 | Every GET URL starts with `https://slack.com/api/` and the path, followed by `?`. An authenticated one ends with `token=` and the token. |
| `SlackApi.TokenIsLastParameter` | main.go:102 | Appending `token=<token>` to a GET body that keeps its trailing `&` gives a well-formed query string whose last parameter is `token`. |
| `SlackApi.ConversationsListUrl` | main.go:186-188 | Listing conversations with no body pairs and auth requests exactly `https://slack.com/api/conversations.list?token=<token>`. |
| `SlackApi.PostUrl` | main.go:123 | The POST URL is the base URL followed by the path and nothing else, whatever the body or the auth flag. |
| `SlackApi.MessagePayload` | main.go:144-149 | The payload always holds `text` = message and `channel` = channel id. It holds `thread_ts` (empty) if and only if `thread` is empty, and no other key. |
| `SlackApi.SendMessage` | main.go:143-151 | The request goes to `chat.postMessage` with the POST body of the payload, rendered in the runtime's key order. The body's length is `len(message) + len(channelId) + 38` with `thread_ts`, or `+ 23` without it, in every iteration order. |
| `SlackApi.PayloadTextLength` | main.go:144-149 | The payload has 3 keys when `thread` is empty and 2 otherwise. Its keys and values have total length `len(message) + len(channelId)` plus 20 or 11. |

## Left out

- Strings are sequences of characters, one character per byte. Go strings are byte strings, so with non-ASCII text the two-byte truncation can cut a UTF-8 sequence in half. The model does not represent UTF-8 encoding.
- `fmt.Fprintf` with `%s` of a string copies it unchanged. The model appends the string as is; formatting of other types does not occur here.
- `bytes.Buffer` and `Truncate` are modelled as a string accumulator and a slice; `Truncate` panics on a negative length, and the model proves that this cannot happen instead of modelling the panic.
- The HTTP requests themselves: `http.NewRequest`, the headers added in `PerformGet` and `PerformPost` (including the `Authorization: Bearer` header), `DoRequest` and the network. These are I/O through `net/http`; only the URL and body text are modelled.
- `CaptureResponseBody`, `HandleResponse`: reading and logging the response, I/O.
- `TestSlack`, `TestSuccess`, `TestError`, `RunGetChannels`, `GetChannels`: HTTP handlers, logging and `json.Unmarshal` into untyped values. The URL that `GetChannels` requests is covered by `SlackApi.ConversationsListUrl`.
- `main`: loading the environment with godotenv and routing with gorilla/mux. The global `API_TOKEN` is a parameter of the URL functions.
- The actual iteration order of Go maps: it is chosen at random by the runtime, so it is an input of the model.
- The check-in session state machine, roster tracking, admin checks and event dispatch: none of this exists in `main.go`.
