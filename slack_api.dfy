/** The request URLs the bot sends to the Slack Web API, and the payload of
    `SendMessage`.

    The HTTP request itself, its headers and the response are not modelled:
    what is modelled is the exact text of each URL and body. The token that
    the program keeps in the global `API_TOKEN` is a parameter here. */
module SlackApi {
  import opened GoMaps
  import opened BodyEncoding

  /** Every method name of the Web API is appended to this base URL. */
  const ServiceUrl: string := "https://slack.com/api/"

  /** The URL `PerformGet` requests. With authentication the token is appended
      after a GET body that keeps its trailing `&`, so the URL carries the
      query string of the body's pairs followed by one more parameter,
      `token`. Without authentication the GET body is cut by two bytes, so
      the last `key=value` parameter of the query string loses its last byte:
      the value's last character, or the `=` when the value is empty. */
  function GetUrl(path: string, body: map<string, string>, order: seq<string>, includeAuth: bool, apiToken: string): (url: string)
    requires IsIterationOrder(body, order)
    ensures forall k <- order :: k in body
    ensures includeAuth ==>
      url == ServiceUrl + path + QueryString(Enumerate(body, order) + [("token", apiToken)])
    ensures !includeAuth ==>
      url == ServiceUrl + path + UntrailedQueryString(Enumerate(body, order))
  {
    IterationOrderInvariants(body, order);
    var pairs := Enumerate(body, order);
    var query :=
      if includeAuth then GetBody(pairs, true) + "token=" + apiToken
      else GetBody(pairs, false);
    GetBodyAgainstQueryString(pairs, includeAuth);
    TokenIsLastParameter(pairs, apiToken);
    ServiceUrl + path + query
  }

  /** Every GET URL is the base URL, the path and a query string that starts
      with `?`; an authenticated one ends with `token=<token>`. */
  lemma GetUrlShape(path: string, body: map<string, string>, order: seq<string>, includeAuth: bool, apiToken: string)
    requires IsIterationOrder(body, order)
    ensures var url := GetUrl(path, body, order, includeAuth, apiToken);
      && |url| > |ServiceUrl| + |path|
      && url[..|ServiceUrl| + |path|] == ServiceUrl + path
      && url[|ServiceUrl| + |path|] == '?'
      && (includeAuth ==> url[|url| - |apiToken| - 6..] == "token=" + apiToken)
  {
    var url := GetUrl(path, body, order, includeAuth, apiToken);
    IterationOrderInvariants(body, order);
    var pairs := Enumerate(body, order);
    var query := if includeAuth then QueryString(pairs + [("token", apiToken)]) else UntrailedQueryString(pairs);
    assert url == ServiceUrl + path + query;
    assert query[0] == '?';
    if includeAuth {
      TokenIsLastParameter(pairs, apiToken);
      var head := ServiceUrl + path + GetBody(pairs, true);
      AppendAssoc(ServiceUrl + path, GetBody(pairs, true) + "token=", apiToken);
      AppendAssoc(ServiceUrl + path, GetBody(pairs, true), "token=");
      AppendAssoc(head, "token=", apiToken);
      assert url == head + ("token=" + apiToken);
    }
  }

  /** Appending `token=<token>` to a GET body that keeps its trailing `&` gives
      the query string with `token` as one more parameter at the end. */
  lemma TokenIsLastParameter(pairs: seq<(string, string)>, apiToken: string)
    ensures GetBody(pairs, true) + "token=" + apiToken == QueryString(pairs + [("token", apiToken)])
  {
    var extended := pairs + [("token", apiToken)];
    assert extended[..|extended| - 1] == pairs;
    if pairs != [] {
      GetFieldsAreQueryParams(pairs);
    }
  }

  /** The one GET the program issues, listing conversations with no body
      pairs, asks for exactly `conversations.list?token=<token>`. */
  lemma ConversationsListUrl(apiToken: string)
    ensures GetUrl("conversations.list", map[], [], true, apiToken)
         == ServiceUrl + "conversations.list" + "?token=" + apiToken
  {
    var empty: map<string, string> := map[];
    assert KeySet([]) == empty.Keys;
    TokenIsLastParameter([], apiToken);
  }

  /** The URL `PerformPost` requests: the base URL followed by the path,
      whatever the body and whether or not authentication is requested (the
      token then travels in a header). */
  function PostUrl(path: string): (url: string)
    ensures |url| == |ServiceUrl| + |path|
    ensures url[..|ServiceUrl|] == ServiceUrl && url[|ServiceUrl|..] == path
  {
    ServiceUrl + path
  }

  /** The keys of the payload `SendMessage` builds for `thread`. */
  function PayloadKeys(thread: string): set<string> {
    if thread == "" then {"text", "thread_ts", "channel"} else {"text", "channel"}
  }

  /** The payload map `SendMessage` builds: the text and the channel, and
      `thread_ts` (with the empty value) exactly when `thread` is empty. A
      non-empty thread reference is never sent. */
  method MessagePayload(message: string, channelId: string, thread: string) returns (payload: map<string, string>)
    ensures payload.Keys == PayloadKeys(thread)
    ensures "text" in payload && payload["text"] == message
    ensures "channel" in payload && payload["channel"] == channelId
    ensures ("thread_ts" in payload) == (thread == "")
    ensures "thread_ts" in payload ==> payload["thread_ts"] == ""
  {
    payload := map[];
    payload := payload["text" := message];
    if thread == "" {
      payload := payload["thread_ts" := thread];
    }
    payload := payload["channel" := channelId];
  }

  /** `SendMessage`: builds the payload and the request for
      `chat.postMessage`. `order` is the order in which the runtime visits the
      payload's keys when it is rendered. The length of the body does not
      depend on that order. */
  method SendMessage(message: string, channelId: string, thread: string, order: seq<string>)
    returns (payload: map<string, string>, url: string, body: string)
    requires Distinct(order) && KeySet(order) == PayloadKeys(thread)
    ensures payload.Keys == PayloadKeys(thread)
    ensures payload["text"] == message && payload["channel"] == channelId
    ensures ("thread_ts" in payload) == (thread == "")
    ensures url == ServiceUrl + "chat.postMessage"
    ensures IsIterationOrder(payload, order) && body == PostBody(Enumerate(payload, order))
    ensures |body| == |message| + |channelId| + (if thread == "" then 38 else 23)
  {
    payload := MessagePayload(message, channelId, thread);
    body := StringMapToPostBody(payload, order);
    url := PostUrl("chat.postMessage");
    PayloadTextLength(payload, message, channelId, thread);
  }

  /** The keys and values of the payload have total length
      `|message| + |channelId|` plus the lengths of the keys themselves. */
  lemma PayloadTextLength(payload: map<string, string>, message: string, channelId: string, thread: string)
    requires payload.Keys == PayloadKeys(thread)
    requires payload["text"] == message && payload["channel"] == channelId
    requires "thread_ts" in payload ==> payload["thread_ts"] == ""
    ensures |payload| == if thread == "" then 3 else 2
    ensures MapTextLength(payload) == |message| + |channelId| + (if thread == "" then 20 else 11)
  {
    assert |payload| == |payload.Keys|;
    var keys := payload.Keys;
    KeysTextLengthRemove(payload, keys, "text");
    var rest := keys - {"text"};
    KeysTextLengthRemove(payload, rest, "channel");
    var rest' := rest - {"channel"};
    if thread == "" {
      assert rest' == {"thread_ts"};
      KeysTextLengthRemove(payload, rest', "thread_ts");
      assert rest' - {"thread_ts"} == {};
    } else {
      assert rest' == {};
    }
  }
}
