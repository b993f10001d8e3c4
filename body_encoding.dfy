/** The two request-body encoders of the bot: `StringMapToPostBody`, which
    writes a map as a JSON-like object, and `StringMapToGetBody`, which writes
    it as a URL query string.

    Both append one fixed-shape fragment per pair to a buffer and then cut the
    last two bytes off. Nothing is escaped. The cut removes more than the
    trailing separator: in the POST body it also takes the closing quote of
    the last value, and in the query string (when no trailing `&` is wanted)
    the last byte of the last `key=value` parameter: the value's last
    character, or the `=` when the value is empty. The model reproduces both. The
    reference renderings `JsonObject` and `QueryString` say what a correct
    encoding would be, and the lemmas below state exactly how the encoders
    differ from them. */
module BodyEncoding {
  import opened GoMaps

  // ---------------------------------------------------------------------------
  // POST body
  // ---------------------------------------------------------------------------

  /** The fragment `"key":"value",` written for one pair. */
  function PostField(key: string, value: string): (r: string)
    ensures |r| == |key| + |value| + 6
    ensures r[0] == '"' && r[|r| - 2] == '"' && r[|r| - 1] == ','
  {
    "\"" + key + "\":\"" + value + "\","
  }

  /** All fragments of the loop, in iteration order. Each pair adds exactly
      six bytes besides its key and value. */
  function PostFields(pairs: seq<(string, string)>): (r: string)
    ensures |r| == TextLength(pairs) + 6 * |pairs|
  {
    if pairs == [] then ""
    else
      var last := pairs[|pairs| - 1];
      PostFields(pairs[..|pairs| - 1]) + PostField(last.0, last.1)
  }

  /** What `StringMapToPostBody` returns for the pairs in iteration order:
      `{`, the fragments with their last two bytes cut off when there is at
      least one pair, and `}`. The cut cannot reach into the `{`, because
      every pair contributes at least six bytes. */
  function PostBody(pairs: seq<(string, string)>): (r: string)
    ensures |r| == if pairs == [] then 2 else TextLength(pairs) + 6 * |pairs|
    ensures r[0] == '{' && r[|r| - 1] == '}'
  {
    var fields := PostFields(pairs);
    "{" + (if |pairs| > 0 then fields[..|fields| - 2] else fields) + "}"
  }

  /** One more turn of the loop appends one more fragment. */
  lemma PostFieldsStep(pairs: seq<(string, string)>, i: nat)
    requires i < |pairs|
    ensures PostFields(pairs[..i + 1]) == PostFields(pairs[..i]) + PostField(pairs[i].0, pairs[i].1)
  {
    assert pairs[..i + 1][..i] == pairs[..i];
  }

  /** Appending to a buffer that already holds a prefix. */
  lemma AppendAssoc(a: string, b: string, c: string)
    ensures a + b + c == a + (b + c)
  {
  }

  /** The buffer `{` + fragments, cut and closed as the loop's epilogue does,
      is the POST body. */
  lemma PostBodyOfBuffer(pairs: seq<(string, string)>)
    ensures var b := "{" + PostFields(pairs);
      |b| >= 1 + 6 * |pairs| &&
      PostBody(pairs) == (if |pairs| > 0 then b[..|b| - 2] else b) + "}"
  {
    var fields := PostFields(pairs);
    if |pairs| > 0 {
      assert ("{" + fields)[..|fields| - 1] == "{" + fields[..|fields| - 2];
    }
  }

  /** `StringMapToPostBody`: a buffer starting with `{` gets one fragment per
      pair, is truncated by two bytes when the map is not empty, and is closed
      with `}`. Its length depends only on the map, not on the order the
      runtime picks. */
  method StringMapToPostBody(m: map<string, string>, order: seq<string>) returns (body: string)
    requires IsIterationOrder(m, order)
    ensures forall k <- order :: k in m
    ensures body == PostBody(Enumerate(m, order))
    ensures |body| == if |m| == 0 then 2 else MapTextLength(m) + 6 * |m|
    ensures body[0] == '{' && body[|body| - 1] == '}'
  {
    IterationOrderInvariants(m, order);
    ghost var pairs := Enumerate(m, order);
    var b := "{";
    for i := 0 to |order|
      invariant b == "{" + PostFields(pairs[..i])
    {
      var key := order[i];
      var value := m[key];
      PostFieldsStep(pairs, i);
      AppendAssoc("{", PostFields(pairs[..i]), PostField(key, value));
      b := b + PostField(key, value);
    }
    assert pairs[..|order|] == pairs;
    assert |m| > 0 <==> |pairs| > 0;
    PostBodyOfBuffer(pairs);
    if |m| > 0 {
      b := b[..|b| - 2];
    }
    b := b + "}";
    body := b;
  }

  // ---------------------------------------------------------------------------
  // GET body
  // ---------------------------------------------------------------------------

  /** The fragment `key=value&` written for one pair. */
  function GetField(key: string, value: string): (r: string)
    ensures |r| == |key| + |value| + 2
    ensures r[|r| - 1] == '&'
  {
    key + "=" + value + "&"
  }

  /** All fragments of the loop, in iteration order. Each pair adds exactly
      two bytes besides its key and value. */
  function GetFields(pairs: seq<(string, string)>): (r: string)
    ensures |r| == TextLength(pairs) + 2 * |pairs|
  {
    if pairs == [] then ""
    else
      var last := pairs[|pairs| - 1];
      GetFields(pairs[..|pairs| - 1]) + GetField(last.0, last.1)
  }

  /** What `StringMapToGetBody` returns: `?` and the fragments, with the last
      two bytes cut off when there is at least one pair and `trail` is false.
      The cut cannot reach the `?`, because every pair contributes at least
      two bytes. */
  function GetBody(pairs: seq<(string, string)>, trail: bool): (r: string)
    ensures |r| == 1 + TextLength(pairs) + 2 * |pairs| - (if pairs != [] && !trail then 2 else 0)
    ensures r[0] == '?'
  {
    var b := "?" + GetFields(pairs);
    if |pairs| > 0 && !trail then b[..|b| - 2] else b
  }

  /** One more turn of the loop appends one more fragment. */
  lemma GetFieldsStep(pairs: seq<(string, string)>, i: nat)
    requires i < |pairs|
    ensures GetFields(pairs[..i + 1]) == GetFields(pairs[..i]) + GetField(pairs[i].0, pairs[i].1)
  {
    assert pairs[..i + 1][..i] == pairs[..i];
  }

  /** The buffer `?` + fragments, cut as the loop's epilogue does, is the GET
      body. */
  lemma GetBodyOfBuffer(pairs: seq<(string, string)>, trail: bool)
    ensures var b := "?" + GetFields(pairs);
      |b| >= 1 + 2 * |pairs| &&
      GetBody(pairs, trail) == if |pairs| > 0 && !trail then b[..|b| - 2] else b
  {
  }

  /** `StringMapToGetBody`: a buffer starting with `?` gets one fragment per
      pair and is truncated by two bytes when the map is not empty and no
      trailing separator is wanted. */
  method StringMapToGetBody(m: map<string, string>, order: seq<string>, trail: bool) returns (body: string)
    requires IsIterationOrder(m, order)
    ensures forall k <- order :: k in m
    ensures body == GetBody(Enumerate(m, order), trail)
    ensures |body| == 1 + MapTextLength(m) + 2 * |m| - (if |m| > 0 && !trail then 2 else 0)
    ensures body[0] == '?'
  {
    IterationOrderInvariants(m, order);
    ghost var pairs := Enumerate(m, order);
    var b := "?";
    for i := 0 to |order|
      invariant b == "?" + GetFields(pairs[..i])
    {
      var key := order[i];
      var value := m[key];
      GetFieldsStep(pairs, i);
      AppendAssoc("?", GetFields(pairs[..i]), GetField(key, value));
      b := b + GetField(key, value);
    }
    assert pairs[..|order|] == pairs;
    assert |m| > 0 <==> |pairs| > 0;
    GetBodyOfBuffer(pairs, trail);
    if |m| > 0 && !trail {
      b := b[..|b| - 2];
    }
    body := b;
  }

  // ---------------------------------------------------------------------------
  // Reference renderings
  // ---------------------------------------------------------------------------

  /** One JSON member `"key":"value"`, without escaping. */
  function JsonMember(key: string, value: string): string {
    "\"" + key + "\":\"" + value + "\""
  }

  /** The members separated by commas. */
  function JsonMembers(pairs: seq<(string, string)>): string {
    if pairs == [] then ""
    else if |pairs| == 1 then JsonMember(pairs[0].0, pairs[0].1)
    else
      var last := pairs[|pairs| - 1];
      JsonMembers(pairs[..|pairs| - 1]) + "," + JsonMember(last.0, last.1)
  }

  /** The JSON object the POST body evidently aims at. */
  function JsonObject(pairs: seq<(string, string)>): string {
    "{" + JsonMembers(pairs) + "}"
  }

  /** One query parameter `key=value`, without percent-encoding. */
  function QueryParam(key: string, value: string): string {
    key + "=" + value
  }

  /** The parameters separated by `&`. */
  function QueryParams(pairs: seq<(string, string)>): string {
    if pairs == [] then ""
    else if |pairs| == 1 then QueryParam(pairs[0].0, pairs[0].1)
    else
      var last := pairs[|pairs| - 1];
      QueryParams(pairs[..|pairs| - 1]) + "&" + QueryParam(last.0, last.1)
  }

  /** The query string `?k1=v1&k2=v2…`. */
  function QueryString(pairs: seq<(string, string)>): string {
    "?" + QueryParams(pairs)
  }

  /** The query string with its last byte missing, except that a query
      string with no parameters stays `?`. */
  function UntrailedQueryString(pairs: seq<(string, string)>): (q: string)
    ensures |q| >= 1 && q[0] == '?'
  {
    var full := QueryString(pairs);
    if pairs == [] then full else full[..|full| - 1]
  }

  /** The terminated fragments are the separated members plus one trailing
      comma. */
  lemma {:induction false} PostFieldsAreJsonMembers(pairs: seq<(string, string)>)
    requires pairs != []
    ensures PostFields(pairs) == JsonMembers(pairs) + ","
  {
    var init, last := pairs[..|pairs| - 1], pairs[|pairs| - 1];
    if |pairs| == 1 {
      assert init == [];
    } else {
      PostFieldsAreJsonMembers(init);
    }
  }

  /** The terminated fragments are the separated parameters plus one trailing
      `&`. */
  lemma {:induction false} GetFieldsAreQueryParams(pairs: seq<(string, string)>)
    requires pairs != []
    ensures GetFields(pairs) == QueryParams(pairs) + "&"
  {
    var init, last := pairs[..|pairs| - 1], pairs[|pairs| - 1];
    if |pairs| == 1 {
      assert init == [];
    } else {
      GetFieldsAreQueryParams(init);
    }
  }

  /** The POST body is the JSON object with exactly one byte missing: the
      closing quote of the last value. For no pairs it is `{}`, which is
      the JSON object itself. */
  lemma PostBodyDropsClosingQuote(pairs: seq<(string, string)>)
    ensures pairs == [] ==> PostBody(pairs) == JsonObject(pairs) == "{}"
    ensures pairs != [] ==>
      var j := JsonObject(pairs);
      |j| >= 3 && j[|j| - 2] == '"' && PostBody(pairs) == j[..|j| - 2] + j[|j| - 1..]
  {
    if pairs != [] {
      PostFieldsAreJsonMembers(pairs);
      var members := JsonMembers(pairs);
      var j := JsonObject(pairs);
      var last := pairs[|pairs| - 1];
      assert |PostFields(pairs)| >= 6;
      assert members[|members| - 1] == PostFields(pairs)[|members| - 1] == PostField(last.0, last.1)[|PostField(last.0, last.1)| - 2] == '"';
      assert PostBody(pairs) == "{" + members[..|members| - 1] + "}";
      assert j[..|j| - 2] == "{" + members[..|members| - 1];
    }
  }

  /** With a trailing separator the GET body is the query string followed by
      `&`; without one it is the query string with its last byte missing (the
      last character of the last value, or the `=` when that value is empty).
      For no pairs both are `?`. */
  lemma GetBodyAgainstQueryString(pairs: seq<(string, string)>, trail: bool)
    ensures pairs == [] ==> GetBody(pairs, trail) == QueryString(pairs) == "?"
    ensures pairs != [] && trail ==> GetBody(pairs, trail) == QueryString(pairs) + "&"
    ensures pairs != [] && !trail ==>
      var q := QueryString(pairs);
      |q| >= 2 && GetBody(pairs, trail) == q[..|q| - 1]
  {
    if pairs != [] {
      GetFieldsAreQueryParams(pairs);
      var q := QueryString(pairs);
      assert |GetFields(pairs)| >= 2;
      assert "?" + GetFields(pairs) == q + "&";
      if !trail {
        assert (q + "&")[..|q + "&"| - 2] == q[..|q| - 1];
      }
    }
  }

  /** The two cuts, on the smallest inputs that show them: the map
      `{"a": "b"}` becomes `{"a":"b}` and, without a trailing separator,
      `?a=`; the map `{"a": ""}` loses its `=` and becomes `?a`. */
  lemma TruncationExamples()
    ensures PostBody([("a", "b")]) == "{\"a\":\"b}"
    ensures GetBody([("a", "b")], false) == "?a="
    ensures GetBody([("a", "b")], true) == "?a=b&"
    ensures GetBody([("a", "")], false) == "?a"
  {
    assert PostFields([("a", "b")]) == "\"a\":\"b\",";
    assert GetFields([("a", "b")]) == "a=b&";
    assert GetFields([("a", "")]) == "a=&";
  }
}
