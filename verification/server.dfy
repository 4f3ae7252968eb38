/**
 * The analysis endpoint (`POST /api/analyze`): the order in which it reads the request body,
 * rejects a missing prompt, answers from the cache, demands an API key, picks a vendor, and
 * writes the generated text back to the cache; and the line framing of a server-sent event
 * stream from an OpenAI-compatible endpoint.
 *
 * Everything outside the handler is a value: the Redis client is a lookup function (absent when
 * not configured), the environment is a few optional strings, the vendor is its fixed replies,
 * and `JSON.parse` is a function that may fail. Calls the handler makes are recorded in the
 * outcome rather than performed.
 */
module Server {
  import opened Wrappers
  import opened Js
  import Text
  import Client

  /** How long a generated report stays cached: seven days, in seconds. */
  const CacheTtlSeconds: int := 60 * 60 * 24 * 7

  const DefaultModel: string := "gemini-2.5-flash-lite"

  /** What `redis.get` yields: the stored value (`null` when there is none), or a thrown error. */
  datatype Lookup = Stored(value: Option<string>) | LookupFailed(error: string)

  /**
   * The process around the handler: the Redis client, if one was set up; the API key from the
   * build-time and the process environment; the endpoint from the build-time environment;
   * `JSON.parse`; and the message of the `TypeError` the engine throws.
   */
  datatype Host = Host(
    redis: Option<string -> Lookup>,
    buildKey: Option<string>,
    processKey: Option<string>,
    buildEndpoint: Option<string>,
    parse: string -> Result<Json, string>,
    typeError: string)

  /** A streamed body: the decoded chunks in order, and the error that ended it early, if any. */
  datatype Streamed = Streamed(chunks: seq<string>, failure: Option<string>)

  /** What `fetch` to the custom endpoint yields: a thrown error, or a response with its text and body stream. */
  datatype Http =
    | FetchFailed(error: string)
    | Answered(status: int, statusText: string, text: string, body: Option<Streamed>)

  /** The vendors' replies: the custom endpoint, and the SDK's `generateContent` and `generateContentStream`. */
  datatype Vendor = Vendor(custom: Http, sdkText: Result<string, string>, sdkStream: Result<Streamed, string>)

  /** A call to a vendor, with the values the handler passes it. */
  datatype Call =
    | CustomCall(endpoint: string, model: Json, key: Json, prompt: string, stream: bool)
    | SdkCall(model: Json, key: Json, prompt: string, stream: bool)

  /** `redis.set(key, value, 'EX', ttl)`. */
  datatype Write = Write(key: string, value: string, ttl: int)

  /** A JSON response with its status, or a text stream: the pieces enqueued and how it ended. */
  datatype Reply = JsonReply(status: int, body: Json) | StreamReply(pieces: seq<string>, failure: Option<string>)

  /** What the handler did: its reply, whether it asked the cache, the vendor call, the cache write. */
  datatype Outcome = Outcome(reply: Reply, lookedUp: bool, call: Option<Call>, write: Option<Write>)

  function ErrorBody(message: string): Json {
    JObj(map["error" := JStr(message)])
  }

  /** The reply of the outer `catch`: a 500 carrying the message of whatever was thrown. */
  function Failure(message: string): Reply {
    JsonReply(500, JObj(map["error" := JStr("Failed to generate analysis"), "details" := JStr(message)]))
  }

  function Report(text: Json): Reply {
    JsonReply(200, JObj(map["reportText" := text]))
  }

  /** An environment variable as a JavaScript value: a string, or `undefined`. */
  function EnvValue(v: Option<string>): (r: Option<Json>)
    ensures r.Some? <==> v.Some?
  {
    if v.Some? then Some(JStr(v.value)) else None
  }

  /** `x?.[0]`. */
  function First(x: Option<Json>): Option<Json> {
    match x
    case Some(JArr(items)) => if |items| > 0 then Some(items[0]) else None
    case Some(JObj(m)) => Get(JObj(m), "0")
    case Some(JStr(s)) => if |s| > 0 then Some(JStr([s[0]])) else None
    case _ => None
  }

  /** `json.choices?.[0]?.<field>?.content` for a parsed value that is not `null`. */
  function Content(json: Json, field: string): Option<Json> {
    GetOpt(GetOpt(First(Get(json, "choices")), field), "content")
  }

  /** The cached report a lookup supplies: a stored value that is truthy. */
  function Cached(l: Lookup): (r: Option<string>)
    ensures r.Some? <==> l.Stored? && l.value.Some? && l.value.value != ""
  {
    if l.Stored? && l.value.Some? && l.value.value != "" then l.value else None
  }

  /** The cached report for the request `body`, when a key is given and a cache is configured. */
  function CacheHit(h: Host, body: Json): Option<string> {
    var key := Get(body, "cacheKey");
    if Truthy(key) && h.redis.Some? then Cached(h.redis.value(JsString(key.value))) else None
  }

  /**
   * Whether the custom endpoint is used: it is when it is a string starting with "http", it is not
   * when the endpoint is falsy, and calling `startsWith` on any other value throws.
   */
  function UsesCustom(h: Host, endpoint: Option<Json>): Result<bool, string> {
    if !Truthy(endpoint) then Ok(false)
    else match endpoint.value
      case JStr(s) => Ok(Text.StartsWith(s, "http"))
      case _ => Err(h.typeError)
  }

  /** The settings the handler derives from the body and the environment. */
  datatype Settings = Settings(apiKey: Option<Json>, endpoint: Option<Json>, model: Json)

  /**
   * The request's `config` comes first and the environment second: the key falls back to the
   * build-time key and then to the process key, the endpoint to the build-time endpoint, and the
   * model to the default model. A setting is truthy exactly when one of its sources is.
   */
  function SettingsOf(h: Host, body: Json): (s: Settings)
    ensures var key := GetOpt(Get(body, "config"), "apiKey");
      && (Truthy(key) ==> s.apiKey == key)
      && (!Truthy(key) && Truthy(EnvValue(h.buildKey)) ==> s.apiKey == EnvValue(h.buildKey))
      && (!Truthy(key) && !Truthy(EnvValue(h.buildKey)) ==> s.apiKey == EnvValue(h.processKey))
      && (Truthy(s.apiKey) <==> Truthy(key) || Truthy(EnvValue(h.buildKey)) || Truthy(EnvValue(h.processKey)))
    ensures var endpoint := GetOpt(Get(body, "config"), "endpoint");
      && (Truthy(endpoint) ==> s.endpoint == endpoint)
      && (!Truthy(endpoint) ==> s.endpoint == EnvValue(h.buildEndpoint))
      && (Truthy(s.endpoint) <==> Truthy(endpoint) || Truthy(EnvValue(h.buildEndpoint)))
    ensures var model := GetOpt(Get(body, "config"), "model");
      && (Truthy(model) ==> Some(s.model) == model)
      && (!Truthy(model) ==> s.model == JStr(DefaultModel))
      && Truthy(Some(s.model))
  {
    var config := Get(body, "config");
    var model := Or(GetOpt(config, "model"), Some(JStr(DefaultModel)));
    Settings(
      Or(Or(GetOpt(config, "apiKey"), EnvValue(h.buildKey)), EnvValue(h.processKey)),
      Or(GetOpt(config, "endpoint"), EnvValue(h.buildEndpoint)),
      model.value)
  }

  /** The handler on the raw request text. */
  function Handle(h: Host, v: Vendor, raw: string): Outcome {
    match h.parse(raw)
    case Err(m) => Outcome(Failure("Invalid JSON body: " + m + " "), false, None, None)
    case Ok(body) =>
      if body == JNull then Outcome(Failure(h.typeError), false, None, None)
      else
        var prompt := Get(body, "prompt");
        if !Truthy(prompt) then Outcome(JsonReply(400, ErrorBody("Prompt is required")), false, None, None)
        else
          var looked := Truthy(Get(body, "cacheKey")) && h.redis.Some?;
          var hit := CacheHit(h, body);
          if hit.Some? then Outcome(Report(JStr(hit.value)), looked, None, None)
          else if !prompt.value.JStr? then Outcome(Failure(h.typeError), looked, None, None)
          else Generate(h, v, body, prompt.value.s, looked)
  }

  /** From the API-key check on, for a request with a prompt and no cached report. */
  function Generate(h: Host, v: Vendor, body: Json, prompt: string, looked: bool): Outcome {
    var s := SettingsOf(h, body);
    if !Truthy(s.apiKey) then
      Outcome(JsonReply(500, ErrorBody("Server configuration error: MISSING_API_KEY")), looked, None, None)
    else if Truthy(Get(body, "stream")) then Streaming(h, v, body, prompt, s, looked)
    else Whole(h, v, body, prompt, s, looked)
  }

  /** The cache write after generating `report`, made when a key is given, the report is truthy and a cache is configured. */
  function WriteBack(h: Host, body: Json, report: Json): (w: Option<Write>)
    ensures w.Some? <==> Truthy(Get(body, "cacheKey")) && Truthy(Some(report)) && h.redis.Some?
  {
    var key := Get(body, "cacheKey");
    if Truthy(key) && Truthy(Some(report)) && h.redis.Some? then Some(Write(JsString(key.value), JsString(report), CacheTtlSeconds))
    else None
  }

  /** The non-streaming answer: JSON with the report text, or a 500 for whatever was thrown. */
  function Whole(h: Host, v: Vendor, body: Json, prompt: string, s: Settings, looked: bool): Outcome
    requires Truthy(s.apiKey)
  {
    match UsesCustom(h, s.endpoint)
    case Err(e) => Outcome(Failure(e), looked, None, None)
    case Ok(custom) =>
      if custom then
        var call := Some(CustomCall(s.endpoint.value.s, s.model, s.apiKey.value, prompt, false));
        match CustomText(h, v.custom)
        case Err(e) => Outcome(Failure(e), looked, call, None)
        case Ok(text) => Outcome(Report(text), looked, call, WriteBack(h, body, text))
      else
        var call := Some(SdkCall(s.model, s.apiKey.value, prompt, false));
        match v.sdkText
        case Err(e) => Outcome(Failure(e), looked, call, None)
        case Ok(text) => Outcome(Report(JStr(text)), looked, call, WriteBack(h, body, JStr(text)))
  }

  /**
   * The report text of a non-streaming custom endpoint, `choices[0].message.content`, or what is
   * thrown: a failed status, an empty or unparsable body, or a missing or falsy content.
   */
  function CustomText(h: Host, r: Http): (t: Result<Json, string>)
    ensures t.Ok? ==> Truthy(Some(t.value))
  {
    match r
    case FetchFailed(e) => Err(e)
    case Answered(status, statusText, text, _) =>
      if !Client.IsOk(status) then Err("Custom API Error: " + Text.ShowInt(status) + " " + statusText + " - " + text)
      else if text == "" then Err("Failed to parse JSON from custom endpoint: Empty response from custom endpoint")
      else match h.parse(text)
        case Err(m) => Err("Failed to parse JSON from custom endpoint: " + m)
        case Ok(data) =>
          if data == JNull then Err(h.typeError)
          else
            var content := Content(data, "message");
            if Truthy(content) then Ok(content.value)
            else Err("Invalid response format from custom endpoint: missing choices[0].message.content")
  }

  /** The streaming answer: the pieces enqueued, then a close (with the cache write) or an error. */
  function Streaming(h: Host, v: Vendor, body: Json, prompt: string, s: Settings, looked: bool): Outcome
    requires Truthy(s.apiKey)
  {
    match UsesCustom(h, s.endpoint)
    case Err(e) => Outcome(StreamReply([], Some(e)), looked, None, None)
    case Ok(custom) =>
      if custom then
        var call := Some(CustomCall(s.endpoint.value.s, s.model, s.apiKey.value, prompt, true));
        match v.custom
        case FetchFailed(e) => Outcome(StreamReply([], Some(e)), looked, call, None)
        case Answered(status, _, text, stream) =>
          if !Client.IsOk(status) then
            Outcome(StreamReply([], Some("Custom API Error: " + Text.ShowInt(status) + " - " + text + " ")), looked, call, None)
          else if stream.None? then
            Outcome(StreamReply([], Some("No response body from custom endpoint")), looked, call, None)
          else Close(h, body, SsePieces(h.parse, stream.value.chunks), stream.value.failure, looked, call)
      else
        var call := Some(SdkCall(s.model, s.apiKey.value, prompt, true));
        match v.sdkStream
        case Err(e) => Outcome(StreamReply([], Some(e)), looked, call, None)
        case Ok(stream) => Close(h, body, NonEmpty(stream.chunks), stream.failure, looked, call)
  }

  /** The end of a stream: an error leaves the cache alone; a close writes the whole content back. */
  function Close(h: Host, body: Json, pieces: seq<string>, failure: Option<string>, looked: bool, call: Option<Call>): Outcome {
    if failure.Some? then Outcome(StreamReply(pieces, failure), looked, call, None)
    else Outcome(StreamReply(pieces, None), looked, call, WriteBack(h, body, JStr(Text.Concat(pieces))))
  }

  /** The SDK's chunks that are forwarded: the non-empty ones, in order. */
  function NonEmpty(chunks: seq<string>): (r: seq<string>)
    ensures forall i :: 0 <= i < |r| ==> r[i] != ""
    ensures Text.Concat(r) == Text.Concat(chunks)
  {
    if chunks == [] then []
    else
      var init, last := chunks[..|chunks| - 1], chunks[|chunks| - 1];
      var r := NonEmpty(init);
      if last == "" then r
      else
        assert (r + [last])[..|r|] == r;
        r + [last]
  }

  // ---------------------------------------------------------------------------------------------
  // Server-sent events from an OpenAI-compatible endpoint

  /**
   * The state of the read loop after `chunks`: the complete lines handed on, and the buffer that
   * holds the text after the last line break. Each chunk is appended to the buffer, which is then
   * split at line breaks; all pieces but the last are handed on.
   */
  function Frame(chunks: seq<string>): (seq<string>, string) {
    if chunks == [] then ([], "")
    else
      var before := Frame(chunks[..|chunks| - 1]);
      var parts := Text.Split(before.1 + chunks[|chunks| - 1], '\n');
      (before.0 + parts[..|parts| - 1], parts[|parts| - 1])
  }

  /** The text a complete line forwards: the delta content of a `data: ` line, when there is one. */
  function LinePiece(parse: string -> Result<Json, string>, line: string): (r: Option<string>)
    ensures r.Some? ==> Text.StartsWith(line, "data: ") && line[6..] != "[DONE]"
  {
    if !Text.StartsWith(line, "data: ") then None
    else
      var data := line[6..];
      if data == "[DONE]" then None
      else match parse(data)
        case Err(_) => None
        case Ok(json) =>
          if json == JNull then None
          else
            var content := Content(json, "delta");
            if Truthy(content) then Some(JsString(content.value)) else None
  }

  /** The pieces a sequence of complete lines forwards, in order. */
  function Pieces(parse: string -> Result<Json, string>, lines: seq<string>): seq<string> {
    if lines == [] then []
    else
      var rest := Pieces(parse, lines[1..]);
      match LinePiece(parse, lines[0])
      case Some(p) => [p] + rest
      case None => rest
  }

  /** What the stream from the custom endpoint forwards: the pieces of the lines the loop handed on. */
  function SsePieces(parse: string -> Result<Json, string>, chunks: seq<string>): seq<string> {
    Pieces(parse, Frame(chunks).0)
  }

  /** The lines of a text that end in a line break: all pieces of the split but the last. */
  function CompleteLines(text: string): seq<string> {
    var parts := Text.Split(text, '\n');
    parts[..|parts| - 1]
  }

  /** Line-break-free pieces. */
  predicate Unbroken(lines: seq<string>) {
    forall i :: 0 <= i < |lines| ==> '\n' !in lines[i]
  }

  lemma UnbrokenAppend(a: seq<string>, b: seq<string>)
    requires Unbroken(a) && Unbroken(b)
    ensures Unbroken(a + b)
  {
    forall i | 0 <= i < |a + b| ensures '\n' !in (a + b)[i] {
      if i >= |a| {
        assert (a + b)[i] == b[i - |a|];
      }
    }
  }

  /**
   * The buffer invariant of the read loop: the text read so far is each line handed on followed
   * by a line break, then the buffer; neither the lines nor the buffer hold a line break.
   */
  lemma {:induction false} FrameInvariant(chunks: seq<string>)
    ensures Text.Terminated(Frame(chunks).0, '\n') + Frame(chunks).1 == Text.Concat(chunks)
    ensures '\n' !in Frame(chunks).1 && Unbroken(Frame(chunks).0)
    decreases |chunks|
  {
    if chunks != [] {
      var init, last := chunks[..|chunks| - 1], chunks[|chunks| - 1];
      FrameInvariant(init);
      var before := Frame(init);
      var parts := Text.Split(before.1 + last, '\n');
      var k := |parts| - 1;
      assert Unbroken(parts[..k]);
      Reframe(Text.Concat(init), last, before.0, before.1, parts[..k], parts[k]);
      UnbrokenAppend(before.0, parts[..k]);
    }
  }

  /** The framing of `prev` and the framing of its buffer with `more` together frame `prev + more`. */
  lemma Reframe(prev: string, more: string, lines: seq<string>, buffer: string, next: seq<string>, rest: string)
    requires Text.Terminated(lines, '\n') + buffer == prev
    requires Text.Terminated(next, '\n') + rest == buffer + more
    ensures Text.Terminated(lines + next, '\n') + rest == prev + more
  {
    Text.TerminatedAppend(lines, next, '\n');
    calc {
      prev + more;
      Text.Terminated(lines, '\n') + buffer + more;
      Text.Terminated(lines, '\n') + (buffer + more);
      Text.Terminated(lines, '\n') + (Text.Terminated(next, '\n') + rest);
      Text.Terminated(lines, '\n') + Text.Terminated(next, '\n') + rest;
    }
  }

  /** The loop hands on exactly the complete lines of what it has read, and buffers the rest. */
  lemma FrameSplit(chunks: seq<string>)
    ensures Frame(chunks).0 + [Frame(chunks).1] == Text.Split(Text.Concat(chunks), '\n')
    ensures Frame(chunks).0 == CompleteLines(Text.Concat(chunks))
  {
    FrameInvariant(chunks);
    Text.SplitUnique(Frame(chunks).0, Frame(chunks).1, '\n');
    assert (Frame(chunks).0 + [Frame(chunks).1])[..|Frame(chunks).0|] == Frame(chunks).0;
  }

  /** What the stream forwards depends only on the text received, not on how it was cut into chunks. */
  lemma SseReference(parse: string -> Result<Json, string>, chunks: seq<string>)
    ensures SsePieces(parse, chunks) == Pieces(parse, CompleteLines(Text.Concat(chunks)))
  {
    FrameSplit(chunks);
  }

  lemma ChunkingIrrelevant(parse: string -> Result<Json, string>, a: seq<string>, b: seq<string>)
    requires Text.Concat(a) == Text.Concat(b)
    ensures SsePieces(parse, a) == SsePieces(parse, b)
  {
    SseReference(parse, a);
    SseReference(parse, b);
  }

  /** A last line without a line break is never interpreted, whatever it says. */
  lemma UnterminatedIgnored(parse: string -> Result<Json, string>, chunks: seq<string>, tail: string)
    requires '\n' !in tail
    ensures SsePieces(parse, chunks + [tail]) == SsePieces(parse, chunks)
    ensures Frame(chunks + [tail]).1 == Frame(chunks).1 + tail
  {
    FrameInvariant(chunks);
    var (lines, buffer) := Frame(chunks);
    assert (chunks + [tail])[..|chunks|] == chunks;
    Text.SplitUnique([], buffer + tail, '\n');
    var parts := Text.Split(buffer + tail, '\n');
    assert parts == [buffer + tail];
    assert Frame(chunks + [tail]).0 == lines + parts[..0] == lines;
  }

  /** The pieces of lines one after the other are those of each, in order. */
  lemma {:induction false} PiecesAppend(parse: string -> Result<Json, string>, a: seq<string>, b: seq<string>)
    ensures Pieces(parse, a + b) == Pieces(parse, a) + Pieces(parse, b)
  {
    if a != [] {
      assert (a + b)[1..] == a[1..] + b;
      PiecesAppend(parse, a[1..], b);
    } else {
      assert a + b == b;
    }
  }

  /** Each complete line forwards at most its delta content; other lines forward nothing. */
  lemma LinePieces(parse: string -> Result<Json, string>, line: string)
    ensures Pieces(parse, [line]) == (if LinePiece(parse, line).Some? then [LinePiece(parse, line).value] else [])
    ensures !Text.StartsWith(line, "data: ") || line[6..] == "[DONE]" ==> Pieces(parse, [line]) == []
  {
    assert [line][1..] == [];
  }

  // ---------------------------------------------------------------------------------------------
  // The decision sequence

  /** The request reaches generation: its body parses to a value other than `null`, the prompt is a non-empty string, and no cached report answers it. */
  predicate Reaches(h: Host, raw: string) {
    && h.parse(raw).Ok? && h.parse(raw).value != JNull
    && Truthy(Get(h.parse(raw).value, "prompt")) && Get(h.parse(raw).value, "prompt").value.JStr?
    && CacheHit(h, h.parse(raw).value).None?
  }

  /** The endpoint value selects the custom endpoint. */
  predicate IsHttp(endpoint: Option<Json>) {
    endpoint.Some? && endpoint.value.JStr? && Text.StartsWith(endpoint.value.s, "http")
  }

  /**
   * A body that does not parse is a 500 carrying the parse error, and a body without a prompt is a
   * 400; in both cases neither the cache nor a vendor is touched. Conversely, the cache is asked
   * and a vendor called only for a request with a prompt.
   */
  lemma Rejections(h: Host, v: Vendor, raw: string)
    ensures var o := Handle(h, v, raw);
      h.parse(raw).Err? ==> o == Outcome(Failure("Invalid JSON body: " + h.parse(raw).error + " "), false, None, None)
    ensures var o := Handle(h, v, raw);
      h.parse(raw).Ok? && h.parse(raw).value != JNull && !Truthy(Get(h.parse(raw).value, "prompt")) ==>
        o == Outcome(JsonReply(400, ErrorBody("Prompt is required")), false, None, None)
    ensures var o := Handle(h, v, raw);
      o.lookedUp || o.call.Some? || o.write.Some? ==>
        h.parse(raw).Ok? && h.parse(raw).value != JNull && Truthy(Get(h.parse(raw).value, "prompt"))
  {
  }

  /** A cached report is returned as JSON before the API key is looked at and whatever the stream flag says. */
  lemma CacheAnswersFirst(h: Host, v: Vendor, raw: string)
    requires h.parse(raw).Ok? && h.parse(raw).value != JNull && Truthy(Get(h.parse(raw).value, "prompt"))
    requires CacheHit(h, h.parse(raw).value).Some?
    ensures Handle(h, v, raw) == Outcome(Report(JStr(CacheHit(h, h.parse(raw).value).value)), true, None, None)
  {
  }

  /**
   * Whatever keeps the cache from answering (no key, no client, a miss, an empty value, a failed
   * read) the handler goes on the same way: the reply and the vendor call do not depend on it.
   */
  lemma CacheMissesAlike(h1: Host, h2: Host, v: Vendor, raw: string)
    requires h2 == h1.(redis := h2.redis)
    requires h1.parse(raw).Ok? ==> CacheHit(h1, h1.parse(raw).value).None? && CacheHit(h2, h1.parse(raw).value).None?
    ensures Handle(h1, v, raw).reply == Handle(h2, v, raw).reply
    ensures Handle(h1, v, raw).call == Handle(h2, v, raw).call
  {
    if Reaches(h1, raw) {
      var body := h1.parse(raw).value;
      var prompt := Get(body, "prompt").value.s;
      var s := SettingsOf(h1, body);
      assert s == SettingsOf(h2, body);
      var l1 := Truthy(Get(body, "cacheKey")) && h1.redis.Some?;
      var l2 := Truthy(Get(body, "cacheKey")) && h2.redis.Some?;
      assert Handle(h1, v, raw) == Generate(h1, v, body, prompt, l1);
      assert Handle(h2, v, raw) == Generate(h2, v, body, prompt, l2);
      if Truthy(s.apiKey) {
        if Truthy(Get(body, "stream")) {
          StreamingMissesAlike(h1, h2, v, body, prompt, s, l1, l2);
        } else {
          WholeMissesAlike(h1, h2, v, body, prompt, s, l1, l2);
        }
      }
    }
  }

  lemma WholeMissesAlike(h1: Host, h2: Host, v: Vendor, body: Json, prompt: string, s: Settings, l1: bool, l2: bool)
    requires h2 == h1.(redis := h2.redis) && Truthy(s.apiKey)
    ensures Whole(h1, v, body, prompt, s, l1).reply == Whole(h2, v, body, prompt, s, l2).reply
    ensures Whole(h1, v, body, prompt, s, l1).call == Whole(h2, v, body, prompt, s, l2).call
  {
  }

  lemma StreamingMissesAlike(h1: Host, h2: Host, v: Vendor, body: Json, prompt: string, s: Settings, l1: bool, l2: bool)
    requires h2 == h1.(redis := h2.redis) && Truthy(s.apiKey)
    ensures Streaming(h1, v, body, prompt, s, l1).reply == Streaming(h2, v, body, prompt, s, l2).reply
    ensures Streaming(h1, v, body, prompt, s, l1).call == Streaming(h2, v, body, prompt, s, l2).call
  {
    assert UsesCustom(h1, s.endpoint) == UsesCustom(h2, s.endpoint);
    match UsesCustom(h1, s.endpoint)
    case Err(_) =>
    case Ok(custom) =>
      if custom {
        var call := Some(CustomCall(s.endpoint.value.s, s.model, s.apiKey.value, prompt, true));
        if v.custom.Answered? && Client.IsOk(v.custom.status) && v.custom.body.Some? {
          var pieces := SsePieces(h1.parse, v.custom.body.value.chunks);
          CloseAlike(h1, h2, body, pieces, v.custom.body.value.failure, l1, l2, call);
        }
      } else {
        var call := Some(SdkCall(s.model, s.apiKey.value, prompt, true));
        if v.sdkStream.Ok? {
          CloseAlike(h1, h2, body, NonEmpty(v.sdkStream.value.chunks), v.sdkStream.value.failure, l1, l2, call);
        }
      }
  }

  lemma CloseAlike(h1: Host, h2: Host, body: Json, pieces: seq<string>, failure: Option<string>, l1: bool, l2: bool,
    call: Option<Call>)
    ensures Close(h1, body, pieces, failure, l1, call).reply == Close(h2, body, pieces, failure, l2, call).reply
    ensures Close(h1, body, pieces, failure, l1, call).call == call == Close(h2, body, pieces, failure, l2, call).call
  {
  }

  /**
   * Without an API key from the request's config or either environment, a request that reaches
   * generation gets a 500 naming the missing key, and no vendor is ever called without one.
   */
  lemma KeyRequired(h: Host, v: Vendor, raw: string)
    ensures Reaches(h, raw) && !Truthy(SettingsOf(h, h.parse(raw).value).apiKey) ==>
      Handle(h, v, raw).reply == JsonReply(500, ErrorBody("Server configuration error: MISSING_API_KEY"))
      && Handle(h, v, raw).call.None?
    ensures Handle(h, v, raw).call.Some? ==> Reaches(h, raw) && Truthy(SettingsOf(h, h.parse(raw).value).apiKey)
  {
  }

  /** The call in `o` is the one the settings `s` select, with the request's prompt and stream flag. */
  predicate CallFits(o: Outcome, body: Json, prompt: string, s: Settings) {
    o.call.Some? ==>
      && (o.call.value.CustomCall? <==> IsHttp(s.endpoint))
      && (o.call.value.CustomCall? ==> o.call.value.endpoint == s.endpoint.value.s)
      && o.call.value.model == s.model
      && s.apiKey.Some? && o.call.value.key == s.apiKey.value
      && o.call.value.prompt == prompt
      && o.call.value.stream == Truthy(Get(body, "stream"))
  }

  /**
   * A cache write in `o` follows a successful generation, has the seven-day expiry, the request's
   * key and exactly the text sent back; a streamed text is non-empty.
   */
  predicate WriteFits(h: Host, body: Json, o: Outcome) {
    o.write.Some? ==>
      && o.write.value.ttl == 604800
      && h.redis.Some?
      && Truthy(Get(body, "cacheKey"))
      && o.write.value.key == JsString(Get(body, "cacheKey").value)
      && o.call.Some?
      && match o.reply
         case JsonReply(status, b) =>
           && status == 200 && b.JObj? && "reportText" in b.fields
           && Truthy(Some(b.fields["reportText"])) && o.write.value.value == JsString(b.fields["reportText"])
         case StreamReply(pieces, failure) =>
           failure.None? && o.write.value.value == Text.Concat(pieces) != ""
  }

  /** A successful generation with a key and a configured cache writes back. */
  predicate WritesWhenDue(h: Host, body: Json, o: Outcome) {
    && o.call.Some? && h.redis.Some? && Truthy(Get(body, "cacheKey"))
    && (|| (o.reply.JsonReply? && o.reply.status == 200 && o.reply.body.JObj? && "reportText" in o.reply.body.fields
            && Truthy(Some(o.reply.body.fields["reportText"])))
        || (o.reply.StreamReply? && o.reply.failure.None? && Text.Concat(o.reply.pieces) != ""))
    ==> o.write.Some?
  }

  lemma WholeFits(h: Host, v: Vendor, body: Json, prompt: string, s: Settings, looked: bool)
    requires Truthy(s.apiKey) && !Truthy(Get(body, "stream"))
    ensures var o := Whole(h, v, body, prompt, s, looked);
      CallFits(o, body, prompt, s) && WriteFits(h, body, o) && WritesWhenDue(h, body, o)
      && (o.call.Some? && o.call.value.CustomCall? && o.reply.JsonReply? && o.reply.status == 200 ==>
          o.reply.body.JObj? && "reportText" in o.reply.body.fields && Truthy(Some(o.reply.body.fields["reportText"])))
      && ((!Truthy(s.endpoint) || s.endpoint.value.JStr?) ==> o.call.Some?)
  {
    match UsesCustom(h, s.endpoint)
    case Err(_) =>
    case Ok(custom) =>
      if custom {
        var call := Some(CustomCall(s.endpoint.value.s, s.model, s.apiKey.value, prompt, false));
        var t := CustomText(h, v.custom);
        if t.Ok? {
          ReportFits(h, body, t.value, looked, call);
        }
      } else {
        var call := Some(SdkCall(s.model, s.apiKey.value, prompt, false));
        if v.sdkText.Ok? {
          ReportFits(h, body, JStr(v.sdkText.value), looked, call);
        }
      }
  }

  lemma ReportFits(h: Host, body: Json, text: Json, looked: bool, call: Option<Call>)
    requires call.Some?
    ensures var o := Outcome(Report(text), looked, call, WriteBack(h, body, text));
      WriteFits(h, body, o) && WritesWhenDue(h, body, o)
  {
  }

  lemma StreamingFits(h: Host, v: Vendor, body: Json, prompt: string, s: Settings, looked: bool)
    requires Truthy(s.apiKey) && Truthy(Get(body, "stream"))
    ensures var o := Streaming(h, v, body, prompt, s, looked);
      CallFits(o, body, prompt, s) && WriteFits(h, body, o) && WritesWhenDue(h, body, o)
      && ((!Truthy(s.endpoint) || s.endpoint.value.JStr?) ==> o.call.Some?)
  {
    var o := Streaming(h, v, body, prompt, s, looked);
    match UsesCustom(h, s.endpoint)
    case Err(_) =>
    case Ok(custom) =>
      if custom {
        var call := Some(CustomCall(s.endpoint.value.s, s.model, s.apiKey.value, prompt, true));
        if v.custom.Answered? && Client.IsOk(v.custom.status) && v.custom.body.Some? {
          CloseFits(h, body, SsePieces(h.parse, v.custom.body.value.chunks), v.custom.body.value.failure, looked, call);
        }
      } else {
        var call := Some(SdkCall(s.model, s.apiKey.value, prompt, true));
        if v.sdkStream.Ok? {
          CloseFits(h, body, NonEmpty(v.sdkStream.value.chunks), v.sdkStream.value.failure, looked, call);
        }
      }
  }

  lemma CloseFits(h: Host, body: Json, pieces: seq<string>, failure: Option<string>, looked: bool, call: Option<Call>)
    requires call.Some?
    ensures var o := Close(h, body, pieces, failure, looked, call);
      o.call == call && o.reply.StreamReply? && o.reply.pieces == pieces
      && WriteFits(h, body, o) && WritesWhenDue(h, body, o)
  {
  }

  /** What a request that reaches generation with a key ends in, by the stream flag. */
  lemma GenerateFits(h: Host, v: Vendor, raw: string)
    requires Reaches(h, raw)
    ensures var body := h.parse(raw).value;
      var s := SettingsOf(h, body);
      var o := Handle(h, v, raw);
      && CallFits(o, body, Get(body, "prompt").value.s, s) && WriteFits(h, body, o) && WritesWhenDue(h, body, o)
      && (Truthy(s.apiKey) && (!Truthy(s.endpoint) || s.endpoint.value.JStr?) ==> o.call.Some?)
      && (o.call.Some? && o.call.value.CustomCall? && !o.call.value.stream && o.reply.JsonReply? && o.reply.status == 200 ==>
          o.reply.body.JObj? && "reportText" in o.reply.body.fields && Truthy(Some(o.reply.body.fields["reportText"])))
  {
    var body := h.parse(raw).value;
    var prompt := Get(body, "prompt").value.s;
    var s := SettingsOf(h, body);
    var looked := Truthy(Get(body, "cacheKey")) && h.redis.Some?;
    assert Handle(h, v, raw) == Generate(h, v, body, prompt, looked);
    if Truthy(s.apiKey) {
      if Truthy(Get(body, "stream")) {
        StreamingFits(h, v, body, prompt, s, looked);
      } else {
        WholeFits(h, v, body, prompt, s, looked);
      }
    }
  }

  /** The model is the configured one when truthy, otherwise the default. */
  lemma ModelDefault(h: Host, body: Json)
    ensures var model := GetOpt(Get(body, "config"), "model");
      SettingsOf(h, body).model == (if Truthy(model) then model.value else JStr(DefaultModel))
  {
  }

  /**
   * The vendor call: the custom endpoint exactly when the endpoint is a string starting with
   * "http", otherwise the SDK; with the configured model or the default one, the API key, the
   * prompt and the stream flag of the request. Every request that reaches generation with a key
   * and an endpoint that is a string or falsy makes the call.
   */
  lemma VendorChoice(h: Host, v: Vendor, raw: string)
    ensures var o := Handle(h, v, raw);
      o.call.Some? ==>
        var body := h.parse(raw).value;
        var config := Get(body, "config");
        && Reaches(h, raw)
        && CallFits(o, body, Get(body, "prompt").value.s, SettingsOf(h, body))
        && o.call.value.model == (if Truthy(GetOpt(config, "model")) then GetOpt(config, "model").value else JStr(DefaultModel))
    ensures Reaches(h, raw) && Truthy(SettingsOf(h, h.parse(raw).value).apiKey) ==>
      var e := SettingsOf(h, h.parse(raw).value).endpoint;
      (!Truthy(e) || e.value.JStr?) ==> Handle(h, v, raw).call.Some?
  {
    KeyRequired(h, v, raw);
    if Reaches(h, raw) {
      GenerateFits(h, v, raw);
      ModelDefault(h, h.parse(raw).value);
    }
  }

  /**
   * The cache is written only after a successful generation, with the seven-day expiry, under the
   * request's key and with exactly the text sent back; and every successful generation with a
   * truthy text is written back when the request has a key and a cache is configured.
   */
  lemma WritesOnSuccess(h: Host, v: Vendor, raw: string)
    ensures var o := Handle(h, v, raw);
      o.write.Some? ==> Reaches(h, raw) && WriteFits(h, h.parse(raw).value, o)
    ensures Reaches(h, raw) ==> WritesWhenDue(h, h.parse(raw).value, Handle(h, v, raw))
  {
    KeyRequired(h, v, raw);
    if Reaches(h, raw) {
      GenerateFits(h, v, raw);
    }
  }

  /** The non-streaming custom endpoint never yields an empty report: a 200 carries a truthy text. */
  lemma CustomReportTruthy(h: Host, v: Vendor, raw: string)
    ensures var o := Handle(h, v, raw);
      o.call.Some? && o.call.value.CustomCall? && !o.call.value.stream && o.reply.JsonReply? && o.reply.status == 200 ==>
        o.reply.body.JObj? && "reportText" in o.reply.body.fields && Truthy(Some(o.reply.body.fields["reportText"]))
  {
    KeyRequired(h, v, raw);
    if Reaches(h, raw) {
      GenerateFits(h, v, raw);
    }
  }

  /** An empty body from the non-streaming custom endpoint is an error, not an empty report. */
  lemma CustomEmptyBody(h: Host, v: Vendor, raw: string)
    requires Reaches(h, raw) && !Truthy(Get(h.parse(raw).value, "stream"))
    requires Truthy(SettingsOf(h, h.parse(raw).value).apiKey) && IsHttp(SettingsOf(h, h.parse(raw).value).endpoint)
    requires v.custom.Answered? && Client.IsOk(v.custom.status) && v.custom.text == ""
    ensures Handle(h, v, raw).reply
      == Failure("Failed to parse JSON from custom endpoint: Empty response from custom endpoint")
  {
  }
}
