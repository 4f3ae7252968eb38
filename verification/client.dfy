/**
 * The browser side of the analysis (`retryFetch`, `generateCacheKey`, `fetchAIAnalysis`).
 *
 * The network is an abstract sequence of attempts: `net(k)` is what the `k`th call to `fetch`
 * yields, a response or a thrown error. Waiting is recorded as the list of delays, and the
 * callbacks `onRetry` / `onStream` as the lists of values they receive.
 */
module Client {
  import opened Wrappers
  import opened Js
  import Text
  import opened Codec
  import opened Scoring
  import Prompt

  /** What a response body offers: a stream reader, or only `response.json()`. */
  datatype Body =
    | Reader(chunks: seq<string>, failsAtEnd: bool)   // decoded chunks; `failsAtEnd`: the read after them throws
    | NoReader(json: Result<Json, string>)            // what `response.json()` yields or throws

  datatype Response = Response(status: int, body: Body)

  datatype Attempt = Answered(response: Response) | Thrown(error: string)

  /** `response.ok`. */
  predicate IsOk(status: int) { 200 <= status <= 299 }

  /** Statuses worth retrying. */
  predicate IsTransient(status: int) {
    status == 429 || status == 500 || status == 502 || status == 503 || status == 504
  }

  /** An attempt after which `retryFetch` tries again, if it has retries left. */
  predicate Retryable(a: Attempt) {
    a.Thrown? || (!IsOk(a.response.status) && IsTransient(a.response.status))
  }

  /** The run of `retryFetch`: how it ends, the `onRetry` arguments, the waits, the number of fetches. */
  datatype Trace = Trace(outcome: Result<Response, string>, counts: seq<int>, delays: seq<int>, fetches: nat)

  function Pow2(n: nat): (r: nat)
    ensures r >= 1
  {
    if n == 0 then 1 else 2 * Pow2(n - 1)
  }

  /** What the last attempt means to the caller: the response, or the error rethrown. */
  function Settle(a: Attempt): Result<Response, string> {
    match a
    case Answered(r) => Ok(r)
    case Thrown(e) => Err(e)
  }

  /**
   * `retryFetch(url, options, retries, backoff, onRetry)` starting at the `k`th attempt.
   * It stops at the first attempt that is not retryable or when no retries are left; before each
   * retry it reports `4 - retries` and waits `backoff`, which doubles every time.
   */
  function RetryFetch(net: nat -> Attempt, k: nat, retries: int, backoff: int): (t: Trace)
    ensures 1 <= t.fetches
    decreases if retries > 0 then retries else 0
  {
    if Retryable(net(k)) && retries > 0 then
      var rest := RetryFetch(net, k + 1, retries - 1, backoff * 2);
      Trace(rest.outcome, [4 - retries] + rest.counts, [backoff] + rest.delays, 1 + rest.fetches)
    else
      Trace(Settle(net(k)), [], [], 1)
  }

  /**
   * `retryFetch` makes at most `retries + 1` fetches, reporting and waiting once before each
   * retry; the outcome is the last attempt's, and that attempt is retryable only when the retries
   * ran out.
   */
  lemma {:induction false} RetryFetchShape(net: nat -> Attempt, k: nat, retries: int, backoff: int)
    ensures var t := RetryFetch(net, k, retries, backoff);
      && (retries >= 0 ==> t.fetches <= retries + 1)
      && |t.counts| == t.fetches - 1 && |t.delays| == t.fetches - 1
      && t.outcome == Settle(net(k + t.fetches - 1))
      && (Retryable(net(k + t.fetches - 1)) ==> t.fetches - 1 >= retries)
    decreases if retries > 0 then retries else 0
  {
    if Retryable(net(k)) && retries > 0 {
      RetryFetchShape(net, k + 1, retries - 1, backoff * 2);
    }
  }

  /**
   * Every attempt but the last was retryable, and before the `i`th retry `onRetry` received
   * `4 - retries + i` and the wait was the backoff doubled `i` times.
   */
  lemma RetryFetchTrail(net: nat -> Attempt, k: nat, retries: int, backoff: int)
    ensures var t := RetryFetch(net, k, retries, backoff);
      && |t.counts| == t.fetches - 1 && |t.delays| == t.fetches - 1
      && forall i :: 0 <= i < t.fetches - 1 ==>
           t.counts[i] == 4 - retries + i && t.delays[i] == backoff * Pow2(i) && Retryable(net(k + i))
  {
    var t := RetryFetch(net, k, retries, backoff);
    RetryFetchShape(net, k, retries, backoff);
    assert |t.counts| == t.fetches - 1 && |t.delays| == t.fetches - 1;
    forall i | 0 <= i < t.fetches - 1
      ensures t.counts[i] == 4 - retries + i && t.delays[i] == backoff * Pow2(i) && Retryable(net(k + i))
    {
      RetryFetchAt(net, k, retries, backoff, i);
    }
  }

  /** The `i`th retry of a run, by induction on `i`. */
  lemma {:induction false} RetryFetchAt(net: nat -> Attempt, k: nat, retries: int, backoff: int, i: nat)
    requires i < RetryFetch(net, k, retries, backoff).fetches - 1
    ensures var t := RetryFetch(net, k, retries, backoff);
      && i < |t.counts| && i < |t.delays|
      && t.counts[i] == 4 - retries + i && t.delays[i] == backoff * Pow2(i) && Retryable(net(k + i))
    decreases i
  {
    if !(Retryable(net(k)) && retries > 0) {
      assert false;
    }
    var rest := RetryFetch(net, k + 1, retries - 1, backoff * 2);
    RetryStep(net, k, retries, backoff);
    if i > 0 {
      RetryFetchAt(net, k + 1, retries - 1, backoff * 2, i - 1);
      Doubling(backoff, i);
      assert k + 1 + (i - 1) == k + i;
    }
  }

  /** A retry puts its count and wait in front of the rest of the run. */
  lemma RetryStep(net: nat -> Attempt, k: nat, retries: int, backoff: int)
    requires Retryable(net(k)) && retries > 0
    ensures var t := RetryFetch(net, k, retries, backoff);
      var rest := RetryFetch(net, k + 1, retries - 1, backoff * 2);
      && t.fetches == 1 + rest.fetches
      && t.counts == [4 - retries] + rest.counts
      && t.delays == [backoff] + rest.delays
  {
  }

  /** Doubling the first delay shifts the geometric sequence by one step. */
  lemma Doubling(backoff: int, i: nat)
    requires i >= 1
    ensures (backoff * 2) * Pow2(i - 1) == backoff * Pow2(i)
  {
    assert Pow2(i) == 2 * Pow2(i - 1);
  }

  /**
   * With the defaults the client uses (3 retries, 1000 ms) there are at most four fetches,
   * `onRetry` sees a prefix of 1, 2, 3 and the waits are a prefix of 1000, 2000, 4000 ms.
   */
  lemma RetryDefaults(net: nat -> Attempt)
    ensures var t := RetryFetch(net, 0, 3, 1000);
      && t.fetches <= 4
      && t.counts == [1, 2, 3][..t.fetches - 1]
      && t.delays == [1000, 2000, 4000][..t.fetches - 1]
  {
    var t := RetryFetch(net, 0, 3, 1000);
    RetryFetchTrail(net, 0, 3, 1000);
    RetryFetchShape(net, 0, 3, 1000);
    assert Pow2(1) == 2 && Pow2(2) == 4;
  }

  /** An ok first response is returned at once, with no retry and no wait. */
  lemma RetryOkAtOnce(net: nat -> Attempt, k: nat, retries: int, backoff: int)
    requires net(k).Answered? && IsOk(net(k).response.status)
    ensures RetryFetch(net, k, retries, backoff) == Trace(Ok(net(k).response), [], [], 1)
  {
  }

  // ---- The cache key ----

  /** `[x, y].sort().join(sep)`. */
  function SortedPair(x: string, y: string, sep: string): string {
    var s := Text.Sort2(x, y);
    Text.Join(s, sep)
  }

  /**
   * `generateCacheKey`: with 50 answers on both sides, the version of A (or 2) and the two answer
   * arrays as JSON text, sorted and joined by '|'; otherwise the version of A (or 1) and the two
   * names (or 'A' / 'B'), sorted and joined by '_'.
   */
  function CacheKey(stringify: Json -> string, a: Profile, b: Profile): (r: string)
    ensures |a.answers| == 50 && |b.answers| == 50 ==>
      r == "match_v" + StringOr(Some(JNum(a.version)), "2") + "_"
           + SortedPair(stringify(JArr(a.answers)), stringify(JArr(b.answers)), "|")
    ensures !(|a.answers| == 50 && |b.answers| == 50) ==>
      r == "match_v" + StringOr(Some(JNum(a.version)), "1") + "_"
           + SortedPair(StringOr(a.name, "A"), StringOr(b.name, "B"), "_")
  {
    if |a.answers| != 50 || |b.answers| != 50 then
      "match_v" + StringOr(Some(JNum(a.version)), "1") + "_" + SortedPair(StringOr(a.name, "A"), StringOr(b.name, "B"), "_")
    else
      "match_v" + StringOr(Some(JNum(a.version)), "2") + "_"
      + SortedPair(stringify(JArr(a.answers)), stringify(JArr(b.answers)), "|")
  }

  lemma SortedPairSymmetric(x: string, y: string, sep: string)
    ensures SortedPair(x, y, sep) == SortedPair(y, x, sep)
  {
    Text.Sort2Symmetric(x, y);
  }

  /**
   * The key does not depend on the order of the two profiles when their versions agree and either
   * both have 50 answers or both names are given (or both missing).
   */
  lemma CacheKeySymmetric(stringify: Json -> string, a: Profile, b: Profile)
    requires a.version == b.version
    requires (|a.answers| == 50 && |b.answers| == 50) || Truthy(a.name) == Truthy(b.name)
    ensures CacheKey(stringify, a, b) == CacheKey(stringify, b, a)
  {
    if |a.answers| == 50 && |b.answers| == 50 {
      SortedPairSymmetric(stringify(JArr(a.answers)), stringify(JArr(b.answers)), "|");
    } else if Truthy(a.name) {
      SortedPairSymmetric(StringOr(a.name, "A"), StringOr(b.name, "B"), "_");
    }
  }

  /** Only profile A's version enters the key: B's version never matters. */
  lemma CacheKeyIgnoresVersionB(stringify: Json -> string, a: Profile, b: Profile, v: int)
    ensures CacheKey(stringify, a, b) == CacheKey(stringify, a, b.(version := v))
  {
  }

  /**
   * The fallback key is not order-insensitive when only one profile has a name: the missing name
   * defaults to 'A' or 'B' depending on the side, so swapping the profiles changes the key.
   */
  lemma CacheKeyFallbackAsymmetric(stringify: Json -> string, a: Profile, b: Profile)
    requires |a.answers| != 50 && a.version == b.version
    requires a.name == None && b.name == Some(JStr("A"))
    ensures CacheKey(stringify, a, b) != CacheKey(stringify, b, a)
  {
    var v := "match_v" + StringOr(Some(JNum(a.version)), "1") + "_";
    assert StringOr(a.name, "A") == "A" && StringOr(b.name, "B") == "A";
    assert StringOr(b.name, "A") == "A" && StringOr(a.name, "B") == "B";
    FallbackPairs();
    assert CacheKey(stringify, a, b) == v + "A_A";
    assert CacheKey(stringify, b, a) == v + "A_B";
    LastDiffers(v, "A_A", "A_B");
  }

  lemma FallbackPairs()
    ensures SortedPair("A", "A", "_") == "A_A"
    ensures SortedPair("A", "B", "_") == "A_B"
  {
    assert Text.Sort2("A", "A") == ["A", "A"];
    assert Text.Before("A", "B");
    assert Text.Sort2("A", "B") == ["A", "B"];
  }

  lemma LastDiffers(v: string, x: string, y: string)
    requires |x| == |y| == 3 && x[2] != y[2]
    ensures v + x != v + y
  {
    assert (v + x)[|v| + 2] == x[2];
    assert (v + y)[|v| + 2] == y[2];
  }

  // ---- Streaming and the analysis result ----

  /** The texts `onStream` receives: the accumulated text after each chunk. */
  function Accumulations(chunks: seq<string>): (r: seq<string>)
    ensures |r| == |chunks|
    ensures forall i :: 0 <= i < |chunks| ==> r[i] == Text.Concat(chunks[..i + 1])
  {
    seq(|chunks|, i requires 0 <= i < |chunks| => Text.Concat(chunks[..i + 1]))
  }

  /** Each text handed to `onStream` extends the one before, and the last is the whole stream. */
  lemma AccumulationsGrow(chunks: seq<string>)
    ensures forall i :: 0 < i < |chunks| ==>
      Accumulations(chunks)[i] == Accumulations(chunks)[i - 1] + chunks[i]
    ensures |chunks| > 0 ==> Accumulations(chunks)[|chunks| - 1] == Text.Concat(chunks)
  {
    forall i | 0 < i < |chunks|
      ensures Accumulations(chunks)[i] == Accumulations(chunks)[i - 1] + chunks[i]
    {
      assert chunks[..i + 1][..i] == chunks[..i];
    }
    assert chunks[..|chunks|] == chunks;
  }

  lemma AccumulationsSnoc(chunks: seq<string>, i: nat)
    requires i < |chunks|
    ensures Accumulations(chunks[..i + 1]) == Accumulations(chunks[..i]) + [Text.Concat(chunks[..i + 1])]
  {
    var l := Accumulations(chunks[..i + 1]);
    var r := Accumulations(chunks[..i]) + [Text.Concat(chunks[..i + 1])];
    forall j | 0 <= j < i ensures l[j] == r[j] {
      assert chunks[..i + 1][..j + 1] == chunks[..i][..j + 1];
    }
    assert chunks[..i + 1][..i + 1] == chunks[..i + 1];
  }

  /** The reader loop: accumulate each chunk and report the running text. */
  method ReadStream(chunks: seq<string>) returns (text: string, reported: seq<string>)
    ensures text == Text.Concat(chunks)
    ensures reported == Accumulations(chunks)
  {
    text := "";
    reported := [];
    var i := 0;
    while i < |chunks|
      invariant 0 <= i <= |chunks|
      invariant text == Text.Concat(chunks[..i])
      invariant reported == Accumulations(chunks[..i])
    {
      assert chunks[..i + 1][..i] == chunks[..i];
      text := text + chunks[i];
      reported := reported + [text];
      AccumulationsSnoc(chunks, i);
      i := i + 1;
    }
    assert chunks[..i] == chunks;
  }

  /** What `fetchAIAnalysis` resolves to; `details` is whatever the code assigned, a string in the normal case. */
  datatype Analysis = Analysis(score: Num, summary: string, details: Option<Json>, matrix: seq<Point>)

  /** The marker that opens the details of an offline result. */
  const OfflineMarker: string := "[系统提示：AI 服务暂时不可用，以下是基于原始数据的分析预览]"

  function Summary(score: Num, offline: bool): string {
    "基于数据的灵魂契合度：" + Prompt.ShowNum(score) + "%" + (if offline then " (离线模式)" else "")
  }

  function OfflineDetails(prompt: string): string {
    OfflineMarker + "\n\n" + prompt
  }

  /** The request body `fetchAIAnalysis` sends. */
  datatype Request = Request(prompt: string, stream: bool, cacheKey: string)

  /** Everything one call produces: the request, the retry trace, the `onStream` texts and the result. */
  datatype Run = Run(request: Request, trace: Trace, streamed: seq<string>, result: Analysis)

  function Offline(c: Context, prompt: string): Analysis {
    Analysis(c.matchScore, Summary(c.matchScore, true), Some(JStr(OfflineDetails(prompt))), c.matrix)
  }

  /**
   * `fetchAIAnalysis(a, b, onRetry, onStream)`: build context, prompt and cache key, then exchange
   * the request with the server. This is its result when the context and prompt can be built;
   * when `ContextThrows(a, b)` it throws before its `try` instead.
   */
  function FetchAnalysis(stringify: Json -> string, net: nat -> Attempt, a: Profile, b: Profile): (run: Run)
    ensures run.result.score == MakeContext(a, b).matchScore
    ensures run.result.matrix == MakeContext(a, b).matrix
    ensures run.request == Request(Prompt.Build(MakeContext(a, b)), true, CacheKey(stringify, a, b))
  {
    var c := MakeContext(a, b);
    Exchange(Request(Prompt.Build(c), true, CacheKey(stringify, a, b)), c, net)
  }

  /**
   * `fetchAIAnalysis` throws before its `try`. Building the context subtracts the two answers to
   * every couple question, converting each to a number; building the prompt prints both names
   * when they are truthy. The cache key, computed next, prints only the same names.
   */
  predicate ContextThrows(a: Profile, b: Profile) {
    || (exists i :: 0 <= i < |Questions.CoupleQuestions()| && (AnswerThrows(a, i) || AnswerThrows(b, i)))
    || NameThrows(a.name)
    || NameThrows(b.name)
  }

  predicate AnswerThrows(p: Profile, i: nat) {
    i < |p.answers| && StringThrows(p.answers[i])
  }

  /** `name || 'A'` printed into the prompt: only a truthy name is converted. */
  predicate NameThrows(name: Option<Json>) {
    Truthy(name) && StringThrows(name.value)
  }

  /**
   * A name or answer that is a parsed object with its own `toString` key makes the analysis throw;
   * profiles of numbers and a string name, such as the questionnaire encodes, never do.
   */
  lemma ContextThrowsWhen(a: Profile, b: Profile, m: map<string, Json>)
    ensures a.name == Some(JObj(m)) && "toString" in m ==> ContextThrows(a, b)
    ensures 0 < |a.answers| && a.answers[0] == JObj(m) && "toString" in m ==> ContextThrows(a, b)
    ensures (forall i :: 0 <= i < |a.answers| ==> a.answers[i].JNum?)
         && (forall i :: 0 <= i < |b.answers| ==> b.answers[i].JNum?)
         && (a.name.None? || a.name.value.JStr?) && (b.name.None? || b.name.value.JStr?)
         ==> !ContextThrows(a, b)
  {
    Questions.CatalogSizes();
    if 0 < |a.answers| && a.answers[0] == JObj(m) && "toString" in m {
      assert AnswerThrows(a, 0);
    }
  }

  /**
   * The rest of `fetchAIAnalysis` once the request body is built: fetch with retries, then read
   * the body; any thrown error or non-ok status gives the offline result.
   */
  function Exchange(request: Request, c: Context, net: nat -> Attempt): (run: Run)
    ensures run.request == request
    ensures run.result.score == c.matchScore && run.result.matrix == c.matrix
  {
    var t := RetryFetch(net, 0, 3, 1000);
    var reply := Reply(c, request.prompt, t.outcome);
    Run(request, t, reply.0, reply.1)
  }

  /**
   * How `fetchAIAnalysis` reads the outcome of the fetch: the `onStream` texts and the analysis.
   * Whatever happens, the analysis carries the context's score and matrix.
   */
  function Reply(c: Context, prompt: string, outcome: Result<Response, string>): (r: (seq<string>, Analysis))
    ensures r.1.score == c.matchScore && r.1.matrix == c.matrix
  {
    match outcome
    case Err(_) => ([], Offline(c, prompt))
    case Ok(response) =>
      if !IsOk(response.status) then ([], Offline(c, prompt))
      else
        match response.body
        case Reader(chunks, fails) =>
          if fails then (Accumulations(chunks), Offline(c, prompt))
          else (Accumulations(chunks),
                Analysis(c.matchScore, Summary(c.matchScore, false), Some(JStr(Text.Concat(chunks))), c.matrix))
        case NoReader(json) =>
          match json
          case Err(_) => ([], Offline(c, prompt))
          case Ok(data) =>
            if data == JNull then ([], Offline(c, prompt))
            else ([], Analysis(c.matchScore, Summary(c.matchScore, false), Get(data, "reportText"), c.matrix))
  }

  /** The last attempt `fetchAIAnalysis` makes. */
  function LastAttempt(net: nat -> Attempt): Attempt {
    net(RetryFetch(net, 0, 3, 1000).fetches - 1)
  }

  /** The run's outcome is what its last attempt settles to. */
  lemma LastSettles(net: nat -> Attempt)
    ensures RetryFetch(net, 0, 3, 1000).outcome == Settle(LastAttempt(net))
  {
    RetryFetchShape(net, 0, 3, 1000);
  }

  /**
   * A streamed success: when the last attempt answered ok with a reader that did not fail, the
   * details are all the chunks in order, the summary has no offline note and `onStream` saw every
   * accumulated text.
   */
  lemma ExchangeStreamed(request: Request, c: Context, net: nat -> Attempt)
    requires var last := LastAttempt(net);
      last.Answered? && IsOk(last.response.status) && last.response.body.Reader? && !last.response.body.failsAtEnd
    ensures var run := Exchange(request, c, net);
      var chunks := LastAttempt(net).response.body.chunks;
      && run.result.details == Some(JStr(Text.Concat(chunks)))
      && run.result.summary == Summary(c.matchScore, false)
      && run.streamed == Accumulations(chunks)
  {
    LastSettles(net);
  }

  /** A thrown error or a non-ok status at the last attempt gives the offline result built from the prompt sent. */
  lemma ExchangeOffline(request: Request, c: Context, net: nat -> Attempt)
    requires LastAttempt(net).Thrown? || !IsOk(LastAttempt(net).response.status)
    ensures Exchange(request, c, net).result == Offline(c, request.prompt)
    ensures Exchange(request, c, net).streamed == []
  {
    LastSettles(net);
  }

  /** The offline details always start with the marker and a blank line, followed by the prompt itself. */
  lemma OfflineDetailsShape(c: Context)
    ensures var d := Offline(c, Prompt.Build(c)).details.value.s;
      Text.StartsWith(d, OfflineMarker + "\n\n") && d[|OfflineMarker| + 2..] == Prompt.Build(c)
  {
  }
}
