# Match Score in Dafny

A model of the logic behind Match Score, a quiz application that measures how well two people
fit. Each person answers a questionnaire: 50 questions for couples, 8 for friends, each answered
on a five-point scale. The answers are packed into a shareable "soul hash". A host sends the hash
to a guest inside an invitation text. The guest answers the same questionnaire, and the
application then scores both profiles, builds a prompt, asks an analysis endpoint for a report,
and shows the report's sections.

The model covers these parts:

- **questions.dfy** (`Questions`): the two question catalogs and their dimension details, plus the
  selectors that choose a catalog by scenario. Weights are stored doubled (2, 3, 4 for 1, 1.5, 2),
  so all score arithmetic is exact.
- **codec.dfy** (`Codec`): `encodeSoul` and `decodeSoul`. Compression and JSON text are opaque
  functions with round-trip laws.
- **scoring.dfy** (`Scoring`): `calculateDistance` (the weighted distance rounded to a percentage)
  and `generateAIContext` (the per-question comparison matrix with label lookup).
- **prompt.dfy** (`Prompt`): `createAIPrompt`, which picks strengths and conflicts, lists at most
  five of each, and writes the section headers.
- **client.dfy** (`Client`): the browser side of the analysis:
  - `retryFetch` with bounded retries and doubling backoff;
  - the order-insensitive cache key;
  - stream accumulation;
  - the offline fallback of `fetchAIAnalysis`.

  The network is a sequence of attempts.
- **server.dfy** (`Server`): the `POST /api/analyze` handler and the line framing of server-sent
  events. The handler is a pure function of the request text, the environment, the cache and the
  vendors' replies.
- **match_input.dfy** (`Hashes`): `extractHash` and the match box's submit and paste handlers.
- **invitation.dfy** (`Invitation`): the share link and the invitation text. It also covers what
  the copy and share buttons hand to the browser.
- **report.dfy** (`Report`): `parseSection` and the line filter of `renderList`. It also shows that
  the report reads back exactly the bullets the prompt listed.
- **questionnaire.dfy** (`Questionnaire`), **match_flow.dfy** (`MatchFlow`) and
  **create_flow.dfy** (`CreateFlow`): the three components' state as pure transitions, together
  with what each screen renders.
- **text.dfy**, **js.dfy** and **wrappers.dfy** hold shared helpers:
  - JavaScript string operations (`trim`, `indexOf`, `split`, sorting two strings);
  - JSON values and JavaScript truthiness;
  - `Option` and `Result`.

JavaScript values the code reads from JSON are a `Json` datatype. Numbers that reach the scorer
are `Num`, an integer or `NaN`. An `undefined` answer yields `NaN`, and `NaN` propagates
through the sums as it does in the code.

## Model

| member | source | states |
|---|---|---|
| Questions.CoupleCatalogShape | src/lib/questions.ts:33-93 | The couple catalog has 50 questions with ids 1..50 in order. Its dimensions form the layers lifestyle 1-12, finance 13-22, communication 23-32, intimacy 33-40 and values 41-50. Its doubled weights are 2 for ids 1-12, 3 for 13-32 and 4 for 33-50. |
| Questions.CoupleBlocks | src/lib/questions.ts:33-93 | The couple catalog is the concatenation of five contiguous blocks, one per dimension, in the order lifestyle, finance, communication, intimacy, values. |
| Questions.FriendCatalogShape | src/lib/questions.ts:107-119 | The friend catalog has 8 questions with ids 1..8. Its doubled weights are 2,3,2,2,4,3,3,4 and its dimensions are listed in order. |
| Questions.CatalogWellFormed | src/lib/questions.ts:33-119 | In both catalogs, every question's options have values exactly 1..5 in order, and ids equal index+1. Every weight is positive. |
| Questions.OptionValues | src/lib/questions.ts:33-119 | On a five-point question, a value is an option value iff it lies in 1..5, so two option values differ by at most 4. |
| Questions.CatalogWeightTotals | src/lib/questions.ts:33-119 | The doubled weights sum to 156 for couples (Σw = 78, so the maximum weighted difference is 312) and to 23 for friends (Σw = 11.5, maximum 46). |
| Questions.SumWeight2Uniform | src/lib/questions.ts:33-93 | A run of questions that all carry the same weight sums to its length times that weight. |
| Questions.QuestionsFor | src/lib/questions.ts:136-138 | The friend catalog is returned exactly for 'friend', and the couple catalog exactly for 'couple' (the default). |
| Questions.DimensionDetailsFor | src/lib/questions.ts:143-145 | The dimension details mirror the catalog choice, and every dimension has an entry. |
| Questions.DetailsDiffer | src/lib/questions.ts:96-133 | The couple and friend dimension details are different maps. |
| Codec.ToJson | src/lib/codec.ts:5-13 | The encoded object carries version, name, type and answers unchanged, plus the timestamp read from the clock, and no other field. |
| Codec.Decode | src/lib/codec.ts:17-34 | The result is null when decompression gives null or "". Otherwise a profile comes back exactly when parsing succeeds and the parsed value has a numeric version and an array of answers. A parse failure is a null result, never an exception. |
| Codec.DecodeReadsParsed | src/lib/codec.ts:24-27 | A decoded profile is the parsed object itself: its version, answers, name and type are the object's fields, with nothing else checked. |
| Codec.DecodeEncode | src/lib/codec.ts:5-34 | Under the laws decompress∘compress = id and parse∘stringify = id, decoding an encoded draft returns its version, name, type and answers, plus the encode-time timestamp. Answers of any length and value are accepted. |
| Scoring.ToNumber | src/lib/ai.ts:48-49 | A missing answer reads as NaN, and a JSON number reads as itself. |
| Scoring.AbsDiff | src/lib/ai.ts:51 | The difference is finite iff both answers are finite. It is then non-negative and equals a−b or b−a. |
| Scoring.RoundRatio | src/lib/ai.ts:59 | Math.round of a ratio: the result r satisfies r − 1/2 ≤ num/den < r + 1/2. |
| Scoring.Score | src/lib/ai.ts:39-62 | The score is a number exactly when the weighted total over the 50 couple questions is a number. |
| Scoring.MaxTotalCatalog | src/lib/ai.ts:42-54 | The catalog the scorer uses always has 50 questions, and its doubled maximum weighted difference is 624 (312 with the declared weights). |
| Scoring.MaxTotalIsSum | src/lib/ai.ts:46-54 | The maximum accumulated over the first n questions is four times the sum of their weights. |
| Scoring.CalculateDistance | src/lib/ai.ts:39-62 | The loop form of `calculateDistance` computes the same score as the recursive definition. |
| Scoring.Accumulate | src/lib/ai.ts:44-56 | The loop accumulates exactly the weighted total and the maximum over the whole catalog. |
| Scoring.TotalSymmetric | src/lib/ai.ts:44-56 | Swapping the two profiles leaves the weighted total unchanged. |
| Scoring.ScoreSymmetric | src/lib/ai.ts:39-62 | calculateDistance(A, B) = calculateDistance(B, A). |
| Scoring.TotalBounds | src/lib/ai.ts:44-56 | With answers in 1..5 the total is a number between 0 and the maximum. |
| Scoring.ScoreBounds | src/lib/ai.ts:39-62 | With answers in 1..5 the score is a number in [0, 100]. |
| Scoring.TotalIdentical | src/lib/ai.ts:44-56 | Profiles that read the same in range give a total of 0. |
| Scoring.ScoreIdentical | src/lib/ai.ts:39-62 | Identical in-range answers score 100. |
| Scoring.TotalOpposite | src/lib/ai.ts:44-56 | A difference of 4 at every question gives the maximum total. |
| Scoring.ScoreOpposite | src/lib/ai.ts:39-62 | A difference of 4 at every question scores 0. |
| Scoring.TotalNaN | src/lib/ai.ts:44-56 | One NaN difference anywhere in the range makes the total NaN. |
| Scoring.ShortProfileScoresNaN | src/lib/ai.ts:42-59 | A profile with fewer than 50 answers (a friend profile, say) scores NaN, because the couple catalog is used whatever the type. |
| Scoring.FindOption | src/lib/ai.ts:75-76 | The option found has exactly the answer's value. When none is found, no option has that value. |
| Scoring.Matrix | src/lib/ai.ts:72-88 | The matrix has one point per catalog question, in catalog order, each built from its own question. |
| Scoring.MatrixMatchesCatalog | src/lib/ai.ts:67-96 | The matrix has 50 points whatever the profile types. Point i has id i+1, the dimension of question i+1, and difference \|A−B\| at i. |
| Scoring.LabelLookup | src/lib/ai.ts:75-85 | The label is the caption of the option whose value is the answer, or 'N/A' when the answer is not one of 1..5. |
| Scoring.MatrixTotalAgrees | src/lib/ai.ts:51-54 | Weighting the matrix's differences gives the same total as weighting the answers. |
| Scoring.ContextConsistent | src/lib/ai.ts:67-96 | The context's score is the rounded percentage of the weighted matrix differences, so the score and the matrix agree. |
| Prompt.Select | src/lib/ai.ts:104-105 | The filter keeps exactly the matrix points that pass the test. |
| Prompt.SelectAppend | src/lib/ai.ts:104-105 | The filter distributes over concatenation, so it keeps matrix order. |
| Prompt.StrengthsConflictsDisjoint | src/lib/ai.ts:104-105 | No point is both a strength (difference ≤ 1) and a conflict (difference ≥ 3). A difference of 2, or NaN, is neither. |
| Prompt.TakeFive | src/lib/ai.ts:119 | The list is the first min(5, n) points, in order. |
| Prompt.ListedPoints | src/lib/ai.ts:100-128 | At most five strengths and five conflicts are listed, each a matrix point of its kind. When fewer than five are listed, every point of that kind is listed. |
| Prompt.StrengthItems | src/lib/ai.ts:117-121 | One bullet per listed strength, in order. |
| Prompt.ConflictItems | src/lib/ai.ts:124-128 | One bullet per listed conflict, in order. |
| Prompt.HeadersInOrder | src/lib/ai.ts:117-138 | The prompt contains the strengths, conflicts and summary headers in that order, and ends with the four numbered structure lines. |
| Client.RetryFetch | src/lib/ai.ts:143-178 | Every run makes at least one fetch. |
| Client.RetryFetchShape | src/lib/ai.ts:143-178 | A run makes at most retries+1 fetches, with one onRetry call and one wait before each retry. It ends with the last attempt's response or rethrows its error. That attempt is retryable only when the retries ran out. |
| Client.RetryFetchTrail | src/lib/ai.ts:150-174 | Every attempt but the last was ok-less with a status in {429,500,502,503,504}, or threw. Before retry i, onRetry received 4−retries+i and the wait was backoff·2^i. |
| Client.RetryFetchAt | src/lib/ai.ts:155-174 | Retry i of a run, stated one index at a time. |
| Client.RetryDefaults | src/lib/ai.ts:268-280 | From (3, 1000) there are at most 4 fetches, onRetry counts 1,2,3 and delays 1000,2000,4000, each a prefix cut at the number of retries taken. |
| Client.RetryOkAtOnce | src/lib/ai.ts:151-152 | An ok response is returned at once, with no retry. |
| Client.CacheKey | src/lib/ai.ts:228-246 | With 50 answers on each side, the key is 'match_v' + (A.version‖2) + '_' + the two JSON answer strings sorted and joined by '\|'. Otherwise it is 'match_v' + (A.version‖1) + '_' + the names (defaults 'A'/'B') sorted and joined by '_'. |
| Client.CacheKeySymmetric | src/lib/ai.ts:228-246 | The key does not depend on the order of the profiles when both versions are equal (and, on the fallback path, both names are truthy or both falsy). |
| Client.CacheKeyIgnoresVersionB | src/lib/ai.ts:234-245 | Profile B's version never affects the key. |
| Client.CacheKeyFallbackAsymmetric | src/lib/ai.ts:233-234 | On the fallback path the key can depend on order: an unnamed A with a B named 'A' gives 'A_A' one way and 'A_B' the other. |
| Client.Accumulations | src/lib/ai.ts:292-299 | The i-th text passed to onStream is the concatenation of the first i+1 chunks. |
| Client.AccumulationsGrow | src/lib/ai.ts:292-299 | Each accumulated text extends the previous one by the next chunk, and the last is the whole stream. |
| Client.ReadStream | src/lib/ai.ts:289-299 | The reader loop ends with all chunks concatenated, and reports each running text. |
| Client.ContextThrowsWhen | src/lib/ai.ts:256-263 | Building the context, prompt and key throws when the host's name, or the host's first answer, is a JSON object with its own "toString" member. It does not throw when every answer is a number and both names are strings or missing. |
| Client.FetchAnalysis | src/lib/ai.ts:248-280 | The request carries the prompt of the context, stream = true and the cache key. The result's score and matrix are the context's on every path. |
| Client.Exchange | src/lib/ai.ts:267-321 | Whatever the network does, the result carries the context's score and matrix. |
| Client.Reply | src/lib/ai.ts:282-321 | Every branch of reading the response keeps the context's score and matrix. |
| Client.LastSettles | src/lib/ai.ts:268-285 | The fetch outcome is the last attempt's response, or its error rethrown. |
| Client.ExchangeStreamed | src/lib/ai.ts:287-311 | A streamed success yields details equal to the concatenation of all chunks and a summary without the offline note. onStream sees every accumulated text. |
| Client.ExchangeOffline | src/lib/ai.ts:282-321 | A thrown error, or a non-ok status after the retries, yields the offline result: details = marker + blank line + prompt, with nothing streamed. |
| Client.OfflineDetailsShape | src/lib/ai.ts:318 | The offline details start with the marker and a blank line, and the rest is exactly the prompt. |
| Server.Rejections | src/pages/api/analyze.ts:29-43 | An unparsable body gives 500 with the error 'Failed to generate analysis' and details 'Invalid JSON body: ' followed by the parser's message. A missing or falsy prompt gives 400 'Prompt is required'. Neither touches the cache or a vendor. |
| Server.CacheAnswersFirst | src/pages/api/analyze.ts:46-62 | With a truthy cache key, a configured cache and a truthy stored value, the reply is 200 {reportText}. This happens before the API-key check and ignores the stream flag. |
| Server.Cached | src/pages/api/analyze.ts:51-53 | A lookup supplies a report exactly when it returned a non-empty stored value. |
| Server.CacheMissesAlike | src/pages/api/analyze.ts:46-70 | A cache error, an absent cache and a miss lead to the same reply and the same vendor call. |
| Server.CloseAlike | src/pages/api/analyze.ts:166-182 | A failing or absent cache leaves a stream's reply and call unchanged. |
| Server.KeyRequired | src/pages/api/analyze.ts:77-86 | Without an API key from config or environment, the reply is 500 'Server configuration error: MISSING_API_KEY' and no vendor is called. Any vendor call implies a key. |
| Server.ModelDefault | src/pages/api/analyze.ts:79 | The model is config.model when truthy, else 'gemini-2.5-flash-lite'. |
| Server.SettingsOf | src/pages/api/analyze.ts:76-79 | The request's config comes first. The API key then falls back to the build-time key and then to the process key. The endpoint falls back to VITE_CUSTOM_AI_ENDPOINT, and the model to 'gemini-2.5-flash-lite'. A key or endpoint is truthy exactly when one of its sources is, and the model is always truthy. |
| Server.VendorChoice | src/pages/api/analyze.ts:77-97 | A call goes to the custom endpoint iff the endpoint is a string starting with 'http'. It carries that endpoint, the key, the model, the prompt and the stream flag. With a key, a call is always made. The streaming branch tests the endpoint at line 97 and the non-streaming branch at line 194. |
| Server.GenerateFits | src/pages/api/analyze.ts:88-262 | Past the key check, the vendor call matches the settings. A cache write happens only after a successful generation, and always does when due. |
| Server.WritesOnSuccess | src/pages/api/analyze.ts:167-176 | A cache write has TTL 604800 s and the request's key. It stores exactly the text sent back, which is non-empty, and it happens whenever a key, a cache and non-empty text are present. The non-streaming write at lines 246-256 is the same, and the TTL constant is at line 22. |
| Server.WriteBack | src/pages/api/analyze.ts:167-171 | A write is made iff the cache key is truthy, the text is truthy and a cache is configured. The non-streaming guard at lines 247-251 is the same. |
| Server.CustomText | src/pages/api/analyze.ts:212-234 | The non-streaming custom endpoint's report text is always truthy, or an error is thrown. |
| Server.CustomReportTruthy | src/pages/api/analyze.ts:230-234 | A 200 reply from the non-streaming custom endpoint always carries a truthy reportText. |
| Server.CustomEmptyBody | src/pages/api/analyze.ts:220-227 | An empty body from the custom endpoint becomes a 500 with 'Failed to parse JSON from custom endpoint: Empty response from custom endpoint'. |
| Server.NonEmpty | src/pages/api/analyze.ts:157-163 | The SDK stream forwards exactly its non-empty chunks, so the forwarded text is the whole text. |
| Server.FrameInvariant | src/pages/api/analyze.ts:123-130 | The text received so far is every processed line followed by '\n', then the buffer. Neither the buffer nor any line contains '\n'. |
| Server.FrameSplit | src/pages/api/analyze.ts:123-130 | The processed lines are exactly the complete lines of the concatenated text. |
| Server.ChunkingIrrelevant | src/pages/api/analyze.ts:123-149 | How the text is cut into chunks does not change what is forwarded. |
| Server.UnterminatedIgnored | src/pages/api/analyze.ts:123-149 | A final line without '\n' is never interpreted: it stays in the buffer. |
| Server.LinePiece | src/pages/api/analyze.ts:133-146 | A line is forwarded only if it starts with 'data: ' and its payload is not '[DONE]'. |
| Server.LinePieces | src/pages/api/analyze.ts:132-147 | A single line contributes exactly its own piece, if it has one. A line without the 'data: ' prefix, or the '[DONE]' line, contributes nothing. |
| Server.PiecesAppend | src/pages/api/analyze.ts:132-147 | The forwarded pieces of consecutive lines are concatenated in order. |
| Server.SseReference | src/pages/api/analyze.ts:123-149 | The streamed pieces equal the pieces of the complete lines of the whole text. |
| Hashes.HostParam | src/components/MatchInput.tsx:12-15 | The first rule's value is a non-empty run of [A-Za-z0-9_-]. |
| Hashes.HostParamMeans | src/components/MatchInput.tsx:12-15 | The first rule finds nothing iff '?host=' or '&host=' followed by a hash character occurs nowhere. Otherwise the value is the maximal run after the leftmost occurrence. |
| Hashes.ExtractRuleTwo | src/components/MatchInput.tsx:20-32 | Without a host match, the hash is the last word of ten or more hash characters not starting with 'http' if there is one, else the last such word. |
| Hashes.LastLong | src/components/MatchInput.tsx:21-31 | The last kept word is the last word that passes the length-and-charset test. |
| Hashes.LastPlain | src/components/MatchInput.tsx:27-29 | The last word kept by both filters is the last long hash word not starting with 'http'. |
| Hashes.RuleResults | src/components/MatchInput.tsx:10-36 | The rules yield, in turn: a non-empty hash run; a word of the text with ten or more hash characters; or the trimmed text. |
| Hashes.HashFixed | src/components/MatchInput.tsx:10-36 | A non-empty string of hash characters extracts to itself. |
| Hashes.ExtractTrim | src/components/MatchInput.tsx:10-36 | Extraction gives the same result on the trimmed text. |
| Hashes.ExtractIdempotent | src/components/MatchInput.tsx:10-36 | Extracting twice equals extracting once. |
| Hashes.ExtractTrimmed | src/components/MatchInput.tsx:10-36 | The extracted value has no surrounding white space. |
| Hashes.SubmitExtracts | src/components/MatchInput.tsx:38-45 | onMatch is called iff the trimmed input is not empty, and it receives the extracted hash. |
| Hashes.PasteThenSubmit | src/components/MatchInput.tsx:38-60 | Extracting at paste time and again at submit time hands onMatch the same value as submitting the pasted text. |
| Hashes.Words | src/components/MatchInput.tsx:20 | The words are non-empty and contain no white space. |
| Hashes.HostParamOf | src/components/MatchInput.tsx:12-15 | In a text with no earlier '?' or '&', '?host=' followed by a hash that ends the text, or is followed by a non-hash character, yields that hash. |
| Invitation.LinkCarriesHash | src/components/SoulHashDisplay.tsx:11-13 | For a non-empty hash over [A-Za-z0-9_-] and an origin without '?' or '&', the share link's host parameter, and its extraction, is the hash. |
| Invitation.Lines | src/components/SoulHashDisplay.tsx:15-21 | The invitation's lines are title, greeting, blank, share link, blank, fallback line and hash. The link is a whole line, and the hash follows the last line break. |
| Invitation.ExtractInvitation | src/components/SoulHashDisplay.tsx:15-21 | extractHash(invitationText) == hash for a non-empty hash over [A-Za-z0-9_-] and an origin without '?' or '&'. The host rule it relies on is src/components/MatchInput.tsx lines 12-15. |
| Invitation.SubmitInvitation | src/components/SoulHashDisplay.tsx:15-21 | Pasting the invitation and submitting hands onMatch exactly the hash, for a non-empty hash over [A-Za-z0-9_-] and an origin without '?' or '&'. The handlers are src/components/MatchInput.tsx lines 38-60. |
| Invitation.SameInvitation | src/components/SoulHashDisplay.tsx:23-55 | Copy, share and both share fallbacks all hand over the same invitation text. The share button's first effect is a clipboard write iff share is unsupported, and a share sheet iff it is supported; a rejected share then also writes the clipboard. The copied flag follows clipboard success. The alert appears iff the clipboard write succeeded and the share did not complete. |
| Invitation.PlusCutsCode | src/components/MatchInput.tsx:12-15 | As written: an invitation for the code p + '+' + q, with p a non-empty run of [A-Za-z0-9_-], extracts to p, and paste-then-submit hands onMatch p instead of the code. The invitation is the one built at src/components/SoulHashDisplay.tsx lines 15-21. |
| Invitation.PlusCutsHost | src/components/MatchInput.tsx:12-15 | As written: the host rule stops at the '+', so its value is p. |
| Invitation.WideExtractInvitation | src/components/MatchInput.tsx:12-32 | Corrected: with '+' and '$' added to the character class, the invitation extracts to the code for every non-empty code over [A-Za-z0-9_+$-], which includes all of LZString's output. |
| Hashes.WideExtractAgrees | src/components/MatchInput.tsx:12-32 | On a text without '+' and '$', the corrected extractor returns what the original returns, and so does its host rule. |
| Hashes.CodeCharsWide | src/lib/codec.ts:13 | Every code over the alphabet `compressToEncodedURIComponent` writes is inside the corrected extractor's character class. |
| Hashes.WideHostParamOf | src/components/MatchInput.tsx:12-15 | Corrected host rule: '?host=' followed by a code that ends the text, or is followed by a character outside the class, yields that code. |
| Report.Substring | src/components/AnalysisReport.tsx:28-33 | With ordered indices in range, substring is the slice. |
| Report.SubstringSwapped | src/components/AnalysisReport.tsx:28 | substring swaps its arguments when start > end. |
| Report.ParseSection | src/components/AnalysisReport.tsx:20-38 | parseSection returns null iff the title does not occur. A non-null result is trimmed. |
| Report.SectionEnd | src/components/AnalysisReport.tsx:25-34 | The content ends at the first occurrence of a non-empty nextTitle, searched from the start of the text, or at the end when nextTitle is absent. |
| Report.ParseSectionSwapped | src/components/AnalysisReport.tsx:26-28 | If nextTitle occurs before the title ends, the section is the text from nextTitle to the title's end. |
| Report.ParseSectionToEnd | src/components/AnalysisReport.tsx:20-37 | Without nextTitle the section is the text after the title, trimmed, with leading ':', '：' and '\n' removed, and trimmed again. |
| Report.StripLeading | src/components/AnalysisReport.tsx:37 | The cleaned content never starts with ':', '：' or '\n'. |
| Report.ParseSectionKeepsInnerColon | src/components/AnalysisReport.tsx:37 | Only leading marks before the first other character are removed; ':' after a space stays. |
| Report.RenderList | src/components/AnalysisReport.tsx:56-57 | The placeholder is shown exactly for null or empty text. |
| Report.ItemsMeans | src/components/AnalysisReport.tsx:60-66 | The items are exactly the lines that are non-empty after trim and do not start with '---', trimmed and with a leading '- ' removed. |
| Report.RenderBullets | src/components/AnalysisReport.tsx:56-70 | Rendering joined bullet lines gives back each bullet without its '- ' (the placeholder when there are none). |
| Report.OfflineSections | src/components/AnalysisReport.tsx:50-53 | On offline details, the strengths and conflicts sections read back exactly the bullet lines the prompt listed. This needs names and labels free of line breaks and of the header characters. The text read is the offline details of src/lib/ai.ts line 318, built from the prompt sections of lines 117-131. |
| Report.SectionsOf | src/components/AnalysisReport.tsx:52-53 | The two searched titles equal the prompt's headers, and the end markers are prefixes of the following headers. A section is the joined bullets between them. |
| Questionnaire.DimensionOrderSpec | src/components/Questionnaire.tsx:16-21 | The page order holds exactly the dimensions present, in the preferred order (so without duplicates), and is non-empty for a non-empty catalog. |
| Questionnaire.KeepAscending | src/components/Questionnaire.tsx:19-20 | Filtering the preferred order keeps it ascending. |
| Questionnaire.Keep | src/components/Questionnaire.tsx:20 | The filter keeps exactly the listed dimensions that are present. |
| Questionnaire.CatalogPages | src/components/Questionnaire.tsx:16-21 | Both catalogs have all five pages, in preferred order. |
| Questionnaire.Start | src/components/Questionnaire.tsx:23 | The answers start as zeros, one per question. |
| Questionnaire.FindIndex | src/components/Questionnaire.tsx:42 | findIndex returns the first index with the id, or −1 iff none has it. |
| Questionnaire.SelectEffect | src/components/Questionnaire.tsx:41-49 | An unknown id leaves the form unchanged. Otherwise only index findIndex(id) takes the value, and the length, page and name are kept. This holds for an answer vector longer than the catalog too: the entries past the catalog never change. |
| Questionnaire.SelectGood | src/components/Questionnaire.tsx:41-49 | Choosing an option writes that option's value at its question and clears the error. It keeps the invariant, which allows answers past the catalog's end as long as they stay 0. |
| Questionnaire.PageQuestions | src/components/Questionnaire.tsx:36-39 | The page shows exactly the questions of its dimension. |
| Questionnaire.PendingIn | src/components/Questionnaire.tsx:52-55 | No pending question on the page iff every page question is answered. |
| Questionnaire.Validate | src/components/Questionnaire.tsx:51-62 | A passing check leaves the form alone, and a failing one only sets the error. |
| Questionnaire.ValidateMeans | src/components/Questionnaire.tsx:51-62 | validateCurrentStep succeeds iff no question of the current dimension has answer 0, for an answer vector of any length. A question past the vector's end reads undefined, which is not 0. |
| Questionnaire.PageAnswered | src/components/Questionnaire.tsx:52-57 | Counting unanswered page questions gives 0 iff every question of the dimension is answered, for an answer vector of any length. |
| Questionnaire.SubmitGuard | src/components/Questionnaire.tsx:76-92 | A draft is encoded iff no entry of the whole answer vector is 0, whatever its length. It has version 1, the scenario as type, the answers unchanged and the display name; otherwise an error is shown. |
| Questionnaire.DisplayName | src/components/Questionnaire.tsx:86 | The name is the trimmed name when non-empty, else the non-empty anonymous name. |
| Questionnaire.StartGood | src/components/Questionnaire.tsx:23-24 | The initial form satisfies the invariant for either catalog: when its answers are sized by that catalog, and also when they are sized by the 50-question couple catalog (the first render's size), with the extra entries 0. |
| Questionnaire.PressGood | src/components/Questionnaire.tsx:64-74 | Prev, Next and Finish keep the page index in [0, pages−1]: Prev is disabled on page 0, and Next exists only before the last page. The buttons' visibility is at lines 204-232. |
| Questionnaire.SubmittedInRange | src/components/Questionnaire.tsx:41-90 | Whatever the answer vector's length, a submission that passes has exactly one answer per question, each in 1..5. |
| Questionnaire.TailForcesLength | src/components/Questionnaire.tsx:78 | When the entries past the catalog are 0, the "no answer is 0" check can pass only if the vector has exactly one entry per question. |
| Questionnaire.Answered | src/components/Questionnaire.tsx:121 | The answered count is at most the total. It equals the total iff no answer is 0, and is 0 iff all are. |
| Questionnaire.ProgressBounds | src/components/Questionnaire.tsx:121 | Progress is the integer nearest 100·answered/total (halves up), where the total is the catalog's length, and lies in [0, 100]. It is 100 when every question of the catalog is answered, even if the vector is longer, and 0 when none is. |
| Questionnaire.Apply | src/components/Questionnaire.tsx:29-92 | One user event keeps the vector's length. A draft can come only from the final button, on the questions screen, with no answer 0. |
| Questionnaire.Run | src/components/Questionnaire.tsx:29-92 | A session keeps the vector's length and hands over at most one draft per event. |
| Questionnaire.RunAppend | src/components/Questionnaire.tsx:29-92 | A session split in two runs the second part from the form the first part left, and the drafts of both parts are listed in order. |
| Questionnaire.LongFormNeverSubmits | src/components/Questionnaire.tsx:23-92 | When the vector is longer than the catalog and its extra entries are 0, no session hands over a draft, and the extra entries stay 0. |
| Questionnaire.CompletionSubmits | src/components/Questionnaire.tsx:23-92 | On a form sized by its own catalog, typing a name, answering every question with its first option and walking to the last page hands over exactly one draft. It has version 1, the trimmed name, the scenario, one answer per question and the values chosen. |
| Questionnaire.CompletionStalls | src/components/Questionnaire.tsx:23-121 | The same session on a form sized by a longer catalog hands over nothing. It ends with the message "还有未完成的题目，请检查。" while the progress bar shows 100. |
| Questionnaire.CatalogsAnswerable | src/lib/questions.ts:33-119 | Both catalogs are non-empty, have unique ids and have a non-zero first option on every question. |
| Questionnaire.ScenarioOrDefault | src/components/Questionnaire.tsx:10 | A missing scenario means 'couple'. |
| MatchFlow.MountSpec | src/components/MatchFlow.tsx:15-27 | A host parameter becomes hostHash iff it is non-empty and decodes. Otherwise, when present, the error is set and no hostHash is held. |
| MatchFlow.MatchStartSpec | src/components/MatchFlow.tsx:29-38 | An accepted hash sets hostHash, pushes '/match?host=' + hash and clears the error. A rejected one sets the error and changes nothing else. Held host hashes always decode. |
| MatchFlow.CompleteSpec | src/components/MatchFlow.tsx:40-63 | Completion stores myHash and always ends with loading false. It sets the analysis only if hostHash is present, both hashes decode and building the analysis context does not throw. When hostHash is present but a hash does not decode, it sets the decoding error. When the context throws, the catch sets "分析过程中发生错误，请稍后重试。". |
| MatchFlow.CompleteWithoutHost | src/components/MatchFlow.tsx:46-56 | With no hostHash, neither analysis nor error is set. |
| MatchFlow.CompleteErrors | src/components/MatchFlow.tsx:46-59 | With a valid hostHash, completion gives the decoding error iff the guest's hash does not decode. It gives the analysis error iff both decode and the context throws. Otherwise it yields an analysis. |
| MatchFlow.RenderPrecedence | src/components/MatchFlow.tsx:65-115 | The screen is the report if there is an analysis, then the spinner, then the error, then the questionnaire when hostHash is set, else the input form. |
| MatchFlow.SpinnerWhileAnalysing | src/components/MatchFlow.tsx:40-83 | Between the start of completion and its end, the spinner is shown. |
| MatchFlow.GuestAnswersCouple | src/components/MatchFlow.tsx:110 | The guest's questionnaire gets no scenario, so the guest always answers the couple catalog. The default is at src/components/Questionnaire.tsx line 10. |
| MatchFlow.InvitationStartsMatch | src/components/MatchFlow.tsx:29-38 | Pasting a host's invitation into the match box starts the match with that hash and shows the guest questionnaire, for a non-empty hash over [A-Za-z0-9_-] that decodes. The invitation is the one built at src/components/SoulHashDisplay.tsx lines 15-21. |
| CreateFlow.InitialSpec | src/components/CreateFlow.tsx:7-8 | The page starts with no hash and scenario 'couple', showing the questionnaire. |
| CreateFlow.ModeOf | src/components/CreateFlow.tsx:14-21 | Only exactly 'friend' or 'couple' selects a scenario, and it is the one named. |
| CreateFlow.MountSpec | src/components/CreateFlow.tsx:10-22 | A non-empty hash parameter is adopted without being decoded. The mode changes the scenario only when it is 'friend' or 'couple'. |
| CreateFlow.CompleteSpec | src/components/CreateFlow.tsx:24-29 | Completion pushes '/create?hash=' + h, followed by '&mode=friend' iff the scenario is friend. |
| CreateFlow.RenderSpec | src/components/CreateFlow.tsx:31-35 | The hash display is shown iff a non-empty hash is held; otherwise the questionnaire is shown with the current scenario. |
| CreateFlow.ReloadRestores | src/components/CreateFlow.tsx:10-35 | A fresh mount reading back the pushed address holds the scenario and the pushed hash with every '+' read as a space. So it restores the same hash and screen exactly when the hash has no '+'. The hash must be non-empty, without '&', '%' or '#'. |
| CreateFlow.ReloadParams | src/components/CreateFlow.tsx:12-14 | The address's 'hash' parameter reads back as the form-decoded hash, and 'mode' as 'friend' exactly in the friend scenario. |
| CreateFlow.MountedForm | src/components/Questionnaire.tsx:23 | The questionnaire's answer vector is created at the first render, when the page's scenario is still 'couple', so it has 50 entries. |
| CreateFlow.FriendModeStuck | src/components/CreateFlow.tsx:8-35 | At /create?mode=friend the page renders the friend questionnaire over that 50-entry vector, and no session of events ever produces a friend profile. |
| CreateFlow.FriendModeFullBar | src/components/CreateFlow.tsx:35 | In that questionnaire, answering all 8 friend questions and pressing the final button shows the incomplete message while the progress bar reads 100. |
| CreateFlow.KeyedFriendSubmits | src/components/CreateFlow.tsx:35 | A questionnaire remounted for the scenario it renders creates a friend profile with 8 answers and type 'friend'. In couple mode it is the same form as the program's. |
| CreateFlow.PlusAsSpaceKeeps | src/components/CreateFlow.tsx:12-13 | Form decoding leaves a value unchanged iff it has no '+'. |
| Text.Trim | src/components/MatchInput.tsx:35 | The result of trim has no white space at either end. |
| Text.TrimExact | src/components/MatchInput.tsx:35 | Trimming white space around an already trimmed core gives the core. |
| Text.IndexOf | src/components/AnalysisReport.tsx:21 | indexOf returns the first occurrence, or −1 iff there is none. |
| Text.Split | src/pages/api/analyze.ts:129 | split yields at least one piece. No piece contains the separator, and the pieces rejoined with it give the text. |
| Text.SplitUnique | src/pages/api/analyze.ts:129-130 | Splitting separator-free lines joined by the separator gives those lines back. |
| Text.ConcatAppend | src/lib/ai.ts:297 | Concatenation distributes over appending chunk lists. |
| Text.Sort2 | src/lib/ai.ts:242 | Sorting two strings yields a permutation of them in code-unit order. The fallback key sorts the same way at line 233. |
| Text.Sort2Symmetric | src/lib/ai.ts:242 | Sorting two strings does not depend on their order. The same holds at line 233. |
| Text.BeforeTrichotomy | src/lib/ai.ts:242 | String order is a strict total order. |
| Js.Or | src/pages/api/analyze.ts:77-79 | `a \|\| b` is a when a is truthy, else b. |

## Left out

- I/O is left out: `fetch`, the Redis client's setup (src/pages/api/analyze.ts:8-19), the Google SDK and vendor request bodies. They become values: a network as a sequence of attempts, a lookup function, and the vendors' fixed replies.
- LZString and the internals of `JSON.parse`/`JSON.stringify` are not modelled. They are the functions of `Codec.Env`, with the laws stated in `Codec.Lawful`. LZString's source is not part of this model. `compressToEncodedURIComponent` writes letters, digits, '+', '-' and '$', according to the library's published alphabet (`Hashes.IsCodeChar`). The extractor's class `[a-zA-Z0-9\-_]` has no '+' or '$', so the code as written cuts such codes short (see Findings). The as-written round trip lemmas therefore hold only for codes over [A-Za-z0-9_-]. The corrected extractor `Hashes.WideExtract` covers every code.
- JSON numbers are integers. Floating-point doubles, `Math.round` and the score ring offset are not modelled: the score and progress use exact arithmetic with doubled weights and round-half-up.
- JavaScript's `Number()` coercion is approximated. A number reads as itself, null as 0, booleans as 0/1, and strings, arrays and objects as NaN (numeric strings are not parsed).
- Question texts, option labels and dimension titles are opaque ASCII keys, not the Chinese originals. The prompt's persona, headers and structure lines, the offline marker and the invitation lines are the real strings.
- TextEncoder/TextDecoder and UTF-8 chunk splitting are left out: chunks are already-decoded strings. On the client, a read error is modelled only after the last chunk (`failsAtEnd`). On the server, it is modelled as the stream's failure.
- Timing is left out: `setTimeout` waits are recorded as delays and are never taken. React state batching is replaced by atomic transitions.
- `testAIConnection` (src/lib/ai.ts:180-218) is a network probe over `retryFetch` and is left out.
- Logging through `console.*` is left out.
- UI is left out: JSX, CSS, titles, the SVG ring, `window.scrollTo`, and the 2-second reset of the copied flag. Clipboard and share appear only as the effects they request.
- `URLSearchParams` is modelled only as far as the application's own addresses need. '+' is read as a space. Percent-escapes and the '#' fragment are not modelled, so CreateFlow.ReloadRestores requires a hash without '%' and '#'. Since the create page pushes the hash unencoded, a code with '+' reloads changed; `CreateFlow.ReloadRestores` states this rather than correcting it.
- `fetchAIAnalysis` catches everything after its `try` (src/lib/ai.ts:267). The throw before it, from building the context, prompt and key (lines 256-263), reaches the `catch` of `handleQuestionnaireComplete` (src/components/MatchFlow.tsx:57-59). The model decides that throw with `Client.ContextThrows`, and `MatchFlow.FinishComplete` takes the catch branch then. Only the string conversions are counted as throwing: a decoded profile is plain JSON, so no getter or accessor can throw.
- Js.JsString: it gives "[object Object]" for every object. JavaScript throws a TypeError for an object whose own "toString" member is not a function, and for an array holding one. `Js.StringThrows` says when this happens, and the client's analysis path honours it through `Client.ContextThrows`. The server's conversions of the request fields do not: there the model assumes the conversion succeeds.
- Questionnaire.Select: it requires at least one answer entry per question. The program never builds a shorter vector: the vector is sized at the first render by the couple catalog, the longest one. On a shorter vector JavaScript would extend the array with holes.
- Report.OfflineSections: the sections read back the listed bullets only when the names and labels contain no line break and none of the characters that begin the later headers. The code has no such guard, and other names can end a section early.
- Client.RetryFetch: its own contract only bounds the number of fetches. The retry behaviour is stated in `Client.RetryFetchShape`, `Client.RetryFetchTrail` and `Client.RetryDefaults`.
- Client.FetchAnalysis: the response handling (streamed text, offline fallback) is stated on `Client.Exchange` through `Client.ExchangeStreamed` and `Client.ExchangeOffline`, for the request `Client.FetchAnalysis` builds.
- Hashes.HostParam: its own contract only says the value is a non-empty hash run. The leftmost-match and maximal-run facts are in `Hashes.HostParamMeans`.
- Behaviour the code does not have is not modelled: scenario-mismatch errors, substitution of missing answers, delimiter-based section parsing, and cancellation.

## Findings

| source | as written | input that shows it | evidently intended | confidence | as-written member | corrected member |
|---|---|---|---|---|---|---|
| src/components/MatchInput.tsx:12-32 | Both rules of `extractHash` accept only `[a-zA-Z0-9\-_]`. The codes come from `compressToEncodedURIComponent` (src/lib/codec.ts:13), whose output also contains '+' and '$'. | The invitation for the code `abc+def` extracts to `abc`, and paste-then-submit hands `abc` to the match flow. | The invitation's code is recovered for every code the codec writes, as it is for codes over [A-Za-z0-9_-]. | high for the extractor; the alphabet is LZString's published one, whose source is not part of this model; not executed | Invitation.PlusCutsCode | Invitation.WideExtractInvitation |
| src/components/CreateFlow.tsx:35 | The questionnaire is rendered without a `key`. Its answer vector is created once, at the first render (src/components/Questionnaire.tsx:23), while the scenario is still 'couple'. The mode effect switches to 'friend' only after that render, so the vector keeps 50 entries. Its last 42 entries can never be answered, and the final check rejects any 0. | Open /create?mode=friend, type a name and answer all 8 questions. The bar shows 100%, but the final button only shows "还有未完成的题目，请检查。". | A friend profile can be created: the questionnaire restarts with 8 answers when the scenario changes, for example through a `key` on the scenario. | high; follows from React's rule that a `useState` initial value is used only on the first render; not executed | CreateFlow.FriendModeStuck | CreateFlow.KeyedFriendSubmits |

The submit and paste handlers (`Hashes.Submit`, `Hashes.Paste`) and the match flow keep the as-written extractor, because they model the code as it stands. `Hashes.WideExtractAgrees` shows the correction agrees with it on every text without '+' and '$'.

In the second row, the create page keeps the program's behaviour (`CreateFlow.MountedForm`). `CreateFlow.KeyedForm` is the corrected questionnaire state, and `CreateFlow.KeyedFriendSubmits` shows it agrees with the program's in couple mode.
