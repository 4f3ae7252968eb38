/**
 * Reading a partner's hash out of whatever the user pastes (`extractHash` in the match form),
 * and the form's submit and paste handlers.
 *
 * The extraction tries three rules in turn: the value of a `host=` query parameter; otherwise
 * the last long word made only of hash characters, preferring one that does not start with
 * "http"; otherwise the trimmed text.
 */
module Hashes {
  import opened Wrappers
  import Text

  /** The characters of a hash: `[A-Za-z0-9_-]`. */
  predicate IsHashChar(c: char) {
    ('a' <= c <= 'z') || ('A' <= c <= 'Z') || ('0' <= c <= '9') || c == '-' || c == '_'
  }

  predicate AllHashChars(s: string) {
    forall i :: 0 <= i < |s| ==> IsHashChar(s[i])
  }

  // ---------------------------------------------------------------------------------------------
  // Rule 1: `/[?&]host=([a-zA-Z0-9\-_]+)/`

  /** The pattern matches at `i`: '?' or '&', then "host=", then at least one hash character. */
  predicate HostAt(s: string, i: int) {
    && 0 <= i && i + 6 < |s|
    && (s[i] == '?' || s[i] == '&')
    && s[i + 1] == 'h' && s[i + 2] == 'o' && s[i + 3] == 's' && s[i + 4] == 't' && s[i + 5] == '='
    && IsHashChar(s[i + 6])
  }

  /** The leftmost match at or after `k`. */
  function FirstHostFrom(s: string, k: nat): (r: Option<nat>)
    ensures r.Some? ==> k <= r.value && HostAt(s, r.value) && forall j :: k <= j < r.value ==> !HostAt(s, j)
    ensures r.None? ==> forall j :: k <= j ==> !HostAt(s, j)
    decreases |s| - k
  {
    if k + 6 >= |s| then None
    else if HostAt(s, k) then Some(k)
    else FirstHostFrom(s, k + 1)
  }

  /** The end of the run of hash characters starting at `k`: the greedy `+` of the pattern. */
  function RunEnd(s: string, k: nat): (r: nat)
    requires k <= |s|
    ensures k <= r <= |s|
    ensures forall i :: k <= i < r ==> IsHashChar(s[i])
    ensures r < |s| ==> !IsHashChar(s[r])
    decreases |s| - k
  {
    if k < |s| && IsHashChar(s[k]) then RunEnd(s, k + 1) else k
  }

  /** The captured group of the leftmost match, if the pattern matches. */
  function HostParam(s: string): (r: Option<string>)
    ensures r.Some? ==> r.value != "" && AllHashChars(r.value)
  {
    match FirstHostFrom(s, 0)
    case None => None
    case Some(i) => Some(s[i + 6..RunEnd(s, i + 6)])
  }

  // ---------------------------------------------------------------------------------------------
  // Rule 2: long words of hash characters

  /** The end of the word starting at `k`: the first white space at or after it. */
  function WordEnd(s: string, k: nat): (r: nat)
    requires k <= |s|
    ensures k <= r <= |s|
    ensures forall i :: k <= i < r ==> !Text.IsSpace(s[i])
    ensures r < |s| ==> Text.IsSpace(s[r])
    decreases |s| - k
  {
    if k < |s| && !Text.IsSpace(s[k]) then WordEnd(s, k + 1) else k
  }

  /**
   * The words of `text.split(/[\s\n\r]+/)` that are not empty: the maximal runs without white
   * space, in order. (The split also yields an empty first or last piece around white space at
   * either end; no empty piece passes the filter below.)
   */
  function Words(s: string): (r: seq<string>)
    ensures forall i :: 0 <= i < |r| ==> r[i] != "" && forall j :: 0 <= j < |r[i]| ==> !Text.IsSpace(r[i][j])
    decreases |s|
  {
    if s == [] then []
    else if Text.IsSpace(s[0]) then Words(s[1..])
    else
      var j := WordEnd(s, 0);
      [s[..j]] + Words(s[j..])
  }

  /** A word the filter keeps: ten or more hash characters. */
  predicate IsHashWord(w: string) {
    |w| >= 10 && AllHashChars(w)
  }

  /** `words.filter(w => /^[a-zA-Z0-9\-_]{10,}$/.test(w))`. */
  function LongWords(words: seq<string>): (r: seq<string>)
    ensures forall i :: 0 <= i < |r| ==> IsHashWord(r[i]) && r[i] in words
    ensures (exists i :: 0 <= i < |words| && IsHashWord(words[i])) ==> r != []
  {
    if words == [] then []
    else
      var rest := LongWords(words[1..]);
      assert forall i :: 1 <= i < |words| ==> words[i] == words[1..][i - 1];
      if IsHashWord(words[0]) then [words[0]] + rest else rest
  }

  /** `hashes.filter(h => !h.startsWith('http'))`. */
  function NotLinks(hashes: seq<string>): (r: seq<string>)
    ensures forall i :: 0 <= i < |r| ==> !Text.StartsWith(r[i], "http") && r[i] in hashes
    ensures (exists i :: 0 <= i < |hashes| && !Text.StartsWith(hashes[i], "http")) ==> r != []
  {
    if hashes == [] then []
    else
      var rest := NotLinks(hashes[1..]);
      assert forall i :: 1 <= i < |hashes| ==> hashes[i] == hashes[1..][i - 1];
      if !Text.StartsWith(hashes[0], "http") then [hashes[0]] + rest else rest
  }

  function Last(s: seq<string>): string
    requires s != []
  {
    s[|s| - 1]
  }

  /** The hash a text holds, by the three rules in order. */
  function Extract(text: string): string {
    match HostParam(text)
    case Some(h) => h
    case None =>
      var hashes := LongWords(Words(text));
      if hashes == [] then Text.Trim(text)
      else
        var plain := NotLinks(hashes);
        if plain != [] then Last(plain) else Last(hashes)
  }

  /** The submit handler: the hash handed to `onMatch`, when the trimmed input is not empty. */
  function Submit(input: string): Option<string> {
    var raw := Text.Trim(input);
    if raw != "" then Some(Extract(raw)) else None
  }

  /** The paste handler: the text the box shows afterwards. */
  function Paste(text: string): string {
    var extracted := Extract(text);
    if extracted != text && |extracted| > 0 then extracted else text
  }

  // ---------------------------------------------------------------------------------------------
  // Properties

  /**
   * What each rule yields: the first rule a non-empty run of hash characters, the second a word
   * of the text of ten or more hash characters, and the third the trimmed text.
   */
  lemma RuleResults(t: string)
    ensures HostParam(t).Some? ==> Extract(t) == HostParam(t).value && Extract(t) != "" && AllHashChars(Extract(t))
    ensures HostParam(t).None? && LongWords(Words(t)) != [] ==> IsHashWord(Extract(t)) && Extract(t) in Words(t)
    ensures HostParam(t).None? && LongWords(Words(t)) == [] ==> Extract(t) == Text.Trim(t)
  {
    if HostParam(t).None? && LongWords(Words(t)) != [] {
      var hashes := LongWords(Words(t));
      var plain := NotLinks(hashes);
      if plain != [] {
        assert Last(plain) in hashes;
      } else {
        assert Last(hashes) in hashes;
      }
    }
  }

  /**
   * The first rule: no match anywhere gives nothing; otherwise the value is the whole run of hash
   * characters after the leftmost match, `i` being where that match starts and `e` where the run ends.
   */
  lemma HostParamMeans(s: string) returns (i: int, e: int)
    ensures HostParam(s).None? <==> forall j :: !HostAt(s, j)
    ensures HostParam(s).Some? ==>
      && HostAt(s, i) && (forall j :: 0 <= j < i ==> !HostAt(s, j))
      && i + 6 < e <= |s| && (forall k :: i + 6 <= k < e ==> IsHashChar(s[k])) && (e < |s| ==> !IsHashChar(s[e]))
      && HostParam(s).value == s[i + 6..e]
  {
    i, e := 0, 0;
    if FirstHostFrom(s, 0).Some? {
      i := FirstHostFrom(s, 0).value;
      e := RunEnd(s, i + 6);
    }
  }

  /** A word the second rule prefers: a long hash word that does not start with "http". */
  predicate IsPlainHash(w: string) {
    IsHashWord(w) && !Text.StartsWith(w, "http")
  }

  /** The last long hash word is the last word of `words` the filter keeps. */
  lemma {:induction false} LastLong(words: seq<string>) returns (j: int)
    requires LongWords(words) != []
    ensures 0 <= j < |words| && words[j] == Last(LongWords(words)) && IsHashWord(words[j])
    ensures forall k :: j < k < |words| ==> !IsHashWord(words[k])
  {
    var rest := words[1..];
    assert forall k :: 1 <= k < |words| ==> words[k] == rest[k - 1];
    if LongWords(rest) != [] {
      var j' := LastLong(rest);
      j := j' + 1;
    } else {
      j := 0;
    }
  }

  /** A preferred word anywhere in `words` survives both filters. */
  lemma {:induction false} PlainKept(words: seq<string>, k: int)
    requires 0 <= k < |words| && IsPlainHash(words[k])
    ensures NotLinks(LongWords(words)) != []
  {
    var rest := words[1..];
    if k == 0 {
      assert LongWords(words) == [words[0]] + LongWords(rest);
      assert ([words[0]] + LongWords(rest))[1..] == LongWords(rest);
    } else {
      assert words[k] == rest[k - 1];
      PlainKept(rest, k - 1);
      if IsHashWord(words[0]) {
        assert ([words[0]] + LongWords(rest))[1..] == LongWords(rest);
      }
    }
  }

  /** Both filters together keep a word exactly when it is preferred. */
  lemma PlainStep(words: seq<string>)
    requires words != []
    ensures NotLinks(LongWords(words))
      == (if IsPlainHash(words[0]) then [words[0]] else []) + NotLinks(LongWords(words[1..]))
  {
    var rest := LongWords(words[1..]);
    if IsHashWord(words[0]) {
      assert ([words[0]] + rest)[1..] == rest;
    }
  }

  /** The last preferred word is the last word of `words` both filters keep. */
  lemma {:induction false} LastPlain(words: seq<string>) returns (j: int)
    requires NotLinks(LongWords(words)) != []
    ensures 0 <= j < |words| && words[j] == Last(NotLinks(LongWords(words))) && IsPlainHash(words[j])
    ensures forall k :: j < k < |words| ==> !IsPlainHash(words[k])
  {
    var rest := words[1..];
    PlainStep(words);
    var tail := NotLinks(LongWords(rest));
    if tail != [] {
      var j' := LastPlain(rest);
      j := j' + 1;
      ShiftLast(words, NotLinks(LongWords(words)), tail, j', IsPlainHash(words[0]));
    } else {
      j := 0;
      OnlyFirstPlain(words);
    }
  }

  /** The last preferred word of `words[1..]`, found at `j`, is the last one of `words` too. */
  lemma ShiftLast(words: seq<string>, kept: seq<string>, tail: seq<string>, j: int, first: bool)
    requires words != [] && tail != [] && kept == (if first then [words[0]] else []) + tail
    requires 0 <= j < |words| - 1 && words[1..][j] == Last(tail) && IsPlainHash(words[1..][j])
    requires forall k :: j < k < |words| - 1 ==> !IsPlainHash(words[1..][k])
    ensures words[j + 1] == Last(kept) && IsPlainHash(words[j + 1])
    ensures forall k :: j + 1 < k < |words| ==> !IsPlainHash(words[k])
  {
    forall k | j + 1 < k < |words| ensures !IsPlainHash(words[k]) {
      assert words[k] == words[1..][k - 1];
    }
  }

  /** When nothing after the first word survives the filters, no later word is preferred. */
  lemma OnlyFirstPlain(words: seq<string>)
    requires words != [] && NotLinks(LongWords(words[1..])) == []
    ensures forall k :: 0 < k < |words| ==> !IsPlainHash(words[k])
  {
    forall k | 0 < k < |words| ensures !IsPlainHash(words[k]) {
      if IsPlainHash(words[k]) {
        assert words[k] == words[1..][k - 1];
        PlainKept(words[1..], k - 1);
        assert false;
      }
    }
  }

  /**
   * The second rule: without a `host=` match, the hash is the last long hash word not starting
   * with "http" when there is one, and otherwise the last long hash word.
   */
  lemma ExtractRuleTwo(t: string) returns (j: int)
    requires HostParam(t).None? && LongWords(Words(t)) != []
    ensures 0 <= j < |Words(t)| && Extract(t) == Words(t)[j]
    ensures (exists k :: 0 <= k < |Words(t)| && IsPlainHash(Words(t)[k])) ==>
      IsPlainHash(Words(t)[j]) && forall k :: j < k < |Words(t)| ==> !IsPlainHash(Words(t)[k])
    ensures !(exists k :: 0 <= k < |Words(t)| && IsPlainHash(Words(t)[k])) ==>
      IsHashWord(Words(t)[j]) && forall k :: j < k < |Words(t)| ==> !IsHashWord(Words(t)[k])
  {
    var words := Words(t);
    if NotLinks(LongWords(words)) != [] {
      j := LastPlain(words);
    } else {
      j := LastLong(words);
      forall k | 0 <= k < |words| ensures !IsPlainHash(words[k]) {
        if IsPlainHash(words[k]) {
          PlainKept(words, k);
          assert false;
        }
      }
    }
  }

  /** A non-empty string of hash characters has no white space at either end. */
  lemma HashTrimmed(r: string)
    requires AllHashChars(r)
    ensures Text.Trimmed(r)
  {
    if r != [] {
      assert IsHashChar(r[0]) && IsHashChar(r[|r| - 1]);
    }
  }

  /** A non-empty string of hash characters is one word. */
  lemma HashWords(r: string)
    requires r != "" && AllHashChars(r)
    ensures Words(r) == [r]
  {
    assert IsHashChar(r[0]);
    var j := WordEnd(r, 0);
    assert r[..j] == r && r[j..] == [];
  }

  /** A hash is its own extraction: each rule hands back a string the text of which is kept whole. */
  lemma HashFixed(r: string)
    requires r != "" && AllHashChars(r)
    ensures Extract(r) == r
  {
    assert HostParam(r).None? by {
      forall j ensures !HostAt(r, j) {
        if 0 <= j < |r| {
          assert IsHashChar(r[j]);
        }
      }
    }
    HashWords(r);
    if |r| >= 10 {
      assert LongWords([r]) == [r] by {
        assert [r][1..] == [];
      }
      assert NotLinks([r]) == [r] || NotLinks([r]) == [] by {
        assert [r][1..] == [];
      }
    } else {
      assert LongWords([r]) == [] by {
        assert [r][1..] == [];
      }
      HashTrimmed(r);
      Text.TrimNoop(r);
    }
  }

  /** White space in front of a text adds no word. */
  lemma {:induction false} WordsLeading(p: string, x: string)
    requires Text.AllSpace(p)
    ensures Words(p + x) == Words(x)
    decreases |p|
  {
    if p != [] {
      assert (p + x)[0] == p[0];
      assert (p + x)[1..] == p[1..] + x;
      WordsLeading(p[1..], x);
    } else {
      assert p + x == x;
    }
  }

  /** White space after a text adds no word. */
  lemma {:induction false} WordsTrailing(x: string, q: string)
    requires Text.AllSpace(q)
    ensures Words(x + q) == Words(x)
    decreases |x|
  {
    if x == [] {
      assert x + q == q + [];
      WordsLeading(q, []);
    } else if Text.IsSpace(x[0]) {
      assert (x + q)[1..] == x[1..] + q;
      WordsTrailing(x[1..], q);
    } else {
      var j := WordEnd(x, 0);
      WordEndPadded(x, q, 0);
      assert (x + q)[..j] == x[..j];
      assert (x + q)[j..] == x[j..] + q;
      WordsTrailing(x[j..], q);
    }
  }

  lemma WordEndPadded(x: string, q: string, k: nat)
    requires k <= |x| && Text.AllSpace(q)
    ensures WordEnd(x + q, k) == WordEnd(x, k)
    decreases |x| - k
  {
    if k < |x| && !Text.IsSpace(x[k]) {
      WordEndPadded(x, q, k + 1);
    }
  }

  /** The match positions of a padded text are those of the text inside, shifted. */
  lemma HostAtPadded(p: string, c: string, q: string, j: int)
    requires Text.AllSpace(p) && Text.AllSpace(q)
    ensures HostAt(p + c + q, j) <==> |p| <= j && HostAt(c, j - |p|)
  {
    var s := p + c + q;
    if 0 <= j < |p| {
      assert s[j] == p[j];
    } else if |p| <= j && j + 6 >= |p| + |c| && j + 6 < |s| {
      assert s[j + 6] == q[j + 6 - |p| - |c|];
    } else if |p| <= j && j + 6 < |p| + |c| {
      forall k | j <= k <= j + 6 ensures s[k] == c[k - |p|] {
      }
    }
  }

  /** The greedy run is determined by where it starts: the hash characters, then a non-hash character or the end. */
  lemma {:induction false} RunEndUnique(s: string, k: nat, r: nat)
    requires k <= r <= |s|
    requires forall i :: k <= i < r ==> IsHashChar(s[i])
    requires r < |s| ==> !IsHashChar(s[r])
    ensures RunEnd(s, k) == r
    decreases r - k
  {
    if k < r {
      RunEndUnique(s, k + 1, r);
    }
  }

  /** White space around a text does not change what the first rule finds. */
  lemma HostParamPadded(p: string, c: string, q: string)
    requires Text.AllSpace(p) && Text.AllSpace(q)
    ensures HostParam(p + c + q) == HostParam(c)
  {
    var s := p + c + q;
    forall j ensures HostAt(s, j) <==> |p| <= j && HostAt(c, j - |p|) {
      HostAtPadded(p, c, q, j);
    }
    match FirstHostFrom(c, 0)
    case None =>
      assert forall j :: !HostAt(s, j);
    case Some(i) =>
      assert HostAt(s, |p| + i);
      var k := FirstHostFrom(s, 0).value;
      assert HostAt(c, k - |p|);
      assert k == |p| + i;
      RunPadded(p, c, q, i + 6);
  }

  /** A run of hash characters inside the padded text ends where it ends in the text. */
  lemma RunPadded(p: string, c: string, q: string, k: nat)
    requires Text.AllSpace(q)
    requires k <= |c|
    ensures var s := p + c + q;
      RunEnd(s, |p| + k) == |p| + RunEnd(c, k)
      && s[|p| + k..RunEnd(s, |p| + k)] == c[k..RunEnd(c, k)]
  {
    var s := p + c + q;
    var e := RunEnd(c, k);
    forall j | |p| + k <= j < |p| + e ensures IsHashChar(s[j]) {
      assert s[j] == c[j - |p|];
    }
    if e < |c| {
      assert s[|p| + e] == c[e];
    } else if |p| + e < |s| {
      assert s[|p| + e] == q[0];
    }
    RunEndUnique(s, |p| + k, |p| + e);
    assert s[|p| + k..|p| + e] == c[k..e];
  }

  /** Extracting from the trimmed text is extracting from the text. */
  lemma ExtractTrim(t: string)
    ensures Extract(Text.Trim(t)) == Extract(t)
  {
    var c := Text.Trim(t);
    TrimHost(t);
    TrimWords(t);
    Text.TrimNoop(c);
    SameRules(t, c);
  }

  lemma TrimHost(t: string)
    ensures HostParam(Text.Trim(t)) == HostParam(t)
  {
    var pre, post := Text.TrimSplit(t);
    HostParamPadded(pre, Text.Trim(t), post);
  }

  lemma TrimWords(t: string)
    ensures Words(Text.Trim(t)) == Words(t)
  {
    var pre, post := Text.TrimSplit(t);
    var c := Text.Trim(t);
    Associate(pre, c, post);
    WordsLeading(pre, c + post);
    WordsTrailing(c, post);
  }

  lemma Associate(a: string, b: string, c: string)
    ensures a + b + c == a + (b + c)
  {
  }

  /** Texts alike in what each rule looks at extract alike. */
  lemma SameRules(t: string, c: string)
    requires HostParam(t) == HostParam(c) && Words(t) == Words(c) && Text.Trim(t) == Text.Trim(c)
    ensures Extract(t) == Extract(c)
  {
  }

  /** `extractHash` is idempotent, so extracting at paste time and again at submit time agree. */
  lemma ExtractIdempotent(t: string)
    ensures Extract(Extract(t)) == Extract(t)
  {
    RuleResults(t);
    if HostParam(t).Some? || LongWords(Words(t)) != [] {
      HashFixed(Extract(t));
    } else {
      ExtractTrim(t);
    }
  }

  /** The hash is extracted whole: white space never survives the extraction at either end. */
  lemma ExtractTrimmed(t: string)
    ensures Text.Trim(Extract(t)) == Extract(t)
  {
    RuleResults(t);
    if HostParam(t).Some? || LongWords(Words(t)) != [] {
      HashTrimmed(Extract(t));
    }
    Text.TrimNoop(Extract(t));
  }

  /** `onMatch` is called exactly for input that is not blank, with the hash the input holds. */
  lemma SubmitExtracts(input: string)
    ensures Submit(input).Some? <==> Text.Trim(input) != ""
    ensures Submit(input).Some? ==> Submit(input).value == Extract(input)
  {
    ExtractTrim(input);
  }

  /** Pasting first, then submitting, hands `onMatch` what submitting the pasted text would. */
  lemma PasteThenSubmit(t: string)
    ensures Submit(Paste(t)) == Submit(t)
  {
    var e := Extract(t);
    if e != t && |e| > 0 {
      ExtractTrim(t);
      assert Extract("") == "";
      assert Text.Trim(t) != "";
      assert Submit(t) == Some(e);
      ExtractTrimmed(t);
      ExtractIdempotent(t);
      assert Submit(e) == Some(e);
    }
  }

  /** Neither '?' nor '&': no match of the first rule can start in such a text. */
  predicate NoQueryMark(s: string) {
    forall i :: 0 <= i < |s| ==> s[i] != '?' && s[i] != '&'
  }

  lemma NoQueryMarkAppend(a: string, b: string)
    requires NoQueryMark(a) && NoQueryMark(b)
    ensures NoQueryMark(a + b)
  {
    forall i | 0 <= i < |a + b| ensures (a + b)[i] != '?' && (a + b)[i] != '&' {
      if i >= |a| {
        assert (a + b)[i] == b[i - |a|];
      }
    }
  }

  /**
   * The first rule finds `h` in `a + "?host=" + h + b` when `a` holds no '?' or '&', `h` is a
   * hash and `b` does not go on with a hash character.
   */
  lemma HostParamOf(a: string, h: string, b: string)
    requires NoQueryMark(a) && h != "" && AllHashChars(h)
    requires b != [] ==> !IsHashChar(b[0])
    ensures HostParam(a + "?host=" + h + b) == Some(h)
  {
    var s := a + "?host=" + h + b;
    var n := |a|;
    assert s[n..n + 6] == "?host=";
    assert s[n + 6] == h[0];
    assert HostAt(s, n);
    forall j | 0 <= j < n ensures !HostAt(s, j) {
      assert s[j] == a[j];
    }
    assert FirstHostFrom(s, 0) == Some(n);
    forall k | n + 6 <= k < n + 6 + |h| ensures IsHashChar(s[k]) {
      assert s[k] == h[k - n - 6];
    }
    if b != [] {
      assert s[n + 6 + |h|] == b[0];
    }
    RunEndUnique(s, n + 6, n + 6 + |h|);
    assert s[n + 6..n + 6 + |h|] == h;
  }

  // ---------------------------------------------------------------------------------------------
  // The extractor over the whole code alphabet

  /**
   * The characters `LZString.compressToEncodedURIComponent` writes: the letters, the digits and
   * '+', '-' and '$'. The character class of both rules above admits '_' but neither '+' nor '$',
   * so the extractor cuts a code short at its first '+' or '$'.
   */
  predicate IsCodeChar(c: char) {
    ('a' <= c <= 'z') || ('A' <= c <= 'Z') || ('0' <= c <= '9') || c == '+' || c == '-' || c == '$'
  }

  /** The corrected character class: the hash characters together with '+' and '$'. */
  predicate IsWideChar(c: char) {
    IsHashChar(c) || c == '+' || c == '$'
  }

  predicate AllWideChars(s: string) {
    forall i :: 0 <= i < |s| ==> IsWideChar(s[i])
  }

  /** Rule 1 with the corrected class: `/[?&]host=([a-zA-Z0-9\-_+$]+)/` matches at `i`. */
  predicate WideHostAt(s: string, i: int) {
    && 0 <= i && i + 6 < |s|
    && (s[i] == '?' || s[i] == '&')
    && s[i + 1] == 'h' && s[i + 2] == 'o' && s[i + 3] == 's' && s[i + 4] == 't' && s[i + 5] == '='
    && IsWideChar(s[i + 6])
  }

  function FirstWideHostFrom(s: string, k: nat): (r: Option<nat>)
    ensures r.Some? ==> k <= r.value && WideHostAt(s, r.value) && forall j :: k <= j < r.value ==> !WideHostAt(s, j)
    ensures r.None? ==> forall j :: k <= j ==> !WideHostAt(s, j)
    decreases |s| - k
  {
    if k + 6 >= |s| then None
    else if WideHostAt(s, k) then Some(k)
    else FirstWideHostFrom(s, k + 1)
  }

  function WideRunEnd(s: string, k: nat): (r: nat)
    requires k <= |s|
    ensures k <= r <= |s|
    ensures forall i :: k <= i < r ==> IsWideChar(s[i])
    ensures r < |s| ==> !IsWideChar(s[r])
    decreases |s| - k
  {
    if k < |s| && IsWideChar(s[k]) then WideRunEnd(s, k + 1) else k
  }

  function WideHostParam(s: string): (r: Option<string>)
    ensures r.Some? ==> r.value != "" && AllWideChars(r.value)
  {
    match FirstWideHostFrom(s, 0)
    case None => None
    case Some(i) => Some(s[i + 6..WideRunEnd(s, i + 6)])
  }

  /** Rule 2 with the corrected class: `/^[a-zA-Z0-9\-_+$]{10,}$/`. */
  predicate IsWideWord(w: string) {
    |w| >= 10 && AllWideChars(w)
  }

  function WideLongWords(words: seq<string>): (r: seq<string>)
    ensures forall i :: 0 <= i < |r| ==> IsWideWord(r[i]) && r[i] in words
  {
    if words == [] then []
    else
      var rest := WideLongWords(words[1..]);
      assert forall i :: 1 <= i < |words| ==> words[i] == words[1..][i - 1];
      if IsWideWord(words[0]) then [words[0]] + rest else rest
  }

  /** The extractor with the corrected class in both rules, and otherwise the same three rules. */
  function WideExtract(text: string): string {
    match WideHostParam(text)
    case Some(h) => h
    case None =>
      var hashes := WideLongWords(Words(text));
      if hashes == [] then Text.Trim(text)
      else
        var plain := NotLinks(hashes);
        if plain != [] then Last(plain) else Last(hashes)
  }

  /** Every character of a code is in the corrected class. */
  lemma CodeCharsWide(s: string)
    requires forall i :: 0 <= i < |s| ==> IsCodeChar(s[i])
    ensures AllWideChars(s)
  {
  }

  /** The corrected rule 1 finds `h` in `a + "?host=" + h + b`, as `HostParamOf` does for the original. */
  lemma WideHostParamOf(a: string, h: string, b: string)
    requires NoQueryMark(a) && h != "" && AllWideChars(h)
    requires b != [] ==> !IsWideChar(b[0])
    ensures WideHostParam(a + "?host=" + h + b) == Some(h)
  {
    var s := a + "?host=" + h + b;
    var n := |a|;
    assert s[n..n + 6] == "?host=";
    assert s[n + 6] == h[0];
    assert WideHostAt(s, n);
    forall j | 0 <= j < n ensures !WideHostAt(s, j) {
      assert s[j] == a[j];
    }
    assert FirstWideHostFrom(s, 0) == Some(n);
    forall k | n + 6 <= k < n + 6 + |h| ensures IsWideChar(s[k]) {
      assert s[k] == h[k - n - 6];
    }
    if b != [] {
      assert s[n + 6 + |h|] == b[0];
    }
    WideRunEndUnique(s, n + 6, n + 6 + |h|);
    assert s[n + 6..n + 6 + |h|] == h;
  }

  lemma {:induction false} WideRunEndUnique(s: string, k: nat, r: nat)
    requires k <= r <= |s|
    requires forall i :: k <= i < r ==> IsWideChar(s[i])
    requires r < |s| ==> !IsWideChar(s[r])
    ensures WideRunEnd(s, k) == r
    decreases r - k
  {
    if k < r {
      WideRunEndUnique(s, k + 1, r);
    }
  }

  /** Neither '+' nor '$': the two classes agree on every character of such a text. */
  predicate Narrow(s: string) {
    forall i :: 0 <= i < |s| ==> s[i] != '+' && s[i] != '$'
  }

  /** On a text without '+' and '$' the correction changes nothing: both extractors agree. */
  lemma WideExtractAgrees(t: string)
    requires Narrow(t)
    ensures WideHostParam(t) == HostParam(t)
    ensures WideExtract(t) == Extract(t)
  {
    WideHostParamAgrees(t);
    if HostParam(t).None? {
      WordsNarrow(t);
      WideLongWordsAgree(Words(t));
    }
  }

  lemma WideHostParamAgrees(t: string)
    requires Narrow(t)
    ensures WideHostParam(t) == HostParam(t)
  {
    FirstWideHostAgrees(t, 0);
    if FirstHostFrom(t, 0).Some? {
      WideRunEndAgrees(t, FirstHostFrom(t, 0).value + 6);
    }
  }

  lemma {:induction false} FirstWideHostAgrees(s: string, k: nat)
    requires Narrow(s)
    ensures FirstWideHostFrom(s, k) == FirstHostFrom(s, k)
    decreases |s| - k
  {
    if k + 6 < |s| {
      assert WideHostAt(s, k) == HostAt(s, k);
      FirstWideHostAgrees(s, k + 1);
    }
  }

  lemma {:induction false} WideRunEndAgrees(s: string, k: nat)
    requires Narrow(s) && k <= |s|
    ensures WideRunEnd(s, k) == RunEnd(s, k)
    decreases |s| - k
  {
    if k < |s| {
      WideRunEndAgrees(s, k + 1);
    }
  }

  /** The words of a text without '+' and '$' have none either. */
  lemma {:induction false} WordsNarrow(s: string)
    requires Narrow(s)
    ensures forall i :: 0 <= i < |Words(s)| ==> Narrow(Words(s)[i])
    decreases |s|
  {
    if s == [] {
    } else if Text.IsSpace(s[0]) {
      assert Narrow(s[1..]);
      WordsNarrow(s[1..]);
    } else {
      var j := WordEnd(s, 0);
      assert Narrow(s[..j]) && Narrow(s[j..]);
      WordsNarrow(s[j..]);
      assert Words(s) == [s[..j]] + Words(s[j..]);
    }
  }

  lemma {:induction false} WideLongWordsAgree(words: seq<string>)
    requires forall i :: 0 <= i < |words| ==> Narrow(words[i])
    ensures WideLongWords(words) == LongWords(words)
  {
    if words != [] {
      assert IsWideWord(words[0]) == IsHashWord(words[0]);
      assert forall i :: 0 <= i < |words[1..]| ==> words[1..][i] == words[i + 1];
      WideLongWordsAgree(words[1..]);
    }
  }
}
