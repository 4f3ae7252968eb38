/**
 * The report view's text handling (`parseSection` and the line filter of `renderList`), and how it
 * reads the offline details: the sections it extracts are exactly the bullets the prompt listed.
 */
module Report {
  import opened Wrappers
  import opened Js
  import Text
  import opened Scoring
  import Prompt
  import Client

  /** The end markers the view searches for: the first words of the next two prompt headers. */
  const StrengthsEnd: string := "--- 核心雷区"
  const ConflictsEnd: string := "--- 维度总结"

  function Clamp(i: int, n: nat): (r: nat)
    ensures r <= n
  {
    if i < 0 then 0 else if i > n then n else i
  }

  /** JavaScript's `s.substring(a, b)`: both ends clamped to the string, swapped when `a > b`. */
  function Substring(s: string, a: int, b: int): (r: string)
    ensures 0 <= a <= b <= |s| ==> r == s[a..b]
    ensures |r| <= |s|
  {
    var x := Clamp(a, |s|);
    var y := Clamp(b, |s|);
    if x <= y then s[x..y] else s[y..x]
  }

  /** With the end before the start, `substring` takes the text between them all the same. */
  lemma SubstringSwapped(s: string, a: int, b: int)
    requires 0 <= b <= a <= |s|
    ensures Substring(s, a, b) == s[b..a]
  {
  }

  /** The characters `/^[:：\n]+/` strips. */
  predicate IsLeadMark(c: char) {
    c == ':' || c == '：' || c == '\n'
  }

  /** The first position at or after `k` that holds no such mark (`|s|` when there is none). */
  function SkipMarks(s: string, k: nat): (r: nat)
    requires k <= |s|
    ensures k <= r <= |s|
    ensures forall i :: k <= i < r ==> IsLeadMark(s[i])
    ensures r < |s| ==> !IsLeadMark(s[r])
    decreases |s| - k
  {
    if k < |s| && IsLeadMark(s[k]) then SkipMarks(s, k + 1) else k
  }

  /** `s.replace(/^[:：\n]+/, '')`. */
  function StripLeading(s: string): (r: string)
    ensures r == [] || !IsLeadMark(r[0])
  {
    s[SkipMarks(s, 0)..]
  }

  /**
   * `parseSection(text, title, nextTitle)`: null when the title is absent; otherwise the text
   * between the end of the title's first occurrence and `SectionEnd`, trimmed, stripped of
   * leading colons and line breaks, trimmed again.
   */
  function ParseSection(text: string, title: string, next: Option<string>): (r: Option<string>)
    ensures r.None? <==> !Text.Contains(text, title)
    ensures r.Some? ==> Text.Trimmed(r.value)
  {
    var start := Text.IndexOf(text, title);
    if start == -1 then None
    else Some(Text.Trim(StripLeading(Text.Trim(Substring(text, start + |title|, SectionEnd(text, next))))))
  }

  /**
   * Where the section stops: the first occurrence of a non-empty `nextTitle`, or the end of the
   * text when there is no such title or it does not occur (`substring` with one argument).
   */
  function SectionEnd(text: string, next: Option<string>): (e: nat)
    ensures e <= |text|
    ensures next.Some? && next.value != "" && Text.Contains(text, next.value) ==> e == Text.IndexOf(text, next.value)
    ensures !(next.Some? && next.value != "" && Text.Contains(text, next.value)) ==> e == |text|
  {
    if next.Some? && next.value != "" && Text.IndexOf(text, next.value) != -1 then Text.IndexOf(text, next.value)
    else |text|
  }

  /**
   * When `nextTitle` first occurs before the title ends, `substring` swaps its arguments and the
   * section is taken from the text between the two, backwards.
   */
  lemma ParseSectionSwapped(text: string, title: string, next: string)
    requires Text.Contains(text, title) && Text.Contains(text, next) && next != ""
    requires Text.IndexOf(text, next) < Text.IndexOf(text, title) + |title|
    ensures ParseSection(text, title, Some(next)) == Some(Text.Trim(StripLeading(
      Text.Trim(text[Text.IndexOf(text, next)..Text.IndexOf(text, title) + |title|]))))
  {
    SubstringSwapped(text, Text.IndexOf(text, title) + |title|, Text.IndexOf(text, next));
  }

  /**
   * Stripping happens before the final trim, so a colon behind white space survives: the result
   * can still start with ':'.
   */
  lemma ParseSectionKeepsInnerColon()
    ensures ParseSection("T: :x", "T", None) == Some(":x")
  {
    var text := "T: :x";
    var body := ": :x";
    assert text == [] + "T" + body;
    Text.FirstOccurrence([], "T", body, 0);
    assert Substring(text, 1, |text|) == body;
    assert Text.Trim(body) == body by {
      Text.TrimNoop(body);
    }
    assert StripLeading(body) == " :x" by {
      assert body[1..] == " :x";
    }
    assert Text.Trim(" :x") == ":x" by {
      assert Text.AllSpace(" ");
      Text.TrimExact(" ", ":x", "");
      assert " " + ":x" + "" == " :x";
    }
    ParseSectionToEnd(text, "T");
  }

  /** `parseSection` without a next title reads to the end of the text. */
  lemma ParseSectionToEnd(text: string, title: string)
    ensures var start := Text.IndexOf(text, title);
      ParseSection(text, title, None)
      == if start == -1 then None else Some(Text.Trim(StripLeading(Text.Trim(Substring(text, start + |title|, |text|)))))
  {
    assert SectionEnd(text, None) == |text|;
  }

  /** `line.trim()` kept unless empty or a `---` rule, with one leading "- " removed. */
  function Items(lines: seq<string>): (r: seq<string>)
    ensures |r| <= |lines|
  {
    if lines == [] then []
    else
      var t := Text.Trim(lines[0]);
      var rest := Items(lines[1..]);
      if t == "" || Text.StartsWith(t, "---") then rest
      else [Unbullet(t)] + rest
  }

  /** A line `renderList` shows: not blank, and not a `---` rule. */
  predicate Shown(line: string) {
    Text.Trim(line) != "" && !Text.StartsWith(Text.Trim(line), "---")
  }

  /** The items are the shown lines, trimmed and without a leading "- ", and nothing else. */
  lemma {:induction false} ItemsMeans(lines: seq<string>)
    ensures forall x :: x in Items(lines) <==>
      exists i :: 0 <= i < |lines| && Shown(lines[i]) && x == Unbullet(Text.Trim(lines[i]))
  {
    if lines != [] {
      var rest := lines[1..];
      ItemsMeans(rest);
      assert forall i :: 1 <= i < |lines| ==> lines[i] == rest[i - 1];
      forall x | x in Items(lines)
        ensures exists i :: 0 <= i < |lines| && Shown(lines[i]) && x == Unbullet(Text.Trim(lines[i]))
      {
        if x in Items(rest) {
          var i :| 0 <= i < |rest| && Shown(rest[i]) && x == Unbullet(Text.Trim(rest[i]));
          assert lines[i + 1] == rest[i];
        }
      }
      forall x | exists i :: 0 <= i < |lines| && Shown(lines[i]) && x == Unbullet(Text.Trim(lines[i]))
        ensures x in Items(lines)
      {
        var i :| 0 <= i < |lines| && Shown(lines[i]) && x == Unbullet(Text.Trim(lines[i]));
        if i > 0 {
          assert rest[i - 1] == lines[i];
        }
      }
    }
  }

  /** `line.replace(/^- /, '')`. */
  function Unbullet(t: string): string {
    if Text.StartsWith(t, "- ") then t[2..] else t
  }

  function UnbulletAll(items: seq<string>): (r: seq<string>)
    ensures |r| == |items|
    ensures forall i :: 0 <= i < |items| ==> r[i] == Unbullet(items[i])
  {
    seq(|items|, i requires 0 <= i < |items| => Unbullet(items[i]))
  }

  /** `renderList(text)`: `None` is the placeholder shown for null or empty text, otherwise the list items. */
  function RenderList(text: Option<string>): (r: Option<seq<string>>)
    ensures r.None? <==> text.None? || text.value == ""
  {
    if text.None? || text.value == "" then None else Some(Items(Text.Split(text.value, '\n')))
  }

  // ---- Agreement with the prompt ----

  /** No `c` at or after position `k` of `s`. */
  predicate FreeFrom(s: string, c: char, k: nat)
    decreases |s| - k
  {
    k >= |s| || (s[k] != c && FreeFrom(s, c, k + 1))
  }

  /** `c` does not occur in `s`. */
  predicate Free(s: string, c: char) {
    FreeFrom(s, c, 0)
  }

  lemma {:induction false} FreeFromMeans(s: string, c: char, k: nat)
    ensures FreeFrom(s, c, k) <==> forall i :: k <= i < |s| ==> s[i] != c
    decreases |s| - k
  {
    if k < |s| {
      FreeFromMeans(s, c, k + 1);
    }
  }

  lemma FreeIn(s: string, c: char)
    ensures Free(s, c) <==> c !in s
  {
    FreeFromMeans(s, c, 0);
  }

  lemma FreeAppend(a: string, b: string, c: char)
    ensures Free(a + b, c) <==> Free(a, c) && Free(b, c)
  {
    FreeIn(a, c);
    FreeIn(b, c);
    FreeIn(a + b, c);
  }

  /** A bullet as the prompt writes it: "- [" first, no line break, no white space at the end. */
  predicate Bullet(s: string) {
    |s| >= 3 && s[..3] == "- [" && Free(s, '\n') && !Text.IsSpace(s[|s| - 1])
  }

  /** Bullets, each free of the section marks. */
  predicate QuietBullets(l: seq<string>) {
    forall i :: 0 <= i < |l| ==> Bullet(l[i]) && Quiet(l[i])
  }

  /**
   * Free of the three characters that tell the section titles apart from the text before them:
   * 契 in the strengths header, 核 in the conflicts header and its end marker, 总 in the end marker
   * of the conflicts.
   */
  predicate Quiet(s: string) {
    Free(s, '契') && Free(s, '核') && Free(s, '总')
  }

  /** Quiet and on one line. */
  predicate Inline(s: string) {
    Quiet(s) && Free(s, '\n')
  }

  lemma QuietAppend(a: string, b: string)
    ensures Quiet(a + b) <==> Quiet(a) && Quiet(b)
    ensures Inline(a + b) <==> Inline(a) && Inline(b)
  {
    FreeAppend(a, b, '契');
    FreeAppend(a, b, '核');
    FreeAppend(a, b, '总');
    FreeAppend(a, b, '\n');
  }

  lemma {:induction false} LinesJoin(items: seq<string>)
    requires items != []
    ensures Prompt.Lines(items) == "\n" + Text.Join(items, "\n")
  {
    if |items| > 1 {
      LinesJoin(items[1..]);
    }
  }

  lemma {:induction false} LinesAvoid(items: seq<string>, c: char)
    requires c != '\n' && forall i :: 0 <= i < |items| ==> Free(items[i], c)
    ensures Free(Prompt.Lines(items), c)
  {
    if items == [] {
      FreeIn(Prompt.Lines(items), c);
    } else {
      LinesAvoid(items[1..], c);
      FreeIn("\n", c);
      FreeAppend("\n", items[0], c);
      FreeAppend("\n" + items[0], Prompt.Lines(items[1..]), c);
    }
  }

  lemma {:induction false} JoinEnds(items: seq<string>)
    requires items != [] && forall i :: 0 <= i < |items| ==> Bullet(items[i])
    ensures var j := Text.Join(items, "\n");
      |j| >= 3 && j[0] == '-' && !Text.IsSpace(j[|j| - 1]) && Text.Trimmed(j)
  {
    assert items[0][..3][0] == '-';
    assert !Text.IsSpace('-');
    if |items| > 1 {
      JoinEnds(items[1..]);
    }
  }

  lemma {:induction false} JoinTerminated(items: seq<string>, sep: char)
    requires items != []
    ensures Text.Join(items, [sep]) == Text.Terminated(items[..|items| - 1], sep) + items[|items| - 1]
  {
    if |items| == 1 {
      assert items[..0] == [];
    } else {
      JoinTerminated(items[1..], sep);
      assert items[1..][..|items| - 2] == items[..|items| - 1][1..];
    }
  }

  /** `parseSection` once both titles are found and the text between them is known. */
  lemma ParseSectionFound(text: string, title: string, next: string, s: nat, e: nat, between: string, r: string)
    requires Text.IndexOf(text, title) == s && next != "" && Text.IndexOf(text, next) == e
    requires Substring(text, s + |title|, e) == between
    requires Text.Trim(StripLeading(Text.Trim(between))) == r
    ensures ParseSection(text, title, Some(next)) == Some(r)
  {
    assert SectionEnd(text, Some(next)) == e;
  }

  lemma NotInFour(c: char, a: string, b: string, d: string, e: string)
    requires c !in a && c !in b && c !in d && c !in e
    ensures c !in a + b + d + e
  {
  }

  lemma Middle(x: string, y: string, z: string)
    ensures (x + y + z)[|x|..|x| + |y|] == y
  {
  }

  /** The bullet lines and the blank line after them trim to the bullets joined by line breaks. */
  lemma TrimLines(items: seq<string>)
    requires items != [] && forall i :: 0 <= i < |items| ==> Bullet(items[i])
    ensures Text.Trim(Prompt.Lines(items) + "\n\n") == Text.Join(items, "\n")
  {
    var j := Text.Join(items, "\n");
    var nl := "\n";
    var blank := "\n\n";
    assert Text.AllSpace(nl) && Text.AllSpace(blank);
    LinesJoin(items);
    JoinEnds(items);
    assert Prompt.Lines(items) + "\n\n" == nl + j + blank;
    Text.TrimExact(nl, j, blank);
  }

  /** With no bullets the section is empty. */
  lemma TrimNoLines()
    ensures Text.Trim(Prompt.Lines([]) + "\n\n") == ""
  {
    var blank := "\n\n";
    assert Text.AllSpace(blank);
    assert Prompt.Lines([]) + "\n\n" == blank;
  }

  /** Text that starts with '-' and ends in no white space comes through the stripping unchanged. */
  lemma CleanNoop(j: string)
    requires j == [] || (j[0] == '-' && !Text.IsSpace(j[|j| - 1]))
    ensures Text.Trim(StripLeading(j)) == j
  {
    if j != [] {
      assert !IsLeadMark(j[0]) && !Text.IsSpace(j[0]);
      assert SkipMarks(j, 0) == 0;
    }
    assert StripLeading(j) == j[0..] == j;
    Text.TrimNoop(j);
  }

  /** What `parseSection` makes of the bullet lines and the blank line after them. */
  lemma TrimBlock(items: seq<string>)
    requires forall i :: 0 <= i < |items| ==> Bullet(items[i])
    ensures Text.Trim(StripLeading(Text.Trim(Prompt.Lines(items) + "\n\n"))) == Text.Join(items, "\n")
  {
    if items == [] {
      TrimNoLines();
      CleanNoop([]);
    } else {
      TrimLines(items);
      JoinEnds(items);
      CleanNoop(Text.Join(items, "\n"));
    }
  }

  /**
   * A section laid out as the prompt lays it out (title, a block of lines, a blank line, the next
   * title) parses to what trimming and stripping make of the block, provided a character of each
   * title (at `k1`, `k2`) occurs nowhere before that title.
   */
  lemma ExtractSection(text: string, pre: string, title: string, k1: nat, l: string, next: string, k2: nat, rest: string, j: string)
    requires text == pre + title + l + "\n\n" + next + rest
    requires k1 < |title| && Free(pre, title[k1]) && Free(title[..k1], title[k1])
    requires k2 < |next| && Free(next[..k2], next[k2]) && next[k2] != '\n'
    requires Free(pre, next[k2]) && Free(title, next[k2]) && Free(l, next[k2])
    requires Text.Trim(StripLeading(Text.Trim(l + "\n\n"))) == j
    ensures ParseSection(text, title, Some(next)) == Some(j)
  {
    FreeIn(pre, title[k1]);
    FreeIn(title[..k1], title[k1]);
    FreeIn(next[..k2], next[k2]);
    FreeIn(pre, next[k2]);
    FreeIn(title, next[k2]);
    FreeIn(l, next[k2]);
    SectionBounds(text, pre, title, k1, l, next, k2, rest);
    ParseSectionAt(text, pre, title, l, next, rest, j);
  }

  lemma ParseSectionAt(text: string, pre: string, title: string, l: string, next: string, rest: string, j: string)
    requires text == pre + title + l + "\n\n" + next + rest && next != ""
    requires Text.IndexOf(text, title) == |pre| && Text.IndexOf(text, next) == |pre + title + (l + "\n\n")|
    requires Text.Trim(StripLeading(Text.Trim(l + "\n\n"))) == j
    ensures ParseSection(text, title, Some(next)) == Some(j)
  {
    var e := |pre + title + (l + "\n\n")|;
    Regroup(text, pre, title, l, "\n\n", next, rest);
    Middle(pre + title, l + "\n\n", next + rest);
    ParseSectionFound(text, title, next, |pre|, e, l + "\n\n", j);
  }

  /** Where the two titles are found around a block of lines and a blank line, and what lies between. */
  lemma SectionBounds(text: string, pre: string, title: string, k1: nat, l: string, next: string, k2: nat, rest: string)
    requires text == pre + title + l + "\n\n" + next + rest
    requires k1 < |title| && title[k1] !in pre && title[k1] !in title[..k1]
    requires k2 < |next| && next[k2] !in next[..k2] && next[k2] != '\n'
    requires next[k2] !in pre && next[k2] !in title && next[k2] !in l
    ensures Text.IndexOf(text, title) == |pre|
    ensures Text.IndexOf(text, next) == |pre + title + (l + "\n\n")|
    ensures Substring(text, |pre| + |title|, |pre + title + (l + "\n\n")|) == l + "\n\n"
  {
    var block := l + "\n\n";
    var e := |pre + title + block|;
    Regroup(text, pre, title, l, "\n\n", next, rest);
    assert Text.IndexOf(text, title) == |pre| by {
      Text.FirstOccurrence(pre, title, block + (next + rest), k1);
    }
    assert Text.IndexOf(text, next) == e by {
      NotInFour(next[k2], pre, title, l, "\n\n");
      Text.FirstOccurrence(pre + title + block, next, rest, k2);
    }
    Middle(pre + title, block, next + rest);
  }

  lemma Regroup(text: string, pre: string, title: string, l: string, blank: string, next: string, rest: string)
    requires text == pre + title + l + blank + next + rest
    ensures text == pre + title + ((l + blank) + (next + rest))
    ensures text == (pre + title + (l + blank)) + next + rest
    ensures text == (pre + title) + (l + blank) + (next + rest)
  {
  }

  /** Splitting bullets joined by line breaks at the line breaks gives the bullets back. */
  lemma SplitJoined(items: seq<string>)
    requires items != [] && forall i :: 0 <= i < |items| ==> '\n' !in items[i]
    ensures Text.Split(Text.Join(items, "\n"), '\n') == items
  {
    var init := items[..|items| - 1];
    var last := items[|items| - 1];
    JoinTerminated(items, '\n');
    assert forall i :: 0 <= i < |init| ==> '\n' !in init[i] by {
      forall i | 0 <= i < |init| ensures '\n' !in init[i] {
        assert init[i] == items[i];
      }
    }
    Text.SplitUnique(init, last, '\n');
    Unsnoc(items);
  }

  lemma Unsnoc<T>(xs: seq<T>)
    requires xs != []
    ensures xs[..|xs| - 1] + [xs[|xs| - 1]] == xs
  {
  }

  /** A list of bullets renders as those bullets, each without its leading "- ". */
  lemma RenderBullets(items: seq<string>)
    requires forall i :: 0 <= i < |items| ==> Bullet(items[i])
    ensures items == [] ==> RenderList(Some(Text.Join(items, "\n"))) == None
    ensures items != [] ==> RenderList(Some(Text.Join(items, "\n"))) == Some(UnbulletAll(items))
  {
    if items != [] {
      var j := Text.Join(items, "\n");
      JoinEnds(items);
      forall i | 0 <= i < |items| ensures '\n' !in items[i] {
        FreeIn(items[i], '\n');
      }
      SplitJoined(items);
      ItemsOfBullets(items);
      assert RenderList(Some(j)) == Some(Items(Text.Split(j, '\n')));
    }
  }

  lemma {:induction false} ItemsOfBullets(items: seq<string>)
    requires forall i :: 0 <= i < |items| ==> Bullet(items[i])
    ensures Items(items) == UnbulletAll(items)
  {
    if items != [] {
      var s := items[0];
      assert s[0] == s[..3][0] && s[1] == s[..3][1];
      Text.TrimNoop(s);
      assert Text.StartsWith(s, "- ");
      assert !Text.StartsWith(s, "---");
      ItemsOfBullets(items[1..]);
    }
  }

  // ---- The offline details ----

  /** The three characters `Quiet` rules out. */
  predicate Mark(c: char) {
    c == '契' || c == '核' || c == '总'
  }

  lemma Unmarked(s: string)
    requires forall i :: 0 <= i < |s| ==> !Mark(s[i])
    ensures Quiet(s)
  {
    FreeFromMeans(s, '契', 0);
    FreeFromMeans(s, '核', 0);
    FreeFromMeans(s, '总', 0);
  }

  lemma Flat(s: string)
    requires forall i :: 0 <= i < |s| ==> !Mark(s[i]) && s[i] != '\n'
    ensures Inline(s)
  {
    Unmarked(s);
    FreeFromMeans(s, '\n', 0);
  }

  lemma ShowIntInline(n: int)
    ensures Inline(Text.ShowInt(n))
  {
    Flat(Text.ShowInt(n));
  }

  /** The fields of a point that the prompt prints, all quiet and on one line. */
  predicate QuietPoint(p: Point) {
    Inline(p.dimension) && Inline(p.question) && Inline(p.labelA) && Inline(p.labelB)
  }

  lemma StrengthsHeaderMark()
    ensures Prompt.StrengthsHeader[30] == '契' && Free(Prompt.StrengthsHeader[..30], '契')
  {
    FreeIn(Prompt.StrengthsHeader[..30], '契');
  }

  lemma StrengthsHeaderQuiet()
    ensures Free(Prompt.StrengthsHeader, '核') && Free(Prompt.StrengthsHeader, '总')
  {
    StrengthsHeaderLacks('核');
    StrengthsHeaderLacks('总');
  }

  lemma StrengthsHeaderLacks(c: char)
    requires c == '核' || c == '总'
    ensures Free(Prompt.StrengthsHeader, c)
  {
    FreeIn(Prompt.StrengthsHeader, c);
  }

  lemma ConflictsHeaderMark()
    ensures Prompt.ConflictsHeader[4] == '核' && Free(Prompt.ConflictsHeader[..4], '核')
  {
    FreeIn(Prompt.ConflictsHeader[..4], '核');
  }

  lemma ConflictsHeaderQuiet()
    ensures Free(Prompt.ConflictsHeader, '总')
  {
    FreeIn(Prompt.ConflictsHeader, '总');
  }

  /** The end markers are where the next headers start. */
  lemma EndMarkers()
    ensures Prompt.ConflictsHeader == StrengthsEnd + Prompt.ConflictsHeader[|StrengthsEnd|..]
    ensures Prompt.SummaryHeader == ConflictsEnd + " ---"
  {
    var h := Prompt.ConflictsHeader;
    assert h[..|StrengthsEnd|] == StrengthsEnd;
    assert h == h[..|StrengthsEnd|] + h[|StrengthsEnd|..];
  }

  lemma EndMarks()
    ensures StrengthsEnd[4] == '核' && Free(StrengthsEnd[..4], '核')
    ensures ConflictsEnd[6] == '总' && Free(ConflictsEnd[..6], '总')
  {
    FreeIn(StrengthsEnd[..4], '核');
    FreeIn(ConflictsEnd[..6], '总');
  }

  lemma PersonaQuiet() ensures Quiet(Prompt.IntroPersona) { Unmarked(Prompt.IntroPersona); }
  lemma TaskQuiet() ensures Quiet(Prompt.IntroTask) { Unmarked(Prompt.IntroTask); }
  lemma AndQuiet() ensures Quiet(Prompt.IntroAnd) { Unmarked(Prompt.IntroAnd); }
  lemma SurveyQuiet() ensures Quiet(Prompt.IntroSurvey) { Unmarked(Prompt.IntroSurvey); }
  lemma ScoreQuiet() ensures Quiet(Prompt.IntroScore) { Unmarked(Prompt.IntroScore); }
  lemma RequestQuiet() ensures Quiet(Prompt.IntroRequest) { Unmarked(Prompt.IntroRequest); }
  lemma HeadingQuiet() ensures Quiet(Prompt.RulesHeading) { Unmarked(Prompt.RulesHeading); }
  lemma TalkQuiet() ensures Quiet(Prompt.RuleTalk) { Unmarked(Prompt.RuleTalk); }
  lemma PointQuiet() ensures Quiet(Prompt.RulePoint) { Unmarked(Prompt.RulePoint); }
  lemma FormatQuiet() ensures Quiet(Prompt.RuleFormat) { Unmarked(Prompt.RuleFormat); }
  lemma NamesQuiet() ensures Quiet(Prompt.RuleNames) { Unmarked(Prompt.RuleNames); }
  lemma ClosingQuiet() ensures Quiet(Prompt.IntroClosing) { Unmarked(Prompt.IntroClosing); }
  lemma MarkerQuiet() ensures Quiet(Client.OfflineMarker) { Unmarked(Client.OfflineMarker); }
  lemma BlankQuiet() ensures Quiet("\n\n") { Unmarked("\n\n"); }

  lemma StrengthItemInline(p: Point, nameA: string, nameB: string)
    requires QuietPoint(p) && Inline(nameA) && Inline(nameB)
    ensures Inline(Prompt.StrengthItem(p, nameA, nameB))
  {
    ShowIntInline(p.id);
    StrengthWordsInline();
    InlineParts("- [", p.dimension, "]: Q.", Text.ShowInt(p.id), " (", p.question, ") 两人答案几乎一致，",
      nameA, ": ", p.labelA, ", ", nameB, ": ", p.labelB, "。");
  }

  lemma StrengthWordsInline()
    ensures Inline("- [") && Inline("]: Q.") && Inline(" (") && Inline(") 两人答案几乎一致，")
    ensures Inline(": ") && Inline(", ") && Inline("。")
  {
    Flat("- ["); Flat("]: Q."); Flat(" ("); Flat(") 两人答案几乎一致，"); Flat(": "); Flat(", "); Flat("。");
  }

  /**
   * Fifteen pieces, each quiet and on one line, make one such line. Both bullet templates of the
   * prompt are fifteen pieces long: literal text alternating with the dimension, the id, the
   * question, the two names and the two labels.
   */
  lemma InlineParts(x1: string, x2: string, x3: string, x4: string, x5: string, x6: string, x7: string,
    x8: string, x9: string, x10: string, x11: string, x12: string, x13: string, x14: string, x15: string)
    requires Inline(x1) && Inline(x2) && Inline(x3) && Inline(x4) && Inline(x5) && Inline(x6) && Inline(x7)
    requires Inline(x8) && Inline(x9) && Inline(x10) && Inline(x11) && Inline(x12) && Inline(x13)
    requires Inline(x14) && Inline(x15)
    ensures Inline(x1 + x2 + x3 + x4 + x5 + x6 + x7 + x8 + x9 + x10 + x11 + x12 + x13 + x14 + x15)
  {
    var s := x1;
    QuietAppend(s, x2); s := s + x2;
    QuietAppend(s, x3); s := s + x3;
    QuietAppend(s, x4); s := s + x4;
    QuietAppend(s, x5); s := s + x5;
    QuietAppend(s, x6); s := s + x6;
    QuietAppend(s, x7); s := s + x7;
    QuietAppend(s, x8); s := s + x8;
    QuietAppend(s, x9); s := s + x9;
    QuietAppend(s, x10); s := s + x10;
    QuietAppend(s, x11); s := s + x11;
    QuietAppend(s, x12); s := s + x12;
    QuietAppend(s, x13); s := s + x13;
    QuietAppend(s, x14); s := s + x14;
    QuietAppend(s, x15);
  }

  lemma ConflictItemInline(p: Point, nameA: string, nameB: string)
    requires QuietPoint(p) && Inline(nameA) && Inline(nameB)
    ensures Inline(Prompt.ConflictItem(p, nameA, nameB))
  {
    ShowIntInline(p.id);
    ConflictWordsInline();
    InlineParts("- [", p.dimension, "]: Q.", Text.ShowInt(p.id), " (", p.question, ") 差异巨大 (",
      nameA, ":", p.labelA, " vs ", nameB, ":", p.labelB, ")。这是硬性矛盾，需要深入关注。");
  }

  lemma ConflictWordsInline()
    ensures Inline("- [") && Inline("]: Q.") && Inline(" (") && Inline(") 差异巨大 (")
    ensures Inline(":") && Inline(" vs ") && Inline(")。这是硬性矛盾，需要深入关注。")
  {
    Flat("- ["); Flat("]: Q."); Flat(" ("); Flat(") 差异巨大 ("); Flat(":"); Flat(" vs ");
    Flat(")。这是硬性矛盾，需要深入关注。");
  }

  lemma StrengthItemEnds(p: Point, nameA: string, nameB: string)
    ensures var s := Prompt.StrengthItem(p, nameA, nameB);
      |s| >= 3 && s[..3] == "- [" && s[|s| - 1] == '。'
  {
  }

  lemma ConflictItemEnds(p: Point, nameA: string, nameB: string)
    ensures var s := Prompt.ConflictItem(p, nameA, nameB);
      |s| >= 3 && s[..3] == "- [" && s[|s| - 1] == '。'
  {
  }

  /** Every listed strength and conflict is a bullet free of the section marks. */
  lemma ListsBullets(c: Context)
    requires Inline(Prompt.NameA(c)) && Inline(Prompt.NameB(c))
    requires forall k :: 0 <= k < |c.matrix| ==> QuietPoint(c.matrix[k])
    ensures QuietBullets(Prompt.StrengthsList(c)) && QuietBullets(Prompt.ConflictsList(c))
  {
    var a, b := Prompt.NameA(c), Prompt.NameB(c);
    var ss := Prompt.TakeFive(Prompt.Strengths(c.matrix));
    var cs := Prompt.TakeFive(Prompt.Conflicts(c.matrix));
    Prompt.ListedPoints(c);
    assert !Text.IsSpace('。');
    forall i | 0 <= i < |ss|
      ensures Bullet(Prompt.StrengthsList(c)[i]) && Quiet(Prompt.StrengthsList(c)[i])
    {
      assert ss[i] in c.matrix;
      StrengthItemInline(ss[i], a, b);
      StrengthItemEnds(ss[i], a, b);
    }
    forall i | 0 <= i < |cs|
      ensures Bullet(Prompt.ConflictsList(c)[i]) && Quiet(Prompt.ConflictsList(c)[i])
    {
      assert cs[i] in c.matrix;
      ConflictItemInline(cs[i], a, b);
      ConflictItemEnds(cs[i], a, b);
    }
  }

  /** The prompt's opening paragraph is quiet when the names and the score are. */
  lemma IntroQuiet(nameA: string, nameB: string, score: string)
    requires Quiet(nameA) && Quiet(nameB) && Quiet(score)
    ensures Quiet(Prompt.Intro(nameA, nameB, score))
  {
    PersonaQuiet(); TaskQuiet(); AndQuiet(); SurveyQuiet(); ScoreQuiet(); RequestQuiet(); HeadingQuiet();
    TalkQuiet(); PointQuiet(); FormatQuiet(); NamesQuiet(); ClosingQuiet();
    QuietAppend(Prompt.IntroPersona, Prompt.IntroTask);
    QuietAppend(Prompt.IntroSurvey, Prompt.IntroScore);
    var after := Prompt.IntroRequest;
    QuietAppend(after, Prompt.RulesHeading); after := after + Prompt.RulesHeading;
    QuietAppend(after, Prompt.RuleTalk); after := after + Prompt.RuleTalk;
    QuietAppend(after, Prompt.RulePoint); after := after + Prompt.RulePoint;
    QuietAppend(after, Prompt.RuleFormat); after := after + Prompt.RuleFormat;
    QuietAppend(after, Prompt.RuleNames);
    QuietParts(Prompt.IntroOpening, nameA, Prompt.IntroAnd, nameB, Prompt.IntroBeforeScore, score,
      Prompt.IntroAfterScore, nameA, Prompt.IntroAnd, nameB, Prompt.IntroClosing);
  }

  /** Eleven quiet pieces make a quiet text. */
  lemma QuietParts(x1: string, x2: string, x3: string, x4: string, x5: string, x6: string, x7: string,
    x8: string, x9: string, x10: string, x11: string)
    requires Quiet(x1) && Quiet(x2) && Quiet(x3) && Quiet(x4) && Quiet(x5) && Quiet(x6) && Quiet(x7)
    requires Quiet(x8) && Quiet(x9) && Quiet(x10) && Quiet(x11)
    ensures Quiet(x1 + x2 + x3 + x4 + x5 + x6 + x7 + x8 + x9 + x10 + x11)
  {
    var s := x1;
    QuietAppend(s, x2); s := s + x2;
    QuietAppend(s, x3); s := s + x3;
    QuietAppend(s, x4); s := s + x4;
    QuietAppend(s, x5); s := s + x5;
    QuietAppend(s, x6); s := s + x6;
    QuietAppend(s, x7); s := s + x7;
    QuietAppend(s, x8); s := s + x8;
    QuietAppend(s, x9); s := s + x9;
    QuietAppend(s, x10); s := s + x10;
    QuietAppend(s, x11);
  }

  lemma ShowNumQuiet(x: Num)
    ensures Quiet(Prompt.ShowNum(x))
  {
    if x.Fin? {
      ShowIntInline(x.n);
    } else {
      Unmarked("NaN");
    }
  }

  /** Everything in the offline details before the strengths header. */
  function Preamble(c: Context): string {
    Client.OfflineMarker + "\n\n" + Prompt.Intro(Prompt.NameA(c), Prompt.NameB(c), Prompt.ShowNum(c.matchScore)) + "\n\n"
  }

  lemma PreambleQuiet(c: Context)
    requires Quiet(Prompt.NameA(c)) && Quiet(Prompt.NameB(c))
    ensures Quiet(Preamble(c))
  {
    var intro := Prompt.Intro(Prompt.NameA(c), Prompt.NameB(c), Prompt.ShowNum(c.matchScore));
    ShowNumQuiet(c.matchScore);
    IntroQuiet(Prompt.NameA(c), Prompt.NameB(c), Prompt.ShowNum(c.matchScore));
    MarkerQuiet();
    BlankQuiet();
    QuietAppend(Client.OfflineMarker, "\n\n");
    QuietAppend(Client.OfflineMarker + "\n\n", intro);
    QuietAppend(Client.OfflineMarker + "\n\n" + intro, "\n\n");
  }

  /**
   * What the section extraction needs of the headers: the strengths header has 契 at 30 and
   * neither 核 nor 总; the conflicts header starts with the strengths end marker, has 核 at 4 and
   * no 总; what follows the conflicts starts with the conflicts end marker; and each marker has
   * its character (核 at 4, 总 at 6) nowhere earlier.
   */
  predicate Headers(sh: string, ch: string, tail: string, e1: string, e2: string) {
    StrengthsMarks(sh) && ConflictsMarks(ch) && EndMark(e1, ch, 4, '核') && EndMark(e2, tail, 6, '总')
  }

  predicate StrengthsMarks(sh: string) {
    |sh| > 30 && sh[30] == '契' && Free(sh[..30], '契') && Free(sh, '核') && Free(sh, '总')
  }

  predicate ConflictsMarks(ch: string) {
    |ch| > 4 && ch[4] == '核' && Free(ch[..4], '核') && Free(ch, '总')
  }

  /** The marker `e` starts the text `t` and has its character `m` at `n` and nowhere earlier. */
  predicate EndMark(e: string, t: string, n: nat, m: char) {
    |e| > n && e[n] == m && Free(e[..n], m) && |e| <= |t| && t[..|e|] == e
  }

  lemma HeadersHold()
    ensures Headers(Prompt.StrengthsHeader, Prompt.ConflictsHeader, Prompt.SummaryHeader + Prompt.StructureLines,
      StrengthsEnd, ConflictsEnd)
  {
    StrengthsMarksHold();
    ConflictsMarksHold();
    StrengthsEndHolds();
    ConflictsEndHolds();
  }

  lemma StrengthsMarksHold()
    ensures StrengthsMarks(Prompt.StrengthsHeader)
  {
    StrengthsHeaderMark();
    StrengthsHeaderQuiet();
  }

  lemma ConflictsMarksHold()
    ensures ConflictsMarks(Prompt.ConflictsHeader)
  {
    ConflictsHeaderMark();
    ConflictsHeaderQuiet();
  }

  lemma StrengthsEndHolds()
    ensures EndMark(StrengthsEnd, Prompt.ConflictsHeader, 4, '核')
  {
    EndMarkers();
    EndMarks();
    EndMarkOf(StrengthsEnd, Prompt.ConflictsHeader[|StrengthsEnd|..], 4, '核');
  }

  lemma ConflictsEndHolds()
    ensures EndMark(ConflictsEnd, Prompt.SummaryHeader + Prompt.StructureLines, 6, '总')
  {
    EndMarkers();
    EndMarks();
    EndBefore(ConflictsEnd, " ---", Prompt.SummaryHeader, Prompt.StructureLines, 6, '总');
  }

  lemma EndBefore(e: string, more: string, h: string, rest: string, n: nat, m: char)
    requires h == e + more && |e| > n && e[n] == m && Free(e[..n], m)
    ensures EndMark(e, h + rest, n, m)
  {
    assert h + rest == e + (more + rest);
    EndMarkOf(e, more + rest, n, m);
  }

  lemma EndMarkOf(e: string, rest: string, n: nat, m: char)
    requires |e| > n && e[n] == m && Free(e[..n], m)
    ensures EndMark(e, e + rest, n, m)
  {
    assert (e + rest)[..|e|] == e;
  }

  /** A text cut inside one of its pieces. */
  lemma RecutInside(d: string, a: string, m: string, b1: string, b2: string, b3: string, n: nat)
    requires d == a + m + b1 + b2 + b3 && n <= |m|
    ensures d == a + m[..n] + (m[n..] + b1 + b2 + b3)
  {
    assert m == m[..n] + m[n..];
  }

  /** A text cut inside its last piece. */
  lemma RecutEnd(d: string, a: string, m: string, n: nat)
    requires d == a + m && n <= |m|
    ensures d == a + m[..n] + m[n..]
  {
    assert m == m[..n] + m[n..];
  }

  /** The offline details in the order the prompt writes them. */
  lemma OfflineLayout(c: Context)
    ensures Client.OfflineDetails(Prompt.Build(c)) == Preamble(c) + Prompt.StrengthsHeader + Prompt.Lines(Prompt.StrengthsList(c))
      + "\n\n" + Prompt.ConflictsHeader + Prompt.Lines(Prompt.ConflictsList(c)) + "\n\n"
      + (Prompt.SummaryHeader + Prompt.StructureLines)
  {
    Shuffle(Client.OfflineMarker, "\n\n", Prompt.Intro(Prompt.NameA(c), Prompt.NameB(c), Prompt.ShowNum(c.matchScore)),
      Prompt.StrengthsHeader, Prompt.Lines(Prompt.StrengthsList(c)), Prompt.ConflictsHeader,
      Prompt.Lines(Prompt.ConflictsList(c)), Prompt.SummaryHeader, Prompt.StructureLines);
  }

  lemma Shuffle(m: string, n: string, i: string, sh: string, sb: string, ch: string, cb: string, sum: string, st: string)
    ensures m + n + (i + n + sh + sb + n + ch + cb + n + sum + st) == (m + n + i + n) + sh + sb + n + ch + cb + n + (sum + st)
  {
  }

  /** The two sections of any text laid out as the offline details are. */
  lemma SectionsOf(d: string, pre: string, sh: string, sl: seq<string>, ch: string, cl: seq<string>, tail: string,
    e1: string, e2: string)
    requires d == pre + sh + Prompt.Lines(sl) + "\n\n" + ch + Prompt.Lines(cl) + "\n\n" + tail
    requires Headers(sh, ch, tail, e1, e2) && Quiet(pre)
    requires QuietBullets(sl)
    requires QuietBullets(cl)
    ensures ParseSection(d, sh, Some(e1)) == Some(Text.Join(sl, "\n"))
    ensures ParseSection(d, ch, Some(e2)) == Some(Text.Join(cl, "\n"))
  {
    StrengthsOf(d, pre, sh, sl, ch, cl, tail, e1, e2);
    ConflictsOf(d, pre, sh, sl, ch, cl, tail, e1, e2);
  }

  lemma StrengthsOf(d: string, pre: string, sh: string, sl: seq<string>, ch: string, cl: seq<string>, tail: string,
    e1: string, e2: string)
    requires d == pre + sh + Prompt.Lines(sl) + "\n\n" + ch + Prompt.Lines(cl) + "\n\n" + tail
    requires Headers(sh, ch, tail, e1, e2) && Quiet(pre)
    requires QuietBullets(sl)
    ensures ParseSection(d, sh, Some(e1)) == Some(Text.Join(sl, "\n"))
  {
    var sb, cb := Prompt.Lines(sl), Prompt.Lines(cl);
    var r1 := ch[|e1|..];
    RecutInside(d, pre + sh + sb + "\n\n", ch, cb, "\n\n", tail, |e1|);
    LinesAvoid(sl, '核');
    TrimBlock(sl);
    ExtractSection(d, pre, sh, 30, sb, e1, 4, r1 + cb + "\n\n" + tail, Text.Join(sl, "\n"));
  }

  lemma ConflictsOf(d: string, pre: string, sh: string, sl: seq<string>, ch: string, cl: seq<string>, tail: string,
    e1: string, e2: string)
    requires d == pre + sh + Prompt.Lines(sl) + "\n\n" + ch + Prompt.Lines(cl) + "\n\n" + tail
    requires Headers(sh, ch, tail, e1, e2) && Quiet(pre)
    requires QuietBullets(sl)
    requires QuietBullets(cl)
    ensures ParseSection(d, ch, Some(e2)) == Some(Text.Join(cl, "\n"))
  {
    var sb, cb := Prompt.Lines(sl), Prompt.Lines(cl);
    var r2 := tail[|e2|..];
    var pre2 := pre + sh + sb + "\n\n";
    RecutEnd(d, pre2 + ch + cb + "\n\n", tail, |e2|);
    LinesAvoid(sl, '核');
    LinesAvoid(sl, '总');
    LinesAvoid(cl, '总');
    BlankQuiet();
    PreTwoFree(pre, sh, sb, '核');
    PreTwoFree(pre, sh, sb, '总');
    TrimBlock(cl);
    ExtractSection(d, pre2, ch, 4, cb, e2, 6, r2, Text.Join(cl, "\n"));
  }

  lemma PreTwoFree(pre: string, sh: string, sb: string, c: char)
    requires Free(pre, c) && Free(sh, c) && Free(sb, c) && Free("\n\n", c)
    ensures Free(pre + sh + sb + "\n\n", c)
  {
    FreeAppend(pre, sh, c);
    FreeAppend(pre + sh, sb, c);
    FreeAppend(pre + sh + sb, "\n\n", c);
  }

  /**
   * On the offline details, the strengths section the view extracts is exactly the strength
   * bullets of the prompt, one per line, and the conflicts section exactly the conflict bullets,
   * provided the names and the printed fields of every point are on one line and free of the
   * three characters that mark where a header starts.
   */
  lemma OfflineSections(c: Context)
    requires Inline(Prompt.NameA(c)) && Inline(Prompt.NameB(c))
    requires forall k :: 0 <= k < |c.matrix| ==> QuietPoint(c.matrix[k])
    ensures var d := Client.OfflineDetails(Prompt.Build(c));
      && ParseSection(d, Prompt.StrengthsHeader, Some(StrengthsEnd)) == Some(Text.Join(Prompt.StrengthsList(c), "\n"))
      && ParseSection(d, Prompt.ConflictsHeader, Some(ConflictsEnd)) == Some(Text.Join(Prompt.ConflictsList(c), "\n"))
  {
    ListsBullets(c);
    PreambleQuiet(c);
    HeadersHold();
    OfflineLayout(c);
    SectionsOf(Client.OfflineDetails(Prompt.Build(c)), Preamble(c), Prompt.StrengthsHeader, Prompt.StrengthsList(c),
      Prompt.ConflictsHeader, Prompt.ConflictsList(c), Prompt.SummaryHeader + Prompt.StructureLines, StrengthsEnd, ConflictsEnd);
  }
}
