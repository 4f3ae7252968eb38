/**
 * The analysis prompt (`createAIPrompt`): the persona text with both names and the score, the
 * strengths and conflicts picked from the comparison matrix, three section headers and the
 * closing instructions on the report's structure.
 */
module Prompt {
  import opened Wrappers
  import opened Js
  import Text
  import opened Scoring

  /** The persona and the assignment, up to the first name. */
  const IntroOpening: string := IntroPersona + IntroTask
  const IntroPersona: string := "你是一位阅人无数的“资深情感观察员”，"
  const IntroTask: string := "擅长用最直白、接地气的大白话分析人际关系。你的任务是根据 "
  const IntroAnd: string := " 和 "
  /** The survey and the score's lead-in, between the second name and the score. */
  const IntroBeforeScore: string := IntroSurvey + IntroScore
  const IntroSurvey: string := " 两个人的50个维度问卷结果，"
  const IntroScore: string := "生成一份“一针见血”但又充满温度的相性分析报告。两人基础匹配度为 "
  /** The percent sign, the request and the four numbered rules, the last one naming both people. */
  const IntroAfterScore: string := IntroRequest + RulesHeading + RuleTalk + RulePoint + RuleFormat + RuleNames
  const IntroRequest: string := "%。请从三个维度（优势、雷区、长期建议）分析，并使用中文分点作答。"
  const RulesHeading: string := "\n\n请注意：\n"
  const RuleTalk: string := "1. **说人话**：不要用心理学术语，要像老朋友聊天一样自然。\n"
  const RulePoint: string := "2. **直击痛点**：不要模棱两可，好的坏的都要直接指出来。\n"
  const RuleFormat: string := "3. **结构清晰**：严格按照下方的格式输出。\n"
  const RuleNames: string := "4. **代入名字**：在分析中自然地提到 "
  const IntroClosing: string := " 的名字，不要只说“A”和“B”。"

  /** The three section headers, each preceded by a blank line in the prompt. */
  const StrengthsHeader: string := "--- 优势维度（Difference <= 1）：两人天然契合点 ---"
  const ConflictsHeader: string := "--- 核心雷区（Difference >= 3）：未来潜在的冲突爆发点 ---"
  const SummaryHeader: string := "--- 维度总结 ---"

  /** The four numbered structure lines that end every prompt. */
  const StructureLines: string :=
    "\n\n请根据上述数据和风格要求，生成报告的最终内容，报告应包含以下结构：\n"
    + "1. 核心结论（一句话总结，直指本质，不要废话）\n"
    + "2. 关键优势分析（列点阐述，说明这些默契在生活中意味着什么）\n"
    + "3. 潜在雷区预警（列点阐述，直接指出如果不注意会吵什么架）\n"
    + "4. 长期相处建议（给出马上能用的实操建议）\n"

  /** How a score is printed inside a template literal. */
  function ShowNum(x: Num): string {
    match x
    case Fin(n) => Text.ShowInt(n)
    case NaN => "NaN"
  }

  function Intro(nameA: string, nameB: string, score: string): string {
    IntroOpening + nameA + IntroAnd + nameB + IntroBeforeScore + score + IntroAfterScore
    + nameA + IntroAnd + nameB + IntroClosing
  }

  /** A difference of at most 1; NaN compares false. */
  predicate IsStrength(p: Point) {
    p.difference.Fin? && p.difference.n <= 1
  }

  /** A difference of at least 3; NaN compares false. */
  predicate IsConflict(p: Point) {
    p.difference.Fin? && p.difference.n >= 3
  }

  /** `m.filter(f)`. */
  function Select(m: seq<Point>, f: Point -> bool): (r: seq<Point>)
    ensures |r| <= |m|
    ensures forall k :: 0 <= k < |r| ==> f(r[k]) && r[k] in m
    ensures forall k :: 0 <= k < |m| && f(m[k]) ==> m[k] in r
  {
    if m == [] then [] else (if f(m[0]) then [m[0]] else []) + Select(m[1..], f)
  }

  /** Filtering keeps the matrix order: it distributes over concatenation. */
  lemma {:induction false} SelectAppend(a: seq<Point>, b: seq<Point>, f: Point -> bool)
    ensures Select(a + b, f) == Select(a, f) + Select(b, f)
  {
    if a == [] {
      assert a + b == b;
    } else {
      assert (a + b)[1..] == a[1..] + b;
      SelectAppend(a[1..], b, f);
    }
  }

  function Strengths(m: seq<Point>): seq<Point> { Select(m, IsStrength) }

  function Conflicts(m: seq<Point>): seq<Point> { Select(m, IsConflict) }

  /** No point is both a strength and a conflict, and a difference of 2 (or NaN) is neither. */
  lemma StrengthsConflictsDisjoint(m: seq<Point>)
    ensures forall k :: 0 <= k < |Strengths(m)| ==> Strengths(m)[k] !in Conflicts(m)
    ensures forall k :: 0 <= k < |m| && (m[k].difference == Fin(2) || m[k].difference == NaN) ==>
      m[k] !in Strengths(m) && m[k] !in Conflicts(m)
  {
  }

  /** `s.slice(0, 5)`. */
  function TakeFive(s: seq<Point>): (r: seq<Point>)
    ensures |r| == (if |s| < 5 then |s| else 5)
    ensures r == s[..|r|]
  {
    if |s| < 5 then s else s[..5]
  }

  /** One strength bullet, without the line break that precedes it in the prompt. */
  function StrengthItem(p: Point, nameA: string, nameB: string): string {
    "- [" + p.dimension + "]: Q." + Text.ShowInt(p.id) + " (" + p.question + ") 两人答案几乎一致，"
    + nameA + ": " + p.labelA + ", " + nameB + ": " + p.labelB + "。"
  }

  /** One conflict bullet, without the line break that precedes it in the prompt. */
  function ConflictItem(p: Point, nameA: string, nameB: string): string {
    "- [" + p.dimension + "]: Q." + Text.ShowInt(p.id) + " (" + p.question + ") 差异巨大 ("
    + nameA + ":" + p.labelA + " vs " + nameB + ":" + p.labelB + ")。这是硬性矛盾，需要深入关注。"
  }

  function StrengthItems(ps: seq<Point>, nameA: string, nameB: string): (r: seq<string>)
    ensures |r| == |ps|
    ensures forall k :: 0 <= k < |ps| ==> r[k] == StrengthItem(ps[k], nameA, nameB)
  {
    seq(|ps|, k requires 0 <= k < |ps| => StrengthItem(ps[k], nameA, nameB))
  }

  function ConflictItems(ps: seq<Point>, nameA: string, nameB: string): (r: seq<string>)
    ensures |r| == |ps|
    ensures forall k :: 0 <= k < |ps| ==> r[k] == ConflictItem(ps[k], nameA, nameB)
  {
    seq(|ps|, k requires 0 <= k < |ps| => ConflictItem(ps[k], nameA, nameB))
  }

  /** Each item on a line of its own: a line break, then the item. */
  function Lines(items: seq<string>): string {
    if items == [] then "" else "\n" + items[0] + Lines(items[1..])
  }

  function NameA(c: Context): string { StringOr(c.host.name, "A") }

  function NameB(c: Context): string { StringOr(c.guest.name, "B") }

  /** The listed strengths: the first five strength points as bullets. */
  function StrengthsList(c: Context): seq<string> {
    StrengthItems(TakeFive(Strengths(c.matrix)), NameA(c), NameB(c))
  }

  function ConflictsList(c: Context): seq<string> {
    ConflictItems(TakeFive(Conflicts(c.matrix)), NameA(c), NameB(c))
  }

  function StrengthsBlock(c: Context): string { Lines(StrengthsList(c)) }

  function ConflictsBlock(c: Context): string { Lines(ConflictsList(c)) }

  /** `createAIPrompt`. */
  function Build(c: Context): string {
    Intro(NameA(c), NameB(c), ShowNum(c.matchScore))
    + "\n\n" + StrengthsHeader + StrengthsBlock(c)
    + "\n\n" + ConflictsHeader + ConflictsBlock(c)
    + "\n\n" + SummaryHeader + StructureLines
  }

  /** Where the pieces of a five-part layout sit. */
  lemma Layout(p: string, pre: string, h1: string, s1: string, h2: string, s2: string, h3: string, tail: string)
    requires p == pre + h1 + s1 + h2 + s2 + h3 + tail
    ensures && Text.OccursAt(p, h1, |pre|)
      && Text.OccursAt(p, h2, |pre| + |h1| + |s1|)
      && Text.OccursAt(p, h3, |pre| + |h1| + |s1| + |h2| + |s2|)
      && p[|p| - |tail|..] == tail
  {
    var i := |pre|;
    var j := i + |h1| + |s1|;
    var k := j + |h2| + |s2|;
    assert p[i..i + |h1|] == h1;
    assert p[j..j + |h2|] == h2;
    assert p[k..k + |h3|] == h3;
  }

  lemma Regroup(a: string, n: string, h1: string, b1: string, h2: string, b2: string, h3: string, t: string)
    ensures a + n + h1 + b1 + n + h2 + b2 + n + h3 + t == (a + n) + h1 + (b1 + n) + h2 + (b2 + n) + h3 + t
  {
  }

  /**
   * The prompt holds the three headers in order and ends with the structure lines, whatever the
   * names and answers are.
   */
  lemma HeadersInOrder(c: Context)
    ensures exists i, j, k :: (i < j < k
      && Text.OccursAt(Build(c), StrengthsHeader, i)
      && Text.OccursAt(Build(c), ConflictsHeader, j)
      && Text.OccursAt(Build(c), SummaryHeader, k))
    ensures Build(c)[|Build(c)| - |StructureLines|..] == StructureLines
  {
    var pre := Intro(NameA(c), NameB(c), ShowNum(c.matchScore)) + "\n\n";
    var s1 := StrengthsBlock(c) + "\n\n";
    var s2 := ConflictsBlock(c) + "\n\n";
    Regroup(Intro(NameA(c), NameB(c), ShowNum(c.matchScore)), "\n\n", StrengthsHeader, StrengthsBlock(c),
      ConflictsHeader, ConflictsBlock(c), SummaryHeader, StructureLines);
    Layout(Build(c), pre, StrengthsHeader, s1, ConflictsHeader, s2, SummaryHeader, StructureLines);
    var i := |pre|;
    var j := |pre| + |StrengthsHeader| + |s1|;
    var k := j + |ConflictsHeader| + |s2|;
    assert |StrengthsHeader| > 0 && |ConflictsHeader| > 0;
    assert i < j < k;
  }

  /**
   * The listed strengths are the first at most five points with difference at most 1, in matrix
   * order, and the listed conflicts the first at most five with difference at least 3.
   */
  lemma ListedPoints(c: Context)
    ensures var s := TakeFive(Strengths(c.matrix));
      |s| <= 5 && (forall k :: 0 <= k < |s| ==> IsStrength(s[k]) && s[k] in c.matrix)
      && (|s| < 5 ==> forall k :: 0 <= k < |c.matrix| && IsStrength(c.matrix[k]) ==> c.matrix[k] in s)
    ensures var s := TakeFive(Conflicts(c.matrix));
      |s| <= 5 && (forall k :: 0 <= k < |s| ==> IsConflict(s[k]) && s[k] in c.matrix)
      && (|s| < 5 ==> forall k :: 0 <= k < |c.matrix| && IsConflict(c.matrix[k]) ==> c.matrix[k] in s)
  {
  }
}
