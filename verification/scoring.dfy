/**
 * The compatibility score (`calculateDistance`) and the comparison matrix (`generateAIContext`).
 *
 * Both always walk the 50-question couple catalog, whatever the profiles' `type`. Answers are
 * whatever the decoded profiles hold, so arithmetic follows JavaScript's number conversion and a
 * missing answer turns the score into NaN. Weights are doubled, which leaves the ratio
 * `total / max` unchanged; `Math.round` is round-half-up on the exact ratio.
 */
module Scoring {
  import opened Wrappers
  import opened Js
  import opened Questions
  import opened Codec

  /** A JavaScript number as the scorer can produce it: an integer or NaN. */
  datatype Num = Fin(n: int) | NaN

  /** `Number(v)` for the values an answer slot can hold; `None` is `undefined`. */
  function ToNumber(v: Option<Json>): (r: Num)
    ensures v == None ==> r == NaN
    ensures v.Some? && v.value.JNum? ==> r == Fin(v.value.n)
  {
    match v
    case None => NaN
    case Some(JNull) => Fin(0)
    case Some(JBool(b)) => Fin(if b then 1 else 0)
    case Some(JNum(n)) => Fin(n)
    case Some(_) => NaN
  }

  /** `profile.answers[i]`. */
  function AnswerAt(p: Profile, i: nat): Option<Json> {
    if i < |p.answers| then Some(p.answers[i]) else None
  }

  /** `Math.abs(a - b)`. */
  function AbsDiff(a: Num, b: Num): (r: Num)
    ensures r.Fin? <==> a.Fin? && b.Fin?
    ensures r.Fin? ==> r.n >= 0 && (r.n == a.n - b.n || r.n == b.n - a.n)
  {
    if a.NaN? || b.NaN? then NaN
    else if a.n >= b.n then Fin(a.n - b.n) else Fin(b.n - a.n)
  }

  /** The absolute difference of the two answers at position `i`. */
  function Diff(a: Profile, b: Profile, i: nat): Num {
    AbsDiff(ToNumber(AnswerAt(a, i)), ToNumber(AnswerAt(b, i)))
  }

  function Catalog(): seq<Question> { CoupleQuestions() }

  /** The weighted difference over the first `n` questions of `qs`; NaN as soon as one difference is NaN. */
  function Total(qs: seq<Question>, a: Profile, b: Profile, n: nat): (r: Num)
    requires n <= |qs|
  {
    if n == 0 then Fin(0)
    else
      var t := Total(qs, a, b, n - 1);
      var d := Diff(a, b, n - 1);
      if t.NaN? || d.NaN? then NaN else Fin(t.n + d.n * Weight2(qs[n - 1]))
  }

  /** The largest weighted difference over the first `n` questions of `qs`, `Σ 4·w`. */
  function MaxTotal(qs: seq<Question>, n: nat): (r: int)
    requires n <= |qs|
  {
    if n == 0 then 0 else MaxTotal(qs, n - 1) + 4 * Weight2(qs[n - 1])
  }

  /** `Math.round(num / den)` for a positive `den`: the integer nearest the ratio, halves rounded up. */
  function RoundRatio(num: int, den: int): (r: int)
    requires den > 0
    ensures den * (2 * r - 1) <= 2 * num < den * (2 * r + 1)
  {
    (2 * num + den) / (2 * den)
  }

  /** The score of `calculateDistance`: `round((1 - total / max) · 100)`, or NaN. */
  function Score(a: Profile, b: Profile): (r: Num)
    ensures r.Fin? <==> Total(Catalog(), a, b, 50).Fin?
  {
    MaxTotalCatalog();
    Percentage(Total(Catalog(), a, b, 50), MaxTotal(Catalog(), 50))
  }

  /** `Math.round((1 - total / max) · 100)` for a positive `max`; NaN stays NaN. */
  function Percentage(total: Num, max: int): (r: Num)
    requires max > 0
  {
    match total
    case NaN => NaN
    case Fin(t) => Fin(RoundRatio(100 * (max - t), max))
  }

  lemma {:induction false} MaxTotalIsSum(qs: seq<Question>, n: nat)
    requires n <= |qs|
    ensures MaxTotal(qs, n) == 4 * SumWeight2(qs[..n])
  {
    if n > 0 {
      MaxTotalIsSum(qs, n - 1);
      Snoc(qs, n);
      SumWeight2Append(qs[..n - 1], [qs[n - 1]]);
    }
  }

  lemma MaxTotalWhole(qs: seq<Question>)
    ensures MaxTotal(qs, |qs|) == 4 * SumWeight2(qs)
  {
    MaxTotalIsSum(qs, |qs|);
    assert qs[..|qs|] == qs;
  }

  lemma Snoc<T>(xs: seq<T>, n: nat)
    requires 0 < n <= |xs|
    ensures xs[..n] == xs[..n - 1] + [xs[n - 1]]
  {
  }

  /** Over the whole couple catalog the maximum is 4 · 78, doubled: 624. */
  lemma MaxTotalCatalog()
    ensures |Catalog()| == 50
    ensures MaxTotal(Catalog(), 50) == 624
  {
    CatalogSizes();
    MaxTotalWhole(Catalog());
    CatalogWeightTotals();
  }

  /** `calculateDistance`: the loop over the catalog, accumulating both sums. */
  method CalculateDistance(a: Profile, b: Profile) returns (score: Num)
    ensures score == Score(a, b)
  {
    MaxTotalCatalog();
    var total, max := Accumulate(Catalog(), a, b);
    if total.NaN? {
      score := NaN;
    } else {
      score := Fin(RoundRatio(100 * (max - total.n), max));
    }
    assert score == Percentage(total, max);
  }

  /** The loop of `calculateDistance` over the questions `qs`: the weighted difference and its largest possible value. */
  method Accumulate(qs: seq<Question>, a: Profile, b: Profile) returns (total: Num, max: int)
    ensures total == Total(qs, a, b, |qs|)
    ensures max == MaxTotal(qs, |qs|)
  {
    total := Fin(0);
    max := 0;
    var i := 0;
    while i < |qs|
      invariant 0 <= i <= |qs|
      invariant total == Total(qs, a, b, i)
      invariant max == MaxTotal(qs, i)
    {
      var w := Weight2(qs[i]);
      var d := Diff(a, b, i);
      total := if total.NaN? || d.NaN? then NaN else Fin(total.n + d.n * w);
      max := max + 4 * w;
      i := i + 1;
    }
  }

  /** The score does not depend on which profile is the host. */
  lemma {:induction false} TotalSymmetric(qs: seq<Question>, a: Profile, b: Profile, n: nat)
    requires n <= |qs|
    ensures Total(qs, a, b, n) == Total(qs, b, a, n)
  {
    if n > 0 {
      TotalSymmetric(qs, a, b, n - 1);
    }
  }

  lemma ScoreSymmetric(a: Profile, b: Profile)
    ensures Score(a, b) == Score(b, a)
  {
    MaxTotalCatalog();
    TotalSymmetric(Catalog(), a, b, 50);
  }

  /** Every answer among the first 50 is a number on the 1..5 scale. */
  ghost predicate InRange(p: Profile) {
    forall i :: 0 <= i < 50 ==> var v := ToNumber(AnswerAt(p, i)); v.Fin? && 1 <= v.n <= 5
  }

  lemma {:induction false} TotalBounds(qs: seq<Question>, a: Profile, b: Profile, n: nat)
    requires n <= |qs| && n <= 50 && InRange(a) && InRange(b)
    ensures Total(qs, a, b, n).Fin?
    ensures 0 <= Total(qs, a, b, n).n <= MaxTotal(qs, n)
  {
    if n > 0 {
      TotalBounds(qs, a, b, n - 1);
      var d := Diff(a, b, n - 1);
      assert d.Fin? && 0 <= d.n <= 4;
      WeightedStep(d.n, Weight2(qs[n - 1]));
    }
  }

  lemma WeightedStep(d: int, w: nat)
    requires 0 <= d <= 4
    ensures 0 <= d * w <= 4 * w
  {
  }

  /** With answers on the 1..5 scale the score is a finite number between 0 and 100. */
  lemma ScoreBounds(a: Profile, b: Profile)
    requires InRange(a) && InRange(b)
    ensures Score(a, b).Fin? && 0 <= Score(a, b).n <= 100
  {
    MaxTotalCatalog();
    TotalBounds(Catalog(), a, b, 50);
  }

  lemma {:induction false} TotalIdentical(qs: seq<Question>, a: Profile, b: Profile, n: nat)
    requires n <= |qs| && n <= 50 && InRange(a)
    requires forall i :: 0 <= i < 50 ==> ToNumber(AnswerAt(a, i)) == ToNumber(AnswerAt(b, i))
    ensures Total(qs, a, b, n) == Fin(0)
  {
    if n > 0 {
      TotalIdentical(qs, a, b, n - 1);
    }
  }

  /** Two profiles that answer every question alike score 100. */
  lemma ScoreIdentical(a: Profile, b: Profile)
    requires InRange(a)
    requires forall i :: 0 <= i < 50 ==> ToNumber(AnswerAt(a, i)) == ToNumber(AnswerAt(b, i))
    ensures Score(a, b) == Fin(100)
  {
    MaxTotalCatalog();
    TotalIdentical(Catalog(), a, b, 50);
  }

  lemma {:induction false} TotalOpposite(qs: seq<Question>, a: Profile, b: Profile, n: nat)
    requires n <= |qs| && n <= 50
    requires forall i :: 0 <= i < 50 ==> Diff(a, b, i) == Fin(4)
    ensures Total(qs, a, b, n) == Fin(MaxTotal(qs, n))
  {
    if n > 0 {
      TotalOpposite(qs, a, b, n - 1);
    }
  }

  /** Two profiles four points apart on every question score 0. */
  lemma ScoreOpposite(a: Profile, b: Profile)
    requires forall i :: 0 <= i < 50 ==> Diff(a, b, i) == Fin(4)
    ensures Score(a, b) == Fin(0)
  {
    MaxTotalCatalog();
    TotalOpposite(Catalog(), a, b, 50);
  }

  lemma {:induction false} TotalNaN(qs: seq<Question>, a: Profile, b: Profile, n: nat, k: nat)
    requires k < n <= |qs|
    requires Diff(a, b, k) == NaN
    ensures Total(qs, a, b, n) == NaN
  {
    if k < n - 1 {
      TotalNaN(qs, a, b, n - 1, k);
    }
  }

  /**
   * A profile with fewer than 50 answers, such as one made with the 8-question friend catalog,
   * leaves `answers[i]` undefined for the missing questions, and the score is NaN.
   */
  lemma ShortProfileScoresNaN(a: Profile, b: Profile)
    requires |a.answers| < 50
    ensures Score(a, b) == NaN
  {
    MaxTotalCatalog();
    TotalNaN(Catalog(), a, b, 50, |a.answers|);
  }

  // ---- The comparison matrix ----

  /** One row of the comparison matrix. */
  datatype Point = Point(
    id: int,
    dimension: string,
    question: string,
    answerA: Option<Json>,
    answerB: Option<Json>,
    labelA: string,
    labelB: string,
    difference: Num)

  /** `q.options.find(opt => opt.value === v)`: strict equality, so only a number can match. */
  function FindOption(options: seq<AnswerOption>, v: Option<Json>): (r: Option<AnswerOption>)
    ensures r.Some? ==> r.value in options && v == Some(JNum(r.value.value))
    ensures r.None? ==> forall k :: 0 <= k < |options| ==> v != Some(JNum(options[k].value))
  {
    if options == [] then None
    else if v == Some(JNum(options[0].value)) then Some(options[0])
    else FindOption(options[1..], v)
  }

  /** `option?.label || 'N/A'`. */
  function LabelFor(q: Question, v: Option<Json>): string {
    var o := FindOption(q.options, v);
    if o.Some? && o.value.caption != "" then o.value.caption else "N/A"
  }

  function PointFor(q: Question, a: Profile, b: Profile, i: nat): Point {
    Point(q.id, q.dimension.Name(), q.text, AnswerAt(a, i), AnswerAt(b, i),
          LabelFor(q, AnswerAt(a, i)), LabelFor(q, AnswerAt(b, i)), Diff(a, b, i))
  }

  /** The comparison matrix: one point per couple question, in catalog order. */
  function Matrix(a: Profile, b: Profile): (r: seq<Point>)
    ensures |r| == |Catalog()|
    ensures forall i :: 0 <= i < |r| ==> r[i] == PointFor(Catalog()[i], a, b, i)
  {
    seq(|Catalog()|, i requires 0 <= i < |Catalog()| => PointFor(Catalog()[i], a, b, i))
  }

  /** What `generateAIContext` returns. */
  datatype Context = Context(host: Profile, guest: Profile, matchScore: Num, matrix: seq<Point>)

  function MakeContext(a: Profile, b: Profile): (r: Context)
    ensures r.host == a && r.guest == b
    ensures |r.matrix| == 50
  {
    CatalogSizes();
    Context(a, b, Score(a, b), Matrix(a, b))
  }

  /**
   * Every point of the matrix carries its question's id (its position + 1) and dimension name and
   * the difference the score is built from; whatever the profile's type, there are 50 points.
   */
  lemma MatrixMatchesCatalog(a: Profile, b: Profile)
    ensures |Matrix(a, b)| == 50
    ensures forall i :: 0 <= i < 50 ==> Matrix(a, b)[i].id == i + 1
    ensures forall i :: 0 <= i < 50 ==> Matrix(a, b)[i].dimension == CoupleLayer(i + 1).Name()
    ensures forall i :: 0 <= i < 50 ==> Matrix(a, b)[i].difference == Diff(a, b, i)
  {
    CoupleCatalogShape();
  }

  lemma MatrixDifferences(a: Profile, b: Profile)
    ensures |Matrix(a, b)| == 50
    ensures forall i :: 0 <= i < 50 ==> Matrix(a, b)[i].difference == Diff(a, b, i)
  {
    CatalogSizes();
  }

  /** An answer that is an option value gets that option's label; anything else gets 'N/A'. */
  lemma LabelLookup(q: Question, v: Option<Json>)
    requires FivePointScale(q)
    requires forall k :: 0 <= k < 5 ==> q.options[k].caption != ""
    ensures (exists n :: 1 <= n <= 5 && v == Some(JNum(n))) ==> LabelFor(q, v) == q.options[v.value.n - 1].caption
    ensures !(exists n :: 1 <= n <= 5 && v == Some(JNum(n))) ==> LabelFor(q, v) == "N/A"
  {
    if v.Some? && v.value.JNum? && 1 <= v.value.n <= 5 {
      var n := v.value.n;
      var o := FindOption(q.options, v);
      assert v == Some(JNum(q.options[n - 1].value));
      assert o.Some?;
      var k :| 0 <= k < 5 && q.options[k] == o.value;
    }
  }

  /** The weighted sum of the matrix's differences, weighted by the questions of `qs`: the score is read off the matrix. */
  function MatrixTotal(qs: seq<Question>, m: seq<Point>, n: nat): (r: Num)
    requires n <= |m| && n <= |qs|
  {
    if n == 0 then Fin(0)
    else
      var t := MatrixTotal(qs, m, n - 1);
      var d := m[n - 1].difference;
      if t.NaN? || d.NaN? then NaN else Fin(t.n + d.n * Weight2(qs[n - 1]))
  }

  lemma {:induction false} MatrixTotalAgrees(qs: seq<Question>, m: seq<Point>, a: Profile, b: Profile, n: nat)
    requires n <= |m| && n <= |qs|
    requires forall i :: 0 <= i < n ==> m[i].difference == Diff(a, b, i)
    ensures MatrixTotal(qs, m, n) == Total(qs, a, b, n)
  {
    if n > 0 {
      MatrixTotalAgrees(qs, m, a, b, n - 1);
    }
  }

  /** The context's score is the rounded weighted distance recomputed from its own matrix. */
  lemma ContextConsistent(a: Profile, b: Profile)
    ensures var c := MakeContext(a, b);
      c.matchScore == Percentage(MatrixTotal(Catalog(), c.matrix, 50), 624)
  {
    MaxTotalCatalog();
    MatrixDifferences(a, b);
    MatrixTotalAgrees(Catalog(), Matrix(a, b), a, b, 50);
  }
}
