/**
 * The two question catalogs and the selectors that pick one by scenario.
 *
 * Weights are stored doubled (`weight2`), so the catalog's weights 1, 1.5 and 2 become the
 * integers 2, 3 and 4 and every score computation stays in exact arithmetic. Question texts,
 * option labels and dimension titles are opaque keys: the model only compares and looks them up.
 */
module Questions {
  import Text

  datatype Dimension = Lifestyle | Finance | Communication | Intimacy | Values {
    /** The string the code stores in `question.dimension`. */
    function Name(): string {
      match this
      case Lifestyle => "lifestyle"
      case Finance => "finance"
      case Communication => "communication"
      case Intimacy => "intimacy"
      case Values => "values"
    }
  }

  datatype Scenario = Couple | Friend {
    function Name(): string {
      match this
      case Couple => "couple"
      case Friend => "friend"
    }
  }

  /** The scenario used when a caller passes none. */
  const DefaultScenario: Scenario := Couple

  /** An option; `caption` is the option's label. */
  datatype AnswerOption = AnswerOption(value: int, caption: string)

  /** A question; `weight2` is twice the declared weight, and 0 stands for a missing weight. */
  datatype Question = Question(id: int, text: string, dimension: Dimension, weight2: nat, options: seq<AnswerOption>)

  datatype DimensionDetail = DimensionDetail(title: string, description: string)

  /** Twice `question.weight || 1`. */
  function Weight2(q: Question): (w: nat)
    ensures w > 0
    ensures q.weight2 > 0 ==> w == q.weight2
  {
    if q.weight2 == 0 then 2 else q.weight2
  }

  /** The opaque key standing for the text of question `id` of a catalog. */
  function TextKey(s: Scenario, id: nat): string {
    s.Name() + "." + Text.ShowNat(id)
  }

  /** The five options every question offers: values 1 to 5, each with its own label. */
  function FivePoint(text: string): (r: seq<AnswerOption>)
    ensures |r| == 5
    ensures forall k :: 0 <= k < 5 ==> r[k].value == k + 1
  {
    seq(5, k requires 0 <= k < 5 => AnswerOption(k + 1, text + "/" + [Text.Digit(k + 1)]))
  }

  function Ask(s: Scenario, id: nat, d: Dimension, weight2: nat): Question {
    Question(id, TextKey(s, id), d, weight2, FivePoint(TextKey(s, id)))
  }

  /** `count` consecutive couple questions of one dimension and weight, numbered from `first`. */
  function Block(first: nat, count: nat, d: Dimension, weight2: nat): (r: seq<Question>)
    ensures |r| == count
    ensures forall k :: 0 <= k < count ==> r[k] == Ask(Couple, first + k, d, weight2)
  {
    seq(count, k requires 0 <= k < count => Ask(Couple, first + k, d, weight2))
  }

  /** The couple catalog: five layers of 12, 10, 10, 8 and 10 questions with weights 1, 1.5, 1.5, 2, 2. */
  function CoupleQuestions(): seq<Question> {
    seq(50, i requires 0 <= i < 50 => Ask(Couple, i + 1, CoupleLayer(i + 1), CoupleWeight2(i + 1)))
  }

  /** The doubled weight of couple question `id`: 1 for lifestyle, 1.5 for finance and communication, 2 for the rest. */
  function CoupleWeight2(id: int): nat {
    match CoupleLayer(id)
    case Lifestyle => 2
    case Finance => 3
    case Communication => 3
    case _ => 4
  }

  /** The couple catalog is the five layers one after the other. */
  lemma CoupleBlocks()
    ensures CoupleQuestions() == Block(1, 12, Lifestyle, 2) + Block(13, 10, Finance, 3)
      + Block(23, 10, Communication, 3) + Block(33, 8, Intimacy, 4) + Block(41, 10, Values, 4)
  {
    var b1, b2, b3, b4, b5 := Block(1, 12, Lifestyle, 2), Block(13, 10, Finance, 3),
      Block(23, 10, Communication, 3), Block(33, 8, Intimacy, 4), Block(41, 10, Values, 4);
    var qs := CoupleQuestions();
    var bs := b1 + b2 + b3 + b4 + b5;
    forall i | 0 <= i < 50 ensures qs[i] == bs[i] {
      if i < 12 { assert bs[i] == b1[i]; }
      else if i < 22 { assert bs[i] == b2[i - 12]; }
      else if i < 32 { assert bs[i] == b3[i - 22]; }
      else if i < 40 { assert bs[i] == b4[i - 32]; }
      else { assert bs[i] == b5[i - 40]; }
    }
  }

  /** The friend catalog: eight questions with weights 1, 1.5, 1, 1, 2, 1.5, 1.5, 2. */
  function FriendQuestions(): seq<Question> {
    [ Ask(Friend, 1, Lifestyle, 2), Ask(Friend, 2, Finance, 3), Ask(Friend, 3, Communication, 2),
      Ask(Friend, 4, Lifestyle, 2), Ask(Friend, 5, Finance, 4), Ask(Friend, 6, Communication, 3),
      Ask(Friend, 7, Intimacy, 3), Ask(Friend, 8, Values, 4) ]
  }

  function Details(s: Scenario): map<Dimension, DimensionDetail> {
    map d: Dimension | true :: DimensionDetail(s.Name() + ".title." + d.Name(), s.Name() + ".description." + d.Name())
  }

  function CoupleDimensionDetails(): map<Dimension, DimensionDetail> { Details(Couple) }

  function FriendDimensionDetails(): map<Dimension, DimensionDetail> { Details(Friend) }

  /** `getQuestionsForScenario`. */
  function QuestionsFor(s: Scenario): (r: seq<Question>)
    ensures r == FriendQuestions() <==> s == Friend
    ensures r == CoupleQuestions() <==> s == Couple
  {
    CatalogSizes();
    if s == Friend then FriendQuestions() else CoupleQuestions()
  }

  /** `getDimensionDetailsForScenario`. */
  function DimensionDetailsFor(s: Scenario): (r: map<Dimension, DimensionDetail>)
    ensures r == FriendDimensionDetails() <==> s == Friend
    ensures r == CoupleDimensionDetails() <==> s == Couple
    ensures forall d: Dimension :: d in r
  {
    DetailsDiffer();
    if s == Friend then FriendDimensionDetails() else CoupleDimensionDetails()
  }

  lemma CatalogSizes()
    ensures |CoupleQuestions()| == 50
    ensures |FriendQuestions()| == 8
  {
  }

  lemma DetailsDiffer()
    ensures CoupleDimensionDetails() != FriendDimensionDetails()
  {
    var c := CoupleDimensionDetails()[Lifestyle].title;
    var f := FriendDimensionDetails()[Lifestyle].title;
    assert c[0] == 'c' && f[0] == 'f';
  }

  /** The layer a couple question id falls into. */
  function CoupleLayer(id: int): Dimension {
    if id <= 12 then Lifestyle
    else if id <= 22 then Finance
    else if id <= 32 then Communication
    else if id <= 40 then Intimacy
    else Values
  }

  /** Ids run 1..50, dimensions form contiguous layers, weights are 1 / 1.5 / 2 by id range. */
  lemma CoupleCatalogShape()
    ensures |CoupleQuestions()| == 50
    ensures forall i :: 0 <= i < 50 ==> CoupleQuestions()[i].id == i + 1
    ensures forall i :: 0 <= i < 50 ==> CoupleQuestions()[i].dimension == CoupleLayer(i + 1)
    ensures forall i :: 0 <= i < 50 ==>
      CoupleQuestions()[i].weight2 == (if i < 12 then 2 else if i < 32 then 3 else 4)
  {
  }

  /** Ids run 1..8; dimensions and weights are those of the friend catalog. */
  lemma FriendCatalogShape()
    ensures |FriendQuestions()| == 8
    ensures forall i :: 0 <= i < 8 ==> FriendQuestions()[i].id == i + 1
    ensures FriendWeights(FriendQuestions()) == [2, 3, 2, 2, 4, 3, 3, 4]
    ensures FriendDimensions(FriendQuestions())
      == [Lifestyle, Finance, Communication, Lifestyle, Finance, Communication, Intimacy, Values]
  {
  }

  function FriendWeights(qs: seq<Question>): seq<nat> {
    seq(|qs|, i requires 0 <= i < |qs| => qs[i].weight2)
  }

  function FriendDimensions(qs: seq<Question>): seq<Dimension> {
    seq(|qs|, i requires 0 <= i < |qs| => qs[i].dimension)
  }

  /** Each question's options: the values 1..5 in ascending order. */
  predicate FivePointScale(q: Question) {
    |q.options| == 5 && forall k :: 0 <= k < 5 ==> q.options[k].value == k + 1
  }

  /** `v` is the value of one of `q`'s options. */
  predicate IsOptionValue(q: Question, v: int) {
    exists k :: 0 <= k < |q.options| && q.options[k].value == v
  }

  /** In both catalogs every question uses the five-point scale, ids equal position + 1 and weights are positive. */
  lemma CatalogWellFormed(s: Scenario)
    ensures forall i :: 0 <= i < |QuestionsFor(s)| ==> FivePointScale(QuestionsFor(s)[i])
    ensures forall i :: 0 <= i < |QuestionsFor(s)| ==> QuestionsFor(s)[i].id == i + 1
    ensures forall i :: 0 <= i < |QuestionsFor(s)| ==> QuestionsFor(s)[i].weight2 > 0
  {
  }

  /** On the five-point scale the option values are exactly 1..5, so two of them differ by at most 4. */
  lemma OptionValues(q: Question, a: int, b: int)
    requires FivePointScale(q)
    ensures IsOptionValue(q, a) <==> 1 <= a <= 5
    ensures IsOptionValue(q, a) && IsOptionValue(q, b) ==> -4 <= a - b <= 4
  {
    if 1 <= a <= 5 {
      assert q.options[a - 1].value == a;
    }
  }

  /** Sum of doubled weights `question.weight || 1` over a catalog. */
  function SumWeight2(qs: seq<Question>): (r: nat)
    ensures qs != [] ==> r > 0
  {
    if qs == [] then 0 else Weight2(qs[0]) + SumWeight2(qs[1..])
  }

  lemma {:induction false} SumWeight2Append(a: seq<Question>, b: seq<Question>)
    ensures SumWeight2(a + b) == SumWeight2(a) + SumWeight2(b)
  {
    if a == [] {
      assert a + b == b;
    } else {
      assert (a + b)[1..] == a[1..] + b;
      SumWeight2Append(a[1..], b);
    }
  }

  lemma SumWeight2Block(first: nat, count: nat, d: Dimension, weight2: nat)
    requires weight2 > 0
    ensures SumWeight2(Block(first, count, d, weight2)) == count * weight2
  {
    var b := Block(first, count, d, weight2);
    assert forall k :: 0 <= k < |b| ==> b[k].weight2 == weight2;
    SumWeight2Uniform(b, weight2);
  }

  /** Questions that all carry the same positive weight sum to it once per question. */
  lemma {:induction false} SumWeight2Uniform(qs: seq<Question>, weight2: nat)
    requires weight2 > 0
    requires forall k :: 0 <= k < |qs| ==> qs[k].weight2 == weight2
    ensures SumWeight2(qs) == |qs| * weight2
  {
    if qs != [] {
      assert forall k :: 0 <= k < |qs| - 1 ==> qs[1..][k] == qs[k + 1];
      SumWeight2Uniform(qs[1..], weight2);
    }
  }

  /**
   * The couple weights sum to 78 (156 doubled), so the largest weighted difference 4·Σw is 312;
   * the friend weights sum to 11.5 (23 doubled), giving 46.
   */
  lemma CatalogWeightTotals()
    ensures SumWeight2(CoupleQuestions()) == 156
    ensures SumWeight2(FriendQuestions()) == 23
  {
    CoupleWeightTotal();
    FriendWeightTotal();
  }

  lemma CoupleWeightTotal()
    ensures SumWeight2(CoupleQuestions()) == 156
  {
    var b1, b2, b3, b4, b5 := Block(1, 12, Lifestyle, 2), Block(13, 10, Finance, 3),
      Block(23, 10, Communication, 3), Block(33, 8, Intimacy, 4), Block(41, 10, Values, 4);
    CoupleBlocks();
    SumWeight2Block(1, 12, Lifestyle, 2);
    SumWeight2Block(13, 10, Finance, 3);
    SumWeight2Block(23, 10, Communication, 3);
    SumWeight2Block(33, 8, Intimacy, 4);
    SumWeight2Block(41, 10, Values, 4);
    SumWeight2Append(b1, b2);
    SumWeight2Append(b1 + b2, b3);
    SumWeight2Append(b1 + b2 + b3, b4);
    SumWeight2Append(b1 + b2 + b3 + b4, b5);
  }

  lemma FriendWeightTotal()
    ensures SumWeight2(FriendQuestions()) == 23
  {
    var f := FriendQuestions();
    assert SumWeight2(f[7..]) == 4;
    assert SumWeight2(f[6..]) == 7;
    assert SumWeight2(f[5..]) == 10;
    assert SumWeight2(f[4..]) == 14;
    assert SumWeight2(f[3..]) == 16;
    assert SumWeight2(f[2..]) == 18;
    assert SumWeight2(f[1..]) == 21;
  }
}
