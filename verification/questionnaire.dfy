/**
 * The questionnaire form: one page per dimension, an answer vector in which 0 means
 * "unanswered", step validation before moving on, and the submit guard that hands a draft
 * profile to the encoder. Every handler is a pure transition on the form's state.
 */
module Questionnaire {
  import opened Wrappers
  import opened Questions
  import Text
  import Codec

  // ---------------------------------------------------------------------------------------------
  // Pages

  /** The order pages are shown in when their dimension has questions. */
  const PreferredOrder: seq<Dimension> := [Lifestyle, Finance, Communication, Intimacy, Values]

  /** A dimension's place in the preferred order. */
  function Rank(d: Dimension): (r: nat)
    ensures r < |PreferredOrder| && PreferredOrder[r] == d
  {
    match d
    case Lifestyle => 0
    case Finance => 1
    case Communication => 2
    case Intimacy => 3
    case Values => 4
  }

  /** The dimensions the catalog's questions use. */
  function DimensionsOf(qs: seq<Question>): set<Dimension> {
    set i | 0 <= i < |qs| :: qs[i].dimension
  }

  /** `order` restricted to the dimensions in `present`. */
  function Keep(order: seq<Dimension>, present: set<Dimension>): (r: seq<Dimension>)
    ensures forall d :: d in r <==> d in order && d in present
    ensures |r| <= |order|
  {
    if order == [] then []
    else
      var rest := Keep(order[1..], present);
      if order[0] in present then [order[0]] + rest else rest
  }

  /** `dimensionOrder`: the preferred order filtered to the dimensions present. */
  function DimensionOrder(qs: seq<Question>): (r: seq<Dimension>)
  {
    Keep(PreferredOrder, DimensionsOf(qs))
  }

  /** Position `i` of the preferred order comes before position `j` exactly when `i < j`. */
  predicate Ascending(r: seq<Dimension>) {
    forall i, j :: 0 <= i < j < |r| ==> Rank(r[i]) < Rank(r[j])
  }

  lemma {:induction false} KeepAscending(order: seq<Dimension>, present: set<Dimension>)
    requires Ascending(order)
    ensures Ascending(Keep(order, present))
  {
    if order != [] {
      var rest := Keep(order[1..], present);
      AscendingTail(order);
      KeepAscending(order[1..], present);
      if order[0] in present {
        AscendingCons(order[0], rest);
      }
    }
  }

  /** The tail of an ascending order is ascending, and ranks above its head. */
  lemma AscendingTail(order: seq<Dimension>)
    requires Ascending(order) && order != []
    ensures Ascending(order[1..])
    ensures forall d :: d in order[1..] ==> Rank(order[0]) < Rank(d)
  {
    forall i, j | 0 <= i < j < |order[1..]| ensures Rank(order[1..][i]) < Rank(order[1..][j]) {
      assert order[1..][i] == order[i + 1] && order[1..][j] == order[j + 1];
    }
    forall d | d in order[1..] ensures Rank(order[0]) < Rank(d) {
      var k :| 0 <= k < |order[1..]| && order[1..][k] == d;
      assert order[1..][k] == order[k + 1];
    }
  }

  /** A dimension ranked below every member of an ascending order can go in front of it. */
  lemma AscendingCons(x: Dimension, rest: seq<Dimension>)
    requires Ascending(rest)
    requires forall d :: d in rest ==> Rank(x) < Rank(d)
    ensures Ascending([x] + rest)
  {
    var r := [x] + rest;
    forall i, j | 0 <= i < j < |r| ensures Rank(r[i]) < Rank(r[j]) {
      assert r[j] == rest[j - 1];
      if i > 0 {
        assert r[i] == rest[i - 1];
      } else {
        assert r[j] in rest;
      }
    }
  }

  /**
   * The pages are exactly the dimensions that have questions, each once, in the preferred order:
   * the two facts determine `dimensionOrder` completely.
   */
  lemma DimensionOrderSpec(qs: seq<Question>)
    ensures forall d :: d in DimensionOrder(qs) <==> exists i :: 0 <= i < |qs| && qs[i].dimension == d
    ensures Ascending(DimensionOrder(qs))
    ensures qs != [] ==> DimensionOrder(qs) != []
  {
    var present := DimensionsOf(qs);
    forall d ensures d in DimensionOrder(qs) <==> exists i :: 0 <= i < |qs| && qs[i].dimension == d {
      InPreferred(d);
      PresentMeans(qs, d);
    }
    PreferredAscending();
    KeepAscending(PreferredOrder, present);
    if qs != [] {
      InPreferred(qs[0].dimension);
      PresentMeans(qs, qs[0].dimension);
    }
  }

  lemma InPreferred(d: Dimension)
    ensures d in PreferredOrder
  {
    assert PreferredOrder[Rank(d)] == d;
  }

  lemma PresentMeans(qs: seq<Question>, d: Dimension)
    ensures d in DimensionsOf(qs) <==> exists i :: 0 <= i < |qs| && qs[i].dimension == d
  {
    if exists i :: 0 <= i < |qs| && qs[i].dimension == d {
      var i :| 0 <= i < |qs| && qs[i].dimension == d;
      assert qs[i].dimension in DimensionsOf(qs);
    }
  }

  lemma PreferredAscending()
    ensures Ascending(PreferredOrder)
  {
    forall i | 0 <= i < 5 ensures Rank(PreferredOrder[i]) == i {
    }
  }


  /** Both catalogs use all five dimensions, so both are shown in five pages in the preferred order. */
  lemma CatalogPages(s: Scenario)
    ensures DimensionOrder(QuestionsFor(s)) == PreferredOrder
  {
    var qs := QuestionsFor(s);
    if s == Couple {
      CouplePages();
      AllPresent(qs, 0, 12, 22, 32, 40);
    } else {
      FriendCatalogShape();
      assert FriendDimensions(qs)[6] == qs[6].dimension;
      assert FriendDimensions(qs)[7] == qs[7].dimension;
      AllPresent(qs, 0, 1, 2, 6, 7);
    }
    KeepAll(PreferredOrder, DimensionsOf(qs));
  }

  lemma CouplePages()
    ensures var qs := CoupleQuestions();
      |qs| == 50 && qs[0].dimension == Lifestyle && qs[12].dimension == Finance && qs[22].dimension == Communication
      && qs[32].dimension == Intimacy && qs[40].dimension == Values
  {
  }

  /** A catalog with a question of each dimension uses all five. */
  lemma AllPresent(qs: seq<Question>, l: int, f: int, c: int, i: int, v: int)
    requires 0 <= l < |qs| && 0 <= f < |qs| && 0 <= c < |qs| && 0 <= i < |qs| && 0 <= v < |qs|
    requires qs[l].dimension == Lifestyle && qs[f].dimension == Finance && qs[c].dimension == Communication
    requires qs[i].dimension == Intimacy && qs[v].dimension == Values
    ensures forall d :: d in DimensionsOf(qs)
  {
    forall d ensures d in DimensionsOf(qs) {
      match d
      case Lifestyle => assert qs[l].dimension in DimensionsOf(qs);
      case Finance => assert qs[f].dimension in DimensionsOf(qs);
      case Communication => assert qs[c].dimension in DimensionsOf(qs);
      case Intimacy => assert qs[i].dimension in DimensionsOf(qs);
      case Values => assert qs[v].dimension in DimensionsOf(qs);
    }
  }

  lemma {:induction false} KeepAll(order: seq<Dimension>, present: set<Dimension>)
    requires forall d :: d in present
    ensures Keep(order, present) == order
  {
    if order != [] {
      KeepAll(order[1..], present);
      assert [order[0]] + order[1..] == order;
    }
  }

  // ---------------------------------------------------------------------------------------------
  // The form's state

  /**
   * `answers[i]` is the answer to `qs[i]` (0 when unanswered), `page` the current dimension's
   * index in the page order, `error` the message shown, and `askingName` whether the name
   * prompt is still in front of the questions.
   */
  datatype Form = Form(answers: seq<int>, page: int, error: Option<string>, name: string, askingName: bool)

  /** The form as first rendered: nothing answered, first page, name prompt showing. */
  function Start(qs: seq<Question>): (f: Form)
    ensures |f.answers| == |qs| && forall i :: 0 <= i < |qs| ==> f.answers[i] == 0
  {
    Form(seq(|qs|, _ => 0), 0, None, "", true)
  }

  /** `findIndex` over the question ids: the first position holding `id`, or -1. */
  function FindIndex(qs: seq<Question>, id: int): (r: int)
    ensures -1 <= r < |qs|
    ensures r >= 0 ==> qs[r].id == id && forall j :: 0 <= j < r ==> qs[j].id != id
    ensures r == -1 <==> forall j :: 0 <= j < |qs| ==> qs[j].id != id
  {
    if qs == [] then -1
    else if qs[0].id == id then 0
    else
      var k := FindIndex(qs[1..], id);
      assert forall j :: 1 <= j < |qs| ==> qs[j] == qs[1..][j - 1];
      if k == -1 then -1 else k + 1
  }

  /** No two questions share an id. */
  predicate UniqueIds(qs: seq<Question>) {
    forall i, j :: 0 <= i < j < |qs| ==> qs[i].id != qs[j].id
  }

  lemma FindOwnIndex(qs: seq<Question>, i: int)
    requires UniqueIds(qs) && 0 <= i < |qs|
    ensures FindIndex(qs, qs[i].id) == i
  {
  }

  /** Ids are positions plus one in both catalogs, so they are unique. */
  lemma CatalogIdsUnique(s: Scenario)
    ensures UniqueIds(QuestionsFor(s))
  {
    CatalogWellFormed(s);
  }

  /**
   * `handleOptionSelect`: set the answer of the question with `id`, and clear the error. The
   * answer vector is sized once, by the catalog of the first render, so it may be longer than the
   * catalog in use (see `CreateFlow.MountedForm`), but never shorter: the program only ever
   * switches from the fifty couple questions to the eight friend ones.
   */
  function Select(f: Form, qs: seq<Question>, id: int, value: int): Form
    requires |qs| <= |f.answers|
  {
    var index := FindIndex(qs, id);
    if index == -1 then f
    else f.(answers := f.answers[index := value], error := None)
  }

  /** The name box: `setName` on every edit, and the start button once the trimmed name is not empty. */
  function EditName(f: Form, name: string): Form {
    f.(name := name)
  }

  function SubmitName(f: Form): (g: Form)
  {
    if Text.Trim(f.name) != "" then f.(askingName := false) else f
  }

  // ---------------------------------------------------------------------------------------------
  // Validation

  /** The questions of dimension `d`, in catalog order. */
  function PageQuestions(qs: seq<Question>, d: Dimension): (r: seq<Question>)
    ensures forall q :: q in r <==> q in qs && q.dimension == d
  {
    if qs == [] then []
    else
      var rest := PageQuestions(qs[1..], d);
      if qs[0].dimension == d then [qs[0]] + rest else rest
  }

  /** The questions on the current page; none when the page index is outside the page order. */
  function CurrentQuestions(qs: seq<Question>, page: int): seq<Question> {
    var dims := DimensionOrder(qs);
    if 0 <= page < |dims| then PageQuestions(qs, dims[page]) else []
  }

  /** The answer recorded for the question with `id` is 0. */
  predicate Unset(qs: seq<Question>, answers: seq<int>, id: int) {
    var index := FindIndex(qs, id);
    0 <= index < |answers| && answers[index] == 0
  }

  /** How many of `page` are unanswered. */
  function PendingIn(page: seq<Question>, qs: seq<Question>, answers: seq<int>): (n: nat)
    ensures n == 0 <==> forall k :: 0 <= k < |page| ==> !Unset(qs, answers, page[k].id)
  {
    if page == [] then 0
    else
      var rest := PendingIn(page[1..], qs, answers);
      assert forall k :: 1 <= k < |page| ==> page[k] == page[1..][k - 1];
      (if Unset(qs, answers, page[0].id) then 1 else 0) + rest
  }

  /** The message for `n` unanswered questions on the page. */
  function PendingMessage(n: nat): string {
    "本页还有 " + Text.ShowNat(n) + " 道题未完成，请回答所有问题后再继续。"
  }

  const IncompleteMessage := "还有未完成的题目，请检查。"

  /** `validateCurrentStep`: the count of unanswered questions on the page, with the error it sets. */
  function Validate(f: Form, qs: seq<Question>): (r: (bool, Form))
    ensures r.0 ==> r.1 == f
    ensures !r.0 ==> r.1.error.Some? && r.1 == f.(error := r.1.error)
  {
    var n := PendingIn(CurrentQuestions(qs, f.page), qs, f.answers);
    if n > 0 then (false, f.(error := Some(PendingMessage(n)))) else (true, f)
  }

  /**
   * The page may be left exactly when every question of its dimension has a non-zero answer. A
   * question past the end of the answers reads `undefined`, which is not 0, so it counts as answered.
   */
  lemma ValidateMeans(f: Form, qs: seq<Question>)
    requires UniqueIds(qs)
    requires 0 <= f.page < |DimensionOrder(qs)|
    ensures Validate(f, qs).0 <==>
      forall i :: 0 <= i < |qs| && i < |f.answers| && qs[i].dimension == DimensionOrder(qs)[f.page] ==> f.answers[i] != 0
  {
    PageAnswered(qs, f.answers, DimensionOrder(qs)[f.page]);
  }

  /** A dimension's page has nothing pending exactly when each of its questions has a non-zero answer. */
  lemma PageAnswered(qs: seq<Question>, answers: seq<int>, d: Dimension)
    requires UniqueIds(qs)
    ensures PendingIn(PageQuestions(qs, d), qs, answers) == 0 <==>
      forall i :: 0 <= i < |qs| && i < |answers| && qs[i].dimension == d ==> answers[i] != 0
  {
    var page := PageQuestions(qs, d);
    if PendingIn(page, qs, answers) == 0 {
      forall i | 0 <= i < |qs| && i < |answers| && qs[i].dimension == d ensures answers[i] != 0 {
        assert qs[i] in page;
        var k :| 0 <= k < |page| && page[k] == qs[i];
        assert !Unset(qs, answers, page[k].id);
        FindOwnIndex(qs, i);
      }
    } else {
      var k :| 0 <= k < |page| && Unset(qs, answers, page[k].id);
      assert page[k] in qs;
      var i :| 0 <= i < |qs| && qs[i] == page[k];
      FindOwnIndex(qs, i);
      assert qs[i].dimension == d && answers[i] == 0;
    }
  }


  // ---------------------------------------------------------------------------------------------
  // Navigation and submission

  datatype Button = Prev | Next | Finish

  /** The buttons that can be pressed: Prev is disabled on the first page, and Next and Finish share a slot. */
  predicate Enabled(f: Form, qs: seq<Question>, b: Button) {
    match b
    case Prev => f.page != 0
    case Next => f.page < |DimensionOrder(qs)| - 1
    case Finish => !(f.page < |DimensionOrder(qs)| - 1)
  }

  /** The name shown in the profile: the trimmed name, or the anonymous one when that is empty. */
  function DisplayName(name: string): (r: string)
    ensures r != ""
    ensures Text.Trim(name) != "" ==> r == Text.Trim(name)
  {
    var t := Text.Trim(name);
    if t != "" then t else "神秘人"
  }

  /** `handleSubmit`: the draft handed to the encoder, when every question is answered. */
  function Submit(f: Form, qs: seq<Question>, scenario: Scenario): (r: (Form, Option<Codec.Draft>))
  {
    var (ok, g) := Validate(f, qs);
    if !ok then (g, None)
    else if 0 in f.answers then (f.(error := Some(IncompleteMessage)), None)
    else (f, Some(Codec.Draft(1, Some(DisplayName(f.name)), Some(scenario), f.answers)))
  }

  /** A button press; a disabled button does nothing. */
  function Press(f: Form, qs: seq<Question>, scenario: Scenario, b: Button): (r: (Form, Option<Codec.Draft>))
  {
    if !Enabled(f, qs, b) then (f, None)
    else
      match b
      case Prev => (f.(page := f.page - 1), None)
      case Next =>
        var (ok, g) := Validate(f, qs);
        (if ok then g.(page := g.page + 1) else g, None)
      case Finish => Submit(f, qs, scenario)
  }

  /**
   * Submission hands over a draft exactly when no answer is 0, and the draft carries version 1,
   * the scenario, the answers unchanged and the display name.
   */
  lemma SubmitGuard(f: Form, qs: seq<Question>, scenario: Scenario)
    ensures Submit(f, qs, scenario).1.Some? <==> 0 !in f.answers
    ensures Submit(f, qs, scenario).1.Some? ==>
      Submit(f, qs, scenario).1 == Some(Codec.Draft(1, Some(DisplayName(f.name)), Some(scenario), f.answers))
    ensures Submit(f, qs, scenario).1.None? ==> Submit(f, qs, scenario).0.error.Some?
  {
    if 0 !in f.answers {
      var page := CurrentQuestions(qs, f.page);
      forall k | 0 <= k < |page| ensures !Unset(qs, f.answers, page[k].id) {
        var index := FindIndex(qs, page[k].id);
        if 0 <= index < |f.answers| {
          assert f.answers[index] in f.answers;
        }
      }
    }
  }

  // ---------------------------------------------------------------------------------------------
  // The invariant the handlers keep

  /** Every non-zero answer to a question of the catalog is a value of one of that question's options. */
  predicate AnswersFit(answers: seq<int>, qs: seq<Question>)
    requires |qs| <= |answers|
  {
    forall i :: 0 <= i < |qs| ==> answers[i] == 0 || IsOptionValue(qs[i], answers[i])
  }

  /** The answers past the catalog's end are still the zeros they started as. */
  predicate TailUnset(answers: seq<int>, qs: seq<Question>) {
    && |qs| <= |answers|
    && forall i :: |qs| <= i < |answers| ==> answers[i] == 0
  }

  /**
   * The state any sequence of handlers leaves: at least one answer per question, those that fit
   * the catalog's options and the rest unset, and a valid page.
   */
  predicate Good(f: Form, qs: seq<Question>) {
    && TailUnset(f.answers, qs)
    && AnswersFit(f.answers, qs)
    && 0 <= f.page < |DimensionOrder(qs)|
  }

  /**
   * Both forms the program starts from are good for either catalog: the one sized by the catalog
   * in use, and the one sized by the couple catalog, which the create page keeps when its scenario
   * turns to friend.
   */
  lemma StartGood(s: Scenario)
    ensures Good(Start(QuestionsFor(s)), QuestionsFor(s))
    ensures Good(Start(CoupleQuestions()), QuestionsFor(s))
  {
    CatalogPages(s);
    CatalogSizes();
  }

  /** Clicking an option of question `k` records that option's value at `k` and keeps the form good. */
  lemma SelectGood(f: Form, qs: seq<Question>, k: int, o: int)
    requires Good(f, qs) && UniqueIds(qs)
    requires 0 <= k < |qs| && 0 <= o < |qs[k].options|
    ensures var g := Select(f, qs, qs[k].id, qs[k].options[o].value);
      && Good(g, qs)
      && g.answers == f.answers[k := qs[k].options[o].value]
      && g.error.None?
  {
    FindOwnIndex(qs, k);
  }

  /** A press keeps the form good: the page index never leaves the page order. */
  lemma PressGood(f: Form, qs: seq<Question>, scenario: Scenario, b: Button)
    requires Good(f, qs)
    ensures Good(Press(f, qs, scenario, b).0, qs)
  {
  }

  /** An unknown id changes nothing; a known one changes one answer and clears the error. */
  lemma SelectEffect(f: Form, qs: seq<Question>, id: int, value: int)
    requires |qs| <= |f.answers|
    ensures (forall j :: 0 <= j < |qs| ==> qs[j].id != id) ==> Select(f, qs, id, value) == f
    ensures var g := Select(f, qs, id, value);
      && |g.answers| == |f.answers|
      && g.page == f.page && g.name == f.name && g.askingName == f.askingName
      && (forall i :: 0 <= i < |qs| ==>
           g.answers[i] == (if qs[i].id == id && (forall j :: 0 <= j < i ==> qs[j].id != id) then value else f.answers[i]))
      && forall i :: |qs| <= i < |f.answers| ==> g.answers[i] == f.answers[i]
  {
  }

  /** What a good form submits for a catalog lies on the five-point scale. */
  lemma SubmittedInRange(f: Form, s: Scenario)
    requires Good(f, QuestionsFor(s))
    ensures var d := Submit(f, QuestionsFor(s), s).1;
      d.Some? ==> |d.value.answers| == |QuestionsFor(s)| && forall i :: 0 <= i < |d.value.answers| ==> 1 <= d.value.answers[i] <= 5
  {
    var qs := QuestionsFor(s);
    SubmitGuard(f, qs, s);
    CatalogWellFormed(s);
    TailForcesLength(f.answers, qs);
    if 0 !in f.answers {
      forall i | 0 <= i < |qs| ensures 1 <= f.answers[i] <= 5 {
        assert f.answers[i] in f.answers;
        OptionValues(qs[i], f.answers[i], f.answers[i]);
      }
    }
  }

  // ---------------------------------------------------------------------------------------------
  // Sessions: the user's events in order

  /**
   * What the user can do: edit the name box, press its start button (or Enter), click an option
   * (which calls `handleOptionSelect` with the question's id and the option's value), and press
   * a navigation button.
   */
  datatype Event = Type(text: string) | Begin | Choose(id: int, value: int) | Click(b: Button)

  /** One event. The name box exists only while the name is asked for, the options and buttons only after. */
  function Apply(f: Form, qs: seq<Question>, scenario: Scenario, e: Event): (r: (Form, Option<Codec.Draft>))
    requires |qs| <= |f.answers|
    ensures |r.0.answers| == |f.answers|
    ensures r.1.Some? ==> e == Click(Finish) && !f.askingName && 0 !in f.answers
  {
    match e
    case Type(n) => (if f.askingName then EditName(f, n) else f, None)
    case Begin => (if f.askingName then SubmitName(f) else f, None)
    case Choose(id, v) => (if f.askingName then f else Select(f, qs, id, v), None)
    case Click(b) => if f.askingName then (f, None) else Press(f, qs, scenario, b)
  }

  /** A session: the form after the events, and every draft handed to `onComplete`, in order. */
  function Run(f: Form, qs: seq<Question>, scenario: Scenario, es: seq<Event>): (r: (Form, seq<Codec.Draft>))
    requires |qs| <= |f.answers|
    ensures |r.0.answers| == |f.answers|
    ensures |r.1| <= |es|
    decreases |es|
  {
    if es == [] then (f, [])
    else
      var (g, d) := Apply(f, qs, scenario, es[0]);
      var (h, ds) := Run(g, qs, scenario, es[1..]);
      (h, (if d.Some? then [d.value] else []) + ds)
  }

  /** Running two sessions one after the other is running their concatenation. */
  lemma {:induction false} RunAppend(f: Form, qs: seq<Question>, scenario: Scenario, a: seq<Event>, b: seq<Event>)
    requires |qs| <= |f.answers|
    ensures var (g, ds) := Run(f, qs, scenario, a);
      Run(f, qs, scenario, a + b) == (Run(g, qs, scenario, b).0, ds + Run(g, qs, scenario, b).1)
    decreases |a|
  {
    if a == [] {
      assert a + b == b;
      var none: seq<Codec.Draft> := [];
      assert none + Run(f, qs, scenario, b).1 == Run(f, qs, scenario, b).1;
    } else {
      var (g, d) := Apply(f, qs, scenario, a[0]);
      var first: seq<Codec.Draft> := if d.Some? then [d.value] else [];
      RunAppend(g, qs, scenario, a[1..], b);
      assert (a + b)[0] == a[0];
      assert (a + b)[1..] == a[1..] + b;
      var (h, ds) := Run(g, qs, scenario, a[1..]);
      var rest := Run(h, qs, scenario, b).1;
      assert first + (ds + rest) == (first + ds) + rest;
    }
  }

  /** No event writes an answer past the catalog's end. */
  lemma ApplyKeepsTail(f: Form, qs: seq<Question>, scenario: Scenario, e: Event)
    requires TailUnset(f.answers, qs)
    ensures TailUnset(Apply(f, qs, scenario, e).0.answers, qs)
  {
    if e.Choose? && !f.askingName {
      SelectEffect(f, qs, e.id, e.value);
    }
  }

  /**
   * A form with more answers than its catalog has questions never hands over a draft, whatever
   * the user does: the answers past the end stay 0, and submission refuses any 0.
   */
  lemma {:induction false} LongFormNeverSubmits(f: Form, qs: seq<Question>, scenario: Scenario, es: seq<Event>)
    requires TailUnset(f.answers, qs) && |qs| < |f.answers|
    ensures Run(f, qs, scenario, es).1 == []
    ensures TailUnset(Run(f, qs, scenario, es).0.answers, qs)
    decreases |es|
  {
    if es != [] {
      var (g, d) := Apply(f, qs, scenario, es[0]);
      assert f.answers[|qs|] == 0;
      ApplyKeepsTail(f, qs, scenario, es[0]);
      LongFormNeverSubmits(g, qs, scenario, es[1..]);
    }
  }

  /** Every question has an option, and the first option's value is not the "unanswered" 0. */
  predicate Answerable(qs: seq<Question>) {
    forall i :: 0 <= i < |qs| ==> qs[i].options != [] && qs[i].options[0].value != 0
  }

  /** Clicking the first option of every question from `k` on, in catalog order. */
  function FillFrom(qs: seq<Question>, k: nat): (es: seq<Event>)
    requires Answerable(qs)
    decreases |qs| - k
  {
    if k >= |qs| then [] else [Choose(qs[k].id, qs[k].options[0].value)] + FillFrom(qs, k + 1)
  }

  /** `n` presses of Next. */
  function Nexts(n: nat): (es: seq<Event>)
    ensures |es| == n && forall i :: 0 <= i < n ==> es[i] == Click(Next)
  {
    if n == 0 then [] else [Click(Next)] + Nexts(n - 1)
  }

  /** The whole session of a user who types a name, answers every question with its first option, and walks to the end. */
  function Completion(qs: seq<Question>, name: string): seq<Event>
    requires Answerable(qs)
  {
    [Type(name), Begin] + FillFrom(qs, 0) + Nexts(LastPage(qs)) + [Click(Finish)]
  }

  /** The index of the last page (0 for a catalog without pages). */
  function LastPage(qs: seq<Question>): nat {
    if DimensionOrder(qs) == [] then 0 else |DimensionOrder(qs)| - 1
  }

  /** Filling from `k` writes each remaining question's first option and changes nothing else. */
  lemma {:induction false} FillRun(f: Form, qs: seq<Question>, scenario: Scenario, k: nat)
    requires UniqueIds(qs) && Answerable(qs)
    requires !f.askingName && |qs| <= |f.answers| && k <= |qs|
    ensures var r := Run(f, qs, scenario, FillFrom(qs, k));
      && r.1 == []
      && r.0.page == f.page && r.0.name == f.name && !r.0.askingName
      && forall i :: 0 <= i < |f.answers| ==>
           r.0.answers[i] == (if k <= i < |qs| then qs[i].options[0].value else f.answers[i])
    decreases |qs| - k
  {
    if k < |qs| {
      var e := Choose(qs[k].id, qs[k].options[0].value);
      var g := Select(f, qs, qs[k].id, qs[k].options[0].value);
      assert Apply(f, qs, scenario, e) == (g, None);
      FindOwnIndex(qs, k);
      SelectEffect(f, qs, qs[k].id, qs[k].options[0].value);
      FillRun(g, qs, scenario, k + 1);
      assert FillFrom(qs, k) == [e] + FillFrom(qs, k + 1);
      RunQuiet(f, qs, scenario, e, FillFrom(qs, k + 1));
      var r := Run(g, qs, scenario, FillFrom(qs, k + 1));
      assert Run(f, qs, scenario, FillFrom(qs, k)) == r;
      forall i | 0 <= i < |f.answers|
        ensures r.0.answers[i] == (if k <= i < |qs| then qs[i].options[0].value else f.answers[i])
      {
        if i < |qs| && i != k {
          assert g.answers[i] == f.answers[i];
        }
      }
    }
  }

  /** With every question answered, validation passes and changes nothing. */
  lemma ValidWhenAnswered(f: Form, qs: seq<Question>)
    requires |qs| <= |f.answers| && forall i :: 0 <= i < |qs| ==> f.answers[i] != 0
    ensures Validate(f, qs) == (true, f)
  {
    var page := CurrentQuestions(qs, f.page);
    forall k | 0 <= k < |page| ensures !Unset(qs, f.answers, page[k].id) {
    }
  }

  /** With every question answered, `n` presses of Next move `n` pages on, up to the last page. */
  lemma {:induction false} NextsRun(f: Form, qs: seq<Question>, scenario: Scenario, n: nat)
    requires !f.askingName && |qs| <= |f.answers| && forall i :: 0 <= i < |qs| ==> f.answers[i] != 0
    requires 0 <= f.page && f.page + n <= |DimensionOrder(qs)| - 1
    ensures Run(f, qs, scenario, Nexts(n)) == (f.(page := f.page + n), [])
    decreases n
  {
    if n == 0 {
      assert Nexts(n) == [];
    } else {
      var g := f.(page := f.page + 1);
      NextsRun(g, qs, scenario, n - 1);
      NextThenRest(f, qs, scenario, Nexts(n - 1));
      calc {
        Run(f, qs, scenario, Nexts(n));
        { assert Nexts(n) == [Click(Next)] + Nexts(n - 1); }
        Run(f, qs, scenario, [Click(Next)] + Nexts(n - 1));
        Run(g, qs, scenario, Nexts(n - 1));
        (g.(page := g.page + (n - 1)), []);
        { assert g.(page := g.page + (n - 1)) == f.(page := f.page + n); }
        (f.(page := f.page + n), []);
      }
    }
  }

  /** An event that hands over nothing leaves the rest of the session to the form it produced. */
  lemma RunQuiet(f: Form, qs: seq<Question>, scenario: Scenario, e: Event, rest: seq<Event>)
    requires |qs| <= |f.answers| && Apply(f, qs, scenario, e).1.None?
    ensures Run(f, qs, scenario, [e] + rest) == Run(Apply(f, qs, scenario, e).0, qs, scenario, rest)
  {
    assert ([e] + rest)[0] == e && ([e] + rest)[1..] == rest;
    var none: seq<Codec.Draft> := [];
    assert none + Run(Apply(f, qs, scenario, e).0, qs, scenario, rest).1 == Run(Apply(f, qs, scenario, e).0, qs, scenario, rest).1;
  }

  /** Pressing Next as in `NextStep` and then running the rest of a session. */
  lemma NextThenRest(f: Form, qs: seq<Question>, scenario: Scenario, rest: seq<Event>)
    requires !f.askingName && |qs| <= |f.answers| && forall i :: 0 <= i < |qs| ==> f.answers[i] != 0
    requires f.page < |DimensionOrder(qs)| - 1
    ensures Run(f, qs, scenario, [Click(Next)] + rest) == Run(f.(page := f.page + 1), qs, scenario, rest)
  {
    NextStep(f, qs, scenario);
    RunQuiet(f, qs, scenario, Click(Next), rest);
  }

  /** With every question answered, Next before the last page moves one page on. */
  lemma NextStep(f: Form, qs: seq<Question>, scenario: Scenario)
    requires !f.askingName && |qs| <= |f.answers| && forall i :: 0 <= i < |qs| ==> f.answers[i] != 0
    requires f.page < |DimensionOrder(qs)| - 1
    ensures Apply(f, qs, scenario, Click(Next)) == (f.(page := f.page + 1), None)
  {
    ValidWhenAnswered(f, qs);
  }

  /**
   * The session up to the final button, on a form sized by a catalog `big` at least as long as
   * the one in use: the name is taken, every question holds its first option's value, the rest
   * stay 0, and the last page is showing.
   */
  lemma CompletionPrefix(big: seq<Question>, qs: seq<Question>, scenario: Scenario, name: string)
    requires UniqueIds(qs) && Answerable(qs) && qs != [] && |qs| <= |big|
    requires Text.Trim(name) != ""
    ensures var r := Run(Start(big), qs, scenario, [Type(name), Begin] + FillFrom(qs, 0) + Nexts(LastPage(qs)));
      && r.1 == []
      && !r.0.askingName && r.0.name == name && r.0.page == LastPage(qs) && |r.0.answers| == |big|
      && forall i :: 0 <= i < |big| ==> r.0.answers[i] == (if i < |qs| then qs[i].options[0].value else 0)
  {
    var f0 := Start(big);
    var named, fill, nexts := [Type(name), Begin], FillFrom(qs, 0), Nexts(LastPage(qs));
    DimensionOrderSpec(qs);
    var f1 := f0.(name := name, askingName := false);
    assert Run(f0, qs, scenario, named) == (f1, []) by {
      var t := f0.(name := name);
      assert Apply(f0, qs, scenario, Type(name)) == (t, None);
      assert Apply(t, qs, scenario, Begin) == (f1, None);
      assert named[1..] == [Begin] && [Begin][1..] == [];
      assert Run(t, qs, scenario, [Begin]) == (f1, []);
    }
    FillRun(f1, qs, scenario, 0);
    var f2 := Run(f1, qs, scenario, fill).0;
    NextsRun(f2, qs, scenario, |nexts|);
    RunAppend(f0, qs, scenario, named, fill);
    RunAppend(f0, qs, scenario, named + fill, nexts);
  }

  /**
   * A form sized by its own catalog can be completed: the session that names the user, answers
   * every question and walks to the last page hands over exactly one draft, carrying the trimmed
   * name, the scenario and the chosen answers, one per question.
   */
  lemma CompletionSubmits(qs: seq<Question>, scenario: Scenario, name: string)
    requires UniqueIds(qs) && Answerable(qs) && qs != []
    requires Text.Trim(name) != ""
    ensures var ds := Run(Start(qs), qs, scenario, Completion(qs, name)).1;
      && |ds| == 1
      && ds[0].version == 1 && ds[0].name == Some(Text.Trim(name)) && ds[0].kind == Some(scenario)
      && |ds[0].answers| == |qs|
      && forall i :: 0 <= i < |qs| ==> ds[0].answers[i] == qs[i].options[0].value
  {
    var prefix := [Type(name), Begin] + FillFrom(qs, 0) + Nexts(LastPage(qs));
    CompletionPrefix(qs, qs, scenario, name);
    var f3 := Run(Start(qs), qs, scenario, prefix).0;
    ValidWhenAnswered(f3, qs);
    assert 0 !in f3.answers by {
      forall i | 0 <= i < |f3.answers| ensures f3.answers[i] != 0 {
      }
    }
    DimensionOrderSpec(qs);
    assert Run(f3, qs, scenario, [Click(Finish)]).1 == [Codec.Draft(1, Some(DisplayName(name)), Some(scenario), f3.answers)];
    RunAppend(Start(qs), qs, scenario, prefix, [Click(Finish)]);
  }

  /**
   * The same session on a form sized by a longer catalog: every question is answered and the
   * progress bar shows 100, yet the final button only shows the incomplete message.
   */
  lemma CompletionStalls(big: seq<Question>, qs: seq<Question>, scenario: Scenario, name: string)
    requires UniqueIds(qs) && Answerable(qs) && qs != [] && |qs| < |big|
    requires Text.Trim(name) != ""
    ensures var r := Run(Start(big), qs, scenario, Completion(qs, name));
      && r.1 == []
      && r.0.error == Some(IncompleteMessage)
      && Progress(r.0.answers, qs) == Some(100)
  {
    var prefix := [Type(name), Begin] + FillFrom(qs, 0) + Nexts(LastPage(qs));
    CompletionPrefix(big, qs, scenario, name);
    var f3 := Run(Start(big), qs, scenario, prefix).0;
    ValidWhenAnswered(f3, qs);
    assert f3.answers[|qs|] == 0;
    DimensionOrderSpec(qs);
    var f4 := f3.(error := Some(IncompleteMessage));
    assert Run(f3, qs, scenario, [Click(Finish)]) == (f4, []);
    RunAppend(Start(big), qs, scenario, prefix, [Click(Finish)]);
    ProgressBounds(f4.answers, qs);
  }

  /** Both catalogs can be answered this way. */
  lemma CatalogsAnswerable(s: Scenario)
    ensures Answerable(QuestionsFor(s)) && UniqueIds(QuestionsFor(s)) && QuestionsFor(s) != []
  {
    CatalogWellFormed(s);
    CatalogIdsUnique(s);
    CatalogSizes();
    var qs := QuestionsFor(s);
    forall i | 0 <= i < |qs| ensures qs[i].options != [] && qs[i].options[0].value != 0 {
      OptionValues(qs[i], qs[i].options[0].value, qs[i].options[0].value);
    }
  }

  /** Answers with an unset tail have no zero only when there is no tail. */
  lemma TailForcesLength(answers: seq<int>, qs: seq<Question>)
    requires TailUnset(answers, qs)
    ensures 0 !in answers ==> |answers| == |qs|
  {
    if |qs| < |answers| {
      assert answers[|qs|] == 0;
    }
  }

  // ---------------------------------------------------------------------------------------------
  // Progress

  function Answered(answers: seq<int>): (n: nat)
    ensures n <= |answers|
    ensures n == |answers| <==> 0 !in answers
    ensures n == 0 <==> forall i :: 0 <= i < |answers| ==> answers[i] == 0
  {
    if answers == [] then 0
    else
      assert forall i :: 1 <= i < |answers| ==> answers[i] == answers[1..][i - 1];
      (if answers[0] != 0 then 1 else 0) + Answered(answers[1..])
  }

  /**
   * The percentage in the progress bar: 100·answered/questions rounded half up, as `Math.round`
   * does on non-negative numbers; `None` for an empty catalog, where the quotient is NaN. The
   * answered count runs over the whole answer vector, the total is the catalog's length.
   */
  function Progress(answers: seq<int>, qs: seq<Question>): Option<int> {
    if qs == [] then None
    else Some(Percent(Answered(answers), |qs|))
  }

  /** `Math.round(a / t * 100)` for `0 <= a <= t`, in exact arithmetic. */
  function Percent(a: nat, t: nat): int
    requires t > 0
  {
    (200 * a + t) / (2 * t)
  }

  /**
   * The percentage is the integer nearest to 100·answered/questions (halves round up), lies in
   * [0, 100], is 100 once every question is answered and 0 while none is. The answers past the
   * catalog's end must be unset, as they are in every form the program builds.
   */
  lemma ProgressBounds(answers: seq<int>, qs: seq<Question>)
    requires qs != [] && TailUnset(answers, qs)
    ensures var p := Progress(answers, qs).value; var a, t := Answered(answers), |qs|;
      && Nearest(p, a, t)
      && 0 <= p <= 100
      && (p == 100 <== forall i :: 0 <= i < t ==> answers[i] != 0)
      && (p == 0 <== forall i :: 0 <= i < |answers| ==> answers[i] == 0)
  {
    AnsweredUnsetTail(answers, qs);
    RoundedShare(Answered(answers), |qs|);
  }

  /** With the tail unset, only the catalog's questions can count as answered. */
  lemma AnsweredUnsetTail(answers: seq<int>, qs: seq<Question>)
    requires TailUnset(answers, qs)
    ensures Answered(answers) <= |qs|
    ensures (forall i :: 0 <= i < |qs| ==> answers[i] != 0) ==> Answered(answers) == |qs|
  {
    var head, tail := answers[..|qs|], answers[|qs|..];
    assert answers == head + tail;
    AnsweredAppend(head, tail);
    assert forall i :: 0 <= i < |tail| ==> tail[i] == answers[|qs| + i];
    if forall i :: 0 <= i < |qs| ==> answers[i] != 0 {
      assert forall i :: 0 <= i < |head| ==> head[i] == answers[i];
      assert 0 !in head;
    }
  }

  /** Counting the answered entries distributes over concatenation. */
  lemma {:induction false} AnsweredAppend(a: seq<int>, b: seq<int>)
    ensures Answered(a + b) == Answered(a) + Answered(b)
  {
    if a == [] {
      assert a + b == b;
    } else {
      AnsweredAppend(a[1..], b);
      assert (a + b)[0] == a[0];
      assert (a + b)[1..] == a[1..] + b;
    }
  }

  /** `p` is the integer nearest to `100·a/t`, halves rounding up. */
  predicate Nearest(p: int, a: int, t: int) {
    2 * t * p <= 200 * a + t < 2 * t * (p + 1)
  }

  /** The quotient that rounds `100·a/t` half up, and its bounds. */
  lemma RoundedShare(a: nat, t: nat)
    requires a <= t && t > 0
    ensures var p := Percent(a, t);
      Nearest(p, a, t) && 0 <= p <= 100 && (a == 0 ==> p == 0) && (a == t ==> p == 100)
  {
    var x := 200 * a + t;
    var m := 2 * t;
    var p := x / m;
    assert Percent(a, t) == p;
    Quotient(x, m);
    assert Nearest(p, a, t);
    assert x < 101 * m;
    if p > 100 {
      MulMono(m, 101, p);
      assert false;
    }
    if a == 0 && p > 0 {
      MulMono(m, 1, p);
      assert false;
    }
    if a == t {
      RoundedWhole(t);
    }
  }

  lemma Quotient(x: int, m: int)
    requires x >= 0 && m > 0
    ensures m * (x / m) <= x < m * (x / m + 1) && x / m >= 0
  {
  }

  lemma MulMono(m: int, a: int, b: int)
    requires m >= 0 && a <= b
    ensures m * a <= m * b
  {
  }

  lemma RoundedWhole(t: int)
    requires t > 0
    ensures (200 * t + t) / (2 * t) == 100
  {
    DivUnique(200 * t + t, 2 * t, 100);
  }

  /** The quotient is the one `q` with `m·q <= x < m·q + m`. */
  lemma DivUnique(x: int, m: int, q: int)
    requires x >= 0 && m > 0 && m * q <= x < m * q + m
    ensures x / m == q
  {
    Quotient(x, m);
    var d := x / m;
    if d > q {
      MulMono(m, q + 1, d);
      assert false;
    }
    if d < q {
      MulMono(m, d + 1, q);
      assert false;
    }
  }

  /** A guest's questionnaire, given no scenario, is the couple one. */
  function ScenarioOrDefault(s: Option<Scenario>): (r: Scenario)
    ensures s.None? ==> r == Couple
    ensures s.Some? ==> r == s.value
  {
    s.GetOr(DefaultScenario)
  }
}
