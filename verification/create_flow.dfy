/**
 * The host's side: the create page runs the questionnaire in the chosen scenario and then shows
 * the resulting hash, recording it (and a friend scenario) in the page address so that a reload
 * shows the same hash again.
 */
module CreateFlow {
  import opened Wrappers
  import opened Questions
  import Text
  import Questionnaire

  /** The page state; `pushed` lists the addresses written to the browser history, oldest first. */
  datatype Page = Page(hash: Option<string>, scenario: Scenario, pushed: seq<string>)

  const Initial := Page(None, Couple, [])

  /** The scenario a `mode` parameter selects: only the exact names are recognised. */
  function ModeOf(mode: Option<string>): (r: Option<Scenario>)
    ensures r.Some? <==> mode.Some? && (mode.value == "friend" || mode.value == "couple")
    ensures r.Some? ==> r.value.Name() == mode.value
  {
    if mode == Some("friend") then Some(Friend)
    else if mode == Some("couple") then Some(Couple)
    else None
  }

  /** The effect run on mount, given the address's `hash` and `mode` parameters. */
  function Mount(p: Page, hash: Option<string>, mode: Option<string>): Page {
    var p1 := if hash.Some? && hash.value != "" then p.(hash := hash) else p;
    match ModeOf(mode)
    case Some(s) => p1.(scenario := s)
    case None => p1
  }

  /** The address pushed once the questionnaire produced `hash`. */
  function CreateUrl(hash: string, s: Scenario): string {
    CreatePath + "?" + HashKey + "=" + hash + ModeSuffix(s)
  }

  const CreatePath := "/create"
  const HashKey := "hash"
  const ModeKey := "mode"

  /** `'&mode=friend'` in the friend scenario, nothing otherwise. */
  function ModeSuffix(s: Scenario): string {
    if s == Friend then "&" + ModeKey + "=" + "friend" else ""
  }

  /** `handleComplete`: show the new hash and record it in the address. */
  function Complete(p: Page, hash: string): Page {
    p.(hash := Some(hash), pushed := p.pushed + [CreateUrl(hash, p.scenario)])
  }

  datatype Screen = HashScreen(hash: string) | QuestionnaireScreen(scenario: Scenario)

  function Render(p: Page): Screen {
    if p.hash.Some? && p.hash.value != "" then HashScreen(p.hash.value) else QuestionnaireScreen(p.scenario)
  }

  // ---------------------------------------------------------------------------------------------
  // The questionnaire the page shows

  /**
   * The questionnaire's state as the page holds it. It is created on the first render, while the
   * scenario is still the initial one. The questionnaire has no `key`, so the state survives the
   * mode effect's change of scenario, and its answer vector keeps the couple catalog's size.
   */
  function MountedForm(): (f: Questionnaire.Form)
    ensures |f.answers| == |CoupleQuestions()|
  {
    Questionnaire.Start(QuestionsFor(Initial.scenario))
  }

  /**
   * As written: `/create?mode=friend` shows the friend questionnaire. Its eight questions run over
   * the fifty answers of the first render. Whatever the user does, no friend profile ever reaches
   * `handleComplete`.
   */
  lemma FriendModeStuck(es: seq<Questionnaire.Event>)
    ensures var p := Mount(Initial, None, Some("friend"));
      && Render(p) == QuestionnaireScreen(Friend)
      && |MountedForm().answers| > |QuestionsFor(p.scenario)|
      && Questionnaire.Run(MountedForm(), QuestionsFor(p.scenario), p.scenario, es).1 == []
  {
    CatalogSizes();
    Questionnaire.StartGood(Friend);
    Questionnaire.LongFormNeverSubmits(MountedForm(), FriendQuestions(), Friend, es);
  }

  /**
   * As written, the friend page answered in full: the progress bar shows 100, and the final
   * button shows the incomplete message instead of handing over a profile.
   */
  lemma FriendModeFullBar(name: string)
    requires Text.Trim(name) != ""
    ensures var qs := FriendQuestions();
      var r := Questionnaire.Run(MountedForm(), qs, Friend, Questionnaire.Completion(qs, name));
      && r.1 == []
      && r.0.error == Some(Questionnaire.IncompleteMessage)
      && Questionnaire.Progress(r.0.answers, qs) == Some(100)
  {
    CatalogSizes();
    Questionnaire.CatalogsAnswerable(Friend);
    Questionnaire.CompletionStalls(CoupleQuestions(), FriendQuestions(), Friend, name);
  }

  /** The questionnaire keyed by scenario (`key={scenario}`): a new scenario starts a fresh form over its own catalog. */
  function KeyedForm(p: Page): (f: Questionnaire.Form)
    ensures |f.answers| == |QuestionsFor(p.scenario)|
  {
    Questionnaire.Start(QuestionsFor(p.scenario))
  }

  /**
   * Corrected: with the keyed questionnaire, the friend page can be completed. Naming oneself,
   * answering every friend question and walking to the last page hands `handleComplete` one
   * friend draft of eight answers. The couple page keeps the form it had.
   */
  lemma KeyedFriendSubmits(name: string)
    requires Text.Trim(name) != ""
    ensures var p := Mount(Initial, None, Some("friend"));
      var qs := QuestionsFor(p.scenario);
      var ds := Questionnaire.Run(KeyedForm(p), qs, p.scenario, Questionnaire.Completion(qs, name)).1;
      && |ds| == 1 && ds[0].kind == Some(Friend) && |ds[0].answers| == 8
    ensures KeyedForm(Initial) == MountedForm()
  {
    CatalogSizes();
    Questionnaire.CatalogsAnswerable(Friend);
    Questionnaire.CompletionSubmits(FriendQuestions(), Friend, name);
  }

  // ---------------------------------------------------------------------------------------------
  // Reading an address back

  /** The query of an address: what follows its first '?', or nothing. */
  function QueryOf(url: string): string {
    var i := Text.IndexOfChar(url, '?');
    if i < 0 then "" else url[i + 1..]
  }

  /**
   * `URLSearchParams.get(name)` on a query: the value of the first `&`-separated piece whose key
   * (the text before its first '=') is `name`. Keys and values are form-decoded, which turns each
   * '+' into a space; percent-escapes are not modelled.
   */
  function Param(query: string, name: string): Option<string> {
    FirstParam(Text.Split(query, '&'), name)
  }

  function FirstParam(pieces: seq<string>, name: string): Option<string> {
    if pieces == [] then None
    else
      var piece := pieces[0];
      var i := Text.IndexOfChar(piece, '=');
      var key := if i < 0 then piece else piece[..i];
      if PlusAsSpace(key) == name then Some(if i < 0 then "" else PlusAsSpace(piece[i + 1..]))
      else FirstParam(pieces[1..], name)
  }

  /** Form decoding: every '+' stands for a space. */
  function PlusAsSpace(v: string): (r: string)
    ensures |r| == |v|
  {
    if v == [] then [] else [if v[0] == '+' then ' ' else v[0]] + PlusAsSpace(v[1..])
  }

  lemma FriendPlain()
    ensures PlusAsSpace("friend") == "friend"
  {
    PlusAsSpaceKeeps("friend");
  }

  /** Form decoding leaves a value alone exactly when it holds no '+'. */
  lemma {:induction false} PlusAsSpaceKeeps(v: string)
    ensures PlusAsSpace(v) == v <==> '+' !in v
  {
    if v != [] {
      PlusAsSpaceKeeps(v[1..]);
      assert v == [v[0]] + v[1..];
      assert PlusAsSpace(v)[1..] == PlusAsSpace(v[1..]);
      assert '+' in v <==> v[0] == '+' || '+' in v[1..];
    }
  }

  // ---------------------------------------------------------------------------------------------
  // Properties

  /** Before any effect the page has no hash and the couple scenario, so it shows the couple questionnaire. */
  lemma InitialSpec()
    ensures Render(Initial) == QuestionnaireScreen(Couple)
    ensures Initial.hash.None? && Initial.scenario == DefaultScenario
  {
  }

  /**
   * Mounting changes the scenario only for the exact names 'friend' and 'couple', and adopts any
   * non-empty hash parameter as it is, without decoding it.
   */
  lemma MountSpec(p: Page, hash: Option<string>, mode: Option<string>)
    ensures Mount(p, hash, mode).scenario ==
      (if mode == Some("friend") then Friend else if mode == Some("couple") then Couple else p.scenario)
    ensures Mount(p, hash, mode).hash == (if hash.Some? && hash.value != "" then hash else p.hash)
    ensures Mount(p, hash, mode).pushed == p.pushed
  {
  }

  /** The pushed address carries the hash, and names the mode exactly in the friend scenario. */
  lemma CompleteSpec(p: Page, hash: string)
    ensures Complete(p, hash).hash == Some(hash) && Complete(p, hash).scenario == p.scenario
    ensures Complete(p, hash).pushed == p.pushed + [CreateUrl(hash, p.scenario)]
    ensures Text.StartsWith(CreateUrl(hash, p.scenario), CreatePath + "?" + HashKey + "=" + hash)
    ensures |CreateUrl(hash, p.scenario)| == |CreatePath + "?" + HashKey + "=" + hash| <==> p.scenario == Couple
  {
  }

  /** The hash screen shows exactly when a non-empty hash is held; otherwise the questionnaire of the current scenario. */
  lemma RenderSpec(p: Page)
    ensures Render(p).HashScreen? <==> p.hash.Some? && p.hash.value != ""
    ensures Render(p).HashScreen? ==> Render(p).hash == p.hash.value
    ensures Render(p).QuestionnaireScreen? ==> Render(p).scenario == p.scenario
  {
  }

  /**
   * Reloading the pushed address: a fresh mount reading the address's parameters holds the pushed
   * hash with each '+' read as a space, and the same scenario. So the page comes back unchanged
   * exactly when the hash has no '+'. The hash is non-empty and carries no '&' (which would end
   * the parameter early), no '%' (percent-escapes are not modelled) and no '#' (which would start
   * the fragment).
   */
  lemma ReloadRestores(p: Page, hash: string)
    requires hash != "" && '&' !in hash && '%' !in hash && '#' !in hash
    ensures var q := QueryOf(CreateUrl(hash, p.scenario));
      var m := Mount(Initial, Param(q, HashKey), Param(q, ModeKey));
      && Param(q, HashKey) == Some(PlusAsSpace(hash))
      && Param(q, ModeKey) == (if p.scenario == Friend then Some("friend") else None)
      && m.hash == Some(PlusAsSpace(hash))
      && (m.hash == Some(hash) <==> '+' !in hash)
      && m.scenario == p.scenario
      && ('+' !in hash ==> Render(m) == Render(Complete(p, hash)))
  {
    ReloadParams(hash, p.scenario);
    PlusAsSpaceKeeps(hash);
    MountReadBack(PlusAsSpace(hash), p.scenario);
  }

  /** A fresh mount given a non-empty hash parameter and the mode the scenario writes. */
  lemma MountReadBack(h: string, s: Scenario)
    requires h != ""
    ensures var m := Mount(Initial, Some(h), if s == Friend then Some("friend") else None);
      m.hash == Some(h) && m.scenario == s && Render(m) == HashScreen(h)
  {
  }

  /** The two parameters read back from the pushed address. */
  lemma ReloadParams(hash: string, s: Scenario)
    requires '&' !in hash
    ensures var q := QueryOf(CreateUrl(hash, s));
      && Param(q, HashKey) == Some(PlusAsSpace(hash))
      && Param(q, ModeKey) == (if s == Friend then Some("friend") else None)
  {
    CreateQuery(hash, s);
    CreatePieces(hash, s);
    PiecesParams(hash, s);
  }

  /** The pieces of the pushed query answer 'hash' with the decoded hash and 'mode' with the scenario's name. */
  lemma PiecesParams(hash: string, s: Scenario)
    ensures var pieces := [HashKey + "=" + hash] + (if s == Friend then [ModeKey + "=" + "friend"] else []);
      && FirstParam(pieces, HashKey) == Some(PlusAsSpace(hash))
      && FirstParam(pieces, ModeKey) == (if s == Friend then Some("friend") else None)
  {
    var rest: seq<string> := if s == Friend then [ModeKey + "=" + "friend"] else [];
    PieceValue(HashKey, hash, rest, HashKey);
    PieceValue(HashKey, hash, rest, ModeKey);
    if s == Friend {
      assert rest == [ModeKey + "=" + "friend"] + [];
      PieceValue(ModeKey, "friend", [], ModeKey);
      FriendPlain();
    } else {
      assert FirstParam(rest, ModeKey) == None;
    }
  }

  lemma CreateQuery(hash: string, s: Scenario)
    ensures QueryOf(CreateUrl(hash, s)) == HashKey + "=" + hash + ModeSuffix(s)
  {
    Regroup(CreatePath, "?", HashKey, "=", hash, ModeSuffix(s));
    assert '?' !in CreatePath;
    QueryAfter(CreatePath, HashKey + "=" + hash + ModeSuffix(s));
  }

  lemma Regroup(a: string, b: string, c: string, d: string, e: string, f: string)
    ensures a + b + c + d + e + f == a + b + (c + d + e + f)
  {
  }

  /** The query of `a?b` is `b` when `a` holds no '?'. */
  lemma QueryAfter(a: string, b: string)
    requires '?' !in a
    ensures QueryOf(a + "?" + b) == b
  {
    var url := a + "?" + b;
    assert url[|a|] == '?';
    assert url[..|a|] == a;
    assert url[|a| + 1..] == b;
  }

  lemma CreatePieces(hash: string, s: Scenario)
    requires '&' !in hash
    ensures Text.Split(HashKey + "=" + hash + ModeSuffix(s), '&')
      == [HashKey + "=" + hash] + (if s == Friend then [ModeKey + "=" + "friend"] else [])
  {
    var first := HashKey + "=" + hash;
    assert '&' !in HashKey + "=";
    assert '&' !in first;
    if s == Friend {
      var second := ModeKey + "=" + "friend";
      assert '&' !in second;
      Separated(first, ModeKey, "friend");
      Text.SplitUnique([first], second, '&');
      assert [first] + [second] == [first] + (if s == Friend then [second] else []);
    } else {
      Unseparated(first);
      Text.SplitUnique([], first, '&');
    }
  }

  lemma Separated(first: string, k: string, v: string)
    ensures first + ("&" + k + "=" + v) == Text.Terminated([first], '&') + (k + "=" + v)
  {
    assert Text.Terminated([first], '&') == first + "&" + Text.Terminated([], '&');
  }

  lemma Unseparated(first: string)
    ensures first + "" == Text.Terminated([], '&') + first
  {
  }

  /** The piece `key=value` answers a query for `key` with `value` decoded, and passes any other name on. */
  lemma PieceValue(key: string, value: string, rest: seq<string>, name: string)
    requires key == HashKey || key == ModeKey
    ensures FirstParam([key + "=" + value] + rest, name)
      == if name == key then Some(PlusAsSpace(value)) else FirstParam(rest, name)
  {
    var piece := key + "=" + value;
    assert piece[4] == '=';
    assert piece[..4] == key;
    assert Text.IndexOfChar(piece, '=') == 4;
    assert piece[5..] == value;
    PlusAsSpaceKeeps(key);
    assert ([piece] + rest)[1..] == rest;
  }
}
