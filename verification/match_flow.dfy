/**
 * The guest's side of a match: the page reads the host's hash from its link (or from the match
 * box), the guest fills in the questionnaire, and both profiles go to the analysis.
 * Each handler is a transition on the page state; the screen shown is a function of that state.
 */
module MatchFlow {
  import opened Wrappers
  import opened Questions
  import Codec
  import Client
  import Hashes
  import Invitation
  import Questionnaire

  /** The page state; `pushed` lists the addresses written to the browser history, oldest first. */
  datatype Page = Page(
    hostHash: Option<string>,
    myHash: Option<string>,
    analysis: Option<Client.Analysis>,
    loading: bool,
    error: Option<string>,
    pushed: seq<string>)

  const BadLink := "无效的邀请链接或 Soul Hash 已损坏。"
  const BadHash := "无效的 Soul Hash，请检查后重试。"
  const BadProfiles := "解析 Soul Profile 失败，请重试。"
  const AnalysisFailed := "分析过程中发生错误，请稍后重试。"

  /** A JavaScript string used as a condition: present and not empty. */
  predicate Truthy(s: Option<string>) {
    s.Some? && s.value != ""
  }

  const Initial := Page(None, None, None, false, None, [])

  /** Everything the page needs from outside: the codec, and the network the analysis talks to. */
  datatype World = World(codec: Codec.Env, net: nat -> Client.Attempt)

  function Accepts(w: World, hash: string): bool {
    Codec.Decode(w.codec, hash).Some?
  }

  /** The effect run on mount, given the link's `host` parameter. */
  function Mount(w: World, host: Option<string>): (p: Page)
  {
    if !Truthy(host) then Initial
    else if Accepts(w, host.value) then Initial.(hostHash := host)
    else Initial.(error := Some(BadLink))
  }

  /** `handleMatchStart`: the hash the match box submitted. */
  function MatchStart(w: World, p: Page, hash: string): (q: Page)
  {
    if Accepts(w, hash) then
      p.(hostHash := Some(hash), error := None, pushed := p.pushed + [Invitation.ShareUrl(None, hash)])
    else p.(error := Some(BadHash))
  }

  /** The synchronous start of `handleQuestionnaireComplete`: remember the guest's hash and show the spinner. */
  function BeginComplete(p: Page, myHash: string): Page {
    p.(myHash := Some(myHash), loading := true, error := None)
  }

  /**
   * The rest of `handleQuestionnaireComplete`, with the host hash the handler saw: analyse when
   * both hashes decode (the host's profile first), report a decoding failure otherwise, and
   * always stop the spinner. The analysis catches every failure of the request itself, so the
   * handler's catch is taken only when the analysis throws while building its context or prompt.
   */
  function FinishComplete(w: World, p: Page, hostHash: Option<string>, myHash: string): Page {
    var q :=
      if !Truthy(hostHash) then p
      else
        match (Codec.Decode(w.codec, hostHash.value), Codec.Decode(w.codec, myHash))
        case (Some(host), Some(me)) =>
          if Client.ContextThrows(host, me) then p.(error := Some(AnalysisFailed))
          else p.(analysis := Some(Client.FetchAnalysis(w.codec.stringify, w.net, host, me).result))
        case _ => p.(error := Some(BadProfiles));
    q.(loading := false)
  }

  function Complete(w: World, p: Page, myHash: string): Page {
    FinishComplete(w, BeginComplete(p, myHash), p.hostHash, myHash)
  }

  // ---------------------------------------------------------------------------------------------
  // Rendering

  /** `text.substring(0, n) + '...'`. */
  function Abbreviate(text: string, n: nat): string {
    (if |text| <= n then text else text[..n]) + "..."
  }

  datatype Screen =
    | ReportScreen(result: Client.Analysis, hostInfo: Option<string>, guestInfo: Option<string>)
    | LoadingScreen
    | ErrorScreen(message: string)
    /** The questionnaire, with the target hash shown above it and the scenario it is given. */
    | QuestionnaireScreen(target: string, scenario: Option<Scenario>)
    | InputScreen

  function Render(p: Page): Screen {
    if p.analysis.Some? then
      ReportScreen(p.analysis.value,
        if Truthy(p.hostHash) then Some(Abbreviate(p.hostHash.value, 8)) else None,
        if Truthy(p.myHash) then Some(Abbreviate(p.myHash.value, 8)) else None)
    else if p.loading then LoadingScreen
    else if Truthy(p.error) then ErrorScreen(p.error.value)
    else if Truthy(p.hostHash) then QuestionnaireScreen(Abbreviate(p.hostHash.value, 12), None)
    else InputScreen
  }

  // ---------------------------------------------------------------------------------------------
  // Properties

  /** A host hash, once held, is one the codec accepts. */
  predicate Sound(w: World, p: Page) {
    p.hostHash.Some? ==> Accepts(w, p.hostHash.value)
  }

  /**
   * On mount a present host parameter becomes the host hash exactly when the codec accepts it;
   * otherwise the error is set and no host hash is held.
   */
  lemma MountSpec(w: World, host: Option<string>)
    ensures Sound(w, Mount(w, host))
    ensures Mount(w, host).hostHash.Some? <==> Truthy(host) && Accepts(w, host.value)
    ensures Mount(w, host).hostHash.Some? ==> Mount(w, host).hostHash == host
    ensures Mount(w, host).error.Some? <==> Truthy(host) && !Accepts(w, host.value)
    ensures !Mount(w, host).loading && Mount(w, host).analysis.None? && Mount(w, host).pushed == []
  {
  }

  /**
   * An accepted hash becomes the host hash, clears the error and puts the match link in the
   * history; a rejected one sets the error and changes nothing else.
   */
  lemma MatchStartSpec(w: World, p: Page, hash: string)
    ensures Accepts(w, hash) ==>
      MatchStart(w, p, hash) == p.(hostHash := Some(hash), error := None, pushed := p.pushed + ["/match?host=" + hash])
    ensures !Accepts(w, hash) ==> MatchStart(w, p, hash) == p.(error := Some(BadHash))
    ensures Sound(w, p) ==> Sound(w, MatchStart(w, p, hash))
  {
    assert Invitation.MatchPath == "/match?host=";
  }

  /**
   * Completing the questionnaire stores the guest's hash, and the spinner is off afterwards on
   * every path. An analysis appears exactly when a host hash is held, both hashes decode and the
   * analysis does not throw; it is the analysis of the host's profile against the guest's. A
   * throwing analysis shows the handler's catch message instead.
   */
  lemma CompleteSpec(w: World, p: Page, myHash: string)
    ensures var q := Complete(w, p, myHash);
      && q.myHash == Some(myHash)
      && !q.loading
      && q.hostHash == p.hostHash
      && q.pushed == p.pushed
      && (Sound(w, p) ==> Sound(w, q))
      && var both := Truthy(p.hostHash) && Accepts(w, p.hostHash.value) && Accepts(w, myHash);
      && var throws := both && Client.ContextThrows(Codec.Decode(w.codec, p.hostHash.value).value, Codec.Decode(w.codec, myHash).value);
      && q.analysis == (if both && !throws then Some(Client.FetchAnalysis(w.codec.stringify, w.net,
                          Codec.Decode(w.codec, p.hostHash.value).value, Codec.Decode(w.codec, myHash).value).result)
                        else p.analysis)
      && q.error == (if Truthy(p.hostHash) && !both then Some(BadProfiles) else if throws then Some(AnalysisFailed) else None)
  {
  }

  /** Without a host hash, completion neither analyses nor reports an error: it only clears the old one. */
  lemma CompleteWithoutHost(w: World, p: Page, myHash: string)
    requires !Truthy(p.hostHash)
    ensures Complete(w, p, myHash) == p.(myHash := Some(myHash), error := None, loading := false)
  {
  }

  /**
   * With a sound host hash, two failures are left: the guest's own hash not decoding, and the
   * analysis throwing on the decoded profiles. Otherwise an analysis is shown.
   */
  lemma CompleteErrors(w: World, p: Page, myHash: string)
    requires Sound(w, p) && Truthy(p.hostHash)
    ensures Complete(w, p, myHash).error == Some(BadProfiles) <==> !Accepts(w, myHash)
    ensures Complete(w, p, myHash).error == Some(AnalysisFailed) <==>
      Accepts(w, myHash) && Client.ContextThrows(Codec.Decode(w.codec, p.hostHash.value).value, Codec.Decode(w.codec, myHash).value)
    ensures Complete(w, p, myHash).analysis.Some? || Complete(w, p, myHash).error.Some?
  {
  }

  /**
   * The screen follows a fixed precedence: the report whenever there is an analysis, then the
   * spinner, then the error, then the questionnaire when a host hash is held, and the match box last.
   */
  lemma RenderPrecedence(p: Page)
    ensures Render(p).ReportScreen? <==> p.analysis.Some?
    ensures Render(p).LoadingScreen? <==> p.analysis.None? && p.loading
    ensures Render(p).ErrorScreen? <==> p.analysis.None? && !p.loading && Truthy(p.error)
    ensures Render(p).QuestionnaireScreen? <==>
      p.analysis.None? && !p.loading && !Truthy(p.error) && Truthy(p.hostHash)
    ensures Render(p).InputScreen? <==>
      p.analysis.None? && !p.loading && !Truthy(p.error) && !Truthy(p.hostHash)
  {
  }

  /** The guest's questionnaire is given no scenario, so the guest always answers the couple catalog. */
  lemma GuestAnswersCouple(p: Page)
    requires Render(p).QuestionnaireScreen?
    ensures QuestionsFor(Questionnaire.ScenarioOrDefault(Render(p).scenario)) == CoupleQuestions()
  {
  }

  /** While the analysis runs, the spinner is shown and the questionnaire is not. */
  lemma SpinnerWhileAnalysing(p: Page, myHash: string)
    requires p.analysis.None?
    ensures Render(BeginComplete(p, myHash)) == LoadingScreen
  {
  }

  /**
   * The whole hand-off: a guest who pastes the host's invitation into the match box and submits
   * it starts matching against the host's hash, and the match link goes into the history.
   */
  lemma InvitationStartsMatch(w: World, origin: Option<string>, hash: string)
    requires hash != "" && Hashes.AllHashChars(hash)
    requires origin.Some? ==> Hashes.NoQueryMark(origin.value)
    requires Accepts(w, hash)
    ensures var typed := Hashes.Submit(Hashes.Paste(Invitation.InvitationText(origin, hash)));
      && typed == Some(hash)
      && MatchStart(w, Initial, typed.value) == Initial.(hostHash := Some(hash), pushed := [Invitation.ShareUrl(None, hash)])
      && Render(MatchStart(w, Initial, typed.value)) == QuestionnaireScreen(Abbreviate(hash, 12), None)
  {
    Invitation.SubmitInvitation(origin, hash);
  }
}
