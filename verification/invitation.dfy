/**
 * The invitation a host hands to a guest after finishing the questionnaire: a link to the match
 * page carrying the host's profile code, and a text that wraps the link and the bare code.
 * The guest pastes that text into the match box, whose extractor (module Hashes) recovers the code.
 */
module Invitation {
  import opened Wrappers
  import Text
  import Hashes

  const Title := "【Match Score 邀请函】"
  const GreetingDone := "朋友，我已完成我的灵魂契合度测试。"
  const GreetingAsk := "点击下方链接，完成你的问卷，看看我们的相性如何："
  /** The second line of the invitation, written here in two halves. */
  const Greeting := GreetingDone + GreetingAsk
  const Fallback := "或直接复制我的 Match Score 编码（如果链接失效）："
  const MatchRoute := "/match"
  const HostQuery := "?host="
  const MatchPath := MatchRoute + HostQuery
  /** The title handed to the system share sheet. */
  const ShareTitle := "Match Score 邀请函"
  /** The message shown once the invitation is on the clipboard after a share fallback. */
  const CopiedAlert := "邀请函已复制到剪贴板！"

  /** The match link for `hash`; `origin` is the page's origin, `None` when there is no window. */
  function ShareUrl(origin: Option<string>, hash: string): string {
    match origin
    case Some(o) => o + MatchPath + hash
    case None => MatchPath + hash
  }

  /** The seven lines of the invitation joined by line breaks. */
  function InvitationText(origin: Option<string>, hash: string): string {
    Title + "\n" + Greeting + "\n\n" + ShareUrl(origin, hash) + "\n\n" + Fallback + "\n" + hash
  }

  // ---------------------------------------------------------------------------------------------
  // Handing the invitation over

  /** What the two buttons ask of the browser, in order. */
  datatype Effect =
    | ClipboardWrite(text: string)
    | ShareSheet(title: string, text: string, url: string)
    | CopiedFlag
    | Alert(message: string)

  /** The browser's share support: absent, or present and either completing or rejecting. */
  datatype ShareSupport = NoShare | ShareWith(completes: bool)

  /** The copy button: the invitation goes to the clipboard, and the "copied" flag follows when that succeeds. */
  function OnCopy(origin: Option<string>, hash: string, clipboardOk: bool): seq<Effect> {
    [ClipboardWrite(InvitationText(origin, hash))] + (if clipboardOk then [CopiedFlag] else [])
  }

  /** The clipboard fallback of the share button: the invitation, then an alert when it landed. */
  function CopyFallback(origin: Option<string>, hash: string, clipboardOk: bool): seq<Effect> {
    [ClipboardWrite(InvitationText(origin, hash))] + (if clipboardOk then [Alert(CopiedAlert)] else [])
  }

  /** The share button: the share sheet when there is one, the clipboard when there is none or it rejects. */
  function OnShare(origin: Option<string>, hash: string, share: ShareSupport, clipboardOk: bool): seq<Effect> {
    match share
    case NoShare => CopyFallback(origin, hash, clipboardOk)
    case ShareWith(completes) =>
      [ShareSheet(ShareTitle, InvitationText(origin, hash), ShareUrl(origin, hash))]
      + (if completes then [] else CopyFallback(origin, hash, clipboardOk))
  }

  /** Everything handed to the clipboard or the share sheet is the invitation (and its link). */
  predicate HandsOver(effects: seq<Effect>, origin: Option<string>, hash: string) {
    forall i :: 0 <= i < |effects| ==>
      match effects[i]
      case ClipboardWrite(t) => t == InvitationText(origin, hash)
      case ShareSheet(title, t, url) => title == ShareTitle && t == InvitationText(origin, hash) && url == ShareUrl(origin, hash)
      case CopiedFlag => true
      case Alert(m) => m == CopiedAlert
  }

  // ---------------------------------------------------------------------------------------------
  // Properties

  /**
   * Copy, share and both share fallbacks hand over the same invitation; every press hands it
   * over at least once, and an alert or the copied flag only ever follows a clipboard write.
   */
  lemma SameInvitation(origin: Option<string>, hash: string, share: ShareSupport, clipboardOk: bool)
    ensures HandsOver(OnCopy(origin, hash, clipboardOk), origin, hash)
    ensures HandsOver(OnShare(origin, hash, share, clipboardOk), origin, hash)
    ensures OnCopy(origin, hash, clipboardOk)[0] == ClipboardWrite(InvitationText(origin, hash))
    ensures OnShare(origin, hash, share, clipboardOk)[0].ClipboardWrite? <==> share.NoShare?
    ensures OnShare(origin, hash, share, clipboardOk)[0].ShareSheet? <==> share.ShareWith?
    ensures CopiedFlag in OnCopy(origin, hash, clipboardOk) <==> clipboardOk
    ensures (Alert(CopiedAlert) in OnShare(origin, hash, share, clipboardOk))
              <==> clipboardOk && share != ShareWith(true)
  {
    var f := CopyFallback(origin, hash, clipboardOk);
    assert HandsOver(f, origin, hash);
    if share.ShareWith? {
      var s := OnShare(origin, hash, share, clipboardOk);
      forall i | 0 <= i < |s| ensures s[i] == if i == 0 then s[0] else f[i - 1] {
        if i > 0 {
          assert !share.completes;
        }
      }
      if !share.completes && clipboardOk {
        assert s[2] == Alert(CopiedAlert);
      }
    }
  }

  /** The link's host parameter is the hash whenever the origin carries no query marks. */
  lemma LinkCarriesHash(origin: Option<string>, hash: string)
    requires hash != "" && Hashes.AllHashChars(hash)
    requires origin.Some? ==> Hashes.NoQueryMark(origin.value)
    ensures Hashes.HostParam(ShareUrl(origin, hash)) == Some(hash)
    ensures Hashes.Extract(ShareUrl(origin, hash)) == hash
  {
    var o := if origin.Some? then origin.value else "";
    NoQueryMarkLiteral(MatchRoute);
    Hashes.NoQueryMarkAppend(o, MatchRoute);
    assert ShareUrl(origin, hash) == o + MatchRoute + HostQuery + hash + "";
    Hashes.HostParamOf(o + MatchRoute, hash, "");
  }

  /**
   * The invitation is seven lines: the title, the greeting, a blank, the link, a blank, the
   * fallback sentence and the bare hash. So the link is a whole line and the hash follows the
   * last line break.
   */
  lemma Lines(origin: Option<string>, hash: string)
    requires '\n' !in hash
    requires origin.Some? ==> '\n' !in origin.value
    ensures Text.Split(InvitationText(origin, hash), '\n')
              == [Title, Greeting, "", ShareUrl(origin, hash), "", Fallback, hash]
  {
    var url := ShareUrl(origin, hash);
    var lines := [Title, Greeting, "", url, "", Fallback];
    assert '\n' !in url by {
      UnbrokenLiteral(MatchPath);
      if origin.Some? {
        assert url == origin.value + MatchPath + hash;
      }
    }
    UnbrokenLiteral(Title);
    UnbrokenLiteral(GreetingDone);
    UnbrokenLiteral(GreetingAsk);
    UnbrokenLiteral(Fallback);
    assert '\n' !in Greeting;
    TerminatedSix(Title, Greeting, "", url, "", Fallback);
    Layout(Title, Greeting, url, Fallback, hash);
    Text.SplitUnique(lines, hash, '\n');
  }

  /**
   * The round trip the guest relies on: pasting the invitation into the match box yields the
   * host's hash, whenever the hash is a non-empty run of hash characters and the origin holds no
   * '?' or '&'.
   */
  lemma ExtractInvitation(origin: Option<string>, hash: string)
    requires hash != "" && Hashes.AllHashChars(hash)
    requires origin.Some? ==> Hashes.NoQueryMark(origin.value)
    ensures Hashes.HostParam(InvitationText(origin, hash)) == Some(hash)
    ensures Hashes.Extract(InvitationText(origin, hash)) == hash
  {
    var o := if origin.Some? then origin.value else "";
    assert ShareUrl(origin, hash) == o + MatchRoute + HostQuery + hash;
    HeadQuiet();
    HostAfter(Title + "\n" + Greeting + "\n\n", o, ShareUrl(origin, hash), hash, Fallback);
  }

  /** The host parameter of a text laid out as the invitation, for any quiet head and origin. */
  lemma HostAfter(head: string, o: string, url: string, hash: string, f: string)
    requires hash != "" && Hashes.AllHashChars(hash)
    requires Hashes.NoQueryMark(head) && Hashes.NoQueryMark(o)
    requires url == o + MatchRoute + HostQuery + hash
    ensures Hashes.HostParam(head + url + "\n\n" + f + "\n" + hash) == Some(hash)
    ensures Hashes.Extract(head + url + "\n\n" + f + "\n" + hash) == hash
  {
    var tail := "\n\n" + f + "\n" + hash;
    Regroup(head, o, MatchRoute, HostQuery, hash, f);
    NoQueryMarkLiteral(MatchRoute);
    Hashes.NoQueryMarkAppend(head, o);
    Hashes.NoQueryMarkAppend(head + o, MatchRoute);
    assert tail[0] == '\n';
    Hashes.HostParamOf(head + o + MatchRoute, hash, tail);
  }

  /** Pasting and then submitting the invitation hands the host's hash to the match flow. */
  lemma SubmitInvitation(origin: Option<string>, hash: string)
    requires hash != "" && Hashes.AllHashChars(hash)
    requires origin.Some? ==> Hashes.NoQueryMark(origin.value)
    ensures Hashes.Submit(Hashes.Paste(InvitationText(origin, hash))) == Some(hash)
  {
    var t := InvitationText(origin, hash);
    ExtractInvitation(origin, hash);
    Hashes.PasteThenSubmit(t);
    assert Text.Trim(t) != "" by {
      assert t[0] == '【';
      Text.TrimEmpty(t);
    }
    Hashes.SubmitExtracts(t);
  }

  /**
   * The code as written: a code with a '+' after a non-empty run `p` of hash characters is cut
   * to `p` both by the extractor and by paste-then-submit, so the guest's box holds `p`, not the
   * host's code.
   */
  lemma PlusCutsCode(origin: Option<string>, p: string, q: string)
    requires p != "" && Hashes.AllHashChars(p)
    requires origin.Some? ==> Hashes.NoQueryMark(origin.value)
    ensures var t := InvitationText(origin, p + "+" + q);
      && Hashes.Extract(t) == p
      && Hashes.Submit(Hashes.Paste(t)) == Some(p)
  {
    var t := InvitationText(origin, p + "+" + q);
    PlusCutsHost(origin, p, q);
    Hashes.PasteThenSubmit(t);
    assert Text.Trim(t) != "" by {
      assert t[0] == '【';
      Text.TrimEmpty(t);
    }
    Hashes.SubmitExtracts(t);
  }

  /** The first rule stops at the '+': its value is the run before it. */
  lemma PlusCutsHost(origin: Option<string>, p: string, q: string)
    requires p != "" && Hashes.AllHashChars(p)
    requires origin.Some? ==> Hashes.NoQueryMark(origin.value)
    ensures Hashes.HostParam(InvitationText(origin, p + "+" + q)) == Some(p)
  {
    var hash := p + "+" + q;
    var o := if origin.Some? then origin.value else "";
    var head := Title + "\n" + Greeting + "\n\n";
    var b := "+" + q + ("\n\n" + Fallback + "\n" + hash);
    assert ShareUrl(origin, hash) == o + MatchRoute + HostQuery + hash;
    CutRegroup(head, o, MatchRoute, HostQuery, p, q, Fallback, hash);
    HeadQuiet();
    NoQueryMarkLiteral(MatchRoute);
    Hashes.NoQueryMarkAppend(head, o);
    Hashes.NoQueryMarkAppend(head + o, MatchRoute);
    Hashes.HostParamOf(head + o + MatchRoute, p, b);
  }

  /**
   * The corrected extractor recovers every code from the invitation: any non-empty code over
   * the letters, digits, '-', '_', '+' and '$', which covers all of LZString's output.
   */
  lemma WideExtractInvitation(origin: Option<string>, hash: string)
    requires hash != "" && Hashes.AllWideChars(hash)
    requires origin.Some? ==> Hashes.NoQueryMark(origin.value)
    ensures Hashes.WideHostParam(InvitationText(origin, hash)) == Some(hash)
    ensures Hashes.WideExtract(InvitationText(origin, hash)) == hash
  {
    var o := if origin.Some? then origin.value else "";
    var head := Title + "\n" + Greeting + "\n\n";
    var tail := "\n\n" + Fallback + "\n" + hash;
    assert ShareUrl(origin, hash) == o + MatchRoute + HostQuery + hash;
    Regroup(head, o, MatchRoute, HostQuery, hash, Fallback);
    HeadQuiet();
    NoQueryMarkLiteral(MatchRoute);
    Hashes.NoQueryMarkAppend(head, o);
    Hashes.NoQueryMarkAppend(head + o, MatchRoute);
    assert tail[0] == '\n';
    Hashes.WideHostParamOf(head + o + MatchRoute, hash, tail);
  }

  // ---------------------------------------------------------------------------------------------
  // Facts about the fixed lines

  /** A literal without line breaks, checked one character at a time. */
  lemma UnbrokenLiteral(s: string)
    requires forall i :: 0 <= i < |s| ==> s[i] != '\n'
    ensures '\n' !in s
  {
  }

  /** A literal without '?' or '&', checked one character at a time. */
  lemma NoQueryMarkLiteral(s: string)
    requires forall i :: 0 <= i < |s| ==> s[i] != '?' && s[i] != '&'
    ensures Hashes.NoQueryMark(s)
  {
  }

  /** The text before the origin holds no '?' or '&'. */
  lemma HeadQuiet()
    ensures Hashes.NoQueryMark(Title + "\n" + Greeting + "\n\n")
  {
    NoQueryMarkLiteral(Title);
    NoQueryMarkLiteral("\n");
    NoQueryMarkLiteral(GreetingDone);
    NoQueryMarkLiteral(GreetingAsk);
    NoQueryMarkLiteral("\n\n");
    Hashes.NoQueryMarkAppend(Title, "\n");
    Hashes.NoQueryMarkAppend(GreetingDone, GreetingAsk);
    Hashes.NoQueryMarkAppend(Title + "\n", Greeting);
    Hashes.NoQueryMarkAppend(Title + "\n" + Greeting, "\n\n");
  }

  lemma TerminatedSix(a: string, b: string, c: string, d: string, e: string, f: string)
    ensures Text.Terminated([a, b, c, d, e, f], '\n') == a + "\n" + b + "\n" + c + "\n" + d + "\n" + e + "\n" + f + "\n"
  {
    var l := [a, b, c, d, e, f];
    assert l[1..] == [b, c, d, e, f];
    assert l[1..][1..] == [c, d, e, f];
    assert l[1..][1..][1..] == [d, e, f];
    assert l[1..][1..][1..][1..] == [e, f];
    assert l[1..][1..][1..][1..][1..] == [f];
    assert Text.Terminated([f], '\n') == f + "\n";
    assert Text.Terminated([e, f], '\n') == e + "\n" + (f + "\n");
    assert Text.Terminated([d, e, f], '\n') == d + "\n" + (e + "\n" + (f + "\n"));
    assert Text.Terminated([c, d, e, f], '\n') == c + "\n" + (d + "\n" + (e + "\n" + (f + "\n")));
    assert Text.Terminated([b, c, d, e, f], '\n') == b + "\n" + (c + "\n" + (d + "\n" + (e + "\n" + (f + "\n"))));
  }

  /** The invitation's layout as the six terminated lines followed by the hash. */
  lemma Layout(t: string, g: string, url: string, f: string, h: string)
    ensures t + "\n" + g + "\n\n" + url + "\n\n" + f + "\n" + h
            == t + "\n" + g + "\n" + "" + "\n" + url + "\n" + "" + "\n" + f + "\n" + h
  {
  }

  /** The invitation around a host parameter cut at a '+'. */
  lemma CutRegroup(head: string, o: string, route: string, query: string, p: string, q: string, f: string, h: string)
    ensures head + (o + route + query + (p + "+" + q)) + "\n\n" + f + "\n" + h
            == (head + o + route) + query + p + ("+" + q + ("\n\n" + f + "\n" + h))
  {
  }

  /** The invitation around the host parameter. */
  lemma Regroup(head: string, o: string, route: string, query: string, h: string, f: string)
    ensures head + (o + route + query + h) + "\n\n" + f + "\n" + h
            == head + o + route + query + h + ("\n\n" + f + "\n" + h)
  {
  }
}
