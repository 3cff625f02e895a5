/** The approval gate: does one Issue carry, or does the agent's citation now
    produce, a maintainer's consent to be worked on? */
module ApprovalGate {
  import opened Wrappers
  import opened Logins
  import opened Text
  import Quotes

  datatype Comment = Comment(externalId: string, author: string, isBot: bool, body: string, createdAt: int)

  datatype Evidence = Evidence(auto: bool, login: string, commentId: string, createdAt: int, phrase: string, planHash: string)

  datatype Issue = Issue(
    repo: string,
    number: int,
    bodyAnchor: string,
    state: string,
    status: string,
    author: string,
    body: string,
    comments: seq<Comment>,
    approval: Option<Evidence>)

  datatype Citation = Citation(id: string, quote: string)

  datatype Refusal =
    | NoMaintainer | NoCitation | CitationNotMaintainer | QuoteAbsent
    | EvidenceReplayed | ApproverNotMaintainer | ApproverMismatch

  datatype Verdict = Granted(evidence: Evidence) | Refused(reason: Refusal)

  datatype Axis = CeilingOff | NotInScope | NotBotAuthored | NoMarker | AnchorMismatch

  /** What this model takes as given: the digest of a proposal body, the proposal
      kind its marker names ("" for none), and case-insensitive login equality. */
  datatype Oracle = Oracle(digest: string -> string, kind: string -> string, sameLogin: (string, string) -> bool)

  /** Everything about one request that is not the Issue. */
  datatype Ask = Ask(
    o: Oracle,
    project: Project,
    override: Override,
    botLogin: string,
    citations: seq<Citation>,
    declared: string,
    now: int)

  const AUTO_LOGIN := "<tatara:auto>"

  predicate InScope(iss: Issue) {
    iss.state == "open" && iss.status != "done" && iss.status != "rejected"
  }

  predicate MaintainerComment(c: Comment, p: Project, override: Override, botLogin: string) {
    && !c.isBot && c.author != "" && !(botLogin != "" && c.author == botLogin)
    && IsMaintainer(p, override, c.author)
  }

  predicate MaintainerLogin(a: Ask, login: string) {
    && login != "" && !(a.botLogin != "" && a.o.sameLogin(login, a.botLogin))
    && IsMaintainer(a.project, a.override, login)
  }

  predicate MatchesAnchor(o: Oracle, body: string, anchor: string) {
    anchor != "" && o.digest(body) == anchor
  }

  /** The axis on which the auto-approve carve-out refuses, None for a grant. */
  function AutoApproveRefusal(a: Ask, iss: Issue): Option<Axis> {
    if Ceiling(a.project) == OFF then Some(CeilingOff)
    else if !InScope(iss) then Some(NotInScope)
    else if a.botLogin == "" || iss.author == "" || iss.author != a.botLogin then Some(NotBotAuthored)
    else if a.o.kind(iss.body) == "" then Some(NoMarker)
    else if !MatchesAnchor(a.o, iss.body, iss.bodyAnchor) then Some(AnchorMismatch)
    else None
  }

  function AutoEvidence(now: int): Evidence {
    Evidence(true, AUTO_LOGIN, "", now, "", "")
  }

  // ---------- the scans over the thread ----------

  predicate ByMaintainer(a: Ask, c: Comment) {
    MaintainerComment(c, a.project, a.override, a.botLogin)
  }

  predicate Spoken(a: Ask, comments: seq<Comment>) {
    exists k :: 0 <= k < |comments| && ByMaintainer(a, comments[k])
  }

  lemma SpokenBy(a: Ask, comments: seq<Comment>, k: nat)
    requires k < |comments| && ByMaintainer(a, comments[k])
    ensures Spoken(a, comments)
  {
  }

  predicate Names(citations: seq<Citation>, id: string) {
    exists j :: 0 <= j < |citations| && citations[j].id == id
  }

  /** A comment the agent cited and was entitled to cite. */
  predicate Cited(a: Ask, c: Comment) {
    c.externalId != "" && ByMaintainer(a, c) && Names(a.citations, c.externalId)
  }

  /** The first cited maintainer comment in thread order, or the length. */
  function FirstCited(a: Ask, comments: seq<Comment>): (i: nat)
    ensures i <= |comments|
    ensures i < |comments| ==> Cited(a, comments[i])
    ensures forall k :: 0 <= k < i ==> !Cited(a, comments[k])
  {
    if comments == [] then 0 else if Cited(a, comments[0]) then 0 else 1 + FirstCited(a, comments[1..])
  }

  /** The quote of the first citation with that id. */
  function QuoteFor(citations: seq<Citation>, id: string): string
    requires Names(citations, id)
  {
    if citations[0].id == id then citations[0].quote else QuoteFor(citations[1..], id)
  }

  /** What the clauses after the choice of a comment make of it. */
  function Judge(a: Ask, iss: Issue, c: Comment): Verdict
    requires Cited(a, c)
  {
    if a.declared != "" && !MaintainerLogin(a, a.declared) then Refused(ApproverNotMaintainer)
    else if a.declared != "" && !a.o.sameLogin(a.declared, c.author) then Refused(ApproverMismatch)
    else
      match Quotes.QuoteOccursIn(c.body, QuoteFor(a.citations, c.externalId))
      case None => Refused(QuoteAbsent)
      case Some(phrase) =>
        if iss.approval.Some? && iss.approval.value.commentId == c.externalId then Refused(EvidenceReplayed)
        else Granted(Evidence(false, c.author, c.externalId, c.createdAt, phrase, ""))
  }

  function Decide(a: Ask, iss: Issue): Verdict {
    if iss.status == "approved" && iss.approval.Some? then Granted(iss.approval.value)
    else if !Spoken(a, iss.comments) then
      if AutoApproveRefusal(a, iss).None? then Granted(AutoEvidence(a.now)) else Refused(NoMaintainer)
    else if a.citations == [] then Refused(NoCitation)
    else
      var i := FirstCited(a, iss.comments);
      if i == |iss.comments| then Refused(CitationNotMaintainer) else Judge(a, iss, iss.comments[i])
  }

  lemma {:induction false} QuoteForFirst(citations: seq<Citation>, j: nat)
    requires j < |citations|
    requires forall k :: 0 <= k < j ==> citations[k].id != citations[j].id
    ensures Names(citations, citations[j].id)
    ensures QuoteFor(citations, citations[j].id) == citations[j].quote
  {
    if j > 0 {
      QuoteForFirst(citations[1..], j - 1);
    }
  }

  /** The first cited maintainer comment in thread order, with the quote of the first
      citation that names it. */
  method FindCited(a: Ask, comments: seq<Comment>) returns (cited: Option<Comment>, quoted: string)
    ensures cited.None? <==> FirstCited(a, comments) == |comments|
    ensures cited.Some? ==>
              && FirstCited(a, comments) < |comments| && cited.value == comments[FirstCited(a, comments)]
              && quoted == QuoteFor(a.citations, cited.value.externalId)
  {
    cited, quoted := None, "";
    for i := 0 to |comments|
      invariant cited.None?
      invariant forall k :: 0 <= k < i ==> !Cited(a, comments[k])
    {
      var c := comments[i];
      if c.externalId == "" || !ByMaintainer(a, c) {
        continue;
      }
      for j := 0 to |a.citations|
        invariant cited.None?
        invariant forall k :: 0 <= k < j ==> a.citations[k].id != c.externalId
      {
        if a.citations[j].id == c.externalId {
          QuoteForFirst(a.citations, j);
          cited, quoted := Some(c), a.citations[j].quote;
          break;
        }
      }
      if cited.Some? {
        assert Cited(a, c);
        return;
      }
    }
  }

  /** The scan the operator runs: is there a maintainer comment at all, which is the
      first one cited, and which citation named it. */
  method VerifyOneIssue(a: Ask, iss: Issue) returns (v: Verdict)
    ensures v == Decide(a, iss)
  {
    if iss.status == "approved" && iss.approval.Some? {
      return Granted(iss.approval.value);
    }
    var maintainerSpoke := false;
    for i := 0 to |iss.comments|
      invariant !maintainerSpoke
      invariant forall k :: 0 <= k < i ==> !ByMaintainer(a, iss.comments[k])
    {
      if ByMaintainer(a, iss.comments[i]) {
        maintainerSpoke := true;
        break;
      }
    }
    if !maintainerSpoke {
      if AutoApproveRefusal(a, iss).None? {
        return Granted(AutoEvidence(a.now));
      }
      return Refused(NoMaintainer);
    }
    if |a.citations| == 0 {
      return Refused(NoCitation);
    }
    var cited, quoted := FindCited(a, iss.comments);
    if cited.None? {
      return Refused(CitationNotMaintainer);
    }
    if a.declared != "" {
      if !MaintainerLogin(a, a.declared) {
        return Refused(ApproverNotMaintainer);
      }
      if !a.o.sameLogin(a.declared, cited.value.author) {
        return Refused(ApproverMismatch);
      }
    }
    var quote := Quotes.QuoteOccursIn(cited.value.body, quoted);
    if quote.None? {
      return Refused(QuoteAbsent);
    }
    if iss.approval.Some? && iss.approval.value.commentId == cited.value.externalId {
      return Refused(EvidenceReplayed);
    }
    return Granted(Evidence(false, cited.value.author, cited.value.externalId, cited.value.createdAt, quote.value, ""));
  }

  // ---------- what a grant means ----------

  /** No evidence stands yet, so whatever is granted is granted now. */
  predicate Open(iss: Issue) {
    !(iss.status == "approved" && iss.approval.Some?)
  }

  predicate AllAxesPass(a: Ask, iss: Issue) {
    && a.project.autoApproveMax != "" && a.project.autoApproveMax != OFF
    && InScope(iss)
    && a.botLogin != "" && iss.author == a.botLogin
    && a.o.kind(iss.body) != ""
    && iss.bodyAnchor != "" && a.o.digest(iss.body) == iss.bodyAnchor
  }

  /** The evidence names this comment, and everything the gate promises about it holds. */
  ghost predicate Consented(a: Ask, iss: Issue, c: Comment, ev: Evidence) {
    && c in iss.comments && !ev.auto
    && ev.login == c.author && ev.commentId == c.externalId && ev.createdAt == c.createdAt
       // cited, by the id the forge gave it
    && c.externalId != "" && (exists q <- a.citations :: q.id == c.externalId)
       // by a listed maintainer who is no bot, whatever the lists say about the bot
    && !c.isBot && c.author != "" && c.author in ListedMaintainers(a.project, a.override)
    && c.author != a.botLogin && (a.project.scm.Some? ==> c.author != a.project.scm.value.botLogin)
       // agreed with by any declared approver
    && (a.declared != "" ==> a.o.sameLogin(a.declared, c.author) && MaintainerLogin(a, a.declared))
       // quoted, in words that stand in the body
    && ev.phrase != [] && Contains(c.body, ev.phrase)
       // not the comment that was spent before
    && (iss.approval.Some? ==> iss.approval.value.commentId != c.externalId)
  }

  lemma {:induction false} QuoteForCited(citations: seq<Citation>, id: string) returns (q: Citation)
    requires Names(citations, id)
    ensures q in citations && q.id == id && QuoteFor(citations, id) == q.quote
  {
    if citations[0].id == id {
      q := citations[0];
    } else {
      var j :| 0 <= j < |citations| && citations[j].id == id;
      assert citations[1..][j - 1] == citations[j];
      q := QuoteForCited(citations[1..], id);
    }
  }

  /** A fresh grant is either automatic, on a thread no maintainer wrote on and with
      all five axes passing, or rests on one comment that meets every condition. */
  lemma FreshGrantMeans(a: Ask, iss: Issue)
    requires Open(iss) && Decide(a, iss).Granted?
    ensures var ev := Decide(a, iss).evidence;
            if ev.auto then
              && ev == AutoEvidence(a.now)
              && AllAxesPass(a, iss)
              && (forall c <- iss.comments :: !ByMaintainer(a, c))
            else exists c :: Consented(a, iss, c, ev)
  {
    if Spoken(a, iss.comments) {
      var c := iss.comments[FirstCited(a, iss.comments)];
      var q := QuoteForCited(a.citations, c.externalId);
      Quotes.AcceptedQuoteOccurs(c.body, q.quote);
      MaintainerIffListedHuman(a.project, a.override, c.author);
      assert Consented(a, iss, c, Decide(a, iss).evidence);
    } else {
      forall c | c in iss.comments
        ensures !ByMaintainer(a, c)
      {
        var k :| 0 <= k < |iss.comments| && iss.comments[k] == c;
      }
    }
  }

  /** The carve-out grants whenever no maintainer wrote and all five axes pass. */
  lemma CarveOutGrants(a: Ask, iss: Issue)
    requires Open(iss) && AllAxesPass(a, iss)
    requires forall c <- iss.comments :: !ByMaintainer(a, c)
    ensures Decide(a, iss) == Granted(AutoEvidence(a.now))
  {
    assert !Spoken(a, iss.comments);
  }

  /** The declaration, if there is one, names this comment's author and a maintainer. */
  predicate DeclarationAgrees(a: Ask, c: Comment) {
    a.declared != "" ==> MaintainerLogin(a, a.declared) && a.o.sameLogin(a.declared, c.author)
  }

  predicate Spent(iss: Issue, c: Comment) {
    iss.approval.Some? && iss.approval.value.commentId == c.externalId
  }

  /** Conversely, the first cited maintainer comment in thread order, with the quote of
      the first citation that names it, decides: it is granted on exactly when it agrees
      with the declaration, holds the quote in the form the agent was shown or in its
      own, and was not spent; an older go-ahead is as good as the newest comment. */
  lemma FirstCitedGrants(a: Ask, iss: Issue, i: nat, j: nat)
    requires Open(iss)
    requires i < |iss.comments| && j < |a.citations|
    requires iss.comments[i].externalId != "" && a.citations[j].id == iss.comments[i].externalId
    requires forall k :: 0 <= k < j ==> a.citations[k].id != a.citations[j].id
    requires MaintainerComment(iss.comments[i], a.project, a.override, a.botLogin)
    requires forall k :: 0 <= k < i ==> !Cited(a, iss.comments[k])
    ensures var c, q := iss.comments[i], Quotes.QuoteOccursIn(iss.comments[i].body, a.citations[j].quote);
            && (Decide(a, iss).Granted? <==> DeclarationAgrees(a, c) && q.Some? && !Spent(iss, c))
            && (Decide(a, iss).Granted? ==> Decide(a, iss).evidence == Evidence(false, c.author, c.externalId, c.createdAt, q.value, ""))
  {
    var c := iss.comments[i];
    QuoteForFirst(a.citations, j);
    assert Cited(a, c);
    assert Spoken(a, iss.comments) by {
      assert ByMaintainer(a, iss.comments[i]);
    }
    assert FirstCited(a, iss.comments) == i;
    assert Decide(a, iss) == Judge(a, iss, c);
  }

  /** So a comment that meets the rest is granted on whether the agent quotes any part
      of it as it stands or out of its escaped bundle. */
  lemma EitherQuoteGrants(a: Ask, iss: Issue, i: nat, j: nat, sub: string)
    requires Open(iss)
    requires i < |iss.comments| && j < |a.citations|
    requires iss.comments[i].externalId != "" && a.citations[j].id == iss.comments[i].externalId
    requires forall k :: 0 <= k < j ==> a.citations[k].id != a.citations[j].id
    requires MaintainerComment(iss.comments[i], a.project, a.override, a.botLogin)
    requires forall k :: 0 <= k < i ==> !Cited(a, iss.comments[k])
    requires DeclarationAgrees(a, iss.comments[i]) && !Spent(iss, iss.comments[i])
    requires Contains(iss.comments[i].body, sub) && !Blank(sub)
    requires a.citations[j].quote == sub || a.citations[j].quote == Quotes.Escape(sub)
    ensures Decide(a, iss).Granted? && !Decide(a, iss).evidence.auto
  {
    FirstCitedGrants(a, iss, i, j);
    Quotes.EscapedQuoteAccepted(iss.comments[i].body, sub);
  }

  lemma SpokenBlocks(a: Ask, iss: Issue)
    requires Open(iss) && Spoken(a, iss.comments)
    ensures Decide(a, iss).Granted? ==> !Decide(a, iss).evidence.auto && a.citations != []
  {
  }

  /** Once a maintainer has written on the thread nothing is granted automatically,
      and nothing is granted that is not cited. */
  lemma MaintainerBlocksCarveOut(a: Ask, iss: Issue, c: Comment)
    requires Open(iss) && c in iss.comments && ByMaintainer(a, c)
    ensures Decide(a, iss).Granted? ==> !Decide(a, iss).evidence.auto && a.citations != []
  {
    var k :| 0 <= k < |iss.comments| && iss.comments[k] == c;
    SpokenBy(a, iss.comments, k);
    SpokenBlocks(a, iss);
  }
}
