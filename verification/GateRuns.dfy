/** Grant and ship, composed over time: a scope-wide grant, then any run of late
    Issues, comments, closures and further gate calls, then the ship gate. */
module GateRuns {
  import opened Wrappers
  import opened Logins
  import opened ApprovalGate
  import opened ShipGate

  /** The request as it applies to one Issue: its Repository's override and the
      Project's own bot login. */
  function AskFor(a: Ask, ov: Overrides, iss: Issue): Ask {
    a.(override := OverrideFor(ov, iss), botLogin := BotLogin(a.project))
  }

  function Verdict(a: Ask, ov: Overrides, iss: Issue): ApprovalGate.Verdict {
    Decide(AskFor(a, ov, iss), iss)
  }

  /** The scope is granted only whole: some Issue is live, and every live one is. */
  ghost predicate ScopeGrants(a: Ask, ov: Overrides, issues: seq<Issue>) {
    && (exists k :: 0 <= k < |issues| && InScope(issues[k]))
    && (forall k :: 0 <= k < |issues| && InScope(issues[k]) ==> Verdict(a, ov, issues[k]).Granted?)
  }

  function Record(a: Ask, ov: Overrides, planHash: string, iss: Issue): Issue {
    if InScope(iss) && Verdict(a, ov, iss).Granted? then
      iss.(status := "approved", approval := Some(Verdict(a, ov, iss).evidence.(planHash := planHash)))
    else iss
  }

  /** The gate on the whole scope: when it grants, the Issues are written one by one, and
      the writing may stop after the first `wrote`. */
  ghost function Gate(a: Ask, ov: Overrides, planHash: string, issues: seq<Issue>, wrote: nat): (r: seq<Issue>)
    ensures |r| == |issues|
    ensures forall k :: 0 <= k < |issues| ==>
              r[k] == if ScopeGrants(a, ov, issues) && k < wrote then Record(a, ov, planHash, issues[k]) else issues[k]
  {
    if ScopeGrants(a, ov, issues) then
      seq(|issues|, k requires 0 <= k < |issues| => if k < wrote then Record(a, ov, planHash, issues[k]) else issues[k])
    else issues
  }

  /** What can happen to the Task's Issues: one arrives, without evidence; a thread is
      mirrored afresh; the forge opens or closes one; it is settled as done or rejected;
      a rejected one is reopened as new; the gate is called again. */
  datatype Event =
    | Arrived(issue: Issue)
    | Thread(k: nat, comments: seq<Comment>)
    | Mirrored(k: nat, open: bool)
    | Settled(k: nat, done: bool)
    | Reopened(k: nat)
    | Gated(ask: Ask, planHash: string, wrote: nat)

  ghost function Happen(ov: Overrides, issues: seq<Issue>, e: Event): seq<Issue> {
    match e
    case Arrived(iss) => issues + [iss.(approval := None)]
    case Thread(k, comments) =>
      if k < |issues| then issues[k := issues[k].(comments := comments)] else issues
    case Mirrored(k, open) =>
      if k < |issues| then issues[k := issues[k].(state := if open then "open" else "closed")] else issues
    case Settled(k, done) =>
      if k < |issues| then issues[k := issues[k].(status := if done then "done" else "rejected")] else issues
    case Reopened(k) =>
      if k < |issues| && issues[k].status == "rejected"
      then issues[k := issues[k].(status := "new", state := "open")] else issues
    case Gated(a, planHash, wrote) => Gate(a, ov, planHash, issues, wrote)
  }

  ghost function Run(ov: Overrides, issues: seq<Issue>, es: seq<Event>): seq<Issue>
    decreases |es|
  {
    if es == [] then issues else Run(ov, Happen(ov, issues, es[0]), es[1..])
  }

  // ---------- evidence stands ----------

  /** No event takes evidence away, a reopening included. */
  lemma {:induction false} EvidenceStands(ov: Overrides, issues: seq<Issue>, es: seq<Event>, k: nat)
    requires k < |issues| && issues[k].approval.Some?
    ensures k < |Run(ov, issues, es)| && Run(ov, issues, es)[k].approval.Some?
    decreases |es|
  {
    if es != [] {
      assert Happen(ov, issues, es[0])[k].approval.Some?;
      EvidenceStands(ov, Happen(ov, issues, es[0]), es[1..], k);
    }
  }

  ghost predicate SameConsent(a: Evidence, b: Evidence) {
    a.(planHash := "") == b.(planHash := "")
  }

  /** The Issue carries this consent and, while live, counts as approved on it. */
  ghost predicate Carries(iss: Issue, ev: Evidence) {
    iss.approval.Some? && SameConsent(iss.approval.value, ev) && (InScope(iss) ==> iss.status == "approved")
  }

  /** A settled verdict is either standing or taken back. */
  ghost predicate Untouched(es: seq<Event>, k: nat) {
    Reopened(k) !in es
  }

  lemma HappenKeepsConsent(ov: Overrides, issues: seq<Issue>, e: Event, k: nat, ev: Evidence)
    requires k < |issues| && Carries(issues[k], ev) && issues[k].status in ["approved", "done", "rejected"]
    requires e != Reopened(k)
    ensures var after := Happen(ov, issues, e);
            && k < |after| && Carries(after[k], ev) && after[k].status in ["approved", "done", "rejected"]
            && (after[k].approval.value.planHash == issues[k].approval.value.planHash
                || (e.Gated? && after[k].approval.value.planHash == e.planHash))
  {
    match e
    case Gated(a, planHash, wrote) =>
      if InScope(issues[k]) {
        assert Verdict(a, ov, issues[k]) == Granted(issues[k].approval.value);
      }
    case _ =>
  }

  /** Until the Issue itself is reopened after a rejection, no later comment, no closing
      and opening on the forge, and no later gate call whatever it cites, revokes or
      replaces a consent once given; only the plan it is pinned to can be another, that
      of a later gate call. */
  lemma {:induction false} RunKeepsConsent(ov: Overrides, issues: seq<Issue>, es: seq<Event>, k: nat, ev: Evidence)
    requires k < |issues| && Carries(issues[k], ev) && issues[k].status in ["approved", "done", "rejected"]
    requires Untouched(es, k)
    ensures var end := Run(ov, issues, es);
            && k < |end| && Carries(end[k], ev)
            && (end[k].approval.value.planHash == issues[k].approval.value.planHash
                || exists e <- es :: e.Gated? && end[k].approval.value.planHash == e.planHash)
    decreases |es|
  {
    if es != [] {
      assert es[0] in es;
      assert forall e <- es[1..] :: e in es;
      HappenKeepsConsent(ov, issues, es[0], k, ev);
      RunKeepsConsent(ov, Happen(ov, issues, es[0]), es[1..], k, ev);
    }
  }

  /** A reopened Issue is open to the gate again, but the comment it was granted on is
      spent: whatever is granted on it now rests on another comment, or on none. */
  lemma ReopenedNeedsAnotherComment(a: Ask, ov: Overrides, issues: seq<Issue>, k: nat)
    requires k < |issues| && issues[k].status == "rejected" && issues[k].approval.Some?
    ensures var iss := Happen(ov, issues, Reopened(k))[k];
            && Open(iss) && InScope(iss) && iss.approval == issues[k].approval
            && (Verdict(a, ov, iss).Granted? && !Verdict(a, ov, iss).evidence.auto ==>
                  Verdict(a, ov, iss).evidence.commentId != issues[k].approval.value.commentId)
  {
    var iss := Happen(ov, issues, Reopened(k))[k];
    if Verdict(a, ov, iss).Granted? {
      FreshGrantMeans(AskFor(a, ov, iss), iss);
    }
  }

  lemma GateCarries(a: Ask, ov: Overrides, planHash: string, issues: seq<Issue>, wrote: nat, k: nat)
    requires ScopeGrants(a, ov, issues) && k < |issues| && k < wrote && InScope(issues[k])
    ensures var r := Gate(a, ov, planHash, issues, wrote)[k];
            && Carries(r, Verdict(a, ov, issues[k]).evidence) && InScope(r) && r.status == "approved"
            && r.approval.value.planHash == planHash
  {
  }

  /** From the grant to the submit: as long as one Issue the grant was written on is
      still live, or live again, whatever else arrived, was said, closed or reopened,
      opening the merge request is not blocked, and submitting is blocked only by the
      ceiling. */
  lemma GrantKeepsShipOpen(a: Ask, ov: Overrides, planHash: string, issues: seq<Issue>, wrote: nat, es: seq<Event>,
                           k: nat, p: Project, significance: string)
    requires ScopeGrants(a, ov, issues) && k < |issues| && k < wrote && InScope(issues[k])
    requires var end := Run(ov, Gate(a, ov, planHash, issues, wrote), es); k < |end| && InScope(end[k])
    ensures var end := Run(ov, Gate(a, ov, planHash, issues, wrote), es);
            && Ship(p, ov, end, "") == []
            && (forall b <- Ship(p, ov, end, significance) :: b.detail == OverAutoCeiling)
            && (!OverCeiling(p, significance) ==> Ship(p, ov, end, significance) == [])
  {
    var end := Run(ov, Gate(a, ov, planHash, issues, wrote), es);
    GateCarries(a, ov, planHash, issues, wrote, k);
    EvidenceStands(ov, Gate(a, ov, planHash, issues, wrote), es, k);
    assert LiveGrant(end[k]);
    LiveGrantOpens(p, ov, end, significance);
  }

  lemma LiveGrantOpens(p: Project, ov: Overrides, end: seq<Issue>, significance: string)
    requires GateRan(end)
    ensures Ship(p, ov, end, "") == []
    ensures forall b <- Ship(p, ov, end, significance) :: b.detail == OverAutoCeiling
    ensures !OverCeiling(p, significance) ==> Ship(p, ov, end, significance) == []
  {
    OpenPathClear(p, ov, end);
    forall b | b in Ship(p, ov, end, significance)
      ensures b.detail == OverAutoCeiling && OverCeiling(p, significance)
    {
      CollectMembers(p, ov, end, true, significance, b);
    }
    if Ship(p, ov, end, significance) != [] {
      assert Ship(p, ov, end, significance)[0] in Ship(p, ov, end, significance);
    }
  }

  // ---------- when the run is not gated again, exactly when ----------

  lemma EvidenceFixedByOne(ov: Overrides, issues: seq<Issue>, e: Event)
    requires !e.Gated?
    ensures var after := Happen(ov, issues, e);
            && |issues| <= |after|
            && (forall k :: 0 <= k < |issues| ==> after[k].approval == issues[k].approval)
            && (forall k :: |issues| <= k < |after| ==> after[k].approval.None?)
  {
  }

  /** Without another gate call evidence neither comes nor goes. */
  lemma {:induction false} EvidenceFixed(ov: Overrides, issues: seq<Issue>, es: seq<Event>)
    requires forall e <- es :: !e.Gated?
    ensures var end := Run(ov, issues, es);
            && |issues| <= |end|
            && (forall k :: 0 <= k < |issues| ==> end[k].approval == issues[k].approval)
            && (forall k :: |issues| <= k < |end| ==> end[k].approval.None?)
    decreases |es|
  {
    if es != [] {
      assert es[0] in es;
      assert forall e <- es[1..] :: e in es;
      EvidenceFixedByOne(ov, issues, es[0]);
      EvidenceFixed(ov, Happen(ov, issues, es[0]), es[1..]);
    }
  }

  /** The Issue carries evidence once the gate was called: it did before, or the grant
      was written on it. */
  ghost predicate Evidenced(issues: seq<Issue>, wrote: nat, k: nat)
    requires k < |issues|
  {
    issues[k].approval.Some? || (k < wrote && InScope(issues[k]))
  }

  /** The whole-run law of the open path. A run that does not pass the gate again, with
      any reopenings, leaves it clear exactly when an Issue with evidence is live at the
      end or no Issue is: so closing every such Issue while a late one is live wedges
      the Task, and nothing else does. */
  lemma OpenPathClearIff(a: Ask, ov: Overrides, planHash: string, issues: seq<Issue>, wrote: nat, es: seq<Event>, p: Project)
    requires ScopeGrants(a, ov, issues)
    requires forall e <- es :: !e.Gated?
    ensures var end := Run(ov, Gate(a, ov, planHash, issues, wrote), es);
            && |issues| <= |end|
            && (Ship(p, ov, end, "") == [] <==>
                || (exists k :: 0 <= k < |issues| && Evidenced(issues, wrote, k) && InScope(end[k]))
                || (forall iss <- end :: !InScope(iss)))
  {
    var granted := Gate(a, ov, planHash, issues, wrote);
    var end := Run(ov, granted, es);
    EvidenceFixed(ov, granted, es);
    OpenPathClear(p, ov, end);
    forall k | 0 <= k < |issues|
      ensures LiveGrant(end[k]) <==> Evidenced(issues, wrote, k) && InScope(end[k])
    {
      assert granted[k].approval.Some? <==> Evidenced(issues, wrote, k);
    }
    if k :| 0 <= k < |end| && LiveGrant(end[k]) {
      assert k < |issues| && Evidenced(issues, wrote, k);
    }
    if k :| 0 <= k < |issues| && Evidenced(issues, wrote, k) && InScope(end[k]) {
      assert LiveGrant(end[k]);
    }
  }

  lemma LateThenClosed(ov: Overrides, issues: seq<Issue>, late: Issue)
    requires |issues| == 1
    ensures var end := Run(ov, issues, [Arrived(late), Mirrored(0, false)]);
            |end| == 2 && end[0].state == "closed" && end[1] == late.(approval := None)
  {
    var es := [Arrived(late), Mirrored(0, false)];
    var mid := Happen(ov, issues, es[0]);
    assert es[1..] == [Mirrored(0, false)] && es[1..][1..] == [];
    assert Run(ov, issues, es) == Run(ov, mid, es[1..]);
    assert Run(ov, mid, es[1..]) == Happen(ov, mid, es[1]);
  }

  lemma LateBlocks(ov: Overrides, end: seq<Issue>, p: Project)
    requires |end| == 2 && end[0].state == "closed" && InScope(end[1]) && end[1].approval.None?
    ensures Ship(p, ov, end, "") != []
  {
    OpenPathClear(p, ov, end);
    assert end[1] in end;
  }

  /** A granted Task of one Issue, a late arrival, and the closing of the granted one:
      the open path is blocked. */
  lemma ClosedScopeWedges(a: Ask, ov: Overrides, planHash: string, iss: Issue, late: Issue, p: Project)
    requires ScopeGrants(a, ov, [iss]) && InScope(late)
    ensures Ship(p, ov, Run(ov, Gate(a, ov, planHash, [iss], 1), [Arrived(late), Mirrored(0, false)]), "") != []
  {
    var granted := Gate(a, ov, planHash, [iss], 1);
    LateThenClosed(ov, granted, late);
    LateBlocks(ov, Run(ov, granted, [Arrived(late), Mirrored(0, false)]), p);
  }

  // ---------- the carve-out is provisional ----------

  /** A grant by the carve-out is settled at submit: after any run that leaves the Issue
      live it is named as a blocker exactly when its evidence is still automatic and the
      declared significance over the ceiling; and automatic it stays unless the Issue was
      rejected and reopened. */
  lemma AutoGrantSettledAtSubmit(a: Ask, ov: Overrides, planHash: string, issues: seq<Issue>, wrote: nat, es: seq<Event>,
                                 k: nat, p: Project, significance: string)
    requires ScopeGrants(a, ov, issues) && k < |issues| && k < wrote && InScope(issues[k])
    requires Verdict(a, ov, issues[k]).evidence.auto
    requires var end := Run(ov, Gate(a, ov, planHash, issues, wrote), es); k < |end| && InScope(end[k]) && DistinctNumbers(end)
    ensures var end := Run(ov, Gate(a, ov, planHash, issues, wrote), es);
            && end[k].approval.Some?
            && (Untouched(es, k) ==> end[k].approval.value.auto)
            && ((exists b <- Ship(p, ov, end, significance) :: (b.repo, b.number) == (end[k].repo, end[k].number)) <==>
                end[k].approval.value.auto && significance != "" && OverCeiling(p, significance))
  {
    var granted := Gate(a, ov, planHash, issues, wrote);
    var end := Run(ov, granted, es);
    GateCarries(a, ov, planHash, issues, wrote, k);
    EvidenceStands(ov, granted, es, k);
    if Untouched(es, k) {
      RunKeepsConsent(ov, granted, es, k, Verdict(a, ov, issues[k]).evidence);
    }
    assert LiveGrant(end[k]);
    NamedExactlyWhen(p, ov, end, significance, k);
  }

  /** Work the carve-out releases can ship at some declared significance exactly when the
      Project's ceiling is a ranked one, and its own ceiling is one such significance. The
      enumeration of the field leaves `off`, which releases nothing, and the three ranks. */
  lemma AutoGrantCanShipIff(a: Ask, ov: Overrides, iss: Issue)
    requires Open(iss) && AllAxesPass(a, iss) && (forall c <- iss.comments :: !ByMaintainer(a, c))
    ensures var list := [iss.(status := "approved", approval := Some(AutoEvidence(a.now)))];
            && Decide(a, iss) == Granted(AutoEvidence(a.now))
            && ((exists s :: s != "" && Ship(a.project, ov, list, s) == []) <==> Rank(a.project.autoApproveMax).Some?)
            && (Rank(a.project.autoApproveMax).Some? ==> Ship(a.project, ov, list, a.project.autoApproveMax) == [])
  {
    CarveOutGrants(a, iss);
    var list := [iss.(status := "approved", approval := Some(AutoEvidence(a.now)))];
    forall s | s != ""
      ensures Ship(a.project, ov, list, s) == [] <==> !OverCeiling(a.project, s)
    {
      OneAutoShips(a.project, ov, list[0], s);
    }
    if Rank(a.project.autoApproveMax).Some? {
      assert !OverCeiling(a.project, a.project.autoApproveMax);
    }
  }

  lemma OneAutoShips(p: Project, ov: Overrides, iss: Issue, s: string)
    requires InScope(iss) && iss.approval.Some? && iss.approval.value.auto
    ensures Ship(p, ov, [iss], s) == [] <==> !OverCeiling(p, s)
  {
    var list := [iss];
    assert LiveGrant(list[0]) && GateRan(list);
    assert list[1..] == [] && Collect(p, ov, list[1..], true, s) == [];
    assert BlockerOf(p, ov, iss, true, s).Some? <==> OverCeiling(p, s);
  }
}
