/** The ship gate: may the change leave, given the approval state of the Issues the
    Task owns now? */
module ShipGate {
  import opened Wrappers
  import opened Logins
  import opened ApprovalGate

  datatype Detail = NeedsMaintainerComment | NeedsApprovalTool | OverAutoCeiling

  datatype Blocker = Blocker(repo: string, number: int, detail: Detail)

  /** The maintainer override of each Repository, by its name. */
  type Overrides = string -> Override

  function BotLogin(p: Project): string {
    if p.scm.Some? then p.scm.value.botLogin else ""
  }

  function OverrideFor(ov: Overrides, iss: Issue): Override {
    if iss.repo == "" then None else ov(iss.repo)
  }

  predicate HasMaintainerComment(p: Project, ov: Overrides, iss: Issue) {
    exists k :: 0 <= k < |iss.comments| && MaintainerComment(iss.comments[k], p, OverrideFor(ov, iss), BotLogin(p))
  }

  function NoEvidenceDetail(p: Project, ov: Overrides, iss: Issue): Detail {
    if HasMaintainerComment(p, ov, iss) then NeedsApprovalTool else NeedsMaintainerComment
  }

  predicate LiveGrant(iss: Issue) {
    InScope(iss) && iss.approval.Some?
  }

  predicate GateRan(issues: seq<Issue>) {
    exists k :: 0 <= k < |issues| && LiveGrant(issues[k])
  }

  /** The blocker one Issue contributes. */
  function BlockerOf(p: Project, ov: Overrides, iss: Issue, ran: bool, significance: string): Option<Blocker> {
    if !InScope(iss) then None
    else if !ran then Some(Blocker(iss.repo, iss.number, NoEvidenceDetail(p, ov, iss)))
    else if iss.approval.Some? && iss.approval.value.auto && OverCeiling(p, significance) then
      Some(Blocker(iss.repo, iss.number, OverAutoCeiling))
    else None
  }

  function Collect(p: Project, ov: Overrides, issues: seq<Issue>, ran: bool, significance: string): seq<Blocker> {
    if issues == [] then []
    else
      var b := BlockerOf(p, ov, issues[0], ran, significance);
      (if b.Some? then [b.value] else []) + Collect(p, ov, issues[1..], ran, significance)
  }

  function Ship(p: Project, ov: Overrides, issues: seq<Issue>, significance: string): seq<Blocker> {
    Collect(p, ov, issues, GateRan(issues), significance)
  }

  lemma {:induction false} CollectSnoc(p: Project, ov: Overrides, issues: seq<Issue>, last: Issue, ran: bool, significance: string)
    ensures Collect(p, ov, issues + [last], ran, significance) ==
            Collect(p, ov, issues, ran, significance) + Collect(p, ov, [last], ran, significance)
  {
    if issues == [] {
      assert issues + [last] == [last];
    } else {
      assert (issues + [last])[0] == issues[0] && (issues + [last])[1..] == issues[1..] + [last];
      CollectSnoc(p, ov, issues[1..], last, ran, significance);
    }
  }

  lemma CollectNext(p: Project, ov: Overrides, issues: seq<Issue>, i: nat, ran: bool, significance: string)
    requires i < |issues|
    ensures Collect(p, ov, issues[..i + 1], ran, significance) ==
            Collect(p, ov, issues[..i], ran, significance)
            + (var b := BlockerOf(p, ov, issues[i], ran, significance); if b.Some? then [b.value] else [])
  {
    assert issues[..i + 1] == issues[..i] + [issues[i]];
    CollectSnoc(p, ov, issues[..i], issues[i], ran, significance);
  }

  function LiveOf(iss: Issue): (r: seq<Issue>)
    ensures forall x <- r :: InScope(x)
  {
    if InScope(iss) then [iss] else []
  }

  function Live(issues: seq<Issue>): (r: seq<Issue>)
    ensures forall iss <- r :: InScope(iss)
  {
    if issues == [] then [] else LiveOf(issues[0]) + Live(issues[1..])
  }

  lemma {:induction false} CollectLive(p: Project, ov: Overrides, issues: seq<Issue>, ran: bool, significance: string)
    ensures Collect(p, ov, Live(issues), ran, significance) == Collect(p, ov, issues, ran, significance)
  {
    if issues != [] {
      CollectLive(p, ov, issues[1..], ran, significance);
      if InScope(issues[0]) {
        assert Live(issues)[0] == issues[0] && Live(issues)[1..] == Live(issues[1..]);
      } else {
        assert Live(issues) == Live(issues[1..]);
      }
    }
  }

  lemma {:induction false} LiveSnoc(issues: seq<Issue>, last: Issue)
    ensures Live(issues + [last]) == Live(issues) + LiveOf(last)
  {
    if issues == [] {
      assert issues + [last] == [last] && [last][1..] == [];
      assert Live([last]) == LiveOf(last) + Live([]);
    } else {
      LiveSnoc(issues[1..], last);
      assert (issues + [last])[0] == issues[0] && (issues + [last])[1..] == issues[1..] + [last];
      assert (LiveOf(issues[0]) + Live(issues[1..])) + LiveOf(last) == LiveOf(issues[0]) + (Live(issues[1..]) + LiveOf(last));
    }
  }

  method LiveAndGranted(issues: seq<Issue>) returns (live: seq<Issue>, granted: bool)
    ensures live == Live(issues) && granted == GateRan(issues)
  {
    live, granted := [], false;
    for i := 0 to |issues|
      invariant live == Live(issues[..i])
      invariant granted == exists k :: 0 <= k < i && LiveGrant(issues[k])
    {
      assert issues[..i + 1] == issues[..i] + [issues[i]];
      LiveSnoc(issues[..i], issues[i]);
      if !InScope(issues[i]) {
        continue;
      }
      live := live + [issues[i]];
      if issues[i].approval.Some? {
        assert LiveGrant(issues[i]);
        granted := true;
      }
    }
    assert issues[..|issues|] == issues;
  }

  /** Filters the live Issues, asks whether any of them carries evidence, and then
      names either every live Issue or the auto-approved ones over the ceiling. */
  method ApprovalShipVerdict(p: Project, ov: Overrides, issues: seq<Issue>, significance: string)
    returns (out: seq<Blocker>)
    ensures out == Ship(p, ov, issues, significance)
  {
    var live, granted := LiveAndGranted(issues);
    CollectLive(p, ov, issues, granted, significance);
    out := [];
    if |live| == 0 {
      return;
    }
    if !granted {
      out := NameAll(p, ov, live, significance);
    } else {
      out := NameOverCeiling(p, ov, live, significance);
    }
  }

  method NameAll(p: Project, ov: Overrides, live: seq<Issue>, ghost significance: string) returns (out: seq<Blocker>)
    requires forall k :: 0 <= k < |live| ==> InScope(live[k])
    ensures out == Collect(p, ov, live, false, significance)
  {
    out := [];
    for i := 0 to |live|
      invariant out == Collect(p, ov, live[..i], false, significance)
    {
      CollectNext(p, ov, live, i, false, significance);
      out := out + [Blocker(live[i].repo, live[i].number, NoEvidenceDetail(p, ov, live[i]))];
    }
    assert live[..|live|] == live;
  }

  method NameOverCeiling(p: Project, ov: Overrides, live: seq<Issue>, significance: string) returns (out: seq<Blocker>)
    requires forall k :: 0 <= k < |live| ==> InScope(live[k])
    ensures out == Collect(p, ov, live, true, significance)
  {
    out := [];
    for i := 0 to |live|
      invariant out == Collect(p, ov, live[..i], true, significance)
    {
      CollectNext(p, ov, live, i, true, significance);
      var ev := live[i].approval;
      if ev.None? || !ev.value.auto {
        continue;
      }
      if OverCeiling(p, significance) {
        out := out + [Blocker(live[i].repo, live[i].number, OverAutoCeiling)];
      }
    }
    assert live[..|live|] == live;
  }

  // ---------- who is named ----------

  lemma {:induction false} CollectMembers(p: Project, ov: Overrides, issues: seq<Issue>, ran: bool, significance: string, b: Blocker)
    ensures b in Collect(p, ov, issues, ran, significance) <==>
            exists k :: 0 <= k < |issues| && BlockerOf(p, ov, issues[k], ran, significance) == Some(b)
  {
    if issues != [] {
      CollectMembers(p, ov, issues[1..], ran, significance, b);
      if k :| 0 <= k < |issues| && BlockerOf(p, ov, issues[k], ran, significance) == Some(b) {
        if k > 0 {
          assert issues[1..][k - 1] == issues[k];
        }
      }
      if k :| 0 <= k < |issues[1..]| && BlockerOf(p, ov, issues[1..][k], ran, significance) == Some(b) {
        assert issues[k + 1] == issues[1..][k];
      }
    }
  }

  predicate DistinctNumbers(issues: seq<Issue>) {
    forall i, j :: 0 <= i < j < |issues| ==> (issues[i].repo, issues[i].number) != (issues[j].repo, issues[j].number)
  }

  /** An Issue is named exactly when it is live and either no live Issue carries
      evidence at all, or its own evidence is automatic and the declared change is
      over the ceiling. So a cited approval is never capped, and the open path, which
      declares no significance, asks for evidence only. */
  lemma NamedExactlyWhen(p: Project, ov: Overrides, issues: seq<Issue>, significance: string, k: nat)
    requires DistinctNumbers(issues) && k < |issues|
    ensures (exists b <- Ship(p, ov, issues, significance) :: (b.repo, b.number) == (issues[k].repo, issues[k].number)) <==>
            InScope(issues[k]) &&
            (!GateRan(issues) ||
             (issues[k].approval.Some? && issues[k].approval.value.auto
              && significance != "" && OverCeiling(p, significance)))
  {
    var ran := GateRan(issues);
    if b :| b in Ship(p, ov, issues, significance) && (b.repo, b.number) == (issues[k].repo, issues[k].number) {
      CollectMembers(p, ov, issues, ran, significance, b);
      var j :| 0 <= j < |issues| && BlockerOf(p, ov, issues[j], ran, significance) == Some(b);
      assert j == k;
    }
    if BlockerOf(p, ov, issues[k], ran, significance).Some? {
      CollectMembers(p, ov, issues, ran, significance, BlockerOf(p, ov, issues[k], ran, significance).value);
    }
  }

  /** The open path is clear exactly when nothing is live or something live was granted. */
  lemma OpenPathClear(p: Project, ov: Overrides, issues: seq<Issue>)
    ensures Ship(p, ov, issues, "") == [] <==> GateRan(issues) || forall iss <- issues :: !InScope(iss)
  {
    forall b: Blocker
      ensures b in Ship(p, ov, issues, "") <==>
              exists k :: 0 <= k < |issues| && BlockerOf(p, ov, issues[k], GateRan(issues), "") == Some(b)
    {
      CollectMembers(p, ov, issues, GateRan(issues), "", b);
    }
    if Ship(p, ov, issues, "") != [] {
      assert Ship(p, ov, issues, "")[0] in Ship(p, ov, issues, "");
    } else if !GateRan(issues) {
      forall k | 0 <= k < |issues|
        ensures !InScope(issues[k])
      {
        assert BlockerOf(p, ov, issues[k], false, "") == None by {
          assert forall b: Blocker :: b !in Ship(p, ov, issues, "");
          assert forall b: Blocker :: BlockerOf(p, ov, issues[k], false, "") != Some(b);
        }
      }
    }
  }

  // ---------- significance and ceiling ----------

  /** `a` declares no more than `b`: nothing, a rank not above b's, or anything
      against a level nobody knows. */
  predicate NoMoreThan(a: string, b: string) {
    a == "" || (b != "" && (Rank(b).None? || (Rank(a).Some? && Rank(a).value <= Rank(b).value)))
  }

  lemma BlockerMonotone(p: Project, q: Project, ov: Overrides, iss: Issue, ran: bool, s: string, t: string)
    requires p.scm == q.scm
    requires OverCeiling(p, s) ==> OverCeiling(q, t)
    requires BlockerOf(p, ov, iss, ran, s).Some?
    ensures BlockerOf(q, ov, iss, ran, t) == BlockerOf(p, ov, iss, ran, s)
  {
  }

  lemma CollectMonotone(p: Project, q: Project, ov: Overrides, issues: seq<Issue>, ran: bool, s: string, t: string)
    requires p.scm == q.scm
    requires OverCeiling(p, s) ==> OverCeiling(q, t)
    ensures var small, large := Collect(p, ov, issues, ran, s), Collect(q, ov, issues, ran, t);
            forall b <- small :: b in large
  {
    var small, large := Collect(p, ov, issues, ran, s), Collect(q, ov, issues, ran, t);
    forall b | b in small
      ensures b in large
    {
      CollectMembers(p, ov, issues, ran, s, b);
      CollectMembers(q, ov, issues, ran, t, b);
      var k :| 0 <= k < |issues| && BlockerOf(p, ov, issues[k], ran, s) == Some(b);
      BlockerMonotone(p, q, ov, issues[k], ran, s, t);
    }
  }

  /** Blockers only grow with the declared significance and only shrink as the
      ceiling is raised. */
  lemma BlockersMonotone(p: Project, q: Project, ov: Overrides, issues: seq<Issue>, s: string, t: string)
    requires p.scm == q.scm
    requires NoMoreThan(s, t) && CeilingRank(Ceiling(q)) <= CeilingRank(Ceiling(p))
    ensures forall b <- Ship(p, ov, issues, s) :: b in Ship(q, ov, issues, t)
  {
    CollectMonotone(p, q, ov, issues, GateRan(issues), s, t);
    assert Ship(p, ov, issues, s) == Collect(p, ov, issues, GateRan(issues), s);
    assert Ship(q, ov, issues, t) == Collect(q, ov, issues, GateRan(issues), t);
  }

  // ---------- arrivals and closures ----------

  /** Once some live Issue carries evidence, a late Issue without any adds nothing. */
  lemma LateArrivalAddsNothing(p: Project, ov: Overrides, issues: seq<Issue>, late: Issue, significance: string)
    requires GateRan(issues) && late.approval.None?
    ensures Ship(p, ov, issues + [late], significance) == Ship(p, ov, issues, significance)
  {
    var k :| 0 <= k < |issues| && LiveGrant(issues[k]);
    assert LiveGrant((issues + [late])[k]);
    CollectSnoc(p, ov, issues, late, true, significance);
  }

  function CloseWhere(issues: seq<Issue>, closed: set<nat>): (r: seq<Issue>)
    ensures |r| == |issues|
    ensures forall k :: 0 <= k < |issues| ==> r[k] == if k in closed then issues[k].(state := "closed") else issues[k]
  {
    seq(|issues|, k requires 0 <= k < |issues| => if k in closed then issues[k].(state := "closed") else issues[k])
  }

  /** Closing Issues adds a blocker in one case only: it takes away the last evidence
      a live Issue carried and leaves some other Issue live. */
  lemma ClosingAddsBlockerIff(p: Project, ov: Overrides, issues: seq<Issue>, closed: set<nat>, significance: string)
    ensures var after := CloseWhere(issues, closed);
            (forall b <- Ship(p, ov, after, significance) :: b in Ship(p, ov, issues, significance)) <==>
            !(GateRan(issues) && !GateRan(after) && exists iss <- after :: InScope(iss))
  {
    var after := CloseWhere(issues, closed);
    assert forall k :: 0 <= k < |issues| && InScope(after[k]) ==> after[k] == issues[k];
    if k :| 0 <= k < |after| && LiveGrant(after[k]) {
      assert LiveGrant(issues[k]);
    }
    if GateRan(issues) == GateRan(after) {
      ClosingShrinks(p, ov, issues, after, GateRan(issues), significance);
    } else if iss :| iss in after && InScope(iss) {
      assert GateRan(issues) && !GateRan(after);
      var k :| 0 <= k < |after| && after[k] == iss;
      var b := BlockerOf(p, ov, after[k], false, significance).value;
      CollectMembers(p, ov, after, false, significance, b);
      CollectMembers(p, ov, issues, true, significance, b);
      assert b in Ship(p, ov, after, significance) && b !in Ship(p, ov, issues, significance);
    } else {
      assert forall k :: 0 <= k < |after| ==> !InScope(after[k]);
      forall b | b in Ship(p, ov, after, significance)
        ensures false
      {
        CollectMembers(p, ov, after, false, significance, b);
      }
    }
  }

  lemma ClosingShrinks(p: Project, ov: Overrides, issues: seq<Issue>, after: seq<Issue>, ran: bool, significance: string)
    requires |after| == |issues|
    requires forall k :: 0 <= k < |issues| && InScope(after[k]) ==> after[k] == issues[k]
    ensures forall b <- Collect(p, ov, after, ran, significance) :: b in Collect(p, ov, issues, ran, significance)
  {
    forall b | b in Collect(p, ov, after, ran, significance)
      ensures b in Collect(p, ov, issues, ran, significance)
    {
      CollectMembers(p, ov, after, ran, significance, b);
      CollectMembers(p, ov, issues, ran, significance, b);
      var k :| 0 <= k < |after| && BlockerOf(p, ov, after[k], ran, significance) == Some(b);
    }
  }

  /** In particular, while every live Issue carries evidence no closure adds one. */
  lemma FullyGrantedClosesFreely(p: Project, ov: Overrides, issues: seq<Issue>, closed: set<nat>, significance: string)
    requires forall iss <- issues :: InScope(iss) ==> iss.approval.Some?
    ensures forall b <- Ship(p, ov, CloseWhere(issues, closed), significance) :: b in Ship(p, ov, issues, significance)
  {
    var after := CloseWhere(issues, closed);
    if iss :| iss in after && InScope(iss) {
      var k :| 0 <= k < |after| && after[k] == iss;
      assert issues[k] in issues;
      assert LiveGrant(after[k]);
    }
    ClosingAddsBlockerIff(p, ov, issues, closed, significance);
  }
}
