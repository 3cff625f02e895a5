/** The deploying stage: pass after pass it looks for evidence that each merged merge
    request is live, stamps it once, and delivers the Task when all of them carry it. */
module DeployStage {
  import opened Wrappers
  import Pins

  type Time = int

  const SECOND := 1_000_000_000
  const PIN_FANOUT_DEADLINE := 45 * 60 * SECOND
  const HELMFILE := "tatara-helmfile"

  /** A merge request as stored, or as some read returned it. */
  datatype MR = MR(merged: bool, mergedAt: Option<Time>, deployedAt: Option<Time>, version: string)

  datatype ApplyRun = ApplyRun(completed: bool, success: bool, createdAt: Time, sha: string)

  datatype Tag = Unread | NotCut | Cut(tag: string)

  /** What the cluster and the forge answer about one merge request in one pass. A read
      of the apply run that failed, found none or found no success looks the same. */
  datatype Answers = Answers(
    reachable: bool,               // repository, its address, forge and reader
    cascade: bool,                 // a deploy watcher, and an enrolled deploy repository
    name: string,
    run: Option<ApplyRun>,
    tag: Tag,
    mainPin: Option<string>,
    appliedPin: Option<string>,
    written: bool,                 // the stamp's write
    now: Time)

  datatype Verdict = Deployed | NotYet | Stalled | Failed

  // ---------- the evidence ----------

  /** A successful apply that did not start before a recorded merge. */
  predicate GreenSince(mr: MR, a: Answers) {
    && a.run.Some? && a.run.value.completed && a.run.value.success
    && (mr.mergedAt.Some? ==> mr.mergedAt.value <= a.run.value.createdAt)
  }

  predicate Present(r: Pins.Releases, pinState: string, name: string) {
    Pins.Present(r, Pins.Split(pinState), name)
  }

  predicate AtOrPast(r: Pins.Releases, pinState: string, name: string, tag: string) {
    Pins.AtOrPast(r, Pins.Split(pinState), name, tag)
  }

  predicate NotPinned(r: Pins.Releases, a: Answers) {
    && a.cascade && a.name != HELMFILE
    && a.tag != Unread && a.mainPin.Some? && !Present(r, a.mainPin.value, a.name)
  }

  /** Pinned, with a tag to wait for. */
  predicate Awaited(r: Pins.Releases, a: Answers) {
    && a.cascade && a.name != HELMFILE
    && a.tag.Cut? && a.mainPin.Some? && Present(r, a.mainPin.value, a.name)
  }

  predicate Carried(r: Pins.Releases, a: Answers) {
    a.tag.Cut? && a.appliedPin.Some? && AtOrPast(r, a.appliedPin.value, a.name, a.tag.tag)
  }

  /** The four grounds a stamp may rest on. */
  predicate Live(r: Pins.Releases, mr: MR, a: Answers) {
    || !a.cascade
    || (a.name == HELMFILE && GreenSince(mr, a))
    || NotPinned(r, a)
    || (Awaited(r, a) && GreenSince(mr, a) && Carried(r, a))
  }

  /** The pin has provably not reached the deploy repository's main in time, and no
      apply that might carry it is left to look at. */
  predicate Overdue(r: Pins.Releases, mr: MR, a: Answers) {
    && Awaited(r, a) && !AtOrPast(r, a.mainPin.value, a.name, a.tag.tag)
    && mr.mergedAt.Some? && a.now - mr.mergedAt.value >= PIN_FANOUT_DEADLINE
    && !(GreenSince(mr, a) && (a.appliedPin.None? || Carried(r, a)))
  }

  function ShortSHA(sha: string): string {
    if |sha| > 7 then sha[..7] else sha
  }

  function StampVersion(a: Answers): string {
    if !a.cascade then ""
    else if a.name == HELMFILE then
      if a.run.Some? then HELMFILE + "@" + ShortSHA(a.run.value.sha) else ""
    else if a.tag.Cut? then a.tag.tag else ""
  }

  function Stamp(m: MR, now: Time, version: string): MR {
    m.(deployedAt := if m.deployedAt.None? then Some(now) else m.deployedAt,
       version := if version != "" then version else m.version)
  }

  // ---------- one pass, as functions ----------

  /** One listed merge request: which one, and the possibly old state the list gave. */
  datatype View = View(id: nat, mr: MR)

  datatype Pass = Pass(
    listed: bool,
    view: seq<View>,
    answers: seq<Answers>,
    parks: bool,
    relisted: bool,
    review: seq<View>,
    closes: seq<bool>,
    enters: bool,
    now: Time)

  predicate Asked(v: View) {
    v.mr.merged && v.mr.deployedAt.None?
  }

  predicate Stamps(r: Pins.Releases, v: View, a: Answers) {
    Asked(v) && a.reachable && Live(r, v.mr, a) && a.written
  }

  predicate Halts(r: Pins.Releases, v: View, a: Answers) {
    Asked(v) && (!a.reachable || (if Live(r, v.mr, a) then !a.written else Overdue(r, v.mr, a)))
  }

  /** The merge request the pass stops at, the length when there is none. */
  function HaltAt(r: Pins.Releases, p: Pass, k: nat): (i: nat)
    requires k <= |p.view| == |p.answers|
    ensures k <= i <= |p.view|
    ensures i < |p.view| ==> Halts(r, p.view[i], p.answers[i])
    ensures forall j :: k <= j < i ==> !Halts(r, p.view[j], p.answers[j])
    decreases |p.view| - k
  {
    if k == |p.view| || Halts(r, p.view[k], p.answers[k]) then k else HaltAt(r, p, k + 1)
  }

  predicate Settled(r: Pins.Releases, v: View, a: Answers) {
    v.mr.merged && (v.mr.deployedAt.Some? || Stamps(r, v, a))
  }

  /** The store once the first n listed merge requests were looked at. */
  function Swept(r: Pins.Releases, store: seq<MR>, p: Pass, n: nat): (s: seq<MR>)
    requires n <= |p.view| == |p.answers| && Ids(store, p.view)
    ensures |s| == |store|
  {
    if n == 0 then store
    else
      var s := Swept(r, store, p, n - 1);
      var v, a := p.view[n - 1], p.answers[n - 1];
      if Stamps(r, v, a) then s[v.id := Stamp(s[v.id], a.now, StampVersion(a))] else s
  }

  predicate Ids(store: seq<MR>, view: seq<View>) {
    forall k :: 0 <= k < |view| ==> view[k].id < |store|
  }

  /** The list may be old: it may miss a merge or a stamp, but makes up neither, and it
      names each merge request once. */
  ghost predicate Seen(store: seq<MR>, view: seq<View>) {
    && Ids(store, view)
    && (forall j, k :: 0 <= j < k < |view| ==> view[j].id != view[k].id)
    && (forall k :: 0 <= k < |view| && view[k].mr.merged ==> store[view[k].id].merged)
    && (forall k :: 0 <= k < |view| && view[k].mr.deployedAt.Some? ==>
          view[k].mr.deployedAt == store[view[k].id].deployedAt)
  }

  predicate AllDeployed(view: seq<View>) {
    view != [] && forall k :: 0 <= k < |view| ==> view[k].mr.merged && view[k].mr.deployedAt.Some?
  }

  /** The first open issue whose closing fails, the length when there is none. */
  function CloseFailsAt(open: seq<bool>, closes: seq<bool>, k: nat): (i: nat)
    requires k <= |open| == |closes|
    ensures k <= i <= |open|
    ensures i < |open| ==> open[i] && !closes[i]
    ensures forall j :: k <= j < i ==> !open[j] || closes[j]
    decreases |open| - k
  {
    if k == |open| || (open[k] && !closes[k]) then k else CloseFailsAt(open, closes, k + 1)
  }

  function ClosedTo(open: seq<bool>, n: nat): (s: seq<bool>)
    requires n <= |open|
    ensures |s| == |open|
    ensures forall i :: 0 <= i < |open| ==> s[i] == (i >= n && open[i])
  {
    seq(|open|, i requires 0 <= i < |open| => i >= n && open[i])
  }

  datatype Outcome = Waiting | Error | Parked | Unsettled | Delivered

  // ---------- the driver ----------

  class Driver {
    const releases: Pins.Releases

    var store: seq<MR>
    var open: seq<bool>                // the Task's issues, whether each is open
    var deliveredAt: Option<Time>

    constructor (releases: Pins.Releases, store: seq<MR>, open: seq<bool>)
      ensures this.releases == releases && this.store == store && this.open == open && deliveredAt == None
    {
      this.releases, this.store, this.open, deliveredAt := releases, store, open, None;
    }

    /** The only writer of deployedAt. */
    method StampDeployed(id: nat, a: Answers, version: string) returns (ok: bool)
      requires id < |store|
      modifies `store
      ensures ok == a.written
      ensures store == if ok then old(store)[id := Stamp(old(store)[id], a.now, version)] else old(store)
    {
      if !a.written {
        return false;
      }
      var m := store[id];
      if m.deployedAt.None? {
        m := m.(deployedAt := Some(a.now));
      }
      if version != "" {
        m := m.(version := version);
      }
      store := store[id := m];
      return true;
    }

    /** What a wait amounts to once the tag is known. */
    method FanoutBoundedWait(mr: MR, a: Answers) returns (v: Verdict)
      requires a.mainPin.Some? && a.tag.Cut?
      ensures v == if !AtOrPast(releases, a.mainPin.value, a.name, a.tag.tag) && mr.mergedAt.Some?
                     && a.now - mr.mergedAt.value >= PIN_FANOUT_DEADLINE then Stalled else NotYet
    {
      var landed := Pins.PinAtOrPastArtifactVersion(releases, a.mainPin.value, a.name, a.tag.tag);
      if landed || mr.mergedAt.None? || a.now - mr.mergedAt.value < PIN_FANOUT_DEADLINE {
        return NotYet;
      }
      return Stalled;
    }

    /** One merged merge request. It is stamped exactly when it is live and the stamp
        can be written, and nothing else is ever written. */
    method ResolveDeployed(id: nat, mr: MR, a: Answers) returns (v: Verdict)
      requires id < |store|
      modifies `store
      ensures v == Deployed <==> a.reachable && Live(releases, mr, a) && a.written
      ensures v == Failed <==> !a.reachable || (Live(releases, mr, a) && !a.written)
      ensures v == Stalled <==> a.reachable && !Live(releases, mr, a) && Overdue(releases, mr, a)
      ensures store == if v == Deployed then old(store)[id := Stamp(old(store)[id], a.now, StampVersion(a))] else old(store)
    {
      if !a.reachable {
        return Failed;
      }
      var ok;
      if !a.cascade {
        ok := StampDeployed(id, a, "");
        return if ok then Deployed else Failed;
      }
      if a.name == HELMFILE {
        if a.run.None? || !a.run.value.completed || !a.run.value.success {
          return NotYet;
        }
        if mr.mergedAt.Some? && a.run.value.createdAt < mr.mergedAt.value {
          return NotYet;
        }
        ok := StampDeployed(id, a, HELMFILE + "@" + ShortSHA(a.run.value.sha));
        return if ok then Deployed else Failed;
      }
      v := ResolvePinned(id, mr, a);
    }

    method ResolvePinned(id: nat, mr: MR, a: Answers) returns (v: Verdict)
      requires id < |store| && a.reachable && a.cascade && a.name != HELMFILE
      modifies `store
      ensures v == Deployed <==> Live(releases, mr, a) && a.written
      ensures v == Failed <==> Live(releases, mr, a) && !a.written
      ensures v == Stalled <==> !Live(releases, mr, a) && Overdue(releases, mr, a)
      ensures store == if v == Deployed then old(store)[id := Stamp(old(store)[id], a.now, StampVersion(a))] else old(store)
    {
      if a.tag == Unread || a.mainPin.None? {
        return NotYet;
      }
      var ok;
      var present := Pins.PinArtifactPresent(releases, a.mainPin.value, a.name);
      if !present {
        ok := StampDeployed(id, a, if a.tag.Cut? then a.tag.tag else "");
        return if ok then Deployed else Failed;
      }
      if a.tag == NotCut {
        return NotYet;
      }
      if a.run.None? || !a.run.value.completed || !a.run.value.success {
        v := FanoutBoundedWait(mr, a);
        return;
      }
      if mr.mergedAt.Some? && a.run.value.createdAt < mr.mergedAt.value {
        v := FanoutBoundedWait(mr, a);
        return;
      }
      if a.appliedPin.None? {
        return NotYet;
      }
      var carried := Pins.PinAtOrPastArtifactVersion(releases, a.appliedPin.value, a.name, a.tag.tag);
      if !carried {
        v := FanoutBoundedWait(mr, a);
        return;
      }
      ok := StampDeployed(id, a, a.tag.tag);
      return if ok then Deployed else Failed;
    }

    /** Delivery: only over a non-empty list of deployed merge requests, and only after
        every open issue was closed. */
    method CloseIssuesOnDelivery(p: Pass) returns (o: Outcome)
      requires |p.closes| == |open|
      modifies `open, `deliveredAt
      ensures o == Delivered <==>
              p.relisted && AllDeployed(p.review) && CloseFailsAt(old(open), p.closes, 0) == |old(open)| && p.enters
      ensures o == Unsettled <==> p.relisted && !AllDeployed(p.review)
      ensures o in {Delivered, Unsettled, Error}
      ensures open == if p.relisted && AllDeployed(p.review) then ClosedTo(old(open), CloseFailsAt(old(open), p.closes, 0)) else old(open)
      ensures deliveredAt == if o == Delivered then Some(p.now) else old(deliveredAt)
    {
      if !p.relisted {
        return Error;
      }
      if |p.review| == 0 {
        return Unsettled;
      }
      for i := 0 to |p.review|
        invariant forall k :: 0 <= k < i ==> p.review[k].mr.merged && p.review[k].mr.deployedAt.Some?
      {
        if !p.review[i].mr.merged || p.review[i].mr.deployedAt.None? {
          return Unsettled;
        }
      }
      for i := 0 to |open|
        invariant |open| == |old(open)| == |p.closes|
        invariant open == ClosedTo(old(open), i)
        invariant CloseFailsAt(old(open), p.closes, 0) == CloseFailsAt(old(open), p.closes, i)
        invariant deliveredAt == old(deliveredAt)
      {
        if !open[i] {
          continue;
        }
        if !p.closes[i] {
          return Error;
        }
        open := open[i := false];
      }
      if !p.enters {
        return Error;
      }
      deliveredAt := Some(p.now);
      return Delivered;
    }

    /** The pass over the list: it stops at the first merge request that fails or is
        overdue, and counts those that are not settled before it. */
    method Sweep(p: Pass) returns (halt: Option<Verdict>, pending: nat)
      requires |p.answers| == |p.view| && Ids(store, p.view)
      modifies `store
      ensures store == Swept(releases, old(store), p, HaltAt(releases, p, 0))
      ensures halt.None? <==> HaltAt(releases, p, 0) == |p.view|
      ensures halt.Some? ==> (halt.value == Stalled <==> StallsAt(releases, p))
      ensures halt.None? ==> (pending == 0 <==> AllSettled(releases, p, |p.view|))
    {
      pending := 0;
      for i := 0 to |p.view|
        invariant |store| == |old(store)| && store == Swept(releases, old(store), p, i)
        invariant HaltAt(releases, p, 0) == HaltAt(releases, p, i)
        invariant pending == 0 <==> AllSettled(releases, p, i)
      {
        var mr := p.view[i].mr;
        if !mr.merged {
          pending := pending + 1;
          continue;
        }
        if mr.deployedAt.Some? {
          continue;
        }
        var v := ResolveDeployed(p.view[i].id, mr, p.answers[i]);
        if v == Stalled || v == Failed {
          return Some(v), pending;
        }
        if v != Deployed {
          pending := pending + 1;
        }
      }
      return None, pending;
    }

    /** One pass of the stage. */
    method ReconcileDeploying(p: Pass) returns (o: Outcome)
      requires |p.answers| == |p.view| && Ids(store, p.view) && |p.closes| == |open|
      modifies this
      ensures store == StoreAfter(releases, old(store), p)
      ensures open == OpenAfter(releases, old(open), p)
      ensures deliveredAt == if Delivers(releases, p, old(open)) then Some(p.now) else old(deliveredAt)
      ensures o == Delivered <==> Delivers(releases, p, old(open))
      ensures o == Parked <==> p.listed && p.parks && StallsAt(releases, p)
    {
      if !p.listed {
        return Error;
      }
      if |p.view| == 0 {
        return Waiting;
      }
      var halt, pending := Sweep(p);
      if halt.Some? {
        return if halt.value == Stalled && p.parks then Parked else Error;
      }
      if pending > 0 {
        return Waiting;
      }
      o := CloseIssuesOnDelivery(p);
    }
  }

  // ---------- what a pass leaves behind ----------

  predicate AllSettled(r: Pins.Releases, p: Pass, n: nat)
    requires n <= |p.view| == |p.answers|
  {
    forall k :: 0 <= k < n ==> Settled(r, p.view[k], p.answers[k])
  }

  /** The pass stops at a merge request whose pin is overdue. */
  predicate StallsAt(r: Pins.Releases, p: Pass)
    requires |p.view| == |p.answers|
  {
    var i := HaltAt(r, p, 0);
    i < |p.view| && p.answers[i].reachable && !Live(r, p.view[i].mr, p.answers[i])
  }

  /** The pass gets as far as looking at the Task's list once more. */
  predicate Reaches(r: Pins.Releases, p: Pass)
    requires |p.view| == |p.answers|
  {
    p.listed && p.view != [] && HaltAt(r, p, 0) == |p.view| && AllSettled(r, p, |p.view|)
  }

  predicate Closes(r: Pins.Releases, p: Pass)
    requires |p.view| == |p.answers|
  {
    Reaches(r, p) && p.relisted && AllDeployed(p.review)
  }

  predicate Delivers(r: Pins.Releases, p: Pass, open: seq<bool>)
    requires |p.view| == |p.answers| && |p.closes| == |open|
  {
    Closes(r, p) && CloseFailsAt(open, p.closes, 0) == |open| && p.enters
  }

  function StoreAfter(r: Pins.Releases, store: seq<MR>, p: Pass): (s: seq<MR>)
    requires |p.view| == |p.answers| && Ids(store, p.view)
    ensures |s| == |store|
  {
    if p.listed then Swept(r, store, p, HaltAt(r, p, 0)) else store
  }

  function OpenAfter(r: Pins.Releases, open: seq<bool>, p: Pass): (s: seq<bool>)
    requires |p.view| == |p.answers| && |p.closes| == |open|
    ensures |s| == |open|
  {
    if Closes(r, p) then ClosedTo(open, CloseFailsAt(open, p.closes, 0)) else open
  }
}
