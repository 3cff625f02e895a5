/** Whole runs of the deploying stage: passes with arbitrary answers and arbitrarily
    old lists, between which others merge, close and add what they like. */
module DeployRuns {
  import opened Wrappers
  import opened DeployStage
  import Pins

  datatype World = World(store: seq<MR>, open: seq<bool>, delivered: Option<Time>)

  datatype Event = Sweep(pass: Pass) | Others

  /** Nobody but the stage writes the delivery evidence, and a merge is for good. */
  ghost predicate Preserved(was: seq<MR>, store: seq<MR>) {
    && |was| <= |store|
    && (forall i :: 0 <= i < |was| ==>
          && store[i].deployedAt == was[i].deployedAt && store[i].version == was[i].version
          && (was[i].merged ==> store[i].merged))
    && (forall i :: |was| <= i < |store| ==> store[i].deployedAt.None?)
  }

  ghost predicate PassStep(r: Pins.Releases, w: World, p: Pass, w': World) {
    && |p.view| == |p.answers| && |p.closes| == |w.open| && Seen(w.store, p.view)
    && w'.store == StoreAfter(r, w.store, p)
    && w'.open == OpenAfter(r, w.open, p)
    && w'.delivered == (if Delivers(r, p, w.open) then Some(p.now) else w.delivered)
    && Seen(w'.store, p.review)
  }

  ghost predicate Step(r: Pins.Releases, w: World, e: Event, w': World) {
    match e
    case Sweep(p) => PassStep(r, w, p, w')
    case Others => Preserved(w.store, w'.store) && w'.delivered == w.delivered
  }

  ghost predicate Run(r: Pins.Releases, ws: seq<World>, es: seq<Event>) {
    |ws| == |es| + 1 && forall k :: 0 <= k < |es| ==> Step(r, ws[k], es[k], ws[k + 1])
  }

  // ---------- one pass ----------

  lemma {:induction false} SweptKeeps(r: Pins.Releases, store: seq<MR>, p: Pass, n: nat, i: nat)
    requires n <= |p.view| == |p.answers| && Ids(store, p.view) && i < |store|
    ensures var m := Swept(r, store, p, n)[i];
            && m.merged == store[i].merged && m.mergedAt == store[i].mergedAt
            && (store[i].deployedAt.Some? ==> m.deployedAt == store[i].deployedAt)
  {
    if n > 0 {
      SweptKeeps(r, store, p, n - 1, i);
    }
  }

  /** Look q of the pass stamped merge request i at t. */
  predicate StampedBy(r: Pins.Releases, p: Pass, q: nat, i: nat, t: Time) {
    && q < |p.view| == |p.answers|
    && p.view[q].id == i && Stamps(r, p.view[q], p.answers[q]) && p.answers[q].now == t
  }

  lemma {:induction false} SweptOrigin(r: Pins.Releases, store: seq<MR>, p: Pass, n: nat, i: nat) returns (q: nat)
    requires n <= |p.view| == |p.answers| && Ids(store, p.view) && i < |store|
    requires store[i].deployedAt.None? && Swept(r, store, p, n)[i].deployedAt.Some?
    ensures StampedBy(r, p, q, i, Swept(r, store, p, n)[i].deployedAt.value)
  {
    if Swept(r, store, p, n - 1)[i].deployedAt.Some? {
      q := SweptOrigin(r, store, p, n - 1, i);
    } else {
      q := n - 1;
    }
  }

  lemma {:induction false} SweptStamps(r: Pins.Releases, store: seq<MR>, p: Pass, n: nat, q: nat)
    requires q < n <= |p.view| == |p.answers| && Ids(store, p.view)
    requires Stamps(r, p.view[q], p.answers[q])
    ensures Swept(r, store, p, n)[p.view[q].id].deployedAt.Some?
  {
    if q < n - 1 {
      SweptStamps(r, store, p, n - 1, q);
    }
  }

  lemma PassKeeps(r: Pins.Releases, w: World, p: Pass, w': World, i: nat)
    requires PassStep(r, w, p, w') && i < |w.store|
    ensures |w'.store| == |w.store|
    ensures w'.store[i].merged == w.store[i].merged
    ensures w.store[i].deployedAt.Some? ==> w'.store[i].deployedAt == w.store[i].deployedAt
  {
    SweptKeeps(r, w.store, p, HaltAt(r, p, 0), i);
  }

  lemma StepKeeps(r: Pins.Releases, w: World, e: Event, w': World, i: nat)
    requires Step(r, w, e, w') && i < |w.store|
    ensures |w.store| <= |w'.store|
    ensures w.store[i].merged ==> w'.store[i].merged
    ensures w.store[i].deployedAt.Some? ==> w'.store[i].deployedAt == w.store[i].deployedAt
  {
    if e.Sweep? {
      PassKeeps(r, w, e.pass, w', i);
    }
  }

  // ---------- whole runs ----------

  lemma {:induction false} NeverFewer(r: Pins.Releases, ws: seq<World>, es: seq<Event>, j: nat, k: nat)
    requires Run(r, ws, es) && j <= k < |ws|
    ensures |ws[j].store| <= |ws[k].store|
    decreases k
  {
    if j < k {
      NeverFewer(r, ws, es, j, k - 1);
      assert Step(r, ws[k - 1], es[k - 1], ws[k]);
    }
  }

  /** A stored stamp never changes, and a merge is never undone. */
  lemma {:induction false} StampsStay(r: Pins.Releases, ws: seq<World>, es: seq<Event>, j: nat, k: nat, i: nat)
    requires Run(r, ws, es) && j <= k < |ws| && i < |ws[j].store|
    ensures i < |ws[k].store|
    ensures ws[j].store[i].merged ==> ws[k].store[i].merged
    ensures ws[j].store[i].deployedAt.Some? ==> ws[k].store[i].deployedAt == ws[j].store[i].deployedAt
    decreases k
  {
    if j < k {
      StampsStay(r, ws, es, j, k - 1, i);
      StepKeeps(r, ws[k - 1], es[k - 1], ws[k], i);
    }
  }

  ghost predicate Justified(r: Pins.Releases, es: seq<Event>, n: nat, q: nat, i: nat, t: Time) {
    n < |es| && es[n].Sweep? && StampedBy(r, es[n].pass, q, i, t)
  }

  /** Every stamp a run left behind was made by one look of one of its passes, which
      had read the merge request as merged and unstamped and found it live: no
      observable cascade, no pin, or a green apply not older than the merge. */
  lemma {:induction false} StampsJustified(r: Pins.Releases, ws: seq<World>, es: seq<Event>, k: nat, i: nat) returns (n: nat, q: nat)
    requires Run(r, ws, es) && k < |ws| && i < |ws[k].store| && ws[k].store[i].deployedAt.Some?
    requires i < |ws[0].store| ==> ws[0].store[i].deployedAt.None?
    ensures Justified(r, es, n, q, i, ws[k].store[i].deployedAt.value)
  {
    var w, e := ws[k - 1], es[k - 1];
    assert Step(r, w, e, ws[k]);
    if i < |w.store| && w.store[i].deployedAt.Some? {
      n, q := StampsJustified(r, ws, es, k - 1, i);
      StepKeeps(r, w, e, ws[k], i);
    } else {
      n := k - 1;
      q := SweptOrigin(r, w.store, e.pass, HaltAt(r, e.pass, 0), i);
    }
  }

  /** What the pass of event n listed last before it delivered. */
  ghost predicate DeliveredAt(r: Pins.Releases, ws: seq<World>, es: seq<Event>, n: nat) {
    && n < |es| == |ws| - 1
    && es[n].Sweep?
    && |es[n].pass.view| == |es[n].pass.answers| && |es[n].pass.closes| == |ws[n].open|
    && Delivers(r, es[n].pass, ws[n].open)
  }

  lemma {:induction false} DeliveryHasPass(r: Pins.Releases, ws: seq<World>, es: seq<Event>, k: nat) returns (n: nat)
    requires Run(r, ws, es) && k < |ws|
    requires ws[0].delivered.None? && ws[k].delivered.Some?
    ensures n < k && DeliveredAt(r, ws, es, n) && ws[k].delivered == Some(es[n].pass.now)
  {
    assert Step(r, ws[k - 1], es[k - 1], ws[k]);
    if es[k - 1].Sweep? && Delivers(r, es[k - 1].pass, ws[k - 1].open) {
      n := k - 1;
    } else {
      n := DeliveryHasPass(r, ws, es, k - 1);
    }
  }

  predicate AllClosed(open: seq<bool>) {
    true !in open
  }

  /** A pass that delivers has listed at least one merge request; every one it listed is
      merged and stamped in the store, then and ever after; and every issue is closed
      by then. */
  lemma DeliveryIsSafe(r: Pins.Releases, ws: seq<World>, es: seq<Event>, n: nat, k: nat, v: nat)
    requires Run(r, ws, es) && n < k < |ws| && DeliveredAt(r, ws, es, n)
    requires v < |es[n].pass.review|
    ensures var i := es[n].pass.review[v].id;
            i < |ws[k].store| && ws[k].store[i].merged && ws[k].store[i].deployedAt.Some?
    ensures AllClosed(ws[n + 1].open)
  {
    var p := es[n].pass;
    assert Step(r, ws[n], es[n], ws[n + 1]);
    assert AllDeployed(p.review);
    StampsStay(r, ws, es, n + 1, k, p.review[v].id);
  }

  /** No Task is delivered without a merge request. */
  lemma EmptySetIsNoLicence(r: Pins.Releases, ws: seq<World>, es: seq<Event>, k: nat)
    requires Run(r, ws, es) && k < |ws|
    requires ws[0].delivered.None? && ws[k].delivered.Some?
    ensures exists i :: 0 <= i < |ws[k].store| && ws[k].store[i].merged && ws[k].store[i].deployedAt.Some?
  {
    var n := DeliveryHasPass(r, ws, es, k);
    DeliveryIsSafe(r, ws, es, n, k, 0);
  }

  // ---------- a pass that meets no obstacle ----------

  /** The list as the store has it. */
  predicate Fresh(store: seq<MR>, view: seq<View>) {
    Ids(store, view) && forall k :: 0 <= k < |view| ==> view[k].mr == store[view[k].id]
  }

  lemma SettledIsStored(r: Pins.Releases, w: World, p: Pass, w': World, k: nat)
    requires PassStep(r, w, p, w') && Reaches(r, p) && k < |p.view|
    ensures w'.store[p.view[k].id].merged && w'.store[p.view[k].id].deployedAt.Some?
  {
    var i := p.view[k].id;
    assert Settled(r, p.view[k], p.answers[k]);
    SweptKeeps(r, w.store, p, |p.view|, i);
    if p.view[k].mr.deployedAt.None? {
      SweptStamps(r, w.store, p, |p.view|, k);
    }
  }

  /** When the second list names the same merge requests as the first and is up to
      date, a pass that reached delivery delivers unless an issue cannot be closed or
      the Task cannot move on: its own stamps are all the delivery asks for. */
  lemma ReachedDelivers(r: Pins.Releases, w: World, p: Pass, w': World)
    requires PassStep(r, w, p, w') && Reaches(r, p)
    requires p.relisted && |p.review| == |p.view| && Fresh(w'.store, p.review)
    requires forall k :: 0 <= k < |p.view| ==> p.review[k].id == p.view[k].id
    ensures w'.delivered == Some(p.now) || CloseFailsAt(w.open, p.closes, 0) < |w.open| || !p.enters
  {
    forall k | 0 <= k < |p.review|
      ensures p.review[k].mr.merged && p.review[k].mr.deployedAt.Some?
    {
      SettledIsStored(r, w, p, w', k);
      assert p.review[k].mr == w'.store[p.review[k].id];
      assert p.review[k].id == p.view[k].id;
    }
  }

  /** Parking needs a merge recorded 45 minutes ago or more, a tag, and a pin that is
      there but behind it. */
  lemma ParkingNeeds(r: Pins.Releases, p: Pass)
    requires |p.view| == |p.answers| && StallsAt(r, p)
    ensures exists k: nat :: k < |p.view| && p.view[k].mr.merged && Overdue(r, p.view[k].mr, p.answers[k]) && !Live(r, p.view[k].mr, p.answers[k])
  {
    var k := HaltAt(r, p, 0);
    assert Overdue(r, p.view[k].mr, p.answers[k]);
  }

  // ---------- how long the evidence holds ----------

  /** The answers of a later look: another green apply, no older, whose pins have only
      moved forward, for the same tag. */
  ghost predicate Later(r: Pins.Releases, a: Answers, b: Answers) {
    && b.cascade && b.name == a.name && b.tag == a.tag
    && a.run.Some? && b.run.Some? && b.run.value.completed && b.run.value.success
    && a.run.value.createdAt <= b.run.value.createdAt
    && a.mainPin.Some? && b.mainPin.Some? && Pins.Forward(r, Pins.Split(a.mainPin.value), Pins.Split(b.mainPin.value), a.name)
    && a.appliedPin.Some? && b.appliedPin.Some? && Pins.Forward(r, Pins.Split(a.appliedPin.value), Pins.Split(b.appliedPin.value), a.name)
  }

  /** A change one apply carried counts as carried by every later one: a release that
      supersedes it never sends the merge request back to waiting. */
  lemma SupersededStaysLive(r: Pins.Releases, mr: MR, a: Answers, b: Answers)
    requires Awaited(r, a) && GreenSince(mr, a) && Carried(r, a)
    requires Later(r, a, b) && Pins.ParseSemver(a.tag.tag).Some?
    ensures Awaited(r, b) && GreenSince(mr, b) && Carried(r, b) && Live(r, mr, b)
  {
    Pins.PresentStays(r, Pins.Split(a.mainPin.value), Pins.Split(b.mainPin.value), a.name);
    Pins.AtOrPastMonotone(r, Pins.Split(a.appliedPin.value), Pins.Split(b.appliedPin.value), a.name, a.tag.tag, a.tag.tag);
  }

  // ---------- the recorded version ----------

  /** A pass over an up-to-date list that names each merge request once never touches a
      stamped one. */
  lemma {:induction false} FreshPassKeepsVersion(r: Pins.Releases, store: seq<MR>, p: Pass, n: nat, i: nat)
    requires n <= |p.view| == |p.answers| && Fresh(store, p.view)
    requires i < |store| && store[i].deployedAt.Some?
    ensures Swept(r, store, p, n)[i] == store[i]
  {
    if n > 0 {
      FreshPassKeepsVersion(r, store, p, n - 1, i);
      assert p.view[n - 1].mr == store[p.view[n - 1].id];
    }
  }

  /** Look q of the pass stamps merge request i under a version other than this one. */
  ghost predicate Renames(r: Pins.Releases, p: Pass, q: nat, i: nat, version: string)
    requires q < |p.view| == |p.answers|
  {
    p.view[q].id == i && Stamps(r, p.view[q], p.answers[q]) && StampVersion(p.answers[q]) !in ["", version]
  }

  /** While its list names each merge request once, the first n looks of a pass leave a
      recorded version alone exactly when none of them stamps under another. */
  lemma {:induction false} SweptVersionIff(r: Pins.Releases, store: seq<MR>, p: Pass, n: nat, i: nat)
    requires n <= |p.view| == |p.answers| && Seen(store, p.view) && i < |store|
    ensures Swept(r, store, p, n)[i].version == store[i].version <==>
            forall q: nat :: q < n ==> !Renames(r, p, q, i, store[i].version)
    ensures (forall q: nat :: q < n ==> p.view[q].id != i) ==> Swept(r, store, p, n)[i] == store[i]
  {
    if n > 0 {
      SweptVersionIff(r, store, p, n - 1, i);
      if p.view[n - 1].id == i {
        assert forall q: nat :: q < n - 1 ==> p.view[q].id != i;
        assert forall q: nat :: q < n - 1 ==> !Renames(r, p, q, i, store[i].version);
        assert (forall q: nat :: q < n ==> !Renames(r, p, q, i, store[i].version)) <==> !Renames(r, p, n - 1, i, store[i].version);
      }
    }
  }

  /** Some look of the pass renames merge request i. */
  ghost predicate Overwrites(r: Pins.Releases, w: World, e: Event, i: nat)
    requires i < |w.store|
  {
    && e.Sweep? && e.pass.listed && |e.pass.view| == |e.pass.answers|
    && exists q: nat :: q < HaltAt(r, e.pass, 0) && Renames(r, e.pass, q, i, w.store[i].version)
  }

  lemma StepVersionIff(r: Pins.Releases, w: World, e: Event, w': World, i: nat)
    requires Step(r, w, e, w') && i < |w.store|
    ensures i < |w'.store|
    ensures w'.store[i].version == w.store[i].version <==> !Overwrites(r, w, e, i)
  {
    if e.Sweep? {
      SweptVersionIff(r, w.store, e.pass, HaltAt(r, e.pass, 0), i);
    }
  }

  /** Over a whole run a recorded version stays what it was at point j exactly when no
      pass from there on has a look that stamps the merge request under another. */
  lemma {:induction false} VersionStaysIff(r: Pins.Releases, ws: seq<World>, es: seq<Event>, j: nat, k: nat, i: nat)
    requires Run(r, ws, es) && j <= k < |ws| && i < |ws[j].store|
    ensures forall n :: j <= n <= k ==> i < |ws[n].store|
    ensures (forall n :: j <= n <= k ==> ws[n].store[i].version == ws[j].store[i].version) <==>
            forall n :: j <= n < k ==> !Overwrites(r, ws[n], es[n], i)
    decreases k
  {
    if j < k {
      VersionStaysIff(r, ws, es, j, k - 1, i);
      StepVersionIff(r, ws[k - 1], es[k - 1], ws[k], i);
    }
  }

  /** And for a stamped merge request such a look works from a list that misses the
      stamp. */
  lemma OverwritingListIsStale(r: Pins.Releases, w: World, e: Event, w': World, i: nat) returns (q: nat)
    requires Step(r, w, e, w') && i < |w.store| && w.store[i].deployedAt.Some? && Overwrites(r, w, e, i)
    ensures q < |e.pass.view| && e.pass.view[q].id == i && e.pass.view[q].mr != w.store[i]
  {
    q :| q < HaltAt(r, e.pass, 0) && Renames(r, e.pass, q, i, w.store[i].version);
  }

  /** A list that misses the stamp lets a second look overwrite the version beside it,
      though not the time. */
  lemma StaleListOverwritesVersion(r: Pins.Releases)
    ensures var m := MR(true, None, Some(1), "v1.0.0");
            var a := Answers(true, true, HELMFILE, Some(ApplyRun(true, true, 5, "abc")), Unread, None, None, true, 9);
            var p := Pass(true, [View(0, m.(deployedAt := None))], [a], true, true, [], [], true, 9);
            Swept(r, [m], p, 1) == [m.(version := "tatara-helmfile@abc")]
  {
    var m := MR(true, None, Some(1), "v1.0.0");
    var a := Answers(true, true, HELMFILE, Some(ApplyRun(true, true, 5, "abc")), Unread, None, None, true, 9);
    var p := Pass(true, [View(0, m.(deployedAt := None))], [a], true, true, [], [], true, 9);
    assert Swept(r, [m], p, 0) == [m];
    assert Stamps(r, p.view[0], a);
    assert StampVersion(a) == "tatara-helmfile@abc";
  }
}
