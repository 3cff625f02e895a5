/** The bounded sequence that stops an agent pod: wait for the turn in flight, offer
    one handoff turn, wait for the agent's note, otherwise write the operator's own,
    then stop the pod. The clock moves only while the sequence sleeps; the wrapper,
    the cluster and the other writers of the journal answer as they please. */
module PodStop {
  import opened Wrappers
  import opened Utf8
  import opened NoteJournal
  import NoteText

  type Time = int

  const SECOND := 1_000_000_000
  const TTL_GRACE := 60 * SECOND
  const TTL_POLL := 5 * SECOND

  datatype Session = Ready | Busy | Dead

  datatype Outcome = Graceful | ForceDeleted
  datatype Handoff = Agent | Synthetic | Lost

  datatype StopResult = StopResult(outcome: Outcome, handoff: Handoff)

  datatype Input = Input(
    deadline: Time,
    turnTimeout: int,
    maxWait: int,
    finalText: Bytes,
    pushed: seq<Bytes>,
    failed: seq<Bytes>,
    turnId: Bytes)
  {
    function WaitBound(): int {
      if maxWait > 0 then maxWait else turnTimeout
    }

    /** The absolute end of the sequence. */
    function HardCap(): Time {
      if maxWait > 0 then deadline + maxWait else deadline + 2 * turnTimeout + TTL_GRACE
    }
  }

  function Max(a: Time, b: Time): Time {
    if a < b then b else a
  }

  function Earliest(a: Time, b: Time): Time {
    if a < b then a else b
  }

  /** An answered read of the wrapper session, and a handoff turn with the last such
      read before it. */
  datatype Read = Read(state: Session, at: Time)
  datatype Offer = Offer(at: Time, read: Read)

  /** A count of agent handoffs, and which journal it was read off. */
  datatype Count = Count(n: nat, at: nat)

  /** One accepted append: the journal of its first read, and the one it left. */
  datatype Landing = Landing(note: Note, once: bool, spills: bool, first: nat, done: nat)

  /** The append led from the journals it read to the one it left, others having written
      what they liked in between. */
  ghost predicate Landed(size: Size, past: seq<seq<Note>>, l: Landing) {
    && l.first < l.done < |past|
    && Fit(size, past[l.first], past[l.done - 1], l.note, l.once, l.spills) == Success(past[l.done])
  }

  lemma LandsNow(size: Size, past: seq<seq<Note>>, l: Landing, left: seq<Note>)
    requires l.first < l.done == |past|
    requires Fit(size, past[l.first], past[l.done - 1], l.note, l.once, l.spills) == Success(left)
    ensures Landed(size, past + [left], l)
  {
  }

  lemma LandedStays(size: Size, past: seq<seq<Note>>, later: seq<seq<Note>>, l: Landing)
    requires Landed(size, past, l) && past <= later
    ensures Landed(size, later, l)
  {
  }

  /** What the append found on its second read, and adds to it, is more than its first
      read decided to drop. */
  ghost predicate Survives(size: Size, past: seq<seq<Note>>, l: Landing)
    requires l.first < l.done < |past|
  {
    Planned(size, Mutated(past[l.first], l.note, l.once)) < |Mutated(past[l.done - 1], l.note, l.once)|
  }

  /** Nobody empties the journal from m on, or puts a note into an empty one. */
  ghost predicate Quiet(past: seq<seq<Note>>, m: nat)
    requires m < |past|
  {
    forall j :: m < j < |past| ==> (past[j] == [] <==> past[m] == [])
  }

  /** The append that comes last leaves notes exactly when it survives. */
  lemma LandingLeavesNotesIff(size: Size, past: seq<seq<Note>>, l: Landing)
    requires Landed(size, past, l) && Quiet(past, l.done)
    ensures past[|past| - 1] != [] <==> Survives(size, past, l)
  {
    LandedNotEmptyIff(size, past[l.first], past[l.done - 1], l.note, l.once, l.spills);
  }

  /** The promise of a non-empty journal, as far as it goes: an undisturbed append of a
      note that fits the Task on its own survives. */
  lemma UndisturbedStopLeavesNotes(size: Size, past: seq<seq<Note>>, l: Landing)
    requires Shrinks(size) && size([l.note]) <= BYTE_BUDGET && !l.once
    requires Landed(size, past, l) && Quiet(past, l.done) && past[l.done - 1] == past[l.first]
    ensures past[|past| - 1] != []
  {
    UndisturbedSurvives(size, past[l.first], l.note);
    LandingLeavesNotesIff(size, past, l);
  }

  class Stopper {
    const configuredPoll: int
    const size: Size
    const prose: NoteText.Prose

    var now: Time
    var notes: seq<Note>

    // What has happened so far.
    ghost var past: seq<seq<Note>>   // every journal there was, the present one last
    ghost var lastRead: Option<Read>
    ghost var offers: seq<Offer>
    ghost var counts: seq<Count>
    ghost var own: seq<Note>         // the operator's accepted appends
    ghost var stopFailed: bool       // the last graceful stop failed
    ghost var seenGone: bool         // the last read of the pod found none

    constructor (poll: int, size: Size, prose: NoteText.Prose, now: Time, notes: seq<Note>)
      ensures this.configuredPoll == poll && this.size == size && this.prose == prose && this.now == now && this.notes == notes
      ensures Recorded() && past == [notes] && offers == [] && counts == [] && own == []
    {
      this.configuredPoll, this.size, this.prose, this.now, this.notes := poll, size, prose, now, notes;
      past, lastRead, offers, counts, own, stopFailed, seenGone := [notes], None, [], [], [], false, false;
    }

    /** The record is kept: it ends in the present journal, and every count was read off
        the journal it names. It holds from the start and asks nothing of the world. */
    ghost predicate Recorded()
      reads `notes, `past, `counts
    {
      && past != [] && past[|past| - 1] == notes
      && forall i :: 0 <= i < |counts| ==> counts[i].at < |past| && counts[i].n == HandoffCount(past[counts[i].at])
    }

    function Poll(): (d: int)
      ensures d > 0
    {
      if configuredPoll > 0 then configuredPoll else TTL_POLL
    }

    /** Other writers do what they like with the journal, any number of times. */
    method Others()
      requires Recorded()
      modifies `notes, `past
      ensures Recorded() && old(past) <= past
    {
      var more: seq<seq<Note>> := [];
      more := *;
      if more != [] {
        notes := more[|more| - 1];
      }
      past := past + more;
    }

    /** Sleeping takes its time, or less when the context ends first. */
    method Sleep(d: int) returns (ok: bool)
      requires d > 0
      modifies `now
      ensures old(now) <= now <= old(now) + d
      ensures ok ==> now == old(now) + d
    {
      ok := *;
      var part: int := *;
      if ok || part < 0 || part > d {
        part := d;
      }
      now := now + part;
    }

    method WrapperGone() returns (gone: bool)
      modifies `seenGone
      ensures gone == seenGone
    {
      gone := *;
      seenGone := gone;
    }

    /** The count of agent handoffs in the journal, None when the read fails. */
    method HandoffNoteCount() returns (n: Option<nat>)
      requires Recorded()
      modifies `notes, `past, `counts
      ensures Recorded() && old(past) <= past
      ensures match n
              case Some(c) => c == HandoffCount(notes) && counts == old(counts) + [Count(c, |past| - 1)]
              case None => counts == old(counts)
    {
      Others();
      var fails: bool := *;
      if fails {
        return None;
      }
      var c := 0;
      for i := 0 to |notes|
        invariant c == HandoffCount(notes[..i])
      {
        assert notes[..i + 1][..i] == notes[..i];
        if IsAgentHandoff(notes[i]) {
          c := c + 1;
        }
      }
      assert notes[..|notes|] == notes;
      counts := counts + [Count(c, |past| - 1)];
      return Some(c);
    }

    /** Step 2: poll until no turn is in flight. Every way out is by the deadline,
        and only a read that found neither a turn nor a dead wrapper leads on. */
    method WaitIdle(deadline: Time) returns (cleared: bool)
      modifies `now, `lastRead
      ensures old(now) <= now <= Max(old(now), deadline)
      ensures cleared ==> lastRead == Some(Read(Ready, now))
    {
      while true
        invariant old(now) <= now <= Max(old(now), deadline)
        decreases Max(old(now), deadline) - now
      {
        var unreachable: bool := *;
        if unreachable {
          return false;
        }
        var state := Ready;
        state := *;
        lastRead := Some(Read(state, now));
        if state == Dead {
          return false;
        }
        if state != Busy {
          return true;
        }
        if !(now + Poll() < deadline) {
          return false;
        }
        var ok := Sleep(Poll());
        if !ok {
          return false;
        }
      }
    }

    /** Step 3, second half: poll the journal until the count of agent handoffs has
        risen above what it was. */
    method WaitHandoffNote(before: nat, deadline: Time) returns (rose: bool)
      requires Recorded()
      modifies `now, `notes, `past, `counts
      ensures Recorded() && old(past) <= past
      ensures old(now) <= now <= Max(old(now), deadline)
      ensures old(counts) <= counts
      ensures rose <==> Exceeds(counts, |old(counts)|, before)
      ensures rose ==> counts[|counts| - 1].at == |past| - 1 && notes != []
    {
      while true
        invariant Recorded() && old(past) <= past
        invariant old(now) <= now <= Max(old(now), deadline)
        invariant old(counts) <= counts
        invariant !Exceeds(counts, |old(counts)|, before)
        decreases Max(old(now), deadline) - now
      {
        var n := HandoffNoteCount();
        if n.Some? && n.value > before {
          assert counts[|counts| - 1].n > before;
          return true;
        }
        if !(now + Poll() < deadline) {
          return false;
        }
        var ok := Sleep(Poll());
        if !ok {
          return false;
        }
      }
    }

    /** The journal becomes what an accepted write holds. */
    method Record(left: seq<Note>)
      requires Recorded()
      modifies `notes, `past
      ensures Recorded() && notes == left && past == old(past) + [left]
    {
      notes := left;
      past := past + [left];
    }

    /** An accepted append, once both its reads and the write they lead to are known. */
    method Land(ghost l: Landing, left: seq<Note>)
      requires Recorded() && l.first < l.done == |past|
      requires Fit(size, past[l.first], notes, l.note, l.once, l.spills) == Success(left)
      modifies `notes, `past
      ensures Recorded() && old(past) <= past && Landed(size, past, l) && l.done == |past| - 1
    {
      LandsNow(size, past, l, left);
      Record(left);
    }

    /** The second read of an append and its write, on what the first read decided. */
    method Write(n: Note, once: bool, cur: seq<Note>, ghost first: nat) returns (ok: bool, ghost l: Landing)
      requires Recorded() && first < |past| && past[first] == cur
      modifies `notes, `past, `own
      ensures Recorded() && old(past) <= past
      ensures l.note == n && l.once == once && l.first == first
      ensures ok ==> Landed(size, past, l) && l.done == |past| - 1
      ensures own == old(own) || (ok && own == old(own) + [n])
      ensures ok && !once ==> own == old(own) + [n]
    {
      Others();
      var spills: bool, reachable: bool := *, *;
      l := Landing(n, once, spills, first, |past|);
      var r := FitTask(size, cur, notes, n, once, spills);
      if r.Failure? || !reachable {
        return false, l;
      }
      if !once || !Has(notes, n) {
        own := own + [n];
      }
      Land(l, r.value);
      return true, l;
    }

    /** One append through the guard: two reads, between which others write, and the
        write. It may fail, and then it changes nothing. */
    method Append(n: Note, once: bool) returns (ok: bool, ghost l: Landing)
      requires Recorded() && |n.body| <= NoteText.MAX_NOTE
      modifies `notes, `past, `own
      ensures Recorded() && old(past) <= past
      ensures l.note == n && l.once == once && |old(past)| <= l.first + 1
      ensures ok ==> Landed(size, past, l) && l.done == |past| - 1
      ensures own == old(own) || (ok && own == old(own) + [n])
      ensures ok && !once ==> own == old(own) + [n]
    {
      Others();
      ok, l := Write(n, once, notes, |past| - 1);
    }

    /** Stops the pod and decides how it was stopped, and nothing else: only a pod
        that was still there after the graceful stop failed counts as force-deleted. */
    method Finish(handoff: Handoff) returns (r: Option<StopResult>)
      requires Recorded()
      modifies `stopFailed, `seenGone, `notes, `past
      ensures Recorded() && old(past) <= past
      ensures r.Some? ==> r.value.handoff == handoff
      ensures r.Some? ==> (r.value.outcome == ForceDeleted <==> stopFailed && !seenGone)
    {
      Others();
      var sessionDeleted: bool, wrapperDeleted: bool := *, *;
      stopFailed := !(sessionDeleted && wrapperDeleted);
      if sessionDeleted && wrapperDeleted {
        return Some(StopResult(Graceful, handoff));
      }
      var gone := WrapperGone();
      var deleteErr: bool := *;
      if deleteErr {
        return None;
      }
      return Some(StopResult(if gone then Graceful else ForceDeleted, handoff));
    }

    /** Step 4: the operator's own note. It achieves a handoff unless it held nothing
        to hand off, and only its write can fail. */
    method WriteSyntheticNote(stop: Input) returns (h: Option<Handoff>, ghost l: Landing)
      requires Recorded() && NoteText.Sized(prose) && NoteText.GoLen(|stop.failed|)
      modifies `notes, `past, `own
      ensures Recorded() && old(past) <= past
      ensures h.None? ==> own == old(own)
      ensures h.Some? ==>
                && Landed(size, past, l) && |old(past)| <= l.first + 1 && l.done == |past| - 1
                && OperatorSpoke(prose, now, old(own), own, stop, l, h.value)
    {
      var oom: Option<Bytes> := None;
      oom := *;
      NoteText.SyntheticNoteFits(prose, stop.finalText, stop.pushed, stop.failed, oom);
      var n := SyntheticNoteAt(prose, now, stop, oom);
      var ok;
      ok, l := Append(n, false);
      if !ok {
        return None, l;
      }
      assert l.note == SyntheticNoteAt(prose, now, stop, oom);
      return Some(if NoteText.ContentFree(stop.finalText, stop.pushed, stop.failed) then Lost else Synthetic), l;
    }

    /** Best effort beside an agent's own handoff: the repositories whose push failed. */
    method NoteFailedRepos(stop: Input) returns (ghost l: Option<Landing>)
      requires Recorded() && NoteText.Sized(prose) && NoteText.GoLen(|stop.failed|) && |stop.turnId| <= NoteText.TURN_ID_MAX
      modifies `notes, `past, `own
      ensures Recorded() && old(past) <= past
      ensures l.None? ==> own == old(own)
      ensures l.Some? ==>
                && stop.failed != []
                && Landed(size, past, l.value) && |old(past)| <= l.value.first + 1 && l.value.done == |past| - 1
                && l.value.once && l.value.note == Note(now, OPERATOR, HANDOFF, NoteText.FailedReposNote(prose, stop.failed, stop.turnId))
                && (own == old(own) || own == old(own) + [l.value.note])
    {
      NoteText.FailedReposNoteFits(prose, stop.failed, stop.turnId);
      var body := NoteText.FailedReposNote(prose, stop.failed, stop.turnId);
      if body == [] {
        return None;
      }
      var ok;
      ghost var at;
      ok, at := Append(Note(now, OPERATOR, HANDOFF, body), true);
      l := if ok then Some(at) else None;
    }

    /** Steps 2 and 3: wait out the turn in flight, then offer the one handoff turn and
        wait for the note it asks for. */
    method OfferHandoff(stop: Input, before: nat, hardCap: Time) returns (captured: bool)
      requires Recorded()
      modifies `now, `notes, `past, `lastRead, `offers, `counts
      ensures Recorded() && old(past) <= past
      ensures old(now) <= now <= Max(old(now), hardCap)
      ensures OneOffer(old(offers), offers, old(now), hardCap)
      ensures old(counts) <= counts
      ensures captured <==> Exceeds(counts, |old(counts)|, before)
      ensures captured ==> offers != old(offers) && notes != []
    {
      captured := false;
      var turnCleared := WaitIdle(Earliest(now + stop.WaitBound(), hardCap));
      if turnCleared && now < hardCap {
        var accepted: bool := *;
        offers := offers + [Offer(now, lastRead.value)];
        if accepted {
          captured := WaitHandoffNote(before, Earliest(now + stop.WaitBound(), hardCap));
        }
      }
    }

    /** Steps 2 to 4 on a pod that was still there, up to how the handoff was captured,
        and the last append the operator made. */
    method CaptureHandoff(stop: Input) returns (h: Option<Handoff>, ghost l: Option<Landing>, ghost seen: nat)
      requires Recorded() && NoteText.Sized(prose) && NoteText.GoLen(|stop.failed|) && |stop.turnId| <= NoteText.TURN_ID_MAX
      modifies `now, `notes, `past, `lastRead, `offers, `counts, `own
      ensures Recorded() && old(past) <= past
      ensures old(now) <= now <= Max(old(now), stop.HardCap())
      ensures OneOffer(old(offers), offers, old(now), stop.HardCap())
      ensures h == Some(Agent) ==> offers != old(offers)
      ensures h.Some? ==> Captured(size, prose, stop, |old(past)|, |old(counts)|, old(own), past, counts, own, h.value, l, seen)
    {
      l, seen := None, 0;
      var before := HandoffNoteCount();
      if before.None? {
        return None, l, seen;
      }
      var captured := OfferHandoff(stop, before.value, stop.HardCap());
      RoseIff(counts, |old(counts)|, before.value);
      if captured {
        h, l, seen := CaptureAgent(stop, |old(past)|, |old(counts)|);
      } else {
        h, l := CaptureSynthetic(stop, |old(past)|, |old(counts)|);
      }
    }

    /** Step 3, once the agent's handoff was seen in the present journal. */
    method CaptureAgent(stop: Input, ghost pastWas: nat, ghost countsWas: nat) returns (h: Option<Handoff>, ghost l: Option<Landing>, ghost seen: nat)
      requires Recorded() && NoteText.Sized(prose) && NoteText.GoLen(|stop.failed|) && |stop.turnId| <= NoteText.TURN_ID_MAX
      requires pastWas <= |past| && notes != [] && RoseAfter(counts, countsWas)
      modifies `notes, `past, `own
      ensures Recorded() && old(past) <= past
      ensures h == Some(Agent) && Captured(size, prose, stop, pastWas, countsWas, old(own), past, counts, own, Agent, l, seen)
    {
      seen := |past| - 1;
      l := NoteFailedRepos(stop);
      AgentCaptured(size, prose, stop, pastWas, countsWas, old(own), past, counts, own, l, seen);
      h := Some(Agent);
    }

    /** Step 4, once no agent's handoff was seen. */
    method CaptureSynthetic(stop: Input, ghost pastWas: nat, ghost countsWas: nat) returns (h: Option<Handoff>, ghost l: Option<Landing>)
      requires Recorded() && NoteText.Sized(prose) && NoteText.GoLen(|stop.failed|)
      requires pastWas <= |past| && !RoseAfter(counts, countsWas)
      modifies `notes, `past, `own
      ensures Recorded() && old(past) <= past
      ensures h.Some? ==> h.value != Agent && Captured(size, prose, stop, pastWas, countsWas, old(own), past, counts, own, h.value, l, 0)
    {
      ghost var at;
      h, at := WriteSyntheticNote(stop);
      l := Some(at);
      if h.Some? {
        SyntheticCaptured(size, prose, now, stop, pastWas, countsWas, old(own), past, counts, own, h.value, at);
      }
    }

    /** Steps 2 to 5 on a pod that was still there. */
    method StopPresent(stop: Input) returns (r: Option<StopResult>, ghost l: Option<Landing>, ghost seen: nat)
      requires Recorded() && NoteText.Sized(prose) && NoteText.GoLen(|stop.failed|) && |stop.turnId| <= NoteText.TURN_ID_MAX
      modifies this
      ensures Recorded() && old(past) <= past
      ensures old(now) <= now <= Max(old(now), stop.HardCap())
      ensures OneOffer(old(offers), offers, old(now), stop.HardCap())
      ensures r.Some? && r.value.handoff == Agent ==> offers != old(offers)
      ensures r.Some? ==> Captured(size, prose, stop, |old(past)|, |old(counts)|, old(own), past, counts, own, r.value.handoff, l, seen)
      ensures r.Some? ==> (r.value.outcome == ForceDeleted <==> stopFailed && !seenGone)
    {
      var h;
      h, l, seen := CaptureHandoff(stop);
      if h.None? {
        return None, l, seen;
      }
      ghost var captured := past;
      r := Finish(h.value);
      CapturedStays(size, prose, stop, |old(past)|, |old(counts)|, old(own), captured, past, counts, own, h.value, l, seen);
    }

    /** Step 1 on a pod that is already gone. */
    method StopAbsent(stop: Input) returns (r: Option<StopResult>, ghost l: Option<Landing>)
      requires Recorded() && NoteText.Sized(prose) && NoteText.GoLen(|stop.failed|)
      modifies `notes, `past, `own
      ensures Recorded() && old(past) <= past
      ensures r.Some? ==> r.value.outcome == Graceful && r.value.handoff != Agent
      ensures r.Some? ==> Captured(size, prose, stop, |old(past)|, |old(counts)|, old(own), past, counts, own, r.value.handoff, l, 0)
    {
      var h;
      h, l := CaptureSynthetic(stop, |past|, |counts|);
      r := if h.Some? then Some(StopResult(Graceful, h.value)) else None;
    }

    /** The whole stop. For every answer of the wrapper, the cluster and the other
        writers: it ends by its start or the hard cap, whichever is later; it offers
        at most one handoff turn, right after a session read that found no turn and no
        dead wrapper and before the cap; and when it ends without error the handoff is
        the agent's exactly when the count of agent handoffs was seen to rise, off a
        journal that had notes, and is otherwise the operator's own last word. The
        operator's last append leaves notes behind exactly when it survives: nothing
        but its own dropping can lose it, once the others leave the journal be. */
    method StopWithHandoff(stop: Input) returns (r: Option<StopResult>, ghost l: Option<Landing>, ghost seen: nat)
      requires Recorded() && NoteText.Sized(prose) && NoteText.GoLen(|stop.failed|) && |stop.turnId| <= NoteText.TURN_ID_MAX
      modifies this
      ensures Recorded() && old(past) <= past
      ensures old(now) <= now <= Max(old(now), stop.HardCap())
      ensures OneOffer(old(offers), offers, old(now), stop.HardCap())
      ensures r.Some? && r.value.handoff == Agent ==> offers != old(offers)
      ensures r.Some? ==> Captured(size, prose, stop, |old(past)|, |old(counts)|, old(own), past, counts, own, r.value.handoff, l, seen)
      ensures r.Some? ==> LeavesNotesIff(size, past, notes, l)
      ensures r.Some? ==> (r.value.outcome == ForceDeleted <==> stopFailed && !seenGone)
    {
      stopFailed, l, seen := false, None, 0;
      var gone := WrapperGone();
      if gone {
        r, l := StopAbsent(stop);
      } else {
        r, l, seen := StopPresent(stop);
      }
      Leaves(size, past, notes, l);
    }
  }

  /** How a handoff was captured: the agent's exactly when its count rose, off a journal
      of this stop that had notes; otherwise by the operator's own note. The operator's
      last append, if it made one, landed as appends do. */
  ghost predicate Captured(size: Size, prose: NoteText.Prose, stop: Input, pastWas: nat, countsWas: nat, ownWas: seq<Note>,
                           past: seq<seq<Note>>, counts: seq<Count>, own: seq<Note>,
                           h: Handoff, l: Option<Landing>, seen: nat)
  {
    && (h == Agent <==> RoseAfter(counts, countsWas))
    && (h == Agent ==> pastWas <= seen + 1 && seen < |past| && past[seen] != [])
    && (h != Agent ==> l.Some? && OperatorSpoke(prose, l.value.note.at, ownWas, own, stop, l.value, h))
    && (h == Agent && l.Some? ==> l.value.once && stop.failed != [] && (own == ownWas || own == ownWas + [l.value.note]))
    && (l.None? ==> own == ownWas)
    && (l.Some? ==> Landed(size, past, l.value) && pastWas <= l.value.first + 1)
  }

  lemma RoseIff(counts: seq<Count>, start: nat, before: nat)
    requires start < |counts| && counts[start].n == before
    ensures RoseAfter(counts, start) <==> Exceeds(counts, start + 1, before)
  {
  }

  lemma SyntheticCaptured(size: Size, prose: NoteText.Prose, at: Time, stop: Input, pastWas: nat, countsWas: nat, ownWas: seq<Note>,
                          past: seq<seq<Note>>, counts: seq<Count>, own: seq<Note>, h: Handoff, l: Landing)
    requires !RoseAfter(counts, countsWas)
    requires Landed(size, past, l) && pastWas <= l.first + 1 && OperatorSpoke(prose, at, ownWas, own, stop, l, h)
    ensures Captured(size, prose, stop, pastWas, countsWas, ownWas, past, counts, own, h, Some(l), 0)
  {
    var oom :| l.note == SyntheticNoteAt(prose, at, stop, oom);
    assert l.note.at == at;
  }

  lemma AgentCaptured(size: Size, prose: NoteText.Prose, stop: Input, pastWas: nat, countsWas: nat, ownWas: seq<Note>,
                      past: seq<seq<Note>>, counts: seq<Count>, own: seq<Note>, l: Option<Landing>, seen: nat)
    requires RoseAfter(counts, countsWas)
    requires pastWas <= seen + 1 && seen < |past| && past[seen] != []
    requires l.None? ==> own == ownWas
    requires l.Some? ==> Landed(size, past, l.value) && pastWas <= l.value.first + 1
    requires l.Some? ==> l.value.once && stop.failed != [] && (own == ownWas || own == ownWas + [l.value.note])
    ensures Captured(size, prose, stop, pastWas, countsWas, ownWas, past, counts, own, Agent, l, seen)
  {
  }

  lemma CapturedStays(size: Size, prose: NoteText.Prose, stop: Input, pastWas: nat, countsWas: nat, ownWas: seq<Note>,
                      past: seq<seq<Note>>, later: seq<seq<Note>>, counts: seq<Count>, own: seq<Note>,
                      h: Handoff, l: Option<Landing>, seen: nat)
    requires Captured(size, prose, stop, pastWas, countsWas, ownWas, past, counts, own, h, l, seen) && past <= later
    ensures Captured(size, prose, stop, pastWas, countsWas, ownWas, later, counts, own, h, l, seen)
  {
    if l.Some? {
      LandedStays(size, past, later, l.value);
    }
  }

  /** The operator's last append, once the others leave the journal be, left notes
      behind exactly when it survived. */
  ghost predicate LeavesNotesIff(size: Size, past: seq<seq<Note>>, notes: seq<Note>, l: Option<Landing>) {
    l.Some? && Landed(size, past, l.value) && Quiet(past, l.value.done) ==> (notes != [] <==> Survives(size, past, l.value))
  }

  lemma Leaves(size: Size, past: seq<seq<Note>>, notes: seq<Note>, l: Option<Landing>)
    requires past != [] && past[|past| - 1] == notes
    ensures LeavesNotesIff(size, past, notes, l)
  {
    if l.Some? && Landed(size, past, l.value) && Quiet(past, l.value.done) {
      LandingLeavesNotesIff(size, past, l.value);
    }
  }

  /** At most one handoff turn was offered, before the cap, and the session read just
      before it found neither a turn in flight nor a dead wrapper. */
  ghost predicate OneOffer(was: seq<Offer>, offers: seq<Offer>, start: Time, cap: Time) {
    && was <= offers
    && |offers| <= |was| + 1
    && (offers != was ==>
          var o := offers[|offers| - 1];
          o.read == Read(Ready, o.at) && start <= o.at < cap)
  }

  /** The first count read from `start` on was exceeded by a later one. */
  ghost predicate RoseAfter(counts: seq<Count>, start: nat) {
    start < |counts| && Exceeds(counts, start + 1, counts[start].n)
  }

  ghost predicate Exceeds(counts: seq<Count>, start: nat, before: nat) {
    exists k :: start <= k < |counts| && before < counts[k].n
  }

  /** The operator appended one note, its synthetic one, and called it lost exactly
      when there was nothing to hand off. */
  ghost predicate OperatorSpoke(prose: NoteText.Prose, at: Time, was: seq<Note>, own: seq<Note>, stop: Input, l: Landing, h: Handoff) {
    && h != Agent && !l.once && own == was + [l.note]
    && (h == Lost <==> NoteText.ContentFree(stop.finalText, stop.pushed, stop.failed))
    && exists oom :: l.note == SyntheticNoteAt(prose, at, stop, oom)
  }

  function SyntheticNoteAt(prose: NoteText.Prose, at: Time, stop: Input, oom: Option<Bytes>): Note {
    Note(at, OPERATOR, HANDOFF, NoteText.SyntheticNote(prose, stop.finalText, stop.pushed, stop.failed, oom))
  }

  /** The operator's own notes are never mistaken for an agent's handoff. */
  lemma OwnNotesAreNoAgentHandoff(prose: NoteText.Prose, at: Time, stop: Input, oom: Option<Bytes>, journal: seq<Note>)
    ensures !IsAgentHandoff(SyntheticNoteAt(prose, at, stop, oom))
    ensures HandoffCount(journal + [SyntheticNoteAt(prose, at, stop, oom)]) == HandoffCount(journal)
  {
    HandoffCountAppend(journal, [SyntheticNoteAt(prose, at, stop, oom)]);
    assert [SyntheticNoteAt(prose, at, stop, oom)][..0] == [];
  }
}
