/** How one note lands in a Task's journal: the count cap and the byte budget of the
    object guard both drop the oldest notes, in two reads with a spill between. */
module NoteJournal {
  import opened Wrappers
  import opened Utf8

  datatype Note = Note(at: int, agent: string, kind: string, body: Bytes)

  const MAX_NOTES := 50
  const BYTE_BUDGET := 800_000

  /** The marshalled size of the Task with these notes and everything else as it is. */
  type Size = seq<Note> -> nat

  /** Dropping the oldest note never makes the object larger. */
  ghost predicate Shrinks(size: Size) {
    forall notes: seq<Note> :: notes != [] ==> size(notes[1..]) <= size(notes)
  }

  datatype FitError = TooLarge | SpillFailed

  // ---------- eviction ----------

  /** How many of the oldest notes go until the object fits or none is left. */
  function Evicted(size: Size, notes: seq<Note>): (n: nat)
    ensures n <= |notes|
    ensures n < |notes| ==> size(notes[n..]) <= BYTE_BUDGET
  {
    if size(notes) <= BYTE_BUDGET || notes == [] then 0 else 1 + Evicted(size, notes[1..])
  }

  method EvictOldest(size: Size, notes: seq<Note>) returns (survivors: seq<Note>, evicted: seq<Note>, finalSize: nat)
    ensures survivors == notes[Evicted(size, notes)..] && evicted == notes[..Evicted(size, notes)]
    ensures finalSize == size(survivors)
  {
    survivors, evicted := notes, [];
    while true
      invariant evicted + survivors == notes
      invariant Evicted(size, notes) == |evicted| + Evicted(size, survivors)
      decreases |survivors|
    {
      finalSize := size(survivors);
      if finalSize <= BYTE_BUDGET || |survivors| == 0 {
        return;
      }
      evicted, survivors := evicted + [survivors[0]], survivors[1..];
    }
  }

  // ---------- the append ----------

  function Has(notes: seq<Note>, n: Note): bool {
    exists k :: 0 <= k < |notes| && notes[k].agent == n.agent && notes[k].body == n.body
  }

  /** The closure of the appender; `once` leaves the journal alone when the same agent
      already said the same. */
  function Mutated(notes: seq<Note>, n: Note, once: bool): seq<Note> {
    if once && Has(notes, n) then notes else notes + [n]
  }

  method Mutate(notes: seq<Note>, n: Note, once: bool) returns (out: seq<Note>)
    ensures out == Mutated(notes, n, once)
  {
    if once {
      for i := 0 to |notes|
        invariant forall k :: 0 <= k < i ==> !(notes[k].agent == n.agent && notes[k].body == n.body)
      {
        if notes[i].agent == n.agent && notes[i].body == n.body {
          return notes;
        }
      }
    }
    return notes + [n];
  }

  function OverCap(notes: seq<Note>): nat {
    if |notes| > MAX_NOTES then |notes| - MAX_NOTES else 0
  }

  /** What the first read decides to drop. */
  function Planned(size: Size, notes: seq<Note>): nat {
    OverCap(notes) + Evicted(size, notes[OverCap(notes)..])
  }

  /** What the second read then drops from the journal as it is by then. */
  function Dropped(planned: nat, again: seq<Note>): (d: nat)
    ensures d <= |again|
  {
    if planned == 0 then 0
    else
      var d := if planned < OverCap(again) then OverCap(again) else planned;
      if |again| < d then |again| else d
  }

  /** FitTask with the note cap: `cur` is the journal at the first read and `again`
      at the second, and `spills` whether the evicted batch could be stored. */
  function Fit(size: Size, cur: seq<Note>, again: seq<Note>, n: Note, once: bool, spills: bool): Result<seq<Note>, FitError> {
    var candidate := Mutated(cur, n, once);
    var planned := Planned(size, candidate);
    var written := Mutated(again, n, once);
    if size(candidate[planned..]) > BYTE_BUDGET then Failure(TooLarge)
    else if planned > 0 && !spills then Failure(SpillFailed)
    else if size(written[Dropped(planned, written)..]) > BYTE_BUDGET then Failure(TooLarge)
    else Success(written[Dropped(planned, written)..])
  }

  /** The first read: how many notes will have to go, and whether what is left fits. */
  method Plan(size: Size, notes: seq<Note>) returns (evictedN: nat, finalSize: nat)
    ensures evictedN == Planned(size, notes) && evictedN <= |notes|
    ensures finalSize == size(notes[evictedN..])
  {
    var over := 0;
    if |notes| > MAX_NOTES {
      over := |notes| - MAX_NOTES;
    }
    var survivors, evicted;
    survivors, evicted, finalSize := EvictOldest(size, notes[over..]);
    evictedN := over + |evicted|;
    assert survivors == notes[evictedN..];
  }

  /** The second read: the cap is applied again, to the journal as it is by then. */
  method Drop(evictedN: nat, written: seq<Note>) returns (kept: seq<Note>)
    ensures kept == written[Dropped(evictedN, written)..]
  {
    kept := written;
    if evictedN > 0 {
      var drop := evictedN;
      if |written| - MAX_NOTES > drop {
        drop := |written| - MAX_NOTES;
      }
      if |written| < drop {
        drop := |written|;
      }
      kept := written[drop..];
    }
  }

  method FitTask(size: Size, cur: seq<Note>, again: seq<Note>, n: Note, once: bool, spills: bool)
    returns (r: Result<seq<Note>, FitError>)
    ensures r == Fit(size, cur, again, n, once, spills)
  {
    var candidate := Mutate(cur, n, once);
    var evictedN, finalSize := Plan(size, candidate);
    if finalSize > BYTE_BUDGET {
      return Failure(TooLarge);
    }
    if evictedN > 0 && !spills {
      return Failure(SpillFailed);
    }
    var written := Mutate(again, n, once);
    written := Drop(evictedN, written);
    if size(written) > BYTE_BUDGET {
      return Failure(TooLarge);
    }
    return Success(written);
  }

  // ---------- what an append leaves behind ----------

  lemma {:induction false} EvictedLeast(size: Size, notes: seq<Note>, k: nat)
    requires Shrinks(size) && k < Evicted(size, notes)
    ensures size(notes[k..]) > BYTE_BUDGET
  {
    if k > 0 {
      assert notes[1..][k - 1..] == notes[k..];
      EvictedLeast(size, notes[1..], k - 1);
    } else {
      assert notes[0..] == notes;
    }
  }

  /** With nobody writing between the two reads, exactly the planned notes go. */
  lemma UndisturbedFit(size: Size, cur: seq<Note>, n: Note, spills: bool)
    requires Fit(size, cur, cur, n, false, spills).Success?
    ensures var all := cur + [n];
            && Planned(size, all) <= |all|
            && size(all[Planned(size, all)..]) <= BYTE_BUDGET
            && Fit(size, cur, cur, n, false, spills) == Success(all[Planned(size, all)..])
  {
  }

  lemma PlannedLeast(size: Size, all: seq<Note>, k: nat)
    requires Shrinks(size) && k < Planned(size, all) && k + MAX_NOTES >= |all|
    ensures size(all[k..]) > BYTE_BUDGET
  {
    var over := OverCap(all);
    assert all[over..][k - over..] == all[k..];
    EvictedLeast(size, all[over..], k - over);
  }

  /** Then the journal becomes the longest suffix of the old one and the new note that
      keeps both limits. */
  lemma AppendKeepsLongestSuffix(size: Size, cur: seq<Note>, n: Note, spills: bool)
    requires Shrinks(size) && Fit(size, cur, cur, n, false, spills).Success?
    ensures var all := cur + [n];
            var r := Fit(size, cur, cur, n, false, spills).value;
            && |r| <= |all| && r == all[|all| - |r|..]
            && |r| <= MAX_NOTES && size(r) <= BYTE_BUDGET
            && forall k :: 0 <= k < |all| - |r| && k + MAX_NOTES >= |all| ==> size(all[k..]) > BYTE_BUDGET
  {
    var all := cur + [n];
    UndisturbedFit(size, cur, n, spills);
    forall k | 0 <= k < Planned(size, all) && k + MAX_NOTES >= |all|
      ensures size(all[k..]) > BYTE_BUDGET
    {
      PlannedLeast(size, all, k);
    }
  }

  /** The promise that an error-free append leaves the journal non-empty holds exactly
      when the new note fits the byte budget on its own; if it does, it is the last. */
  lemma JournalNotEmptyIff(size: Size, cur: seq<Note>, n: Note, spills: bool)
    requires Shrinks(size) && Fit(size, cur, cur, n, false, spills).Success?
    ensures var r := Fit(size, cur, cur, n, false, spills).value;
            && (r != [] <==> size([n]) <= BYTE_BUDGET)
            && (r != [] ==> r[|r| - 1] == n)
  {
    var all := cur + [n];
    var r := Fit(size, cur, cur, n, false, spills).value;
    AppendKeepsLongestSuffix(size, cur, n, spills);
    assert all[|all| - 1..] == [n];
    if r != [] {
      SuffixSmaller(size, r, |r| - 1);
      assert r[|r| - 1..] == [n];
    }
  }

  /** A journal whose last note fits on its own is never planned away. */
  lemma LastStays(size: Size, all: seq<Note>)
    requires Shrinks(size) && all != [] && size([all[|all| - 1]]) <= BYTE_BUDGET
    ensures Planned(size, all) < |all|
  {
    assert all[|all| - 1..] == [all[|all| - 1]];
    if Planned(size, all) > |all| - 1 {
      PlannedLeast(size, all, |all| - 1);
    }
  }

  lemma {:induction false} SuffixSmaller(size: Size, notes: seq<Note>, k: nat)
    requires Shrinks(size) && k <= |notes|
    ensures size(notes[k..]) <= size(notes)
  {
    if k > 0 {
      SuffixSmaller(size, notes[1..], k - 1);
      assert notes[1..][k - 1..] == notes[k..];
    } else {
      assert notes[0..] == notes;
    }
  }

  /** The size of a Task whose other fields fill the budget. */
  function FullTask(notes: seq<Note>): nat {
    BYTE_BUDGET + |notes|
  }

  /** A Task whose other fields leave no room for any note accepts the write and ends
      up with an empty journal. */
  lemma JournalMayEmpty(n: Note)
    ensures Shrinks(FullTask)
    ensures Fit(FullTask, [], [], n, false, true) == Success([])
  {
    assert Mutated([], n, false) == [n];
    assert [n][0..] == [n] && [n][1..] == [];
    assert Evicted(FullTask, [n]) == 1;
  }

  /** Whatever others write between the two reads, the journal is left non-empty exactly
      when the second read, with what the append adds to it, holds more notes than the
      first decided to drop. */
  lemma LandedNotEmptyIff(size: Size, cur: seq<Note>, again: seq<Note>, n: Note, once: bool, spills: bool)
    requires Fit(size, cur, again, n, once, spills).Success?
    ensures var r, written := Fit(size, cur, again, n, once, spills).value, Mutated(again, n, once);
            && (r != [] <==> Planned(size, Mutated(cur, n, once)) < |written|)
            && |r| <= |written| && r == written[|written| - |r|..]
  {
    var written := Mutated(again, n, once);
    var d := Dropped(Planned(size, Mutated(cur, n, once)), written);
    assert Fit(size, cur, again, n, once, spills).value == written[d..];
  }

  /** So a new note survives exactly when the second read found at least as many notes as
      the first decided to drop, and then it is the last. */
  lemma SurvivesOthersIff(size: Size, cur: seq<Note>, again: seq<Note>, n: Note, spills: bool)
    requires Fit(size, cur, again, n, false, spills).Success?
    ensures var r := Fit(size, cur, again, n, false, spills).value;
            && (r != [] <==> Planned(size, cur + [n]) <= |again|)
            && (r != [] ==> r[|r| - 1] == n)
  {
    LandedNotEmptyIff(size, cur, again, n, false, spills);
  }

  /** With nobody in between, a note that fits on its own always survives. */
  lemma UndisturbedSurvives(size: Size, cur: seq<Note>, n: Note)
    requires Shrinks(size) && size([n]) <= BYTE_BUDGET
    ensures Planned(size, cur + [n]) <= |cur|
  {
    LastStays(size, cur + [n]);
  }

  lemma UndisturbedSucceeds(size: Size, cur: seq<Note>, n: Note)
    requires size([]) <= BYTE_BUDGET
    ensures var all := cur + [n];
            && Planned(size, all) <= |all|
            && Fit(size, cur, cur, n, false, true) == Success(all[Planned(size, all)..])
  {
    var all := cur + [n];
    assert Mutated(cur, n, false) == all;
    if Planned(size, all) == |all| {
      assert all[|all|..] == [];
    } else {
      var over := OverCap(all);
      assert all[over..][Planned(size, all) - over..] == all[Planned(size, all)..];
    }
  }

  /** A journal from before the cap, twice as long as it or longer, and two appenders:
      the first to write trims it, and the other, which still drops by what it read before
      that, writes an empty journal without an error, whatever the notes and their sizes. */
  lemma RaceDropsNote(size: Size, cur: seq<Note>, m: Note, n: Note)
    requires |cur| >= 2 * MAX_NOTES && size([]) <= BYTE_BUDGET
    ensures Fit(size, cur, cur, m, false, true).Success?
    ensures Fit(size, cur, Fit(size, cur, cur, m, false, true).value, n, false, true) == Success([])
  {
    UndisturbedSucceeds(size, cur, m);
    UndisturbedSucceeds(size, cur, n);
    var again := Fit(size, cur, cur, m, false, true).value;
    var written := Mutated(again, n, false);
    assert |again| <= MAX_NOTES && Planned(size, cur + [n]) > MAX_NOTES;
    assert Dropped(Planned(size, cur + [n]), written) == |written| && written[|written|..] == [];
  }

  /** When the second read finds that the agent already said the same, the append adds
      nothing, whatever the first read found: an addendum is never doubled. */
  lemma SuppressedAddsNothing(size: Size, cur: seq<Note>, again: seq<Note>, n: Note, spills: bool)
    requires Has(again, n)
    requires Fit(size, cur, again, n, true, spills).Success?
    ensures var r := Fit(size, cur, again, n, true, spills).value;
            |r| <= |again| && r == again[|again| - |r|..]
  {
    LandedNotEmptyIff(size, cur, again, n, true, spills);
  }

  /** The journal as it is, or only its newest notes if it is over the cap. */
  function Trimmed(notes: seq<Note>, spills: bool): Result<seq<Note>, FitError> {
    if OverCap(notes) > 0 && !spills then Failure(SpillFailed) else Success(notes[OverCap(notes)..])
  }

  /** An addendum the second read did not find is there in the end exactly when that read
      found at least as many notes as the first decided to drop, as it always does with
      nobody in between. If it is there, the whole append, retried however the spill goes,
      leaves the journal as it is, or only trims a journal over the cap to its newest notes. */
  lemma OnceIsOnce(size: Size, cur: seq<Note>, again: seq<Note>, n: Note, spills: bool, spillsNext: bool)
    requires Shrinks(size) && !Has(again, n)
    requires Fit(size, cur, again, n, true, spills).Success?
    ensures var r := Fit(size, cur, again, n, true, spills).value;
            && (Has(r, n) <==> Planned(size, Mutated(cur, n, true)) <= |again|)
            && (cur == again && size([n]) <= BYTE_BUDGET ==> Has(r, n) && |r| <= MAX_NOTES)
            && (Has(r, n) ==> Has(r[OverCap(r)..], n))
            && (Has(r, n) ==> Fit(size, r, r, n, true, spillsNext) == Trimmed(r, spillsNext))
  {
    var r := Fit(size, cur, again, n, true, spills).value;
    LandedNotEmptyIff(size, cur, again, n, true, spills);
    assert Mutated(again, n, true) == again + [n];
    if r != [] {
      assert r[|r| - 1] == n;
      assert r[OverCap(r)..][|r| - OverCap(r) - 1] == n;
      Settled(size, r, n, spillsNext);
    }
    if cur == again {
      assert Mutated(cur, n, true) == cur + [n];
      if size([n]) <= BYTE_BUDGET {
        UndisturbedSurvives(size, cur, n);
      }
    }
  }

  /** A journal within the byte budget that has the note takes the append as nothing but
      a chance to apply the cap. */
  lemma Settled(size: Size, r: seq<Note>, n: Note, spills: bool)
    requires Shrinks(size) && Has(r, n) && size(r) <= BYTE_BUDGET
    ensures Fit(size, r, r, n, true, spills) == Trimmed(r, spills)
  {
    assert Mutated(r, n, true) == r;
    SuffixSmaller(size, r, OverCap(r));
    assert Planned(size, r) == OverCap(r);
  }

  // ---------- counting the agent's handoffs ----------

  const OPERATOR := "operator"
  const HANDOFF := "handoff"

  predicate IsAgentHandoff(n: Note) {
    n.kind == HANDOFF && n.agent != OPERATOR
  }

  function HandoffCount(notes: seq<Note>): nat {
    if notes == [] then 0
    else HandoffCount(notes[..|notes| - 1]) + if IsAgentHandoff(notes[|notes| - 1]) then 1 else 0
  }

  lemma {:induction false} HandoffCountAppend(a: seq<Note>, b: seq<Note>)
    ensures HandoffCount(a + b) == HandoffCount(a) + HandoffCount(b)
  {
    if b == [] {
      assert a + b == a;
    } else {
      assert (a + b)[..|a + b| - 1] == a + b[..|b| - 1];
      HandoffCountAppend(a, b[..|b| - 1]);
    }
  }

  /** The wait for the agent's handoff compares counts, so a note the agent did write is
      seen exactly when the append dropped no older handoff of an agent's from the journal
      its second read found. */
  lemma HandoffSeenIff(size: Size, cur: seq<Note>, again: seq<Note>, n: Note, spills: bool)
    requires IsAgentHandoff(n)
    requires Fit(size, cur, again, n, false, spills).Success?
    ensures var r := Fit(size, cur, again, n, false, spills).value;
            && |r| <= |again| + 1
            && (HandoffCount(r) > HandoffCount(again) <==> HandoffCount((again + [n])[..|again| + 1 - |r|]) == 0)
  {
    var all := again + [n];
    LandedNotEmptyIff(size, cur, again, n, false, spills);
    var r := Fit(size, cur, again, n, false, spills).value;
    assert all == all[..|all| - |r|] + r;
    HandoffCountAppend(all[..|all| - |r|], r);
    assert all[..|all| - 1] == again;
  }

  /** A full journal of agent handoffs hides the next one. */
  lemma FullJournalHidesHandoff(cur: seq<Note>, n: Note)
    requires |cur| == MAX_NOTES && IsAgentHandoff(cur[0]) && IsAgentHandoff(n)
    ensures var r := Fit(_ => 0, cur, cur, n, false, true);
            r == Success(cur[1..] + [n]) && HandoffCount(r.value) == HandoffCount(cur)
  {
    var all := cur + [n];
    var size: Size := _ => 0;
    assert OverCap(all) == 1 && Evicted(size, all[1..]) == 0;
    assert all[1..] == cur[1..] + [n];
    assert cur == [cur[0]] + cur[1..];
    HandoffCountAppend([cur[0]], cur[1..]);
    HandoffCountAppend(cur[1..], [n]);
    assert [cur[0]][..0] == [] && [n][..0] == [];
  }
}
