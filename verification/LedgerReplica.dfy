/** One call of `mutate`, written as the retry loop the operator runs, against a
    cluster on which every other replica moves at will between its steps. */
module LedgerReplica {
  import opened Wrappers
  import opened DeployLedger
  import opened LedgerCas

  lemma {:induction false} RunAppend(w: World, a: seq<Action>, b: seq<Action>)
    ensures Run(Run(w, a), b) == Run(w, a + b)
    decreases |a|
  {
    if a == [] {
      assert a + b == b;
    } else {
      assert (a + b)[0] == a[0] && (a + b)[1..] == a[1..] + b;
      RunAppend(Step(w, a[0]), a[1..], b);
    }
  }

  predicate NoneOf(actions: seq<Action>, me: nat) {
    forall a <- actions :: a.call != me
  }

  /** Other calls neither move this one nor rewrite a version it may have read. */
  lemma {:induction false} OthersLeaveMe(w: World, actions: seq<Action>, me: nat)
    requires NoneOf(actions, me) && me < |w.pcs|
    ensures var end := Run(w, actions);
            |end.pcs| == |w.pcs| && end.pcs[me] == w.pcs[me] && end.fns == w.fns && w.history <= end.history
    decreases |actions|
  {
    if actions != [] {
      assert actions[0] in actions;
      assert forall a <- actions[1..] :: a in actions;
      OthersLeaveMe(Step(w, actions[0]), actions[1..], me);
    }
  }

  datatype Attempted = Committed | Errored | Conflicted

  class Cluster {
    var w: World

    /** Any number of steps of any other calls. */
    method Others(me: nat) returns (ghost done: seq<Action>)
      requires Linear(w) && me < |w.pcs|
      modifies this
      ensures NoneOf(done, me) && w == Run(old(w), done) && Linear(w)
      ensures |w.pcs| == |old(w).pcs| && w.pcs[me] == old(w).pcs[me] && w.fns == old(w).fns
      ensures old(w).history <= w.history
    {
      var actions: seq<Action> := [];
      actions := *;
      if !NoneOf(actions, me) {
        actions := [];
      }
      RunLinear(w, actions);
      OthersLeaveMe(w, actions, me);
      w := Run(w, actions);
      done := actions;
    }

    /** The server's answer to Create: AlreadyExists unless there is no ConfigMap. */
    method Create(me: nat, cell: Option<Stored>) returns (accepted: bool)
      requires me < |w.pcs| && w.history != []
      modifies this
      ensures accepted == old(w).history[|old(w).history| - 1].None?
      ensures w == if accepted then Commit(old(w), me, cell) else old(w)
    {
      accepted := w.history[|w.history| - 1].None?;
      if accepted {
        w := Commit(w, me, cell);
      }
    }

    /** The server's answer to Update: Conflict unless the object carries the latest
        resourceVersion. */
    method Update(me: nat, seen: nat, cell: Option<Stored>) returns (accepted: bool)
      requires me < |w.pcs| && w.history != []
      modifies this
      ensures accepted == (seen == |old(w).history| - 1)
      ensures w == if accepted then Commit(old(w), me, cell) else old(w)
    {
      accepted := seen == |w.history| - 1;
      if accepted {
        w := Commit(w, me, cell);
      }
    }

    /** This call's own step, made after the others moved. */
    method Own(ghost start: World, ghost steps: seq<Action>, a: Action) returns (ghost steps': seq<Action>)
      requires w == Run(start, steps) && Linear(w)
      modifies this
      ensures w == Step(old(w), a) && Linear(w)
      ensures steps' == steps + [a] && w == Run(start, steps')
    {
      StepLinear(w, a);
      RunAppend(start, steps, [a]);
      assert Run(w, [a]) == Step(w, a);
      w := Step(w, a);
      steps' := steps + [a];
    }

    /** Create if the Get found no ConfigMap and Update if it found one; a lost race
        of either kind is a Conflict. */
    method Put(me: nat, read: Option<Stored>, seen: nat, next: Entries) returns (r: Attempted)
      requires Linear(w) && me < |w.pcs| && w.pcs[me].Holding? && w.pcs[me].seen == seen
      requires seen < |w.history| && w.history[seen] == read
      requires Apply(Contents(read), w.fns[me]) == Some(next)
      modifies this
      ensures w == Step(old(w), Write(me)) && Linear(w)
      ensures r == if w.pcs[me].Done? then Committed else Conflicted
      ensures w.pcs[me] == (if r.Committed? then Done
                            else if old(w).pcs[me].conflicts + 1 == STEPS then Failed(true)
                            else Ready(old(w).pcs[me].conflicts + 1))
    {
      StepLinear(w, Write(me));
      var accepted;
      if read.None? {
        accepted := Create(me, Some(Encode(next)));
      } else {
        accepted := Update(me, seen, Some(Encode(next)));
      }
      if accepted {
        return Committed;
      }
      var conflicts := w.pcs[me].conflicts + 1;
      w := Move(w, me, if conflicts == STEPS then Failed(true) else Ready(conflicts));
      return Conflicted;
    }

    /** Client.Get, possibly answered from a stale cache: the version it returns stays
        what it was whatever the others do next. */
    method Read(me: nat) returns (ok: bool, read: Option<Stored>, seen: nat, ghost steps: seq<Action>)
      requires Linear(w) && me < |w.pcs| && w.pcs[me].Ready?
      modifies this
      ensures w == Run(old(w), steps) && Linear(w)
      ensures |w.pcs| == |old(w).pcs| && w.fns == old(w).fns
      ensures if ok
              then w.pcs[me] == Holding(old(w).pcs[me].conflicts, seen) && seen < |w.history| && w.history[seen] == read
              else w.pcs[me] == Failed(false)
    {
      ghost var start := w;
      read, seen := None, 0;
      steps := Others(me);
      var getErr: bool := *;
      if getErr {
        steps := Own(start, steps, GetFails(me));
        return false, read, seen, steps;
      }
      var version: int := *;
      if version < 0 || version >= |w.history| {
        version := |w.history| - 1;
      }
      seen, read := version, w.history[version];
      steps := Own(start, steps, Get(me, seen));
      ghost var between := Others(me);
      RunAppend(start, steps, between);
      steps := steps + between;
      ok := true;
    }

    /** The closure handed to RetryOnConflict: Get, decode, apply, encode, and then
        Create or Update. */
    method Attempt(me: nat, fn: Mutation) returns (r: Attempted, ghost steps: seq<Action>)
      requires Linear(w) && me < |w.pcs| && w.pcs[me].Ready? && w.fns[me] == fn
      modifies this
      ensures w == Run(old(w), steps) && Linear(w)
      ensures |w.pcs| == |old(w).pcs| && w.fns == old(w).fns
      ensures w.pcs[me] ==
              match r
              case Committed => Done
              case Errored => Failed(false)
              case Conflicted =>
                if old(w).pcs[me].conflicts + 1 == STEPS then Failed(true) else Ready(old(w).pcs[me].conflicts + 1)
    {
      ghost var start := w;
      var ok, read, seen;
      ok, read, seen, steps := Read(me);
      if !ok {
        return Errored, steps;
      }
      var cur := Contents(read);
      var next := if cur.Some? then fn(cur.value) else Failure("corrupt entries");
      var writeErr: bool := *;
      if next.Failure? || writeErr {
        steps := Own(start, steps, WriteFails(me));
        return Errored, steps;
      }
      ghost var w0 := w;
      r := Put(me, read, seen, next.value);
      RunAppend(start, steps, [Write(me)]);
      assert Run(w0, [Write(me)]) == Step(w0, Write(me));
      steps := steps + [Write(me)];
    }

    /** RetryOnConflict around the closure. The loop is one of the runs of the state
        machine: `steps` lists its own steps and those of the others, and leads from
        the old world to the new one. It returns nil exactly when its own last write
        was accepted. */
    method Mutate(me: nat, fn: Mutation) returns (ok: bool, ghost steps: seq<Action>)
      requires Linear(w) && me < |w.pcs| && w.pcs[me] == Ready(0) && w.fns[me] == fn
      modifies this
      ensures w == Run(old(w), steps) && Linear(w) && |w.pcs| == |old(w).pcs|
      ensures if ok then w.pcs[me].Done? else w.pcs[me].Failed?
    {
      steps := [];
      for attempt := 0 to STEPS
        invariant w == Run(old(w), steps) && Linear(w)
        invariant |w.pcs| == |old(w).pcs| && w.fns == old(w).fns
        invariant w.pcs[me] == if attempt < STEPS then Ready(attempt) else Failed(true)
      {
        ghost var more;
        var r;
        ghost var start := w;
        r, more := Attempt(me, fn);
        RunAppend(old(w), steps, more);
        steps := steps + more;
        match r
        case Committed => return true, steps;
        case Errored => return false, steps;
        case Conflicted =>
      }
      return false, steps;
    }
  }
}
