/** The compare-and-swap loop of the deploy ledger, run by any number of replicas
    against one ConfigMap.

    The API server is one cell that keeps every version it ever held; version k of
    the cell is `history[k]`, and None means the ConfigMap does not exist yet. A
    call of `mutate` is a small program counter. Reads may be stale: a Get answers
    with any version the cell ever had. Writes are judged against the latest one. */
module LedgerCas {
  import opened Wrappers
  import opened DeployLedger

  /** The caller's pure function on the decoded entries. */
  type Mutation = Entries -> Result<Entries, string>

  /** ledgerRetry.Steps: the number of attempts before a Conflict surfaces. */
  const STEPS := 30

  datatype Pc =
    | Ready(conflicts: nat)               // about to Get
    | Holding(conflicts: nat, seen: nat)  // has read version `seen`, about to write
    | Done                                // returned nil
    | Failed(exhausted: bool)             // returned an error

  /** Call i runs `fns[i]` and stands at `pcs[i]`; `commits` names the calls whose
      write the server accepted, in that order. */
  datatype World = World(history: seq<Option<Stored>>, fns: seq<Mutation>, pcs: seq<Pc>, commits: seq<nat>)

  datatype Action =
    | Get(call: nat, version: nat)
    | GetFails(call: nat)
    | Write(call: nat)
    | WriteFails(call: nat)

  /** What a reader makes of one version: an absent ConfigMap and a blank key both
      hold no entries, and unparseable text holds nothing that can be read. */
  function Contents(cell: Option<Stored>): Option<Entries> {
    match cell
    case None => Some([])
    case Some(raw) => Decode(raw)
  }

  ghost predicate Initial(w: World) {
    && |w.history| == 1
    && w.commits == []
    && |w.pcs| == |w.fns|
    && forall i :: 0 <= i < |w.pcs| ==> w.pcs[i] == Ready(0)
  }

  predicate Enabled(w: World, a: Action) {
    && a.call < |w.pcs| == |w.fns|
    && match a
       case Get(i, v) => w.pcs[i].Ready? && v < |w.history|
       case GetFails(i) => w.pcs[i].Ready?
       case Write(i) => w.pcs[i].Holding? && w.pcs[i].seen < |w.history|
       case WriteFails(i) => w.pcs[i].Holding?
  }

  function Move(w: World, i: nat, pc: Pc): World
    requires i < |w.pcs|
  {
    w.(pcs := w.pcs[i := pc])
  }

  /** Create when the ConfigMap was read as absent, Update otherwise. The server
      accepts a Create only while there is no ConfigMap and an Update only against
      its latest version, and it gives an unchanged object no new version. */
  function WriteStep(w: World, i: nat): World
    requires Enabled(w, Write(i))
  {
    var pc := w.pcs[i];
    var latest := |w.history| - 1;
    match Contents(w.history[pc.seen])
    case None => Move(w, i, Failed(false))
    case Some(cur) =>
      match w.fns[i](cur)
      case Failure(_) => Move(w, i, Failed(false))
      case Success(next) =>
        if (if w.history[pc.seen].None? then w.history[latest].None? else pc.seen == latest) then
          Commit(w, i, Some(Encode(next)))
        else if pc.conflicts + 1 == STEPS then Move(w, i, Failed(true))
        else Move(w, i, Ready(pc.conflicts + 1))
  }

  function Commit(w: World, i: nat, cell: Option<Stored>): World
    requires i < |w.pcs| && w.history != []
  {
    Move(w, i, Done).(
      history := if cell == w.history[|w.history| - 1] then w.history else w.history + [cell],
      commits := w.commits + [i])
  }

  /** One step; an action that is not enabled changes nothing. */
  function Step(w: World, a: Action): World {
    if !Enabled(w, a) then w else
    match a
    case Get(i, v) => Move(w, i, Holding(w.pcs[i].conflicts, v))
    case GetFails(i) => Move(w, i, Failed(false))
    case Write(i) => WriteStep(w, i)
    case WriteFails(i) => Move(w, i, Failed(false))
  }

  function Run(w: World, actions: seq<Action>): World
    decreases |actions|
  {
    if actions == [] then w else Run(Step(w, actions[0]), actions[1..])
  }

  // ---------- what the ledger should hold ----------

  /** Applies one function; None once something could not be read or applied. */
  function Apply(es: Option<Entries>, fn: Mutation): Option<Entries> {
    if es.None? then None else
    match fn(es.value)
    case Success(next) => Some(next)
    case Failure(_) => None
  }

  predicate Calls(commits: seq<nat>, n: nat) {
    forall k :: 0 <= k < |commits| ==> commits[k] < n
  }

  /** The committed functions applied one after the other, each exactly once. */
  function Fold(start: Option<Entries>, fns: seq<Mutation>, commits: seq<nat>): Option<Entries>
    requires Calls(commits, |fns|)
  {
    if commits == [] then start
    else Apply(Fold(start, fns, commits[..|commits| - 1]), fns[commits[|commits| - 1]])
  }

  /** The fold of the first `n` commits. */
  function After(w: World, n: nat): Option<Entries>
    requires w.history != [] && n <= |w.commits| && Calls(w.commits, |w.fns|)
  {
    Fold(Contents(w.history[0]), w.fns, w.commits[..n])
  }

  ghost predicate OnceEach(commits: seq<nat>) {
    forall j, k :: 0 <= j < k < |commits| ==> commits[j] != commits[k]
  }

  ghost predicate Shaped(w: World) {
    && w.history != []
    && |w.pcs| == |w.fns|
    && Calls(w.commits, |w.fns|)
    && (forall k :: 0 < k < |w.history| ==> w.history[k].Some?)
    && (forall i :: 0 <= i < |w.pcs| && (w.pcs[i].Ready? || w.pcs[i].Holding?) ==> w.pcs[i].conflicts < STEPS)
    && (forall i :: 0 <= i < |w.pcs| && w.pcs[i].Holding? ==> w.pcs[i].seen < |w.history|)
  }

  /** A call that returned nil committed once; any other committed nothing. */
  ghost predicate CommittedOnce(w: World) {
    && OnceEach(w.commits)
    && forall i :: 0 <= i < |w.pcs| ==> (i in w.commits <==> w.pcs[i].Done?)
  }

  ghost predicate SomePrefix(w: World, v: nat)
    requires w.history != [] && v < |w.history| && Calls(w.commits, |w.fns|)
  {
    exists n :: 0 <= n <= |w.commits| && Contents(w.history[v]) == After(w, n)
  }

  /** The latest version is the fold of everything committed, and every older one
      the fold of a prefix of it. */
  ghost predicate Folded(w: World)
    requires Shaped(w)
  {
    && Contents(w.history[|w.history| - 1]) == After(w, |w.commits|)
    && forall v :: 0 <= v < |w.history| ==> SomePrefix(w, v)
  }

  ghost predicate Linear(w: World) {
    Shaped(w) && CommittedOnce(w) && Folded(w)
  }

  lemma InitialLinear(w: World)
    requires Initial(w)
    ensures Linear(w)
  {
    assert Contents(w.history[0]) == After(w, 0);
  }

  lemma PrefixStays(w: World, w': World, v: nat)
    requires w.history != [] && v < |w.history| && w.history <= w'.history
    requires Calls(w.commits, |w.fns|) && w.commits <= w'.commits
    requires w'.fns == w.fns && Calls(w'.commits, |w.fns|)
    requires SomePrefix(w, v)
    ensures SomePrefix(w', v)
  {
    var n :| 0 <= n <= |w.commits| && Contents(w.history[v]) == After(w, n);
    assert w'.commits[..n] == w.commits[..n];
    assert After(w', n) == After(w, n);
  }

  /** A step that only moves one program counter, not into or out of Done. */
  lemma MoveLinear(w: World, i: nat, pc: Pc)
    requires Linear(w) && i < |w.pcs|
    requires !pc.Done? && !w.pcs[i].Done?
    requires pc.Ready? || pc.Holding? ==> pc.conflicts < STEPS
    requires pc.Holding? ==> pc.seen < |w.history|
    ensures Linear(Move(w, i, pc))
  {
    var w' := Move(w, i, pc);
    forall v | 0 <= v < |w'.history|
      ensures SomePrefix(w', v)
    {
      PrefixStays(w, w', v);
    }
  }

  /** An accepted write appends its call to the commit order and makes the latest
      version what that call's function gives on the version before it. */
  lemma CommitLinear(w: World, i: nat, next: Entries)
    requires Linear(w) && i < |w.pcs| && !w.pcs[i].Done?
    requires Apply(Contents(w.history[|w.history| - 1]), w.fns[i]) == Some(next)
    ensures Linear(Commit(w, i, Some(Encode(next))))
  {
    var w' := Commit(w, i, Some(Encode(next)));
    assert i !in w.commits;
    assert w'.commits[..|w.commits|] == w.commits[..|w.commits|] == w.commits;
    assert w'.commits[..|w'.commits|] == w'.commits;
    assert Fold(Contents(w.history[0]), w.fns, w'.commits) == Some(next);
    assert Contents(w'.history[|w'.history| - 1]) == After(w', |w'.commits|);
    forall v | 0 <= v < |w'.history|
      ensures SomePrefix(w', v)
    {
      if v < |w.history| {
        PrefixStays(w, w', v);
      }
    }
    assert forall k :: 0 <= k < |w.pcs| ==> (k in w'.commits <==> k in w.commits || k == i);
  }

  lemma StepLinear(w: World, a: Action)
    requires Linear(w)
    ensures Linear(Step(w, a))
    ensures Step(w, a).fns == w.fns
    ensures Step(w, a).history[0] == w.history[0]
    ensures w.commits <= Step(w, a).commits
  {
    if Enabled(w, a) {
      match a
      case Get(i, v) => MoveLinear(w, i, Holding(w.pcs[i].conflicts, v));
      case GetFails(i) => MoveLinear(w, i, Failed(false));
      case WriteFails(i) => MoveLinear(w, i, Failed(false));
      case Write(i) =>
        var pc := WriteStep(w, i).pcs[i];
        if pc.Done? {
          var read := Contents(w.history[w.pcs[i].seen]);
          assert read == Contents(w.history[|w.history| - 1]);
          CommitLinear(w, i, w.fns[i](read.value).value);
        } else {
          MoveLinear(w, i, pc);
        }
    }
  }

  lemma {:induction false} RunLinear(w: World, actions: seq<Action>)
    requires Linear(w)
    ensures Linear(Run(w, actions))
    ensures Run(w, actions).fns == w.fns
    ensures Run(w, actions).history[0] == w.history[0]
    ensures w.commits <= Run(w, actions).commits
    decreases |actions|
  {
    if actions != [] {
      StepLinear(w, actions[0]);
      RunLinear(Step(w, actions[0]), actions[1..]);
    }
  }

  /** From any starting ConfigMap, present, absent or corrupt, and for every
      interleaving of every number of calls with stale reads: the stored entries
      are the committed functions folded in commit order, a call that returned nil
      committed once, and one that failed or is still running committed nothing. */
  lemma MutateLinearizable(w: World, actions: seq<Action>)
    requires Initial(w)
    ensures var end := Run(w, actions);
            && end.fns == w.fns && |end.pcs| == |w.fns|
            && Calls(end.commits, |w.fns|) && OnceEach(end.commits)
            && (forall i :: 0 <= i < |w.fns| ==> (i in end.commits <==> end.pcs[i].Done?))
            && end.history != []
            && Contents(end.history[|end.history| - 1]) == Fold(Contents(w.history[0]), w.fns, end.commits)
  {
    var end := Run(w, actions);
    InitialLinear(w);
    RunLinear(w, actions);
    assert end.commits[..|end.commits|] == end.commits;
  }

  /** Whatever version a reader is given, List included, it is the fold of some
      prefix of the commits: nobody ever sees a ledger no order of the committed
      functions produced. */
  lemma EveryVersionIsPrefix(w: World, actions: seq<Action>, v: nat) returns (n: nat)
    requires Initial(w) && v < |Run(w, actions).history|
    ensures var end := Run(w, actions);
            && n <= |end.commits| && Calls(end.commits, |w.fns|)
            && Contents(end.history[v]) == Fold(Contents(w.history[0]), w.fns, end.commits[..n])
  {
    var end := Run(w, actions);
    InitialLinear(w);
    RunLinear(w, actions);
    assert SomePrefix(end, v);
    n :| 0 <= n <= |end.commits| && Contents(end.history[v]) == After(end, n);
  }

  // ---------- every call ends ----------

  function WorkOf(pc: Pc): int {
    match pc
    case Ready(c) => 2 * (STEPS - c)
    case Holding(c, _) => 2 * (STEPS - c) - 1
    case Done => 0
    case Failed(_) => 0
  }

  function Work(pcs: seq<Pc>): int {
    if pcs == [] then 0 else WorkOf(pcs[0]) + Work(pcs[1..])
  }

  lemma {:induction false} WorkUpdate(pcs: seq<Pc>, i: nat, pc: Pc)
    requires i < |pcs|
    ensures Work(pcs[i := pc]) == Work(pcs) - WorkOf(pcs[i]) + WorkOf(pc)
  {
    if i == 0 {
      assert pcs[0 := pc][1..] == pcs[1..];
    } else {
      assert pcs[i := pc][1..] == pcs[1..][i - 1 := pc];
      WorkUpdate(pcs[1..], i - 1, pc);
    }
  }

  lemma {:induction false} WorkBounds(pcs: seq<Pc>)
    requires forall i :: 0 <= i < |pcs| && (pcs[i].Ready? || pcs[i].Holding?) ==> pcs[i].conflicts < STEPS
    ensures 0 <= Work(pcs) <= 2 * STEPS * |pcs|
  {
    if pcs != [] {
      assert forall i :: 0 <= i < |pcs[1..]| ==> pcs[1..][i] == pcs[i + 1];
      WorkBounds(pcs[1..]);
    }
  }

  lemma StepSpendsWork(w: World, a: Action)
    requires Linear(w) && Enabled(w, a)
    ensures Work(Step(w, a).pcs) < Work(w.pcs)
  {
    var pc := Step(w, a).pcs[a.call];
    assert Step(w, a).pcs == w.pcs[a.call := pc];
    WorkUpdate(w.pcs, a.call, pc);
  }

  /** Counts the actions of a run that do something. */
  function Effective(w: World, actions: seq<Action>): nat
    decreases |actions|
  {
    if actions == [] then 0
    else (if Enabled(w, actions[0]) then 1 else 0) + Effective(Step(w, actions[0]), actions[1..])
  }

  lemma {:induction false} RunSpendsWork(w: World, actions: seq<Action>)
    requires Linear(w)
    ensures Effective(w, actions) + Work(Run(w, actions).pcs) <= Work(w.pcs)
    decreases |actions|
  {
    if actions != [] {
      StepLinear(w, actions[0]);
      RunSpendsWork(Step(w, actions[0]), actions[1..]);
      if Enabled(w, actions[0]) {
        StepSpendsWork(w, actions[0]);
      }
    }
  }

  /** No call spins: however the server answers, N calls take at most 60 steps each
      between them, two per attempt. */
  lemma MutateTerminates(w: World, actions: seq<Action>)
    requires Initial(w)
    ensures Effective(w, actions) <= 2 * STEPS * |w.fns|
  {
    InitialLinear(w);
    RunLinear(w, actions);
    RunSpendsWork(w, actions);
    WorkBounds(w.pcs);
    WorkBounds(Run(w, actions).pcs);
  }

  // ---------- a burst of Deploying Tasks surfaces no Conflict ----------

  /** Every Get of the run answers with the version that is latest at that moment. */
  predicate FreshReads(w: World, actions: seq<Action>)
    decreases |actions|
  {
    actions != [] ==>
      && (actions[0].Get? ==> actions[0].version == |w.history| - 1)
      && FreshReads(Step(w, actions[0]), actions[1..])
  }

  /** With fresh reads each conflict is paid for by a version some other call wrote. */
  ghost predicate Paid(pc: Pc, versions: nat) {
    match pc
    case Ready(n) => n < versions
    case Holding(n, v) => n <= v < versions
    case Failed(exhausted) => exhausted ==> STEPS < versions
    case Done => true
  }

  ghost predicate ConflictsPaid(w: World) {
    && |w.history| <= |w.commits| + 1
    && forall i :: 0 <= i < |w.pcs| ==> Paid(w.pcs[i], |w.history|)
  }

  lemma {:induction false} FreshRunPays(w: World, actions: seq<Action>)
    requires Linear(w) && ConflictsPaid(w)
    requires FreshReads(w, actions)
    ensures ConflictsPaid(Run(w, actions))
    decreases |actions|
  {
    if actions != [] {
      StepLinear(w, actions[0]);
      StepPays(w, actions[0]);
      FreshRunPays(Step(w, actions[0]), actions[1..]);
    }
  }

  lemma StepPays(w: World, a: Action)
    requires Linear(w) && ConflictsPaid(w)
    requires a.Get? ==> a.version == |w.history| - 1
    ensures ConflictsPaid(Step(w, a))
  {
    if Enabled(w, a) {
      assert Paid(w.pcs[a.call], |w.history|);
      assert Paid(Step(w, a).pcs[a.call], |Step(w, a).history|);
    }
  }

  /** Commits are distinct calls, so a call that did not commit leaves room for at
      most one commit fewer than there are calls. */
  lemma CommitsFewerThanCalls(commits: seq<nat>, n: nat, idle: nat)
    requires Calls(commits, n) && OnceEach(commits)
    requires idle < n && idle !in commits
    ensures |commits| < n
  {
    DistinctFit(commits + [idle], n);
  }

  /** Distinct numbers below n are at most n many. */
  lemma {:induction false} DistinctFit(s: seq<nat>, n: nat)
    requires Calls(s, n) && OnceEach(s)
    ensures |s| <= n
  {
    if s != [] {
      assert s[0] < n;
      if k :| 0 <= k < |s| && s[k] == n - 1 {
        DistinctFit(s[..k] + s[k + 1..], n - 1);
      } else {
        DistinctFit(s, n - 1);
      }
    }
  }

  /** The size of ledgerRetry does what it is for: while at most thirty calls
      contend on one ConfigMap and reads are fresh, none of them gives up on a
      Conflict. */
  lemma BurstSurfacesNoConflict(w: World, actions: seq<Action>)
    requires Initial(w) && |w.fns| <= STEPS
    requires FreshReads(w, actions)
    ensures forall pc <- Run(w, actions).pcs :: pc != Failed(true)
  {
    var end := Run(w, actions);
    InitialLinear(w);
    RunLinear(w, actions);
    FreshRunPays(w, actions);
    forall i | 0 <= i < |end.pcs|
      ensures end.pcs[i] != Failed(true)
    {
      if end.pcs[i] == Failed(true) {
        assert Paid(end.pcs[i], |end.history|);
        CommitsFewerThanCalls(end.commits, |end.pcs|, i);
        assert false;
      }
    }
  }

  // ---------- one entry per Task ----------

  /** The functions Add and SetState hand to mutate. */
  datatype Request = Add(entry: Entry) | SetState(task: string, state: string)

  function Fn(r: Request): Mutation {
    match r
    case Add(e) => es => Success(Upsert(es, e))
    case SetState(task, state) => es => Success(Restate(es, task, state))
  }

  lemma {:induction false} FoldOnePerTask(start: Option<Entries>, requests: seq<Request>, fns: seq<Mutation>, commits: seq<nat>)
    requires |fns| == |requests| && forall i :: 0 <= i < |fns| ==> fns[i] == Fn(requests[i])
    requires Calls(commits, |fns|)
    requires start.Some? ==> OnePerTask(start.value)
    ensures Fold(start, fns, commits).Some? ==> OnePerTask(Fold(start, fns, commits).value)
  {
    if commits != [] {
      var before := commits[..|commits| - 1];
      var last := commits[|commits| - 1];
      FoldOnePerTask(start, requests, fns, before);
      if Fold(start, fns, before).Some? {
        var es := Fold(start, fns, before).value;
        assert fns[last] == Fn(requests[last]);
        match requests[last]
        case Add(e) => UpsertKeepsOthers(es, e);
        case SetState(task, state) => RestateKeepsOthers(es, task, state);
      }
    }
  }

  /** Whatever Add and SetState calls race on a ledger that starts absent, empty or
      with one entry per Task, every version anyone can read back has one entry per
      Task. */
  lemma EveryVersionOnePerTask(w: World, requests: seq<Request>, actions: seq<Action>)
    requires Initial(w)
    requires |w.fns| == |requests| && forall i :: 0 <= i < |w.fns| ==> w.fns[i] == Fn(requests[i])
    requires Contents(w.history[0]).Some? ==> OnePerTask(Contents(w.history[0]).value)
    ensures forall v :: 0 <= v < |Run(w, actions).history| ==>
              Contents(Run(w, actions).history[v]).Some? ==> OnePerTask(Contents(Run(w, actions).history[v]).value)
  {
    var end := Run(w, actions);
    forall v | 0 <= v < |end.history| && Contents(end.history[v]).Some?
      ensures OnePerTask(Contents(end.history[v]).value)
    {
      var n := EveryVersionIsPrefix(w, actions, v);
      FoldOnePerTask(Contents(w.history[0]), requests, w.fns, end.commits[..n]);
    }
  }
}
