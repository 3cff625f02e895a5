/** The entries of the per-Project deploy ledger, the two functions that rewrite
    them (Add and SetState), the stored form, and the lookup by applied pin. */
module DeployLedger {
  import opened Wrappers

  datatype Entry = Entry(
    artifact: string,
    version: string,
    task: string,
    issue: string,
    headSHA: string,
    state: string)

  type Entries = seq<Entry>

  /** What the ConfigMap key may hold: nothing but white space, the JSON array of
      some entries, or text that does not parse. */
  datatype Stored = Blank | Json(entries: Entries) | Garbage

  function Encode(es: Entries): Stored {
    Json(es)
  }

  function Decode(raw: Stored): Option<Entries> {
    match raw
    case Blank => Some([])
    case Json(es) => Some(es)
    case Garbage => None
  }

  // ---------- the two mutations, as functions ----------

  /** The first position whose entry belongs to `task`, or the length. */
  function Find(es: Entries, task: string): (i: nat)
    ensures i <= |es|
    ensures i < |es| ==> es[i].task == task
    ensures forall k :: 0 <= k < i ==> es[k].task != task
  {
    if es == [] then 0
    else if es[0].task == task then 0
    else 1 + Find(es[1..], task)
  }

  function Upsert(es: Entries, e: Entry): Entries {
    var i := Find(es, e.task);
    if i < |es| then es[i := e] else es + [e]
  }

  function Restate(es: Entries, task: string, state: string): Entries {
    var i := Find(es, task);
    if i < |es| then es[i := es[i].(state := state)] else es
  }

  ghost predicate OnePerTask(es: Entries) {
    forall i, j :: 0 <= i < j < |es| ==> es[i].task != es[j].task
  }

  /** The tasks of a ledger, in ledger order. */
  function Tasks(es: Entries): (ts: seq<string>)
    ensures |ts| == |es|
    ensures forall i :: 0 <= i < |es| ==> ts[i] == es[i].task
  {
    seq(|es|, i requires 0 <= i < |es| => es[i].task)
  }

  /** A refreshed Task keeps its place and a new one goes last: Add leaves every
      other Task's entry, and the order of the Tasks, as they were. */
  lemma UpsertKeepsOthers(es: Entries, e: Entry)
    requires OnePerTask(es)
    ensures OnePerTask(Upsert(es, e))
    ensures e in Upsert(es, e)
    ensures forall x: Entry :: x.task != e.task ==> (x in Upsert(es, e) <==> x in es)
    ensures forall x: Entry :: x in Upsert(es, e) && x.task == e.task ==> x == e
    ensures Tasks(Upsert(es, e)) == Tasks(es) + (if e.task in Tasks(es) then [] else [e.task])
  {
    var i := Find(es, e.task);
    var out := Upsert(es, e);
    if i < |es| {
      assert out[i] == e && Tasks(es)[i] == e.task;
      forall x: Entry | x.task != e.task
        ensures x in out <==> x in es
      {
        if x in es {
          var k :| 0 <= k < |es| && es[k] == x;
          assert out[k] == x;
        }
      }
    } else {
      assert out[|es|] == e;
    }
  }

  /** SetState touches one field of one Task's entry and nothing else. */
  lemma RestateKeepsOthers(es: Entries, task: string, state: string)
    requires OnePerTask(es)
    ensures OnePerTask(Restate(es, task, state))
    ensures Tasks(Restate(es, task, state)) == Tasks(es)
    ensures forall i :: 0 <= i < |es| ==>
              Restate(es, task, state)[i] == (if es[i].task == task then es[i].(state := state) else es[i])
  {
  }

  // ---------- the closures, as the loops that run them ----------

  /** The closure of Add: an entry of the same Task is overwritten in place, and
      only when there is none does the slice grow. */
  method AddEntry(es: array<Entry>, e: Entry) returns (out: array<Entry>)
    modifies es
    ensures out[..] == Upsert(old(es[..]), e)
    ensures if e.task in Tasks(old(es[..])) then out == es else fresh(out) && es[..] == old(es[..])
  {
    var i := 0;
    while i < es.Length
      invariant 0 <= i <= es.Length
      invariant es[..] == old(es[..])
      invariant forall k :: 0 <= k < i ==> es[k].task != e.task
    {
      if es[i].task == e.task {
        assert Find(es[..], e.task) == i;
        assert Tasks(es[..])[i] == e.task;
        es[i] := e;
        return es;
      }
      i := i + 1;
    }
    assert Find(es[..], e.task) == |es[..]|;
    out := new Entry[es.Length + 1](k requires 0 <= k <= es.Length reads es => if k < es.Length then es[k] else e);
    assert out[..] == es[..] + [e];
  }

  /** The closure of SetState. */
  method SetStateEntry(es: array<Entry>, task: string, state: string)
    modifies es
    ensures es[..] == Restate(old(es[..]), task, state)
  {
    var i := 0;
    while i < es.Length
      invariant 0 <= i <= es.Length
      invariant es[..] == old(es[..])
      invariant forall k :: 0 <= k < i ==> es[k].task != task
    {
      if es[i].task == task {
        assert Find(es[..], task) == i;
        es[i] := es[i].(state := state);
        return;
      }
      i := i + 1;
    }
    assert Find(es[..], task) == |es[..]|;
  }

  // ---------- the lookup ----------

  predicate Pinned(e: Entry, artifact: string, version: string) {
    e.artifact == artifact && e.version == version
  }

  /** `at` lists exactly the positions of `es` that carry the pin, in ledger order. */
  ghost predicate MatchPositions(es: Entries, artifact: string, version: string, at: seq<nat>) {
    && (forall k :: 0 <= k < |at| ==> at[k] < |es| && Pinned(es[at[k]], artifact, version))
    && (forall j, k :: 0 <= j < k < |at| ==> at[j] < at[k])
    && (forall i :: 0 <= i < |es| && Pinned(es[i], artifact, version) ==> i in at)
  }

  /** Returns the entries at that artifact and version and no other, in ledger
      order; in a ledger with one entry per Task it names each Task at most once. */
  method MatchEntries(es: Entries, artifact: string, version: string)
    returns (out: Entries, ghost at: seq<nat>)
    ensures MatchPositions(es, artifact, version, at)
    ensures |out| == |at| && forall k :: 0 <= k < |at| ==> out[k] == es[at[k]]
    ensures OnePerTask(es) ==> OnePerTask(out)
  {
    out, at := [], [];
    for i := 0 to |es|
      invariant |out| == |at|
      invariant forall k :: 0 <= k < |at| ==> at[k] < i && Pinned(es[at[k]], artifact, version) && out[k] == es[at[k]]
      invariant forall j, k :: 0 <= j < k < |at| ==> at[j] < at[k]
      invariant forall k :: 0 <= k < i && Pinned(es[k], artifact, version) ==> k in at
    {
      if es[i].artifact == artifact && es[i].version == version {
        out := out + [es[i]];
        ghost var before := at;
        at := at + [i];
        assert at[|before|] == i;
        assert forall k :: k in before ==> k in at;
      }
    }
  }
}
