/** Close directives in a merge request's body. The body is read as tokens: close
    keywords, the gap a keyword may leave before its first reference (spaces, a colon,
    the word issue), references, the separators of a reference list, and other text. */
module CloseDirective {
  import opened Wrappers

  datatype RepoNum = RepoNum(repo: string, number: nat)

  datatype Ref =
    | Url(path: string, number: nat, text: string)
    | GH(number: nat, text: string)
    | Bare(number: nat, text: string)
    | Slug(repo: string, number: nat, text: string)

  datatype Token = Key(word: string) | Gap(text: string) | Item(ref: Ref) | Sep(text: string) | Plain(text: string)

  type Body = seq<Token>

  const INT_MAX := 0x7FFF_FFFF_FFFF_FFFF

  function ResolveRef(ref: Ref, ownRepo: string): Option<RepoNum> {
    if ref.number > INT_MAX then None
    else match ref
      case Url(path, n, _) => Some(RepoNum(path, n))
      case GH(n, _) => Some(RepoNum(ownRepo, n))
      case Bare(n, _) => Some(RepoNum(ownRepo, n))
      case Slug(repo, n, _) => Some(RepoNum(repo, n))
  }

  type Allowed = map<RepoNum, bool>

  predicate MayClose(ownRepo: string, allowed: Allowed, ref: Ref) {
    var rn := ResolveRef(ref, ownRepo);
    rn.Some? && rn.value in allowed && allowed[rn.value]
  }

  type Allow = Ref -> bool

  function Allowlist(ownRepo: string, allowed: Allowed): Allow {
    ref => MayClose(ownRepo, allowed, ref)
  }

  // ---------- the directive grammar ----------

  /** The end of the separators and references that continue a list. */
  function ListEnd(b: Body, k: nat): (j: nat)
    requires k <= |b|
    ensures k <= j <= |b|
    decreases |b| - k
  {
    if k + 1 < |b| && b[k].Sep? && b[k + 1].Item? then ListEnd(b, k + 2) else k
  }

  function AfterGap(b: Body, i: nat): nat {
    if i + 1 < |b| && b[i + 1].Gap? then i + 2 else i + 1
  }

  /** A keyword with a reference to bind. */
  predicate Starts(b: Body, i: nat) {
    i < |b| && b[i].Key? && AfterGap(b, i) < |b| && b[AfterGap(b, i)].Item?
  }

  /** The end of the directive that starts at i. */
  function Match(b: Body, i: nat): (j: nat)
    requires Starts(b, i)
    ensures AfterGap(b, i) < j <= |b|
  {
    ListEnd(b, AfterGap(b, i) + 1)
  }

  function RefOf(t: Token): (rs: seq<Ref>)
    ensures |rs| <= 1
  {
    if t.Item? then [t.ref] else []
  }

  function Refs(b: Body): (rs: seq<Ref>)
    ensures |rs| <= |b|
  {
    if b == [] then [] else RefOf(b[0]) + Refs(b[1..])
  }

  predicate AllOk(ok: Allow, refs: seq<Ref>) {
    forall k :: 0 <= k < |refs| ==> ok(refs[k])
  }

  // ---------- the rewriting ----------

  function Linked(ok: bool, ref: Ref): Body {
    if ok then [Key("Closes"), Gap(" "), Item(ref)] else [Item(ref)]
  }

  function Part(ok: Allow, ref: Ref): Body {
    Linked(ok(ref), ref)
  }

  function JoinParts(parts: seq<Body>): Body {
    if parts == [] then []
    else if |parts| == 1 then parts[0]
    else parts[0] + ([Sep(", ")] + JoinParts(parts[1..]))
  }

  function Parts(ok: Allow, refs: seq<Ref>): (ps: seq<Body>)
    ensures |ps| == |refs|
  {
    if refs == [] then [] else [Part(ok, refs[0])] + Parts(ok, refs[1..])
  }

  function Rewrite(ok: Allow, d: Body): Body {
    var refs := Refs(d);
    if AllOk(ok, refs) then d else JoinParts(Parts(ok, refs))
  }

  /** FilterCloseDirectives from position i on. */
  function Filter(ok: Allow, b: Body, i: nat): Body
    requires i <= |b|
    decreases |b| - i
  {
    if i == |b| then []
    else if Starts(b, i) then Rewrite(ok, b[i..Match(b, i)]) + Filter(ok, b, Match(b, i))
    else [b[i]] + Filter(ok, b, i + 1)
  }

  method Judge(refs: seq<Ref>, ownRepo: string, allowed: Allowed, ok: array<bool>) returns (allOK: bool)
    requires ok.Length == |refs|
    modifies ok
    ensures forall k :: 0 <= k < |refs| ==> ok[k] == MayClose(ownRepo, allowed, refs[k])
    ensures allOK <==> forall k :: 0 <= k < |refs| ==> ok[k]
  {
    allOK := true;
    for i := 0 to |refs|
      invariant forall k :: 0 <= k < i ==> ok[k] == MayClose(ownRepo, allowed, refs[k])
      invariant allOK <==> forall k :: 0 <= k < i ==> ok[k]
    {
      var rn := ResolveRef(refs[i], ownRepo);
      ok[i] := rn.Some? && rn.value in allowed && allowed[rn.value];
      if !ok[i] {
        allOK := false;
      }
    }
  }

  method BuildParts(refs: seq<Ref>, ok: array<bool>, parts: array<Body>)
    requires ok.Length == |refs| == parts.Length
    modifies parts
    ensures forall k :: 0 <= k < |refs| ==> parts[k] == Linked(ok[k], refs[k])
  {
    for i := 0 to |refs|
      invariant forall k :: 0 <= k < i ==> parts[k] == Linked(ok[k], refs[k])
    {
      if ok[i] {
        parts[i] := [Key("Closes"), Gap(" "), Item(refs[i])];
      } else {
        parts[i] := [Item(refs[i])];
      }
    }
  }

  lemma {:induction false} PartsAt(ok: Allow, refs: seq<Ref>, k: nat)
    requires k < |refs|
    ensures Parts(ok, refs)[k] == Part(ok, refs[k])
  {
    if k > 0 {
      PartsAt(ok, refs[1..], k - 1);
    }
  }

  method RewriteDirective(m: Body, ownRepo: string, allowed: Allowed) returns (out: Body)
    ensures out == Rewrite(Allowlist(ownRepo, allowed), m)
  {
    ghost var may := Allowlist(ownRepo, allowed);
    var refs := Refs(m);
    if |refs| == 0 {
      return m;
    }
    var ok := new bool[|refs|];
    var allOK := Judge(refs, ownRepo, allowed, ok);
    if allOK {
      return m;
    }
    var parts := new Body[|refs|];
    BuildParts(refs, ok, parts);
    forall k | 0 <= k < |refs|
      ensures parts[k] == Parts(may, refs)[k]
    {
      PartsAt(may, refs, k);
    }
    assert parts[..] == Parts(may, refs);
    out := JoinParts(parts[..]);
  }

  lemma Assoc(a: Body, b: Body, c: Body)
    ensures (a + b) + c == a + (b + c)
  {
  }

  method FilterCloseDirectives(b: Body, ownRepo: string, allowed: Allowed) returns (out: Body)
    ensures out == Filter(Allowlist(ownRepo, allowed), b, 0)
  {
    ghost var may := Allowlist(ownRepo, allowed);
    out := [];
    var i := 0;
    while i < |b|
      invariant 0 <= i <= |b|
      invariant out + Filter(may, b, i) == Filter(may, b, 0)
    {
      if Starts(b, i) {
        var j := Match(b, i);
        var piece := RewriteDirective(b[i..j], ownRepo, allowed);
        Assoc(out, piece, Filter(may, b, j));
        out, i := out + piece, j;
      } else {
        Assoc(out, [b[i]], Filter(may, b, i + 1));
        out, i := out + [b[i]], i + 1;
      }
    }
  }

  /** A live sibling empties the allowlist. */
  method FilterCloseDirectivesForTask(b: Body, ownRepo: string, allowed: Allowed, openSiblings: seq<string>) returns (out: Body)
    ensures out == Filter(Allowlist(ownRepo, if openSiblings == [] then allowed else map[]), b, 0)
  {
    var may := allowed;
    if |openSiblings| > 0 {
      may := map[];
    }
    out := FilterCloseDirectives(b, ownRepo, may);
  }

  // ---------- what the rewriting keeps ----------

  lemma {:induction false} RefsAppend(a: Body, b: Body)
    ensures Refs(a + b) == Refs(a) + Refs(b)
  {
    if a == [] {
      assert a + b == b;
    } else {
      RefsAppend(a[1..], b);
      assert (a + b)[1..] == a[1..] + b && (a + b)[0] == a[0];
      RefsAssociate(RefOf(a[0]), Refs(a[1..]), Refs(b));
    }
  }

  lemma RefsAssociate(x: seq<Ref>, y: seq<Ref>, z: seq<Ref>)
    ensures (x + y) + z == x + (y + z)
  {
  }

  lemma PartRefs(ok: Allow, ref: Ref)
    ensures Refs(Part(ok, ref)) == [ref]
  {
    var p := Part(ok, ref);
    if ok(ref) {
      assert p[1..] == [Gap(" "), Item(ref)];
      assert Refs(p) == Refs(p[1..]) == Refs(p[1..][1..]);
      assert p[1..][1..] == [Item(ref)];
    }
    assert Refs([Item(ref)]) == [ref] + Refs([Item(ref)][1..]);
  }

  lemma {:induction false} PartsRefs(ok: Allow, refs: seq<Ref>)
    ensures Refs(JoinParts(Parts(ok, refs))) == refs
  {
    if refs != [] {
      var ps := Parts(ok, refs);
      PartRefs(ok, refs[0]);
      PartsRefs(ok, refs[1..]);
      assert ps[1..] == Parts(ok, refs[1..]);
      if |refs| > 1 {
        var tail := [Sep(", ")] + JoinParts(ps[1..]);
        assert tail[1..] == JoinParts(ps[1..]);
        RefsAppend(ps[0], tail);
      }
    }
  }

  function ProseOf(t: Token): seq<string> {
    if t.Plain? then [t.text] else []
  }

  /** The text no directive is made of. */
  function Prose(b: Body): seq<string> {
    if b == [] then [] else ProseOf(b[0]) + Prose(b[1..])
  }

  lemma {:induction false} ProseAppend(a: Body, b: Body)
    ensures Prose(a + b) == Prose(a) + Prose(b)
  {
    if a == [] {
      assert a + b == b;
    } else {
      ProseAppend(a[1..], b);
      assert (a + b)[1..] == a[1..] + b && (a + b)[0] == a[0];
      assert (ProseOf(a[0]) + Prose(a[1..])) + Prose(b) == ProseOf(a[0]) + (Prose(a[1..]) + Prose(b));
    }
  }

  lemma {:induction false} NoProse(b: Body)
    requires forall k :: 0 <= k < |b| ==> !b[k].Plain?
    ensures Prose(b) == []
  {
    if b != [] {
      NoProse(b[1..]);
    }
  }

  lemma {:induction false} PartsPlain(ok: Allow, refs: seq<Ref>)
    ensures forall k :: 0 <= k < |JoinParts(Parts(ok, refs))| ==> !JoinParts(Parts(ok, refs))[k].Plain?
  {
    if refs != [] {
      PartsPlain(ok, refs[1..]);
      assert Parts(ok, refs)[1..] == Parts(ok, refs[1..]);
    }
  }

  lemma {:induction false} ListTokens(b: Body, k: nat)
    requires k <= |b|
    ensures forall m :: k <= m < ListEnd(b, k) ==> b[m].Sep? || b[m].Item?
    decreases |b| - k
  {
    if ListEnd(b, k) > k {
      ListTokens(b, k + 2);
    }
  }

  lemma DirectiveNoProse(ok: Allow, b: Body, i: nat)
    requires Starts(b, i)
    ensures Prose(b[i..Match(b, i)]) == [] == Prose(Rewrite(ok, b[i..Match(b, i)]))
  {
    var d := b[i..Match(b, i)];
    ListTokens(b, AfterGap(b, i) + 1);
    NoProse(d);
    PartsPlain(ok, Refs(d));
    NoProse(Rewrite(ok, d));
  }

  /** One step of the filter: what stands in b[i..j] becomes the piece. */
  lemma OneStep(ok: Allow, b: Body, i: nat) returns (j: nat, piece: Body)
    requires i < |b|
    ensures i < j <= |b| && Filter(ok, b, i) == piece + Filter(ok, b, j)
    ensures Refs(piece) == Refs(b[i..j]) && Prose(piece) == Prose(b[i..j])
  {
    if Starts(b, i) {
      j := Match(b, i);
      piece := Rewrite(ok, b[i..j]);
      DirectiveNoProse(ok, b, i);
      PartsRefs(ok, Refs(b[i..j]));
    } else {
      j := i + 1;
      piece := [b[i]];
      assert b[i..j] == piece;
    }
  }

  lemma SplitAt(b: Body, i: nat, j: nat)
    requires i <= j <= |b|
    ensures Refs(b[i..]) == Refs(b[i..j]) + Refs(b[j..])
    ensures Prose(b[i..]) == Prose(b[i..j]) + Prose(b[j..])
  {
    RefsAppend(b[i..j], b[j..]);
    ProseAppend(b[i..j], b[j..]);
    assert b[i..] == b[i..j] + b[j..];
  }

  /** Every reference survives, in order, and so does all text outside the directives. */
  lemma {:induction false} FilterKeeps(ok: Allow, b: Body, i: nat)
    requires i <= |b|
    ensures Refs(Filter(ok, b, i)) == Refs(b[i..])
    ensures Prose(Filter(ok, b, i)) == Prose(b[i..])
    decreases |b| - i
  {
    if i < |b| {
      var j, piece := OneStep(ok, b, i);
      FilterKeeps(ok, b, j);
      RefsAppend(piece, Filter(ok, b, j));
      ProseAppend(piece, Filter(ok, b, j));
      SplitAt(b, i, j);
    }
  }

  // ---------- where every token goes ----------

  /** The end of the directive at i, or of the one token there that is none. */
  function Behind(b: Body, i: nat): (j: nat)
    requires i < |b|
    ensures i < j <= |b|
  {
    if Starts(b, i) then Match(b, i) else i + 1
  }

  function PieceAt(ok: Allow, b: Body, i: nat): Body
    requires i < |b|
  {
    if Starts(b, i) then Rewrite(ok, b[i..Match(b, i)]) else [b[i]]
  }

  /** Reading from one position, the other is reached between directives. */
  predicate Between(b: Body, from: nat, i: nat)
    requires i <= |b|
    decreases |b| - from
  {
    from == i || (from < i && Between(b, Behind(b, from), i))
  }

  /** How much of the result stands before what position i becomes. */
  function OutPos(ok: Allow, b: Body, from: nat, i: nat): nat
    requires i <= |b| && Between(b, from, i)
    decreases |b| - from
  {
    if from == i then 0 else |PieceAt(ok, b, from)| + OutPos(ok, b, Behind(b, from), i)
  }

  lemma FilterPiece(ok: Allow, b: Body, i: nat)
    requires i < |b|
    ensures Filter(ok, b, i) == PieceAt(ok, b, i) + Filter(ok, b, Behind(b, i))
  {
  }

  lemma DropsPrefix(x: Body, y: Body, n: nat)
    requires n <= |y|
    ensures |x| + n <= |x + y| && (x + y)[|x| + n..] == y[n..]
  {
  }

  lemma {:induction false} FilterFrom(ok: Allow, b: Body, from: nat, i: nat)
    requires i <= |b| && Between(b, from, i)
    ensures OutPos(ok, b, from, i) <= |Filter(ok, b, from)|
    ensures Filter(ok, b, from)[OutPos(ok, b, from, i)..] == Filter(ok, b, i)
    decreases |b| - from
  {
    if from < i {
      FilterFrom(ok, b, Behind(b, from), i);
      FilterPiece(ok, b, from);
      DropsPrefix(PieceAt(ok, b, from), Filter(ok, b, Behind(b, from)), OutPos(ok, b, Behind(b, from), i));
    }
  }

  lemma {:induction false} BehindIsBetween(ok: Allow, b: Body, from: nat, i: nat)
    requires i < |b| && Between(b, from, i)
    ensures Between(b, from, Behind(b, i))
    ensures OutPos(ok, b, from, Behind(b, i)) == OutPos(ok, b, from, i) + |PieceAt(ok, b, i)|
    decreases |b| - from
  {
    if from < i {
      BehindIsBetween(ok, b, Behind(b, from), i);
    } else {
      assert Between(b, Behind(b, i), Behind(b, i));
    }
  }

  /** The result is the body piece by piece: each directive becomes its rewriting, right
      behind what stood before it. */
  lemma PiecesInOrder(ok: Allow, b: Body, from: nat, i: nat)
    requires i < |b| && Between(b, from, i)
    ensures Between(b, from, Behind(b, i))
    ensures var o, out := OutPos(ok, b, from, i), Filter(ok, b, from);
            && OutPos(ok, b, from, Behind(b, i)) == o + |PieceAt(ok, b, i)| <= |out|
            && out[o..o + |PieceAt(ok, b, i)|] == PieceAt(ok, b, i)
  {
    BehindIsBetween(ok, b, from, i);
    FilterFrom(ok, b, from, i);
    FilterPiece(ok, b, i);
    PrefixAt(Filter(ok, b, from), OutPos(ok, b, from, i), PieceAt(ok, b, i), Filter(ok, b, Behind(b, i)));
  }

  /** And every other token, a stray keyword, gap or separator too, stays itself. */
  lemma OthersStay(ok: Allow, b: Body, from: nat, i: nat)
    requires i < |b| && Between(b, from, i) && !Starts(b, i)
    ensures Between(b, from, i + 1)
    ensures var o := OutPos(ok, b, from, i);
            o < |Filter(ok, b, from)| && Filter(ok, b, from)[o] == b[i] && OutPos(ok, b, from, i + 1) == o + 1
  {
    PiecesInOrder(ok, b, from, i);
    var o := OutPos(ok, b, from, i);
    assert Filter(ok, b, from)[o..o + 1][0] == b[i];
  }

  lemma PrefixAt(out: Body, o: nat, piece: Body, rest: Body)
    requires o <= |out| && out[o..] == piece + rest
    ensures o + |piece| <= |out| && out[o..o + |piece|] == piece
  {
    assert |out[o..]| == |piece| + |rest|;
    assert forall k :: 0 <= k < |piece| ==> out[o + k] == out[o..][k] == piece[k];
  }

  /** And no token is anywhere but in a directive or between them. */
  lemma {:induction false} InOrBetween(b: Body, from: nat, i: nat) returns (k: nat)
    requires from <= i < |b|
    ensures k <= i < Behind(b, k) && Between(b, from, k)
    decreases |b| - from
  {
    if i < Behind(b, from) {
      k := from;
    } else {
      k := InOrBetween(b, Behind(b, from), i);
    }
  }

  /** A body whose directives name allowed references only is unchanged. */
  lemma {:induction false} AllAllowedUnchanged(ok: Allow, b: Body, i: nat)
    requires i <= |b|
    requires forall k :: i <= k < |b| && Starts(b, k) ==> AllOk(ok, Refs(b[k..Match(b, k)]))
    ensures Filter(ok, b, i) == b[i..]
    decreases |b| - i
  {
    if i < |b| {
      if Starts(b, i) {
        AllAllowedUnchanged(ok, b, Match(b, i));
        assert b[i..] == b[i..Match(b, i)] + b[Match(b, i)..];
      } else {
        AllAllowedUnchanged(ok, b, i + 1);
        assert b[i..] == [b[i]] + b[i + 1..];
      }
    }
  }

  // ---------- open merge requests ----------

  datatype MergeRequest = MergeRequest(name: string, state: string)

  predicate Settled(mr: MergeRequest) {
    mr.state == "merged" || mr.state == "closed"
  }

  /** The names of the merge requests still live on the forge, in order; none exactly
      when every one is merged or closed, an unknown state counting as live. */
  method OpenOwnedMRs(mrs: seq<MergeRequest>) returns (open: seq<string>, ghost at: seq<nat>)
    ensures |open| == |at| && (forall j, k :: 0 <= j < k < |at| ==> at[j] < at[k])
    ensures forall k :: 0 <= k < |at| ==> at[k] < |mrs| && open[k] == mrs[at[k]].name && !Settled(mrs[at[k]])
    ensures forall i :: 0 <= i < |mrs| && !Settled(mrs[i]) ==> i in at
    ensures open == [] <==> forall i :: 0 <= i < |mrs| ==> Settled(mrs[i])
  {
    open, at := [], [];
    for i := 0 to |mrs|
      invariant |open| == |at| && (forall j, k :: 0 <= j < k < |at| ==> at[j] < at[k])
      invariant forall k :: 0 <= k < |at| ==> at[k] < i && open[k] == mrs[at[k]].name && !Settled(mrs[at[k]])
      invariant forall j :: 0 <= j < i && !Settled(mrs[j]) ==> j in at
    {
      if mrs[i].state == "merged" || mrs[i].state == "closed" {
        continue;
      }
      open, at := open + [mrs[i].name], at + [i];
    }
    if open == [] {
      assert forall i :: 0 <= i < |mrs| ==> Settled(mrs[i]);
    } else {
      assert !Settled(mrs[at[0]]);
    }
  }
}
