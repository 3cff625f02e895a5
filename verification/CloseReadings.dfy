/** How a forge reads a body: which references a close keyword binds. One reading binds
    the reference right after a keyword, the other the whole list that follows it. */
module CloseReadings {
  import opened CloseDirective

  datatype State = Out | AfterKey | AfterKeyGap | Bound | BoundSep

  predicate Keyed(s: State) {
    s == AfterKey || s == AfterKeyGap
  }

  predicate Binds(list: bool, s: State) {
    Keyed(s) || (list && s == BoundSep)
  }

  function Next(list: bool, s: State, t: Token): State {
    match t
    case Key(_) => AfterKey
    case Gap(_) => if s == AfterKey then AfterKeyGap else Out
    case Item(_) => if Binds(list, s) then Bound else Out
    case Sep(_) => if s == Bound then BoundSep else Out
    case Plain(_) => Out
  }

  function Hit(list: bool, s: State, t: Token): seq<Ref> {
    if t.Item? && Binds(list, s) then [t.ref] else []
  }

  /** The references bound, in order. */
  function Closes(list: bool, s: State, x: Body): seq<Ref>
    decreases |x|
  {
    if x == [] then [] else Hit(list, s, x[0]) + Closes(list, Next(list, s, x[0]), x[1..])
  }

  function End(list: bool, s: State, x: Body): State
    decreases |x|
  {
    if x == [] then s else End(list, Next(list, s, x[0]), x[1..])
  }

  lemma RefAssoc(a: seq<Ref>, b: seq<Ref>, c: seq<Ref>)
    ensures (a + b) + c == a + (b + c)
  {
  }

  lemma {:induction false} ClosesAppend(list: bool, s: State, a: Body, b: Body)
    ensures Closes(list, s, a + b) == Closes(list, s, a) + Closes(list, End(list, s, a), b)
    ensures End(list, s, a + b) == End(list, End(list, s, a), b)
    decreases |a|
  {
    if a == [] {
      assert a + b == b;
    } else {
      var t := Next(list, s, a[0]);
      ClosesAppend(list, t, a[1..], b);
      assert (a + b)[1..] == a[1..] + b && (a + b)[0] == a[0];
      RefAssoc(Hit(list, s, a[0]), Closes(list, t, a[1..]), Closes(list, End(list, t, a[1..]), b));
    }
  }

  lemma ClosesOne(list: bool, s: State, t: Token)
    ensures Closes(list, s, [t]) == Hit(list, s, t) && End(list, s, [t]) == Next(list, s, t)
  {
    assert [t][1..] == [];
    assert Closes(list, s, [t]) == Hit(list, s, t) + Closes(list, Next(list, s, t), []);
    assert End(list, s, [t]) == End(list, Next(list, s, t), []);
  }

  lemma ClosesCons(list: bool, s: State, t: Token, x: Body)
    ensures Closes(list, s, [t] + x) == Hit(list, s, t) + Closes(list, Next(list, s, t), x)
    ensures End(list, s, [t] + x) == End(list, Next(list, s, t), x)
  {
    assert ([t] + x)[1..] == x;
  }

  // ---------- a rewritten directive ----------

  function Kept(ok: Allow, refs: seq<Ref>): seq<Ref> {
    if refs == [] then [] else (if ok(refs[0]) then [refs[0]] else []) + Kept(ok, refs[1..])
  }

  function Rebuilt(ok: Allow, refs: seq<Ref>): Body {
    JoinParts(Parts(ok, refs))
  }

  lemma PartCloses(list: bool, ok: Allow, s: State, ref: Ref)
    ensures Closes(list, s, Part(ok, ref)) == if ok(ref) || Binds(list, s) then [ref] else []
    ensures End(list, s, Part(ok, ref)) == if ok(ref) || Binds(list, s) then Bound else Out
  {
    if ok(ref) {
      var k, g, r := Key("Closes"), Gap(" "), Item(ref);
      assert Part(ok, ref) == [k] + ([g] + [r]);
      ClosesCons(list, s, k, [g] + [r]);
      ClosesCons(list, AfterKey, g, [r]);
      ClosesOne(list, AfterKeyGap, r);
    } else {
      ClosesOne(list, s, Item(ref));
    }
  }

  /** The state behind one rebuilt part and its separator. */
  function AfterPart(list: bool, ok: Allow, s: State, ref: Ref): State {
    if ok(ref) || Binds(list, s) then BoundSep else Out
  }

  lemma RebuiltStep(list: bool, ok: Allow, s: State, refs: seq<Ref>)
    requires |refs| > 1
    ensures Closes(list, s, Rebuilt(ok, refs)) ==
            Closes(list, s, Part(ok, refs[0])) + Closes(list, AfterPart(list, ok, s, refs[0]), Rebuilt(ok, refs[1..]))
    ensures End(list, s, Rebuilt(ok, refs)) == End(list, AfterPart(list, ok, s, refs[0]), Rebuilt(ok, refs[1..]))
  {
    var rest := Rebuilt(ok, refs[1..]);
    RebuiltShape(ok, refs);
    PartCloses(list, ok, s, refs[0]);
    ClosesAppend(list, s, Part(ok, refs[0]), [Sep(", ")] + rest);
    ClosesCons(list, End(list, s, Part(ok, refs[0])), Sep(", "), rest);
    assert Hit(list, End(list, s, Part(ok, refs[0])), Sep(", ")) == [];
    assert [] + Closes(list, AfterPart(list, ok, s, refs[0]), rest) == Closes(list, AfterPart(list, ok, s, refs[0]), rest);
  }

  lemma RebuiltShape(ok: Allow, refs: seq<Ref>)
    requires |refs| > 1
    ensures Rebuilt(ok, refs) == Part(ok, refs[0]) + ([Sep(", ")] + Rebuilt(ok, refs[1..]))
  {
    var ps := Parts(ok, refs);
    assert |ps| > 1 && ps[1..] == Parts(ok, refs[1..]) && ps[0] == Part(ok, refs[0]);
  }

  lemma RebuiltSingle(ok: Allow, refs: seq<Ref>)
    requires |refs| == 1
    ensures Rebuilt(ok, refs) == Part(ok, refs[0])
  {
    assert |Parts(ok, refs)| == 1 && Parts(ok, refs)[0] == Part(ok, refs[0]);
  }

  lemma KeptOne(ok: Allow, refs: seq<Ref>)
    requires |refs| == 1
    ensures Kept(ok, refs[1..]) == [] && Kept(ok, refs) == if ok(refs[0]) then [refs[0]] else []
  {
    assert refs[1..] == [] && Kept(ok, refs[1..]) == [];
    assert [refs[0]] + [] == [refs[0]];
  }

  /** With one keyword per reference, a rebuilt directive binds exactly the allowed
      references, in order; a keyword left standing right before it binds its first. */
  lemma {:induction false} RebuiltBindsAllowed(ok: Allow, s: State, refs: seq<Ref>)
    requires refs != []
    ensures Closes(false, s, Rebuilt(ok, refs)) ==
            if !ok(refs[0]) && Keyed(s) then [refs[0]] + Kept(ok, refs[1..]) else Kept(ok, refs)
    ensures !Keyed(End(false, s, Rebuilt(ok, refs)))
    decreases |refs|
  {
    if |refs| == 1 {
      PartCloses(false, ok, s, refs[0]);
      RebuiltSingle(ok, refs);
      KeptOne(ok, refs);
      assert [refs[0]] + Kept(ok, refs[1..]) == [refs[0]];
    } else {
      RebuiltBindsAllowed(ok, AfterPart(false, ok, s, refs[0]), refs[1..]);
      RebuiltKeyStep(ok, s, refs);
    }
  }

  lemma RebuiltKeyStep(ok: Allow, s: State, refs: seq<Ref>)
    requires |refs| > 1
    requires Closes(false, AfterPart(false, ok, s, refs[0]), Rebuilt(ok, refs[1..])) == Kept(ok, refs[1..])
    ensures Closes(false, s, Rebuilt(ok, refs)) ==
            if !ok(refs[0]) && Keyed(s) then [refs[0]] + Kept(ok, refs[1..]) else Kept(ok, refs)
    ensures End(false, s, Rebuilt(ok, refs)) == End(false, AfterPart(false, ok, s, refs[0]), Rebuilt(ok, refs[1..]))
  {
    PartCloses(false, ok, s, refs[0]);
    RebuiltStep(false, ok, s, refs);
    assert [] + Kept(ok, refs[1..]) == Kept(ok, refs[1..]);
  }

  /** Hence a directive that had to be rewritten comes out with a keyword right before
      exactly its allowed references. */
  lemma RewrittenBindsAllowed(ok: Allow, d: Body)
    requires !AllOk(ok, Refs(d))
    ensures Closes(false, Out, Rewrite(ok, d)) == Kept(ok, Refs(d))
  {
    RebuiltBindsAllowed(ok, Out, Refs(d));
  }

  /** An allowed reference right before a disallowed one. */
  predicate Drops(ok: Allow, refs: seq<Ref>) {
    exists k :: 0 <= k < |refs| - 1 && ok(refs[k]) && !ok(refs[k + 1])
  }

  lemma DropsTail(ok: Allow, refs: seq<Ref>)
    requires |refs| > 1
    ensures Drops(ok, refs) <==> (ok(refs[0]) && !ok(refs[1])) || Drops(ok, refs[1..])
  {
    var t := refs[1..];
    if Drops(ok, refs) {
      var k :| 0 <= k < |refs| - 1 && ok(refs[k]) && !ok(refs[k + 1]);
      if k > 0 {
        assert ok(t[k - 1]) && !ok(t[k - 1 + 1]);
      }
    }
    if Drops(ok, t) {
      var k :| 0 <= k < |t| - 1 && ok(t[k]) && !ok(t[k + 1]);
      assert ok(refs[k + 1]) && !ok(refs[k + 1 + 1]);
    }
  }

  lemma AllOkAppend(ok: Allow, a: seq<Ref>, b: seq<Ref>)
    ensures AllOk(ok, a + b) <==> AllOk(ok, a) && AllOk(ok, b)
  {
    if AllOk(ok, a + b) {
      assert forall k :: 0 <= k < |a| ==> a[k] == (a + b)[k];
      assert forall k :: 0 <= k < |b| ==> b[k] == (a + b)[|a| + k];
    }
  }

  /** Read as lists, a rebuilt directive is safe exactly when no allowed reference
      precedes a disallowed one and nothing before it reaches a disallowed first. */
  lemma {:induction false} RebuiltListSafeIff(ok: Allow, s: State, refs: seq<Ref>)
    requires refs != []
    ensures AllOk(ok, Closes(true, s, Rebuilt(ok, refs))) <==>
            (ok(refs[0]) || !Binds(true, s)) && !Drops(ok, refs)
    ensures AllOk(ok, Closes(true, s, Rebuilt(ok, refs))) ==>
              End(true, s, Rebuilt(ok, refs)) == if ok(refs[|refs| - 1]) then Bound else Out
    decreases |refs|
  {
    if |refs| == 1 {
      PartCloses(true, ok, s, refs[0]);
      RebuiltSingle(ok, refs);
    } else {
      RebuiltListStep(ok, s, refs);
      RebuiltListSafeIff(ok, AfterPart(true, ok, s, refs[0]), refs[1..]);
      DropsTail(ok, refs);
    }
  }

  lemma RebuiltListStep(ok: Allow, s: State, refs: seq<Ref>)
    requires |refs| > 1
    ensures var t := AfterPart(true, ok, s, refs[0]);
            && (AllOk(ok, Closes(true, s, Rebuilt(ok, refs))) <==>
                (ok(refs[0]) || !Binds(true, s)) && AllOk(ok, Closes(true, t, Rebuilt(ok, refs[1..]))))
            && End(true, s, Rebuilt(ok, refs)) == End(true, t, Rebuilt(ok, refs[1..]))
  {
    PartCloses(true, ok, s, refs[0]);
    RebuiltStep(true, ok, s, refs);
    AllOkAppend(ok, Closes(true, s, Part(ok, refs[0])), Closes(true, AfterPart(true, ok, s, refs[0]), Rebuilt(ok, refs[1..])));
  }

  // ---------- an untouched directive ----------

  lemma {:induction false} TailCloses(list: bool, b: Body, k: nat, s: State)
    requires k <= |b| && !Keyed(s) && (list ==> s == Bound)
    ensures Closes(list, s, b[k..ListEnd(b, k)]) == if list then Refs(b[k..ListEnd(b, k)]) else []
    ensures !Keyed(End(list, s, b[k..ListEnd(b, k)])) && (list ==> End(list, s, b[k..ListEnd(b, k)]) == Bound)
    decreases |b| - k
  {
    var j := ListEnd(b, k);
    if j > k {
      var rest := b[k + 2..j];
      assert b[k..j] == [b[k]] + ([b[k + 1]] + rest);
      TailPair(list, s, b[k], b[k + 1], rest);
      TailCloses(list, b, k + 2, Next(list, Next(list, s, b[k]), b[k + 1]));
    }
  }

  lemma TailPair(list: bool, s: State, sep: Token, item: Token, rest: Body)
    requires sep.Sep? && item.Item? && !Keyed(s) && (list ==> s == Bound)
    ensures var t := Next(list, Next(list, s, sep), item);
            var x := [sep] + ([item] + rest);
            && !Keyed(t) && (list ==> t == Bound)
            && Closes(list, s, x) == (if list then [item.ref] + Closes(list, t, rest) else Closes(list, t, rest))
            && End(list, s, x) == End(list, t, rest)
            && Refs(x) == [item.ref] + Refs(rest)
  {
    var s1 := Next(list, s, sep);
    ClosesCons(list, s, sep, [item] + rest);
    ClosesCons(list, s1, item, rest);
    RefsAppend([sep], [item] + rest);
    RefsAppend([item], rest);
    RefsOne(sep);
    RefsOne(item);
  }

  lemma RefsOne(t: Token)
    ensures Refs([t]) == RefOf(t)
  {
    assert [t][1..] == [];
    assert Refs([t]) == RefOf(t) + Refs([]);
  }

  /** A keyword, perhaps with its gap. */
  predicate IsHead(h: Body) {
    (|h| == 1 && h[0].Key?) || (|h| == 2 && h[0].Key? && h[1].Gap?)
  }

  lemma HeadRefs(h: Body)
    requires IsHead(h)
    ensures Refs(h) == []
  {
    RefsOne(h[0]);
    if |h| == 1 {
      assert h == [h[0]];
    } else {
      assert h == [h[0]] + [h[1]];
      RefsOne(h[1]);
      RefsAppend([h[0]], [h[1]]);
    }
  }

  lemma HeadCloses(list: bool, s: State, h: Body)
    requires IsHead(h)
    ensures Closes(list, s, h) == [] && Keyed(End(list, s, h))
  {
    if |h| == 1 {
      assert h == [h[0]];
      ClosesOne(list, s, h[0]);
    } else {
      assert h == [h[0]] + [h[1]];
      ClosesCons(list, s, h[0], [h[1]]);
      ClosesOne(list, AfterKey, h[1]);
    }
  }

  /** The directive is its keyword, the gap, its first reference, and the list tail. */
  lemma DirectiveShape(b: Body, i: nat) returns (head: Body, a: nat)
    requires Starts(b, i)
    ensures a == AfterGap(b, i) && a < |b| && b[a].Item?
    ensures head == b[i..a] && b[i..Match(b, i)] == head + ([b[a]] + b[a + 1..Match(b, i)])
    ensures IsHead(head)
  {
    a := AfterGap(b, i);
    head := b[i..a];
  }

  /** As written, a directive binds its first reference, and as a list all of them. */
  lemma WrittenCloses(list: bool, b: Body, i: nat, s: State)
    requires Starts(b, i)
    ensures var d := b[i..Match(b, i)];
            && Refs(d) != [] && Refs(d)[0] == b[AfterGap(b, i)].ref
            && Closes(list, s, d) == (if list then Refs(d) else [Refs(d)[0]])
            && !Keyed(End(list, s, d)) && (list ==> End(list, s, d) == Bound)
  {
    var head, a := DirectiveShape(b, i);
    TailCloses(list, b, a + 1, Bound);
    WrittenParts(list, s, head, b[a], b[a + 1..Match(b, i)], b[i..Match(b, i)]);
  }

  lemma WrittenParts(list: bool, s: State, head: Body, t: Token, tail: Body, d: Body)
    requires d == head + ([t] + tail) && t.Item?
    requires IsHead(head)
    requires Closes(list, Bound, tail) == if list then Refs(tail) else []
    ensures Refs(d) != [] && Refs(d)[0] == t.ref
    ensures Closes(list, s, d) == if list then Refs(d) else [Refs(d)[0]]
    ensures End(list, s, d) == End(list, Bound, tail)
  {
    HeadCloses(list, s, head);
    HeadedCloses(list, s, head, t, tail);
    HeadRefs(head);
    HeadedRefs(head, t, tail);
  }

  lemma HeadedRefs(head: Body, t: Token, tail: Body)
    requires Refs(head) == [] && t.Item?
    ensures Refs(head + ([t] + tail)) == [t.ref] + Refs(tail)
  {
    RefsAppend(head, [t] + tail);
    RefsAppend([t], tail);
    RefsOne(t);
  }

  lemma HeadedCloses(list: bool, s: State, head: Body, t: Token, tail: Body)
    requires t.Item? && Closes(list, s, head) == [] && Keyed(End(list, s, head))
    ensures Closes(list, s, head + ([t] + tail)) == [t.ref] + Closes(list, Bound, tail)
    ensures End(list, s, head + ([t] + tail)) == End(list, Bound, tail)
  {
    ClosesAppend(list, s, head, [t] + tail);
    ClosesCons(list, End(list, s, head), t, tail);
  }

  // ---------- where the reading of the original stands ----------

  /** The list reading's state before position i. */
  function StateAt(b: Body, i: nat): State
    requires i <= |b|
  {
    if i == 0 then Out else Next(true, StateAt(b, i - 1), b[i - 1])
  }

  lemma {:induction false} StateOverList(b: Body, k: nat)
    requires k <= |b| && StateAt(b, k) == Bound
    ensures StateAt(b, ListEnd(b, k)) == Bound
    decreases |b| - k
  {
    if ListEnd(b, k) > k {
      assert StateAt(b, k + 1) == BoundSep && StateAt(b, k + 2) == Bound;
      StateOverList(b, k + 2);
    }
  }

  lemma StateOverDirective(b: Body, i: nat)
    requires Starts(b, i)
    ensures StateAt(b, Match(b, i)) == Bound
  {
    var a := AfterGap(b, i);
    assert StateAt(b, i + 1) == AfterKey;
    assert Keyed(StateAt(b, a));
    assert StateAt(b, a + 1) == Bound;
    StateOverList(b, a + 1);
  }

  /** Nothing that could be part of a directive was left behind position i. */
  predicate Boundary(b: Body, i: nat)
    requires i <= |b|
  {
    match StateAt(b, i)
    case Out => true
    case AfterKey => !(i < |b| && b[i].Item?) && !(i + 1 < |b| && b[i].Gap? && b[i + 1].Item?)
    case AfterKeyGap => !(i < |b| && b[i].Item?)
    case Bound => !(i + 1 < |b| && b[i].Sep? && b[i + 1].Item?)
    case BoundSep => !(i < |b| && b[i].Item?)
  }

  lemma {:induction false} ListMaximal(b: Body, k: nat)
    requires k <= |b|
    ensures var j := ListEnd(b, k); !(j + 1 < |b| && b[j].Sep? && b[j + 1].Item?)
    ensures ListEnd(b, k) > k ==> b[ListEnd(b, k) - 1].Item?
    decreases |b| - k
  {
    if ListEnd(b, k) > k {
      ListMaximal(b, k + 2);
    }
  }

  lemma BoundaryStep(b: Body, i: nat)
    requires i < |b| && Boundary(b, i)
    ensures Starts(b, i) ==> Boundary(b, Match(b, i))
    ensures !Starts(b, i) ==> Boundary(b, i + 1)
    ensures !Starts(b, i) && b[i].Item? ==> !Binds(true, StateAt(b, i))
  {
    if Starts(b, i) {
      StateOverDirective(b, i);
      ListMaximal(b, AfterGap(b, i) + 1);
    }
  }

  lemma NoStartInside(b: Body, i: nat, k: nat)
    requires Starts(b, i) && i < k < Match(b, i)
    ensures !Starts(b, k)
  {
    ListTokens(b, AfterGap(b, i) + 1);
  }

  /** A keyword left standing right before position i. */
  predicate KeyBefore(b: Body, i: nat)
    requires i <= |b|
  {
    (i >= 1 && b[i - 1].Key?) || (i >= 2 && b[i - 1].Gap? && b[i - 2].Key?)
  }

  lemma KeyBeforeIff(b: Body, i: nat)
    requires i <= |b|
    ensures KeyBefore(b, i) <==> Keyed(StateAt(b, i))
  {
    if i >= 2 {
      assert StateAt(b, i - 1) == Next(true, StateAt(b, i - 2), b[i - 2]);
    }
  }

  // ---------- the filter, one step at a time ----------

  function Piece(ok: Allow, b: Body, i: nat): Body
    requires Starts(b, i)
  {
    Rewrite(ok, b[i..Match(b, i)])
  }

  predicate PieceSafe(list: bool, ok: Allow, b: Body, i: nat, s: State)
    requires Starts(b, i)
  {
    AllOk(ok, Closes(list, s, Piece(ok, b, i)))
  }

  function PieceEnd(list: bool, ok: Allow, b: Body, i: nat, s: State): State
    requires Starts(b, i)
  {
    End(list, s, Piece(ok, b, i))
  }

  /** Reading the filtered body piece by piece closes allowed references only. */
  predicate Safe(list: bool, ok: Allow, b: Body, i: nat, s: State)
    requires i <= |b|
    decreases |b| - i
  {
    if i == |b| then true
    else if Starts(b, i) then PieceSafe(list, ok, b, i, s) && Safe(list, ok, b, Match(b, i), PieceEnd(list, ok, b, i, s))
    else AllOk(ok, Hit(list, s, b[i])) && Safe(list, ok, b, i + 1, Next(list, s, b[i]))
  }

  lemma {:induction false} SafeIff(list: bool, ok: Allow, b: Body, i: nat, s: State)
    requires i <= |b|
    ensures Safe(list, ok, b, i, s) <==> AllOk(ok, Closes(list, s, Filter(ok, b, i)))
    decreases |b| - i
  {
    if i < |b| {
      if Starts(b, i) {
        var j, t := Match(b, i), PieceEnd(list, ok, b, i, s);
        SafeIff(list, ok, b, j, t);
        ClosesAppend(list, s, Piece(ok, b, i), Filter(ok, b, j));
        AllOkAppend(ok, Closes(list, s, Piece(ok, b, i)), Closes(list, t, Filter(ok, b, j)));
      } else {
        var t := Next(list, s, b[i]);
        SafeIff(list, ok, b, i + 1, t);
        ClosesCons(list, s, b[i], Filter(ok, b, i + 1));
        AllOkAppend(ok, Hit(list, s, b[i]), Closes(list, t, Filter(ok, b, i + 1)));
      }
    }
  }

  // ---------- one keyword per reference ----------

  function First(b: Body, i: nat): Ref
    requires Starts(b, i)
  {
    b[AfterGap(b, i)].ref
  }

  /** A directive whose first reference is not allowed, right behind another keyword. */
  predicate StackedAt(ok: Allow, b: Body, i: nat)
    requires i <= |b|
  {
    Starts(b, i) && !ok(First(b, i)) && KeyBefore(b, i)
  }

  /** The same to the one-keyword reading. */
  predicate Alike(s: State, t: State) {
    s == t || (!Keyed(s) && !Keyed(t))
  }

  lemma AlikeStep(b: Body, i: nat, s: State)
    requires i < |b| && Boundary(b, i) && !Starts(b, i) && Alike(s, StateAt(b, i))
    ensures Hit(false, s, b[i]) == [] && Alike(Next(false, s, b[i]), StateAt(b, i + 1))
  {
    BoundaryStep(b, i);
  }

  lemma {:induction false} KeptOk(ok: Allow, refs: seq<Ref>)
    ensures AllOk(ok, Kept(ok, refs))
  {
    if refs != [] {
      KeptOk(ok, refs[1..]);
      AllOkAppend(ok, if ok(refs[0]) then [refs[0]] else [], Kept(ok, refs[1..]));
    }
  }

  /** What the filter makes of one directive, in the one-keyword reading. */
  lemma DirectiveSafeIff(ok: Allow, b: Body, i: nat, s: State)
    requires Starts(b, i) && (Keyed(s) <==> KeyBefore(b, i))
    ensures PieceSafe(false, ok, b, i, s) <==> !StackedAt(ok, b, i)
    ensures !Keyed(PieceEnd(false, ok, b, i, s))
  {
    var refs := Refs(b[i..Match(b, i)]);
    WrittenCloses(false, b, i, s);
    RebuiltBindsAllowed(ok, s, refs);
    if AllOk(ok, refs) {
      assert AllOk(ok, [refs[0]]);
    } else {
      RebuiltSafeIff(ok, s, refs);
    }
  }

  lemma RebuiltSafeIff(ok: Allow, s: State, refs: seq<Ref>)
    requires refs != []
    ensures AllOk(ok, Closes(false, s, Rebuilt(ok, refs))) <==> ok(refs[0]) || !Keyed(s)
  {
    RebuiltBindsAllowed(ok, s, refs);
    KeptOk(ok, refs);
    if !ok(refs[0]) && Keyed(s) {
      assert Closes(false, s, Rebuilt(ok, refs))[0] == refs[0];
    }
  }

  predicate NoneStacked(ok: Allow, b: Body, i: nat)
  {
    forall k :: i <= k < |b| ==> !StackedAt(ok, b, k)
  }

  lemma NoneStackedStep(ok: Allow, b: Body, i: nat)
    requires i < |b|
    ensures NoneStacked(ok, b, i) <==>
            !StackedAt(ok, b, i) && NoneStacked(ok, b, if Starts(b, i) then Match(b, i) else i + 1)
  {
    if Starts(b, i) {
      forall k | i < k < Match(b, i)
        ensures !StackedAt(ok, b, k)
      {
        NoStartInside(b, i, k);
      }
    }
  }

  lemma {:induction false} OneKeywordFrom(ok: Allow, b: Body, i: nat, s: State)
    requires i <= |b| && Boundary(b, i) && Alike(s, StateAt(b, i))
    ensures Safe(false, ok, b, i, s) <==> NoneStacked(ok, b, i)
    decreases |b| - i
  {
    if i < |b| {
      BoundaryStep(b, i);
      NoneStackedStep(ok, b, i);
      if Starts(b, i) {
        KeyBeforeIff(b, i);
        DirectiveSafeIff(ok, b, i, s);
        StateOverDirective(b, i);
        OneKeywordFrom(ok, b, Match(b, i), PieceEnd(false, ok, b, i, s));
      } else {
        AlikeStep(b, i, s);
        OneKeywordFrom(ok, b, i + 1, Next(false, s, b[i]));
      }
    }
  }

  /** Read with one keyword per reference, the filtered body closes allowed references
      only, exactly when no directive with a disallowed first reference stands right
      behind another keyword. */
  lemma OneKeywordSafeIff(ok: Allow, b: Body)
    ensures AllOk(ok, Closes(false, Out, Filter(ok, b, 0))) <==> NoneStacked(ok, b, 0)
  {
    OneKeywordFrom(ok, b, 0, Out);
    SafeIff(false, ok, b, 0, Out);
  }

  // ---------- whole lists ----------

  /** A separator behind an allowed reference of a directive. */
  predicate AllowedSepBefore(ok: Allow, b: Body, i: nat)
    requires i <= |b|
  {
    i >= 2 && b[i - 1].Sep? && b[i - 2].Item? && ok(b[i - 2].ref) && StateAt(b, i - 1) == Bound
  }

  /** A disallowed reference that the list reading still reaches. */
  predicate LeakAt(ok: Allow, b: Body, i: nat)
    requires i <= |b|
  {
    && Starts(b, i)
    && ((!ok(First(b, i)) && (KeyBefore(b, i) || AllowedSepBefore(ok, b, i)))
        || Drops(ok, Refs(b[i..Match(b, i)])))
  }

  /** The list reading's state in the filtered body, while nothing has leaked. */
  function Canon(ok: Allow, b: Body, i: nat): State
    requires i <= |b|
  {
    var s := StateAt(b, i);
    if s == Bound && i >= 1 && b[i - 1].Item? && !ok(b[i - 1].ref) then Out
    else if s == BoundSep && i >= 2 && b[i - 2].Item? && !ok(b[i - 2].ref) then Out
    else s
  }

  lemma CanonBinds(ok: Allow, b: Body, i: nat)
    requires i <= |b|
    ensures Binds(true, Canon(ok, b, i)) <==> KeyBefore(b, i) || AllowedSepBefore(ok, b, i)
  {
    KeyBeforeIff(b, i);
    if i >= 2 {
      assert StateAt(b, i - 1) == Next(true, StateAt(b, i - 2), b[i - 2]);
    }
  }

  lemma RefsLast(d: Body)
    requires d != [] && d[|d| - 1].Item?
    ensures Refs(d) != [] && Refs(d)[|Refs(d)| - 1] == d[|d| - 1].ref
  {
    var init, t := d[..|d| - 1], d[|d| - 1];
    assert d == init + [t];
    RefsAppend(init, [t]);
    RefsOne(t);
  }

  lemma LastRef(b: Body, i: nat)
    requires Starts(b, i)
    ensures var d := b[i..Match(b, i)];
            Refs(d) != [] && b[Match(b, i) - 1] == Item(Refs(d)[|Refs(d)| - 1])
  {
    var j := Match(b, i);
    ListMaximal(b, AfterGap(b, i) + 1);
    RefsLast(b[i..j]);
  }

  lemma DirectiveListSafeIff(ok: Allow, b: Body, i: nat)
    requires Starts(b, i)
    ensures PieceSafe(true, ok, b, i, Canon(ok, b, i)) <==> !LeakAt(ok, b, i)
    ensures !LeakAt(ok, b, i) ==> PieceEnd(true, ok, b, i, Canon(ok, b, i)) == Canon(ok, b, Match(b, i))
  {
    var refs := Refs(b[i..Match(b, i)]);
    var s := Canon(ok, b, i);
    CanonBinds(ok, b, i);
    CanonAfter(ok, b, i);
    WrittenCloses(true, b, i, s);
    if AllOk(ok, refs) {
      assert Piece(ok, b, i) == b[i..Match(b, i)];
    } else {
      RebuiltListSafeIff(ok, s, refs);
      assert Piece(ok, b, i) == Rebuilt(ok, refs);
    }
  }

  lemma CanonAfter(ok: Allow, b: Body, i: nat)
    requires Starts(b, i)
    ensures var refs := Refs(b[i..Match(b, i)]);
            refs != [] && Canon(ok, b, Match(b, i)) == if ok(refs[|refs| - 1]) then Bound else Out
  {
    StateOverDirective(b, i);
    LastRef(b, i);
  }

  predicate NoneLeak(ok: Allow, b: Body, i: nat)
  {
    forall k :: i <= k < |b| ==> !LeakAt(ok, b, k)
  }

  lemma NoneLeakStep(ok: Allow, b: Body, i: nat)
    requires i < |b|
    ensures NoneLeak(ok, b, i) <==>
            !LeakAt(ok, b, i) && NoneLeak(ok, b, if Starts(b, i) then Match(b, i) else i + 1)
  {
    if Starts(b, i) {
      forall k | i < k < Match(b, i)
        ensures !LeakAt(ok, b, k)
      {
        NoStartInside(b, i, k);
      }
    }
  }

  lemma {:induction false} ListFrom(ok: Allow, b: Body, i: nat)
    requires i <= |b| && Boundary(b, i)
    ensures Safe(true, ok, b, i, Canon(ok, b, i)) <==> NoneLeak(ok, b, i)
    decreases |b| - i
  {
    if i < |b| {
      BoundaryStep(b, i);
      NoneLeakStep(ok, b, i);
      if Starts(b, i) {
        DirectiveListSafeIff(ok, b, i);
        ListFrom(ok, b, Match(b, i));
      } else {
        CanonStep(ok, b, i);
        ListFrom(ok, b, i + 1);
      }
    }
  }

  /** Read as lists, the filtered body closes allowed references only, exactly when no
      directive has an allowed reference before a disallowed one, and none with a
      disallowed first reference stands right behind another keyword or behind a
      separator that continues an allowed reference. */
  lemma ListSafeIff(ok: Allow, b: Body)
    ensures AllOk(ok, Closes(true, Out, Filter(ok, b, 0))) <==> NoneLeak(ok, b, 0)
  {
    ListFrom(ok, b, 0);
    SafeIff(true, ok, b, 0, Out);
  }

  lemma CanonStep(ok: Allow, b: Body, i: nat)
    requires i < |b| && Boundary(b, i) && !Starts(b, i)
    ensures Hit(true, Canon(ok, b, i), b[i]) == []
    ensures Canon(ok, b, i + 1) == Next(true, Canon(ok, b, i), b[i])
  {
    BoundaryStep(b, i);
  }

  // ---------- whole bodies ----------

  /** With a live sibling nothing is allowed, and then both readings close nothing
      exactly when no directive stands right behind another keyword. */
  lemma LiveSiblingClosesNothingIff(ownRepo: string, b: Body)
    ensures var ok := Allowlist(ownRepo, map[]);
            && (Closes(false, Out, Filter(ok, b, 0)) == [] <==> forall k :: 0 <= k < |b| ==> !(Starts(b, k) && KeyBefore(b, k)))
            && (Closes(true, Out, Filter(ok, b, 0)) == [] <==> forall k :: 0 <= k < |b| ==> !(Starts(b, k) && KeyBefore(b, k)))
  {
    var ok := Allowlist(ownRepo, map[]);
    OneKeywordSafeIff(ok, b);
    ListSafeIff(ok, b);
    forall k | 0 <= k < |b|
      ensures StackedAt(ok, b, k) <==> Starts(b, k) && KeyBefore(b, k)
      ensures LeakAt(ok, b, k) <==> Starts(b, k) && KeyBefore(b, k)
    {
    }
    NoneOk(ok, Closes(false, Out, Filter(ok, b, 0)));
    NoneOk(ok, Closes(true, Out, Filter(ok, b, 0)));
  }

  lemma NoneOk(ok: Allow, refs: seq<Ref>)
    requires forall ref :: !ok(ref)
    ensures AllOk(ok, refs) <==> refs == []
  {
    if refs != [] {
      assert !ok(refs[0]);
    }
  }

  // ---------- what the filter does not promise ----------

  function Hash(n: nat, text: string): Token {
    Item(Bare(n, text))
  }

  function Only(n: nat): Allow {
    (ref: Ref) => ref.number == n
  }

  /** `Closes #7, #8` with only 7 allowed comes out as it went in, and read as a list it
      still closes 8. */
  lemma ListKeepsDisallowed()
    ensures var b := [Key("Closes"), Gap(" "), Hash(7, "#7"), Sep(", "), Hash(8, "#8")];
            Filter(Only(7), b, 0) == b && Closes(true, Out, b) == [Bare(7, "#7"), Bare(8, "#8")]
  {
    var r7, r8 := Bare(7, "#7"), Bare(8, "#8");
    var b := [Key("Closes"), Gap(" "), Item(r7), Sep(", "), Item(r8)];
    var ok := Only(7);
    TwoRefs(b, r7, r8);
    WrittenCloses(true, b, 0, Out);
    TwoRebuilt(ok, b, r7, r8);
  }

  lemma TwoRefs(b: Body, r: Ref, q: Ref)
    requires |b| == 5 && b[0].Key? && b[1].Gap? && b[2] == Item(r) && b[3].Sep? && b[4] == Item(q)
    ensures Starts(b, 0) && Match(b, 0) == 5 && b[0..5] == b && Refs(b) == [r, q]
  {
    assert ListEnd(b, 5) == 5 && ListEnd(b, 3) == 5;
    assert b == [b[0]] + ([b[1]] + ([b[2]] + ([b[3]] + [b[4]])));
    ListRefs(b[0], b[1], b[2], b[3], b[4]);
  }

  lemma TwoRebuilt(ok: Allow, b: Body, r: Ref, q: Ref)
    requires b == [Key("Closes"), Gap(" "), Item(r), Sep(", "), Item(q)] && ok(r) && !ok(q)
    ensures Filter(ok, b, 0) == b
  {
    TwoRefs(b, r, q);
    PartsTwo(ok, r, q);
    assert !ok(Refs(b)[1]);
    assert Part(ok, r) + ([Sep(", ")] + Part(ok, q)) == b;
    assert Filter(ok, b, 5) == [] && b + [] == b;
  }

  lemma PartsTwo(ok: Allow, r: Ref, q: Ref)
    ensures JoinParts(Parts(ok, [r, q])) == Part(ok, r) + ([Sep(", ")] + Part(ok, q))
  {
    var ps := Parts(ok, [r, q]);
    assert [r, q][1..] == [q];
    RebuiltSingle(ok, [q]);
    assert ps[1..] == Parts(ok, [q]);
  }

  lemma ListRefs(a: Token, b: Token, c: Token, d: Token, e: Token)
    ensures Refs([a] + ([b] + ([c] + ([d] + [e])))) == RefOf(a) + (RefOf(b) + (RefOf(c) + (RefOf(d) + RefOf(e))))
  {
    RefsOne(a);
    RefsOne(b);
    RefsOne(c);
    RefsOne(d);
    RefsOne(e);
    RefsAppend([a], [b] + ([c] + ([d] + [e])));
    RefsAppend([b], [c] + ([d] + [e]));
    RefsAppend([c], [d] + [e]);
    RefsAppend([d], [e]);
  }

  /** `fixes closes #8` with 8 not allowed leaves `fixes #8`, which still closes 8 and
      which a second pass strips. */
  lemma StackedKeywordSurvives()
    ensures var r := Hash(8, "#8");
            var b := [Key("fixes"), Gap(" "), Key("closes"), Gap(" "), r];
            var once := [Key("fixes"), Gap(" "), r];
            && Filter(Only(7), b, 0) == once && Closes(false, Out, once) == [Bare(8, "#8")]
            && Filter(Only(7), once, 0) == [r]
  {
    var ok, r := Only(7), Bare(8, "#8");
    var b := [Key("fixes"), Gap(" "), Key("closes"), Gap(" "), Item(r)];
    var once := [Key("fixes"), Gap(" "), Item(r)];
    StackedOnce(ok, b, r);
    Stripped(ok, once, 0, r);
    OnceCloses(once, r);
  }

  lemma OnceCloses(once: Body, r: Ref)
    requires once == [Key("fixes"), Gap(" "), Item(r)]
    ensures Closes(false, Out, once) == [r]
  {
    assert ListEnd(once, 3) == 3;
    WrittenCloses(false, once, 0, Out);
    assert once[0..3] == once;
  }

  lemma StackedOnce(ok: Allow, b: Body, r: Ref)
    requires b == [Key("fixes"), Gap(" "), Key("closes"), Gap(" "), Item(r)] && !ok(r)
    ensures Filter(ok, b, 0) == [Key("fixes"), Gap(" "), Item(r)]
  {
    Stripped(ok, b, 2, r);
    assert !Starts(b, 0) && !Starts(b, 1);
    assert Filter(ok, b, 1) == [b[1]] + Filter(ok, b, 2);
    assert Filter(ok, b, 0) == [b[0]] + Filter(ok, b, 1);
  }

  /** A directive at the end of a body with one disallowed reference becomes that
      reference. */
  lemma Stripped(ok: Allow, b: Body, i: nat, r: Ref)
    requires i + 3 == |b| && b[i].Key? && b[i + 1].Gap? && b[i + 2] == Item(r) && !ok(r)
    ensures Filter(ok, b, i) == [Item(r)] && Match(b, i) == |b| && Refs(b[i..]) == [r]
  {
    assert ListEnd(b, i + 3) == i + 3;
    assert b[i..] == [b[i]] + ([b[i + 1]] + [b[i + 2]]);
    RefsOne(b[i]);
    RefsOne(b[i + 1]);
    RefsOne(b[i + 2]);
    RefsAppend([b[i + 1]], [b[i + 2]]);
    RefsAppend([b[i]], [b[i + 1]] + [b[i + 2]]);
    assert Refs(b[i..])[0] == r;
    assert b[i..Match(b, i)] == b[i..];
    RebuiltSingle(ok, [r]);
    assert Filter(ok, b, |b|) == [];
  }
}
