/** Filtering a body that was filtered already. A pass leaves exactly those directives
    alone that are wholly allowed or that it could have written itself; what it writes can
    join what stood before it, so a second pass may still find work. */
module CloseTwice {
  import opened CloseDirective
  import opened CloseReadings

  // ---------- what one pass leaves alone ----------

  /** A list of disallowed references, each behind a comma and a space. */
  predicate CanonTail(ok: Allow, x: Body)
    decreases |x|
  {
    x == [] || (|x| >= 2 && x[0] == Sep(", ") && x[1].Item? && !ok(x[1].ref) && CanonTail(ok, x[2..]))
  }

  /** `Closes`, one space, an allowed reference, and then such a list. */
  predicate Canon(ok: Allow, d: Body) {
    && |d| >= 3 && d[0] == Key("Closes") && d[1] == Gap(" ") && d[2].Item? && ok(d[2].ref)
    && CanonTail(ok, d[3..])
  }

  predicate Settled(ok: Allow, b: Body, i: nat)
    requires Starts(b, i)
  {
    AllOk(ok, Refs(b[i..Match(b, i)])) || Canon(ok, b[i..Match(b, i)])
  }

  predicate AllSettled(ok: Allow, b: Body, i: nat) {
    forall k :: i <= k < |b| && Starts(b, k) ==> Settled(ok, b, k)
  }

  lemma AllSettledStep(ok: Allow, b: Body, i: nat)
    requires i < |b|
    ensures AllSettled(ok, b, i) <==> (Starts(b, i) ==> Settled(ok, b, i)) && AllSettled(ok, b, Behind(b, i))
  {
    if Starts(b, i) {
      forall k | i < k < Match(b, i)
        ensures !Starts(b, k)
      {
        NoStartInside(b, i, k);
      }
    }
  }

  /** The rebuilt parts behind the first. */
  function TailParts(ok: Allow, refs: seq<Ref>): Body {
    if refs == [] then [] else [Sep(", ")] + (Part(ok, refs[0]) + TailParts(ok, refs[1..]))
  }

  lemma {:induction false} RebuiltParts(ok: Allow, refs: seq<Ref>)
    requires refs != []
    ensures Rebuilt(ok, refs) == Part(ok, refs[0]) + TailParts(ok, refs[1..])
  {
    if |refs| == 1 {
      RebuiltSingle(ok, refs);
      assert refs[1..] == [] && Part(ok, refs[0]) + [] == Part(ok, refs[0]);
    } else {
      RebuiltParts(ok, refs[1..]);
      RebuiltShape(ok, refs);
    }
  }

  /** A list and its references. */
  lemma ListStep(b: Body, k: nat)
    requires k <= |b| && ListEnd(b, k) > k
    ensures ListEnd(b, k) == ListEnd(b, k + 2) && k + 2 <= ListEnd(b, k) && b[k].Sep? && b[k + 1].Item?
    ensures var j := ListEnd(b, k);
            && b[k..j] == [b[k]] + ([b[k + 1]] + b[k + 2..j])
            && Refs(b[k..j]) == [b[k + 1].ref] + Refs(b[k + 2..j])
  {
    var rest := b[k + 2..ListEnd(b, k)];
    assert b[k..ListEnd(b, k)] == [b[k]] + ([b[k + 1]] + rest);
    TailPair(true, Bound, b[k], b[k + 1], rest);
  }

  lemma CanonTailPair(ok: Allow, s: Token, t: Token, rest: Body)
    ensures CanonTail(ok, [s] + ([t] + rest)) <==> s == Sep(", ") && t.Item? && !ok(t.ref) && CanonTail(ok, rest)
  {
    var x := [s] + ([t] + rest);
    assert x[0] == s && x[1] == t && x[2..] == rest;
  }

  lemma {:induction false} TailSame(ok: Allow, b: Body, k: nat, x: Body, y: Body)
    requires k <= |b|
    requires TailParts(ok, Refs(b[k..ListEnd(b, k)])) + x == b[k..ListEnd(b, k)] + y
    ensures CanonTail(ok, b[k..ListEnd(b, k)])
    decreases |b| - k
  {
    var j := ListEnd(b, k);
    if j > k {
      ListStep(b, k);
      var r, rest := b[k + 1].ref, b[k + 2..j];
      PairSame(ok, b[k], b[k + 1], r, TailParts(ok, Refs(rest)), rest, x, y);
      TailSame(ok, b, k + 2, x, y);
      CanonTailPair(ok, b[k], b[k + 1], rest);
    }
  }

  lemma PairSame(ok: Allow, s: Token, t: Token, r: Ref, p: Body, rest: Body, x: Body, y: Body)
    requires t == Item(r)
    requires ([Sep(", ")] + (Part(ok, r) + p)) + x == ([s] + ([t] + rest)) + y
    ensures s == Sep(", ") && !ok(r) && p + x == rest + y
  {
    var l, m := ([Sep(", ")] + (Part(ok, r) + p)) + x, ([s] + ([t] + rest)) + y;
    assert l[0] == Sep(", ") && m[0] == s;
    assert l[1] == Part(ok, r)[0] && m[1] == t;
    assert !ok(r) ==> l[2..] == p + x;
    assert m[2..] == rest + y;
  }

  lemma {:induction false} TailKept(ok: Allow, b: Body, k: nat)
    requires k <= |b| && CanonTail(ok, b[k..ListEnd(b, k)])
    ensures TailParts(ok, Refs(b[k..ListEnd(b, k)])) == b[k..ListEnd(b, k)]
    decreases |b| - k
  {
    var j := ListEnd(b, k);
    if j > k {
      ListStep(b, k);
      CanonTailPair(ok, b[k], b[k + 1], b[k + 2..j]);
      TailKept(ok, b, k + 2);
      var refs := Refs(b[k..j]);
      assert refs[0] == b[k + 1].ref && refs[1..] == Refs(b[k + 2..j]);
      assert TailParts(ok, refs) == [Sep(", ")] + (Part(ok, refs[0]) + TailParts(ok, refs[1..]));
    }
  }

  /** The parts of a directive: keyword, perhaps a gap, first reference, list. */
  lemma DirectiveParts(b: Body, i: nat) returns (a: nat)
    requires Starts(b, i)
    ensures a == AfterGap(b, i) && a < |b| && b[a].Item? && Match(b, i) == ListEnd(b, a + 1)
    ensures var d, tail := b[i..Match(b, i)], b[a + 1..Match(b, i)];
            && d == b[i..a] + ([b[a]] + tail) && Refs(d) == [b[a].ref] + Refs(tail)
    ensures b[i..a] == if b[i + 1].Gap? then [b[i], b[i + 1]] else [b[i]]
  {
    var head;
    head, a := DirectiveShape(b, i);
    HeadRefs(head);
    HeadedRefs(head, b[a], b[a + 1..Match(b, i)]);
  }

  lemma CanonShape(ok: Allow, b: Body, i: nat)
    requires Starts(b, i)
    ensures var a := AfterGap(b, i);
            Canon(ok, b[i..Match(b, i)]) <==>
            b[i] == Key("Closes") && b[i + 1] == Gap(" ") && ok(b[a].ref) && CanonTail(ok, b[a + 1..Match(b, i)])
  {
    var a := DirectiveParts(b, i);
    var d := b[i..Match(b, i)];
    assert d[0] == b[i] && d[1] == b[i + 1];
    if b[i + 1].Gap? {
      assert d[2] == b[a] && d[3..] == b[a + 1..Match(b, i)];
    }
  }

  /** A directive that had to be rewritten and comes out as it was, whatever stands
      behind, is in that form; and such a one does come out as it was. */
  lemma RewriteSame(ok: Allow, b: Body, i: nat, x: Body, y: Body)
    requires Starts(b, i)
    ensures Settled(ok, b, i) ==> Rewrite(ok, b[i..Match(b, i)]) == b[i..Match(b, i)]
    ensures Rewrite(ok, b[i..Match(b, i)]) + x == b[i..Match(b, i)] + y ==> Settled(ok, b, i)
  {
    var d := b[i..Match(b, i)];
    var refs := Refs(d);
    var a := DirectiveParts(b, i);
    if !AllOk(ok, refs) {
      CanonShape(ok, b, i);
      RebuiltParts(ok, refs);
      assert refs[1..] == Refs(b[a + 1..Match(b, i)]);
      if Canon(ok, d) {
        TailKept(ok, b, a + 1);
        assert d == Part(ok, refs[0]) + b[a + 1..Match(b, i)];
      } else if Rewrite(ok, d) + x == d + y {
        HeadSame(ok, b, i, x, y);
      }
    }
  }

  lemma HeadSame(ok: Allow, b: Body, i: nat, x: Body, y: Body)
    requires Starts(b, i)
    requires var d := b[i..Match(b, i)]; Refs(d) != [] && Rebuilt(ok, Refs(d)) + x == d + y
    ensures Canon(ok, b[i..Match(b, i)])
  {
    var d := b[i..Match(b, i)];
    var a := DirectiveParts(b, i);
    var r, tail := b[a].ref, b[a + 1..Match(b, i)];
    var p := TailParts(ok, Refs(tail));
    RebuiltParts(ok, Refs(d));
    assert Refs(d)[1..] == Refs(tail);
    FirstSame(ok, b[i], b[i + 1], r, p, d, tail, x, y);
    TailSame(ok, b, a + 1, x, y);
    CanonShape(ok, b, i);
  }

  lemma FirstSame(ok: Allow, k: Token, g: Token, r: Ref, p: Body, d: Body, tail: Body, x: Body, y: Body)
    requires k.Key? && (g.Gap? || g == Item(r))
    requires d == (if g.Gap? then [k, g] else [k]) + ([Item(r)] + tail)
    requires (Part(ok, r) + p) + x == d + y
    ensures ok(r) && k == Key("Closes") && g == Gap(" ") && p + x == tail + y
  {
    var l, m := (Part(ok, r) + p) + x, d + y;
    assert m[0] == k && l[0] == Part(ok, r)[0];
    assert m[1] == g;
    assert ok(r) ==> l[1] == Gap(" ") && l[3..] == p + x;
    assert g.Gap? ==> m[3..] == tail + y;
  }

  lemma {:induction false} UnchangedFrom(ok: Allow, b: Body, i: nat)
    requires i <= |b|
    ensures Filter(ok, b, i) == b[i..] <==> AllSettled(ok, b, i)
    decreases |b| - i
  {
    if i < |b| {
      var j := Behind(b, i);
      UnchangedFrom(ok, b, j);
      AllSettledStep(ok, b, i);
      FilterPiece(ok, b, i);
      if Starts(b, i) {
        RewriteSame(ok, b, i, Filter(ok, b, j), b[j..]);
      }
      PieceKept(PieceAt(ok, b, i), Filter(ok, b, j), b, i, j);
    }
  }

  lemma PieceKept(piece: Body, rest: Body, b: Body, i: nat, j: nat)
    requires i < j <= |b|
    ensures b[i..] == b[i..j] + b[j..]
    ensures piece == b[i..j] ==> (piece + rest == b[i..] <==> rest == b[j..])
  {
    if piece == b[i..j] {
      assert (piece + rest)[j - i..] == rest;
      assert b[i..][j - i..] == b[j..];
    }
  }

  /** A pass leaves a body as it is exactly when each of its directives is wholly allowed
      or already reads `Closes`, one space, an allowed reference, and then disallowed
      ones behind a comma and a space. */
  lemma UnchangedIff(ok: Allow, b: Body)
    ensures Filter(ok, b, 0) == b <==> AllSettled(ok, b, 0)
  {
    UnchangedFrom(ok, b, 0);
    assert b[0..] == b;
  }

  // ---------- the same, read token by token ----------

  /** Where a reading stands: behind a keyword, and whether it is `Closes`; behind its gap,
      and whether both are as the filter writes them; behind references that were all
      allowed, and whether it is one behind such a head; behind such a one and disallowed
      ones; behind a separator of either, and whether a disallowed reference fits on. */
  datatype Phase =
    | Idle
    | Word(closes: bool)
    | Primed(canon: bool)
    | Whole(one: bool)
    | Mixed
    | WholeSep(fit: bool)
    | MixedSep(fit: bool)

  function Advance(ok: Allow, s: Phase, t: Token): Phase {
    match t
    case Key(w) => Word(w == "Closes")
    case Gap(g) => if s.Word? then Primed(s.closes && g == " ") else Idle
    case Sep(x) =>
      if s.Whole? then WholeSep(s.one && x == ", ")
      else if s.Mixed? then MixedSep(x == ", ")
      else Idle
    case Item(r) =>
      if s.Word? then Whole(false)
      else if s.Primed? then Whole(s.canon)
      else if s.WholeSep? then if ok(r) then Whole(false) else Mixed
      else if s.MixedSep? then Mixed
      else Idle
    case Plain(_) => Idle
  }

  predicate Fine(ok: Allow, s: Phase, t: Token) {
    t.Item? ==>
      && (s.Word? || s.Primed? ==> ok(t.ref))
      && (s.WholeSep? ==> ok(t.ref) || s.fit)
      && (s.MixedSep? ==> !ok(t.ref) && s.fit)
  }

  predicate Steady(ok: Allow, s: Phase, x: Body)
    decreases |x|
  {
    x == [] || (Fine(ok, s, x[0]) && Steady(ok, Advance(ok, s, x[0]), x[1..]))
  }

  function After(ok: Allow, s: Phase, x: Body): Phase
    decreases |x|
  {
    if x == [] then s else After(ok, Advance(ok, s, x[0]), x[1..])
  }

  lemma SteadyCons(ok: Allow, s: Phase, t: Token, x: Body)
    ensures Steady(ok, s, [t] + x) <==> Fine(ok, s, t) && Steady(ok, Advance(ok, s, t), x)
    ensures After(ok, s, [t] + x) == After(ok, Advance(ok, s, t), x)
  {
    assert ([t] + x)[0] == t && ([t] + x)[1..] == x;
  }

  lemma SteadyOne(ok: Allow, s: Phase, t: Token)
    ensures Steady(ok, s, [t]) <==> Fine(ok, s, t)
    ensures After(ok, s, [t]) == Advance(ok, s, t)
  {
    assert [t] + [] == [t];
    SteadyCons(ok, s, t, []);
  }

  lemma {:induction false} SteadyAppend(ok: Allow, s: Phase, x: Body, y: Body)
    ensures Steady(ok, s, x + y) <==> Steady(ok, s, x) && Steady(ok, After(ok, s, x), y)
    ensures After(ok, s, x + y) == After(ok, After(ok, s, x), y)
    decreases |x|
  {
    if x == [] {
      assert x + y == y;
    } else {
      assert x + y == [x[0]] + (x[1..] + y);
      SteadyCons(ok, s, x[0], x[1..] + y);
      SteadyAppend(ok, Advance(ok, s, x[0]), x[1..], y);
    }
  }

  // ---------- a directive as written ----------

  lemma {:induction false} MixedTail(ok: Allow, b: Body, k: nat)
    requires k <= |b|
    ensures Steady(ok, Mixed, b[k..ListEnd(b, k)]) <==> CanonTail(ok, b[k..ListEnd(b, k)])
    ensures After(ok, Mixed, b[k..ListEnd(b, k)]) == Mixed
    decreases |b| - k
  {
    var j := ListEnd(b, k);
    if j > k {
      ListStep(b, k);
      MixedTail(ok, b, k + 2);
      CanonTailPair(ok, b[k], b[k + 1], b[k + 2..j]);
      SteadyPair(ok, Mixed, b[k], b[k + 1], b[k + 2..j]);
    }
  }

  lemma SteadyPair(ok: Allow, s: Phase, t: Token, u: Token, rest: Body)
    ensures var m := Advance(ok, s, t);
            var n := Advance(ok, m, u);
            && (Steady(ok, s, [t] + ([u] + rest)) <==> Fine(ok, s, t) && Fine(ok, m, u) && Steady(ok, n, rest))
            && After(ok, s, [t] + ([u] + rest)) == After(ok, n, rest)
  {
    SteadyCons(ok, s, t, [u] + rest);
    SteadyCons(ok, Advance(ok, s, t), u, rest);
  }

  lemma {:induction false} WholeTail(ok: Allow, b: Body, k: nat, one: bool)
    requires k <= |b|
    ensures var tail := b[k..ListEnd(b, k)];
            && (Steady(ok, Whole(one), tail) <==> AllOk(ok, Refs(tail)) || (one && CanonTail(ok, tail)))
            && (AllOk(ok, Refs(tail)) ==> After(ok, Whole(one), tail) == Whole(one && tail == []))
            && !After(ok, Whole(one), tail).Word? && !After(ok, Whole(one), tail).Primed?
            && (After(ok, Whole(one), tail).Whole? || After(ok, Whole(one), tail).Mixed?)
    decreases |b| - k
  {
    var j := ListEnd(b, k);
    if j > k {
      ListStep(b, k);
      var t, u, rest := b[k], b[k + 1], b[k + 2..j];
      SteadyPair(ok, Whole(one), t, u, rest);
      CanonTailPair(ok, t, u, rest);
      AllOkCons(ok, u.ref, Refs(rest));
      if ok(u.ref) {
        WholeTail(ok, b, k + 2, false);
      } else {
        MixedTail(ok, b, k + 2);
      }
    }
  }

  lemma AllOkCons(ok: Allow, r: Ref, refs: seq<Ref>)
    ensures AllOk(ok, [r] + refs) <==> ok(r) && AllOk(ok, refs)
  {
    AllOkAppend(ok, [r], refs);
    assert AllOk(ok, [r]) <==> ok([r][0]);
  }

  /** A directive reads as steady exactly when a pass leaves it alone, wherever it
      stands. */
  lemma DirectiveSteady(ok: Allow, b: Body, i: nat, s: Phase)
    requires Starts(b, i)
    ensures var d := b[i..Match(b, i)];
            && (Steady(ok, s, d) <==> Settled(ok, b, i))
            && (AllOk(ok, Refs(d)) ==> After(ok, s, d) == Whole(|Refs(d)| == 1 && CanonHead(b, i)))
            && (After(ok, s, d).Whole? || After(ok, s, d).Mixed?)
  {
    var a := DirectiveParts(b, i);
    var x := [b[a]] + b[a + 1..Match(b, i)];
    HeadPhase(ok, b, i, s, x);
    FirstPhase(ok, Headed(b, i), CanonHead(b, i), b, a);
    DirectiveOk(ok, b, i);
  }

  predicate CanonHead(b: Body, i: nat)
    requires Starts(b, i)
  {
    b[i] == Key("Closes") && b[i + 1] == Gap(" ")
  }

  /** The phase behind the keyword of a directive and its gap. */
  function Headed(b: Body, i: nat): Phase
    requires Starts(b, i)
  {
    if b[i + 1].Gap? then Primed(CanonHead(b, i)) else Word(b[i] == Key("Closes"))
  }

  lemma DirectiveOk(ok: Allow, b: Body, i: nat)
    requires Starts(b, i)
    ensures var a, d := AfterGap(b, i), b[i..Match(b, i)];
            var tail := b[a + 1..Match(b, i)];
            && (AllOk(ok, Refs(d)) <==> ok(b[a].ref) && AllOk(ok, Refs(tail)))
            && (Settled(ok, b, i) <==> ok(b[a].ref) && (AllOk(ok, Refs(tail)) || (CanonHead(b, i) && CanonTail(ok, tail))))
            && (|Refs(d)| == 1 <==> tail == [])
  {
    var a := DirectiveParts(b, i);
    CanonShape(ok, b, i);
    AllOkCons(ok, b[a].ref, Refs(b[a + 1..Match(b, i)]));
    ListHasRefs(b, a + 1);
  }

  lemma FirstPhase(ok: Allow, p: Phase, canon: bool, b: Body, a: nat)
    requires a < |b| && b[a].Item? && (p == Primed(canon) || (p.Word? && !canon))
    ensures var tail := b[a + 1..ListEnd(b, a + 1)];
            var x := [b[a]] + tail;
            && (Steady(ok, p, x) <==> ok(b[a].ref) && (AllOk(ok, Refs(tail)) || (canon && CanonTail(ok, tail))))
            && (AllOk(ok, Refs(tail)) ==> After(ok, p, x) == Whole(canon && tail == []))
            && (After(ok, p, x).Whole? || After(ok, p, x).Mixed?)
  {
    SteadyCons(ok, p, b[a], b[a + 1..ListEnd(b, a + 1)]);
    WholeTail(ok, b, a + 1, canon);
  }

  lemma ListHasRefs(b: Body, k: nat)
    requires k <= |b|
    ensures Refs(b[k..ListEnd(b, k)]) == [] <==> b[k..ListEnd(b, k)] == []
  {
    if ListEnd(b, k) > k {
      ListStep(b, k);
    }
  }

  lemma TwoInFront(t: Token, u: Token, rest: Body)
    ensures ([t] + [u]) + rest == [t] + ([u] + rest)
  {
  }

  lemma HeadPhase(ok: Allow, b: Body, i: nat, s: Phase, rest: Body)
    requires Starts(b, i)
    ensures Steady(ok, s, b[i..AfterGap(b, i)] + rest) <==> Steady(ok, Headed(b, i), rest)
    ensures After(ok, s, b[i..AfterGap(b, i)] + rest) == After(ok, Headed(b, i), rest)
  {
    if b[i + 1].Gap? {
      assert b[i..AfterGap(b, i)] == [b[i]] + [b[i + 1]];
      TwoInFront(b[i], b[i + 1], rest);
      SteadyPair(ok, s, b[i], b[i + 1], rest);
    } else {
      assert b[i..AfterGap(b, i)] == [b[i]];
      SteadyCons(ok, s, b[i], rest);
    }
  }

  // ---------- the phase and the list reading agree ----------

  /** The phase says at least where the list reading stands. */
  predicate Agrees(s: Phase, t: State) {
    && (s.Word? <==> t == AfterKey)
    && (s.Primed? <==> t == AfterKeyGap)
    && (s.Whole? || s.Mixed? ==> t == Bound)
    && (s.WholeSep? || s.MixedSep? ==> t == BoundSep)
  }

  lemma AgreesStep(ok: Allow, b: Body, i: nat, s: Phase)
    requires i < |b| && Boundary(b, i) && !Starts(b, i) && Agrees(s, StateAt(b, i))
    ensures Fine(ok, s, b[i]) && Agrees(Advance(ok, s, b[i]), StateAt(b, i + 1)) && Boundary(b, i + 1)
  {
    BoundaryStep(b, i);
  }

  lemma SteadyOverDirective(ok: Allow, b: Body, i: nat, s: Phase)
    requires Starts(b, i)
    ensures var t := After(ok, s, b[i..Match(b, i)]);
            && (Steady(ok, s, b[i..]) <==> Settled(ok, b, i) && Steady(ok, t, b[Match(b, i)..]))
            && Agrees(t, StateAt(b, Match(b, i)))
  {
    var d, rest := b[i..Match(b, i)], b[Match(b, i)..];
    assert b[i..] == d + rest;
    SteadyAppend(ok, s, d, rest);
    DirectiveSteady(ok, b, i, s);
    StateOverDirective(b, i);
  }

  lemma SteadyOverToken(ok: Allow, b: Body, i: nat, s: Phase)
    requires i < |b| && Fine(ok, s, b[i])
    ensures Steady(ok, s, b[i..]) <==> Steady(ok, Advance(ok, s, b[i]), b[i + 1..])
  {
    assert b[i..] == [b[i]] + b[i + 1..];
    SteadyCons(ok, s, b[i], b[i + 1..]);
  }

  lemma SettledStep(ok: Allow, b: Body, i: nat, s: Phase)
    requires i < |b| && Boundary(b, i) && Agrees(s, StateAt(b, i))
    requires var j := Behind(b, i);
             Steady(ok, if Starts(b, i) then After(ok, s, b[i..j]) else Advance(ok, s, b[i]), b[j..]) <==> AllSettled(ok, b, j)
    ensures Steady(ok, s, b[i..]) <==> AllSettled(ok, b, i)
  {
    AllSettledStep(ok, b, i);
    if Starts(b, i) {
      SteadyOverDirective(ok, b, i, s);
    } else {
      AgreesStep(ok, b, i, s);
      SteadyOverToken(ok, b, i, s);
    }
  }

  lemma {:induction false} SteadyFrom(ok: Allow, b: Body, i: nat, s: Phase)
    requires i <= |b| && Boundary(b, i) && Agrees(s, StateAt(b, i))
    ensures Steady(ok, s, b[i..]) <==> AllSettled(ok, b, i)
    decreases |b| - i
  {
    if i < |b| {
      BoundaryStep(b, i);
      if Starts(b, i) {
        SteadyOverDirective(ok, b, i, s);
        SteadyFrom(ok, b, Match(b, i), After(ok, s, b[i..Match(b, i)]));
      } else {
        AgreesStep(ok, b, i, s);
        SteadyFrom(ok, b, i + 1, Advance(ok, s, b[i]));
      }
      SettledStep(ok, b, i, s);
    }
  }

  lemma SteadyIff(ok: Allow, b: Body)
    ensures Steady(ok, Idle, b) <==> Filter(ok, b, 0) == b
  {
    SteadyFrom(ok, b, 0, Idle);
    UnchangedIff(ok, b);
    assert b[0..] == b;
  }

  // ---------- a directive as rewritten ----------

  /** A bare disallowed reference here would still be bound, in a form no pass writes. */
  predicate Exposed(s: Phase) {
    s.Word? || s.Primed? || (s.WholeSep? && !s.fit) || (s.MixedSep? && !s.fit)
  }

  predicate Joins(s: Phase) {
    s.WholeSep? || s.MixedSep?
  }

  predicate SomeOk(ok: Allow, refs: seq<Ref>) {
    exists k :: 0 <= k < |refs| && ok(refs[k])
  }

  /** The phase a rebuilt directive ends in. */
  function RebuiltEnd(ok: Allow, s: Phase, refs: seq<Ref>): Phase
    requires refs != []
  {
    if ok(refs[|refs| - 1]) then Whole(true)
    else if SomeOk(ok, refs) || Joins(s) then Mixed
    else Idle
  }

  lemma PartPhase(ok: Allow, s: Phase, r: Ref, rest: Body)
    ensures Steady(ok, s, Part(ok, r) + rest) <==>
            (ok(r) || !Exposed(s)) && Steady(ok, PartEnd(ok, s, r), rest)
    ensures After(ok, s, Part(ok, r) + rest) == After(ok, PartEnd(ok, s, r), rest)
  {
    if ok(r) {
      var k, g, t := Key("Closes"), Gap(" "), Item(r);
      assert Part(ok, r) + rest == [k] + ([g] + ([t] + rest));
      SteadyPair(ok, s, k, g, [t] + rest);
      SteadyCons(ok, Primed(true), t, rest);
    } else {
      assert Part(ok, r) == [Item(r)];
      SteadyCons(ok, s, Item(r), rest);
    }
  }

  function PartEnd(ok: Allow, s: Phase, r: Ref): Phase {
    if ok(r) then Whole(true) else Advance(ok, s, Item(r))
  }

  lemma {:induction false} RebuiltPhase(ok: Allow, s: Phase, refs: seq<Ref>)
    requires refs != []
    ensures Steady(ok, s, Rebuilt(ok, refs)) <==> ok(refs[0]) || !Exposed(s)
    ensures Steady(ok, s, Rebuilt(ok, refs)) ==> After(ok, s, Rebuilt(ok, refs)) == RebuiltEnd(ok, s, refs)
    decreases |refs|
  {
    if |refs| == 1 {
      RebuiltSingle(ok, refs);
      PartPhase(ok, s, refs[0], []);
      assert Part(ok, refs[0]) + [] == Part(ok, refs[0]);
    } else {
      var e := PartEnd(ok, s, refs[0]);
      var rest := Rebuilt(ok, refs[1..]);
      RebuiltShape(ok, refs);
      PartPhase(ok, s, refs[0], [Sep(", ")] + rest);
      SteadyCons(ok, e, Sep(", "), rest);
      RebuiltPhase(ok, Advance(ok, e, Sep(", ")), refs[1..]);
      SomeOkTail(ok, refs);
    }
  }

  lemma SomeOkTail(ok: Allow, refs: seq<Ref>)
    requires |refs| > 1
    ensures SomeOk(ok, refs) <==> ok(refs[0]) || SomeOk(ok, refs[1..])
  {
    if k :| 0 <= k < |refs| && ok(refs[k]) {
      if k > 0 {
        assert refs[1..][k - 1] == refs[k];
      }
    }
    if k :| 0 <= k < |refs[1..]| && ok(refs[1..][k]) {
      assert refs[k + 1] == refs[1..][k];
    }
  }

  // ---------- the second pass, told from the body ----------

  /** The phase behind the directive at i, which stands at phase s. */
  function Passed(ok: Allow, b: Body, i: nat, s: Phase): Phase
    requires Starts(b, i)
  {
    var refs := Refs(b[i..Match(b, i)]);
    if AllOk(ok, refs) then Whole(|refs| == 1 && CanonHead(b, i))
    else if refs == [] then Idle
    else RebuiltEnd(ok, s, refs)
  }

  function Move(ok: Allow, b: Body, i: nat, s: Phase): Phase
    requires i < |b|
  {
    if Starts(b, i) then Passed(ok, b, i, s) else Advance(ok, s, b[i])
  }

  /** The phase at position i of the body, from one further left. */
  function RunAt(ok: Allow, b: Body, from: nat, s: Phase, i: nat): Phase
    requires i <= |b| && Between(b, from, i)
    decreases |b| - from
  {
    if from == i then s else RunAt(ok, b, Behind(b, from), Move(ok, b, from, s), i)
  }

  /** The directive at i loses its keyword where its first reference is still bound. */
  predicate RegrowsAt(ok: Allow, b: Body, i: nat, s: Phase) {
    Starts(b, i) && !ok(First(b, i)) && Exposed(s)
  }

  predicate NoneRegrows(ok: Allow, b: Body, from: nat, s: Phase) {
    forall i :: from <= i < |b| && Between(b, from, i) ==> !RegrowsAt(ok, b, i, RunAt(ok, b, from, s, i))
  }

  lemma NoneRegrowsStep(ok: Allow, b: Body, i: nat, s: Phase)
    requires i < |b|
    ensures NoneRegrows(ok, b, i, s) <==> !RegrowsAt(ok, b, i, s) && NoneRegrows(ok, b, Behind(b, i), Move(ok, b, i, s))
  {
    var j, t := Behind(b, i), Move(ok, b, i, s);
    assert Between(b, i, i) && RunAt(ok, b, i, s, i) == s;
    if NoneRegrows(ok, b, i, s) {
      forall k | j <= k < |b| && Between(b, j, k)
        ensures !RegrowsAt(ok, b, k, RunAt(ok, b, j, t, k))
      {
        assert Between(b, i, k) && RunAt(ok, b, i, s, k) == RunAt(ok, b, j, t, k);
      }
    }
    if !RegrowsAt(ok, b, i, s) && NoneRegrows(ok, b, j, t) {
      forall k | i <= k < |b| && Between(b, i, k)
        ensures !RegrowsAt(ok, b, k, RunAt(ok, b, i, s, k))
      {
        if k > i {
          BetweenBehind(b, i, k);
        }
      }
    }
  }

  lemma BetweenBehind(b: Body, i: nat, k: nat)
    requires i < k < |b| && Between(b, i, k)
    ensures Behind(b, i) <= k && Between(b, Behind(b, i), k)
  {
  }

  /** What the filter makes of a directive is steady exactly when it does not regrow, and
      then the phase behind it is the one told from the body. */
  lemma PiecePhase(ok: Allow, b: Body, i: nat, s: Phase)
    requires Starts(b, i)
    ensures Steady(ok, s, Piece(ok, b, i)) <==> !RegrowsAt(ok, b, i, s)
    ensures !RegrowsAt(ok, b, i, s) ==> After(ok, s, Piece(ok, b, i)) == Passed(ok, b, i, s)
  {
    var refs := Refs(b[i..Match(b, i)]);
    var a := DirectiveParts(b, i);
    if AllOk(ok, refs) {
      DirectiveSteady(ok, b, i, s);
      assert ok(refs[0]);
    } else {
      RebuiltPhase(ok, s, refs);
    }
  }

  lemma PassedAgrees(ok: Allow, b: Body, i: nat, s: Phase)
    requires Starts(b, i)
    ensures Agrees(Passed(ok, b, i, s), StateAt(b, Match(b, i)))
  {
    StateOverDirective(b, i);
  }

  lemma {:induction false} SecondFrom(ok: Allow, b: Body, i: nat, s: Phase)
    requires i <= |b| && Boundary(b, i) && Agrees(s, StateAt(b, i))
    ensures Steady(ok, s, Filter(ok, b, i)) <==> NoneRegrows(ok, b, i, s)
    decreases |b| - i
  {
    if i < |b| {
      var j := Behind(b, i);
      NoneRegrowsStep(ok, b, i, s);
      FilterPiece(ok, b, i);
      BoundaryStep(b, i);
      if Starts(b, i) {
        PiecePhase(ok, b, i, s);
        PassedAgrees(ok, b, i, s);
        SteadyAppend(ok, s, Piece(ok, b, i), Filter(ok, b, j));
        SecondFrom(ok, b, j, Passed(ok, b, i, s));
      } else {
        AgreesStep(ok, b, i, s);
        SteadyCons(ok, s, b[i], Filter(ok, b, j));
        SecondFrom(ok, b, j, Advance(ok, s, b[i]));
      }
    }
  }

  /** A second pass changes nothing exactly when no directive with a disallowed first
      reference stands behind another keyword, or behind a separator that would hang that
      reference on a run of references it does not fit: one that is not a single allowed
      reference behind `Closes` and a space, with disallowed ones at most, or not by a
      comma and a space. */
  lemma SecondPassIff(ok: Allow, b: Body)
    ensures Filter(ok, Filter(ok, b, 0), 0) == Filter(ok, b, 0) <==> NoneRegrows(ok, b, 0, Idle)
  {
    SecondFrom(ok, b, 0, Idle);
    SteadyIff(ok, Filter(ok, b, 0));
  }

  // ---------- bodies that a second pass changes ----------

  /** `fixes #7, closes #8` with only 7 allowed has no stacked keyword. It becomes
      `fixes #7, #8`, one directive now, and a second pass `Closes #7, #8`. */
  lemma JoinedGrows()
    ensures var r, q := Hash(7, "#7"), Hash(8, "#8");
            var b := [Key("fixes"), Gap(" "), r, Sep(", "), Key("closes"), Gap(" "), q];
            var once := [Key("fixes"), Gap(" "), r, Sep(", "), q];
            && NoneStacked(Only(7), b, 0) && !NoneRegrows(Only(7), b, 0, Idle)
            && Filter(Only(7), b, 0) == once
            && Filter(Only(7), once, 0) == [Key("Closes"), Gap(" "), r, Sep(", "), q]
  {
    var ok, r, q := Only(7), Bare(7, "#7"), Bare(8, "#8");
    var b := [Key("fixes"), Gap(" "), Item(r), Sep(", "), Key("closes"), Gap(" "), Item(q)];
    var once := [Key("fixes"), Gap(" "), Item(r), Sep(", "), Item(q)];
    var twice := [Key("Closes"), Gap(" "), Item(r), Sep(", "), Item(q)];
    FirstPass(ok, b, r, q);
    TwoRefs(once, r, q);
    PartsTwo(ok, r, q);
    assert !ok(Refs(once)[1]);
    assert Part(ok, r) + ([Sep(", ")] + Part(ok, q)) == twice;
    assert Filter(ok, once, 5) == [] && twice + [] == twice;
    assert once[0] != twice[0];
    SecondPassIff(ok, b);
  }

  lemma FirstPass(ok: Allow, b: Body, r: Ref, q: Ref)
    requires b == [Key("fixes"), Gap(" "), Item(r), Sep(", "), Key("closes"), Gap(" "), Item(q)] && ok(r) && !ok(q)
    ensures Filter(ok, b, 0) == [Key("fixes"), Gap(" "), Item(r), Sep(", "), Item(q)]
    ensures NoneStacked(ok, b, 0)
  {
    Stripped(ok, b, 4, q);
    assert ListEnd(b, 3) == 3 && Starts(b, 0) && Match(b, 0) == 3;
    OneRef(b[0..3], r);
    assert Filter(ok, b, 3) == [b[3]] + Filter(ok, b, 4);
    assert Filter(ok, b, 0) == b[0..3] + Filter(ok, b, 3);
    forall k | 0 <= k < |b|
      ensures !StackedAt(ok, b, k)
    {
      assert k == 0 || k == 1 || k == 2 || k == 3 || k == 4 || k == 5 || k == 6;
    }
  }

  lemma OneRef(d: Body, r: Ref)
    requires |d| == 3 && d[0].Key? && d[1].Gap? && d[2] == Item(r)
    ensures Refs(d) == [r]
  {
    assert d == [d[0]] + ([d[1]] + [d[2]]);
    RefsOne(d[0]);
    RefsOne(d[1]);
    RefsOne(d[2]);
    RefsAppend([d[1]], [d[2]]);
    RefsAppend([d[0]], [d[1]] + [d[2]]);
  }
}
