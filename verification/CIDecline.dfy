/** The evidence a decline is stamped with: what CI said about the merge requests a Task
    may act on, and a fingerprint of the code it said it about. */
module CIDecline {

  datatype Ownership = Tatara | External
  datatype State = Unsynced | Open | Merged | Closed
  datatype CI = Red | Green | OtherCI

  datatype MR = MR(name: string, ownership: Ownership, state: State, ci: CI, head: string)

  datatype Verdict = Absent | SaysRed | SaysGreen | SaysUnknown
  datatype Evidence = Evidence(ci: Verdict, heads: string)

  const NOTHING := Evidence(Absent, "")

  predicate Live(mr: MR) {
    mr.ownership == Tatara && (mr.state == Unsynced || mr.state == Open)
  }

  // ---------- the order of names ----------

  /** Go's order of strings. */
  predicate Less(a: string, b: string) {
    b != [] && (a == [] || a[0] < b[0] || (a[0] == b[0] && Less(a[1..], b[1..])))
  }

  lemma {:induction false} LessTotal(a: string, b: string)
    ensures Less(a, b) || Less(b, a) || a == b
  {
    if a != [] && b != [] && a[0] == b[0] {
      LessTotal(a[1..], b[1..]);
      if a[1..] == b[1..] {
        assert a == [a[0]] + a[1..] && b == [b[0]] + b[1..];
      }
    }
  }

  lemma {:induction false} LessIrreflexive(a: string)
    ensures !Less(a, a)
  {
    if a != [] {
      LessIrreflexive(a[1..]);
    }
  }

  lemma {:induction false} LessTransitive(a: string, b: string, c: string)
    requires Less(a, b) && Less(b, c)
    ensures Less(a, c)
  {
    if a != [] && a[0] == b[0] == c[0] {
      LessTransitive(a[1..], b[1..], c[1..]);
    }
  }

  // ---------- collecting ----------

  function Collect(mrs: seq<MR>): (live: seq<MR>)
    ensures forall m :: m in live <==> m in mrs && Live(m)
  {
    if mrs == [] then []
    else
      var init, m := mrs[..|mrs| - 1], mrs[|mrs| - 1];
      assert mrs == init + [m];
      if Live(m) then Collect(init) + [m] else Collect(init)
  }

  /** Every name stands for one merge request. */
  ghost predicate Distinct(s: seq<MR>) {
    forall i, j :: 0 <= i < j < |s| ==> s[i].name != s[j].name
  }

  /** Puts m into place from the right. */
  function Insert(s: seq<MR>, m: MR): (r: seq<MR>)
    ensures multiset(r) == multiset(s) + multiset{m}
  {
    if s == [] then [m]
    else
      var init, last := s[..|s| - 1], s[|s| - 1];
      assert s == init + [last];
      if Less(m.name, last.name) then Insert(init, m) + [last] else s + [m]
  }

  /** sort.Slice by name. With distinct names only one ascending order exists, so
      how it gets there does not matter. */
  function Sort(s: seq<MR>): (r: seq<MR>)
    ensures multiset(r) == multiset(s)
  {
    if s == [] then []
    else
      assert s == s[..|s| - 1] + [s[|s| - 1]];
      Insert(Sort(s[..|s| - 1]), s[|s| - 1])
  }

  // ---------- the evidence ----------

  function Part(m: MR): string {
    m.name + "@" + m.head
  }

  function Parts(s: seq<MR>): (ps: seq<string>)
    ensures |ps| == |s|
    ensures forall i :: 0 <= i < |s| ==> ps[i] == Part(s[i])
  {
    if s == [] then [] else Parts(s[..|s| - 1]) + [Part(s[|s| - 1])]
  }

  function Join(parts: seq<string>): string {
    if parts == [] then "" else if |parts| == 1 then parts[0] else parts[0] + ("," + Join(parts[1..]))
  }

  predicate AnyRed(s: seq<MR>, n: nat)
    requires n <= |s|
  {
    exists i :: 0 <= i < n && s[i].ci == Red
  }

  predicate AllGreen(s: seq<MR>, n: nat)
    requires n <= |s|
  {
    forall i :: 0 <= i < n ==> s[i].ci == Green
  }

  predicate AllHeads(s: seq<MR>, n: nat)
    requires n <= |s|
  {
    forall i :: 0 <= i < n ==> s[i].head != ""
  }

  function Judge(s: seq<MR>): Verdict {
    if AnyRed(s, |s|) then SaysRed else if AllGreen(s, |s|) then SaysGreen else SaysUnknown
  }

  function Summary(mrs: seq<MR>): Evidence {
    var s := Sort(Collect(mrs));
    if s == [] || !AllHeads(s, |s|) then NOTHING else Evidence(Judge(s), Join(Parts(s)))
  }

  method CIDeclineEvidence(mrs: seq<MR>) returns (e: Evidence)
    ensures e == Summary(mrs)
  {
    var live: seq<MR> := [];
    for i := 0 to |mrs|
      invariant live == Collect(mrs[..i])
    {
      assert mrs[..i + 1][..i] == mrs[..i];
      if mrs[i].ownership != Tatara {
        continue;
      }
      if mrs[i].state != Unsynced && mrs[i].state != Open {
        continue;
      }
      live := live + [mrs[i]];
    }
    assert mrs[..|mrs|] == mrs;
    if |live| == 0 {
      assert |multiset(Sort(live))| == 0;
      return NOTHING;
    }
    var s := Sort(live);
    assert |multiset(s)| == |multiset(live)|;
    e := Aggregate(s);
  }

  method Aggregate(s: seq<MR>) returns (e: Evidence)
    requires s != []
    ensures e == if AllHeads(s, |s|) then Evidence(Judge(s), Join(Parts(s))) else NOTHING
  {
    var anyRed, allGreen := false, true;
    var parts: seq<string> := [];
    for i := 0 to |s|
      invariant AllHeads(s, i)
      invariant anyRed == AnyRed(s, i) && allGreen == AllGreen(s, i)
      invariant parts == Parts(s[..i])
    {
      assert s[..i + 1][..i] == s[..i];
      match s[i].ci {
        case Red => anyRed, allGreen := true, false;
        case Green =>
        case OtherCI => allGreen := false;
      }
      if s[i].head == "" {
        return NOTHING;
      }
      parts := parts + [Part(s[i])];
    }
    assert s[..|s|] == s;
    return Evidence(if anyRed then SaysRed else if allGreen then SaysGreen else SaysUnknown, Join(parts));
  }

  // ---------- sorting is canonical ----------

  ghost predicate Strict(s: seq<MR>) {
    forall i, j :: 0 <= i < j < |s| ==> Less(s[i].name, s[j].name)
  }

  lemma InsertFrom(s: seq<MR>, m: MR, i: nat)
    requires i < |Insert(s, m)|
    ensures Insert(s, m)[i] == m || Insert(s, m)[i] in s
  {
    assert Insert(s, m)[i] in multiset(Insert(s, m));
  }

  lemma StrictAppend(s: seq<MR>, last: MR)
    requires Strict(s) && forall i :: 0 <= i < |s| ==> Less(s[i].name, last.name)
    ensures Strict(s + [last])
  {
  }

  lemma {:induction false} InsertStrict(s: seq<MR>, m: MR)
    requires Strict(s) && forall i :: 0 <= i < |s| ==> s[i].name != m.name
    ensures Strict(Insert(s, m))
  {
    if s != [] {
      var init, last := s[..|s| - 1], s[|s| - 1];
      if Less(m.name, last.name) {
        InsertStrict(init, m);
        forall i | 0 <= i < |Insert(init, m)|
          ensures Less(Insert(init, m)[i].name, last.name)
        {
          InsertFrom(init, m, i);
        }
        StrictAppend(Insert(init, m), last);
      } else {
        LessTotal(m.name, last.name);
        forall i | 0 <= i < |s|
          ensures Less(s[i].name, m.name)
        {
          if i < |s| - 1 {
            LessTransitive(s[i].name, last.name, m.name);
          }
        }
        StrictAppend(s, m);
      }
    }
  }

  lemma {:induction false} SortStrict(s: seq<MR>)
    requires Distinct(s)
    ensures Strict(Sort(s))
  {
    if s != [] {
      var init, m := s[..|s| - 1], s[|s| - 1];
      SortStrict(init);
      forall i | 0 <= i < |Sort(init)|
        ensures Sort(init)[i].name != m.name
      {
        assert Sort(init)[i] in multiset(Sort(init));
      }
      InsertStrict(Sort(init), m);
    }
  }

  lemma SameFirst(a: seq<MR>, b: seq<MR>)
    requires Strict(a) && Strict(b) && a != [] && b != []
    requires a[0] in b && b[0] in a
    ensures a[0] == b[0]
  {
    var k :| 0 <= k < |b| && b[k] == a[0];
    var l :| 0 <= l < |a| && a[l] == b[0];
    if k > 0 && l > 0 {
      LessTransitive(a[0].name, b[0].name, a[0].name);
      LessIrreflexive(a[0].name);
    }
  }

  lemma SameEmpty(a: seq<MR>, b: seq<MR>)
    requires forall m :: m in a <==> m in b
    ensures a == [] <==> b == []
  {
    if a != [] {
      assert a[0] in a;
    }
    if b != [] {
      assert b[0] in b;
    }
  }

  /** Only one ascending list has these members. */
  lemma {:induction false} SameOrder(a: seq<MR>, b: seq<MR>)
    requires Strict(a) && Strict(b) && forall m :: m in a <==> m in b
    ensures a == b
  {
    SameEmpty(a, b);
    if a != [] {
      assert a[0] in a && b[0] in b;
      SameFirst(a, b);
      TailMembers(a);
      TailMembers(b);
      SameOrder(a[1..], b[1..]);
      assert a == [a[0]] + a[1..] && b == [b[0]] + b[1..];
    }
  }

  lemma TailMembers(s: seq<MR>)
    requires Strict(s) && s != []
    ensures forall m :: m in s[1..] <==> m in s && m != s[0]
  {
    LessIrreflexive(s[0].name);
    assert s == [s[0]] + s[1..];
  }

  // ---------- independence of order and of others ----------

  lemma SortMembers(s: seq<MR>)
    ensures forall m :: m in Sort(s) <==> m in s
  {
    forall m
      ensures m in Sort(s) <==> m in s
    {
      assert m in s <==> m in multiset(s);
      assert m in Sort(s) <==> m in multiset(Sort(s));
    }
  }

  lemma SameSorted(s: seq<MR>, t: seq<MR>)
    requires Distinct(s) && Distinct(t) && forall m :: m in s <==> m in t
    ensures Sort(s) == Sort(t)
  {
    SortStrict(s);
    SortStrict(t);
    SortMembers(s);
    SortMembers(t);
    SameOrder(Sort(s), Sort(t));
  }

  /** The evidence depends on the set of live merge requests alone. */
  lemma SameLiveSameEvidence(a: seq<MR>, b: seq<MR>)
    requires Distinct(Collect(a)) && Distinct(Collect(b))
    requires forall m :: Live(m) ==> (m in a <==> m in b)
    ensures Summary(a) == Summary(b)
  {
    SameSorted(Collect(a), Collect(b));
  }

  lemma {:induction false} CollectDistinct(s: seq<MR>)
    requires Distinct(s)
    ensures Distinct(Collect(s))
  {
    if s != [] {
      var init := s[..|s| - 1];
      CollectDistinct(init);
      forall i | 0 <= i < |Collect(init)|
        ensures Collect(init)[i].name != s[|s| - 1].name
      {
        assert Collect(init)[i] in init;
      }
    }
  }

  lemma {:induction false} OnceEach(s: seq<MR>, m: MR)
    requires Distinct(s)
    ensures multiset(s)[m] <= 1
  {
    if s != [] {
      var init, last := s[..|s| - 1], s[|s| - 1];
      assert s == init + [last];
      OnceEach(init, m);
      if m == last {
        assert m !in init;
      }
    }
  }

  lemma PermutedDistinct(a: seq<MR>, b: seq<MR>)
    requires Distinct(a) && multiset(a) == multiset(b)
    ensures Distinct(b)
  {
    forall i, j | 0 <= i < j < |b|
      ensures b[i].name != b[j].name
    {
      assert b[i] in multiset(b) && b[j] in multiset(b);
      if b[i] == b[j] {
        assert b == b[..j] + b[j..];
        assert b[i] in b[..j] && b[j] in b[j..];
        OnceEach(a, b[i]);
      }
    }
  }

  /** Whatever order the merge requests come in, the evidence is the same. */
  lemma EveryOrderSameEvidence(a: seq<MR>, b: seq<MR>)
    requires Distinct(a) && multiset(a) == multiset(b)
    ensures Summary(a) == Summary(b)
  {
    PermutedDistinct(a, b);
    CollectDistinct(a);
    CollectDistinct(b);
    forall m
      ensures m in a <==> m in b
    {
      assert m in a <==> m in multiset(a);
      assert m in b <==> m in multiset(b);
    }
    SameLiveSameEvidence(a, b);
  }

  lemma {:induction false} CollectAppend(a: seq<MR>, b: seq<MR>)
    ensures Collect(a + b) == Collect(a) + Collect(b)
  {
    if b == [] {
      assert a + b == a;
    } else {
      assert (a + b)[..|a + b| - 1] == a + b[..|b| - 1];
      CollectAppend(a, b[..|b| - 1]);
    }
  }

  /** A human's, merged or closed merge request changes nothing, wherever it stands. */
  lemma OthersIgnored(a: seq<MR>, m: MR, b: seq<MR>)
    requires !Live(m)
    ensures Summary(a + [m] + b) == Summary(a + b)
  {
    CollectAppend(a + [m], b);
    CollectAppend(a, [m]);
    CollectAppend(a, b);
    assert [m][..0] == [] && Collect([m]) == [];
    assert Collect(a) + [] == Collect(a);
  }

  predicate SomeLive(mrs: seq<MR>) {
    exists m :: m in mrs && Live(m)
  }

  predicate HeadsKnown(mrs: seq<MR>) {
    forall m :: m in mrs && Live(m) ==> m.head != ""
  }

  /** What the verdict says of the merge requests as they came: nothing without a live
      one or with an unknown head, red exactly when a live one is red, green exactly
      when every live one is. */
  lemma VerdictMeans(mrs: seq<MR>)
    ensures Summary(mrs).ci == Absent <==> !(SomeLive(mrs) && HeadsKnown(mrs))
    ensures Summary(mrs).ci == SaysRed <==>
            SomeLive(mrs) && HeadsKnown(mrs) && exists m :: m in mrs && Live(m) && m.ci == Red
    ensures Summary(mrs).ci == SaysGreen <==>
            SomeLive(mrs) && HeadsKnown(mrs) && forall m :: m in mrs && Live(m) ==> m.ci == Green
    ensures Summary(mrs).ci == Absent ==> Summary(mrs) == NOTHING
  {
    var s := Sort(Collect(mrs));
    SortMembers(Collect(mrs));
    assert s != [] <==> SomeLive(mrs) by {
      if s != [] {
        assert s[0] in s;
      }
    }
    assert AllHeads(s, |s|) <==> HeadsKnown(mrs);
    RedMember(s);
  }

  lemma RedMember(s: seq<MR>)
    ensures AnyRed(s, |s|) <==> exists m :: m in s && m.ci == Red
    ensures AllGreen(s, |s|) <==> forall m :: m in s ==> m.ci == Green
  {
    if AnyRed(s, |s|) {
      var i :| 0 <= i < |s| && s[i].ci == Red;
      assert s[i] in s;
    }
  }

  // ---------- what the fingerprint identifies ----------

  /** The mark behind a name is not in it, nor the one behind a head. */
  predicate Plain(m: MR) {
    '@' !in m.name && ',' !in m.head
  }

  predicate AllPlain(s: seq<MR>) {
    forall i :: 0 <= i < |s| ==> Plain(s[i])
  }

  lemma NothingBefore(c: char, x: string, b: string, y: string)
    requires c !in b && (x != [] ==> x[0] == c) && x == b + y
    ensures b == []
  {
    assert forall i :: 0 <= i < |b| ==> (b + y)[i] == b[i];
  }

  /** Text without the mark splits in one way at the first mark, or at its end. */
  lemma {:induction false} SplitsOnce(c: char, a: string, x: string, b: string, y: string)
    requires c !in a && c !in b && (x != [] ==> x[0] == c) && (y != [] ==> y[0] == c)
    requires a + x == b + y
    ensures a == b && x == y
  {
    if a == [] || b == [] {
      assert [] + x == x && [] + y == y;
      assert a + [] == a && b + [] == b;
      if a == [] {
        NothingBefore(c, x, b, y);
      } else {
        NothingBefore(c, y, a, x);
      }
    } else {
      assert a[0] == (a + x)[0] == (b + y)[0] == b[0];
      assert (a + x)[1..] == a[1..] + x && (b + y)[1..] == b[1..] + y;
      SplitsOnce(c, a[1..], x, b[1..], y);
      assert a == [a[0]] + a[1..] && b == [b[0]] + b[1..];
    }
  }

  function Print(s: seq<MR>): string
    decreases |s|, 0
  {
    if s == [] then "" else s[0].name + ("@" + (s[0].head + Rest(s[1..])))
  }

  function Rest(s: seq<MR>): string
    decreases |s|, 1
  {
    if s == [] then "" else "," + Print(s)
  }

  predicate SameCode(s: seq<MR>, t: seq<MR>) {
    |s| == |t| && forall i :: 0 <= i < |s| ==> s[i].name == t[i].name && s[i].head == t[i].head
  }

  lemma {:induction false} PrintIdentifies(s: seq<MR>, t: seq<MR>)
    requires AllPlain(s) && AllPlain(t) && Print(s) == Print(t)
    ensures SameCode(s, t)
    decreases |s|, 0
  {
    if s != [] && t != [] {
      var x, y := s[0].head + Rest(s[1..]), t[0].head + Rest(t[1..]);
      SplitsOnce('@', s[0].name, "@" + x, t[0].name, "@" + y);
      assert ("@" + x)[1..] == x && ("@" + y)[1..] == y;
      SplitsOnce(',', s[0].head, Rest(s[1..]), t[0].head, Rest(t[1..]));
      RestIdentifies(s[1..], t[1..]);
      forall i | 0 <= i < |s|
        ensures s[i].name == t[i].name && s[i].head == t[i].head
      {
        if i > 0 {
          assert s[i] == s[1..][i - 1] && t[i] == t[1..][i - 1];
        }
      }
    } else {
      assert s != [] ==> '@' in Print(s) by { PrintHasAt(s); }
      assert t != [] ==> '@' in Print(t) by { PrintHasAt(t); }
    }
  }

  lemma RestIdentifies(s: seq<MR>, t: seq<MR>)
    requires AllPlain(s) && AllPlain(t) && Rest(s) == Rest(t)
    ensures SameCode(s, t)
    decreases |s|, 1
  {
    if s != [] && t != [] {
      assert Rest(s)[1..] == Print(s) && Rest(t)[1..] == Print(t);
      PrintIdentifies(s, t);
    }
  }

  lemma PrintHasAt(s: seq<MR>)
    ensures s != [] ==> '@' in Print(s)
  {
    if s != [] {
      assert Print(s)[|s[0].name|] == '@';
    }
  }

  lemma {:induction false} JoinPrints(s: seq<MR>)
    ensures Join(Parts(s)) == Print(s)
  {
    if s != [] {
      var ps := Parts(s);
      assert ps[1..] == Parts(s[1..]);
      JoinPrints(s[1..]);
      var n, h, r := s[0].name, s[0].head, Rest(s[1..]);
      assert (n + "@" + h) + r == n + ("@" + (h + r));
    }
  }

  /** While no name holds the mark behind names and no head the one behind heads, as
      object names and commit hashes do not, and names are distinct, two non-empty
      fingerprints are equal exactly when the same merge requests stand at the same
      heads. */
  lemma FingerprintIdentifies(a: seq<MR>, b: seq<MR>)
    requires Summary(a).ci != Absent && Summary(b).ci != Absent
    requires AllPlain(Collect(a)) && AllPlain(Collect(b))
    requires Distinct(Collect(a)) && Distinct(Collect(b))
    ensures Summary(a).heads == Summary(b).heads <==> SameHeads(a, b)
  {
    var s, t := Sort(Collect(a)), Sort(Collect(b));
    JoinPrints(s);
    JoinPrints(t);
    SortPlain(Collect(a));
    SortPlain(Collect(b));
    if Print(s) == Print(t) {
      PrintIdentifies(s, t);
      SameCodeSameHeads(a, b);
    }
    if SameHeads(a, b) {
      SameHeadsSameCode(a, b);
      SameCodePrints(s, t);
    }
  }

  ghost predicate Holds(s: seq<MR>, name: string, head: string) {
    exists m :: m in s && m.name == name && m.head == head
  }

  ghost predicate At(s: seq<MR>, name: string, head: string) {
    exists m :: m in s && Live(m) && m.name == name && m.head == head
  }

  /** The same set of live (name, head) pairs. */
  ghost predicate SameHeads(a: seq<MR>, b: seq<MR>) {
    forall name, head :: At(a, name, head) <==> At(b, name, head)
  }

  lemma SortPlain(s: seq<MR>)
    requires AllPlain(s)
    ensures AllPlain(Sort(s))
  {
    forall i | 0 <= i < |Sort(s)|
      ensures Plain(Sort(s)[i])
    {
      assert Sort(s)[i] in multiset(Sort(s));
    }
  }

  /** The sorted list holds exactly the live pairs. */
  lemma SortedAt(a: seq<MR>, name: string, head: string)
    ensures At(a, name, head) <==> Holds(Sort(Collect(a)), name, head)
  {
    SortMembers(Collect(a));
  }

  lemma SameCodeHolds(s: seq<MR>, t: seq<MR>, name: string, head: string)
    requires SameCode(s, t) && Holds(s, name, head)
    ensures Holds(t, name, head)
  {
    var m :| m in s && m.name == name && m.head == head;
    var i :| 0 <= i < |s| && s[i] == m;
    assert t[i] in t;
  }

  lemma SameCodeSameHeads(a: seq<MR>, b: seq<MR>)
    requires SameCode(Sort(Collect(a)), Sort(Collect(b)))
    ensures SameHeads(a, b)
  {
    var s, t := Sort(Collect(a)), Sort(Collect(b));
    forall name, head
      ensures At(a, name, head) <==> At(b, name, head)
    {
      SortedAt(a, name, head);
      SortedAt(b, name, head);
      if Holds(s, name, head) {
        SameCodeHolds(s, t, name, head);
      }
      if Holds(t, name, head) {
        SameCodeHolds(t, s, name, head);
      }
    }
  }

  lemma {:induction false} SameCodePrints(s: seq<MR>, t: seq<MR>)
    requires SameCode(s, t)
    ensures Print(s) == Print(t)
  {
    if s != [] {
      SameCodePrints(s[1..], t[1..]);
    }
  }

  /** A merge request as far as the fingerprint tells it. */
  function Bare(m: MR): MR {
    m.(ownership := Tatara, state := Open, ci := Green)
  }

  function Bares(s: seq<MR>): (r: seq<MR>)
    ensures |r| == |s| && forall i :: 0 <= i < |s| ==> r[i] == Bare(s[i])
  {
    if s == [] then [] else Bares(s[..|s| - 1]) + [Bare(s[|s| - 1])]
  }

  lemma SameHeadsSameCode(a: seq<MR>, b: seq<MR>)
    requires SameHeads(a, b) && Distinct(Collect(a)) && Distinct(Collect(b))
    ensures SameCode(Sort(Collect(a)), Sort(Collect(b)))
  {
    var s, t := Bares(Sort(Collect(a))), Bares(Sort(Collect(b)));
    SortStrict(Collect(a));
    SortStrict(Collect(b));
    forall m
      ensures m in s <==> m in t
    {
      SortedAt(a, m.name, m.head);
      SortedAt(b, m.name, m.head);
      BaresAt(Sort(Collect(a)), m);
      BaresAt(Sort(Collect(b)), m);
      assert At(a, m.name, m.head) <==> At(b, m.name, m.head);
    }
    SameOrder(s, t);
  }

  lemma BaresAt(s: seq<MR>, m: MR)
    ensures m in Bares(s) <==> m == Bare(m) && Holds(s, m.name, m.head)
  {
    if m in Bares(s) {
      var i :| 0 <= i < |s| && Bares(s)[i] == m;
      assert m == Bare(s[i]) && s[i] in s;
    }
    if m == Bare(m) && Holds(s, m.name, m.head) {
      var x :| x in s && x.name == m.name && x.head == m.head;
      var i :| 0 <= i < |s| && s[i] == x;
      assert Bares(s)[i] == m;
    }
  }

  lemma OneLive(p: MR)
    requires Live(p)
    ensures Collect([p]) == [p] && Sort([p]) == [p]
  {
    assert [p][..0] == [];
  }

  lemma OnePrint(p: MR)
    ensures Print([p]) == p.name + ("@" + p.head)
  {
    assert [p][1..] == [];
    assert p.head + "" == p.head;
  }

  lemma TwoLive(p: MR, q: MR)
    requires Live(p) && Live(q)
    ensures Collect([p, q]) == [p, q]
  {
    OneLive(p);
    assert [p, q][..1] == [p];
  }

  lemma TwoSorted(p: MR, q: MR)
    requires Live(p) && !Less(q.name, p.name)
    ensures Sort([p, q]) == [p, q]
  {
    OneLive(p);
    assert [p, q][..1] == [p];
    assert Insert([p], q) == [p] + [q];
  }

  lemma TwoPrint(p: MR, q: MR)
    ensures Print([p, q]) == p.name + ("@" + (p.head + ("," + (q.name + ("@" + q.head)))))
  {
    OnePrint(q);
    assert [p, q][1..] == [q];
  }

  lemma SummaryOf(mrs: seq<MR>, s: seq<MR>)
    requires Sort(Collect(mrs)) == s && s != [] && AllHeads(s, |s|) && AllGreen(s, |s|)
    ensures Summary(mrs) == Evidence(SaysGreen, Print(s))
  {
    JoinPrints(s);
  }

  predicate Shippable(m: MR) {
    Live(m) && m.ci == Green && m.head != ""
  }

  lemma OneSummary(m: MR)
    requires Shippable(m)
    ensures Summary([m]) == Evidence(SaysGreen, m.name + ("@" + m.head))
  {
    OneLive(m);
    OnePrint(m);
    SummaryOf([m], [m]);
  }

  lemma TwoSummary(p: MR, q: MR)
    requires Shippable(p) && Shippable(q) && !Less(q.name, p.name)
    ensures Summary([p, q]) == Evidence(SaysGreen, p.name + ("@" + (p.head + ("," + (q.name + ("@" + q.head))))))
  {
    TwoLive(p, q);
    TwoSorted(p, q);
    TwoPrint(p, q);
    SummaryOf([p, q], [p, q]);
  }

  /** Neither condition could go: a comma inside a head, which no forge produces, would
      let two different sets share a fingerprint. */
  lemma MarksCollide(n: string, k: string, x: string, y: string)
    requires !Less(k, n) && x != "" && y != ""
    ensures var p, q := MR(n, Tatara, Open, Green, x), MR(k, Tatara, Open, Green, y);
            var m := MR(n, Tatara, Open, Green, x + ("," + (k + ("@" + y))));
            Summary([m]).heads == Summary([p, q]).heads && Summary([m]).ci == Summary([p, q]).ci == SaysGreen
            && !SameHeads([m], [p, q])
  {
    var p, q := MR(n, Tatara, Open, Green, x), MR(k, Tatara, Open, Green, y);
    var m := MR(n, Tatara, Open, Green, x + ("," + (k + ("@" + y))));
    OneSummary(m);
    TwoSummary(p, q);
    LongerHead(p, q, m);
  }

  lemma LongerHead(p: MR, q: MR, m: MR)
    requires Live(m) && |m.head| > |p.head| && |m.head| > |q.head|
    ensures !SameHeads([m], [p, q])
  {
    assert m in [m] && At([m], m.name, m.head);
    assert !At([p, q], m.name, m.head);
  }

  /** And so would an @ inside a name. */
  lemma NameMarkCollides(n: string, k: string, x: string)
    requires x != "" && k != ""
    ensures var a := MR(n + ("@" + k), Tatara, Open, Green, x);
            var b := MR(n, Tatara, Open, Green, k + ("@" + x));
            Summary([a]) == Summary([b]) && Summary([a]).ci == SaysGreen && !SameHeads([a], [b])
  {
    var a := MR(n + ("@" + k), Tatara, Open, Green, x);
    var b := MR(n, Tatara, Open, Green, k + ("@" + x));
    OneSummary(a);
    OneSummary(b);
    Regroup(n, k, x);
    LongerHeadOne(a, b);
  }

  lemma Regroup(n: string, k: string, x: string)
    ensures (n + ("@" + k)) + ("@" + x) == n + ("@" + (k + ("@" + x)))
  {
  }

  lemma LongerHeadOne(p: MR, m: MR)
    requires Live(m) && |m.head| > |p.head|
    ensures !SameHeads([p], [m])
  {
    assert m in [m] && At([m], m.name, m.head);
    assert !At([p], m.name, m.head);
  }
}
