/** The text of the operator's own handoff notes, and the byte arithmetic that keeps
    them writable: a note the API server rejects as too long is an empty journal. */
module NoteText {
  import opened Wrappers
  import opened Utf8

  /** The Note.Body limit. */
  const MAX_NOTE := 4096

  /** The fixed pieces of the notes. */
  datatype Prose = Prose(
    comma: Bytes,
    space: Bytes,
    elideOpen: Bytes,
    elideClose: Bytes,
    warnHead: Bytes,
    warnBody: Bytes,
    dot: Bytes,
    ellipsis: Bytes,
    lost: Bytes,
    oomHead: Bytes,
    oomBody: Bytes,
    ttlStop: Bytes,
    lastText: Bytes,
    noText: Bytes,
    pushed: Bytes,
    noRepo: Bytes,
    noHandoff: Bytes,
    turn: Bytes)

  /** The sizes the byte arithmetic rests on, and where the warning starts and ends. */
  predicate Sized(p: Prose) {
    && |p.comma| == 2 && |p.space| == 1 && |p.elideOpen| == 2 && |p.elideClose| == 6
    && p.comma[0] == 0x2C && p.comma[1] == 0x20 && p.space[0] == 0x20
    && p.elideOpen[0] == 0x28 && p.elideOpen[1] == 0x2B && p.elideClose[0] == 0x20 && p.elideClose[1] == 0x6D
    && |p.warnHead| == 49 && p.warnHead[0] == 0x20 && p.warnHead[1] == 0x57
    && |p.warnBody| == 242 && p.warnBody[0] == 0x20
    && |p.dot| == 1 && p.dot[0] == 0x2E
    && |p.ellipsis| == 14 && |p.lost| == 361 && |p.oomHead| > 0 && |p.ttlStop| > 0 && |p.turn| == 21
  }

  /** The bytes of an ASCII literal. */
  function Ascii(s: string): (b: Bytes)
    ensures |b| == |s|
    ensures forall i :: 0 <= i < |s| && s[i] as int < 0x80 ==> b[i] as int == s[i] as int
  {
    seq(|s|, i requires 0 <= i < |s| => if s[i] as int < 0x80 then s[i] as int as byte else 0x3F)
  }

  const PROSE := Prose(
    Ascii(", "),
    Ascii(" "),
    Ascii("(+"),
    Ascii(" more)"),
    Ascii(" W") + Ascii("ARNING: the last turn's commit/push FAILED for "),
    Ascii(" r") + Ascii("epo(s). Those commits were only ever on the previous pod's workspace, which is gone"
          + " - unless the mid-turn safety pusher landed them after the turn-end failure."
          + " CHECK origin for the task branch in each, and redo only what is missing. Repos: "),
    Ascii("."),
    Ascii("...(truncated)"),
    Ascii("TTL stop. NO CONTINUATION STATE WAS CAPTURED: the agent did not answer the handoff turn "
          + "and the operator holds no final text and no pushed repos for the last turn. This note is a "
          + "PLACEHOLDER, not a handoff - the work done on the previous pod is not recorded anywhere. "
          + "Re-derive the state from the issue thread and the repos; do not read this note as continuity."),
    Ascii("PREVIOUS POD WAS OOMKILLED: the previous pod was killed at "),
    Ascii(" for exceeding its memory limit, so no agent handoff could be written. Its workspace was "
          + "ephemeral and died with it: any branch or commit named in an earlier note may never have "
          + "reached the remote. Verify every branch and commit against the remote before assuming the "
          + "prior work exists, and do not attempt to recover local state from the dead pod."),
    Ascii("TTL stop."),
    Ascii(" Last turn's final text: "),
    Ascii("(none)"),
    Ascii(". Repos pushed: "),
    Ascii("none"),
    Ascii(" No agent handoff was captured."),
    Ascii(" This describes turn "))

  lemma ProseSized()
    ensures Sized(PROSE)
  {
  }

  function Dec(n: nat): (b: Bytes)
    ensures |b| > 0
  {
    if n < 10 then [(0x30 + n) as byte] else Dec(n / 10) + [(0x30 + n % 10) as byte]
  }

  // ---------- white space, as strings.TrimSpace reads bytes ----------

  predicate SpaceBytes(s: Bytes) {
    || (|s| == 1 && (0x09 <= s[0] <= 0x0D || s[0] == 0x20))
    || (|s| == 2 && s[0] == 0xC2 && (s[1] == 0x85 || s[1] == 0xA0))
    || (|s| == 3 && s[0] == 0xE1 && s[1] == 0x9A && s[2] == 0x80)
    || (|s| == 3 && s[0] == 0xE2 && s[1] == 0x80
        && (0x80 <= s[2] <= 0x8A || s[2] == 0xA8 || s[2] == 0xA9 || s[2] == 0xAF))
    || (|s| == 3 && s[0] == 0xE2 && s[1] == 0x81 && s[2] == 0x9F)
    || (|s| == 3 && s[0] == 0xE3 && s[1] == 0x80 && s[2] == 0x80)
  }

  function TrimLeft(s: Bytes): Bytes {
    if |s| >= 1 && SpaceBytes(s[..1]) then TrimLeft(s[1..])
    else if |s| >= 2 && SpaceBytes(s[..2]) then TrimLeft(s[2..])
    else if |s| >= 3 && SpaceBytes(s[..3]) then TrimLeft(s[3..])
    else s
  }

  function TrimRight(s: Bytes): Bytes {
    if |s| >= 1 && SpaceBytes(s[|s| - 1..]) then TrimRight(s[..|s| - 1])
    else if |s| >= 2 && SpaceBytes(s[|s| - 2..]) then TrimRight(s[..|s| - 2])
    else if |s| >= 3 && SpaceBytes(s[|s| - 3..]) then TrimRight(s[..|s| - 3])
    else s
  }

  function TrimSpace(s: Bytes): Bytes {
    TrimRight(TrimLeft(s))
  }

  // ---------- the list of repositories ----------

  /** The first `k` names, separated by ", ". */
  function Joined(p: Prose, names: seq<Bytes>, k: nat): Bytes
    requires k <= |names|
  {
    if k == 0 then []
    else if k == 1 then names[0]
    else Joined(p, names, k - 1) + p.comma + names[k - 1]
  }

  /** How the list reports the names it leaves out. */
  function Elided(p: Prose, left: nat, first: bool): Bytes {
    (if first then [] else p.space) + p.elideOpen + Dec(left) + p.elideClose
  }

  /** The room kept back for that report while names remain. */
  function Reserve(p: Prose, n: nat): nat {
    |Elided(p, n, false)|
  }

  predicate NameFits(p: Prose, names: seq<Bytes>, i: nat, budget: int)
    requires i < |names|
  {
    |Joined(p, names, i + 1)| + (if i + 1 < |names| then Reserve(p, |names|) else 0) <= budget
  }

  /** How many names are printed: up to the first that does not fit. */
  function PrintedFrom(p: Prose, names: seq<Bytes>, budget: int, i: nat): (k: nat)
    requires i <= |names|
    ensures i <= k <= |names|
    ensures forall j :: i <= j < k ==> NameFits(p, names, j, budget)
    ensures k < |names| ==> !NameFits(p, names, k, budget)
    decreases |names| - i
  {
    if i == |names| || !NameFits(p, names, i, budget) then i else PrintedFrom(p, names, budget, i + 1)
  }

  function Printed(p: Prose, names: seq<Bytes>, budget: int): (k: nat)
    ensures k <= |names|
  {
    PrintedFrom(p, names, budget, 0)
  }

  /** The first `k` names whole, and the number of the others. */
  function PartialList(p: Prose, names: seq<Bytes>, k: nat): Bytes
    requires k <= |names|
  {
    Joined(p, names, k) + if k < |names| then Elided(p, |names| - k, k == 0) else []
  }

  function NameList(p: Prose, names: seq<Bytes>, budget: int): Bytes {
    PartialList(p, names, Printed(p, names, budget))
  }

  method JoinWithinBudget(p: Prose, names: seq<Bytes>, budget: int) returns (b: Bytes)
    ensures b == NameList(p, names, budget)
  {
    var reserve := |p.space + p.elideOpen + Dec(|names|) + p.elideClose|;
    assert reserve == Reserve(p, |names|);
    b := [];
    for i := 0 to |names|
      invariant b == Joined(p, names, i)
      invariant Printed(p, names, budget) == PrintedFrom(p, names, budget, i)
    {
      var sep := if i > 0 then p.comma else [];
      JoinedStep(p, names, i);
      var need := |b| + |sep| + |names[i]|;
      if i < |names| - 1 {
        need := need + reserve;
      }
      if need > budget {
        return b + Elided(p, |names| - i, i == 0);
      }
      b := b + sep + names[i];
    }
  }

  lemma JoinedStep(p: Prose, names: seq<Bytes>, i: nat)
    requires i < |names|
    ensures Joined(p, names, i + 1) == Joined(p, names, i) + (if i > 0 then p.comma else []) + names[i]
  {
    if i == 0 {
      assert [] + [] + names[0] == names[0];
    }
  }

  lemma {:induction false} JoinedGrows(p: Prose, names: seq<Bytes>, j: nat, k: nat)
    requires j <= k <= |names|
    ensures |Joined(p, names, j)| <= |Joined(p, names, k)|
  {
    if j < k {
      JoinedGrows(p, names, j, k - 1);
    }
  }

  /** The whole list is printed exactly when it fits and so does all of it but the
      last name with the report behind it; a list that would just fit can still be cut. */
  lemma AllPrintedIff(p: Prose, names: seq<Bytes>, budget: int)
    requires names != []
    ensures Printed(p, names, budget) == |names| <==>
            |Joined(p, names, |names|)| <= budget
            && (|names| > 1 ==> |Joined(p, names, |names| - 1)| + Reserve(p, |names|) <= budget)
  {
    var n := |names|;
    var k := Printed(p, names, budget);
    if k == n {
      assert NameFits(p, names, n - 1, budget);
      if n > 1 {
        assert NameFits(p, names, n - 2, budget);
      }
    } else if k < n - 1 {
      assert !NameFits(p, names, k, budget);
      JoinedGrows(p, names, k + 1, n - 1);
    }
  }

  function Pow10(k: nat): nat {
    if k == 0 then 1 else 10 * Pow10(k - 1)
  }

  lemma {:induction false} DecLength(n: nat, k: nat)
    requires 0 < k && n < Pow10(k)
    ensures |Dec(n)| <= k
  {
    if n >= 10 {
      assert k > 1;
      DecLength(n / 10, k - 1);
    }
  }

  lemma {:induction false} DecGrows(m: nat, n: nat)
    requires m <= n
    ensures |Dec(m)| <= |Dec(n)|
  {
    if m >= 10 {
      DecGrows(m / 10, n / 10);
    }
  }

  /** A Go slice length: below 2 to the 63rd, so at most 19 digits. */
  predicate GoLen(n: nat) {
    n < 0x8000_0000_0000_0000
  }

  lemma GoLenDigits(n: nat)
    requires GoLen(n)
    ensures |Dec(n)| <= 19
  {
    assert Pow10(5) == 100_000;
    assert Pow10(10) == 10_000_000_000;
    assert Pow10(15) == 1_000_000_000_000_000;
    assert Pow10(19) == 10_000_000_000_000_000_000;
    DecLength(n, 19);
  }

  /** The list stays within its budget as soon as the budget holds a bare report. */
  lemma NameListFits(p: Prose, names: seq<Bytes>, budget: int)
    requires |p.space| == 1
    requires names == [] ==> budget >= 0
    requires names != [] ==> Reserve(p, |names|) - 1 <= budget
    ensures |NameList(p, names, budget)| <= budget
  {
    var k := Printed(p, names, budget);
    if k < |names| {
      DecGrows(|names| - k, |names|);
      if k > 0 {
        assert NameFits(p, names, k - 1, budget);
      }
    } else if k > 0 {
      assert NameFits(p, names, k - 1, budget);
    }
  }

  // ---------- the warning about failed pushes ----------

  /** Everything of the sentence but the names. */
  function WarnHead(p: Prose, n: nat): Bytes {
    p.warnHead + Dec(n) + p.warnBody
  }

  /** What the fixed prose leaves for the names. */
  function NameRoom(p: Prose, n: nat, budget: int): int {
    budget - |WarnHead(p, n)| - |p.dot|
  }

  function FailedReposSentence(p: Prose, failed: seq<Bytes>, budget: int): Bytes {
    if failed == [] then []
    else WarnHead(p, |failed|) + NameList(p, failed, NameRoom(p, |failed|, budget)) + p.dot
  }

  lemma WarnHeadLength(p: Prose, n: nat)
    requires Sized(p)
    requires GoLen(n)
    ensures |WarnHead(p, n)| <= 350
  {
    GoLenDigits(n);
  }

  lemma {:induction false} JoinedSize(p: Prose, names: seq<Bytes>, k: nat)
    requires Sized(p) && 0 < k <= |names| && forall i :: 0 <= i < k ==> |names[i]| == 18
    ensures |Joined(p, names, k)| == 20 * k - 2
  {
    if k > 1 {
      JoinedSize(p, names, k - 1);
    }
  }

  /** Thirty-seven repositories, thirty-five with names of eighteen bytes, one of twenty
      and one of eight: in the operator's own note their list would just fit, and is cut. */
  lemma FittingListCut(p: Prose, names: seq<Bytes>)
    requires Sized(p) && |names| == 37 && |names[35]| == 20 && |names[36]| == 8
    requires forall i :: 0 <= i < 35 ==> |names[i]| == 18
    ensures var room := NameRoom(p, 37, MAX_NOTE / 4);
            |Joined(p, names, 37)| == room && Printed(p, names, room) < 37
  {
    JoinedSize(p, names, 35);
    JoinedStep(p, names, 35);
    JoinedStep(p, names, 36);
    assert |Dec(37)| == 2 by { assert Dec(37) == Dec(3) + [0x37]; }
    AllPrintedIff(p, names, NameRoom(p, 37, MAX_NOTE / 4));
  }

  /** At both call sites, where the budget is at least a quarter of a note, the
      sentence keeps to its budget, prose included. */
  lemma SentenceFits(p: Prose, failed: seq<Bytes>, budget: int)
    requires Sized(p)
    requires GoLen(|failed|) && budget >= MAX_NOTE / 4
    ensures |FailedReposSentence(p, failed, budget)| <= budget
  {
    if failed != [] {
      WarnHeadLength(p, |failed|);
      ReserveSmall(p, |failed|);
      NameListFits(p, failed, NameRoom(p, |failed|, budget));
    }
  }

  lemma ReserveSmall(p: Prose, n: nat)
    requires Sized(p) && GoLen(n)
    ensures Reserve(p, n) <= 28
  {
    GoLenDigits(n);
  }

  // ---------- reading the warning back ----------

  /** The bytes that end a name or a number in the warning. */
  predicate Delim(b: byte) {
    b == 0x2C || b == 0x20
  }

  predicate Unbroken(s: Bytes) {
    forall i :: 0 <= i < |s| ==> !Delim(s[i])
  }

  /** Names without a comma or a space, as repository names are. */
  predicate Readable(names: seq<Bytes>) {
    forall i :: 0 <= i < |names| ==> Unbroken(names[i])
  }

  lemma NothingBefore(x: Bytes, b: Bytes, y: Bytes)
    requires Unbroken(b) && (x != [] ==> Delim(x[0])) && x == b + y
    ensures b == []
  {
    assert forall i :: 0 <= i < |b| ==> (b + y)[i] == b[i];
  }

  lemma {:induction false} SplitsOnce(a: Bytes, x: Bytes, b: Bytes, y: Bytes)
    requires Unbroken(a) && Unbroken(b) && (x != [] ==> Delim(x[0])) && (y != [] ==> Delim(y[0]))
    requires a + x == b + y
    ensures a == b && x == y
  {
    if a == [] || b == [] {
      assert a == [] ==> a + x == x;
      assert b == [] ==> b + y == y;
      if a == [] {
        NothingBefore(x, b, y);
      } else {
        NothingBefore(y, a, x);
      }
    } else {
      assert a[0] == (a + x)[0] == (b + y)[0] == b[0];
      assert (a + x)[1..] == a[1..] + x && (b + y)[1..] == b[1..] + y;
      SplitsOnce(a[1..], x, b[1..], y);
      assert a == [a[0]] + a[1..] && b == [b[0]] + b[1..];
    }
  }

  lemma {:induction false} DecUnbroken(n: nat)
    ensures Unbroken(Dec(n))
  {
    if n >= 10 {
      DecUnbroken(n / 10);
    }
  }

  lemma {:induction false} DecInjective(m: nat, n: nat)
    requires Dec(m) == Dec(n)
    ensures m == n
  {
    assert Dec(m)[|Dec(m)| - 1] as int == 0x30 + m % 10;
    assert Dec(n)[|Dec(n)| - 1] as int == 0x30 + n % 10;
    if m >= 10 && n >= 10 {
      assert Dec(m)[..|Dec(m)| - 1] == Dec(m / 10);
      assert Dec(n)[..|Dec(n)| - 1] == Dec(n / 10);
      DecInjective(m / 10, n / 10);
    }
  }

  /** What follows the name before position i, up to the first k names. */
  function Behind(p: Prose, names: seq<Bytes>, i: nat, k: nat): Bytes
    requires i <= k <= |names|
    decreases k - i
  {
    if i == k then [] else p.comma + (names[i] + Behind(p, names, i + 1, k))
  }

  lemma {:induction false} BehindSnoc(p: Prose, names: seq<Bytes>, i: nat, k: nat)
    requires i < k <= |names|
    ensures Behind(p, names, i, k) == Behind(p, names, i, k - 1) + (p.comma + names[k - 1])
    decreases k - i
  {
    if i < k - 1 {
      BehindSnoc(p, names, i + 1, k);
      var last := p.comma + names[k - 1];
      assert p.comma + (names[i] + (Behind(p, names, i + 1, k - 1) + last)) == (p.comma + (names[i] + Behind(p, names, i + 1, k - 1))) + last;
    } else {
      assert names[i] + [] == names[i];
    }
  }

  lemma {:induction false} JoinedFront(p: Prose, names: seq<Bytes>, k: nat)
    requires 1 <= k <= |names|
    ensures Joined(p, names, k) == names[0] + Behind(p, names, 1, k)
  {
    if k > 1 {
      JoinedFront(p, names, k - 1);
      BehindSnoc(p, names, 1, k);
      var last := p.comma + names[k - 1];
      assert Joined(p, names, k - 1) + p.comma + names[k - 1] == Joined(p, names, k - 1) + last;
      assert (names[0] + Behind(p, names, 1, k - 1)) + last == names[0] + (Behind(p, names, 1, k - 1) + last);
    } else {
      assert names[0] + [] == names[0];
    }
  }

  /** The rest of a list cut after k names, from behind the name before position i. */
  function ListTail(p: Prose, names: seq<Bytes>, i: nat, k: nat): Bytes
    requires i <= k <= |names|
  {
    Behind(p, names, i, k) + if k < |names| then Elided(p, |names| - k, false) else []
  }

  lemma PartialFront(p: Prose, names: seq<Bytes>, k: nat)
    requires 1 <= k <= |names|
    ensures PartialList(p, names, k) == names[0] + ListTail(p, names, 1, k)
  {
    JoinedFront(p, names, k);
    var e: Bytes := if k < |names| then Elided(p, |names| - k, false) else [];
    assert (names[0] + Behind(p, names, 1, k)) + e == names[0] + (Behind(p, names, 1, k) + e);
  }

  lemma TailStep(p: Prose, names: seq<Bytes>, i: nat, k: nat)
    requires i < k <= |names|
    ensures ListTail(p, names, i, k) == p.comma + (names[i] + ListTail(p, names, i + 1, k))
  {
    var e: Bytes := if k < |names| then Elided(p, |names| - k, false) else [];
    assert (p.comma + (names[i] + Behind(p, names, i + 1, k))) + e == p.comma + (names[i] + (Behind(p, names, i + 1, k) + e));
  }

  /** A comma means another name, a space the report of the rest. */
  lemma TailHead(p: Prose, names: seq<Bytes>, i: nat, k: nat)
    requires Sized(p) && i <= k <= |names|
    ensures var t := ListTail(p, names, i, k);
            && (t != [] ==> Delim(t[0]))
            && (i < k <==> t != [] && t[0] == 0x2C)
            && (t != [] && t[0] == 0x20 ==> |t| > 1 && t[1] == 0x28)
  {
    if i < k {
      TailStep(p, names, i, k);
    } else if k < |names| {
      assert ListTail(p, names, i, k) == Elided(p, |names| - k, false);
    }
  }

  lemma {:induction false} TailsRead(p: Prose, f: seq<Bytes>, g: seq<Bytes>, i: nat, k: nat, l: nat)
    requires Sized(p) && Readable(f) && Readable(g) && |f| == |g|
    requires i <= k <= |f| && i <= l <= |g|
    requires ListTail(p, f, i, k) == ListTail(p, g, i, l)
    ensures k == l && f[i..k] == g[i..k]
    decreases |f| - i
  {
    TailHead(p, f, i, k);
    TailHead(p, g, i, l);
    if i < k {
      TailStep(p, f, i, k);
      TailStep(p, g, i, l);
      TailHead(p, f, i + 1, k);
      TailHead(p, g, i + 1, l);
      Stripped(p.comma, f[i] + ListTail(p, f, i + 1, k), g[i] + ListTail(p, g, i + 1, l));
      SplitsOnce(f[i], ListTail(p, f, i + 1, k), g[i], ListTail(p, g, i + 1, l));
      TailsRead(p, f, g, i + 1, k, l);
      assert f[i..k] == [f[i]] + f[i + 1..k] && g[i..k] == [g[i]] + g[i + 1..k];
    }
  }

  lemma Stripped(head: Bytes, x: Bytes, y: Bytes)
    requires head + x == head + y
    ensures x == y
  {
    assert (head + x)[|head|..] == x && (head + y)[|head|..] == y;
  }

  /** A list of no names at all is not the beginning of any other. */
  lemma BareDiffers(p: Prose, f: seq<Bytes>, g: seq<Bytes>, l: nat)
    requires Sized(p) && Readable(g) && f != [] && 1 <= l <= |g|
    ensures PartialList(p, f, 0) != PartialList(p, g, l)
  {
    var t := ListTail(p, g, 1, l);
    TailHead(p, g, 1, l);
    PartialFront(p, g, l);
    BareReport(p, |f|, g[0], t);
    BareList(p, f);
  }

  lemma BareReport(p: Prose, n: nat, name: Bytes, t: Bytes)
    requires Sized(p) && Unbroken(name)
    requires t != [] ==> Delim(t[0]) && (t[0] == 0x20 ==> |t| > 1 && t[1] == 0x28)
    ensures (p.elideOpen + Dec(n)) + p.elideClose != name + t
  {
    DecUnbroken(n);
    BareTail((p.elideOpen + Dec(n)) + p.elideClose, name + t, p.elideOpen + Dec(n), p.elideClose, name, t);
  }

  lemma BareList(p: Prose, f: seq<Bytes>)
    requires f != []
    ensures PartialList(p, f, 0) == (p.elideOpen + Dec(|f|)) + p.elideClose
  {
    EmptyFirst(p.elideOpen, Dec(|f|), p.elideClose);
  }

  lemma EmptyFirst(o: Bytes, d: Bytes, c: Bytes)
    ensures [] + ([] + o + d + c) == (o + d) + c
  {
    assert [] + o == o;
    var x := o + d + c;
    assert [] + x == x;
  }

  lemma BareTail(x: Bytes, y: Bytes, a: Bytes, close: Bytes, name: Bytes, t: Bytes)
    requires x == a + close && y == name + t
    requires Unbroken(a) && Unbroken(name) && |close| > 1 && close[0] == 0x20 && close[1] == 0x6D
    requires t != [] ==> Delim(t[0]) && (t[0] == 0x20 ==> |t| > 1 && t[1] == 0x28)
    ensures x != y
  {
    assert t != close;
    if x == y {
      SplitsOnce(a, close, name, t);
    }
  }

  /** Two lists of one length that print alike were cut at the same name and print the
      same names. */
  lemma PartialReads(p: Prose, f: seq<Bytes>, g: seq<Bytes>, k: nat, l: nat)
    requires Sized(p) && Readable(f) && Readable(g) && |f| == |g| && f != []
    requires k <= |f| && l <= |g| && PartialList(p, f, k) == PartialList(p, g, l)
    ensures k == l && f[..k] == g[..k]
  {
    if k == 0 && l > 0 {
      BareDiffers(p, f, g, l);
    } else if k > 0 && l == 0 {
      BareDiffers(p, g, f, k);
    } else if k > 0 {
      PartialFront(p, f, k);
      PartialFront(p, g, l);
      TailHead(p, f, 1, k);
      TailHead(p, g, 1, l);
      SplitsOnce(f[0], ListTail(p, f, 1, k), g[0], ListTail(p, g, 1, l));
      TailsRead(p, f, g, 1, k, l);
      assert f[..k] == [f[0]] + f[1..k] && g[..k] == [g[0]] + g[1..k];
    }
  }

  /** The number of names the warning prints. */
  function Named(p: Prose, failed: seq<Bytes>, budget: int): (k: nat)
    ensures k <= |failed|
  {
    Printed(p, failed, NameRoom(p, |failed|, budget))
  }

  lemma SentenceParts(p: Prose, failed: seq<Bytes>, budget: int)
    requires failed != []
    ensures FailedReposSentence(p, failed, budget) ==
            p.warnHead + (Dec(|failed|) + (p.warnBody + (PartialList(p, failed, Named(p, failed, budget)) + p.dot)))
  {
    Nested(p.warnHead, Dec(|failed|), p.warnBody, PartialList(p, failed, Named(p, failed, budget)), p.dot);
  }

  lemma Nested(h: Bytes, d: Bytes, b: Bytes, l: Bytes, o: Bytes)
    ensures ((h + d + b) + l) + o == h + (d + (b + (l + o)))
  {
  }

  lemma DotStripped(p: Prose, x: Bytes, y: Bytes)
    requires x + p.dot == y + p.dot
    ensures x == y
  {
    assert (x + p.dot)[..|x|] == x && (y + p.dot)[..|y|] == y;
  }

  /** The warning is a complete account of the failed pushes, whatever it left out: the
      same warning, under any two budgets, means the same number of repositories, the
      same complete names printed, from the front, and so the same number left out. */
  lemma WarningReadsBack(p: Prose, f: seq<Bytes>, g: seq<Bytes>, b: int, c: int)
    requires Sized(p) && Readable(f) && Readable(g) && f != [] && g != []
    requires FailedReposSentence(p, f, b) == FailedReposSentence(p, g, c)
    ensures |f| == |g|
    ensures Named(p, f, b) == Named(p, g, c)
    ensures f[..Named(p, f, b)] == g[..Named(p, g, c)]
  {
    var k, l := Named(p, f, b), Named(p, g, c);
    var x, y := PartialList(p, f, k), PartialList(p, g, l);
    SentenceParts(p, f, b);
    SentenceParts(p, g, c);
    Stripped(p.warnHead, Dec(|f|) + (p.warnBody + (x + p.dot)), Dec(|g|) + (p.warnBody + (y + p.dot)));
    DecUnbroken(|f|);
    DecUnbroken(|g|);
    SplitsOnce(Dec(|f|), p.warnBody + (x + p.dot), Dec(|g|), p.warnBody + (y + p.dot));
    DecInjective(|f|, |g|);
    Stripped(p.warnBody, x + p.dot, y + p.dot);
    DotStripped(p, x, y);
    PartialReads(p, f, g, k, l);
  }

  /** In the warning about one list the printed names and the number left out account
      for all of it in one way only: no other cut, printed the same way, reads alike, and
      the number behind the names is the total less the names. */
  lemma SentenceAccountsForAll(p: Prose, failed: seq<Bytes>, budget: int, k: nat)
    requires Sized(p) && Readable(failed) && failed != [] && k <= |failed|
    ensures FailedReposSentence(p, failed, budget) == WarnHead(p, |failed|) + PartialList(p, failed, k) + p.dot
            <==> k == Named(p, failed, budget)
    ensures forall left: nat :: Dec(left) == Dec(|failed| - k) ==> left + k == |failed|
  {
    var l := Named(p, failed, budget);
    var w := WarnHead(p, |failed|);
    assert FailedReposSentence(p, failed, budget) == w + PartialList(p, failed, l) + p.dot;
    if k != l {
      if PartialList(p, failed, k) == PartialList(p, failed, l) {
        PartialReads(p, failed, failed, k, l);
      }
      HeadCancels(w, PartialList(p, failed, k), PartialList(p, failed, l));
      DotCancels(p, w + PartialList(p, failed, k), w + PartialList(p, failed, l));
    }
    forall left: nat | Dec(left) == Dec(|failed| - k)
      ensures left + k == |failed|
    {
      DecInjective(left, |failed| - k);
    }
  }

  lemma DotCancels(p: Prose, x: Bytes, y: Bytes)
    requires x != y
    ensures x + p.dot != y + p.dot
  {
    if x + p.dot == y + p.dot {
      DotStripped(p, x, y);
    }
  }

  // ---------- the synthetic handoff note ----------

  function TruncateNoteBodyTo(p: Prose, s: Bytes, budget: int): Bytes {
    if |s| <= budget then s
    else if budget <= |p.ellipsis| then Truncate(s, if budget < 0 then 0 else budget)
    else Truncate(s, budget - |p.ellipsis|) + p.ellipsis
  }

  lemma TruncateNoteFits(p: Prose, s: Bytes, budget: nat)
    ensures |TruncateNoteBodyTo(p, s, budget)| <= budget
  {
    if |s| > budget {
      TruncateLongest(s, budget);
      if budget > |p.ellipsis| {
        TruncateLongest(s, budget - |p.ellipsis|);
      }
    }
  }

  /** `at` is the kill instant in RFC 3339 form. */
  function OomBody(p: Prose, at: Bytes): Bytes {
    p.oomHead + at + p.oomBody
  }

  /** Neither text nor any repository, pushed or failed. */
  predicate ContentFree(finalText: Bytes, pushed: seq<Bytes>, failed: seq<Bytes>) {
    TrimSpace(finalText) == [] && pushed == [] && failed == []
  }

  function Account(p: Prose, finalText: Bytes, pushed: seq<Bytes>): Bytes {
    var text := TrimSpace(finalText);
    p.lastText + (if text == [] then p.noText else text)
    + p.pushed + (if pushed == [] then p.noRepo else Joined(p, pushed, |pushed|)) + p.dot
  }

  /** The note before the warning is added. */
  function SyntheticBody(p: Prose, finalText: Bytes, pushed: seq<Bytes>, failed: seq<Bytes>, oom: Option<Bytes>): Bytes {
    if oom.Some? then OomBody(p, oom.value) + Account(p, finalText, pushed)
    else if ContentFree(finalText, pushed, failed) then p.lost
    else p.ttlStop + Account(p, finalText, pushed) + p.noHandoff
  }

  function SyntheticNote(p: Prose, finalText: Bytes, pushed: seq<Bytes>, failed: seq<Bytes>, oom: Option<Bytes>): Bytes {
    var warning := FailedReposSentence(p, failed, MAX_NOTE / 4);
    TruncateNoteBodyTo(p, SyntheticBody(p, finalText, pushed, failed, oom), MAX_NOTE - |warning|) + warning
  }

  /** For every final text and repo list the synthetic note is writable, ends in the
      whole warning, and leaves its body three quarters of the note or more. */
  lemma SyntheticNoteFits(p: Prose, finalText: Bytes, pushed: seq<Bytes>, failed: seq<Bytes>, oom: Option<Bytes>)
    requires Sized(p)
    requires GoLen(|failed|)
    ensures var note := SyntheticNote(p, finalText, pushed, failed, oom);
            var warning := FailedReposSentence(p, failed, MAX_NOTE / 4);
            var body := SyntheticBody(p, finalText, pushed, failed, oom);
            && 0 < |note| <= MAX_NOTE
            && |warning| <= |note| && note[|note| - |warning|..] == warning
            && (|body| <= 3 * MAX_NOTE / 4 ==> note == body + warning)
  {
    var warning := FailedReposSentence(p, failed, MAX_NOTE / 4);
    var body := SyntheticBody(p, finalText, pushed, failed, oom);
    SentenceFits(p, failed, MAX_NOTE / 4);
    TruncateNoteFits(p, body, MAX_NOTE - |warning|);
    BodyNotEmpty(p, finalText, pushed, failed, oom);
  }

  lemma BodyNotEmpty(p: Prose, finalText: Bytes, pushed: seq<Bytes>, failed: seq<Bytes>, oom: Option<Bytes>)
    requires Sized(p)
    ensures SyntheticBody(p, finalText, pushed, failed, oom) != []
  {
  }

  /** A note with nothing to carry reads as a placeholder in full, never cut. */
  lemma LostNoteReadsAsLost(p: Prose, finalText: Bytes)
    requires Sized(p)
    requires TrimSpace(finalText) == []
    ensures SyntheticNote(p, finalText, [], [], None) == p.lost
  {
  }

  // ---------- the note beside an agent's own handoff ----------

  const TURN_ID_MAX := 256

  function TurnSuffix(p: Prose, turnId: Bytes): Bytes {
    if turnId == [] then [] else p.turn + turnId + p.dot
  }

  function RoomBeside(suffix: Bytes): int {
    MAX_NOTE - |suffix|
  }

  function WithSuffix(sentence: Bytes, suffix: Bytes): Bytes {
    var body := TrimSpace(sentence);
    if body == [] then [] else body + suffix
  }

  lemma WithSuffixKeeps(sentence: Bytes, suffix: Bytes)
    requires |sentence| > 1 && TrimSpace(sentence) == sentence[1..]
    ensures WithSuffix(sentence, suffix) == sentence[1..] + suffix
  {
  }

  /** Empty when there is nothing to report. */
  function FailedReposNote(p: Prose, failed: seq<Bytes>, turnId: Bytes): Bytes {
    WithSuffix(FailedReposSentence(p, failed, RoomBeside(TurnSuffix(p, turnId))), TurnSuffix(p, turnId))
  }

  /** Trimming the warning takes off its leading space and nothing else. */
  lemma WarningTrimmed(p: Prose, failed: seq<Bytes>, budget: int)
    requires Sized(p)
    requires failed != []
    ensures |FailedReposSentence(p, failed, budget)| > 1
    ensures TrimSpace(FailedReposSentence(p, failed, budget)) == FailedReposSentence(p, failed, budget)[1..]
  {
    var w := FailedReposSentence(p, failed, budget);
    assert w[0] == p.warnHead[0] && w[1] == p.warnHead[1];
    assert w[|w| - 1] == p.dot[0];
    assert SpaceBytes(w[..1]);
    var t := w[1..];
    assert !SpaceBytes(t[..1]) && !SpaceBytes(t[..2]) && !SpaceBytes(t[..3]);
    assert TrimLeft(w) == t;
    assert t[|t| - 1] == 0x2E;
    assert TrimRight(t) == t;
  }

  /** A note is written exactly when some push failed, and it is the whole warning,
      less its leading space, and then the turn. */
  lemma FailedReposNoteShape(p: Prose, failed: seq<Bytes>, turnId: Bytes)
    requires Sized(p)
    ensures failed == [] ==> FailedReposNote(p, failed, turnId) == []
    ensures failed != [] ==>
              FailedReposNote(p, failed, turnId) ==
              FailedReposSentence(p, failed, RoomBeside(TurnSuffix(p, turnId)))[1..] + TurnSuffix(p, turnId)
  {
    var suffix := TurnSuffix(p, turnId);
    if failed == [] {
      TrimNothing();
    } else {
      WarningTrimmed(p, failed, RoomBeside(suffix));
      WithSuffixKeeps(FailedReposSentence(p, failed, RoomBeside(suffix)), suffix);
    }
  }

  lemma TrimNothing()
    ensures TrimSpace([]) == []
  {
  }

  /** For every list and every turn id of at most 256 bytes the note is writable. */
  lemma FailedReposNoteFits(p: Prose, failed: seq<Bytes>, turnId: Bytes)
    requires Sized(p)
    requires GoLen(|failed|) && |turnId| <= TURN_ID_MAX
    ensures |FailedReposNote(p, failed, turnId)| <= MAX_NOTE
    ensures FailedReposNote(p, failed, turnId) == [] <==> failed == []
  {
    FailedReposNoteShape(p, failed, turnId);
    if failed != [] {
      assert |TurnSuffix(p, turnId)| <= 278;
      SentenceFits(p, failed, RoomBeside(TurnSuffix(p, turnId)));
      assert |FailedReposSentence(p, failed, RoomBeside(TurnSuffix(p, turnId)))| > 1;
    }
  }

  /** What follows the first k names of a longer list. */
  lemma {:induction false} JoinedGoesOn(p: Prose, names: seq<Bytes>, k: nat, l: nat)
    requires Sized(p) && 1 <= k < l <= |names|
    ensures |Joined(p, names, k)| < |Joined(p, names, l)|
    ensures Joined(p, names, l)[|Joined(p, names, k)|] == p.comma[0]
  {
    if k < l - 1 {
      JoinedGoesOn(p, names, k, l - 1);
    }
  }

  /** Lists cut behind different names differ, whatever follows them. */
  lemma CutsDiffer(p: Prose, names: seq<Bytes>, k: nat, l: nat, x: Bytes, y: Bytes)
    requires Sized(p) && 1 <= k < l <= |names|
    ensures PartialList(p, names, k) + x != PartialList(p, names, l) + y
  {
    var at := |Joined(p, names, k)|;
    JoinedGoesOn(p, names, k, l);
    assert (PartialList(p, names, k) + x)[at] == Elided(p, |names| - k, false)[0];
    assert (PartialList(p, names, l) + y)[at] == Joined(p, names, l)[at];
  }

  function NoteNames(p: Prose, failed: seq<Bytes>, turnId: Bytes): (k: nat)
    ensures k <= |failed|
  {
    Printed(p, failed, NameRoom(p, |failed|, RoomBeside(TurnSuffix(p, turnId))))
  }

  lemma Regroup(w: Bytes, l: Bytes, d: Bytes, t: Bytes)
    requires w != []
    ensures (w + l + d)[1..] + t == w[1..] + (l + (d + t))
  {
    assert (w + l + d)[1..] == w[1..] + l + d;
  }

  lemma NoteAsList(p: Prose, failed: seq<Bytes>, turnId: Bytes)
    requires Sized(p) && failed != []
    ensures FailedReposNote(p, failed, turnId) ==
            WarnHead(p, |failed|)[1..] + (PartialList(p, failed, NoteNames(p, failed, turnId)) + (p.dot + TurnSuffix(p, turnId)))
  {
    FailedReposNoteShape(p, failed, turnId);
    Regroup(WarnHead(p, |failed|), PartialList(p, failed, NoteNames(p, failed, turnId)), p.dot, TurnSuffix(p, turnId));
  }

  lemma UnnamedRoom(p: Prose, failed: seq<Bytes>, turnId: Bytes)
    requires Sized(p) && GoLen(|failed|) && failed != [] && |turnId| <= TURN_ID_MAX
    requires NoteNames(p, failed, turnId) == 0
    ensures |failed[0]| > MAX_NOTE - 278 - 350 - 1 - 28
  {
    WarnHeadLength(p, |failed|);
    ReserveSmall(p, |failed|);
    assert !NameFits(p, failed, 0, NameRoom(p, |failed|, RoomBeside(TurnSuffix(p, turnId))));
  }

  lemma UnnamedLength(p: Prose, failed: seq<Bytes>, turnId: Bytes)
    requires Sized(p) && GoLen(|failed|) && failed != [] && |turnId| <= TURN_ID_MAX
    requires NoteNames(p, failed, turnId) == 0
    ensures |FailedReposNote(p, failed, turnId)| <= 350 + 28 + 1 + 278
  {
    NoteAsList(p, failed, turnId);
    WarnHeadLength(p, |failed|);
    ReserveSmall(p, |failed|);
  }

  lemma NamedLength(p: Prose, failed: seq<Bytes>, turnId: Bytes)
    requires Sized(p) && failed != [] && NoteNames(p, failed, turnId) > 0
    ensures |FailedReposNote(p, failed, turnId)| >= |failed[0]|
  {
    NoteAsList(p, failed, turnId);
    JoinedGrows(p, failed, 1, NoteNames(p, failed, turnId));
  }

  /** A first name that one turn's note has no room for makes the other note longer than
      the first, which names nothing. */
  lemma UnnamedIsShorter(p: Prose, failed: seq<Bytes>, a: Bytes, b: Bytes)
    requires Sized(p) && GoLen(|failed|) && failed != []
    requires |a| <= TURN_ID_MAX && |b| <= TURN_ID_MAX
    requires NoteNames(p, failed, a) == 0 < NoteNames(p, failed, b)
    ensures |FailedReposNote(p, failed, a)| < |FailedReposNote(p, failed, b)|
  {
    UnnamedRoom(p, failed, a);
    UnnamedLength(p, failed, a);
    NamedLength(p, failed, b);
  }

  /** Two turns that lost the same repositories get different notes, so the second is
      not taken for a replay of the first. */
  lemma TurnsTellNotesApart(p: Prose, failed: seq<Bytes>, a: Bytes, b: Bytes)
    requires Sized(p) && GoLen(|failed|) && failed != []
    requires |a| <= TURN_ID_MAX && |b| <= TURN_ID_MAX && a != b
    ensures FailedReposNote(p, failed, a) != FailedReposNote(p, failed, b)
  {
    var k, l := NoteNames(p, failed, a), NoteNames(p, failed, b);
    if k == 0 && l > 0 {
      UnnamedIsShorter(p, failed, a, b);
    } else if l == 0 && k > 0 {
      UnnamedIsShorter(p, failed, b, a);
    } else {
      NamedNotesDiffer(p, failed, a, b);
    }
  }

  lemma NamedNotesDiffer(p: Prose, failed: seq<Bytes>, a: Bytes, b: Bytes)
    requires Sized(p) && failed != [] && a != b
    requires NoteNames(p, failed, a) == 0 <==> NoteNames(p, failed, b) == 0
    ensures FailedReposNote(p, failed, a) != FailedReposNote(p, failed, b)
  {
    var x, y := p.dot + TurnSuffix(p, a), p.dot + TurnSuffix(p, b);
    NoteAsList(p, failed, a);
    NoteAsList(p, failed, b);
    SuffixesDiffer(p, a, b);
    HeadCancels(p.dot, TurnSuffix(p, a), TurnSuffix(p, b));
    ListsDiffer(p, failed, NoteNames(p, failed, a), NoteNames(p, failed, b), x, y);
    HeadCancels(WarnHead(p, |failed|)[1..],
                PartialList(p, failed, NoteNames(p, failed, a)) + x, PartialList(p, failed, NoteNames(p, failed, b)) + y);
  }

  lemma ListsDiffer(p: Prose, names: seq<Bytes>, k: nat, l: nat, x: Bytes, y: Bytes)
    requires Sized(p) && k <= |names| && l <= |names| && (k == 0 <==> l == 0) && x != y
    ensures PartialList(p, names, k) + x != PartialList(p, names, l) + y
  {
    if k < l {
      CutsDiffer(p, names, k, l, x, y);
    } else if l < k {
      CutsDiffer(p, names, l, k, y, x);
    } else {
      HeadCancels(PartialList(p, names, k), x, y);
    }
  }

  lemma SuffixesDiffer(p: Prose, a: Bytes, b: Bytes)
    requires Sized(p) && a != b
    ensures TurnSuffix(p, a) != TurnSuffix(p, b)
  {
    if a != [] && b != [] && |a| == |b| {
      assert (p.turn + a + p.dot)[|p.turn|..|p.turn| + |a|] == a;
      assert (p.turn + b + p.dot)[|p.turn|..|p.turn| + |b|] == b;
    }
  }

  lemma HeadCancels(head: Bytes, x: Bytes, y: Bytes)
    requires x != y
    ensures head + x != head + y
  {
    assert (head + x)[|head|..] == x;
    assert (head + y)[|head|..] == y;
  }
}
