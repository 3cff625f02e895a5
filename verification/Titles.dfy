/** The clamp every issue title goes through before it reaches a forge. */
module Titles {
  import opened Text

  const TITLE_MAX := 255
  const MARKER := "...(truncated)"

  predicate IsBreak(c: char) {
    '\n' <= c <= '\r' || c == '\U{0085}' || c == '\U{2028}' || c == '\U{2029}'
  }

  predicate OneLine(s: string) {
    forall i :: 0 <= i < |s| ==> !IsBreak(s[i])
  }

  /** strings.ReplaceAll(s, "\r\n", "\n"). */
  function CollapseCrLf(s: string): string {
    if s == [] then []
    else if |s| >= 2 && s[0] == '\r' && s[1] == '\n' then ['\n'] + CollapseCrLf(s[2..])
    else [s[0]] + CollapseCrLf(s[1..])
  }

  function BreaksToSpaces(s: string): (r: string)
    ensures |r| == |s| && forall i :: 0 <= i < |s| ==> r[i] == if IsBreak(s[i]) then ' ' else s[i]
  {
    seq(|s|, i requires 0 <= i < |s| => if IsBreak(s[i]) then ' ' else s[i])
  }

  function FlattenTitleLines(title: string): string {
    if OneLine(title) then title else BreaksToSpaces(CollapseCrLf(title))
  }

  /** At most `max` runes off the front. */
  function FirstRunes(s: string, max: int): string {
    if max <= 0 then [] else if |s| <= max then s else s[..max]
  }

  method TruncateRunes(s: string, maxRunes: int) returns (r: string)
    ensures r == FirstRunes(s, maxRunes)
  {
    if maxRunes <= 0 {
      return "";
    }
    var n := 0;
    for i := 0 to |s|
      invariant n == i && n <= maxRunes
    {
      if n == maxRunes {
        return s[..i];
      }
      n := n + 1;
    }
    return s;
  }

  function Clamp(title: string): string {
    var t := TrimSpace(FlattenTitleLines(title));
    if |t| <= TITLE_MAX then t
    else TrimRight(FirstRunes(t, TITLE_MAX - |MARKER|)) + MARKER
  }

  method ClampIssueTitle(title: string) returns (r: string)
    ensures r == Clamp(title)
  {
    var t := TrimSpace(FlattenTitleLines(title));
    if |t| <= TITLE_MAX {
      return t;
    }
    var cut := TruncateRunes(t, TITLE_MAX - |MARKER|);
    return TrimRight(cut) + MARKER;
  }

  /** A title a forge accepts and the line-oriented edit intent can carry. */
  predicate Fits(title: string) {
    |title| <= TITLE_MAX && OneLine(title) && Trimmed(title)
  }

  lemma {:induction false} CollapseCrLfInk(s: string)
    ensures Ink(CollapseCrLf(s)) == Ink(s)
  {
    if s == [] {
    } else if |s| >= 2 && s[0] == '\r' && s[1] == '\n' {
      CollapseCrLfInk(s[2..]);
      assert s[1..][1..] == s[2..];
      assert Ink(s) == Ink(s[2..]);
    } else {
      CollapseCrLfInk(s[1..]);
    }
  }

  lemma {:induction false} BreaksToSpacesInk(s: string)
    ensures Ink(BreaksToSpaces(s)) == Ink(s)
  {
    if s != [] {
      assert BreaksToSpaces(s)[1..] == BreaksToSpaces(s[1..]);
      BreaksToSpacesInk(s[1..]);
    }
  }

  /** Flattening leaves no line break and changes white space only. */
  lemma FlattenLines(title: string)
    ensures OneLine(FlattenTitleLines(title))
    ensures Ink(FlattenTitleLines(title)) == Ink(title)
  {
    CollapseCrLfInk(title);
    BreaksToSpacesInk(CollapseCrLf(title));
  }

  function CrLfs(s: string): nat {
    if |s| < 2 then 0 else (if s[0] == '\r' && s[1] == '\n' then 1 else 0) + CrLfs(s[1..])
  }

  /** Each line break becomes one space, a CR LF pair counting as one break. */
  lemma {:induction false} CollapseCrLfLength(s: string)
    ensures |CollapseCrLf(s)| == |s| - CrLfs(s)
  {
    if s == [] {
    } else if |s| >= 2 && s[0] == '\r' && s[1] == '\n' {
      CollapseCrLfLength(s[2..]);
      assert s[1..][1..] == s[2..];
    } else {
      CollapseCrLfLength(s[1..]);
    }
  }

  lemma FlattenLength(title: string)
    ensures |FlattenTitleLines(title)| == |title| - CrLfs(title)
  {
    CollapseCrLfLength(title);
    if OneLine(title) {
      NoCrLfs(title);
    }
  }

  lemma {:induction false} NoCrLfs(s: string)
    requires OneLine(s)
    ensures CrLfs(s) == 0
  {
    if |s| >= 2 {
      NoCrLfs(s[1..]);
    }
  }

  lemma SuffixOneLine(s: string, l: string)
    requires OneLine(s) && |l| <= |s| && l == s[|s| - |l|..]
    ensures OneLine(l)
  {
  }

  lemma PrefixOneLine(l: string, r: string)
    requires OneLine(l) && r <= l
    ensures OneLine(r)
  {
  }

  lemma OneLineParts(s: string)
    requires OneLine(s)
    ensures OneLine(TrimSpace(s))
  {
    SuffixOneLine(s, TrimLeft(s));
    PrefixOneLine(TrimLeft(s), TrimSpace(s));
  }

  /** The printed part of a cut title is not empty, and its first rune is that of
      the trimmed title. */
  lemma CutKeepsHead(t: string)
    requires Trimmed(t) && |t| > TITLE_MAX
    ensures TrimRight(FirstRunes(t, TITLE_MAX - |MARKER|)) != []
  {
    var cut := FirstRunes(t, TITLE_MAX - |MARKER|);
    TrimRightInk(cut);
    assert cut[0] == t[0];
    assert Ink(cut) != [];
  }

  /** Every title comes out acceptable; one that already was comes back unchanged,
      so clamping a second time, when a queued intent is replayed, changes nothing. */
  lemma ClampFits(title: string)
    ensures Fits(Clamp(title))
    ensures Fits(title) ==> Clamp(title) == title
    ensures Clamp(Clamp(title)) == Clamp(title)
  {
    ClampAccepted(title);
    ClampIdentity(title);
    ClampIdentity(Clamp(title));
  }

  lemma ClampIdentity(title: string)
    ensures Fits(title) ==> Clamp(title) == title
  {
    TrimSpaceTrims(title);
  }

  lemma FlatTitle(title: string, t: string)
    requires t == TrimSpace(FlattenTitleLines(title))
    ensures OneLine(t) && Trimmed(t)
  {
    FlattenLines(title);
    OneLineParts(FlattenTitleLines(title));
    TrimSpaceTrims(FlattenTitleLines(title));
  }

  lemma CutAccepted(t: string, cut: string)
    requires OneLine(t) && Trimmed(t) && |t| > TITLE_MAX
    requires cut == TrimRight(FirstRunes(t, TITLE_MAX - |MARKER|))
    ensures Fits(cut + MARKER)
  {
    CutKeepsHead(t);
    CutFits(t, cut);
  }

  lemma ClampAccepted(title: string)
    ensures Fits(Clamp(title))
  {
    var t := TrimSpace(FlattenTitleLines(title));
    FlatTitle(title, t);
    if |t| > TITLE_MAX {
      CutAccepted(t, TrimRight(FirstRunes(t, TITLE_MAX - |MARKER|)));
    }
  }

  /** A leading part of an acceptable text with the marker behind it is acceptable. */
  lemma CutFits(t: string, cut: string)
    requires OneLine(t) && Trimmed(t) && cut <= t && cut != [] && |cut| <= TITLE_MAX - |MARKER|
    ensures Fits(cut + MARKER)
  {
    MarkerPlain();
    var r := cut + MARKER;
    assert cut == t[..|cut|];
    assert forall i :: 0 <= i < |r| ==> r[i] == if i < |cut| then t[i] else MARKER[i - |cut|];
  }

  lemma MarkerPlain()
    ensures OneLine(MARKER) && !IsSpace(MARKER[|MARKER| - 1])
  {
    assert MARKER[|MARKER| - 1] == ')';
  }

  lemma InkPrefix(kept: string, t: string)
    requires kept <= t
    ensures Ink(kept) <= Ink(t)
  {
    InkAppend(kept, t[|kept|..]);
    assert t == kept + t[|kept|..];
  }

  /** What survives: everything but white space when the title fits, otherwise a
      leading part of it before the visible marker. */
  lemma ClampKeeps(title: string)
    ensures var t := TrimSpace(FlattenTitleLines(title));
            if |t| <= TITLE_MAX then Ink(Clamp(title)) == Ink(title)
            else exists kept :: Clamp(title) == kept + MARKER && kept <= t && Ink(kept) <= Ink(title)
  {
    var flat := FlattenTitleLines(title);
    var t := TrimSpace(flat);
    FlattenLines(title);
    TrimSpaceTrims(flat);
    if |t| > TITLE_MAX {
      var kept := TrimRight(FirstRunes(t, TITLE_MAX - |MARKER|));
      InkPrefix(kept, t);
      assert Clamp(title) == kept + MARKER;
    }
  }
}
