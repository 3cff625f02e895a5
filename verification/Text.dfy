/** Go's trimming and substring search on valid UTF-8 text, read as its sequence of
    Unicode scalar values. */
module Text {

  /** unicode.IsSpace. */
  predicate IsSpace(c: char) {
    || '\t' <= c <= '\r' || c == ' ' || c == '\U{0085}' || c == '\U{00A0}'
    || c == '\U{1680}' || '\U{2000}' <= c <= '\U{200A}' || c == '\U{2028}' || c == '\U{2029}'
    || c == '\U{202F}' || c == '\U{205F}' || c == '\U{3000}'
  }

  function TrimLeft(s: string): (r: string)
    ensures |r| <= |s| && r == s[|s| - |r|..]
    ensures r != [] ==> !IsSpace(r[0])
  {
    if s != [] && IsSpace(s[0]) then TrimLeft(s[1..]) else s
  }

  function TrimRight(s: string): (r: string)
    ensures r <= s
    ensures r != [] ==> !IsSpace(r[|r| - 1])
  {
    if s != [] && IsSpace(s[|s| - 1]) then TrimRight(s[..|s| - 1]) else s
  }

  function TrimSpace(s: string): string {
    TrimRight(TrimLeft(s))
  }

  /** No white space at either end. */
  predicate Trimmed(s: string) {
    s != [] ==> !IsSpace(s[0]) && !IsSpace(s[|s| - 1])
  }

  predicate Blank(s: string) {
    forall c <- s :: IsSpace(c)
  }

  /** The text without its white space. */
  function Ink(s: string): string {
    if s == [] then []
    else if IsSpace(s[0]) then Ink(s[1..])
    else [s[0]] + Ink(s[1..])
  }

  lemma {:induction false} InkAppend(a: string, b: string)
    ensures Ink(a + b) == Ink(a) + Ink(b)
  {
    if a == [] {
      assert a + b == b;
    } else {
      assert (a + b)[1..] == a[1..] + b;
      InkAppend(a[1..], b);
    }
  }

  lemma {:induction false} TrimLeftInk(s: string)
    ensures Ink(TrimLeft(s)) == Ink(s)
  {
    if s != [] && IsSpace(s[0]) {
      TrimLeftInk(s[1..]);
    }
  }

  lemma {:induction false} TrimRightInk(s: string)
    ensures Ink(TrimRight(s)) == Ink(s)
  {
    if s != [] && IsSpace(s[|s| - 1]) {
      TrimRightInk(s[..|s| - 1]);
      InkAppend(s[..|s| - 1], [s[|s| - 1]]);
      assert s == s[..|s| - 1] + [s[|s| - 1]];
    }
  }

  /** Trimming yields trimmed text, drops white space only, and leaves trimmed text alone. */
  lemma TrimSpaceTrims(s: string)
    ensures Trimmed(TrimSpace(s))
    ensures Ink(TrimSpace(s)) == Ink(s)
    ensures Trimmed(s) ==> TrimSpace(s) == s
    ensures TrimSpace(s) == [] <==> Blank(s)
  {
    TrimLeftInk(s);
    TrimRightInk(TrimLeft(s));
    InkBlank(s);
    InkBlank(TrimSpace(s));
    if TrimSpace(s) != [] {
      assert TrimSpace(s)[0] == TrimLeft(s)[0];
      assert TrimSpace(s)[0] in TrimSpace(s);
    }
  }

  lemma {:induction false} InkBlank(s: string)
    ensures Ink(s) == [] <==> Blank(s)
  {
    if s != [] {
      InkBlank(s[1..]);
      assert s == [s[0]] + s[1..];
    }
  }

  predicate OccursAt(s: string, sub: string, i: int) {
    0 <= i <= |s| - |sub| && s[i..i + |sub|] == sub
  }

  /** strings.Contains. */
  predicate Contains(s: string, sub: string) {
    exists i :: 0 <= i <= |s| && OccursAt(s, sub, i)
  }

  lemma ContainsTransitive(a: string, b: string, c: string)
    requires Contains(a, b) && Contains(b, c)
    ensures Contains(a, c)
  {
    var i :| 0 <= i <= |a| && OccursAt(a, b, i);
    var j :| 0 <= j <= |b| && OccursAt(b, c, j);
    var at := a[i + j..i + j + |c|];
    forall k | 0 <= k < |c|
      ensures at[k] == c[k]
    {
      assert c[k] == b[j..j + |c|][k] == b[j + k] == a[i..i + |b|][j + k];
    }
    assert at == c;
    assert OccursAt(a, c, i + j);
  }

  lemma SuffixPrefixOccurs(s: string, l: string, t: string)
    requires |l| <= |s| && l == s[|s| - |l|..] && t <= l
    ensures Contains(s, t)
  {
    var i := |s| - |l|;
    assert s[i..i + |t|] == l[..|t|] == t;
    assert OccursAt(s, t, i);
  }

  /** Trimming keeps one stretch of the text. */
  lemma TrimSpaceContained(s: string)
    ensures Contains(s, TrimSpace(s))
  {
    var l := TrimLeft(s);
    SuffixPrefixOccurs(s, l, TrimRight(l));
  }
}
