/** The anti-fabrication check of the approval gate: does the quote the agent
    submitted occur in the comment body the operator holds? The agent copies its
    quote from a bundle in which the five characters of section 4.6 of XML 1.0 are
    replaced by entities, so the unescaped quote is tried as well. */
module Quotes {
  import opened Wrappers
  import opened Text

  function EscapeChar(c: char): string {
    if c == '&' then "&amp;"
    else if c == '<' then "&lt;"
    else if c == '>' then "&gt;"
    else if c == '"' then "&quot;"
    else if c == '\'' then "&apos;"
    else [c]
  }

  function Escape(s: string): string {
    if s == [] then [] else EscapeChar(s[0]) + Escape(s[1..])
  }

  /** One pass from the left; what an entity stands for is not read again. */
  function Unescape(s: string): string {
    if s == [] then []
    else if "&amp;" <= s then ['&'] + Unescape(s[5..])
    else if "&lt;" <= s then ['<'] + Unescape(s[4..])
    else if "&gt;" <= s then ['>'] + Unescape(s[4..])
    else if "&quot;" <= s then ['"'] + Unescape(s[6..])
    else if "&apos;" <= s then ['\''] + Unescape(s[6..])
    else [s[0]] + Unescape(s[1..])
  }

  /** The form of the quote that occurs in the body, if one does. */
  function QuoteOccursIn(body: string, quoted: string): Option<string> {
    var quote := TrimSpace(quoted);
    if quote == [] then None
    else if Contains(body, quote) then Some(quote)
    else
      var un := TrimSpace(Unescape(quote));
      if un != [] && un != quote && Contains(body, un) then Some(un) else None
  }

  lemma UnescapeFirst(c: char, rest: string)
    ensures Unescape(EscapeChar(c) + rest) == [c] + Unescape(rest)
  {
    var e := EscapeChar(c);
    var s := e + rest;
    assert s[|e|..] == rest && s[0] == e[0];
    if c == '<' {
      assert s[1] == 'l';
    } else if c == '>' {
      assert s[1] == 'g';
    } else if c == '"' {
      assert s[1] == 'q';
    } else if c == '\'' {
      assert s[1] == 'a' && s[2] == 'p';
    }
  }

  lemma {:induction false} UnescapeEscape(s: string)
    ensures Unescape(Escape(s)) == s
  {
    if s != [] {
      UnescapeFirst(s[0], Escape(s[1..]));
      UnescapeEscape(s[1..]);
      assert [s[0]] + s[1..] == s;
    }
  }

  lemma {:induction false} EscapeAppend(a: string, b: string)
    ensures Escape(a + b) == Escape(a) + Escape(b)
  {
    if a == [] {
      assert a + b == b;
    } else {
      assert (a + b)[1..] == a[1..] + b;
      EscapeAppend(a[1..], b);
    }
  }

  /** An entity neither starts nor ends with white space. */
  lemma EscapeCharEnds(c: char)
    ensures var e := EscapeChar(c);
            if IsSpace(c) then e == [c] else e != [] && !IsSpace(e[0]) && !IsSpace(e[|e| - 1])
  {
  }

  lemma {:induction false} EscapeTrimLeft(s: string)
    ensures TrimLeft(Escape(s)) == Escape(TrimLeft(s))
  {
    if s != [] {
      EscapeCharEnds(s[0]);
      var e, rest := EscapeChar(s[0]), Escape(s[1..]);
      assert (e + rest)[0] == e[0];
      if IsSpace(s[0]) {
        assert (e + rest)[1..] == rest;
        EscapeTrimLeft(s[1..]);
      }
    }
  }

  lemma {:induction false} EscapeTrimRight(s: string)
    ensures TrimRight(Escape(s)) == Escape(TrimRight(s))
  {
    if s != [] {
      var front, last := s[..|s| - 1], s[|s| - 1];
      assert s == front + [last];
      EscapeAppend(front, [last]);
      assert Escape([last]) == EscapeChar(last) + [];
      EscapeCharEnds(last);
      var all := Escape(front) + EscapeChar(last);
      assert Escape(s) == all && all[|all| - 1] == EscapeChar(last)[|EscapeChar(last)| - 1];
      if IsSpace(last) {
        assert all[..|all| - 1] == Escape(front);
        EscapeTrimRight(front);
      }
    }
  }

  lemma EscapeTrim(s: string)
    ensures TrimSpace(Escape(s)) == Escape(TrimSpace(s))
    ensures TrimSpace(s) != [] ==> Escape(TrimSpace(s)) != []
  {
    EscapeTrimLeft(s);
    EscapeTrimRight(TrimLeft(s));
    if TrimSpace(s) != [] {
      EscapeCharEnds(TrimSpace(s)[0]);
    }
  }

  /** Whatever is accepted really stands in the body: it is not empty, has no outer
      white space, and is the submitted quote or its unescaped form. */
  lemma AcceptedQuoteOccurs(body: string, quoted: string)
    requires QuoteOccursIn(body, quoted).Some?
    ensures var q := QuoteOccursIn(body, quoted).value;
            q != [] && Trimmed(q) && Contains(body, q) && (q == TrimSpace(quoted) || q == TrimSpace(Unescape(TrimSpace(quoted))))
  {
    TrimSpaceTrims(quoted);
    TrimSpaceTrims(Unescape(TrimSpace(quoted)));
  }

  /** A stretch of the body that is not blank stays in it when trimmed. */
  lemma TrimmedOccurs(body: string, sub: string)
    requires Contains(body, sub) && !Blank(sub)
    ensures Contains(body, TrimSpace(sub)) && TrimSpace(sub) != [] && Trimmed(TrimSpace(sub))
  {
    TrimSpaceTrims(sub);
    TrimSpaceContained(sub);
    ContainsTransitive(body, sub, TrimSpace(sub));
  }

  lemma RawAccepted(body: string, quoted: string)
    requires TrimSpace(quoted) != [] && Contains(body, TrimSpace(quoted))
    ensures QuoteOccursIn(body, quoted) == Some(TrimSpace(quoted))
  {
  }

  lemma UnescapedAccepted(body: string, quoted: string, t: string)
    requires TrimSpace(quoted) != [] && TrimSpace(Unescape(TrimSpace(quoted))) == t
    requires t != [] && Contains(body, t)
    ensures QuoteOccursIn(body, quoted) == if Contains(body, TrimSpace(quoted)) then Some(TrimSpace(quoted)) else Some(t)
  {
  }

  /** Reading back the escaped copy of trimmed text gives the text. */
  lemma EscapedReadsBack(t: string)
    requires Trimmed(t)
    ensures TrimSpace(Unescape(Escape(t))) == t
  {
    UnescapeEscape(t);
    TrimSpaceTrims(t);
  }

  /** Every stretch of the body that is not blank is accepted both as it stands and
      as the agent sees it in its escaped bundle. */
  lemma EscapedQuoteAccepted(body: string, sub: string)
    requires Contains(body, sub) && !Blank(sub)
    ensures QuoteOccursIn(body, sub) == Some(TrimSpace(sub))
    ensures QuoteOccursIn(body, Escape(sub)) ==
            Some(if Contains(body, Escape(TrimSpace(sub))) then Escape(TrimSpace(sub)) else TrimSpace(sub))
  {
    var t := TrimSpace(sub);
    TrimmedOccurs(body, sub);
    RawAccepted(body, sub);
    EscapeTrim(sub);
    EscapedReadsBack(t);
    UnescapedAccepted(body, Escape(sub), t);
  }
}
