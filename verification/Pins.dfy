/** The pin state of the deploy repository: which of its lines speak for an artifact,
    and whether they have reached a wanted version. */
module Pins {
  import opened Wrappers
  import opened Text

  // ---------- lines ----------

  /** strings.Split on the newline. */
  function Split(s: string): (lines: seq<string>)
    ensures lines != []
  {
    if s == [] then [[]]
    else
      var rest := Split(s[1..]);
      if s[0] == '\n' then [[]] + rest else [[s[0]] + rest[0]] + rest[1..]
  }

  function Join(lines: seq<string>): string {
    if lines == [] then []
    else if |lines| == 1 then lines[0]
    else lines[0] + (['\n'] + Join(lines[1..]))
  }

  lemma JoinCons(c: char, rest: seq<string>)
    requires rest != []
    ensures Join([[c] + rest[0]] + rest[1..]) == [c] + Join(rest)
  {
    var lines := [[c] + rest[0]] + rest[1..];
    assert lines[1..] == rest[1..];
    if |rest| > 1 {
      var tail := ['\n'] + Join(rest[1..]);
      assert ([c] + rest[0]) + tail == [c] + (rest[0] + tail);
    }
  }

  /** Splitting loses nothing, and no line holds a newline. */
  lemma {:induction false} JoinSplit(s: string)
    ensures Join(Split(s)) == s
  {
    if s != [] {
      JoinSplit(s[1..]);
      var rest := Split(s[1..]);
      assert s == [s[0]] + s[1..];
      if s[0] == '\n' {
        assert Split(s)[1..] == rest;
        assert [] + (['\n'] + s[1..]) == s;
      } else {
        JoinCons(s[0], rest);
      }
    }
  }

  lemma {:induction false} SplitLines(s: string, i: nat)
    requires i < |Split(s)|
    ensures '\n' !in Split(s)[i]
  {
    if s != [] {
      var rest := Split(s[1..]);
      if s[0] == '\n' {
        if i > 0 {
          SplitLines(s[1..], i - 1);
        }
      } else {
        SplitLines(s[1..], i);
      }
    }
  }

  // ---------- release headers ----------

  /** The white space of RE2's \s class. */
  predicate IsBlank(c: char) {
    c == '\t' || c == '\n' || c == '\U{000C}' || c == '\r' || c == ' '
  }

  predicate BlankFrom(s: string, i: nat, j: nat)
    requires j <= |s|
  {
    forall k :: i <= k < j ==> IsBlank(s[k])
  }

  predicate InkFrom(s: string, i: nat, j: nat)
    requires j <= |s|
  {
    forall k :: i <= k < j ==> !IsBlank(s[k])
  }

  /** The end of the white space that starts at i, and of the word that starts at i. */
  function SpaceEnd(s: string, i: nat): (j: nat)
    requires i <= |s|
    ensures i <= j <= |s| && BlankFrom(s, i, j) && (j < |s| ==> !IsBlank(s[j]))
    decreases |s| - i
  {
    if i < |s| && IsBlank(s[i]) then SpaceEnd(s, i + 1) else i
  }

  function WordEnd(s: string, i: nat): (j: nat)
    requires i <= |s|
    ensures i <= j <= |s| && InkFrom(s, i, j) && (j < |s| ==> IsBlank(s[j]))
    decreases |s| - i
  {
    if i < |s| && !IsBlank(s[i]) then WordEnd(s, i + 1) else i
  }

  const NAME := "name:"

  predicate NameAt(s: string, i: nat) {
    i + |NAME| <= |s| && s[i..i + |NAME|] == NAME
  }

  /** The release a `- name: <release>` line opens. */
  function Header(line: string): Option<string> {
    var dash := SpaceEnd(line, 0);
    if dash == |line| || line[dash] != '-' then None
    else
      var key := SpaceEnd(line, dash + 1);
      if !NameAt(line, key) then None
      else
        var word := SpaceEnd(line, key + |NAME|);
        var end := WordEnd(line, word);
        if word == end || SpaceEnd(line, end) != |line| then None else Some(line[word..end])
  }

  /** The header grammar: where its parts stand, with nothing but white space between
      and around them. */
  predicate Spells(line: string, dash: nat, key: nat, word: nat, end: nat) {
    && dash < key && key + |NAME| <= word < end <= |line|
    && BlankFrom(line, 0, dash) && line[dash] == '-'
    && BlankFrom(line, dash + 1, key) && NameAt(line, key)
    && BlankFrom(line, key + |NAME|, word)
    && InkFrom(line, word, end)
    && BlankFrom(line, end, |line|)
  }

  lemma NameNotBlank(line: string, key: nat)
    requires NameAt(line, key)
    ensures !IsBlank(line[key])
  {
    assert line[key] == line[key..key + |NAME|][0] == NAME[0];
  }

  lemma SpaceEndsAt(s: string, i: nat, j: nat)
    requires i <= j <= |s| && BlankFrom(s, i, j) && (j < |s| ==> !IsBlank(s[j]))
    ensures SpaceEnd(s, i) == j
  {
  }

  lemma WordEndsAt(s: string, i: nat, j: nat)
    requires i <= j <= |s| && InkFrom(s, i, j) && (j < |s| ==> IsBlank(s[j]))
    ensures WordEnd(s, i) == j
  {
  }

  lemma SpelledIsHeader(line: string, dash: nat, key: nat, word: nat, end: nat)
    requires Spells(line, dash, key, word, end)
    ensures Header(line) == Some(line[word..end])
  {
    NameNotBlank(line, key);
    SpaceEndsAt(line, 0, dash);
    SpaceEndsAt(line, dash + 1, key);
    SpaceEndsAt(line, key + |NAME|, word);
    WordEndsAt(line, word, end);
    SpaceEndsAt(line, end, |line|);
  }

  lemma HeaderIsSpelled(line: string)
    requires Header(line).Some?
    ensures exists dash: nat, key: nat, word: nat, end: nat :: Spells(line, dash, key, word, end) && Header(line).value == line[word..end]
  {
    var dash := SpaceEnd(line, 0);
    var key := SpaceEnd(line, dash + 1);
    var word := SpaceEnd(line, key + |NAME|);
    assert Spells(line, dash, key, word, WordEnd(line, word));
  }

  /** A line opens a release exactly when it spells the grammar, and then only one
      reading of its name is possible. */
  lemma HeaderIff(line: string, name: string)
    ensures Header(line) == Some(name) <==>
            exists dash: nat, key: nat, word: nat, end: nat :: Spells(line, dash, key, word, end) && name == line[word..end]
  {
    if Header(line) == Some(name) {
      HeaderIsSpelled(line);
    }
    forall dash: nat, key: nat, word: nat, end: nat | Spells(line, dash, key, word, end)
      ensures Header(line) == Some(line[word..end])
    {
      SpelledIsHeader(line, dash, key, word, end);
    }
  }

  // ---------- attribution ----------

  /** The artifact whose chart version each release pins. */
  type Releases = map<string, string>

  const RELEASES: Releases := map[
    "tatara-operator" := "tatara-operator",
    "project-tatara" := "tatara-operator",
    "project-infrastructure" := "tatara-operator",
    "project-mtg" := "tatara-operator"]

  function ImageToken(artifact: string): string {
    "/" + artifact + ":"
  }

  function Headers(lines: seq<string>): (hs: seq<Option<string>>)
    ensures |hs| == |lines|
  {
    if lines == [] then [] else Headers(lines[..|lines| - 1]) + [Header(lines[|lines| - 1])]
  }

  lemma {:induction false} HeadersAt(lines: seq<string>, i: nat)
    requires i < |lines|
    ensures Headers(lines)[i] == Header(lines[i])
  {
    if i < |lines| - 1 {
      HeadersAt(lines[..|lines| - 1], i);
    }
  }

  /** The release the nearest header before line i opens. */
  function Release(headers: seq<Option<string>>, i: nat): string
    requires i <= |headers|
  {
    if i == 0 then "" else if headers[i - 1].Some? then headers[i - 1].value else Release(headers, i - 1)
  }

  predicate Under(releases: Releases, release: string, artifact: string) {
    release in releases && releases[release] == artifact
  }

  /** A line speaks for an artifact when it is no header and either names its image or
      stands under one of its releases. */
  predicate Owned(releases: Releases, lines: seq<string>, artifact: string, i: nat)
    requires i < |lines|
  {
    && artifact != ""
    && Headers(lines)[i].None?
    && (Contains(lines[i], ImageToken(artifact)) || Under(releases, Release(Headers(lines), i), artifact))
  }

  ghost predicate Ascending(at: seq<nat>) {
    forall j, k :: 0 <= j < k < |at| ==> at[j] < at[k]
  }

  /** The lines among the first n that speak for the artifact, in order. */
  function OwnLines(releases: Releases, lines: seq<string>, artifact: string, n: nat): seq<string>
    requires n <= |lines|
  {
    if n == 0 then []
    else OwnLines(releases, lines, artifact, n - 1) + if Owned(releases, lines, artifact, n - 1) then [lines[n - 1]] else []
  }

  lemma {:induction false} NobodyOwns(releases: Releases, lines: seq<string>, n: nat)
    requires n <= |lines|
    ensures OwnLines(releases, lines, "", n) == []
  {
    if n > 0 {
      NobodyOwns(releases, lines, n - 1);
    }
  }

  /** The lines listed are exactly those among the first n that speak for the artifact,
      and stand at these places. */
  ghost predicate Listed(releases: Releases, lines: seq<string>, artifact: string, n: nat, out: seq<string>, at: seq<nat>)
    requires n <= |lines|
  {
    && |out| == |at| && Ascending(at)
    && (forall k :: 0 <= k < |at| ==> at[k] < n && out[k] == lines[at[k]] && Owned(releases, lines, artifact, at[k]))
    && (forall i :: 0 <= i < n && Owned(releases, lines, artifact, i) ==> i in at)
  }

  lemma ListedSkips(releases: Releases, lines: seq<string>, artifact: string, n: nat, out: seq<string>, at: seq<nat>)
    requires 0 < n <= |lines| && Listed(releases, lines, artifact, n - 1, out, at) && !Owned(releases, lines, artifact, n - 1)
    ensures Listed(releases, lines, artifact, n, out, at)
  {
  }

  lemma ListedTakes(releases: Releases, lines: seq<string>, artifact: string, n: nat, out: seq<string>, at: seq<nat>)
    requires 0 < n <= |lines| && Listed(releases, lines, artifact, n - 1, out, at) && Owned(releases, lines, artifact, n - 1)
    ensures Listed(releases, lines, artifact, n, out + [lines[n - 1]], at + [n - 1])
  {
    assert (at + [n - 1])[|at|] == n - 1;
  }

  lemma {:induction false} OwnLinesListed(releases: Releases, lines: seq<string>, artifact: string, n: nat) returns (at: seq<nat>)
    requires n <= |lines|
    ensures Listed(releases, lines, artifact, n, OwnLines(releases, lines, artifact, n), at)
  {
    at := [];
    if n > 0 {
      at := OwnLinesListed(releases, lines, artifact, n - 1);
      var out := OwnLines(releases, lines, artifact, n - 1);
      if Owned(releases, lines, artifact, n - 1) {
        ListedTakes(releases, lines, artifact, n, out, at);
        at := at + [n - 1];
      } else {
        ListedSkips(releases, lines, artifact, n, out, at);
        assert out + [] == out;
      }
    }
  }

  method ArtifactPinLines(releases: Releases, pinState: string, artifact: string) returns (out: seq<string>)
    ensures out == OwnLines(releases, Split(pinState), artifact, |Split(pinState)|)
  {
    var lines := Split(pinState);
    out := [];
    if artifact == "" {
      NobodyOwns(releases, lines, |lines|);
      return;
    }
    var imageToken := ImageToken(artifact);
    var headers := Headers(lines);
    var currentRelease := "";
    for i := 0 to |lines|
      invariant currentRelease == Release(headers, i)
      invariant out == OwnLines(releases, lines, artifact, i)
    {
      if headers[i].Some? {
        currentRelease := headers[i].value;
        continue;
      }
      if Contains(lines[i], imageToken) || Under(releases, currentRelease, artifact) {
        out := out + [lines[i]];
      }
    }
  }

  // ---------- versions ----------

  datatype Version = Version(major: nat, minor: nat, patch: nat)

  predicate AtLeast(have: Version, want: Version) {
    if have.major != want.major then have.major > want.major
    else if have.minor != want.minor then have.minor > want.minor
    else have.patch >= want.patch
  }

  predicate IsDigit(c: char) {
    '0' <= c <= '9'
  }

  predicate DigitsFrom(s: string, i: nat, j: nat)
    requires j <= |s|
  {
    forall k :: i <= k < j ==> IsDigit(s[k])
  }

  /** The end of the digits that start at i. */
  function DigitsEnd(s: string, i: nat): (j: nat)
    requires i <= |s|
    ensures i <= j <= |s|
    decreases |s| - i
  {
    if i < |s| && IsDigit(s[i]) then DigitsEnd(s, i + 1) else i
  }

  function Digit(c: char): nat {
    if IsDigit(c) then c as int - '0' as int else 0
  }

  /** The number that a string of digits spells. */
  function Number(d: string): nat {
    if d == [] then 0 else 10 * Number(d[..|d| - 1]) + Digit(d[|d| - 1])
  }

  function VersionOf(s: string, i: nat, a: nat, b: nat, c: nat): Version
    requires i <= a < b < c <= |s|
  {
    Version(Number(s[i..a]), Number(s[a + 1..b]), Number(s[b + 1..c]))
  }

  /** Three dotted digit runs start at i. The optional v before them captures nothing. */
  predicate Starts(s: string, i: nat)
    requires i <= |s|
  {
    var a := DigitsEnd(s, i);
    && i < a < |s| && s[a] == '.'
    && var b := DigitsEnd(s, a + 1);
       a + 1 < b < |s| && s[b] == '.' && b + 1 < DigitsEnd(s, b + 1)
  }

  function Triple(s: string, i: nat): Version
    requires i <= |s| && Starts(s, i)
  {
    var a := DigitsEnd(s, i);
    var b := DigitsEnd(s, a + 1);
    VersionOf(s, i, a, b, DigitsEnd(s, b + 1))
  }

  const INT_MAX := 0x7FFF_FFFF_FFFF_FFFF

  /** strconv.Atoi refuses numbers past 64 bits. */
  function Bounded(v: Version): Option<Version> {
    if v.major > INT_MAX || v.minor > INT_MAX || v.patch > INT_MAX then None else Some(v)
  }

  /** The first place from i on where a version starts. */
  function Start(s: string, i: nat): (j: Option<nat>)
    requires i <= |s|
    ensures j.Some? ==> i <= j.value <= |s| && Starts(s, j.value)
    decreases |s| - i
  {
    if i == |s| then None else if Starts(s, i) then Some(i) else Start(s, i + 1)
  }

  /** The first version in the text, unless one of its numbers overflows. */
  function ParseSemver(s: string): Option<Version> {
    match Start(s, 0)
    case Some(i) => Bounded(Triple(s, i))
    case None => None
  }

  /** The version grammar: three digit runs up to a, b and c with dots between. */
  predicate Reads(s: string, i: nat, a: nat, b: nat, c: nat) {
    && i < a && a + 1 < b && b + 1 < c <= |s|
    && DigitsFrom(s, i, a) && s[a] == '.'
    && DigitsFrom(s, a + 1, b) && s[b] == '.'
    && DigitsFrom(s, b + 1, c) && (c < |s| ==> !IsDigit(s[c]))
  }

  lemma {:induction false} DigitsEndAt(s: string, i: nat, j: nat)
    requires i <= j <= |s| && DigitsFrom(s, i, j) && (j < |s| ==> !IsDigit(s[j]))
    ensures DigitsEnd(s, i) == j
    decreases j - i
  {
    if i < j {
      DigitsEndAt(s, i + 1, j);
    }
  }

  lemma TripleReads(s: string, i: nat, a: nat, b: nat, c: nat)
    requires Reads(s, i, a, b, c)
    ensures Starts(s, i) && Triple(s, i) == VersionOf(s, i, a, b, c)
  {
    DigitsEndAt(s, i, a);
    DigitsEndAt(s, a + 1, b);
    DigitsEndAt(s, b + 1, c);
  }

  lemma {:induction false} StartFirst(s: string, i: nat, j: nat)
    requires i <= j < |s| && Starts(s, j)
    requires forall k :: i <= k < j ==> !IsDigit(s[k])
    ensures Start(s, i) == Some(j)
    decreases j - i
  {
    if i < j {
      DigitsEndAt(s, i, i);
      StartFirst(s, i + 1, j);
    }
  }

  /** Three dotted numbers behind text without digits are read as written, whatever
      follows them; a number past 64 bits spoils them. */
  lemma ParseReads(s: string, i: nat, a: nat, b: nat, c: nat)
    requires Reads(s, i, a, b, c) && forall k :: 0 <= k < i ==> !IsDigit(s[k])
    ensures ParseSemver(s) == Bounded(VersionOf(s, i, a, b, c))
  {
    TripleReads(s, i, a, b, c);
    StartFirst(s, 0, i);
  }

  // ---------- exact tokens ----------

  predicate IsVersionChar(c: char) {
    IsDigit(c) || c == '.'
  }

  /** The token stands at i and no version character touches it. */
  predicate WholeAt(s: string, tok: string, i: int) {
    && OccursAt(s, tok, i)
    && (i > 0 ==> !IsVersionChar(s[i - 1]))
    && (i + |tok| < |s| ==> !IsVersionChar(s[i + |tok|]))
  }

  predicate HasWhole(s: string, tok: string) {
    tok != "" && exists i :: 0 <= i <= |s| && WholeAt(s, tok, i)
  }

  /** strings.Index from a position on, -1 when there is none. */
  method Index(s: string, tok: string, start: nat) returns (i: int)
    requires start <= |s|
    ensures i == -1 || (start <= i <= |s| && OccursAt(s, tok, i))
    ensures forall j :: start <= j <= |s| && (i == -1 || j < i) ==> !OccursAt(s, tok, j)
  {
    i := start;
    while i + |tok| <= |s|
      invariant start <= i <= |s| + 1
      invariant forall j :: start <= j < i ==> !OccursAt(s, tok, j)
    {
      if s[i..i + |tok|] == tok {
        return;
      }
      i := i + 1;
    }
    i := -1;
  }

  method TokenMatch(s: string, tok: string) returns (found: bool)
    ensures found <==> HasWhole(s, tok)
  {
    if tok == "" {
      return false;
    }
    var idx := 0;
    while true
      invariant 0 <= idx <= |s|
      invariant forall j :: 0 <= j < idx ==> !WholeAt(s, tok, j)
      decreases |s| - idx
    {
      var i := Index(s, tok, idx);
      if i < 0 {
        return false;
      }
      var before, after := ' ', ' ';
      if i > 0 {
        before := s[i - 1];
      }
      if i + |tok| < |s| {
        after := s[i + |tok|];
      }
      if !IsVersionChar(before) && !IsVersionChar(after) {
        assert WholeAt(s, tok, i);
        return true;
      }
      idx := i + 1;
    }
  }

  function Bare(version: string): string {
    if "v" <= version then version[1..] else version
  }

  predicate LineCarries(line: string, version: string) {
    HasWhole(line, version) || HasWhole(line, Bare(version))
  }

  // ---------- the two questions asked of a pin state ----------

  predicate Says(releases: Releases, lines: seq<string>, artifact: string, i: nat)
    requires i < |lines|
  {
    Owned(releases, lines, artifact, i) && ParseSemver(lines[i]).Some?
  }

  /** The deploy repository pins the artifact at all. */
  predicate Present(releases: Releases, lines: seq<string>, artifact: string) {
    exists i: nat :: i < |lines| && Says(releases, lines, artifact, i)
  }

  predicate Carries(releases: Releases, lines: seq<string>, artifact: string, version: string) {
    version != "" && exists i: nat :: i < |lines| && Owned(releases, lines, artifact, i) && LineCarries(lines[i], version)
  }

  /** Some line of the artifact has reached the version. */
  predicate Reached(releases: Releases, lines: seq<string>, artifact: string, want: Version) {
    exists i: nat :: i < |lines| && Says(releases, lines, artifact, i) && AtLeast(ParseSemver(lines[i]).value, want)
  }

  /** A wanted tag that is no version is looked for literally. */
  predicate AtOrPast(releases: Releases, lines: seq<string>, artifact: string, version: string) {
    match ParseSemver(version)
    case None => Carries(releases, lines, artifact, version)
    case Some(want) => Reached(releases, lines, artifact, want)
  }

  method PinCarriesArtifactVersion(releases: Releases, pinState: string, artifact: string, version: string) returns (r: bool)
    ensures r <==> Carries(releases, Split(pinState), artifact, version)
  {
    if version == "" || artifact == "" {
      return false;
    }
    var lines := Split(pinState);
    var bare := Bare(version);
    var imageToken := ImageToken(artifact);
    var headers := Headers(lines);
    var currentRelease := "";
    for i := 0 to |lines|
      invariant currentRelease == Release(headers, i)
      invariant forall j :: 0 <= j < i ==> !(Owned(releases, lines, artifact, j) && LineCarries(lines[j], version))
    {
      if headers[i].Some? {
        currentRelease := headers[i].value;
        continue;
      }
      var carries := TokenMatch(lines[i], version);
      if !carries && bare != version {
        carries := TokenMatch(lines[i], bare);
      }
      if Contains(lines[i], imageToken) && carries {
        return true;
      }
      if Under(releases, currentRelease, artifact) && carries {
        return true;
      }
    }
    return false;
  }

  predicate SomeVersion(lines: seq<string>) {
    exists k :: 0 <= k < |lines| && ParseSemver(lines[k]).Some?
  }

  method AnyVersion(own: seq<string>) returns (r: bool)
    ensures r <==> SomeVersion(own)
  {
    for k := 0 to |own|
      invariant forall j :: 0 <= j < k ==> ParseSemver(own[j]).None?
    {
      var have := ParseSemver(own[k]);
      if have.Some? {
        return true;
      }
    }
    return false;
  }

  method PinArtifactPresent(releases: Releases, pinState: string, artifact: string) returns (r: bool)
    ensures r <==> Present(releases, Split(pinState), artifact)
  {
    var own := ArtifactPinLines(releases, pinState, artifact);
    OwnLinesPresent(releases, Split(pinState), artifact);
    r := AnyVersion(own);
  }

  lemma OwnLinesPresent(releases: Releases, lines: seq<string>, artifact: string)
    ensures Present(releases, lines, artifact) <==> SomeVersion(OwnLines(releases, lines, artifact, |lines|))
  {
    var own := OwnLines(releases, lines, artifact, |lines|);
    var at := OwnLinesListed(releases, lines, artifact, |lines|);
    if SomeVersion(own) {
      var k :| 0 <= k < |own| && ParseSemver(own[k]).Some?;
      assert Says(releases, lines, artifact, at[k]);
    }
    if Present(releases, lines, artifact) {
      var i: nat :| i < |lines| && Says(releases, lines, artifact, i);
      var k :| 0 <= k < |at| && at[k] == i;
      assert own[k] == lines[i];
    }
  }

  predicate SomeAtLeast(lines: seq<string>, want: Version) {
    exists k :: 0 <= k < |lines| && ParseSemver(lines[k]).Some? && AtLeast(ParseSemver(lines[k]).value, want)
  }

  method AnyAtLeast(own: seq<string>, want: Version) returns (r: bool)
    ensures r <==> SomeAtLeast(own, want)
  {
    for k := 0 to |own|
      invariant forall j :: 0 <= j < k ==> ParseSemver(own[j]).None? || !AtLeast(ParseSemver(own[j]).value, want)
    {
      var have := ParseSemver(own[k]);
      if have.Some? && AtLeast(have.value, want) {
        return true;
      }
    }
    return false;
  }

  method PinAtOrPastArtifactVersion(releases: Releases, pinState: string, artifact: string, version: string) returns (r: bool)
    ensures r <==> AtOrPast(releases, Split(pinState), artifact, version)
  {
    var want := ParseSemver(version);
    if want.None? {
      r := PinCarriesArtifactVersion(releases, pinState, artifact, version);
    } else {
      var own := ArtifactPinLines(releases, pinState, artifact);
      OwnLinesReached(releases, Split(pinState), artifact, want.value);
      r := AnyAtLeast(own, want.value);
    }
  }

  lemma OwnLinesReached(releases: Releases, lines: seq<string>, artifact: string, want: Version)
    ensures Reached(releases, lines, artifact, want) <==> SomeAtLeast(OwnLines(releases, lines, artifact, |lines|), want)
  {
    var own := OwnLines(releases, lines, artifact, |lines|);
    var at := OwnLinesListed(releases, lines, artifact, |lines|);
    if SomeAtLeast(own, want) {
      var k :| 0 <= k < |own| && ParseSemver(own[k]).Some? && AtLeast(ParseSemver(own[k]).value, want);
      assert Says(releases, lines, artifact, at[k]);
    }
    if Reached(releases, lines, artifact, want) {
      var i: nat :| i < |lines| && Says(releases, lines, artifact, i) && AtLeast(ParseSemver(lines[i]).value, want);
      var k :| 0 <= k < |at| && at[k] == i;
      assert own[k] == lines[i];
    }
  }

  // ---------- pins only move forward ----------

  /** Every version that spoke for the artifact has a line at it or past it. */
  ghost predicate Forward(releases: Releases, was: seq<string>, lines: seq<string>, artifact: string) {
    forall i: nat :: i < |was| && Says(releases, was, artifact, i) ==>
      Reached(releases, lines, artifact, ParseSemver(was[i]).value)
  }

  lemma AtLeastTransitive(releases: Releases, lines: seq<string>, artifact: string, v: Version, w: Version)
    requires Reached(releases, lines, artifact, v) && AtLeast(v, w)
    ensures Reached(releases, lines, artifact, w)
  {
    var i: nat :| i < |lines| && Says(releases, lines, artifact, i) && AtLeast(ParseSemver(lines[i]).value, v);
    assert AtLeast(ParseSemver(lines[i]).value, w);
  }

  /** The pins moved forward exactly when every version they had reached they still have. */
  lemma ForwardIff(releases: Releases, was: seq<string>, lines: seq<string>, artifact: string)
    ensures Forward(releases, was, lines, artifact) <==>
            forall want :: Reached(releases, was, artifact, want) ==> Reached(releases, lines, artifact, want)
  {
    if Forward(releases, was, lines, artifact) {
      forall want | Reached(releases, was, artifact, want)
        ensures Reached(releases, lines, artifact, want)
      {
        var i: nat :| i < |was| && Says(releases, was, artifact, i) && AtLeast(ParseSemver(was[i]).value, want);
        AtLeastTransitive(releases, lines, artifact, ParseSemver(was[i]).value, want);
      }
    }
    forall i: nat | i < |was| && Says(releases, was, artifact, i)
      ensures Reached(releases, was, artifact, ParseSemver(was[i]).value)
    {
      AtLeastSelf(ParseSemver(was[i]).value);
    }
  }

  lemma AtLeastSelf(v: Version)
    ensures AtLeast(v, v)
  {
  }

  /** Once the pins have reached a version, moving them forward or asking for an older
      one never takes the answer back. */
  lemma AtOrPastMonotone(releases: Releases, was: seq<string>, lines: seq<string>, artifact: string, version: string, lower: string)
    requires Forward(releases, was, lines, artifact)
    requires ParseSemver(version).Some? && ParseSemver(lower).Some?
    requires AtLeast(ParseSemver(version).value, ParseSemver(lower).value)
    requires AtOrPast(releases, was, artifact, version)
    ensures AtOrPast(releases, lines, artifact, lower)
  {
    ForwardIff(releases, was, lines, artifact);
    AtLeastTransitive(releases, lines, artifact, ParseSemver(version).value, ParseSemver(lower).value);
  }

  /** A pin that is present stays present as pins move forward. */
  lemma PresentStays(releases: Releases, was: seq<string>, lines: seq<string>, artifact: string)
    requires Forward(releases, was, lines, artifact) && Present(releases, was, artifact)
    ensures Present(releases, lines, artifact)
  {
    var i: nat :| i < |was| && Says(releases, was, artifact, i);
    ReachedIsPresent(releases, lines, artifact, ParseSemver(was[i]).value);
  }

  lemma ReachedIsPresent(releases: Releases, lines: seq<string>, artifact: string, want: Version)
    requires Reached(releases, lines, artifact, want)
    ensures Present(releases, lines, artifact)
  {
    var i: nat :| i < |lines| && Says(releases, lines, artifact, i) && AtLeast(ParseSemver(lines[i]).value, want);
    assert Says(releases, lines, artifact, i);
  }

  /** An artifact at or past a version is present, so nothing is waited for that is
      not pinned. */
  lemma AtOrPastIsPresent(releases: Releases, lines: seq<string>, artifact: string, version: string)
    requires ParseSemver(version).Some? && AtOrPast(releases, lines, artifact, version)
    ensures Present(releases, lines, artifact)
  {
    ReachedIsPresent(releases, lines, artifact, ParseSemver(version).value);
  }

  lemma ForwardTransitive(releases: Releases, a: seq<string>, b: seq<string>, c: seq<string>, artifact: string)
    requires Forward(releases, a, b, artifact) && Forward(releases, b, c, artifact)
    ensures Forward(releases, a, c, artifact)
  {
    ForwardIff(releases, a, b, artifact);
    ForwardIff(releases, b, c, artifact);
    ForwardIff(releases, a, c, artifact);
  }

  // ---------- the edits that move pins forward ----------

  /** Line by line: every release header stays, no line loses the artifact's image token,
      and every version that speaks for the artifact stays or goes up. */
  ghost predicate Bumped(releases: Releases, was: seq<string>, lines: seq<string>, artifact: string) {
    && |was| == |lines|
    && (forall i :: 0 <= i < |was| ==> Headers(was)[i] == Headers(lines)[i])
    && (forall i :: 0 <= i < |was| && Contains(was[i], ImageToken(artifact)) ==> Contains(lines[i], ImageToken(artifact)))
    && (forall i :: 0 <= i < |was| && Says(releases, was, artifact, i) ==>
          ParseSemver(lines[i]).Some? && AtLeast(ParseSemver(lines[i]).value, ParseSemver(was[i]).value))
  }

  lemma {:induction false} ReleaseStays(was: seq<Option<string>>, headers: seq<Option<string>>, i: nat)
    requires i <= |was| && i <= |headers|
    requires forall k :: 0 <= k < i ==> was[k] == headers[k]
    ensures Release(was, i) == Release(headers, i)
  {
    if i > 0 {
      ReleaseStays(was, headers, i - 1);
    }
  }

  lemma BumpedForward(releases: Releases, was: seq<string>, lines: seq<string>, artifact: string)
    requires Bumped(releases, was, lines, artifact)
    ensures Forward(releases, was, lines, artifact)
  {
    forall i: nat | i < |was| && Says(releases, was, artifact, i)
      ensures Reached(releases, lines, artifact, ParseSemver(was[i]).value)
    {
      ReleaseStays(Headers(was), Headers(lines), i);
      assert Says(releases, lines, artifact, i);
    }
  }

  function Splice(was: seq<string>, k: nat, block: seq<string>): seq<string>
    requires k <= |was|
  {
    was[..k] + block + was[k..]
  }

  /** A block between releases, or one that opens none itself. */
  predicate Apart(was: seq<string>, k: nat, block: seq<string>)
    requires k <= |was|
  {
    || k == |was| || Header(was[k]).Some?
    || forall m :: 0 <= m < |block| ==> Header(block[m]).None?
  }

  /** The line after position k that was i is now |block| lines further on. */
  function Shifted(i: nat, k: nat, n: nat): nat {
    if i < k then i else i + n
  }

  lemma SpliceAt(was: seq<string>, k: nat, block: seq<string>, i: nat)
    requires k <= |was| && i < |was|
    ensures Shifted(i, k, |block|) < |Splice(was, k, block)| == |was| + |block|
    ensures Splice(was, k, block)[Shifted(i, k, |block|)] == was[i]
  {
  }

  lemma SameHeader(was: seq<string>, i: nat, lines: seq<string>, j: nat)
    requires i < |was| && j < |lines| && was[i] == lines[j]
    ensures Headers(was)[i] == Headers(lines)[j]
  {
    HeadersAt(was, i);
    HeadersAt(lines, j);
  }

  lemma SpliceHeaders(was: seq<string>, k: nat, block: seq<string>, i: nat)
    requires k <= |was| && i < |was|
    ensures Shifted(i, k, |block|) < |Splice(was, k, block)|
    ensures Headers(Splice(was, k, block))[Shifted(i, k, |block|)] == Headers(was)[i]
  {
    SpliceAt(was, k, block, i);
    SameHeader(was, i, Splice(was, k, block), Shifted(i, k, |block|));
  }

  lemma {:induction false} BlockRelease(was: seq<string>, k: nat, block: seq<string>, m: nat)
    requires k <= |was| && m <= |block|
    requires forall j :: 0 <= j < |block| ==> Header(block[j]).None?
    ensures Release(Headers(Splice(was, k, block)), k + m) == Release(Headers(was), k)
  {
    var hs := Headers(Splice(was, k, block));
    if m == 0 {
      forall j | 0 <= j < k
        ensures Headers(was)[j] == hs[j]
      {
        SpliceHeaders(was, k, block, j);
      }
      ReleaseStays(Headers(was), hs, k);
    } else {
      BlockRelease(was, k, block, m - 1);
      HeadersAt(Splice(was, k, block), k + m - 1);
      assert Splice(was, k, block)[k + m - 1] == block[m - 1];
    }
  }

  /** Behind the block a line stands under the release it stood under before. */
  lemma {:induction false} SpliceRelease(was: seq<string>, k: nat, block: seq<string>, i: nat)
    requires k <= i <= |was| && Apart(was, k, block) && (i == k ==> forall m :: 0 <= m < |block| ==> Header(block[m]).None?)
    ensures Release(Headers(Splice(was, k, block)), i + |block|) == Release(Headers(was), i)
    decreases i - k
  {
    if i == k {
      BlockRelease(was, k, block, |block|);
    } else {
      SpliceHeaders(was, k, block, i - 1);
      if Headers(was)[i - 1].None? {
        if i - 1 == k {
          HeadersAt(was, k);
        }
        SpliceRelease(was, k, block, i - 1);
      }
    }
  }

  lemma SpliceOwned(releases: Releases, was: seq<string>, k: nat, block: seq<string>, artifact: string, i: nat)
    requires k <= |was| && i < |was| && Apart(was, k, block)
    ensures var j := Shifted(i, k, |block|);
            && Splice(was, k, block)[j] == was[i]
            && (Owned(releases, Splice(was, k, block), artifact, j) <==> Owned(releases, was, artifact, i))
  {
    SpliceAt(was, k, block, i);
    SpliceHeaders(was, k, block, i);
    if i < k {
      forall m | 0 <= m < i
        ensures Headers(was)[m] == Headers(Splice(was, k, block))[m]
      {
        SpliceHeaders(was, k, block, m);
      }
      ReleaseStays(Headers(was), Headers(Splice(was, k, block)), i);
    } else if Headers(was)[i].None? {
      HeadersAt(was, i);
      SpliceRelease(was, k, block, i);
    }
  }

  lemma SpliceSays(releases: Releases, was: seq<string>, k: nat, block: seq<string>, artifact: string, i: nat)
    requires k <= |was| && i < |was| && Apart(was, k, block)
    ensures var j := Shifted(i, k, |block|);
            && Splice(was, k, block)[j] == was[i]
            && (Says(releases, Splice(was, k, block), artifact, j) <==> Says(releases, was, artifact, i))
  {
    SpliceOwned(releases, was, k, block, artifact, i);
  }

  /** Putting a block in between, whatever it says, moves the pins forward. */
  lemma InsertForward(releases: Releases, was: seq<string>, k: nat, block: seq<string>, artifact: string)
    requires k <= |was| && Apart(was, k, block)
    ensures Forward(releases, was, Splice(was, k, block), artifact)
  {
    forall i: nat | i < |was| && Says(releases, was, artifact, i)
      ensures Reached(releases, Splice(was, k, block), artifact, ParseSemver(was[i]).value)
    {
      SpliceSays(releases, was, k, block, artifact, i);
      AtLeastSelf(ParseSemver(was[i]).value);
    }
  }

  /** And so does taking one out that says no version for the artifact. */
  lemma RemoveForward(releases: Releases, was: seq<string>, k: nat, block: seq<string>, artifact: string)
    requires k <= |was| && Apart(was, k, block)
    requires forall j: nat :: k <= j < k + |block| ==> !Says(releases, Splice(was, k, block), artifact, j)
    ensures Forward(releases, Splice(was, k, block), was, artifact)
  {
    var lines := Splice(was, k, block);
    forall j: nat | j < |lines| && Says(releases, lines, artifact, j)
      ensures Reached(releases, was, artifact, ParseSemver(lines[j]).value)
    {
      assert j < k || j >= k + |block|;
      var i := if j < k then j else j - |block|;
      SpliceSays(releases, was, k, block, artifact, i);
      AtLeastSelf(ParseSemver(was[i]).value);
    }
  }

  // ---------- a version behind other text ----------

  /** From p on, t reads like s. */
  predicate Behind(t: string, p: nat, s: string) {
    |t| == p + |s| && forall k :: 0 <= k < |s| ==> t[p + k] == s[k]
  }

  lemma SliceBehind(t: string, p: nat, s: string, i: nat, j: nat)
    requires Behind(t, p, s) && i <= j <= |s|
    ensures t[p + i..p + j] == s[i..j]
  {
  }

  lemma {:induction false} DigitsEndBehind(t: string, p: nat, s: string, i: nat)
    requires Behind(t, p, s) && i <= |s|
    ensures DigitsEnd(t, p + i) == p + DigitsEnd(s, i)
    decreases |s| - i
  {
    if i < |s| && IsDigit(s[i]) {
      DigitsEndBehind(t, p, s, i + 1);
    }
  }

  lemma NumberBehind(t: string, p: nat, s: string, i: nat, j: nat)
    requires Behind(t, p, s) && i <= j <= |s|
    ensures Number(t[p + i..p + j]) == Number(s[i..j])
  {
    SliceBehind(t, p, s, i, j);
  }

  lemma VersionBehind(t: string, p: nat, s: string, i: nat, a: nat, b: nat, c: nat)
    requires Behind(t, p, s) && i <= a < b < c <= |s|
    ensures VersionOf(t, p + i, p + a, p + b, p + c) == VersionOf(s, i, a, b, c)
  {
    NumberBehind(t, p, s, i, a);
    NumberBehind(t, p, s, a + 1, b);
    NumberBehind(t, p, s, b + 1, c);
  }

  lemma StartsBehind(t: string, p: nat, s: string, i: nat)
    requires Behind(t, p, s) && i <= |s|
    ensures Starts(t, p + i) == Starts(s, i)
  {
    var a := DigitsEnd(s, i);
    DigitsEndBehind(t, p, s, i);
    if a < |s| {
      DigitsEndBehind(t, p, s, a + 1);
      var b := DigitsEnd(s, a + 1);
      if b < |s| {
        DigitsEndBehind(t, p, s, b + 1);
      }
    }
  }

  /** The digit runs that start at i end at a, b and c. */
  predicate Ends(s: string, i: nat, a: nat, b: nat, c: nat) {
    && i <= a < |s| && a == DigitsEnd(s, i)
    && b < |s| && b == DigitsEnd(s, a + 1)
    && c == DigitsEnd(s, b + 1)
  }

  lemma EndsBehind(t: string, p: nat, s: string, i: nat, a: nat, b: nat, c: nat)
    requires Behind(t, p, s) && Ends(s, i, a, b, c)
    ensures Ends(t, p + i, p + a, p + b, p + c)
  {
    DigitsEndBehind(t, p, s, i);
    DigitsEndBehind(t, p, s, a + 1);
    DigitsEndBehind(t, p, s, b + 1);
  }

  lemma TripleAt(s: string, i: nat, a: nat, b: nat, c: nat)
    requires Ends(s, i, a, b, c) && Starts(s, i)
    ensures i <= a < b < c <= |s| && Triple(s, i) == VersionOf(s, i, a, b, c)
  {
  }

  lemma SomeEnds(s: string, i: nat) returns (a: nat, b: nat, c: nat)
    requires i <= |s| && Starts(s, i)
    ensures Ends(s, i, a, b, c)
  {
    a := DigitsEnd(s, i);
    b := DigitsEnd(s, a + 1);
    c := DigitsEnd(s, b + 1);
  }

  lemma TripleBehind(t: string, p: nat, s: string, i: nat)
    requires Behind(t, p, s) && i <= |s| && Starts(s, i) && Starts(t, p + i)
    ensures Triple(t, p + i) == Triple(s, i)
  {
    var a, b, c := SomeEnds(s, i);
    EndsBehind(t, p, s, i, a, b, c);
    TripleAt(s, i, a, b, c);
    TripleAt(t, p + i, p + a, p + b, p + c);
    VersionBehind(t, p, s, i, a, b, c);
  }

  function Moved(p: nat, j: Option<nat>): Option<nat> {
    match j
    case Some(i) => Some(p + i)
    case None => None
  }

  lemma StartStepBehind(t: string, p: nat, s: string, i: nat)
    requires |t| == p + |s| && i < |s| && Starts(t, p + i) == Starts(s, i)
    requires Start(t, p + (i + 1)) == Moved(p, Start(s, i + 1))
    ensures Start(t, p + i) == Moved(p, Start(s, i))
  {
  }

  lemma {:induction false} StartBehind(t: string, p: nat, s: string, i: nat)
    requires Behind(t, p, s) && i <= |s|
    ensures Start(t, p + i) == Moved(p, Start(s, i))
    decreases |s| - i
  {
    if i < |s| {
      StartsBehind(t, p, s, i);
      StartBehind(t, p, s, i + 1);
      StartStepBehind(t, p, s, i);
    }
  }

  lemma NoDigitNoStart(s: string, i: nat)
    requires i < |s| && !IsDigit(s[i])
    ensures Start(s, i) == Start(s, i + 1)
  {
  }

  lemma {:induction false} StartSkips(s: string, i: nat, j: nat)
    requires i <= j <= |s| && forall k :: i <= k < j ==> !IsDigit(s[k])
    ensures Start(s, i) == Start(s, j)
    decreases j - i
  {
    if i < j {
      NoDigitNoStart(s, i);
      StartSkips(s, i + 1, j);
    }
  }

  lemma FoundBehind(t: string, p: nat, s: string, i: nat)
    requires Behind(t, p, s) && i <= |s| && Starts(s, i)
    ensures Starts(t, p + i) && Triple(t, p + i) == Triple(s, i)
  {
    StartsBehind(t, p, s, i);
    TripleBehind(t, p, s, i);
  }

  lemma SameStartParse(t: string, s: string, j: Option<nat>, i: Option<nat>)
    requires Start(t, 0) == j && Start(s, 0) == i && j.Some? == i.Some?
    requires i.Some? ==> Triple(t, j.value) == Triple(s, i.value)
    ensures ParseSemver(t) == ParseSemver(s)
  {
  }

  lemma StartPast(t: string, p: nat, s: string)
    requires Behind(t, p, s) && forall k :: 0 <= k < p ==> !IsDigit(t[k])
    ensures Start(t, 0) == Moved(p, Start(s, 0))
  {
    StartSkips(t, 0, p);
    StartBehind(t, p, s, 0);
  }

  /** Text without digits in front does not change what is read. */
  lemma ParseBehind(t: string, p: nat, s: string)
    requires Behind(t, p, s) && forall k :: 0 <= k < p ==> !IsDigit(t[k])
    ensures ParseSemver(t) == ParseSemver(s)
  {
    var i := Start(s, 0);
    StartPast(t, p, s);
    if i.Some? {
      FoundBehind(t, p, s, i.value);
    }
    SameStartParse(t, s, Moved(p, i), i);
  }

  // ---------- tags that are no version ----------

  lemma LiteralCarried(releases: Releases, v: string)
    requires v != ""
    ensures Carries(releases, ["/a:" + v], "a", v)
  {
    var line := "/a:" + v;
    assert ImageToken("a") == "/a:";
    assert line[0..3] == "/a:" && OccursAt(line, ImageToken("a"), 0);
    assert line[3..3 + |v|] == v && WholeAt(line, v, 3);
    assert SpaceEnd(line, 0) == 0 && Header(line).None?;
    HeadersAt([line], 0);
    assert Owned(releases, [line], "a", 0) && LineCarries([line][0], v);
  }

  lemma LiteralRead(v: string)
    ensures ParseSemver("/a:" + v) == ParseSemver(v)
  {
    ParseBehind("/a:" + v, 3, v);
  }

  /** A tag that is no version is matched literally, and there taking out a line that
      says no version, a forward move, takes the answer back. */
  lemma LiteralStepsBack(releases: Releases, v: string)
    requires v != "" && ParseSemver(v).None?
    ensures AtOrPast(releases, ["/a:" + v], "a", v)
    ensures Forward(releases, ["/a:" + v], [], "a") && !AtOrPast(releases, [], "a", v)
  {
    LiteralCarried(releases, v);
    LiteralRead(v);
    assert forall i: nat :: i < 1 ==> !Says(releases, ["/a:" + v], "a", i);
  }

  /** No forward move takes the answer for this tag back. */
  ghost predicate KeptForward(releases: Releases, v: string) {
    forall artifact, was, lines ::
      Forward(releases, was, lines, artifact) && AtOrPast(releases, was, artifact, v) ==> AtOrPast(releases, lines, artifact, v)
  }

  /** At or past is kept by every forward move, of every artifact's pins, exactly for the
      tags that are a version, and the empty one, which nothing is ever at. */
  lemma KeptForwardIff(releases: Releases, v: string)
    ensures KeptForward(releases, v) <==> v == "" || ParseSemver(v).Some?
  {
    if v == "" {
      assert ParseSemver(v).None?;
    } else if ParseSemver(v).Some? {
      forall artifact, was, lines | Forward(releases, was, lines, artifact) && AtOrPast(releases, was, artifact, v)
        ensures AtOrPast(releases, lines, artifact, v)
      {
        AtLeastSelf(ParseSemver(v).value);
        AtOrPastMonotone(releases, was, lines, artifact, v, v);
      }
    } else {
      LiteralStepsBack(releases, v);
    }
  }

  // ---------- the tags the forge answers with ----------

  /** The first hyphen or plus from i on, where a suffix starts. */
  function SuffixStart(s: string, i: nat): (j: nat)
    requires i <= |s|
    ensures i <= j <= |s| && (j < |s| ==> s[j] == '-' || s[j] == '+')
    decreases |s| - i
  {
    if i == |s| || s[i] == '-' || s[i] == '+' then i else SuffixStart(s, i + 1)
  }

  /** The first dot from i on and before end, or end. */
  function DotEnd(s: string, i: nat, end: nat): (j: nat)
    requires i <= end <= |s|
    ensures i <= j <= end && (j < end ==> s[j] == '.')
    decreases end - i
  {
    if i == end || s[i] == '.' then i else DotEnd(s, i + 1, end)
  }

  /** What strconv.Atoi accepts of text that holds no sign. */
  predicate IsNumber(d: string) {
    d != "" && DigitsFrom(d, 0, |d|) && Number(d) <= INT_MAX
  }

  /** The version of a tag: behind an optional v and before any suffix, exactly three
      dotted numbers. The forge's reader answers with such tags only. */
  function ForgeTag(tag: string): Option<Version> {
    var i := if tag != "" && tag[0] == 'v' then 1 else 0;
    var end := SuffixStart(tag, i);
    var a := DotEnd(tag, i, end);
    if a == end then None
    else
      var b := DotEnd(tag, a + 1, end);
      if b == end || DotEnd(tag, b + 1, end) != end then None
      else if IsNumber(tag[i..a]) && IsNumber(tag[a + 1..b]) && IsNumber(tag[b + 1..end]) then Some(VersionOf(tag, i, a, b, end))
      else None
  }

  lemma SliceDigits(s: string, i: nat, j: nat)
    requires i <= j <= |s| && IsNumber(s[i..j])
    ensures i < j && DigitsFrom(s, i, j) && Number(s[i..j]) <= INT_MAX
  {
    var d := s[i..j];
    assert forall k :: i <= k < j ==> s[k] == d[k - i];
  }

  lemma ForgeTagReads(tag: string) returns (i: nat, a: nat, b: nat, c: nat)
    requires ForgeTag(tag).Some?
    ensures Reads(tag, i, a, b, c) && (i == 0 || (i == 1 && tag[0] == 'v'))
    ensures ForgeTag(tag) == Bounded(VersionOf(tag, i, a, b, c))
  {
    i := if tag != "" && tag[0] == 'v' then 1 else 0;
    c := SuffixStart(tag, i);
    a := DotEnd(tag, i, c);
    b := DotEnd(tag, a + 1, c);
    SliceDigits(tag, i, a);
    SliceDigits(tag, a + 1, b);
    SliceDigits(tag, b + 1, c);
  }

  /** Every tag the forge answers with is the version it is taken for, so that no forward
      move takes its answer back. */
  lemma ForgeTagKept(releases: Releases, tag: string)
    requires ForgeTag(tag).Some?
    ensures ParseSemver(tag) == ForgeTag(tag) && KeptForward(releases, tag)
  {
    var i, a, b, c := ForgeTagReads(tag);
    ParseReads(tag, i, a, b, c);
    KeptForwardIff(releases, tag);
  }

  /** A line that names the image with a version has reached every tag up to it. */
  lemma NamedVersionReached(releases: Releases, artifact: string, line: string, i: nat, a: nat, b: nat, c: nat, tag: string)
    requires artifact != "" && Header(line).None? && Contains(line, ImageToken(artifact))
    requires Reads(line, i, a, b, c) && forall k :: 0 <= k < i ==> !IsDigit(line[k])
    requires Bounded(VersionOf(line, i, a, b, c)).Some?
    requires ParseSemver(tag).Some?
    ensures AtOrPast(releases, [line], artifact, tag) <==> AtLeast(VersionOf(line, i, a, b, c), ParseSemver(tag).value)
  {
    ParseReads(line, i, a, b, c);
    HeadersAt([line], 0);
    assert Says(releases, [line], artifact, 0);
  }

  /** The table of releases names the operator only, so every other artifact's lines are
      those that name its image. */
  lemma OthersNameTheirImage(lines: seq<string>, artifact: string, i: nat)
    requires i < |lines| && artifact != "tatara-operator" && Owned(RELEASES, lines, artifact, i)
    ensures Contains(lines[i], ImageToken(artifact))
  {
    assert forall release :: release in RELEASES ==> RELEASES[release] == "tatara-operator";
  }
}
