/** Byte strings, well-formed UTF-8 as section 4 of RFC 3629 has it, and the one
    byte cut every clamp of the operator goes through. */
module Utf8 {

  newtype byte = b: int | 0 <= b < 256

  type Bytes = seq<byte>

  predicate Tail(b: byte) {
    0x80 <= b <= 0xBF
  }

  /** The length of the well-formed character `s` starts with, and 0 if there is none. */
  function CharLen(s: Bytes): (n: nat)
    ensures n <= 4 && n <= |s|
  {
    if s == [] then 0
    else if s[0] <= 0x7F then 1
    else if 0xC2 <= s[0] <= 0xDF then
      if |s| >= 2 && Tail(s[1]) then 2 else 0
    else if 0xE0 <= s[0] <= 0xEF then
      if |s| >= 3 && Tail(s[1]) && Tail(s[2])
         && (s[0] == 0xE0 ==> 0xA0 <= s[1]) && (s[0] == 0xED ==> s[1] <= 0x9F) then 3 else 0
    else if 0xF0 <= s[0] <= 0xF4 then
      if |s| >= 4 && Tail(s[1]) && Tail(s[2]) && Tail(s[3])
         && (s[0] == 0xF0 ==> 0x90 <= s[1]) && (s[0] == 0xF4 ==> s[1] <= 0x8F) then 4 else 0
    else 0
  }

  predicate WellFormed(s: Bytes) {
    s == [] || (CharLen(s) > 0 && WellFormed(s[CharLen(s)..]))
  }

  // ---------- what well-formed means: the encodings of scalar values ----------

  /** A Unicode scalar value: a code point outside the surrogate range. */
  type Scalar = c: int | 0 <= c < 0xD800 || 0xE000 <= c < 0x11_0000

  /** A tail byte carrying six bits. */
  function TailByte(bits: int): byte
    requires 0 <= bits < 0x40
  {
    (0x80 + bits) as byte
  }

  function Bits(b: byte): (bits: int)
    requires Tail(b)
    ensures 0 <= bits < 0x40
  {
    b as int - 0x80
  }

  function EncodeScalar(c: Scalar): Bytes {
    var hi, lo := c / 0x40, TailByte(c % 0x40);
    if c < 0x80 then [c as byte]
    else if c < 0x800 then [(0xC0 + hi) as byte, lo]
    else if c < 0x1_0000 then [(0xE0 + hi / 0x40) as byte, TailByte(hi % 0x40), lo]
    else [(0xF0 + hi / 0x40 / 0x40) as byte, TailByte(hi / 0x40 % 0x40), TailByte(hi % 0x40), lo]
  }

  function Encode(cs: seq<Scalar>): Bytes {
    if cs == [] then [] else EncodeScalar(cs[0]) + Encode(cs[1..])
  }

  function DecodeScalar(s: Bytes): Scalar
    requires CharLen(s) > 0
  {
    match CharLen(s)
    case 1 => s[0] as int
    case 2 => (s[0] as int - 0xC0) * 0x40 + Bits(s[1])
    case 3 => ((s[0] as int - 0xE0) * 0x40 + Bits(s[1])) * 0x40 + Bits(s[2])
    case 4 => (((s[0] as int - 0xF0) * 0x40 + Bits(s[1])) * 0x40 + Bits(s[2])) * 0x40 + Bits(s[3])
  }

  function Decode(s: Bytes): seq<Scalar>
    requires WellFormed(s)
  {
    if s == [] then [] else [DecodeScalar(s)] + Decode(s[CharLen(s)..])
  }

  lemma ScalarRoundTrip(c: Scalar, rest: Bytes)
    ensures CharLen(EncodeScalar(c) + rest) == |EncodeScalar(c)|
    ensures DecodeScalar(EncodeScalar(c) + rest) == c
  {
    var s := EncodeScalar(c) + rest;
    var hi := c / 0x40;
    if c < 0x80 {
      assert s[0] as int == c;
    } else if c < 0x800 {
      assert s[0] as int == 0xC0 + hi && Bits(s[1]) == c % 0x40;
    } else if c < 0x1_0000 {
      assert s[0] as int == 0xE0 + hi / 0x40 && Bits(s[1]) == hi % 0x40 && Bits(s[2]) == c % 0x40;
    } else {
      assert s[0] as int == 0xF0 + hi / 0x40 / 0x40 && Bits(s[1]) == hi / 0x40 % 0x40;
      assert Bits(s[2]) == hi % 0x40 && Bits(s[3]) == c % 0x40;
    }
  }

  lemma Digits(x: int, d: int)
    requires 0 <= d < 0x40
    ensures (x * 0x40 + d) / 0x40 == x && (x * 0x40 + d) % 0x40 == d
  {
  }

  lemma CharRoundTrip(s: Bytes)
    requires CharLen(s) > 0
    ensures EncodeScalar(DecodeScalar(s)) == s[..CharLen(s)]
  {
    match CharLen(s)
    case 1 =>
    case 2 =>
      Digits(s[0] as int - 0xC0, Bits(s[1]));
    case 3 =>
      ThreeRoundTrip(s);
    case 4 =>
      FourRoundTrip(s);
  }

  lemma ThreeRoundTrip(s: Bytes)
    requires CharLen(s) == 3
    ensures EncodeScalar(DecodeScalar(s)) == s[..3]
  {
    var x := (s[0] as int - 0xE0) * 0x40 + Bits(s[1]);
    Digits(s[0] as int - 0xE0, Bits(s[1]));
    Digits(x, Bits(s[2]));
    assert 0x800 <= x * 0x40 + Bits(s[2]) < 0x1_0000;
  }

  lemma FourRoundTrip(s: Bytes)
    requires CharLen(s) == 4
    ensures EncodeScalar(DecodeScalar(s)) == s[..4]
  {
    var x := (s[0] as int - 0xF0) * 0x40 + Bits(s[1]);
    var y := x * 0x40 + Bits(s[2]);
    Digits(s[0] as int - 0xF0, Bits(s[1]));
    Digits(x, Bits(s[2]));
    Digits(y, Bits(s[3]));
    assert 0x1_0000 <= y * 0x40 + Bits(s[3]) < 0x11_0000;
  }

  /** A byte string is well-formed exactly when it is the encoding of some scalar
      values, and then those values are read back from it. */
  lemma {:induction false} EncodeWellFormed(cs: seq<Scalar>)
    ensures WellFormed(Encode(cs)) && Decode(Encode(cs)) == cs
  {
    if cs != [] {
      var first, rest := EncodeScalar(cs[0]), Encode(cs[1..]);
      ScalarRoundTrip(cs[0], rest);
      assert (first + rest)[|first|..] == rest;
      EncodeWellFormed(cs[1..]);
    }
  }

  lemma {:induction false} DecodeRoundTrip(s: Bytes)
    requires WellFormed(s)
    ensures Encode(Decode(s)) == s
  {
    if s != [] {
      var n := CharLen(s);
      assert s == s[..n] + s[n..];
      assert Decode(s)[0] == DecodeScalar(s) && Decode(s)[1..] == Decode(s[n..]);
      DecodeRoundTrip(s[n..]);
      CharRoundTrip(s);
    }
  }

  // ---------- TruncateUTF8 ----------

  /** The longest well-formed prefix of `s` of at most `n` bytes. */
  function LongestPrefix(s: Bytes, n: nat): (r: Bytes)
    requires n <= |s|
  {
    if WellFormed(s[..n]) || n == 0 then s[..n] else LongestPrefix(s, n - 1)
  }

  function Truncate(s: Bytes, max: nat): Bytes {
    if |s| <= max then s else LongestPrefix(s, max)
  }

  method TruncateUTF8(s: Bytes, maxBytes: nat) returns (cut: Bytes)
    ensures cut == Truncate(s, maxBytes)
  {
    if |s| <= maxBytes {
      return s;
    }
    cut := s[..maxBytes];
    while |cut| > 0 && !WellFormed(cut)
      invariant |cut| <= maxBytes && cut == s[..|cut|]
      invariant LongestPrefix(s, |cut|) == LongestPrefix(s, maxBytes)
    {
      cut := cut[..|cut| - 1];
    }
  }

  lemma {:induction false} LongestPrefixIsLongest(s: Bytes, n: nat)
    requires n <= |s|
    ensures LongestPrefix(s, n) <= s && |LongestPrefix(s, n)| <= n
    ensures WellFormed(LongestPrefix(s, n))
    ensures forall k :: |LongestPrefix(s, n)| < k <= n ==> !WellFormed(s[..k])
  {
    if !WellFormed(s[..n]) && n != 0 {
      LongestPrefixIsLongest(s, n - 1);
    }
  }

  /** Nothing else is the longest well-formed prefix within the limit. */
  lemma LongestPrefixUnique(s: Bytes, n: nat, r: Bytes)
    requires n <= |s|
    requires r <= s && |r| <= n && WellFormed(r)
    requires forall k :: |r| < k <= n ==> !WellFormed(s[..k])
    ensures r == LongestPrefix(s, n)
  {
    LongestPrefixIsLongest(s, n);
    var l := LongestPrefix(s, n);
    assert r == s[..|r|] && l == s[..|l|];
  }

  /** An input that fits comes back byte for byte, and any other as its longest
      well-formed prefix within the limit. */
  lemma TruncateLongest(s: Bytes, max: nat)
    ensures |s| <= max ==> Truncate(s, max) == s
    ensures |s| > max ==>
              && Truncate(s, max) <= s
              && |Truncate(s, max)| <= max
              && WellFormed(Truncate(s, max))
              && forall k :: |Truncate(s, max)| < k <= max ==> !WellFormed(s[..k])
  {
    if |s| > max {
      LongestPrefixIsLongest(s, max);
    }
  }

  /** The last character boundary of `s` at or before `n`. */
  function Boundary(s: Bytes, n: nat): (k: nat)
    requires WellFormed(s) && n <= |s|
    ensures k <= n
  {
    if s == [] || n < CharLen(s) then 0
    else CharLen(s) + Boundary(s[CharLen(s)..], n - CharLen(s))
  }

  lemma {:induction false} BoundaryClose(s: Bytes, n: nat)
    requires WellFormed(s) && n <= |s|
    ensures n - Boundary(s, n) <= 3
  {
    if s != [] && n >= CharLen(s) {
      BoundaryClose(s[CharLen(s)..], n - CharLen(s));
    }
  }

  lemma {:induction false} BoundaryWellFormed(s: Bytes, n: nat)
    requires WellFormed(s) && n <= |s|
    ensures WellFormed(s[..Boundary(s, n)])
  {
    if s == [] || n < CharLen(s) {
      assert s[..Boundary(s, n)] == [];
    } else {
      var c := CharLen(s);
      BoundaryWellFormed(s[c..], n - c);
      CharInFront(s, s[..c + Boundary(s[c..], n - c)], Boundary(s[c..], n - c));
    }
  }

  lemma CharInFront(s: Bytes, p: Bytes, k: nat)
    requires s != [] && WellFormed(s) && CharLen(s) + k <= |s| && p == s[..CharLen(s) + k]
    requires WellFormed(s[CharLen(s)..][..k])
    ensures WellFormed(p)
  {
    assert p[CharLen(s)..] == s[CharLen(s)..][..k];
    assert CharLen(p) == CharLen(s);
  }

  /** Well-formed input loses no more than the part of one character that does not fit. */
  lemma TruncateDropsAtMostThree(s: Bytes, max: nat)
    requires WellFormed(s) && |s| > max
    ensures max - 3 <= |Truncate(s, max)| <= max
  {
    BoundaryClose(s, max);
    BoundaryWellFormed(s, max);
    LongestPrefixIsLongest(s, max);
  }

  /** Cutting twice is cutting once at the smaller limit, for every byte string. */
  lemma TruncateTwice(s: Bytes, a: nat, b: nat)
    ensures Truncate(Truncate(s, a), b) == Truncate(s, if a < b then a else b)
  {
    if |s| > a {
      var cut := Truncate(s, a);
      LongestPrefixIsLongest(s, a);
      if a < b {
      } else if |cut| <= b {
        LongestPrefixUnique(s, b, cut);
      } else {
        LongestPrefixIsLongest(cut, b);
        var r := LongestPrefix(cut, b);
        forall k | |r| < k <= b
          ensures !WellFormed(s[..k])
        {
          assert cut[..k] == s[..k];
        }
        LongestPrefixUnique(s, b, r);
      }
    }
  }

  /** The three-byte bound is for well-formed input only: bytes that never start a
      character are all lost. */
  lemma IllFormedMayLoseAll()
    ensures Truncate([0xFF, 0xFF, 0xFF, 0xFF, 0xFF, 0xFF], 5) == []
  {
    var s: Bytes := [0xFF, 0xFF, 0xFF, 0xFF, 0xFF, 0xFF];
    forall k | 0 < k <= 5
      ensures !WellFormed(s[..k])
    {
      assert s[..k][0] == 0xFF;
    }
    LongestPrefixUnique(s, 5, []);
  }
}
