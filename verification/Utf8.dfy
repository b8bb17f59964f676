/** UTF-8 (section 3 of RFC 3629): sizes, encoding, and a decoder that puts U+FFFD for what is not well formed. */
module Utf8 {
  import opened Sequences

  type Byte = n: int | 0 <= n < 256

  const REPLACEMENT: char := 0xFFFD as char

  function CharSize(c: char): (n: nat)
    ensures 1 <= n <= 4
  {
    if c as int < 0x80 then 1 else if c as int < 0x800 then 2 else if c as int < 0x10000 then 3 else 4
  }

  function Utf8Length(s: string): nat {
    if s == "" then 0 else CharSize(s[0]) + Utf8Length(s[1..])
  }

  lemma {:induction false} Utf8Concat(a: string, b: string)
    ensures Utf8Length(a + b) == Utf8Length(a) + Utf8Length(b)
  {
    if a == "" {
      assert a + b == b;
    } else {
      Utf8Concat(a[1..], b);
      assert (a + b)[1..] == a[1..] + b;
    }
  }

  lemma {:induction false} Utf8Covers(s: string)
    ensures |s| <= Utf8Length(s)
  {
    if s != "" {
      Utf8Covers(s[1..]);
    }
  }

  function EncodeChar(c: char): (bytes: seq<Byte>)
    ensures |bytes| == CharSize(c)
    ensures forall i :: 1 <= i < |bytes| ==> IsTail(bytes[i])
  {
    var n := c as int;
    if n < 0x80 then [n]
    else if n < 0x800 then [0xC0 + n / 64, 0x80 + n % 64]
    else if n < 0x10000 then [0xE0 + n / 4096, 0x80 + n / 64 % 64, 0x80 + n % 64]
    else [0xF0 + n / 262144, 0x80 + n / 4096 % 64, 0x80 + n / 64 % 64, 0x80 + n % 64]
  }

  function Encode(s: string): seq<Byte> {
    if s == "" then [] else EncodeChar(s[0]) + Encode(s[1..])
  }

  lemma {:induction false} EncodeLength(s: string)
    ensures |Encode(s)| == Utf8Length(s)
  {
    if s != "" {
      EncodeLength(s[1..]);
    }
  }

  predicate IsTail(b: Byte) {
    0x80 <= b <= 0xBF
  }

  /** How many bytes must follow this one; none of them can help a byte that starts no character. */
  function TailsNeeded(b: Byte): (n: int)
    ensures -1 <= n <= 3
  {
    if b < 0x80 then 0
    else if 0xC2 <= b <= 0xDF then 1
    else if 0xE0 <= b <= 0xEF then 2
    else if 0xF0 <= b <= 0xF4 then 3
    else -1
  }

  /** The second byte rules out overlong forms, surrogates, and what lies beyond U+10FFFF. */
  predicate IsSecond(first: Byte, b: Byte) {
    && IsTail(b)
    && (first == 0xE0 ==> b >= 0xA0)
    && (first == 0xED ==> b <= 0x9F)
    && (first == 0xF0 ==> b >= 0x90)
    && (first == 0xF4 ==> b <= 0x8F)
  }

  /** How many of the bytes after the first go on with its character. */
  function TailsPresent(bytes: seq<Byte>): (n: nat)
    requires bytes != []
    ensures n < |bytes| && n <= 3
  {
    if |bytes| < 2 || !IsSecond(bytes[0], bytes[1]) then 0
    else if |bytes| < 3 || !IsTail(bytes[2]) then 1
    else if |bytes| < 4 || !IsTail(bytes[3]) then 2
    else 3
  }

  function CodePoint(bytes: seq<Byte>): (c: char)
    requires bytes != [] && TailsNeeded(bytes[0]) >= 0 && TailsPresent(bytes) >= TailsNeeded(bytes[0])
  {
    var n := TailsNeeded(bytes[0]);
    var first: int := bytes[0];
    if n == 0 then first as char
    else if n == 1 then ((first - 0xC0) * 64 + Low(bytes[1])) as char
    else if n == 2 then ((first - 0xE0) * 4096 + Low(bytes[1]) * 64 + Low(bytes[2])) as char
    else ((first - 0xF0) * 262144 + Low(bytes[1]) * 4096 + Low(bytes[2]) * 64 + Low(bytes[3])) as char
  }

  /** The six bits a following byte carries. */
  function Low(b: Byte): (n: int)
    requires IsTail(b)
    ensures 0 <= n < 64 && b == 0x80 + n
  {
    b as int - 0x80
  }

  /**
   What stands at the head of a byte sequence: a character, an ill-formed stretch, or the beginning of a character.
   */
  datatype Head = Character(c: char, size: nat) | IllFormed(size: nat) | Incomplete

  function HeadOf(bytes: seq<Byte>): (h: Head)
    requires bytes != []
    ensures !h.Incomplete? ==> 1 <= h.size <= |bytes|
  {
    var needed, present := TailsNeeded(bytes[0]), TailsPresent(bytes);
    if needed < 0 then IllFormed(1)
    else if present >= needed then Character(CodePoint(bytes), needed + 1)
    else if |bytes| == present + 1 then Incomplete
    else IllFormed(present + 1)
  }

  /** Decoding as far as whole characters go, and the bytes left over because a character is not complete. */
  function DecodeComplete(bytes: seq<Byte>): (r: (string, seq<Byte>))
    ensures r.1 == [] || HeadOf(r.1).Incomplete?
    ensures r.1 == bytes || |r.1| < |bytes|
    decreases |bytes|
  {
    if bytes == [] || HeadOf(bytes).Incomplete? then ("", bytes)
    else
      var (text, rest) := DecodeComplete(bytes[HeadOf(bytes).size..]);
      ([Shown(HeadOf(bytes))] + text, rest)
  }

  function Shown(h: Head): char
    requires !h.Incomplete?
  {
    if h.Character? then h.c else REPLACEMENT
  }

  lemma DecodeHead(bytes: seq<Byte>)
    requires bytes != [] && !HeadOf(bytes).Incomplete?
    ensures var rest := DecodeComplete(bytes[HeadOf(bytes).size..]);
            DecodeComplete(bytes) == ([Shown(HeadOf(bytes))] + rest.0, rest.1)
  {
  }

  /** Decoding all there is: a character that is cut off at the end is ill-formed too. */
  function Decode(bytes: seq<Byte>): string {
    var (text, rest) := DecodeComplete(bytes);
    if rest == [] then text else text + [REPLACEMENT]
  }

  /** More bytes do not change what stands at the head, unless it was incomplete. */
  lemma HeadIsStable(a: seq<Byte>, b: seq<Byte>)
    requires a != [] && !HeadOf(a).Incomplete?
    ensures HeadOf(a + b) == HeadOf(a)
  {
  }

  /** Decoding in two steps: what the first left over goes before what comes next. */
  lemma {:induction false} DecodeInSteps(a: seq<Byte>, b: seq<Byte>)
    ensures var (text, rest) := DecodeComplete(a);
            DecodeComplete(a + b) == (text + DecodeComplete(rest + b).0, DecodeComplete(rest + b).1)
    decreases |a|
  {
    hide *;
    if a == [] {
      DecodeNothing();
      Neutral(b);
      Neutral(DecodeComplete(b).0);
    } else if HeadOf(a).Incomplete? {
      DecodeStopped(a);
      Neutral(DecodeComplete(a + b).0);
    } else {
      var size := HeadOf(a).size;
      HeadIsStable(a, b);
      DecodeInSteps(a[size..], b);
      DropOfSum(a, b, size);
      DecodeHead(a);
      DecodeHead(a + b);
      var (text, rest) := DecodeComplete(a[size..]);
      Associative([Shown(HeadOf(a))], text, DecodeComplete(rest + b).0);
    }
  }

  lemma DecodeNothing()
    ensures DecodeComplete([]) == ("", [])
  {
  }

  lemma DecodeStopped(bytes: seq<Byte>)
    requires bytes != [] && HeadOf(bytes).Incomplete?
    ensures DecodeComplete(bytes) == ("", bytes)
  {
  }

  lemma TwoBytes(n: int, rest: seq<Byte>)
    requires 0x80 <= n < 0x800
    ensures EncodeChar(n as char) == [0xC0 + n / 64, 0x80 + n % 64]
    ensures HeadOf(EncodeChar(n as char) + rest) == Character(n as char, 2)
  {
    var bytes := [0xC0 + n / 64, 0x80 + n % 64] + rest;
    assert TailsPresent(bytes) >= 1 && TailsNeeded(bytes[0]) == 1;
    assert n == 64 * (n / 64) + n % 64;
  }

  lemma ThreeBytes(n: int, rest: seq<Byte>)
    requires 0x800 <= n < 0xD800 || 0xE000 <= n < 0x10000
    ensures HeadOf(EncodeChar(n as char) + rest) == Character(n as char, 3)
  {
    var a, b, c := n / 4096, n / 64 % 64, n % 64;
    assert n == 4096 * a + 64 * b + c;
    var bytes := [0xE0 + a, 0x80 + b, 0x80 + c] + rest;
    assert EncodeChar(n as char) + rest == bytes;
    assert bytes[0] == 0xE0 + a && bytes[1] == 0x80 + b && bytes[2] == 0x80 + c;
    assert IsSecond(bytes[0], bytes[1]) && IsTail(bytes[2]);
    assert TailsPresent(bytes) >= 2 && TailsNeeded(bytes[0]) == 2;
  }

  /** The four parts of a number above U+FFFF: the first two rule each other out as the second byte is to do. */
  lemma FourParts(n: int)
    requires 0x10000 <= n < 0x110000
    ensures var a, b, c, d := n / 262144, n / 4096 % 64, n / 64 % 64, n % 64;
            && n == 262144 * a + 4096 * b + 64 * c + d
            && 0 <= a <= 4 && (a == 0 ==> b >= 16) && (a == 4 ==> b < 16)
  {
    var m := n / 64;
    assert n == 64 * m + n % 64 && m == 64 * (m / 64) + m % 64;
    assert n / 4096 == m / 64;
    var k := n / 4096;
    assert k == 64 * (k / 64) + k % 64 && n / 262144 == k / 64;
  }

  /** A number above U+FFFF in its four bytes. */
  lemma EncodedInFour(n: int) returns (a: int, b: int, c: int, d: int)
    requires 0x10000 <= n < 0x110000
    ensures 0 <= a <= 4 && 0 <= b < 64 && 0 <= c < 64 && 0 <= d < 64
    ensures n == 262144 * a + 4096 * b + 64 * c + d && (a == 0 ==> b >= 16) && (a == 4 ==> b < 16)
    ensures EncodeChar(n as char) == [0xF0 + a, 0x80 + b, 0x80 + c, 0x80 + d]
  {
    a, b, c, d := n / 262144, n / 4096 % 64, n / 64 % 64, n % 64;
    FourParts(n);
  }

  lemma FourBytes(n: int, rest: seq<Byte>)
    requires 0x10000 <= n < 0x110000
    ensures HeadOf(EncodeChar(n as char) + rest) == Character(n as char, 4)
  {
    hide EncodeChar;
    var a, b, c, d := EncodedInFour(n);
    var bytes := [0xF0 + a, 0x80 + b, 0x80 + c, 0x80 + d] + rest;
    assert bytes[0] == 0xF0 + a && bytes[1] == 0x80 + b && bytes[2] == 0x80 + c && bytes[3] == 0x80 + d;
    assert IsSecond(bytes[0], bytes[1]) && IsTail(bytes[2]) && IsTail(bytes[3]);
    assert TailsPresent(bytes) == 3 && TailsNeeded(bytes[0]) == 3;
    assert CodePoint(bytes) == n as char;
    hide CodePoint, IsSecond, IsTail, TailsNeeded, TailsPresent;
  }

  /** The bytes of a character are read back as that character, whatever follows. */
  lemma HeadOfChar(c: char, rest: seq<Byte>)
    ensures HeadOf(EncodeChar(c) + rest) == Character(c, CharSize(c))
  {
    hide HeadOf, EncodeChar;
    var n := c as int;
    if n < 0x80 {
      OneByte(c, rest);
    } else if n < 0x800 {
      TwoBytes(n, rest);
    } else if n < 0x10000 {
      ThreeBytes(n, rest);
    } else {
      FourBytes(n, rest);
    }
  }

  lemma OneByte(c: char, rest: seq<Byte>)
    requires c as int < 0x80
    ensures HeadOf(EncodeChar(c) + rest) == Character(c, 1)
  {
  }

  /** Encoding and decoding is the identity, whatever follows. */
  lemma {:induction false} DecodeEncoded(s: string, rest: seq<Byte>)
    ensures DecodeComplete(Encode(s) + rest) == (s + DecodeComplete(rest).0, DecodeComplete(rest).1)
  {
    if s == "" {
      hide DecodeComplete;
      Neutral(rest);
      Neutral(DecodeComplete(rest).0);
    } else {
      var tail := Encode(s[1..]) + rest;
      EncodeStep(s);
      hide DecodeComplete, Encode, EncodeChar;
      Associative(EncodeChar(s[0]), Encode(s[1..]), rest);
      DecodeEncoded(s[1..], rest);
      DecodeOneChar(s[0], tail);
      Associative([s[0]], s[1..], DecodeComplete(rest).0);
    }
  }

  lemma EncodeStep(s: string)
    requires s != ""
    ensures Encode(s) == EncodeChar(s[0]) + Encode(s[1..])
    ensures s == [s[0]] + s[1..]
  {
    hide EncodeChar, CharSize;
  }

  lemma DecodeOneChar(c: char, tail: seq<Byte>)
    ensures DecodeComplete(EncodeChar(c) + tail) == ([c] + DecodeComplete(tail).0, DecodeComplete(tail).1)
  {
    hide HeadOf, EncodeChar, CharSize, DecodeComplete;
    HeadOfChar(c, tail);
    DropAll(EncodeChar(c), tail);
    DecodeHead(EncodeChar(c) + tail);
  }

  lemma CutTwoBytes(n: int)
    requires 0x80 <= n < 0x800
    ensures HeadOf(EncodeChar(n as char)[..1]).Incomplete?
  {
    assert EncodeChar(n as char)[..1] == [0xC0 + n / 64];
  }

  lemma CutThreeBytes(n: int, j: nat)
    requires 0x800 <= n < 0xD800 || 0xE000 <= n < 0x10000
    requires 0 < j < 3
    ensures HeadOf(EncodeChar(n as char)[..j]).Incomplete?
  {
    var a, b, c := n / 4096, n / 64 % 64, n % 64;
    assert n == 4096 * a + 64 * b + c;
    var bytes: seq<Byte> := [0xE0 + a, 0x80 + b, 0x80 + c];
    assert EncodeChar(n as char) == bytes;
    assert IsSecond(bytes[0], bytes[1]);
    var cut := bytes[..j];
    assert cut[0] == bytes[0] && TailsNeeded(cut[0]) == 2;
    assert j > 1 ==> cut[1] == bytes[1];
    assert TailsPresent(cut) == j - 1;
  }

  lemma CutFourBytes(n: int, j: nat)
    requires 0x10000 <= n < 0x110000
    requires 0 < j < 4
    ensures HeadOf(EncodeChar(n as char)[..j]).Incomplete?
  {
    hide EncodeChar;
    var a, b, c, d := EncodedInFour(n);
    var bytes: seq<Byte> := [0xF0 + a, 0x80 + b, 0x80 + c, 0x80 + d];
    assert IsSecond(bytes[0], bytes[1]) && IsTail(bytes[2]);
    CutOfFour(bytes, j);
  }

  lemma CutOfFour(bytes: seq<Byte>, j: nat)
    requires |bytes| == 4 && TailsNeeded(bytes[0]) == 3 && IsSecond(bytes[0], bytes[1]) && IsTail(bytes[2])
    requires 0 < j < 4
    ensures HeadOf(bytes[..j]).Incomplete?
  {
    hide IsSecond, IsTail, TailsNeeded;
    var cut := bytes[..j];
    assert cut[0] == bytes[0] && (j > 1 ==> cut[1] == bytes[1]) && (j > 2 ==> cut[2] == bytes[2]);
    assert TailsPresent(cut) == j - 1;
  }

  /** The beginning of a character is incomplete, wherever it is cut. */
  lemma CutChar(c: char, j: nat)
    requires 0 < j < CharSize(c)
    ensures HeadOf(EncodeChar(c)[..j]).Incomplete?
  {
    hide HeadOf, EncodeChar;
    var n := c as int;
    if n < 0x800 {
      CutTwoBytes(n);
    } else if n < 0x10000 {
      CutThreeBytes(n, j);
    } else {
      CutFourBytes(n, j);
    }
  }

  /**
   Decoding the first bytes of a text gives its characters that are whole there; the bytes of a cut one are left
   over.
   */
  lemma {:induction false} DecodePrefix(s: string, p: nat) returns (k: nat)
    requires p <= |Encode(s)|
    ensures k <= |s| && Utf8Length(s[..k]) <= p
    ensures k < |s| ==> p < Utf8Length(s[..k]) + CharSize(s[k])
    ensures DecodeComplete(Encode(s)[..p]).0 == s[..k]
    ensures |DecodeComplete(Encode(s)[..p]).1| == p - Utf8Length(s[..k])
  {
    if s == "" || p == 0 {
      k := 0;
      DecodeNothing();
    } else {
      EncodeStep(s);
      if p < CharSize(s[0]) {
        k := 0;
        CutHead(s, p);
      } else {
        k := DecodePrefix(s[1..], p - CharSize(s[0]));
        WholeHead(s, p, k);
        k := k + 1;
      }
    }
  }

  /** Cut within its first character, a text decodes to nothing, and all bytes are left over. */
  lemma CutHead(s: string, p: nat)
    requires s != "" && 0 < p < CharSize(s[0]) && p <= |Encode(s)|
    ensures DecodeComplete(Encode(s)[..p]).0 == "" && |DecodeComplete(Encode(s)[..p]).1| == p
  {
    EncodeStep(s);
    hide Encode, EncodeChar, CharSize, DecodeComplete, HeadOf;
    assert Encode(s)[..p] == EncodeChar(s[0])[..p];
    CutChar(s[0], p);
    DecodeStopped(EncodeChar(s[0])[..p]);
  }

  /** Cut later, its first character is decoded, and the rest as far as it goes. */
  lemma WholeHead(s: string, p: nat, k: nat)
    requires s != "" && CharSize(s[0]) <= p <= |Encode(s)| && k < |s|
    requires |Encode(s)| == CharSize(s[0]) + |Encode(s[1..])|
    requires var q := p - CharSize(s[0]);
             && Utf8Length(s[1..][..k]) <= q
             && (k < |s| - 1 ==> q < Utf8Length(s[1..][..k]) + CharSize(s[1..][k]))
             && DecodeComplete(Encode(s[1..])[..q]).0 == s[1..][..k]
             && |DecodeComplete(Encode(s[1..])[..q]).1| == q - Utf8Length(s[1..][..k])
    ensures Utf8Length(s[..k + 1]) <= p
    ensures k + 1 < |s| ==> p < Utf8Length(s[..k + 1]) + CharSize(s[k + 1])
    ensures DecodeComplete(Encode(s)[..p]).0 == s[..k + 1]
    ensures |DecodeComplete(Encode(s)[..p]).1| == p - Utf8Length(s[..k + 1])
  {
    EncodeStep(s);
    assert s[..k + 1] == [s[0]] + s[1..][..k];
    assert s[..k + 1][1..] == s[1..][..k];
    assert Utf8Length(s[..k + 1]) == CharSize(s[0]) + Utf8Length(s[1..][..k]);
    hide Encode, EncodeChar, CharSize, DecodeComplete, HeadOf, Utf8Length;
    var before := Encode(s[1..])[..p - CharSize(s[0])];
    assert Encode(s)[..p] == EncodeChar(s[0]) + before;
    DecodeOneChar(s[0], before);
  }
}
