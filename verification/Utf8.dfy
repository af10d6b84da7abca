/** UTF-8 as section 4 of RFC 3629 defines it, over strings with one octet per `char`: well-formed strings, the
    characters that Go reads from any string, and the byte cut of internal/extract/extract.go: truncateUTF8. */
module Utf8 {

  /** A continuation byte: 10xxxxxx. */
  predicate IsTail(b: char) {
    0x80 <= b as int <= 0xBF
  }

  /** The length of the UTF-8 character that `s` starts with, or 0 if it starts with none:
      the four alternatives UTF8-1 .. UTF8-4 of the RFC, whose second byte is restricted
      after the leading bytes E0, ED, F0 and F4. */
  function CharLen(s: string): (n: nat)
    ensures n <= 4 && n <= |s|
  {
    if |s| == 0 then 0
    else if s[0] as int <= 0x7F then 1
    else if 0xC2 <= s[0] as int <= 0xDF && |s| >= 2 && IsTail(s[1]) then 2
    else if 0xE0 <= s[0] as int <= 0xEF && |s| >= 3 && SecondOfThree(s[0], s[1]) && IsTail(s[2]) then 3
    else if 0xF0 <= s[0] as int <= 0xF4 && |s| >= 4 && SecondOfFour(s[0], s[1]) && IsTail(s[2]) && IsTail(s[3]) then 4
    else 0
  }

  predicate SecondOfThree(lead: char, b: char) {
    if lead as int == 0xE0 then 0xA0 <= b as int <= 0xBF
    else if lead as int == 0xED then 0x80 <= b as int <= 0x9F
    else IsTail(b)
  }

  predicate SecondOfFour(lead: char, b: char) {
    if lead as int == 0xF0 then 0x90 <= b as int <= 0xBF
    else if lead as int == 0xF4 then 0x80 <= b as int <= 0x8F
    else IsTail(b)
  }

  /** `s` is a sequence of whole characters. */
  predicate WellFormed(s: string) {
    s == [] || (CharLen(s) > 0 && WellFormed(s[CharLen(s)..]))
  }

  /** The place where the loop of truncateUTF8 stops: the last index not after `n` that does
      not hold a continuation byte. */
  ghost predicate CutAt(s: string, n: nat, m: nat)
    requires n < |s|
  {
    && m <= n
    && (m == 0 || !IsTail(s[m]))
    && forall k :: m < k <= n ==> IsTail(s[k])
  }

  method TruncateUTF8(s: string, limit: nat) returns (r: string)
    ensures |s| <= limit ==> r == s
    ensures limit < |s| ==> |r| <= limit && r == s[..|r|] && CutAt(s, limit, |r|)
    ensures WellFormed(s) ==> WellFormed(r) && r <= s && |r| <= limit
    ensures WellFormed(s) ==>
              forall k :: |r| < k <= limit && k <= |s| ==> !WellFormed(s[..k])
    ensures WellFormed(s) && limit < |s| ==> limit - |r| <= 3
  {
    if |s| <= limit {
      return s;
    }
    var n := limit;
    while n > 0 && n < |s| && IsTail(s[n])
      invariant 0 <= n <= limit
      invariant forall k :: n < k <= limit ==> IsTail(s[k])
    {
      n := n - 1;
    }
    r := s[..n];
    assert WellFormed(s) ==> WellFormed(r) && forall k :: n < k <= limit ==> !WellFormed(s[..k]) by {
      if WellFormed(s) {
        LongestWholePrefix(s, limit, n);
      }
    }
    assert WellFormed(s) ==> limit - n <= 3 by {
      if WellFormed(s) {
        CutLosesAtMostThree(s, limit, n);
      }
    }
  }

  /** A character begins with a byte that is not a continuation byte, and the bytes after it
      are continuation bytes. */
  lemma CharShape(s: string)
    requires CharLen(s) > 0
    ensures !IsTail(s[0])
    ensures forall k :: 0 < k < CharLen(s) ==> IsTail(s[k])
  {
  }

  /** Whether the first character is there is decided by its own bytes alone. */
  lemma CharLenLocal(s: string, k: nat)
    requires k <= |s| && 0 < CharLen(s)
    ensures CharLen(s[..k]) == if CharLen(s) <= k then CharLen(s) else 0
  {
    if CharLen(s) > k > 0 {
      var p := s[..k];
      assert p[0] == s[0];
    }
  }

  /** In a well-formed string a prefix is well formed exactly when it does not split a
      character, that is, when it is everything or the next byte is not a continuation byte. */
  lemma {:induction false} WholePrefix(s: string, k: nat)
    requires WellFormed(s) && k <= |s|
    ensures WellFormed(s[..k]) <==> k == |s| || !IsTail(s[k])
    decreases |s|
  {
    if s != [] {
      var n := CharLen(s);
      CharShape(s);
      if k == 0 {
        assert s[..k] == [];
      } else {
        CharLenLocal(s, k);
        if n <= k {
          WholePrefix(s[n..], k - n);
          assert s[n..][..k - n] == s[..k][n..];
        } else {
          assert !WellFormed(s[..k]);
        }
      }
    }
  }

  lemma LongestWholePrefix(s: string, limit: nat, n: nat)
    requires WellFormed(s) && limit < |s| && CutAt(s, limit, n)
    ensures WellFormed(s[..n])
    ensures forall k :: n < k <= limit ==> !WellFormed(s[..k])
  {
    WholePrefix(s, n);
    if n == 0 {
      assert s[..n] == [];
    }
    forall k | n < k <= limit ensures !WellFormed(s[..k]) {
      WholePrefix(s, k);
    }
  }

  /** The cut gives up at most three bytes of the limit: a character is at most four bytes long. */
  lemma {:induction false} CutLosesAtMostThree(s: string, limit: nat, n: nat)
    requires WellFormed(s) && limit < |s| && CutAt(s, limit, n)
    ensures limit - n <= 3
    decreases |s|
  {
    var c := CharLen(s);
    CharShape(s);
    if limit >= c {
      CharShape(s[c..]);
      assert !IsTail(s[c]);
      CutLosesAtMostThree(s[c..], limit - c, n - c);
    }
  }

  // ---------------------------------------------------------- characters

  /** What Go reads where no character starts: U+FFFD, one octet at a time. */
  const REPLACEMENT: char := 0xFFFD as char

  /** The character that `s` starts with. */
  function RuneOf(s: string): (c: char)
    requires CharLen(s) > 0
    ensures CharLen(s) == 1 ==> c == s[0]
    ensures CharLen(s) > 1 ==> c as int >= 0x80
  {
    match CharLen(s)
    case 1 => s[0]
    case 2 => (Bits(s[0], 0xC0) * 64 + Bits(s[1], 0x80)) as char
    case 3 => (Bits(s[0], 0xE0) * 4096 + Bits(s[1], 0x80) * 64 + Bits(s[2], 0x80)) as char
    case _ =>
      (Bits(s[0], 0xF0) * 262144 + Bits(s[1], 0x80) * 4096 + Bits(s[2], 0x80) * 64 + Bits(s[3], 0x80)) as char
  }

  /** The octet without its marker. */
  function Bits(b: char, marker: nat): int {
    b as int - marker
  }

  /** How many octets the first character takes, or what is read in its place. */
  function RuneWidth(s: string): (n: nat)
    requires s != []
    ensures 1 <= n <= |s|
  {
    if CharLen(s) > 0 then CharLen(s) else 1
  }

  function FirstRune(s: string): char
    requires s != []
  {
    if CharLen(s) > 0 then RuneOf(s) else REPLACEMENT
  }

  /** The characters that a range loop of Go reads from the string. */
  function Runes(s: string): string {
    if s == [] then [] else [FirstRune(s)] + Runes(s[RuneWidth(s)..])
  }

  /** The last six bits and the others. */
  lemma SixBits(a: int, b: int, c: int, d: int)
    requires a * 64 + b == c * 64 + d && 0 <= b < 64 && 0 <= d < 64
    ensures a == c && b == d
  {
  }

  /** The character's bits but the last six, before the last octet. */
  function Front(s: string): int
    requires CharLen(s) > 1
  {
    match CharLen(s)
    case 2 => Bits(s[0], 0xC0)
    case 3 => Bits(s[0], 0xE0) * 64 + Bits(s[1], 0x80)
    case _ => (Bits(s[0], 0xF0) * 64 + Bits(s[1], 0x80)) * 64 + Bits(s[2], 0x80)
  }

  lemma FrontAndLast(s: string)
    requires CharLen(s) > 1
    ensures RuneOf(s) as int == Front(s) * 64 + Bits(s[CharLen(s) - 1], 0x80)
    ensures forall k :: 0 < k < CharLen(s) ==> 0 <= Bits(s[k], 0x80) < 64
  {
  }

  /** A character has one encoding. */
  lemma RuneHasOneEncoding(s: string, t: string)
    requires CharLen(s) > 0 && CharLen(t) > 0 && RuneOf(s) == RuneOf(t)
    ensures CharLen(s) == CharLen(t) && s[..CharLen(s)] == t[..CharLen(t)]
  {
    RuneRange(s);
    RuneRange(t);
    var n := CharLen(s);
    if n > 1 {
      FrontAndLast(s);
      FrontAndLast(t);
      SixBits(Front(s), Bits(s[n - 1], 0x80), Front(t), Bits(t[n - 1], 0x80));
      FrontHasOneEncoding(s, t);
    }
  }

  lemma FrontHasOneEncoding(s: string, t: string)
    requires CharLen(s) == CharLen(t) > 1 && Front(s) == Front(t)
    ensures forall k :: 0 <= k < CharLen(s) - 1 ==> s[k] == t[k]
  {
    var n := CharLen(s);
    FrontAndLast(s);
    FrontAndLast(t);
    if n == 3 {
      SixBits(Bits(s[0], 0xE0), Bits(s[1], 0x80), Bits(t[0], 0xE0), Bits(t[1], 0x80));
    } else if n == 4 {
      var p, q := Bits(s[0], 0xF0) * 64 + Bits(s[1], 0x80), Bits(t[0], 0xF0) * 64 + Bits(t[1], 0x80);
      SixBits(p, Bits(s[2], 0x80), q, Bits(t[2], 0x80));
      SixBits(Bits(s[0], 0xF0), Bits(s[1], 0x80), Bits(t[0], 0xF0), Bits(t[1], 0x80));
    }
  }

  /** The length of the encoding shows in the character. */
  lemma RuneRange(s: string)
    requires CharLen(s) > 0
    ensures var c := RuneOf(s) as int;
            CharLen(s) == if c <= 0x7F then 1 else if c <= 0x7FF then 2 else if c <= 0xFFFF then 3 else 4
  {
  }

  /** What starts a string is its first character whatever follows. */
  lemma CharLenExtends(p: string, s: string)
    requires p <= s && 0 < CharLen(p)
    ensures CharLen(s) == CharLen(p) && RuneOf(s) == RuneOf(p)
  {
  }

  lemma CharFirst(p: string, t: string)
    requires 0 < CharLen(p) == |p|
    ensures Runes(p + t) == [RuneOf(p)] + Runes(t)
    ensures WellFormed(p + t) <==> WellFormed(t)
  {
    CharLenExtends(p, p + t);
    assert (p + t)[|p|..] == t;
  }

  // ------------------------------------------------------------ encoding

  /** The octets of a character, as section 3 of RFC 3629 spreads its bits. */
  function Encode(c: char): (s: string) {
    var v := c as int;
    if v < 0x80 then [c]
    else if v < 0x800 then [(0xC0 + v / 64) as char, (0x80 + v % 64) as char]
    else if v < 0x1_0000 then [(0xE0 + v / 4096) as char, (0x80 + v / 64 % 64) as char, (0x80 + v % 64) as char]
    else
      [(0xF0 + v / 262144) as char, (0x80 + v / 4096 % 64) as char, (0x80 + v / 64 % 64) as char,
       (0x80 + v % 64) as char]
  }

  function EncodeAll(t: string): string {
    if t == [] then [] else Encode(t[0]) + EncodeAll(t[1..])
  }

  /** The bits of a character in sixes. */
  lemma Sixes(v: nat)
    ensures v == v / 64 * 64 + v % 64
    ensures v / 64 == v / 4096 * 64 + v / 64 % 64
    ensures v / 4096 == v / 262144 * 64 + v / 4096 % 64
  {
    assert v / 64 / 64 == v / 4096 && v / 4096 / 64 == v / 262144;
  }

  lemma ReadOfThree(c: char)
    requires 0x800 <= c as int < 0x1_0000
    ensures CharLen(Encode(c)) == 3 && RuneOf(Encode(c)) == c
  {
    Sixes(c as int);
    var s := Encode(c);
    assert SecondOfThree(s[0], s[1]) && IsTail(s[2]);
  }

  lemma ReadOfFour(c: char)
    requires 0x1_0000 <= c as int
    ensures CharLen(Encode(c)) == 4 && RuneOf(Encode(c)) == c
  {
    Sixes(c as int);
    var s := Encode(c);
    assert SecondOfFour(s[0], s[1]) && IsTail(s[2]) && IsTail(s[3]);
  }

  lemma EncodedIsRead(c: char)
    ensures CharLen(Encode(c)) == |Encode(c)| && RuneOf(Encode(c)) == c
  {
    if 0x1_0000 <= c as int {
      ReadOfFour(c);
    } else if 0x800 <= c as int {
      ReadOfThree(c);
    } else {
      Sixes(c as int);
    }
  }

  /** Every string of characters comes back from its encoding. */
  lemma {:induction false} EncodingComesBack(t: string)
    ensures WellFormed(EncodeAll(t)) && Runes(EncodeAll(t)) == t
  {
    if t != [] {
      var first, rest := Encode(t[0]), EncodeAll(t[1..]);
      EncodingComesBack(t[1..]);
      EncodedIsRead(t[0]);
      CharFirst(first, rest);
    }
  }

  lemma FirstIsEncoded(s: string)
    requires CharLen(s) > 0
    ensures s == Encode(RuneOf(s)) + s[CharLen(s)..]
  {
    EncodedIsRead(RuneOf(s));
    RuneHasOneEncoding(s, Encode(RuneOf(s)));
    assert s == s[..CharLen(s)] + s[CharLen(s)..];
  }

  /** The well-formed strings are the encodings of strings of characters, and no others. */
  lemma {:induction false} WellFormedIffEncoding(s: string)
    ensures WellFormed(s) <==> EncodeAll(Runes(s)) == s
    decreases |s|
  {
    if WellFormed(s) {
      if s != [] {
        WellFormedIffEncoding(s[CharLen(s)..]);
        FirstIsEncoded(s);
      }
    } else {
      EncodingComesBack(Runes(s));
    }
  }
}
