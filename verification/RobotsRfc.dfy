/** Where compile and unescape of internal/robots/robots.go depart from sections 2.2.2 and 2.2.3 of RFC 9309,
    and exactly when they do not. */
module RobotsRfc {
  import opened Commons
  import opened Utf8
  import opened RobotsPattern
  import opened RobotsRunes

  // ------------------------------------------- a run does not cross a newline

  lemma {:induction false} NewlinesDoNotMatter(toks: seq<Tok>, anchored: bool, s: string)
    requires '\n' !in s
    ensures Wildcard(toks, anchored, s, false) <==> Wildcard(toks, anchored, s, true)
    decreases |toks|
  {
    if toks != [] {
      match toks[0]
      case Ch(c) =>
        if s != [] {
          NewlinesDoNotMatter(toks[1..], anchored, s[1..]);
        }
      case Wild =>
        forall k | 0 <= k <= |s|
          ensures '\n' !in s[..k]
          ensures Wildcard(toks[1..], anchored, s[k..], false) <==> Wildcard(toks[1..], anchored, s[k..], true)
        {
          NewlinesDoNotMatter(toks[1..], anchored, s[k..]);
        }
    }
  }

  lemma StarEndReads()
    ensures Unescape(Body("*$")) == "*" && Anchored("*$") && Compiles("*$")
    ensures TokensOf(Runes("*")) == [Wild]
  {
    assert Body("*$") == "*" && "*"[1..] == [];
    assert Decode([]) == Some([]) && ['*'] + [] == "*";
    assert Decode("*") == Some("*");
    AsciiFirst('*', []);
    assert ['*'] + [] == "*" && Runes("*") == "*";
  }

  /** The pattern `*$` matches every string under the RFC, but no string with a newline in it
      under the code. */
  lemma StarStopsAtNewline(s: string)
    requires '\n' in s
    ensures ByRunes(Unescape(Body("*$")), Anchored("*$"), s, true)
    ensures !CodeMatches("*$", s)
  {
    var t := Runes(s);
    CompileCorrect("*$", s);
    StarEndReads();
    NewlineInRunes(s);
    assert [Wild][1..] == [];
    assert t[|t|..] == "" && t[..|t|] == t;
    forall k | 0 <= k <= |t|
      ensures !('\n' !in t[..k] && Wildcard([], true, t[k..], false))
    {
      if k < |t| {
        assert t[k..] != [];
      }
    }
  }

  /** Exactly when the dot's exclusion of newlines cannot be seen: on the strings without a
      newline the code and the RFC agree about every pattern that compiles, and on no other string. */
  lemma AgreesOnEveryPatternIffNoNewline(s: string)
    ensures (forall p :: Compiles(p) ==> (CodeMatches(p, s) <==> ByRunes(Unescape(Body(p)), Anchored(p), s, true)))
       <==> '\n' !in s
  {
    if '\n' in s {
      StarEndReads();
      StarStopsAtNewline(s);
    } else {
      NewlineInRunes(s);
      forall p | Compiles(p)
        ensures CodeMatches(p, s) <==> ByRunes(Unescape(Body(p)), Anchored(p), s, true)
      {
        CompileCorrect(p, s);
        NewlinesDoNotMatter(TokensOf(Runes(Unescape(Body(p)))), Anchored(p), Runes(s));
      }
    }
  }

  // --------------------------------------------- octets as they are written

  /** An octet of a pattern or path, and whether it is written as an escape. */
  datatype Mark = Mark(c: char, escaped: bool)

  /** A string read before it is decoded. A `%` that starts no escape stands for itself. */
  function Read(s: string): seq<Mark> {
    if s == [] then []
    else if EscapeAt(s).Some? then [Mark(EscapeAt(s).value, true)] + Read(s[3..])
    else [Mark(s[0], false)] + Read(s[1..])
  }

  function Values(marks: seq<Mark>): (s: string)
    ensures |s| == |marks|
  {
    if marks == [] then [] else [marks[0].c] + Values(marks[1..])
  }

  predicate HasEscape(s: string) {
    exists m :: m in Read(s) && m.escaped
  }

  /** Every `%` starts an escape. */
  predicate AllEscape(s: string) {
    Mark('%', false) !in Read(s)
  }

  /** The string is decoded as it is read: all its escapes are valid, or it has none. */
  predicate ReadsWell(s: string) {
    AllEscape(s) || !HasEscape(s)
  }

  function Width(s: string): nat {
    if EscapeAt(s).Some? then 3 else 1
  }

  lemma ReadOne(s: string)
    requires s != []
    ensures Width(s) <= |s| && Read(s) == [Read(s)[0]] + Read(s[Width(s)..])
    ensures Values(Read(s)) == [Read(s)[0].c] + Values(Read(s[Width(s)..]))
    ensures HasEscape(s) <==> Read(s)[0].escaped || HasEscape(s[Width(s)..])
    ensures AllEscape(s) <==> Read(s)[0] != Mark('%', false) && AllEscape(s[Width(s)..])
  {
    var m, rest := Read(s)[0], Read(s[Width(s)..]);
    assert Read(s) == [m] + rest && ([m] + rest)[1..] == rest;
  }

  lemma {:induction false} DecodedAsRead(s: string)
    ensures Decode(s).Some? <==> AllEscape(s)
    ensures Decode(s).Some? ==> Decode(s).value == Values(Read(s))
    decreases |s|
  {
    if s != [] {
      ReadOne(s);
      DecodedAsRead(s[Width(s)..]);
    }
  }

  lemma {:induction false} UndecodedAsRead(s: string)
    ensures |Read(s)| <= |s|
    ensures if HasEscape(s) then |Read(s)| < |s| else Values(Read(s)) == s
    decreases |s|
  {
    if s != [] {
      ReadOne(s);
      UndecodedAsRead(s[Width(s)..]);
    }
  }

  /** The code decodes a string octet by octet, as it is read, if and only if its escapes are all valid or
      it has none. */
  lemma UnescapesAsReadIffReadsWell(s: string)
    ensures Unescape(s) == Values(Read(s)) <==> ReadsWell(s)
  {
    DecodedAsRead(s);
    UndecodedAsRead(s);
  }

  // -------------------------------------------------------- an encoded star

  /** The pattern read before it is decoded: only a star that is written as such is a run. */
  function RfcTokens(marks: seq<Mark>): (t: seq<Tok>)
    ensures |t| == |marks|
  {
    if marks == [] then []
    else [if marks[0] == Mark('*', false) then Wild else Ch(marks[0].c)] + RfcTokens(marks[1..])
  }

  /** The escape `%2A` (or `%2a`), which encodes a star. */
  predicate HasEncodedStar(body: string) {
    Mark('*', true) in Read(body)
  }

  /** `mine` has a run where `theirs` has a star, and else they are the same. */
  predicate Blurs(mine: seq<Tok>, theirs: seq<Tok>) {
    && |mine| == |theirs|
    && forall i :: 0 <= i < |theirs| ==> mine[i] == theirs[i] || (mine[i] == Wild && theirs[i] == Ch('*'))
  }

  lemma OneMoreToken(x: Tok, y: Tok, mine: seq<Tok>, theirs: seq<Tok>)
    ensures [x] + mine == [y] + theirs <==> x == y && mine == theirs
    ensures Blurs(mine, theirs) && (x == y || (x == Wild && y == Ch('*'))) ==> Blurs([x] + mine, [y] + theirs)
  {
    assert ([x] + mine)[0] == x && ([y] + theirs)[0] == y;
    assert ([x] + mine)[1..] == mine && ([y] + theirs)[1..] == theirs;
  }

  /** Reading the stars after decoding gives the RFC's tokens exactly when no star is encoded. */
  lemma {:induction false} SameTokensIffNoEncodedStar(marks: seq<Mark>)
    ensures TokensOf(Values(marks)) == RfcTokens(marks) <==> Mark('*', true) !in marks
    ensures Blurs(TokensOf(Values(marks)), RfcTokens(marks))
  {
    if marks != [] {
      var m, rest := marks[0], marks[1..];
      SameTokensIffNoEncodedStar(rest);
      assert marks == [m] + rest;
      assert ([m.c] + Values(rest))[1..] == Values(rest);
      OneMoreToken(TokensOf(Values(marks))[0], RfcTokens(marks)[0], TokensOf(Values(rest)), RfcTokens(rest));
    }
  }

  lemma {:induction false} LiteralsMatch(toks: seq<Tok>, anchored: bool)
    ensures Wildcard(toks, anchored, Literals(toks), true)
  {
    if toks != [] {
      LiteralsMatch(toks[1..], anchored);
      var s := Literals(toks);
      if toks[0].Wild? {
        assert s == Literals(toks[1..]) && s[0..] == s;
      } else {
        assert s[1..] == Literals(toks[1..]);
      }
    }
  }

  lemma {:induction false} LiteralNeedsItsCharacter(toks: seq<Tok>, anchored: bool, s: string, c: char)
    requires Ch(c) in toks && Wildcard(toks, anchored, s, true)
    ensures c in s
    decreases |toks|
  {
    if toks[0] != Ch(c) {
      match toks[0]
      case Ch(d) =>
        LiteralNeedsItsCharacter(toks[1..], anchored, s[1..], c);
      case Wild =>
        var k :| 0 <= k <= |s| && Wildcard(toks[1..], anchored, s[k..], true);
        LiteralNeedsItsCharacter(toks[1..], anchored, s[k..], c);
    }
  }

  lemma {:induction false} LiteralsHaveNoStar(body: string)
    ensures '*' !in Literals(TokensOf(body))
  {
    if body != [] {
      LiteralsHaveNoStar(body[1..]);
    }
  }

  lemma {:induction false} LiteralsFit(toks: seq<Tok>, anchored: bool, s: string, cross: bool)
    requires Wildcard(toks, anchored, s, cross)
    ensures |Literals(toks)| <= |s|
    decreases |toks|
  {
    if toks != [] {
      if toks[0].Wild? {
        var k :| 0 <= k <= |s| && Wildcard(toks[1..], anchored, s[k..], cross);
        LiteralsFit(toks[1..], anchored, s[k..], cross);
      } else {
        LiteralsFit(toks[1..], anchored, s[1..], cross);
      }
    }
  }

  /** Undecoded, each escape is two literals longer. */
  lemma {:induction false} EscapesAreLonger(body: string)
    ensures |Literals(RfcTokens(Read(body)))| <= |Literals(TokensOf(body))|
    ensures HasEscape(body) ==> |Literals(RfcTokens(Read(body)))| < |Literals(TokensOf(body))|
    decreases |body|
  {
    if body != [] {
      var n := Width(body);
      ReadOne(body);
      EscapesAreLonger(body[n..]);
      var m, rest := Read(body)[0], Read(body[n..]);
      assert ([m] + rest)[1..] == rest;
      TokensSplit(body, n);
      if m.escaped {
        EscapeIsLiteral(body);
      } else {
        assert body[..1] == [body[0]];
        LiteralsOfOne(if body[0] == '*' then Wild else Ch(body[0]), TokensOf(body[1..]));
      }
      LiteralsOfOne(if m == Mark('*', false) then Wild else Ch(m.c), RfcTokens(rest));
    }
  }

  lemma LiteralsOfOne(t: Tok, toks: seq<Tok>)
    ensures |Literals([t] + toks)| == (if t.Wild? then 0 else 1) + |Literals(toks)|
  {
    assert ([t] + toks)[1..] == toks;
  }

  lemma {:induction false} TokensSplit(body: string, n: nat)
    requires n <= |body|
    ensures TokensOf(body) == TokensOf(body[..n]) + TokensOf(body[n..])
  {
    if n > 0 {
      TokensSplit(body[1..], n - 1);
      assert body[..n][1..] == body[1..][..n - 1] && body[n..] == body[1..][n - 1..];
    }
  }

  lemma EscapeIsLiteral(body: string)
    requires EscapeAt(body).Some?
    ensures |Literals(TokensOf(body))| == 3 + |Literals(TokensOf(body[3..]))|
  {
    var t := TokensOf(body[3..]);
    assert body[1..][1..] == body[2..] && body[2..][1..] == body[3..];
    assert TokensOf(body[2..]) == [Ch(body[2])] + t;
    assert TokensOf(body[1..]) == [Ch(body[1])] + TokensOf(body[2..]);
    assert TokensOf(body) == [Ch(body[0])] + TokensOf(body[1..]);
    LiteralsOfOne(Ch(body[2]), t);
    LiteralsOfOne(Ch(body[1]), [Ch(body[2])] + t);
    LiteralsOfOne(Ch(body[0]), [Ch(body[1])] + ([Ch(body[2])] + t));
  }

  lemma EncodedStarShows(body: string, anchored: bool)
    requires ReadsWell(body) && HasEncodedStar(body)
    ensures exists s :: Wildcard(TokensOf(Unescape(body)), anchored, s, true)
                        && !Wildcard(RfcTokens(Read(body)), anchored, s, true)
  {
    var mine, theirs := TokensOf(Unescape(body)), RfcTokens(Read(body));
    UnescapesAsReadIffReadsWell(body);
    SameTokensIffNoEncodedStar(Read(body));
    var i :| 0 <= i < |mine| && mine[i] != theirs[i];
    LiteralsMatch(mine, anchored);
    LiteralsHaveNoStar(Unescape(body));
    if Wildcard(theirs, anchored, Literals(mine), true) {
      LiteralNeedsItsCharacter(theirs, anchored, Literals(mine), '*');
    }
  }

  lemma UndecodedEscapeShows(body: string, anchored: bool)
    requires !ReadsWell(body)
    ensures exists s :: !Wildcard(TokensOf(Unescape(body)), anchored, s, true)
                        && Wildcard(RfcTokens(Read(body)), anchored, s, true)
  {
    var s := Literals(RfcTokens(Read(body)));
    LiteralsMatch(RfcTokens(Read(body)), anchored);
    EscapesAreLonger(body);
    DecodedAsRead(body);
    if Wildcard(TokensOf(body), anchored, s, true) {
      LiteralsFit(TokensOf(body), anchored, s, true);
    }
  }

  /** Exactly when decoding the whole pattern before reading the stars cannot be seen: the code and the RFC
      match the same octets if and only if the pattern's escapes are all valid, or it has none, and it has
      no encoded star. */
  lemma AgreesOnEveryStringIffNoEncodedStar(body: string, anchored: bool)
    ensures (forall s :: Wildcard(TokensOf(Unescape(body)), anchored, s, true)
                    <==> Wildcard(RfcTokens(Read(body)), anchored, s, true))
       <==> ReadsWell(body) && !HasEncodedStar(body)
  {
    if !ReadsWell(body) {
      UndecodedEscapeShows(body, anchored);
    } else if HasEncodedStar(body) {
      EncodedStarShows(body, anchored);
    } else {
      UnescapesAsReadIffReadsWell(body);
      SameTokensIffNoEncodedStar(Read(body));
    }
  }

  // --------------------------------------------------- an encoded delimiter

  /** The reserved octets of section 2.2 of RFC 3986 but for the star and the dollar, which section 2.2.3 of
      RFC 9309 lets a pattern match in either form. */
  predicate IsDelimiter(c: char) {
    c in ":/?#[]@!&'()+,;="
  }

  /** An octet as section 2.2.2 of RFC 9309 compares it: an escaped delimiter stays apart from the delimiter,
      any other octet is the same however it is written. */
  function Normal(m: Mark): Mark {
    Mark(m.c, m.escaped && IsDelimiter(m.c))
  }

  function NormalAll(marks: seq<Mark>): (r: seq<Mark>)
    ensures |r| == |marks| && forall i :: 0 <= i < |r| ==> r[i] == Normal(marks[i])
  {
    seq(|marks|, i requires 0 <= i < |marks| => Normal(marks[i]))
  }

  datatype Piece = Exactly(m: Mark) | AnyRun

  function PiecesOf(marks: seq<Mark>): (ps: seq<Piece>)
    ensures |ps| == |marks|
    ensures forall i :: 0 <= i < |ps| ==>
              ps[i] == if marks[i] == Mark('*', false) then AnyRun else Exactly(Normal(marks[i]))
  {
    seq(|marks|, i requires 0 <= i < |marks| =>
      if marks[i] == Mark('*', false) then AnyRun else Exactly(Normal(marks[i])))
  }

  /** Sections 2.2.2 and 2.2.3 of RFC 9309 on octets: the pieces match from the start of the path, and to its
      end if anchored. */
  predicate Covers(ps: seq<Piece>, anchored: bool, path: seq<Mark>)
    decreases |ps|
  {
    if ps == [] then anchored ==> path == []
    else
      match ps[0]
      case Exactly(m) => path != [] && path[0] == m && Covers(ps[1..], anchored, path[1..])
      case AnyRun => exists k :: 0 <= k <= |path| && Covers(ps[1..], anchored, path[k..])
  }

  predicate RfcMatches(pattern: string, path: string) {
    Covers(PiecesOf(Read(Body(pattern))), Anchored(pattern), NormalAll(Read(path)))
  }

  predicate HasEscapedDelimiter(s: string) {
    exists m :: m in Read(s) && m.escaped && IsDelimiter(m.c)
  }

  predicate SameOctets(ps: seq<Piece>, path: seq<Mark>) {
    && (forall i :: 0 <= i < |ps| && ps[i].Exactly? ==> !ps[i].m.escaped)
    && (forall i :: 0 <= i < |path| ==> !path[i].escaped)
  }

  function TokensFor(ps: seq<Piece>): (t: seq<Tok>)
    ensures |t| == |ps|
  {
    if ps == [] then [] else [if ps[0].AnyRun? then Wild else Ch(ps[0].m.c)] + TokensFor(ps[1..])
  }

  /** What matches by octets matches by their values; and conversely if no octet stands apart. */
  lemma {:induction false} CoversByValue(ps: seq<Piece>, anchored: bool, path: seq<Mark>)
    ensures Covers(ps, anchored, path) ==> Wildcard(TokensFor(ps), anchored, Values(path), true)
    ensures SameOctets(ps, path) && Wildcard(TokensFor(ps), anchored, Values(path), true) ==> Covers(ps, anchored, path)
    decreases |ps|
  {
    if ps != [] {
      assert TokensFor(ps)[1..] == TokensFor(ps[1..]);
      match ps[0]
      case Exactly(m) =>
        if path != [] {
          assert Values(path)[1..] == Values(path[1..]);
          CoversByValue(ps[1..], anchored, path[1..]);
        }
      case AnyRun => RunByValue(ps, anchored, path);
    }
  }

  lemma {:induction false} RunByValue(ps: seq<Piece>, anchored: bool, path: seq<Mark>)
    requires ps != [] && ps[0].AnyRun?
    ensures Covers(ps, anchored, path) ==> Wildcard(TokensFor(ps), anchored, Values(path), true)
    ensures SameOctets(ps, path) && Wildcard(TokensFor(ps), anchored, Values(path), true) ==> Covers(ps, anchored, path)
    decreases |ps|, 0
  {
    assert TokensFor(ps)[1..] == TokensFor(ps[1..]);
    forall k | 0 <= k <= |path|
      ensures Values(path[k..]) == Values(path)[k..]
      ensures Covers(ps[1..], anchored, path[k..]) ==> Wildcard(TokensFor(ps[1..]), anchored, Values(path)[k..], true)
      ensures SameOctets(ps, path) && Wildcard(TokensFor(ps[1..]), anchored, Values(path)[k..], true) ==>
                Covers(ps[1..], anchored, path[k..])
    {
      ValuesFrom(path, k);
      CoversByValue(ps[1..], anchored, path[k..]);
    }
  }

  lemma {:induction false} ValuesFrom(marks: seq<Mark>, k: nat)
    requires k <= |marks|
    ensures Values(marks[k..]) == Values(marks)[k..]
  {
    if k > 0 {
      ValuesFrom(marks[1..], k - 1);
      assert marks[k..] == marks[1..][k - 1..];
    }
  }

  lemma {:induction false} TokensForPieces(marks: seq<Mark>)
    ensures TokensFor(PiecesOf(marks)) == RfcTokens(marks)
  {
    if marks != [] {
      TokensForPieces(marks[1..]);
      assert PiecesOf(marks)[1..] == PiecesOf(marks[1..]);
    }
  }

  lemma {:induction false} NormalKeepsValues(marks: seq<Mark>)
    ensures Values(NormalAll(marks)) == Values(marks)
  {
    if marks != [] {
      NormalKeepsValues(marks[1..]);
      assert NormalAll(marks)[1..] == NormalAll(marks[1..]);
    }
  }

  /** Matching by the values of the octets, however they are written. */
  predicate ValueMatches(body: string, anchored: bool, path: string) {
    Wildcard(RfcTokens(Read(body)), anchored, Values(Read(path)), true)
  }

  predicate OctetMatches(body: string, anchored: bool, path: string) {
    Covers(PiecesOf(Read(body)), anchored, NormalAll(Read(path)))
  }

  lemma OctetsAndValues(body: string, anchored: bool, path: string)
    ensures OctetMatches(body, anchored, path) ==> ValueMatches(body, anchored, path)
    ensures !HasEscapedDelimiter(body) && !HasEscapedDelimiter(path) && ValueMatches(body, anchored, path) ==>
              OctetMatches(body, anchored, path)
  {
    TokensForPieces(Read(body));
    NormalKeepsValues(Read(path));
    CoversByValue(PiecesOf(Read(body)), anchored, NormalAll(Read(path)));
  }

  /** The first octet of `s`: a delimiter as such, the star, the dollar and a `%` as escapes. */
  function Spelling(s: string): (r: string)
    requires s != []
    ensures r != [] && r[|r| - 1] != '$'
  {
    if EscapeAt(s).Some? then (if IsDelimiter(EscapeAt(s).value) then [EscapeAt(s).value] else s[..3])
    else
      match s[0]
      case '*' => "%2A"
      case '$' => "%24"
      case '%' => "%25"
      case c => [c]
  }

  function Respelled(s: string): (r: string)
    ensures r != [] ==> r[|r| - 1] != '$'
  {
    if s == [] then [] else Spelling(s) + Respelled(s[Width(s)..])
  }

  /** Whether `m` may be the spelling of the octet that is read as `o`. */
  predicate Respells(m: Mark, o: Mark) {
    m.c == o.c && m != Mark('*', false) && !(m.escaped && IsDelimiter(m.c))
  }

  lemma ReadEscape(t: string, e: string)
    requires |e| == 3 && EscapeAt(e).Some?
    ensures Read(e + t) == [Mark(EscapeAt(e).value, true)] + Read(t)
  {
    assert (e + t)[3..] == t;
    assert e + t != [] && (e + t)[0] == e[0] && (e + t)[1] == e[1] && (e + t)[2] == e[2];
  }

  lemma ReadPlain(t: string, c: char)
    requires c != '%'
    ensures Read([c] + t) == [Mark(c, false)] + Read(t)
  {
    assert ([c] + t)[1..] == t;
  }

  lemma ReadSpecial(t: string, c: char) returns (e: string)
    requires c in "*$%"
    ensures e == (match c case '*' => "%2A" case '$' => "%24" case _ => "%25")
    ensures Read(e + t) == [Mark(c, true)] + Read(t)
  {
    e := match c case '*' => "%2A" case '$' => "%24" case _ => "%25";
    assert HexValue(e[1]) == Some(2);
    assert EscapeAt(e) == Some(c);
    ReadEscape(t, e);
  }

  lemma EscapeSpelled(s: string, t: string) returns (m: Mark)
    requires EscapeAt(s).Some?
    ensures Read(Spelling(s) + t) == [m] + Read(t) && Respells(m, Mark(EscapeAt(s).value, true))
  {
    var c := EscapeAt(s).value;
    if IsDelimiter(c) {
      m := Mark(c, false);
      ReadPlain(t, c);
    } else {
      m := Mark(c, true);
      ReadEscape(t, s[..3]);
    }
  }

  lemma OctetSpelled(s: string, t: string) returns (m: Mark)
    requires s != [] && EscapeAt(s).None?
    ensures Read(Spelling(s) + t) == [m] + Read(t) && Respells(m, Mark(s[0], false))
  {
    if s[0] in "*$%" {
      m := Mark(s[0], true);
      var e := ReadSpecial(t, s[0]);
    } else {
      m := Mark(s[0], false);
      ReadPlain(t, s[0]);
    }
  }

  lemma SpellingReads(s: string, t: string) returns (m: Mark)
    requires s != []
    ensures Read(Spelling(s) + t) == [m] + Read(t) && Respells(m, Read(s)[0])
  {
    if EscapeAt(s).Some? {
      m := EscapeSpelled(s, t);
    } else {
      m := OctetSpelled(s, t);
    }
  }

  predicate AllRespell(a: seq<Mark>, b: seq<Mark>) {
    |a| == |b| && forall i :: 0 <= i < |a| ==> Respells(a[i], b[i])
  }

  lemma RespellMore(m: Mark, o: Mark, a: seq<Mark>, b: seq<Mark>)
    requires Respells(m, o) && AllRespell(a, b)
    ensures AllRespell([m] + a, [o] + b)
  {
  }

  lemma {:induction false} RespelledReads(s: string)
    ensures AllRespell(Read(Respelled(s)), Read(s))
    decreases |s|
  {
    if s != [] {
      var rest := s[Width(s)..];
      ReadOne(s);
      RespelledReads(rest);
      var m := SpellingReads(s, Respelled(rest));
      RespellMore(m, Read(s)[0], Read(Respelled(rest)), Read(rest));
    }
  }

  lemma {:induction false} SameValues(a: seq<Mark>, b: seq<Mark>)
    requires AllRespell(a, b)
    ensures Values(a) == Values(b)
  {
    if a != [] {
      assert AllRespell(a[1..], b[1..]) by {
        assert forall i :: 0 <= i < |a| - 1 ==> a[1..][i] == a[i + 1] && b[1..][i] == b[i + 1];
      }
      SameValues(a[1..], b[1..]);
    }
  }

  lemma {:induction false} ValuesMatchThemselves(marks: seq<Mark>, anchored: bool)
    ensures Wildcard(RfcTokens(marks), anchored, Values(marks), true)
  {
    if marks != [] {
      ValuesMatchThemselves(marks[1..], anchored);
      assert RfcTokens(marks)[1..] == RfcTokens(marks[1..]);
      assert Values(marks)[1..] == Values(marks[1..]);
    }
  }

  lemma {:induction false} OctetIsNeeded(ps: seq<Piece>, anchored: bool, path: seq<Mark>, m: Mark)
    requires Covers(ps, anchored, path) && Exactly(m) in ps
    ensures m in path
    decreases |ps|
  {
    if ps[0] != Exactly(m) {
      match ps[0]
      case Exactly(_) => OctetIsNeeded(ps[1..], anchored, path[1..], m);
      case AnyRun =>
        var k :| 0 <= k <= |path| && Covers(ps[1..], anchored, path[k..]);
        OctetIsNeeded(ps[1..], anchored, path[k..], m);
    }
  }

  lemma {:induction false} ExactPiecesArePrefix(ps: seq<Piece>, anchored: bool, path: seq<Mark>)
    requires Covers(ps, anchored, path) && AnyRun !in ps
    ensures |ps| <= |path| && forall i :: 0 <= i < |ps| ==> ps[i] == Exactly(path[i])
    decreases |ps|
  {
    if ps != [] {
      ExactPiecesArePrefix(ps[1..], anchored, path[1..]);
      assert forall i :: 1 <= i < |ps| ==> ps[i] == ps[1..][i - 1] && path[i] == path[1..][i - 1];
    }
  }

  lemma RespelledHasNoEscapedDelimiter(s: string)
    ensures !HasEscapedDelimiter(Respelled(s))
  {
    RespelledReads(s);
  }

  lemma EncodedDelimiterIsNeeded(marks: seq<Mark>, anchored: bool, path: seq<Mark>, i: nat)
    requires i < |marks| && marks[i].escaped && IsDelimiter(marks[i].c)
    requires forall m :: m in path ==> !m.escaped
    ensures !Covers(PiecesOf(marks), anchored, path)
  {
    assert PiecesOf(marks)[i] == Exactly(marks[i]);
    if Covers(PiecesOf(marks), anchored, path) {
      OctetIsNeeded(PiecesOf(marks), anchored, path, marks[i]);
    }
  }

  /** A pattern with an encoded delimiter, on a path with the delimiter as such. */
  lemma PatternDelimiterShows(body: string, anchored: bool)
    requires HasEscapedDelimiter(body)
    ensures ValueMatches(body, anchored, Respelled(body)) && !OctetMatches(body, anchored, Respelled(body))
  {
    var marks, respelled := Read(body), Read(Respelled(body));
    RespelledReads(body);
    SameValues(respelled, marks);
    ValuesMatchThemselves(marks, anchored);
    var i :| 0 <= i < |marks| && marks[i].escaped && IsDelimiter(marks[i].c);
    NormalIsPlain(respelled, marks);
    EncodedDelimiterIsNeeded(marks, anchored, NormalAll(respelled), i);
  }

  lemma NormalIsPlain(respelled: seq<Mark>, marks: seq<Mark>)
    requires AllRespell(respelled, marks)
    ensures forall m :: m in NormalAll(respelled) ==> !m.escaped
  {
  }

  /** A path with an encoded delimiter, under a pattern with the delimiter as such. */
  lemma PathDelimiterShows(path: string, anchored: bool)
    requires HasEscapedDelimiter(path)
    ensures ValueMatches(Respelled(path), anchored, path) && !OctetMatches(Respelled(path), anchored, path)
  {
    var marks, respelled := Read(path), Read(Respelled(path));
    RespelledReads(path);
    SameValues(respelled, marks);
    ValuesMatchThemselves(respelled, anchored);
    var i :| 0 <= i < |marks| && marks[i].escaped && IsDelimiter(marks[i].c);
    assert Respells(respelled[i], marks[i]);
    RespelledIsExact(respelled, marks);
    if OctetMatches(Respelled(path), anchored, path) {
      ExactPiecesArePrefix(PiecesOf(respelled), anchored, NormalAll(marks));
    }
  }

  lemma RespelledIsExact(respelled: seq<Mark>, marks: seq<Mark>)
    requires AllRespell(respelled, marks)
    ensures AnyRun !in PiecesOf(respelled)
    ensures forall i :: 0 <= i < |respelled| ==> PiecesOf(respelled)[i] == Exactly(Mark(respelled[i].c, false))
  {
  }

  /** Exactly when comparing the values of octets cannot be seen, on a pattern: no delimiter is encoded in
      it, among the paths with none encoded. */
  lemma PatternAgreesIffNoEscapedDelimiter(body: string, anchored: bool)
    ensures (forall path :: !HasEscapedDelimiter(path) ==>
               (ValueMatches(body, anchored, path) <==> OctetMatches(body, anchored, path)))
       <==> !HasEscapedDelimiter(body)
  {
    if HasEscapedDelimiter(body) {
      PatternDelimiterShows(body, anchored);
      RespelledHasNoEscapedDelimiter(body);
    } else {
      forall path | !HasEscapedDelimiter(path)
        ensures ValueMatches(body, anchored, path) <==> OctetMatches(body, anchored, path)
      {
        OctetsAndValues(body, anchored, path);
      }
    }
  }

  /** And on a path: no delimiter is encoded in it, among the patterns with none encoded. */
  lemma PathAgreesIffNoEscapedDelimiter(path: string, anchored: bool)
    ensures (forall body :: !HasEscapedDelimiter(body) ==>
               (ValueMatches(body, anchored, path) <==> OctetMatches(body, anchored, path)))
       <==> !HasEscapedDelimiter(path)
  {
    if HasEscapedDelimiter(path) {
      PathDelimiterShows(path, anchored);
      RespelledHasNoEscapedDelimiter(path);
    } else {
      forall body | !HasEscapedDelimiter(body)
        ensures ValueMatches(body, anchored, path) <==> OctetMatches(body, anchored, path)
      {
        OctetsAndValues(body, anchored, path);
      }
    }
  }

  // ------------------------------------------------------- all together

  /** A pattern that the code compiles and reads as the RFC does. */
  predicate PlainPattern(pattern: string) {
    && Compiles(pattern)
    && ReadsWell(Body(pattern)) && !HasEncodedStar(Body(pattern)) && !HasEscapedDelimiter(Body(pattern))
  }

  /** A path that the code reads as the RFC does. */
  predicate PlainPath(path: string) {
    ReadsWell(path) && !HasEscapedDelimiter(path) && '\n' !in Unescape(path)
  }

  /** No octet of the path can pass for a U+FFFD of the pattern. */
  predicate ReadTrue(pattern: string, path: string) {
    ReadsTrue(Unescape(Body(pattern)), Unescape(path))
  }

  /** Code and RFC together, from the pattern as written and the path as requested. */
  lemma CodeDecidesRfcMatching(pattern: string, path: string)
    requires PlainPattern(pattern) && PlainPath(path) && ReadTrue(pattern, path)
    ensures CodeMatches(pattern, Unescape(path)) <==> RfcMatches(pattern, path)
  {
    var body, anchored, s := Body(pattern), Anchored(pattern), Unescape(path);
    AgreesOnEveryPatternIffNoNewline(s);
    RunesAreOctets(Unescape(body), anchored, s, true);
    OctetsAsWritten(body, anchored, path);
  }

  lemma OctetsAsWritten(body: string, anchored: bool, path: string)
    requires ReadsWell(body) && !HasEncodedStar(body) && !HasEscapedDelimiter(body)
    requires ReadsWell(path) && !HasEscapedDelimiter(path)
    ensures ByOctets(Unescape(body), anchored, Unescape(path), true) <==> OctetMatches(body, anchored, path)
  {
    var s := Unescape(path);
    AgreesOnEveryStringIffNoEncodedStar(body, anchored);
    assert ByOctets(Unescape(body), anchored, s, true) == Wildcard(TokensOf(Unescape(body)), anchored, s, true);
    assert ByOctets(Unescape(body), anchored, s, true) == Wildcard(RfcTokens(Read(body)), anchored, s, true);
    UnescapesAsReadIffReadsWell(path);
    OctetsAndValues(body, anchored, path);
  }

  /** Text in which nothing is special. */
  predicate IsText(s: string) {
    '%' !in s && '*' !in s && '$' !in s && '\n' !in s
  }

  function AsWritten(s: string): (marks: seq<Mark>)
    ensures |marks| == |s| && forall i :: 0 <= i < |s| ==> marks[i] == Mark(s[i], false)
  {
    seq(|s|, i requires 0 <= i < |s| => Mark(s[i], false))
  }

  lemma {:induction false} ReadText(a: string, rest: string)
    requires '%' !in a
    ensures Read(a + rest) == AsWritten(a) + Read(rest)
    ensures Decode(rest).Some? ==> Decode(a + rest).Some?
  {
    if a == [] {
      assert a + rest == rest && AsWritten(a) + Read(rest) == Read(rest);
    } else {
      assert (a + rest)[1..] == a[1..] + rest && (a + rest)[0] == a[0];
      ReadText(a[1..], rest);
      assert AsWritten(a) == [Mark(a[0], false)] + AsWritten(a[1..]);
    }
  }

  lemma {:induction false} ValuesOfText(a: string)
    ensures Values(AsWritten(a)) == a
  {
    if a != [] {
      ValuesOfText(a[1..]);
      assert AsWritten(a)[1..] == AsWritten(a[1..]);
    }
  }

  lemma {:induction false} ValuesAdd(a: seq<Mark>, b: seq<Mark>)
    ensures Values(a + b) == Values(a) + Values(b)
  {
    if a == [] {
      assert a + b == b;
    } else {
      ValuesAdd(a[1..], b);
      assert (a + b)[0] == a[0] && (a + b)[1..] == a[1..] + b;
      Regroup([a[0].c], Values(a[1..]), Values(b));
    }
  }

  lemma {:induction false} ValuesAsWritten(a: string)
    ensures Values(AsWritten(a)) == a
  {
    if a != [] {
      ValuesAsWritten(a[1..]);
      assert AsWritten(a)[1..] == AsWritten(a[1..]);
    }
  }

  lemma ValuesOfMarks(a: string, marks: seq<Mark>)
    ensures Values(AsWritten(a) + marks) == a + Values(marks)
  {
    ValuesAdd(AsWritten(a), marks);
    ValuesAsWritten(a);
  }

  lemma DecodeEscape(t: string, e: string)
    requires |e| == 3 && EscapeAt(e).Some? && Decode(t).Some?
    ensures Decode(e + t) == Some([EscapeAt(e).value] + Decode(t).value)
  {
    assert (e + t)[3..] == t && (e + t)[0] == e[0] && (e + t)[1] == e[1] && (e + t)[2] == e[2];
  }

  lemma TextDecodes(b: string)
    requires '%' !in b
    ensures Decode(b).Some? && Read(b) == AsWritten(b)
  {
    ReadText(b, []);
    assert b + [] == b && AsWritten(b) + [] == AsWritten(b) && Decode([]) == Some([]);
  }

  lemma EscapeThenText(e: string, b: string)
    requires |e| == 3 && EscapeAt(e).Some? && '%' !in b
    ensures Read(e + b) == [Mark(EscapeAt(e).value, true)] + AsWritten(b)
    ensures Values(Read(e + b)) == [EscapeAt(e).value] + b && Decode(e + b).Some?
  {
    var m := Mark(EscapeAt(e).value, true);
    TextDecodes(b);
    ReadEscape(b, e);
    DecodeEscape(b, e);
    ValuesOfText(b);
    assert ([m] + AsWritten(b))[1..] == AsWritten(b);
  }

  /** A text with one escape in it. */
  lemma EscapeWithinText(a: string, e: string, b: string)
    requires IsText(a) && |e| == 3 && EscapeAt(e).Some? && '%' !in b
    ensures Read(a + e + b) == AsWritten(a) + [Mark(EscapeAt(e).value, true)] + AsWritten(b)
    ensures Decode(a + e + b).Some? && Unescape(a + e + b) == Values(Read(a + e + b)) == a + [EscapeAt(e).value] + b
  {
    var c := EscapeAt(e).value;
    EscapeThenText(e, b);
    ReadText(a, e + b);
    ValuesOfMarks(a, [Mark(c, true)] + AsWritten(b));
    assert a + e + b == a + (e + b) && a + [c] + b == a + ([c] + b);
    assert AsWritten(a) + [Mark(c, true)] + AsWritten(b) == AsWritten(a) + ([Mark(c, true)] + AsWritten(b));
    DecodedAsRead(a + e + b);
  }

  lemma SlashPatternReads(a: string, b: string)
    requires IsText(a) && IsText(b)
    ensures Read(a + "%2F" + b) == AsWritten(a) + [Mark('/', true)] + AsWritten(b)
    ensures Decode(a + "%2F" + b).Some? && Values(Read(a + "%2F" + b)) == a + "/" + b
  {
    var e := "%2F";
    assert HexValue(e[1]) == Some(2) && HexValue(e[2]) == Some(15);
    assert EscapeAt(e) == Some('/');
    EscapeWithinText(a, e, b);
    assert [EscapeAt(e).value] == "/";
  }

  lemma SlashPatternIsBody(a: string, b: string)
    requires IsText(a) && IsText(b)
    ensures var p := a + "%2F" + b; Body(p) == p && !Anchored(p)
  {
    var p := a + "%2F" + b;
    assert p[|p| - 1] == if b == [] then 'F' else b[|b| - 1];
  }

  lemma TextReads(path: string)
    requires '%' !in path
    ensures Read(path) == AsWritten(path) && Values(Read(path)) == path && Unescape(path) == path
  {
    ReadText(path, "");
    assert path + "" == path && Read(path) == AsWritten(path) + [];
    assert Read(path) == AsWritten(path);
    ValuesOfText(path);
    UnescapesAsReadIffReadsWell(path);
  }

  lemma CodeMatchesSlash(a: string, b: string)
    requires IsText(a) && IsText(b) && WellFormed(a + "/" + b)
    ensures CodeMatches(a + "%2F" + b, a + "/" + b)
  {
    SlashPatternIsBody(a, b);
    SlashUnescapes(a, b);
    assert '\n' !in a + "/" + b;
    MatchesItself(a + "%2F" + b, a + "/" + b);
  }

  lemma SlashUnescapes(a: string, b: string)
    requires IsText(a) && IsText(b)
    ensures Unescape(a + "%2F" + b) == a + "/" + b
  {
    SlashPatternReads(a, b);
    DecodedAsRead(a + "%2F" + b);
  }

  lemma MatchesItself(p: string, path: string)
    requires Compiles(p) && Unescape(Body(p)) == path && !Anchored(p) && '\n' !in path
    ensures CodeMatches(p, path)
  {
    SelfMatch(Runes(path), false, true);
    AgreesOnEveryPatternIffNoNewline(path);
  }

  lemma RfcNeedsEncodedSlash(a: string, b: string, path: string)
    requires IsText(a) && IsText(b) && '%' !in path
    ensures !RfcMatches(a + "%2F" + b, path)
  {
    var p := a + "%2F" + b;
    SlashPatternIsBody(a, b);
    SlashPatternReads(a, b);
    TextReads(path);
    assert Read(p)[|a|] == Mark('/', true);
    assert PiecesOf(Read(p))[|a|] == Exactly(Mark('/', true));
    if RfcMatches(p, path) {
      OctetIsNeeded(PiecesOf(Read(p)), false, NormalAll(Read(path)), Mark('/', true));
    }
  }

  /** An encoded slash in a pattern, as in `/a%2Fb`: the code matches the path that has the slash, the RFC
      does not. */
  lemma EncodedSlashDiffers(a: string, b: string)
    requires IsText(a) && IsText(b) && WellFormed(a + "/" + b)
    ensures CodeMatches(a + "%2F" + b, Unescape(a + "/" + b)) && !RfcMatches(a + "%2F" + b, a + "/" + b)
  {
    TextReads(a + "/" + b);
    CodeMatchesSlash(a, b);
    RfcNeedsEncodedSlash(a, b, a + "/" + b);
  }

  // -------------------------------- patterns and paths that are not UTF-8

  /** A text with one escape after it. */
  lemma EscapeAfterText(a: string, e: string)
    requires IsText(a) && |e| == 3 && EscapeAt(e).Some?
    ensures Read(a + e) == AsWritten(a) + [Mark(EscapeAt(e).value, true)]
    ensures Unescape(a + e) == a + [EscapeAt(e).value]
  {
    var c := EscapeAt(e).value;
    EscapeWithinText(a, e, []);
    assert a + e + [] == a + e && a + [c] + [] == a + [c];
    assert AsWritten(a) + [Mark(c, true)] + AsWritten([]) == AsWritten(a) + [Mark(c, true)];
  }

  /** The last octet of a well-formed string is of ASCII or continues a character. */
  lemma {:induction false} LastOctet(s: string)
    requires WellFormed(s) && s != []
    ensures s[|s| - 1] as int < 0x80 || IsTail(s[|s| - 1])
    decreases |s|
  {
    var n := CharLen(s);
    if n < |s| {
      LastOctet(s[n..]);
    } else if n > 1 {
      CharShape(s);
    }
  }

  /** A pattern with an octet of Latin-1 at its end, as in `/caf%E9`, does not compile. */
  lemma LatinPatternPanics(a: string)
    requires IsText(a)
    ensures !Compiles(a + "%E9") && !IsExpr(CompileExpr(a + "%E9"))
  {
    var e := "%E9";
    assert HexValue(e[1]) == Some(14) && HexValue(e[2]) == Some(9);
    assert EscapeAt(e) == Some(0xE9 as char);
    EscapeAfterText(a, e);
    assert Body(a + e) == a + e;
    if Compiles(a + e) {
      LastOctet(a + [0xE9 as char]);
    }
    CompiledItems(a + e);
  }

  /** The text with U+FFFD after it, each octet escaped. */
  lemma EscapedMark(a: string)
    requires IsText(a)
    ensures var p := a + "%EF%BF%BD";
            && Body(p) == p && !Anchored(p)
            && Read(p) == AsWritten(a) + [Mark(MARK[0], true), Mark(MARK[1], true), Mark(MARK[2], true)]
            && Unescape(p) == a + MARK
  {
    var p := a + "%EF%BF%BD";
    assert HexValue('E') == Some(14) && HexValue('F') == Some(15);
    assert HexValue('B') == Some(11) && HexValue('D') == Some(13);
    assert EscapeAt("%EF") == Some(MARK[0]) && EscapeAt("%BF") == Some(MARK[1]) && EscapeAt("%BD") == Some(MARK[2]);
    MarkReads();
    ReadText(a, "%EF%BF%BD");
    DecodedAsRead(p);
    ValuesOfMarks(a, Read("%EF%BF%BD"));
  }

  lemma MarkReads()
    requires EscapeAt("%EF") == Some(MARK[0]) && EscapeAt("%BF") == Some(MARK[1]) && EscapeAt("%BD") == Some(MARK[2])
    ensures Read("%EF%BF%BD") == [Mark(MARK[0], true), Mark(MARK[1], true), Mark(MARK[2], true)]
    ensures Decode("%EF%BF%BD").Some? && Values(Read("%EF%BF%BD")) == MARK
  {
    var s := "%EF%BF%BD";
    assert s == "%EF" + "%BF%BD" && "%BF%BD" == "%BF" + "%BD" && "%BD" == "%BD" + [];
    ReadEscape([], "%BD");
    ReadEscape("%BD", "%BF");
    ReadEscape("%BF%BD", "%EF");
    DecodeEscape([], "%BD");
    DecodeEscape("%BD", "%BF");
    DecodeEscape("%BF%BD", "%EF");
    DecodedAsRead(s);
  }

  /** A pattern with U+FFFD, as in `/%EF%BF%BD`, and a path with an octet that starts no character in its
      place, as in `/%FF`: the code reads the same from both and matches, the RFC does not. */
  lemma ReplacementDiffers(a: string)
    requires IsText(a) && WellFormed(a)
    ensures CodeMatches(a + "%EF%BF%BD", Unescape(a + "%FF")) && !RfcMatches(a + "%EF%BF%BD", a + "%FF")
  {
    var p, path := a + "%EF%BF%BD", a + "%FF";
    assert HexValue('F') == Some(15) && EscapeAt("%FF") == Some(0xFF as char);
    EscapeAfterText(a, "%FF");
    EscapedMark(a);
    SameRunes(a);
    SelfMatch(Runes(a + MARK), false, false);
    CompileCorrect(p, a + [0xFF as char]);
    RfcNeedsMark(a, Read(p), Read(path));
  }

  lemma FirstChar(a: string) returns (p: string, q: string)
    requires CharLen(a) > 0
    ensures a == p + q && 0 < CharLen(p) == |p| && q == a[CharLen(a)..]
  {
    p, q := a[..CharLen(a)], a[CharLen(a)..];
    CharLenLocal(a, CharLen(a));
  }

  lemma SameRunesThen(p: string, s: string, t: string)
    requires 0 < CharLen(p) == |p| && WellFormed(s) && Runes(s) == Runes(t)
    ensures WellFormed(p + s) && Runes(p + s) == Runes(p + t)
  {
    CharFirst(p, s);
    CharFirst(p, t);
  }

  lemma {:induction false} SameRunesAfter(a: string, s: string, t: string)
    requires WellFormed(a) && WellFormed(s) && Runes(s) == Runes(t)
    ensures WellFormed(a + s) && Runes(a + s) == Runes(a + t)
    decreases |a|
  {
    if a == [] {
      assert a + s == s && a + t == t;
    } else {
      var p, q := FirstChar(a);
      SameRunesAfter(q, s, t);
      SameRunesThen(p, q + s, q + t);
      Regroup(p, q, s);
      Regroup(p, q, t);
    }
  }

  lemma SameRunes(a: string)
    requires WellFormed(a)
    ensures WellFormed(a + MARK) && Runes(a + MARK) == Runes(a + [0xFF as char])
  {
    MarkIsReplacement([]);
    SpoilReads([]);
    assert MARK + [] == MARK && [0xFF as char] + [] == [0xFF as char];
    SameRunesAfter(a, MARK, [0xFF as char]);
  }

  lemma RfcNeedsMark(a: string, pattern: seq<Mark>, path: seq<Mark>)
    requires IsText(a) && path == AsWritten(a) + [Mark(0xFF as char, true)]
    requires pattern == AsWritten(a) + [Mark(MARK[0], true), Mark(MARK[1], true), Mark(MARK[2], true)]
    ensures !Covers(PiecesOf(pattern), false, NormalAll(path))
  {
    assert forall m :: m in pattern ==> m != Mark('*', false);
    assert AnyRun !in PiecesOf(pattern);
    if Covers(PiecesOf(pattern), false, NormalAll(path)) {
      ExactPiecesArePrefix(PiecesOf(pattern), false, NormalAll(path));
    }
  }
}
