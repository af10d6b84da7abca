/** Matching character by character, as the code does it, and octet by octet (internal/robots/robots.go): when
    they are the same. Characters are read as Go reads them, an octet that starts none as U+FFFD. */
module RobotsRunes {
  import opened Utf8
  import opened RobotsPattern

  /** A pattern body on a string, by the characters of both. */
  predicate ByRunes(body: string, anchored: bool, s: string, cross: bool) {
    Wildcard(TokensOf(Runes(body)), anchored, Runes(s), cross)
  }

  predicate ByOctets(body: string, anchored: bool, s: string, cross: bool) {
    Wildcard(TokensOf(body), anchored, s, cross)
  }

  // ----------------------------------------------------------- newlines

  lemma NewlineFirst(s: string)
    requires s != []
    ensures '\n' in s <==> FirstRune(s) == '\n' || '\n' in s[RuneWidth(s)..]
  {
    var n := RuneWidth(s);
    if n > 1 {
      CharShape(s);
    }
    assert s == s[..n] + s[n..];
    assert '\n' in s[..n] <==> FirstRune(s) == '\n';
  }

  lemma {:induction false} NewlineInRunes(s: string)
    ensures '\n' in Runes(s) <==> '\n' in s
    decreases |s|
  {
    if s != [] {
      NewlineFirst(s);
      NewlineInRunes(s[RuneWidth(s)..]);
    }
  }

  // ------------------------------------------------- one character, one run

  lemma {:induction false} TokensOfPlain(p: string, t: string)
    requires '*' !in p
    ensures TokensOf(p + t) == Plain(p) + TokensOf(t)
  {
    if p == [] {
      assert p + t == t;
    } else {
      assert (p + t)[1..] == p[1..] + t;
      TokensOfPlain(p[1..], t);
    }
  }

  /** A character of the pattern, by its octets. */
  lemma CharByOctets(body: string, anchored: bool, s: string, cross: bool)
    requires CharLen(body) > 0 && body[0] != '*'
    ensures var n := CharLen(body);
            ByOctets(body, anchored, s, cross) <==> body[..n] <= s && ByOctets(body[n..], anchored, s[n..], cross)
  {
    var n := CharLen(body);
    CharShape(body);
    assert body == body[..n] + body[n..];
    TokensOfPlain(body[..n], body[n..]);
    PlainMatches(body[..n], TokensOf(body[n..]), anchored, s, cross);
  }

  lemma CharByRunes(body: string, anchored: bool, s: string, cross: bool)
    requires CharLen(body) > 0 && body[0] != '*' && s != []
    ensures ByRunes(body, anchored, s, cross) <==>
              RuneOf(body) == FirstRune(s) && ByRunes(body[CharLen(body)..], anchored, s[RuneWidth(s)..], cross)
  {
    var t := Runes(body);
    assert TokensOf(t)[1..] == TokensOf(t[1..]) && t[1..] == Runes(body[CharLen(body)..]);
    assert Runes(s)[1..] == Runes(s[RuneWidth(s)..]);
  }

  /** The pattern's first character starts the string exactly if it is the first one read from it, unless it
      is U+FFFD and the string starts with no character. */
  lemma SameFirst(body: string, s: string)
    requires CharLen(body) > 0 && s != []
    ensures body[..CharLen(body)] <= s ==> RuneWidth(s) == CharLen(body) && FirstRune(s) == RuneOf(body)
    ensures FirstRune(s) == RuneOf(body) && (CharLen(s) > 0 || RuneOf(body) != REPLACEMENT) ==>
              body[..CharLen(body)] <= s && RuneWidth(s) == CharLen(body)
  {
    var n := CharLen(body);
    CharLenLocal(body, n);
    CharLenExtends(body[..n], body);
    if body[..n] <= s {
      CharLenExtends(body[..n], s);
    }
    if FirstRune(s) == RuneOf(body) && CharLen(s) > 0 {
      RuneHasOneEncoding(s, body);
    }
  }

  /** A run that reaches as far as `w` may be taken to start there. */
  lemma LaterRun(toks: seq<Tok>, anchored: bool, s: string, w: nat, k: nat, cross: bool)
    requires w <= k <= |s| && RunThen(toks, anchored, s, k, cross)
    ensures Wildcard([Wild] + toks, anchored, s[w..], cross)
  {
    assert s[w..][k - w..] == s[k..];
    assert s[..k] == s[..w] + s[w..][..k - w];
    assert RunThen(toks, anchored, s[w..], k - w, cross);
    RunMatches(toks, anchored, s[w..], cross);
  }

  predicate InRun(s: string, cross: bool)
    requires s != []
  {
    cross || s[0] != '\n'
  }

  lemma NoNewlineInFirst(s: string, cross: bool)
    requires s != [] && InRun(s, cross)
    ensures cross || '\n' !in s[..RuneWidth(s)]
  {
    if CharLen(s) > 1 {
      CharShape(s);
    }
  }

  /** A run does not end within a character: what follows would match at its start. */
  lemma RunEndsWithin(rest: string, anchored: bool, s: string, k: nat, cross: bool)
    requires WellFormed(rest) && s != [] && 0 < k < RuneWidth(s) && RunThen(TokensOf(rest), anchored, s, k, cross)
    ensures Wildcard(TokensOf(rest), anchored, s, cross)
  {
    CharShape(s);
    if rest != [] {
      if rest[0] == '*' {
        assert TokensOf(rest) == [Wild] + TokensOf(rest[1..]);
        assert s[0..k] == s[..k] && s[0..] == s;
        EarlierRun(TokensOf(rest[1..]), anchored, s, 0, k, cross);
      } else {
        CharShape(rest);
      }
    }
  }

  /** A run by octets is empty or takes the first character, and goes on. */
  lemma StarByOctets(rest: string, anchored: bool, s: string, cross: bool)
    requires WellFormed(rest)
    ensures Wildcard([Wild] + TokensOf(rest), anchored, s, cross) <==>
              || Wildcard(TokensOf(rest), anchored, s, cross)
              || (s != [] && InRun(s, cross) && Wildcard([Wild] + TokensOf(rest), anchored, s[RuneWidth(s)..], cross))
  {
    var toks := TokensOf(rest);
    RunMatches(toks, anchored, s, cross);
    if k :| 0 <= k <= |s| && RunThen(toks, anchored, s, k, cross) {
      if k == 0 {
        assert s[0..] == s;
      } else if k < RuneWidth(s) {
        RunEndsWithin(rest, anchored, s, k, cross);
      } else {
        assert s[..k][0] == s[0];
        LaterRun(toks, anchored, s, RuneWidth(s), k, cross);
      }
    }
    EmptyOrLonger(toks, anchored, s, cross);
  }

  lemma EmptyOrLonger(toks: seq<Tok>, anchored: bool, s: string, cross: bool)
    ensures Wildcard(toks, anchored, s, cross) ==> Wildcard([Wild] + toks, anchored, s, cross)
    ensures s != [] && InRun(s, cross) && Wildcard([Wild] + toks, anchored, s[RuneWidth(s)..], cross) ==>
              Wildcard([Wild] + toks, anchored, s, cross)
  {
    RunMatches(toks, anchored, s, cross);
    assert s[0..] == s;
    assert Wildcard(toks, anchored, s, cross) ==> RunThen(toks, anchored, s, 0, cross);
    if s != [] && InRun(s, cross) && Wildcard([Wild] + toks, anchored, s[RuneWidth(s)..], cross) {
      NoNewlineInFirst(s, cross);
      assert s[0..RuneWidth(s)] == s[..RuneWidth(s)];
      EarlierRun(toks, anchored, s, 0, RuneWidth(s), cross);
    }
  }

  /** A run by characters, likewise. */
  lemma StarByRunes(toks: seq<Tok>, anchored: bool, t: string, cross: bool)
    ensures Wildcard([Wild] + toks, anchored, t, cross) <==>
              || Wildcard(toks, anchored, t, cross)
              || (t != [] && InRun(t, cross) && Wildcard([Wild] + toks, anchored, t[1..], cross))
  {
    RunMatches(toks, anchored, t, cross);
    assert t[0..] == t;
    if k :| 0 <= k <= |t| && RunThen(toks, anchored, t, k, cross) {
      if k > 0 {
        assert t[..k][0] == t[0];
        LaterRun(toks, anchored, t, 1, k, cross);
      }
    }
    assert Wildcard(toks, anchored, t, cross) ==> RunThen(toks, anchored, t, 0, cross);
    if t != [] && InRun(t, cross) && Wildcard([Wild] + toks, anchored, t[1..], cross) {
      EarlierRun(toks, anchored, t, 0, 1, cross);
    }
  }

  lemma RunesUnfold(s: string)
    requires s != []
    ensures Runes(s) != [] && Runes(s)[1..] == Runes(s[RuneWidth(s)..])
    ensures Runes(s)[0] == FirstRune(s) && (FirstRune(s) == '\n' <==> s[0] == '\n')
  {
    if CharLen(s) > 1 {
      CharShape(s);
    }
  }

  // ------------------------------------------------------ both directions

  lemma StarTokens(body: string)
    requires body != [] && body[0] == '*'
    ensures TokensOf(body) == [Wild] + TokensOf(body[1..])
    ensures TokensOf(Runes(body)) == [Wild] + TokensOf(Runes(body[1..]))
    ensures Runes(body) == ['*'] + Runes(body[1..])
    ensures WellFormed(body) ==> WellFormed(body[1..])
  {
    assert CharLen(body) == 1;
    assert Runes(body)[1..] == Runes(body[1..]);
  }

  /** What matches by octets matches by characters. */
  lemma {:induction false} OctetsThenRunes(body: string, anchored: bool, s: string, cross: bool)
    requires WellFormed(body) && ByOctets(body, anchored, s, cross)
    ensures ByRunes(body, anchored, s, cross)
    decreases |body|, |s|
  {
    if body != [] {
      if body[0] == '*' {
        StarTokens(body);
        StarByOctets(body[1..], anchored, s, cross);
        StarByRunes(TokensOf(Runes(body[1..])), anchored, Runes(s), cross);
        if ByOctets(body[1..], anchored, s, cross) {
          OctetsThenRunes(body[1..], anchored, s, cross);
        } else {
          RunesUnfold(s);
          OctetsThenRunes(body, anchored, s[RuneWidth(s)..], cross);
        }
      } else {
        CharByOctets(body, anchored, s, cross);
        SameFirst(body, s);
        OctetsThenRunes(body[CharLen(body)..], anchored, s[CharLen(body)..], cross);
        CharByRunes(body, anchored, s, cross);
      }
    }
  }

  /** The pattern has no U+FFFD, or the string is well-formed. */
  predicate ReadsTrue(body: string, s: string) {
    REPLACEMENT !in Runes(body) || WellFormed(s)
  }

  lemma NotStar(body: string)
    requires CharLen(body) > 0 && body[0] != '*'
    ensures RuneOf(body) != '*' && Runes(body) != [] && TokensOf(Runes(body))[0] == Ch(RuneOf(body))
    ensures RuneOf(body) in Runes(body)
    ensures forall c :: c in Runes(body[CharLen(body)..]) ==> c in Runes(body)
  {
  }

  /** What matches by characters matches by octets, if no octet can pass for U+FFFD. */
  lemma {:induction false} RunesThenOctets(body: string, anchored: bool, s: string, cross: bool)
    requires WellFormed(body) && ReadsTrue(body, s) && ByRunes(body, anchored, s, cross)
    ensures ByOctets(body, anchored, s, cross)
    decreases |body|, |s|
  {
    if body == [] {
      assert s != [] ==> Runes(s) != [];
    } else if body[0] == '*' {
      StarTokens(body);
      StarByOctets(body[1..], anchored, s, cross);
      StarByRunes(TokensOf(Runes(body[1..])), anchored, Runes(s), cross);
      if ByRunes(body[1..], anchored, s, cross) {
        RunesThenOctets(body[1..], anchored, s, cross);
      } else {
        assert s != [];
        RunesUnfold(s);
        RunesThenOctets(body, anchored, s[RuneWidth(s)..], cross);
      }
    } else {
      var n := CharLen(body);
      NotStar(body);
      assert s != [];
      CharByRunes(body, anchored, s, cross);
      SameFirst(body, s);
      RunesThenOctets(body[n..], anchored, s[n..], cross);
      CharByOctets(body, anchored, s, cross);
    }
  }

  /** Matching by characters is matching by octets, for a well-formed pattern without U+FFFD or a well-formed
      string. */
  lemma RunesAreOctets(body: string, anchored: bool, s: string, cross: bool)
    requires WellFormed(body) && ReadsTrue(body, s)
    ensures ByRunes(body, anchored, s, cross) <==> ByOctets(body, anchored, s, cross)
  {
    if ByOctets(body, anchored, s, cross) {
      OctetsThenRunes(body, anchored, s, cross);
    }
    if ByRunes(body, anchored, s, cross) {
      RunesThenOctets(body, anchored, s, cross);
    }
  }

  // ------------------------------------------------- the exact conditions

  /** How many of the octets are ones that encode U+FFFD. */
  function Heavy(s: string): nat {
    if s == [] then 0 else (if IsHeavy(s[0]) then 1 else 0) + Heavy(s[1..])
  }

  predicate IsHeavy(c: char) {
    c as int in {0xEF, 0xBF, 0xBD}
  }

  lemma {:induction false} HeavySplits(s: string, k: nat)
    requires k <= |s|
    ensures Heavy(s) == Heavy(s[..k]) + Heavy(s[k..])
  {
    if k == 0 {
      assert s[0..] == s;
    } else {
      HeavySplits(s[1..], k - 1);
      assert s[..k][1..] == s[1..][..k - 1] && s[k..] == s[1..][k - 1..];
    }
  }

  /** A match uses each octet of the string for one of the pattern at most. */
  lemma {:induction false} MatchNeedsHeavy(toks: seq<Tok>, anchored: bool, s: string, cross: bool)
    requires Wildcard(toks, anchored, s, cross)
    ensures Heavy(Literals(toks)) <= Heavy(s)
    decreases |toks|
  {
    if toks != [] {
      var rest := Literals(toks[1..]);
      if toks[0].Wild? {
        var k :| 0 <= k <= |s| && Wildcard(toks[1..], anchored, s[k..], cross);
        MatchNeedsHeavy(toks[1..], anchored, s[k..], cross);
        HeavySplits(s, k);
        assert Literals(toks) == rest;
      } else {
        MatchNeedsHeavy(toks[1..], anchored, s[1..], cross);
        assert Literals(toks) == [toks[0].c] + rest && ([toks[0].c] + rest)[1..] == rest;
      }
    }
  }

  lemma {:induction false} HeavyLiterals(body: string)
    ensures Heavy(Literals(TokensOf(body))) == Heavy(body)
  {
    if body != [] {
      HeavyLiterals(body[1..]);
      var toks := TokensOf(body);
      assert toks[1..] == TokensOf(body[1..]);
      if body[0] != '*' {
        assert (['x'] + Literals(toks[1..]))[1..] == Literals(toks[1..]);
        assert Literals(toks) == [body[0]] + Literals(toks[1..]);
        assert Literals(toks)[1..] == Literals(toks[1..]);
      } else {
        assert Literals(toks) == Literals(toks[1..]);
      }
    }
  }

  /** A string matches itself, each star for a star. */
  lemma {:induction false} SelfMatch(t: string, anchored: bool, cross: bool)
    ensures Wildcard(TokensOf(t), anchored, t, cross)
  {
    if t != [] {
      SelfMatch(t[1..], anchored, cross);
      assert TokensOf(t)[1..] == TokensOf(t[1..]);
      if t[0] == '*' {
        assert t[..1] == ['*'];
        assert (cross || '\n' !in t[..1]) && Wildcard(TokensOf(t)[1..], anchored, t[1..], cross);
      }
    }
  }

  const MARK: string := [0xEF as char, 0xBF as char, 0xBD as char]

  lemma MarkIsReplacement(t: string)
    ensures CharLen(MARK) == 3 && RuneOf(MARK) == REPLACEMENT && Heavy(MARK) == 3
    ensures Runes(MARK + t) == [REPLACEMENT] + Runes(t) && (WellFormed(MARK + t) <==> WellFormed(t))
  {
    HeavyMark();
    CharFirst(MARK, t);
  }

  lemma HeavyMark()
    ensures Heavy(MARK) == 3
  {
    assert MARK[1..] == [0xBF as char, 0xBD as char];
    assert MARK[1..][1..] == [0xBD as char];
    assert Heavy([0xBD as char]) == 1 && Heavy(MARK[1..]) == 2;
  }

  /** The string with U+FFFD in the place of each octet that starts no character. */
  function Mended(s: string): string {
    if s == [] then [] else (if CharLen(s) > 0 then s[..CharLen(s)] else MARK) + Mended(s[RuneWidth(s)..])
  }

  lemma {:induction false} MendedReads(s: string)
    ensures WellFormed(Mended(s)) && Runes(Mended(s)) == Runes(s)
    decreases |s|
  {
    if s != [] {
      var n := RuneWidth(s);
      var rest := Mended(s[n..]);
      MendedReads(s[n..]);
      if CharLen(s) > 0 {
        CharLenLocal(s, n);
        CharLenExtends(s[..n], s);
        CharFirst(s[..n], rest);
      } else {
        MarkIsReplacement(rest);
      }
    }
  }

  lemma HeavyAdds(a: string, b: string)
    ensures Heavy(a + b) == Heavy(a) + Heavy(b)
  {
    HeavySplits(a + b, |a|);
    assert (a + b)[..|a|] == a && (a + b)[|a|..] == b;
  }

  lemma OneHeavy(s: string)
    ensures |s| == 1 ==> Heavy(s) <= 1
  {
  }

  lemma {:induction false} MendedIsHeavier(s: string)
    ensures Heavy(Mended(s)) >= Heavy(s) && (!WellFormed(s) ==> Heavy(Mended(s)) > Heavy(s))
    decreases |s|
  {
    if s != [] {
      var n := RuneWidth(s);
      MendedIsHeavier(s[n..]);
      HeavySplits(s, n);
      if CharLen(s) > 0 {
        HeavyAdds(s[..n], Mended(s[n..]));
      } else {
        MarkIsReplacement([]);
        OneHeavy(s[..n]);
        HeavyAdds(MARK, Mended(s[n..]));
      }
    }
  }

  /** On a string that is not well-formed, some well-formed pattern tells characters from octets. */
  lemma IllFormedStringShows(s: string, anchored: bool, cross: bool)
    requires !WellFormed(s)
    ensures WellFormed(Mended(s)) && ByRunes(Mended(s), anchored, s, cross) && !ByOctets(Mended(s), anchored, s, cross)
  {
    MendedReads(s);
    MendedIsHeavier(s);
    SelfMatch(Runes(s), anchored, cross);
    HeavyLiterals(Mended(s));
    if ByOctets(Mended(s), anchored, s, cross) {
      MatchNeedsHeavy(TokensOf(Mended(s)), anchored, s, cross);
    }
  }

  /** Exactly when the difference cannot be seen on a string: when it is well-formed. */
  lemma StringReadsAlikeIffWellFormed(s: string, anchored: bool, cross: bool)
    ensures (forall body :: WellFormed(body) ==>
               (ByRunes(body, anchored, s, cross) <==> ByOctets(body, anchored, s, cross)))
       <==> WellFormed(s)
  {
    if WellFormed(s) {
      forall body | WellFormed(body)
        ensures ByRunes(body, anchored, s, cross) <==> ByOctets(body, anchored, s, cross)
      {
        RunesAreOctets(body, anchored, s, cross);
      }
    } else {
      IllFormedStringShows(s, anchored, cross);
    }
  }

  /** The string with an octet that starts no character in the place of each U+FFFD. */
  function Spoiled(s: string): string {
    if s == [] then []
    else (if FirstRune(s) == REPLACEMENT then [0xFF as char] else s[..RuneWidth(s)]) + Spoiled(s[RuneWidth(s)..])
  }

  lemma SpoilReads(t: string)
    ensures Runes([0xFF as char] + t) == [REPLACEMENT] + Runes(t)
  {
    assert ([0xFF as char] + t)[1..] == t;
  }

  lemma {:induction false} SpoiledReads(s: string)
    requires WellFormed(s)
    ensures Runes(Spoiled(s)) == Runes(s)
    decreases |s|
  {
    if s != [] {
      var n := CharLen(s);
      SpoiledReads(s[n..]);
      if RuneOf(s) == REPLACEMENT {
        SpoilReads(Spoiled(s[n..]));
      } else {
        CharLenLocal(s, n);
        CharLenExtends(s[..n], s);
        CharFirst(s[..n], Spoiled(s[n..]));
      }
    }
  }

  lemma {:induction false} SpoiledIsLighter(s: string)
    requires WellFormed(s)
    ensures Heavy(Spoiled(s)) <= Heavy(s) && (REPLACEMENT in Runes(s) ==> Heavy(Spoiled(s)) < Heavy(s))
    decreases |s|
  {
    if s != [] {
      var n := CharLen(s);
      SpoiledIsLighter(s[n..]);
      HeavySplits(s, n);
      if RuneOf(s) == REPLACEMENT {
        MarkIsReplacement([]);
        RuneHasOneEncoding(s, MARK);
        assert s[..n] == MARK[..3] == MARK;
        HeavyAdds([0xFF as char], Spoiled(s[n..]));
      } else {
        HeavyAdds(s[..n], Spoiled(s[n..]));
      }
    }
  }

  /** Under a pattern with U+FFFD, some string tells characters from octets. */
  lemma ReplacementShows(body: string, anchored: bool, cross: bool)
    requires WellFormed(body) && REPLACEMENT in Runes(body)
    ensures ByRunes(body, anchored, Spoiled(body), cross) && !ByOctets(body, anchored, Spoiled(body), cross)
  {
    SpoiledReads(body);
    SpoiledIsLighter(body);
    SelfMatch(Runes(body), anchored, cross);
    HeavyLiterals(body);
    if ByOctets(body, anchored, Spoiled(body), cross) {
      MatchNeedsHeavy(TokensOf(body), anchored, Spoiled(body), cross);
    }
  }

  /** Exactly when it cannot be seen under a pattern that compiles: when the pattern has no U+FFFD. */
  lemma PatternReadsAlikeIffNoReplacement(body: string, anchored: bool, cross: bool)
    requires WellFormed(body)
    ensures (forall s :: ByRunes(body, anchored, s, cross) <==> ByOctets(body, anchored, s, cross))
       <==> REPLACEMENT !in Runes(body)
  {
    if REPLACEMENT in Runes(body) {
      ReplacementShows(body, anchored, cross);
    } else {
      forall s
        ensures ByRunes(body, anchored, s, cross) <==> ByOctets(body, anchored, s, cross)
      {
        RunesAreOctets(body, anchored, s, cross);
      }
    }
  }
}
