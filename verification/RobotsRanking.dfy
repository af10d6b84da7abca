/** internal/robots/robots.go, Allowed: the code ranks the rules that match by the length of the pattern as it is
    written, section 2.2.2 of RFC 9309 by the octets of the match; and exactly when that is the same. */
module RobotsRanking {
  import opened Commons
  import opened Utf8
  import opened RobotsPattern
  import opened RobotsRunes
  import opened RobotsRfc
  import opened RobotsParse
  import opened RobotsVerdict

  type Measure = Rule -> nat

  function Written(): Measure {
    (r: Rule) => |r.pattern|
  }

  /** The octets of a pattern: an escape is one. */
  function Octets(): Measure {
    (r: Rule) => |Read(r.pattern)|
  }

  /** The longest rule that matches is an Allow, or none matches. */
  ghost predicate PermittedBy(rules: seq<Rule>, hit: Hit, length: Measure) {
    || (forall r :: r in rules ==> !hit(r))
    || (exists a :: a in rules && Leading(a, rules, hit, length))
  }

  ghost predicate Leading(a: Rule, rules: seq<Rule>, hit: Hit, length: Measure) {
    && a.allow && hit(a)
    && forall r :: r in rules && hit(r) ==> length(r) <= length(a)
  }

  /** What the code computes is the ranking by the length as written. */
  lemma CodeRanksByWritten(rules: seq<Rule>, hit: Hit)
    ensures Permitted(rules, hit) <==> PermittedBy(rules, hit, Written())
  {
    if a :| a in rules && Decides(a, rules, hit) {
      assert Leading(a, rules, hit, Written());
    }
    if a :| a in rules && Leading(a, rules, hit, Written()) {
      assert Decides(a, rules, hit);
    }
  }

  /** Some Allow that matches is no shorter than any Disallow that does. */
  ghost predicate Outranks(a: Rule, rules: seq<Rule>, hit: Hit, length: Measure) {
    && a.allow && hit(a)
    && forall d :: d in rules && hit(d) && !d.allow ==> length(d) <= length(a)
  }

  /** Among the Allows that match one is longest. */
  lemma {:induction false} LongestAllow(rules: seq<Rule>, hit: Hit, length: Measure, a: Rule) returns (b: Rule)
    requires a.allow && hit(a)
    ensures b.allow && hit(b) && (b == a || b in rules) && length(a) <= length(b)
    ensures forall r :: r in rules && r.allow && hit(r) ==> length(r) <= length(b)
  {
    if rules == [] {
      b := a;
    } else {
      b := LongestAllow(rules[1..], hit, length, a);
      assert rules == [rules[0]] + rules[1..];
      if rules[0].allow && hit(rules[0]) && length(rules[0]) > length(b) {
        b := rules[0];
      }
    }
  }

  /** Only an Allow against a Disallow matters. */
  lemma PermittedIfOutranks(rules: seq<Rule>, hit: Hit, length: Measure)
    ensures PermittedBy(rules, hit, length) <==>
              || (forall r :: r in rules ==> !hit(r))
              || (exists a :: a in rules && Outranks(a, rules, hit, length))
  {
    if a :| a in rules && Leading(a, rules, hit, length) {
      assert Outranks(a, rules, hit, length);
    }
    if a :| a in rules && Outranks(a, rules, hit, length) {
      var b := LongestAllow(rules, hit, length, a);
      assert Leading(b, rules, hit, length);
    }
  }

  /** The two measures put each Disallow on the same side of each Allow. */
  ghost predicate RankAlike(rules: seq<Rule>, f: Measure, g: Measure) {
    forall a, d :: a in rules && d in rules && a.allow && !d.allow ==> (f(d) <= f(a) <==> g(d) <= g(a))
  }

  lemma SameRankSameVerdict(rules: seq<Rule>, hit: Hit, f: Measure, g: Measure)
    requires RankAlike(rules, f, g) && PermittedBy(rules, hit, f)
    ensures PermittedBy(rules, hit, g)
  {
    PermittedIfOutranks(rules, hit, f);
    PermittedIfOutranks(rules, hit, g);
    if a :| a in rules && Outranks(a, rules, hit, f) {
      assert Outranks(a, rules, hit, g);
    }
  }

  /** What only two rules decide, if only they match. */
  lemma PairDecides(rules: seq<Rule>, a: Rule, d: Rule, length: Measure)
    requires a in rules && d in rules && a.allow && !d.allow
    ensures PermittedBy(rules, r => r == a || r == d, length) <==> length(d) <= length(a)
  {
    var hit: Hit := r => r == a || r == d;
    assert hit(a) && hit(d);
    if length(d) <= length(a) {
      assert Leading(a, rules, hit, length);
    }
  }

  /** Exactly when two measures give the same verdict whatever matches. */
  lemma SameVerdictsIffRankAlike(rules: seq<Rule>, f: Measure, g: Measure)
    ensures (forall hit :: PermittedBy(rules, hit, f) <==> PermittedBy(rules, hit, g)) <==> RankAlike(rules, f, g)
  {
    if RankAlike(rules, f, g) {
      forall hit
        ensures PermittedBy(rules, hit, f) <==> PermittedBy(rules, hit, g)
      {
        if PermittedBy(rules, hit, f) {
          SameRankSameVerdict(rules, hit, f, g);
        }
        if PermittedBy(rules, hit, g) {
          SameRankSameVerdict(rules, hit, g, f);
        }
      }
    } else {
      var a, d :| a in rules && d in rules && a.allow && !d.allow && !(f(d) <= f(a) <==> g(d) <= g(a));
      PairDecides(rules, a, d, f);
      PairDecides(rules, a, d, g);
      assert !(PermittedBy(rules, r => r == a || r == d, f) <==> PermittedBy(rules, r => r == a || r == d, g));
    }
  }

  /** Rules without escapes rank alike by length and by octets. */
  lemma NoEscapesRankAlike(rules: seq<Rule>)
    requires forall r :: r in rules ==> !HasEscape(r.pattern)
    ensures RankAlike(rules, Written(), Octets())
  {
    forall r | r in rules
      ensures |Read(r.pattern)| == |r.pattern|
    {
      UndecodedAsRead(r.pattern);
    }
  }

  // ------------------------------------------- rules on which they differ

  lemma {:induction false} AsciiReads(s: string)
    requires forall i :: 0 <= i < |s| ==> s[i] as int < 0x80
    ensures WellFormed(s) && Runes(s) == s
  {
    if s != [] {
      AsciiReads(s[1..]);
      AsciiFirst(s[0], s[1..]);
      assert s == [s[0]] + s[1..];
    }
  }

  lemma PlainPrefixMatches(t: string, s: string)
    requires '*' !in t && t <= s
    ensures Wildcard(TokensOf(t), false, s, false)
  {
    TokensOfPlain(t, []);
    assert t + [] == t && Plain(t) + [] == Plain(t);
    PlainMatches(t, [], false, s, false);
  }

  /** A pattern of ASCII without anything special, escaped or not, matches what it starts. */
  lemma TextMatches(pattern: string, t: string, s: string)
    requires Body(pattern) == pattern && !Anchored(pattern) && Unescape(pattern) == t
    requires '*' !in t && t <= s && forall i :: 0 <= i < |s| ==> s[i] as int < 0x80
    ensures CodeMatches(pattern, s)
  {
    AsciiReads(s);
    AsciiReads(t);
    CompileCorrect(pattern, s);
    PlainPrefixMatches(t, s);
  }

  function RfcHit(path: string): Hit {
    (r: Rule) => RfcMatches(r.pattern, path)
  }

  lemma TwoEscapesRead()
    ensures Read("/%61%62") == [Mark('/', false), Mark('a', true), Mark('b', true)]
    ensures Decode("/%61%62").Some? && Unescape("/%61%62") == "/ab"
  {
    assert HexValue('6') == Some(6) && HexValue('1') == Some(1) && HexValue('2') == Some(2);
    assert EscapeAt("%61") == Some('a') && EscapeAt("%62") == Some('b');
    EscapeThenText("%62", []);
    ReadEscape("%62", "%61");
    DecodeEscape("%62", "%61");
    assert "%61" + "%62" == "%61%62" && "/" + "%61%62" == "/%61%62" && "%62" + [] == "%62" && AsWritten([]) == [];
    ReadText("/", "%61%62");
    ReadTwo();
    DecodedAsRead("/%61%62");
  }

  lemma ReadTwo()
    ensures Values([Mark('/', false), Mark('a', true), Mark('b', true)]) == "/ab"
  {
    var m := [Mark('/', false), Mark('a', true), Mark('b', true)];
    assert m[1..] == [m[1], m[2]] && m[1..][1..] == [m[2]] && m[1..][1..][1..] == [];
    assert Values([m[2]]) == "b" && Values(m[1..]) == "ab";
  }

  /** An Allow that is longer as written and a Disallow with more octets. */
  lemma EscapedAllowDiffers(a: Rule, d: Rule, code: Hit, rfc: Hit)
    requires a.allow && !d.allow && code(a) && rfc(d)
    requires |a.pattern| >= |d.pattern| && |Read(a.pattern)| < |Read(d.pattern)|
    ensures PermittedBy([a, d], code, Written()) && !PermittedBy([a, d], rfc, Octets())
  {
    var rules := [a, d];
    assert rules[0] == a && rules[1] == d;
    assert Leading(a, rules, code, Written());
    assert rfc(d) && d in rules;
  }

  lemma TextRuleReads(s: string)
    requires IsText(s) && forall i :: 0 <= i < |s| ==> s[i] as int < 0x80
    ensures Body(s) == s && !Anchored(s) && Unescape(s) == s && |Read(s)| == |s|
    ensures PlainPattern(s) && PlainPath(s) && ReadTrue(s, s)
  {
    TextReads(s);
    TextDecodes(s);
    AsciiReads(s);
  }

  /** A text of ASCII as pattern and as path, for code and RFC. */
  lemma TextRuleMatches(s: string)
    requires IsText(s) && forall i :: 0 <= i < |s| ==> s[i] as int < 0x80
    ensures CodeMatches(s, s) && RfcMatches(s, s)
  {
    TextRuleReads(s);
    TextMatches(s, s, s);
    CodeDecidesRfcMatching(s, s);
  }

  lemma EscapedAbHits(p: string, s: string)
    requires p == "/%61%62" && s == "/abc"
    ensures CodeMatches(p, s) && |Read(p)| == 3
  {
    TwoEscapesRead();
    TextMatches(p, "/ab", s);
  }

  /** Allow /%61%62 and Disallow /abc on /abc: the Allow is longer as written, the Disallow in octets. */
  lemma EscapesOutrank(p: string, s: string)
    requires p == "/%61%62" && s == "/abc"
    ensures PermittedBy([Rule(true, p), Rule(false, s)], CodeHit(s), Written())
    ensures !PermittedBy([Rule(true, p), Rule(false, s)], RfcHit(s), Octets())
  {
    EscapedAbHits(p, s);
    TextRuleReads(s);
    TextRuleMatches(s);
    EscapedAllowDiffers(Rule(true, p), Rule(false, s), CodeHit(s), RfcHit(s));
  }
}
