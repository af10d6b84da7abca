/** internal/robots/robots.go as a whole against RFC 9309: which group a file has for an agent, and what the
    code decides for a path as it is requested. */
module RobotsConformance {
  import opened Commons
  import opened Utf8
  import opened RobotsPattern
  import opened RobotsRfc
  import opened RobotsParse
  import opened RobotsVerdict
  import opened RobotsRanking
  import opened RobotsLines
  import opened RobotsRecords

  // ---------------------------------------------------------- the group

  /** Section 2.2.1: a user-agent line names the crawler when it is its product token. Both are in lower
      case here. */
  predicate RfcNames(line: string, agent: string) {
    line != "*" && line != "" && line == agent
  }

  function RfcSelectorFor(named: bool, agent: string): Selector {
    if named then (line => RfcNames(line, agent)) else (line => line == "*")
  }

  ghost predicate RfcFileNames(ev: seq<Event>, agent: string) {
    SomeLineSelects(ev, RfcSelectorFor(true, agent))
  }

  /** Which user-agent lines select a group, for the code and for the RFC. */
  ghost function CodeSelector(ev: seq<Event>, agent: string): Selector {
    SelectorFor(FileNames(ev, agent), agent)
  }

  ghost function RfcSelector(ev: seq<Event>, agent: string): Selector {
    RfcSelectorFor(RfcFileNames(ev, agent), agent)
  }

  /** A user-agent line with a proper part of the agent's name. */
  predicate NamesPart(line: string, agent: string) {
    Names(line, agent) && line != agent
  }

  function PartSelector(agent: string): Selector {
    line => NamesPart(line, agent)
  }

  ghost predicate HasPartialName(ev: seq<Event>, agent: string) {
    SomeLineSelects(ev, PartSelector(agent))
  }

  ghost predicate SelectAlike(ev: seq<Event>, a: Selector, b: Selector) {
    forall i :: 0 <= i < |ev| && ev[i].Agent? ==> (a(ev[i].name) <==> b(ev[i].name))
  }

  lemma WholeNameIsContained(agent: string)
    ensures agent != "*" && agent != "" ==> Names(agent, agent)
  {
    assert agent[0..|agent|] == agent;
  }

  /** Exactly when the code picks the lines that the RFC picks: when no user-agent line has a proper part of
      the agent's name. */
  lemma SelectsAlikeIffNoPartialName(ev: seq<Event>, agent: string)
    ensures SelectAlike(ev, CodeSelector(ev, agent), RfcSelector(ev, agent)) <==> !HasPartialName(ev, agent)
  {
    WholeNameIsContained(agent);
    if HasPartialName(ev, agent) {
      var i :| 0 <= i < |ev| && ev[i].Agent? && NamesPart(ev[i].name, agent);
      assert FileNames(ev, agent);
      assert CodeSelector(ev, agent)(ev[i].name) && !RfcSelector(ev, agent)(ev[i].name);
    } else {
      assert forall i :: 0 <= i < |ev| && ev[i].Agent? ==> !PartSelector(agent)(ev[i].name);
      assert FileNames(ev, agent) <==> RfcFileNames(ev, agent);
    }
  }

  lemma {:induction false} SameGoverned(ev: seq<Event>, n: nat, a: Selector, b: Selector)
    requires n <= |ev| && SelectAlike(ev, a, b)
    ensures GovernedRules(ev, n, a) == GovernedRules(ev, n, b)
  {
    if n > 0 {
      SameGoverned(ev, n - 1, a, b);
      GovernedAlike(ev, n - 1, a, b);
      GovernedAlike(ev, n - 1, b, a);
    }
  }

  lemma GovernedAlike(ev: seq<Event>, i: nat, a: Selector, b: Selector)
    requires i <= |ev| && SelectAlike(ev, a, b)
    ensures Governed(ev, i, a) ==> Governed(ev, i, b)
  {
    if Governed(ev, i, a) {
      var k, j :| 0 <= k <= j < i && RunThenOthers(ev, k, j, i) && a(ev[k].name);
      assert ev[k].Agent? && b(ev[k].name);
    }
  }

  // ---------------------------------------------------------- the grouping

  lemma {:induction false} RulesOfShape(a: Chunks, b: Chunks, sel: Selector)
    requires Shape(a) == Shape(b)
    ensures RulesOf(a, sel) == RulesOf(b, sel)
  {
    if a.Snoc? {
      var n := |Shape(a)| - 1;
      assert Shape(b)[n] == (a.last.agents, RulesIn(a.last.body));
      assert Shape(a)[..n] == Shape(a.front) && Shape(b)[..n] == Shape(b.front);
      RulesOfShape(a.front, b.front, sel);
    } else {
      assert b.Empty?;
    }
  }

  lemma {:induction false} ExtrasNameNobody(ev: seq<Event>, sel: Selector)
    ensures SomeLineSelects(WithoutExtras(ev), sel) <==> SomeLineSelects(ev, sel)
  {
    if ev != [] {
      var front, e := ev[..|ev| - 1], ev[|ev| - 1];
      ExtrasNameNobody(front, sel);
      SomeLineStep(ev, sel);
      WithoutExtrasOfAppend(front, e);
      assert front + [e] == ev;
      if !IsExtra(e) {
        SomeLineStep(WithoutExtras(front) + [e], sel);
        assert (WithoutExtras(front) + [e])[..|WithoutExtras(front)|] == WithoutExtras(front);
      }
    }
  }

  /** The rules that the RFC gives the agent: those of the groups that name it, else of the star groups, of
      the file without the records that must not matter. */
  ghost function RfcRules(ev: seq<Event>, agent: string): seq<Rule> {
    RulesOf(CutOf(WithoutExtras(ev)).chunks, RfcSelector(WithoutExtras(ev), agent))
  }

  /** The code keeps the rules that the RFC gives, if no other record splits a run of user-agent lines and
      none of these has a proper part of the agent's name. */
  lemma KeepsTheRfcRules(ev: seq<Event>, agent: string, read: DelayReader)
    requires !RunIsSplit(ev) && !HasPartialName(ev, agent)
    ensures ParseSpec(ev, agent, read).rules == RfcRules(ev, agent)
  {
    var bare := WithoutExtras(ev);
    ExtrasNameNobody(ev, SelectorFor(true, agent));
    ExtrasNameNobody(ev, PartSelector(agent));
    assert FileNames(ev, agent) == SomeLineSelects(ev, SelectorFor(true, agent));
    assert FileNames(bare, agent) == SomeLineSelects(bare, SelectorFor(true, agent));
    GroupsAsRfcIffNoRunIsSplit(ev);
    RulesOfShape(CutOf(ev).chunks, CutOf(bare).chunks, CodeSelector(ev, agent));
    SelectsAlikeIffNoPartialName(bare, agent);
    SameGoverned(bare, |bare|, CodeSelector(bare, agent), RfcSelector(bare, agent));
    KeptRulesAreTheGovernedOnes(bare, CodeSelector(bare, agent));
    KeptRulesAreTheGovernedOnes(bare, RfcSelector(bare, agent));
  }

  // ---------------------------------------------------------- the verdict

  /** What the code decides for a path as it is requested, the file being one for which Parse returns. */
  ghost predicate CodePermits(ev: seq<Event>, agent: string, read: DelayReader, path: string) {
    Target(path) == "/robots.txt" || Permitted(ParseSpec(ev, agent, read).rules, CodeHit(Unescape(Target(path))))
  }

  const ROBOTS_TXT := "/robots.txt"

  /** The path of robots.txt itself, however its octets are written. */
  predicate IsRobotsTxt(path: string) {
    NormalAll(Read(path)) == NormalAll(Read(ROBOTS_TXT))
  }

  /** What RFC 9309 decides: the file without other records, the groups of the product token, octets compared
      as section 2.2.2 says, runs and the end of the pattern as section 2.2.3 says, the rule with the most
      octets wins. */
  ghost predicate RfcPermits(ev: seq<Event>, agent: string, path: string) {
    IsRobotsTxt(Target(path)) || PermittedBy(RfcRules(ev, agent), RfcHit(Target(path)), Octets())
  }

  /** The lines, for the agent, are ones that the code reads as the RFC does: Parse returns for them; no other
      record splits a run of user-agent lines; no user-agent line has a proper part of the agent's name; and
      the rules kept have valid escapes (or none), none of a delimiter or star, and rank alike by length and
      by octets. */
  ghost predicate PlainEvents(ev: seq<Event>, agent: string, read: DelayReader) {
    var rules := ParseSpec(ev, agent, read).rules;
    && AllCompile(ev) && !RunIsSplit(ev) && !HasPartialName(ev, agent)
    && (forall r :: r in rules ==> PlainPattern(r.pattern))
    && RankAlike(rules, Written(), Octets())
  }

  lemma EventsDecideAsRfc(ev: seq<Event>, agent: string, read: DelayReader, path: string)
    requires PlainEvents(ev, agent, read) && PlainPath(Target(path))
    requires forall r :: r in ParseSpec(ev, agent, read).rules ==> ReadTrue(r.pattern, Target(path))
    requires IsRobotsTxt(Target(path)) ==> Target(path) == ROBOTS_TXT
    ensures CodePermits(ev, agent, read, path) <==> RfcPermits(ev, agent, path)
  {
    var rules := ParseSpec(ev, agent, read).rules;
    var code, rfc := CodeHit(Unescape(Target(path))), RfcHit(Target(path));
    KeepsTheRfcRules(ev, agent, read);
    forall r | r in rules
      ensures code(r) == rfc(r)
    {
      CodeDecidesRfcMatching(r.pattern, Target(path));
    }
    CodeRanksByWritten(rules, code);
    SameHitsSameVerdict(rules, code, rfc);
    SameHitsSameVerdict(rules, rfc, code);
    SameVerdictsIffRankAlike(rules, Written(), Octets());
    assert PermittedBy(rules, rfc, Written()) <==> PermittedBy(rules, rfc, Octets());
  }

  /** Code and RFC from the content of a file, the agent's name and the path, all as they come. What is asked
      for can be seen in them: plain lines that say plain things, with no white space but spaces and tabs around
      them; a path with valid escapes (or none), none of a delimiter or a newline; a path that is well-formed UTF-8,
      or rules without U+FFFD; and the path of robots.txt written plainly. */
  lemma DecidesAsRfc(content: string, agentName: string, read: DelayReader, path: string)
    requires PlainLines(content) && forall line :: line in Lines(content) ==> !HasOddSpace(line)
    requires PlainEvents(Events(Lines(content)), ToLower(agentName), read)
    requires PlainPath(Target(path)) && (IsRobotsTxt(Target(path)) ==> Target(path) == ROBOTS_TXT)
    requires forall r :: r in ParseSpec(Events(Lines(content)), ToLower(agentName), read).rules ==>
               ReadTrue(r.pattern, Target(path))
    ensures CodePermits(Events(Lines(content)), ToLower(agentName), read, path) <==>
              RfcPermits(RfcEvents(RfcLines(content)), ToLower(agentName), path)
  {
    FileSaysTheSame(content);
    EventsDecideAsRfc(Events(Lines(content)), ToLower(agentName), read, path);
  }

  lemma SameHitsSameVerdict(rules: seq<Rule>, a: Hit, b: Hit)
    requires forall r :: r in rules ==> a(r) == b(r)
    ensures PermittedBy(rules, a, Written()) ==> PermittedBy(rules, b, Written())
  {
    if w :| w in rules && Leading(w, rules, a, Written()) {
      assert Leading(w, rules, b, Written());
    }
  }

  /** Of the rules a file keeps, all compile if Parse returns. */
  lemma KeptRulesCompile(ev: seq<Event>, agent: string, read: DelayReader, r: Rule)
    requires AllCompile(ev) && r in ParseSpec(ev, agent, read).rules
    ensures Compiles(r.pattern)
  {
    var sel := CodeSelector(ev, agent);
    ParseKeepsTheGovernedRules(ev, agent, read);
    GovernedRuleHasLine(ev, |ev|, sel, r);
    var i :| 0 <= i < |ev| && Governed(ev, i, sel) && RuleOf(ev[i]) == [r];
    var k, j :| 0 <= k <= j < i && RunThenOthers(ev, k, j, i) && sel(ev[k].name);
    assert ev[k].Agent? && InGroup(ev, i) && IsRule(ev[i]);
  }

  // ------------------------------------------------ the path of robots.txt

  /** A file that forbids everything to everybody. */
  function ForbidAll(): (ev: seq<Event>) {
    [Agent("*"), RuleLine(false, "*")]
  }

  lemma StarMatchesAll(s: string)
    ensures CodeMatches("*", s) && Compiles("*")
  {
    AsciiReads("*");
    assert "*"[1..] == [] && Decode([]) == Some([]) && ['*'] + [] == "*";
    assert Decode("*") == Some("*") && Body("*") == "*";
    CompileCorrect("*", s);
    var toks := TokensOf("*");
    assert toks == [Wild] && toks[1..] == [];
    assert '\n' !in Runes(s)[..0] && Wildcard([], false, Runes(s)[0..], false);
  }

  lemma ForbidAllKeeps(agent: string, read: DelayReader)
    ensures AllCompile(ForbidAll()) && ParseSpec(ForbidAll(), agent, read).rules == [Rule(false, "*")]
  {
    var ev := ForbidAll();
    StarMatchesAll([]);
    OneGroup("*", ev[1]);
    assert !FileNames(ev, agent);
    RulesOfOneGroup("*", Rule(false, "*"), CodeSelector(ev, agent));
  }

  /** The paths that the code permits under every file for which Parse returns are /robots.txt, as written
      here, and no other. */
  lemma AlwaysPermittedIffRobotsTxt(path: string, agent: string, read: DelayReader)
    ensures (forall ev :: AllCompile(ev) ==> CodePermits(ev, agent, read, path)) <==> Target(path) == "/robots.txt"
  {
    if Target(path) != "/robots.txt" {
      ForbidAllKeeps(agent, read);
      StarMatchesAll(Unescape(Target(path)));
      OneDisallow(Rule(false, "*"), CodeHit(Unescape(Target(path))));
      assert !CodePermits(ForbidAll(), agent, read, path);
    }
  }

  /** An octet that is no delimiter may be written as an escape. */
  lemma EscapeRespells(a: string, e: string, b: string)
    requires IsText(a) && '%' !in b && |e| == 3 && EscapeAt(e).Some?
    requires !IsDelimiter(EscapeAt(e).value) && EscapeAt(e).value != '%'
    ensures NormalAll(Read(a + e + b)) == NormalAll(Read(a + [EscapeAt(e).value] + b))
  {
    var c := EscapeAt(e).value;
    EscapeWithinText(a, e, b);
    PlainWithinText(a, c, b);
    SameNormal(AsWritten(a), c, AsWritten(b));
  }

  lemma PlainWithinText(a: string, c: char, b: string)
    requires '%' !in a && '%' !in b && c != '%'
    ensures Read(a + [c] + b) == AsWritten(a) + [Mark(c, false)] + AsWritten(b)
  {
    TextDecodes(a + [c] + b);
    assert AsWritten(a + [c] + b) == AsWritten(a) + [Mark(c, false)] + AsWritten(b);
  }

  lemma EncodedDotReads(path: string, dot: string)
    requires dot == "%2E" && path == "/robots" + dot + "txt"
    ensures IsRobotsTxt(path)
  {
    assert HexValue(dot[1]) == Some(2) && HexValue(dot[2]) == Some(14) && EscapeAt(dot) == Some('.');
    EscapeRespells("/robots", dot, "txt");
    assert "/robots" + ['.'] + "txt" == ROBOTS_TXT;
  }

  lemma SameNormal(a: seq<Mark>, c: char, b: seq<Mark>)
    requires !IsDelimiter(c)
    ensures NormalAll(a + [Mark(c, true)] + b) == NormalAll(a + [Mark(c, false)] + b)
  {
  }

  /** Any other spelling of the path of robots.txt, as /robots%2Etxt: the RFC permits it under every file, the
      code forbids it under some. */
  lemma RespelledRobotsTxtDiffers(path: string, agent: string, read: DelayReader, ev: seq<Event>)
    requires IsRobotsTxt(Target(path)) && Target(path) != "/robots.txt"
    ensures RfcPermits(ev, agent, path) && !CodePermits(ForbidAll(), agent, read, path)
  {
    ForbidAllKeeps(agent, read);
    StarMatchesAll(Unescape(Target(path)));
    OneDisallow(Rule(false, "*"), CodeHit(Unescape(Target(path))));
  }

  // ------------------------------------------- a file on which they differ

  lemma OneGroup(name: string, rule: Event)
    requires rule.RuleLine?
    ensures CutOf([Agent(name), rule]).chunks == Snoc(Empty, Chunk([name], [rule]))
    ensures WithoutExtras([Agent(name), rule]) == [Agent(name), rule]
  {
    CutOfAppend([], Agent(name));
    CutOfAppend([Agent(name)], rule);
    WithoutExtrasOfAppend([], Agent(name));
    WithoutExtrasOfAppend([Agent(name)], rule);
    assert [] + [Agent(name)] == [Agent(name)] && [Agent(name)] + [rule] == [Agent(name), rule];
    assert [] + [rule] == [rule];
  }

  lemma RulesOfOneGroup(name: string, rule: Rule, sel: Selector)
    requires rule.pattern != ""
    ensures RulesOf(Snoc(Empty, Chunk([name], [RuleLine(rule.allow, rule.pattern)])), sel)
         == if sel(name) then [rule] else []
  {
    var line := RuleLine(rule.allow, rule.pattern);
    RulesOfBody([], line);
    assert [] + [line] == [line] && RulesIn([line]) == [rule];
    assert Selected([name], sel) <==> sel(name) by {
      assert [name][0] == name;
    }
  }

  lemma PartialNameSelects(ev: seq<Event>, name: string, agent: string)
    requires NamesPart(name, agent) && |ev| == 2 && ev[0] == Agent(name) && !ev[1].Agent?
    ensures CodeSelector(ev, agent)(name) && !RfcSelector(ev, agent)(name)
  {
    assert FileNames(ev, agent);
  }

  lemma PartialNameKeepsRule(name: string, agent: string, pattern: string, read: DelayReader)
    requires NamesPart(name, agent) && pattern != ""
    ensures var ev := [Agent(name), RuleLine(false, pattern)];
            ParseSpec(ev, agent, read).rules == [Rule(false, pattern)] && RfcRules(ev, agent) == []
  {
    var rule := Rule(false, pattern);
    var ev := [Agent(name), RuleLine(false, pattern)];
    OneGroup(name, ev[1]);
    PartialNameSelects(ev, name, agent);
    RulesOfOneGroup(name, rule, CodeSelector(ev, agent));
    RulesOfOneGroup(name, rule, RfcSelector(ev, agent));
  }

  lemma OneDisallow(rule: Rule, hit: Hit)
    requires !rule.allow && hit(rule)
    ensures !Permitted([rule], hit) && PermittedBy([], hit, Octets())
  {
    assert rule in [rule];
  }

  /** A group for a proper part of the agent's name, with a Disallow that matches: the code obeys it, the RFC
      gives the agent no group and permits the path. */
  lemma PartialNameDiffers(name: string, agent: string, pattern: string, read: DelayReader, path: string)
    requires NamesPart(name, agent) && pattern != ""
    requires Target(path) != "/robots.txt" && CodeMatches(pattern, Unescape(Target(path)))
    ensures var ev := [Agent(name), RuleLine(false, pattern)];
            !CodePermits(ev, agent, read, path) && RfcPermits(ev, agent, path)
  {
    PartialNameKeepsRule(name, agent, pattern, read);
    OneDisallow(Rule(false, pattern), CodeHit(Unescape(Target(path))));
  }

  /** So the crawler "web-harvester" obeys a group for "web". */
  lemma WebNamesWebHarvester()
    ensures NamesPart("web", "web-harvester")
  {
    assert "web" <= "web-harvester"[0..];
  }
}
