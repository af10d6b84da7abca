/** internal/robots/robots.go from the text of a file to the verdict: what a file of one group with one rule
    decides, for any name, rule and layout. */
module RobotsFile {
  import opened Commons
  import opened RobotsPattern
  import opened RobotsParse
  import opened RobotsLines
  import opened RobotsRecords
  import opened RobotsVerdict
  import opened RobotsConformance

  /** A line of the scanner: no line feed, no carriage return at its end, shorter than a megabyte. */
  predicate IsScanned(line: string) {
    0 < |line| < 1_048_576 && '\n' !in line && line[|line| - 1] != '\r'
  }

  lemma TwoScanned(a: string, b: string)
    requires IsScanned(a) && IsScanned(b)
    ensures Lines(a + (['\n'] + b)) == [a, b]
  {
    var content := a + (['\n'] + b);
    FirstAt(a, '\n', ['\n'] + b);
    assert content[|a| + 1..] == b && content[|a| - 1] == a[|a| - 1];
    OneLineOnly(b);
  }

  /** A line of a megabyte ends the file, whatever follows. */
  lemma LongLineEndsFile(line: string, rest: string)
    requires |line| >= 1_048_576 && '\n' !in line && (rest == [] || rest[0] == '\n')
    ensures Lines(line + rest) == []
  {
    FirstAt(line, '\n', rest);
  }

  predicate IsRuleKey(key: string) {
    ToLower(key) == "allow" || ToLower(key) == "disallow"
  }

  /** A user-agent line and a rule, each as it may be laid out. */
  predicate IsOneGroup(l: Layout, m: Layout) {
    && l.Proper(GoSpace()) && IsScanned(l.Text()) && ToLower(l.key) == "user-agent"
    && m.Proper(GoSpace()) && IsScanned(m.Text()) && IsRuleKey(m.key)
  }

  function FileOf(l: Layout, m: Layout): string {
    l.Text() + (['\n'] + m.Text())
  }

  lemma EventsOfTwo(a: string, b: string, d: Event, e: Event)
    requires Classify(a) == d != Blank && Classify(b) == e != Blank
    ensures Events([a, b]) == [d, e]
  {
    EventsOfLast([a], b);
    EventsOfLast([], a);
    assert [a] + [b] == [a, b] && [] + [a] == [a];
  }

  lemma SaysOneGroup(l: Layout, m: Layout)
    requires IsOneGroup(l, m)
    ensures Events(Lines(FileOf(l, m))) == [Agent(ToLower(l.value)), RuleLine(ToLower(m.key) == "allow", m.value)]
  {
    TwoScanned(l.Text(), m.Text());
    LineSays(l);
    LineSays(m);
    EventsOfTwo(
      l.Text(), m.Text(), Agent(ToLower(l.value)), RuleLine(ToLower(m.key) == "allow", m.value));
  }

  /** The name selects the agent: it is a star, or a part of the agent's name. */
  predicate IsFor(name: string, agent: string) {
    name == "*" || (name != "" && exists i :: 0 <= i <= |agent| && name <= agent[i..])
  }

  lemma OneGroupKeeps(name: string, rule: Rule, agent: string, read: DelayReader)
    requires rule.pattern != ""
    ensures ParseSpec([Agent(name), RuleLine(rule.allow, rule.pattern)], agent, read).rules ==
            if IsFor(name, agent) then [rule] else []
  {
    var ev := [Agent(name), RuleLine(rule.allow, rule.pattern)];
    OneGroup(name, ev[1]);
    RulesOfOneGroup(name, rule, CodeSelector(ev, agent));
    assert FileNames(ev, agent) <==> Names(name, agent) by {
      assert ev[0] == Agent(name);
    }
  }

  lemma OneRuleDecides(rule: Rule, hit: Hit)
    ensures Permitted([rule], hit) <==> rule.allow || !hit(rule)
    ensures Permitted([], hit)
  {
    assert rule in [rule];
    if rule.allow && hit(rule) {
      assert Decides(rule, [rule], hit);
    }
  }

  /** A path is forbidden if and only if it is not /robots.txt, the rule is a Disallow that matches it, and the name
      selects the agent; letters of the names in any case, and the empty path being the root. */
  lemma OneGroupDecides(l: Layout, m: Layout, agentName: string, read: DelayReader, path: string)
    requires IsOneGroup(l, m) && m.value != "" && Compiles(m.value)
    ensures var ev := Events(Lines(FileOf(l, m)));
            var target := if path == "" then "/" else path;
            && AllCompile(ev)
            && (!CodePermits(ev, ToLower(agentName), read, path) <==>
                  && target != "/robots.txt" && ToLower(m.key) == "disallow"
                  && CodeMatches(m.value, Unescape(target)) && IsFor(ToLower(l.value), ToLower(agentName)))
  {
    SaysOneGroup(l, m);
    var rule := Rule(ToLower(m.key) == "allow", m.value);
    var hit := CodeHit(Unescape(Target(path)));
    OneGroupKeeps(ToLower(l.value), rule, ToLower(agentName), read);
    OneRuleDecides(rule, hit);
  }

  function StarLine(): Layout {
    Layout("", "User-agent", "", " ", "*", "", "")
  }

  function DisallowLine(pattern: string): Layout {
    Layout("", "Disallow", "", " ", pattern, "", "")
  }

  lemma InLowerCase(s: string, t: string)
    requires |s| == |t|
    requires forall i :: 0 <= i < |s| ==> t[i] == if 'A' <= s[i] <= 'Z' then (s[i] as int + 32) as char else s[i]
    ensures ToLower(s) == t
  {
  }

  lemma AgentKeyInLowerCase()
    ensures ToLower("User-agent") == "user-agent"
  {
    InLowerCase("User-agent", "user-agent");
  }

  lemma DisallowKeyInLowerCase()
    ensures ToLower("Disallow") == "disallow"
  {
    InLowerCase("Disallow", "disallow");
  }

  lemma StarLineText()
    ensures StarLine().Text() == "User-agent: *" && IsScanned(StarLine().Text())
  {
  }

  lemma DisallowLineText(pattern: string)
    requires pattern != "" && Bare(GoSpace(), pattern) && '#' !in pattern && '\n' !in pattern && |pattern| < 1_048_000
    ensures DisallowLine(pattern).Text() == "Disallow: " + pattern && IsScanned("Disallow: " + pattern)
  {
    var text := "Disallow: " + pattern;
    assert text[|text| - 1] == pattern[|pattern| - 1];
    assert DisallowLine(pattern).Left() == "Disallow" && DisallowLine(pattern).Right() == " " + pattern;
  }

  lemma AreProper(pattern: string)
    requires Bare(GoSpace(), pattern) && '#' !in pattern
    ensures StarLine().Proper(GoSpace()) && DisallowLine(pattern).Proper(GoSpace())
  {
  }

  lemma PlainTexts(pattern: string)
    requires pattern != "" && Bare(GoSpace(), pattern) && '#' !in pattern && '\n' !in pattern && |pattern| < 1_048_000
    ensures IsOneGroup(StarLine(), DisallowLine(pattern)) && ToLower("*") == "*"
    ensures FileOf(StarLine(), DisallowLine(pattern)) == "User-agent: *" + (['\n'] + ("Disallow: " + pattern))
    ensures ToLower(DisallowLine(pattern).key) == "disallow"
  {
    AgentKeyInLowerCase();
    DisallowKeyInLowerCase();
    InLowerCase("*", "*");
    StarLineText();
    DisallowLineText(pattern);
    AreProper(pattern);
  }

  /** The plainest such file: "User-agent: *" and "Disallow: " with a pattern forbids to everybody exactly the paths
      other than /robots.txt that the pattern matches. */
  lemma DisallowForbidsItsMatches(pattern: string, agentName: string, read: DelayReader, path: string)
    requires pattern != "" && Bare(GoSpace(), pattern) && '#' !in pattern && '\n' !in pattern && |pattern| < 1_048_000
    requires Compiles(pattern) && path != ""
    ensures var ev := Events(Lines("User-agent: *" + (['\n'] + ("Disallow: " + pattern))));
            && AllCompile(ev)
            && (CodePermits(ev, ToLower(agentName), read, path) <==>
                  path == "/robots.txt" || !CodeMatches(pattern, Unescape(path)))
  {
    PlainTexts(pattern);
    OneGroupDecides(StarLine(), DisallowLine(pattern), agentName, read, path);
  }

  /** The same of the code itself: Parse returns for such a file, and Allowed then says so. */
  method ParseAndAsk(l: Layout, m: Layout, agentName: string, read: DelayReader, path: string) returns (allowed: bool)
    requires IsOneGroup(l, m) && m.value != "" && Compiles(m.value)
    ensures !allowed <==>
              && (path != "" ==> path != "/robots.txt") && ToLower(m.key) == "disallow"
              && CodeMatches(m.value, Unescape(if path == "" then "/" else path))
              && IsFor(ToLower(l.value), ToLower(agentName))
  {
    OneGroupDecides(l, m, agentName, read, path);
    var rules := Parse(FileOf(l, m), agentName, read);
    allowed := Allowed(rules.value.rules, path);
  }
}
