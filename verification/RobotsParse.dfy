/** internal/robots/robots.go: Parse. A line-driven state machine over mutable groups, proved equal
    to the grouping it stands for (sections 2.2.1 and 2.2.2 of RFC 9309). */
module RobotsParse {
  import opened Commons
  import opened RobotsPattern

  // -------------------------------------------------------------- strings

  predicate IsSpace(c: char) {
    c in {' ', '\t', '\n', 11 as char, 12 as char, '\r'}
  }

  function TrimLeft(s: string): string {
    if s != [] && IsSpace(s[0]) then TrimLeft(s[1..]) else s
  }

  function TrimRight(s: string): string {
    if s != [] && IsSpace(s[|s| - 1]) then TrimRight(s[..|s| - 1]) else s
  }

  function TrimSpace(s: string): string {
    TrimRight(TrimLeft(s))
  }

  /** The index of the first `c` in `s`, or the length of `s`. */
  function IndexOf(s: string, c: char): (i: nat)
    ensures i <= |s| && c !in s[..i] && (i < |s| ==> s[i] == c)
  {
    if s == [] || s[0] == c then 0 else 1 + IndexOf(s[1..], c)
  }

  predicate Contains(s: string, sub: string) {
    exists i :: 0 <= i <= |s| && sub <= s[i..]
  }

  const MAX_LINE := 0x10_0000

  /** bufio.Scanner over lines: one trailing carriage return is dropped, and a line that does not
      fit the buffer ends the scan. */
  function Lines(content: string): seq<string>
    decreases |content|
  {
    if content == [] then []
    else
      var n := IndexOf(content, '\n');
      if n >= MAX_LINE then []
      else
        var line := if n > 0 && content[n - 1] == '\r' then content[..n - 1] else content[..n];
        [line] + (if n < |content| then Lines(content[n + 1..]) else [])
  }

  // --------------------------------------------------------------- events

  datatype Rule = Rule(allow: bool, pattern: string)

  /** What one line says. `Blank` is a line without a colon. */
  datatype Event =
    | Agent(name: string)
    | RuleLine(allow: bool, pattern: string)
    | Delay(value: string)
    | Sitemap(url: string)
    | Other
    | Blank

  function Classify(line: string): Event {
    var text := line[..IndexOf(line, '#')];
    var colon := IndexOf(text, ':');
    if colon == |text| then Blank
    else
      var key, value := ToLower(TrimSpace(text[..colon])), TrimSpace(text[colon + 1..]);
      if key == "user-agent" then Agent(ToLower(value))
      else if key == "allow" || key == "disallow" then RuleLine(key == "allow", value)
      else if key == "crawl-delay" then Delay(value)
      else if key == "sitemap" then Sitemap(value)
      else Other
  }

  /** The lines that count: those with a colon. */
  function Events(lines: seq<string>): (ev: seq<Event>)
    ensures Blank !in ev
  {
    if lines == [] then []
    else
      var e := Classify(lines[|lines| - 1]);
      Events(lines[..|lines| - 1]) + (if e == Blank then [] else [e])
  }

  // --------------------------------------------------- declarative grouping

  /** A maximal run of user-agent lines and the other lines up to the next run. */
  datatype Chunk = Chunk(agents: seq<string>, body: seq<Event>)

  datatype Chunks = Empty | Snoc(front: Chunks, last: Chunk)

  /** A file cut into the lines before the first group and its groups. */
  datatype Cut = Cut(preamble: seq<Event>, chunks: Chunks)

  predicate NoAgents(ev: seq<Event>) {
    forall e :: e in ev ==> !e.Agent?
  }

  /** The runs are maximal: only the last group may be without other lines. */
  predicate MaximalChunks(cs: Chunks) {
    match cs
    case Empty => true
    case Snoc(front, c) =>
      && c.agents != [] && NoAgents(c.body)
      && (front.Snoc? ==> front.last.body != [])
      && MaximalChunks(front)
  }

  predicate Maximal(c: Cut) {
    NoAgents(c.preamble) && MaximalChunks(c.chunks)
  }

  function AgentLines(names: seq<string>): (ev: seq<Event>)
    ensures |ev| == |names|
    ensures forall i :: 0 <= i < |ev| ==> ev[i] == Agent(names[i])
  {
    seq(|names|, i requires 0 <= i < |names| => Agent(names[i]))
  }

  function FlattenChunks(cs: Chunks): seq<Event> {
    match cs
    case Empty => []
    case Snoc(front, c) => FlattenChunks(front) + (AgentLines(c.agents) + c.body)
  }

  function Flatten(c: Cut): seq<Event> {
    c.preamble + FlattenChunks(c.chunks)
  }

  /** What one more line does to the groups. */
  function FeedChunks(cs: Chunks, e: Event): Chunks {
    match (cs, e)
    case (Snoc(front, c), Agent(name)) =>
      if c.body == [] then Snoc(front, Chunk(c.agents + [name], [])) else Snoc(cs, Chunk([name], []))
    case (Empty, Agent(name)) => Snoc(Empty, Chunk([name], []))
    case (Snoc(front, c), _) => Snoc(front, Chunk(c.agents, c.body + [e]))
    case (Empty, _) => Empty
  }

  function Feed(c: Cut, e: Event): Cut {
    Cut(if c.chunks.Empty? && !e.Agent? then c.preamble + [e] else c.preamble, FeedChunks(c.chunks, e))
  }

  function CutOf(ev: seq<Event>): Cut {
    if ev == [] then Cut([], Empty) else Feed(CutOf(ev[..|ev| - 1]), ev[|ev| - 1])
  }

  lemma FeedLine(c: Cut, e: Event)
    requires Maximal(c)
    ensures Maximal(Feed(c, e))
    ensures Flatten(Feed(c, e)) == Flatten(c) + [e]
  {
    if e.Agent? && c.chunks.Snoc? {
      assert AgentLines(c.chunks.last.agents + [e.name]) == AgentLines(c.chunks.last.agents) + [e];
    }
    if e.Agent? {
      assert AgentLines([e.name]) == [e];
    }
    assert e.Agent? || c.chunks.Snoc? ==> FlattenChunks(FeedChunks(c.chunks, e)) == FlattenChunks(c.chunks) + [e];
  }

  /** The cut of a file is made of maximal runs and loses no line. */
  lemma {:induction false} CutIsMaximal(ev: seq<Event>)
    ensures Maximal(CutOf(ev)) && Flatten(CutOf(ev)) == ev
  {
    if ev != [] {
      var front, e := ev[..|ev| - 1], ev[|ev| - 1];
      CutIsMaximal(front);
      FeedLine(CutOf(front), e);
      assert front + [e] == ev;
    }
  }

  /** The cut without its last line. */
  ghost function Unfeed(c: Cut): Cut
    requires Maximal(c) && Flatten(c) != []
  {
    match c.chunks
    case Empty => Cut(c.preamble[..|c.preamble| - 1], Empty)
    case Snoc(front, k) =>
      if k.body != [] then Cut(c.preamble, Snoc(front, Chunk(k.agents, k.body[..|k.body| - 1])))
      else if |k.agents| > 1 then Cut(c.preamble, Snoc(front, Chunk(k.agents[..|k.agents| - 1], [])))
      else Cut(c.preamble, front)
  }

  lemma UnfeedIsInverse(c: Cut)
    requires Maximal(c) && Flatten(c) != []
    ensures Maximal(Unfeed(c))
    ensures c == Feed(Unfeed(c), Flatten(c)[|Flatten(c)| - 1])
  {
    var e := Flatten(c)[|Flatten(c)| - 1];
    match c.chunks
    case Empty =>
      assert c.preamble == c.preamble[..|c.preamble| - 1] + [e];
    case Snoc(front, k) =>
      if k.body != [] {
        assert k.body == k.body[..|k.body| - 1] + [e];
      } else {
        assert k.agents == k.agents[..|k.agents| - 1] + [e.name];
      }
  }

  /** There is only one way to cut a file into maximal runs. */
  lemma {:induction false} CutIsUnique(c: Cut)
    requires Maximal(c)
    ensures c == CutOf(Flatten(c))
    decreases |Flatten(c)|
  {
    var ev := Flatten(c);
    if ev == [] {
      assert c.chunks.Empty?;
    } else {
      UnfeedIsInverse(c);
      var d := Unfeed(c);
      FeedLine(d, ev[|ev| - 1]);
      assert (Flatten(d) + [ev[|ev| - 1]])[..|ev| - 1] == Flatten(d);
      CutIsUnique(d);
    }
  }

  // ------------------------------------------------- what a group contains

  /** An empty value is no rule. */
  function RuleOf(e: Event): seq<Rule> {
    if e.RuleLine? && e.pattern != "" then [Rule(e.allow, e.pattern)] else []
  }

  function RulesIn(body: seq<Event>): seq<Rule> {
    if body == [] then [] else RulesIn(body[..|body| - 1]) + RuleOf(body[|body| - 1])
  }

  lemma RulesOfBody(body: seq<Event>, e: Event)
    ensures RulesIn(body + [e]) == RulesIn(body) + RuleOf(e)
    ensures RuleOf(e) == [] ==> RulesIn(body + [e]) == RulesIn(body)
  {
    assert (body + [e])[..|body|] == body;
  }

  /** The duration a Crawl-delay value stands for: none if it is no number or not positive. */
  type DelayReader = string -> Option<int>

  /** The last Crawl-delay of a group that has a value wins. */
  function DelayIn(body: seq<Event>, read: DelayReader): int {
    if body == [] then 0
    else
      var last := body[|body| - 1];
      if last.Delay? && read(last.value).Some? then read(last.value).value
      else DelayIn(body[..|body| - 1], read)
  }

  predicate GivesDelay(e: Event, read: DelayReader) {
    e.Delay? && read(e.value).Some?
  }

  /** The delay of a group is that of its last Crawl-delay line with a value. */
  lemma {:induction false} DelayIsLastGiven(body: seq<Event>, i: nat, read: DelayReader)
    requires i < |body| && GivesDelay(body[i], read) && forall j :: i < j < |body| ==> !GivesDelay(body[j], read)
    ensures DelayIn(body, read) == read(body[i].value).value
  {
    var n := |body| - 1;
    if i < n {
      assert !GivesDelay(body[n], read);
      DelayIsLastGiven(body[..n], i, read);
    }
  }

  /** And none without such a line. */
  lemma {:induction false} NoDelayUnlessGiven(body: seq<Event>, read: DelayReader)
    requires forall i :: 0 <= i < |body| ==> !GivesDelay(body[i], read)
    ensures DelayIn(body, read) == 0
  {
    if body != [] {
      assert !GivesDelay(body[|body| - 1], read);
      NoDelayUnlessGiven(body[..|body| - 1], read);
    }
  }

  datatype Group = Group(agents: seq<string>, rules: seq<Rule>, delay: int)

  function Summary(c: Chunk, read: DelayReader): Group {
    Group(c.agents, RulesIn(c.body), DelayIn(c.body, read))
  }

  // --------------------------------------------------------- the selection

  /** A user-agent line names the agent when its value occurs in the agent's name. */
  predicate Names(line: string, agent: string) {
    line != "*" && line != "" && Contains(agent, line)
  }

  /** Which user-agent lines select a group: those that name the agent if the file has any, else
      the stars. */
  function SelectorFor(named: bool, agent: string): Selector {
    if named then (line => Names(line, agent)) else (line => line == "*")
  }

  type Selector = string -> bool

  predicate Selected(agents: seq<string>, sel: Selector) {
    exists i :: 0 <= i < |agents| && sel(agents[i])
  }

  predicate FileNames(ev: seq<Event>, agent: string) {
    exists i :: 0 <= i < |ev| && ev[i].Agent? && Names(ev[i].name, agent)
  }

  /** The rules of the selected groups, in file order. */
  function RulesOf(cs: Chunks, sel: Selector): seq<Rule> {
    match cs
    case Empty => []
    case Snoc(front, c) => RulesOf(front, sel) + (if Selected(c.agents, sel) then RulesIn(c.body) else [])
  }

  predicate HasChunk(cs: Chunks, c: Chunk) {
    cs.Snoc? && (cs.last == c || HasChunk(cs.front, c))
  }

  /** The greatest delay of the selected groups, and no less than zero. */
  function MaxDelay(cs: Chunks, sel: Selector, read: DelayReader): (d: int)
    ensures d >= 0
    ensures forall c :: HasChunk(cs, c) && Selected(c.agents, sel) ==> DelayIn(c.body, read) <= d
    ensures d == 0 || exists c :: HasChunk(cs, c) && Selected(c.agents, sel) && DelayIn(c.body, read) == d
  {
    match cs
    case Empty => 0
    case Snoc(front, c) =>
      var d := MaxDelay(front, sel, read);
      if Selected(c.agents, sel) && DelayIn(c.body, read) > d then DelayIn(c.body, read) else d
  }

  function SitemapsIn(ev: seq<Event>): seq<string> {
    if ev == [] then []
    else SitemapsIn(ev[..|ev| - 1]) + (if ev[|ev| - 1].Sitemap? then [ev[|ev| - 1].url] else [])
  }

  /** The sitemaps are the values of all Sitemap lines, wherever they stand, in file order. */
  lemma {:induction false} SitemapsInOrder(a: seq<Event>, url: string, b: seq<Event>)
    ensures SitemapsIn(a + [Sitemap(url)] + b) == SitemapsIn(a) + [url] + SitemapsIn(b)
    ensures (forall e :: e in b ==> !e.Sitemap?) ==> SitemapsIn(b) == []
  {
    var all := a + [Sitemap(url)] + b;
    if b == [] {
      assert all[..|a|] == a;
    } else {
      var front, e := b[..|b| - 1], b[|b| - 1];
      SitemapsInOrder(a, url, front);
      assert all[..|all| - 1] == a + [Sitemap(url)] + front;
      assert b == front + [e];
    }
  }

  datatype Rules = Rules(rules: seq<Rule>, crawlDelay: int, sitemaps: seq<string>)

  /** What Parse must return, in terms of the file's only cut into maximal runs. */
  function ParseSpec(ev: seq<Event>, agent: string, read: DelayReader): Rules {
    var chunks := CutOf(ev).chunks;
    var sel := SelectorFor(FileNames(ev, agent), agent);
    Rules(RulesOf(chunks, sel), MaxDelay(chunks, sel, read), SitemapsIn(ev))
  }

  // ------------------------------------- the same, without any grouping

  /** Line `i` comes under a user-agent line that selects: that line, then only user-agent lines up
      to some line, then none until `i`. */
  ghost predicate Governed(ev: seq<Event>, i: nat, sel: Selector)
    requires i <= |ev|
  {
    exists k, j :: 0 <= k <= j < i && RunThenOthers(ev, k, j, i) && sel(ev[k].name)
  }

  ghost predicate RunThenOthers(ev: seq<Event>, k: nat, j: nat, i: nat)
    requires k <= j < i <= |ev|
  {
    && (forall m :: k <= m <= j ==> ev[m].Agent?)
    && (forall m :: j < m < i ==> !ev[m].Agent?)
  }

  /** The governed rules among the first `n` lines, in file order. */
  ghost function GovernedRules(ev: seq<Event>, n: nat, sel: Selector): seq<Rule>
    requires n <= |ev|
  {
    if n == 0 then []
    else GovernedRules(ev, n - 1, sel)
         + (if Governed(ev, n - 1, sel) then RuleOf(ev[n - 1]) else [])
  }

  lemma GovernedStep(ev: seq<Event>, sel: Selector)
    requires ev != []
    ensures var n := |ev| - 1;
            Governed(ev, |ev|, sel) <==>
              if ev[n].Agent? then
                || sel(ev[n].name)
                || (n > 0 && ev[n - 1].Agent? && Governed(ev[..n], n, sel))
              else Governed(ev[..n], n, sel)
  {
    var n := |ev| - 1;
    var front := ev[..n];
    if Governed(ev, |ev|, sel) {
      var k, j :| 0 <= k <= j < |ev| && RunThenOthers(ev, k, j, |ev|) && sel(ev[k].name);
      if ev[n].Agent? {
        assert j == n;
        if k < n {
          assert ev[n - 1].Agent?;
          assert RunThenOthers(front, k, n - 1, n);
        }
      } else {
        assert RunThenOthers(front, k, j, n);
      }
    }
    if Governed(front, n, sel) {
      var k, j :| 0 <= k <= j < n && RunThenOthers(front, k, j, n) && sel(front[k].name);
      if !ev[n].Agent? {
        assert RunThenOthers(ev, k, j, |ev|);
      } else if ev[n - 1].Agent? {
        assert front[n - 1].Agent?;
        assert j == n - 1;
        assert RunThenOthers(ev, k, n, |ev|);
      }
    }
    if ev[n].Agent? && sel(ev[n].name) {
      assert RunThenOthers(ev, n, n, |ev|);
    }
  }

  lemma GovernedIsLocal(ev: seq<Event>, n: nat, i: nat, sel: Selector)
    requires i <= n <= |ev|
    ensures Governed(ev, i, sel) <==> Governed(ev[..n], i, sel)
  {
    var front := ev[..n];
    if Governed(ev, i, sel) {
      var k, j :| 0 <= k <= j < i && RunThenOthers(ev, k, j, i) && sel(ev[k].name);
      assert RunThenOthers(front, k, j, i) && front[k] == ev[k];
    }
    if Governed(front, i, sel) {
      var k, j :| 0 <= k <= j < i && RunThenOthers(front, k, j, i) && sel(front[k].name);
      assert RunThenOthers(ev, k, j, i) && front[k] == ev[k];
    }
  }

  lemma {:induction false} GovernedRulesAreLocal(ev: seq<Event>, n: nat, m: nat, sel: Selector)
    requires m <= n <= |ev|
    ensures GovernedRules(ev, m, sel) == GovernedRules(ev[..n], m, sel)
  {
    if m > 0 {
      GovernedRulesAreLocal(ev, n, m - 1, sel);
      GovernedIsLocal(ev, n, m - 1, sel);
    }
  }

  predicate EndsInAgent(ev: seq<Event>) {
    ev != [] && ev[|ev| - 1].Agent?
  }

  lemma CutEnd(ev: seq<Event>)
    ensures EndsInAgent(ev) <==> CutOf(ev).chunks.Snoc? && CutOf(ev).chunks.last.body == []
  {
  }

  lemma SelectedAppend(names: seq<string>, name: string, sel: Selector)
    ensures Selected(names + [name], sel) <==>
              Selected(names, sel) || sel(name)
  {
    var all := names + [name];
    if Selected(names, sel) {
      var i :| 0 <= i < |names| && sel(names[i]);
      assert sel(all[i]);
    }
    if sel(name) {
      assert sel(all[|names|]);
    }
    if Selected(all, sel) {
      var i :| 0 <= i < |all| && sel(all[i]);
      assert i < |names| ==> sel(names[i]);
    }
  }

  /** The next line is governed exactly when the last group is selected. */
  lemma {:induction false} LastGroupGoverns(ev: seq<Event>, sel: Selector)
    ensures Governed(ev, |ev|, sel) <==> CutOf(ev).chunks.Snoc? && Selected(CutOf(ev).chunks.last.agents, sel)
  {
    if ev != [] {
      var n := |ev| - 1;
      LastGroupGoverns(ev[..n], sel);
      GovernedStep(ev, sel);
      CutEnd(ev[..n]);
      var cs := CutOf(ev[..n]).chunks;
      if ev[n].Agent? {
        SelectedAppend([], ev[n].name, sel);
        assert [] + [ev[n].name] == [ev[n].name];
        if cs.Snoc? {
          SelectedAppend(cs.last.agents, ev[n].name, sel);
        }
        assert n > 0 ==> ev[..n][n - 1] == ev[n - 1];
      }
    }
  }

  lemma RulesOfFeed(cs: Chunks, e: Event, sel: Selector)
    ensures RulesOf(FeedChunks(cs, e), sel)
         == RulesOf(cs, sel) + (if cs.Snoc? && Selected(cs.last.agents, sel) then RuleOf(e) else [])
  {
    if cs.Snoc? {
      assert (cs.last.body + [e])[..|cs.last.body|] == cs.last.body;
    }
  }

  /** Which rules are kept, said of the lines alone: those that come under a user-agent line that
      selects, in file order. */
  lemma {:induction false} KeptRulesAreTheGovernedOnes(ev: seq<Event>, sel: Selector)
    ensures RulesOf(CutOf(ev).chunks, sel) == GovernedRules(ev, |ev|, sel)
  {
    if ev != [] {
      var n := |ev| - 1;
      KeptRulesAreTheGovernedOnes(ev[..n], sel);
      RulesOfFeed(CutOf(ev[..n]).chunks, ev[n], sel);
      LastGroupGoverns(ev[..n], sel);
      GovernedIsLocal(ev, n, n, sel);
      GovernedRulesAreLocal(ev, n, n, sel);
    }
  }

  /** The selected groups exist exactly when some user-agent line selects. */
  predicate AnySelected(cs: Chunks, sel: Selector) {
    cs.Snoc? && (Selected(cs.last.agents, sel) || AnySelected(cs.front, sel))
  }

  ghost predicate SomeLineSelects(ev: seq<Event>, sel: Selector) {
    exists i :: 0 <= i < |ev| && ev[i].Agent? && sel(ev[i].name)
  }

  lemma {:induction false} SelectedIffSomeLine(ev: seq<Event>, sel: Selector)
    ensures AnySelected(CutOf(ev).chunks, sel) <==> SomeLineSelects(ev, sel)
  {
    if ev != [] {
      var n := |ev| - 1;
      SelectedIffSomeLine(ev[..n], sel);
      var cs := CutOf(ev[..n]).chunks;
      if ev[n].Agent? {
        SelectedAppend([], ev[n].name, sel);
        assert [] + [ev[n].name] == [ev[n].name];
        if cs.Snoc? {
          SelectedAppend(cs.last.agents, ev[n].name, sel);
        }
      }
      SomeLineStep(ev, sel);
    }
  }

  lemma SomeLineStep(ev: seq<Event>, sel: Selector)
    requires ev != []
    ensures SomeLineSelects(ev, sel) <==>
              SomeLineSelects(ev[..|ev| - 1], sel) || (ev[|ev| - 1].Agent? && sel(ev[|ev| - 1].name))
  {
    var front := ev[..|ev| - 1];
    if SomeLineSelects(front, sel) {
      var i :| 0 <= i < |front| && front[i].Agent? && sel(front[i].name);
      assert ev[i].Agent? && sel(ev[i].name);
    }
    if SomeLineSelects(ev, sel) {
      var i :| 0 <= i < |ev| && ev[i].Agent? && sel(ev[i].name);
      assert i < |front| ==> front[i].Agent? && sel(front[i].name);
    }
  }

  // ------------------------------------------------------- the state machine

  /** A line with a rule: an Allow or Disallow with a value. */
  predicate IsRule(e: Event) {
    e.RuleLine? && e.pattern != ""
  }

  ghost predicate InGroup(ev: seq<Event>, i: nat)
    requires i <= |ev|
  {
    exists k :: 0 <= k < i && ev[k].Agent?
  }

  /** Every rule line inside a group, selected or not, has a pattern that compiles. */
  ghost predicate AllCompile(ev: seq<Event>) {
    forall i :: 0 <= i < |ev| && IsRule(ev[i]) && InGroup(ev, i) ==> Compiles(ev[i].pattern)
  }

  lemma InGroupIsLocal(ev: seq<Event>, more: seq<Event>, i: nat)
    requires i <= |ev|
    ensures InGroup(ev + more, i) <==> InGroup(ev, i)
  {
    assert forall k :: 0 <= k < i ==> (ev + more)[k] == ev[k];
  }

  lemma CompileOneMore(ev: seq<Event>, e: Event)
    ensures AllCompile(ev + [e]) <==> AllCompile(ev) && (IsRule(e) && InGroup(ev, |ev|) ==> Compiles(e.pattern))
  {
    var all := ev + [e];
    forall i | 0 <= i <= |ev|
      ensures InGroup(all, i) <==> InGroup(ev, i)
    {
      InGroupIsLocal(ev, [e], i);
    }
    assert forall i :: 0 <= i < |ev| ==> all[i] == ev[i];
    if AllCompile(all) {
      assert all[|ev|] == e;
    }
  }

  lemma CompilePrefix(ev: seq<Event>, all: seq<Event>)
    requires ev <= all && AllCompile(all)
    ensures AllCompile(ev)
  {
    forall i | 0 <= i < |ev| && IsRule(ev[i]) && InGroup(ev, i)
      ensures Compiles(ev[i].pattern)
    {
      assert all == ev + all[|ev|..];
      InGroupIsLocal(ev, all[|ev|..], i);
      assert all[i] == ev[i];
    }
  }

  lemma {:induction false} EventsPrefix(lines: seq<string>, n: nat)
    requires n <= |lines|
    ensures Events(lines[..n]) <= Events(lines)
    decreases |lines| - n
  {
    if n < |lines| {
      EventsOfAppend(lines, n);
      EventsPrefix(lines, n + 1);
    } else {
      assert lines[..n] == lines;
    }
  }

  /** There is a group as soon as there is a user-agent line. */
  lemma {:induction false} GroupIffAgent(ev: seq<Event>)
    ensures CutOf(ev).chunks.Snoc? <==> InGroup(ev, |ev|)
  {
    if ev != [] {
      var n := |ev| - 1;
      GroupIffAgent(ev[..n]);
      assert ev == ev[..n] + [ev[n]];
      InGroupIsLocal(ev[..n], [ev[n]], n);
      assert InGroup(ev, |ev|) <==> InGroup(ev, n) || ev[n].Agent?;
    }
  }

  /** One group under construction. */
  class GroupCell {
    var agents: seq<string>
    var rules: seq<Rule>
    var delay: int

    constructor ()
      ensures Snapshot() == Group([], [], 0)
    {
      agents, rules, delay := [], [], 0;
    }

    function Snapshot(): Group
      reads this
    {
      Group(agents, rules, delay)
    }

    method AddAgent(name: string)
      modifies this
      ensures Snapshot() == old(Snapshot()).(agents := old(agents) + [name])
    {
      agents := agents + [name];
    }

    /** A line that is no user-agent line: a rule, unless its value is empty, or a delay. newRule panics on a
        pattern that does not compile. */
    method Add(e: Event, read: DelayReader) returns (ok: bool)
      modifies this
      ensures ok <==> IsRule(e) ==> Compiles(e.pattern)
      ensures ok ==> Snapshot() == ExtendGroup(old(Snapshot()), e, read)
    {
      if e.RuleLine? && e.pattern != "" {
        if !Compiles(e.pattern) {
          return false;
        }
        rules := rules + [Rule(e.allow, e.pattern)];
      } else if e.Delay? {
        var d := read(e.value);
        if d.Some? {
          delay := d.value;
        }
      }
      ok := true;
    }
  }

  /** The groups in file order, as Parse leaves them. */
  function GroupsOf(cs: Chunks, read: DelayReader): seq<Group> {
    match cs
    case Empty => []
    case Snoc(front, c) => GroupsOf(front, read) + [Summary(c, read)]
  }

  ghost predicate Mirror(cells: seq<GroupCell>, groups: seq<Group>)
    reads cells
  {
    && |cells| == |groups|
    && (forall i :: 0 <= i < |cells| ==> cells[i].Snapshot() == groups[i])
    && (forall i, j :: 0 <= i < j < |cells| ==> cells[i] != cells[j])
  }

  /** One more line, as it shows in the groups. */
  function FeedGroups(gs: seq<Group>, afterAgent: bool, e: Event, read: DelayReader): seq<Group> {
    var n := |gs| - 1;
    if e.Agent? then
      if afterAgent && gs != [] then gs[n := gs[n].(agents := gs[n].agents + [e.name])]
      else gs + [Group([e.name], [], 0)]
    else if gs == [] then gs
    else gs[n := ExtendGroup(gs[n], e, read)]
  }

  lemma SummaryOfMore(c: Chunk, e: Event, read: DelayReader)
    ensures Summary(Chunk(c.agents, c.body + [e]), read) == ExtendGroup(Summary(c, read), e, read)
  {
    RulesOfBody(c.body, e);
    DelayOfBody(c.body, e, read);
  }

  lemma LastGroup(front: seq<Group>, g: Group, h: Group)
    ensures (front + [g])[|front| := h] == front + [h]
  {
  }

  lemma GroupsOfFeed(cs: Chunks, e: Event, read: DelayReader)
    ensures GroupsOf(FeedChunks(cs, e), read)
         == FeedGroups(GroupsOf(cs, read), cs.Snoc? && cs.last.body == [], e, read)
  {
    if cs.Snoc? {
      var front, g := GroupsOf(cs.front, read), Summary(cs.last, read);
      SummaryOfMore(cs.last, e, read);
      if e.Agent? {
        LastGroup(front, g, g.(agents := g.agents + [e.name]));
      } else {
        LastGroup(front, g, ExtendGroup(g, e, read));
      }
    }
  }

  lemma DelayOfBody(body: seq<Event>, e: Event, read: DelayReader)
    ensures DelayIn(body + [e], read)
         == if e.Delay? && read(e.value).Some? then read(e.value).value else DelayIn(body, read)
  {
    assert (body + [e])[..|body|] == body;
  }

  function ExtendGroup(g: Group, e: Event, read: DelayReader): Group {
    Group(g.agents, g.rules + RuleOf(e), if e.Delay? && read(e.value).Some? then read(e.value).value else g.delay)
  }

  /** The rules and the greatest delay of the selected ones among the first `n` groups. */
  ghost function CollectRules(groups: seq<Group>, n: nat, sel: Selector): seq<Rule>
    requires n <= |groups|
  {
    if n == 0 then []
    else CollectRules(groups, n - 1, sel)
         + (if Selected(groups[n - 1].agents, sel) then groups[n - 1].rules else [])
  }

  ghost function CollectDelay(groups: seq<Group>, n: nat, sel: Selector): int
    requires n <= |groups|
  {
    if n == 0 then 0
    else
      var d := CollectDelay(groups, n - 1, sel);
      if Selected(groups[n - 1].agents, sel) && groups[n - 1].delay > d then groups[n - 1].delay else d
  }

  ghost predicate CollectAny(groups: seq<Group>, n: nat, sel: Selector)
    requires n <= |groups|
  {
    n > 0 && (Selected(groups[n - 1].agents, sel) || CollectAny(groups, n - 1, sel))
  }

  lemma {:induction false} CollectIsLocal(a: seq<Group>, b: seq<Group>, n: nat, sel: Selector)
    requires n <= |a| && n <= |b| && a[..n] == b[..n]
    ensures CollectRules(a, n, sel) == CollectRules(b, n, sel)
    ensures CollectDelay(a, n, sel) == CollectDelay(b, n, sel)
    ensures CollectAny(a, n, sel) == CollectAny(b, n, sel)
  {
    if n > 0 {
      assert a[..n][n - 1] == b[..n][n - 1];
      assert a[..n - 1] == a[..n][..n - 1] && b[..n - 1] == b[..n][..n - 1];
      CollectIsLocal(a, b, n - 1, sel);
    }
  }

  /** What is collected from the groups of a file is what its chunks say. */
  ghost predicate Collects(gs: seq<Group>, cs: Chunks, sel: Selector, read: DelayReader) {
    && CollectRules(gs, |gs|, sel) == RulesOf(cs, sel)
    && CollectDelay(gs, |gs|, sel) == MaxDelay(cs, sel, read)
    && CollectAny(gs, |gs|, sel) == AnySelected(cs, sel)
  }

  lemma CollectsOneMore(front: seq<Group>, cs: Chunks, sel: Selector, read: DelayReader)
    requires cs.Snoc? && Collects(front, cs.front, sel, read)
    ensures Collects(front + [Summary(cs.last, read)], cs, sel, read)
  {
    var gs := front + [Summary(cs.last, read)];
    assert gs[..|front|] == front[..|front|];
    CollectIsLocal(gs, front, |front|, sel);
  }

  lemma {:induction false} CollectsTheChunks(cs: Chunks, sel: Selector, read: DelayReader)
    ensures Collects(GroupsOf(cs, read), cs, sel, read)
  {
    if cs.Snoc? {
      CollectsTheChunks(cs.front, sel, read);
      CollectsOneMore(GroupsOf(cs.front, read), cs, sel, read);
    }
  }

  method SelectsAny(agents: seq<string>, sel: Selector) returns (found: bool)
    ensures found == Selected(agents, sel)
  {
    found := false;
    var i := 0;
    while i < |agents| && !found
      invariant 0 <= i <= |agents|
      invariant found <==> exists k :: 0 <= k < i && sel(agents[k])
    {
      found := sel(agents[i]);
      i := i + 1;
    }
  }

  /** Merges the selected groups. */
  method Collect(cells: seq<GroupCell>, sel: Selector, ghost groups: seq<Group>)
    returns (rules: seq<Rule>, delay: int, matched: bool)
    requires Mirror(cells, groups)
    ensures rules == CollectRules(groups, |groups|, sel)
    ensures delay == CollectDelay(groups, |groups|, sel)
    ensures matched == CollectAny(groups, |groups|, sel)
  {
    rules, delay, matched := [], 0, false;
    for i := 0 to |cells|
      invariant rules == CollectRules(groups, i, sel)
      invariant delay == CollectDelay(groups, i, sel)
      invariant matched == CollectAny(groups, i, sel)
    {
      var g := cells[i];
      assert g.Snapshot() == groups[i];
      var found := SelectsAny(g.agents, sel);
      if found {
        matched := true;
        rules := rules + g.rules;
        delay := if g.delay > delay then g.delay else delay;
      }
    }
  }

  lemma EventsOfAppend(lines: seq<string>, n: nat)
    requires n < |lines|
    ensures Events(lines[..n + 1]) == Events(lines[..n])
                                      + (if Classify(lines[n]) == Blank then [] else [Classify(lines[n])])
  {
    assert lines[..n + 1][..n] == lines[..n];
  }

  lemma EventsWith(lines: seq<string>, n: nat, e: Event)
    requires n < |lines| && e == Classify(lines[n])
    ensures Events(lines[..n + 1]) == Events(lines[..n]) + if e == Blank then [] else [e]
  {
    EventsOfAppend(lines, n);
  }

  lemma CutOfAppend(ev: seq<Event>, e: Event)
    ensures CutOf(ev + [e]) == Feed(CutOf(ev), e)
    ensures SitemapsIn(ev + [e]) == SitemapsIn(ev) + (if e.Sitemap? then [e.url] else [])
  {
    assert (ev + [e])[..|ev|] == ev;
  }

  /** One line of the scan: it opens a group, extends the last one, or is skipped. */
  method FeedCells(cells: seq<GroupCell>, lastWasAgent: bool, e: Event, read: DelayReader, ghost groups: seq<Group>)
    returns (cells': seq<GroupCell>, ok: bool)
    requires Mirror(cells, groups)
    modifies cells
    ensures ok <==> IsRule(e) && groups != [] ==> Compiles(e.pattern)
    ensures ok ==> Mirror(cells', FeedGroups(groups, lastWasAgent, e, read))
    ensures forall i :: 0 <= i < |cells'| ==> cells'[i] in cells || fresh(cells'[i])
  {
    cells', ok := cells, true;
    if e.Agent? {
      if !lastWasAgent || cells == [] {
        var cell := new GroupCell();
        cell.AddAgent(e.name);
        cells' := cells + [cell];
      } else {
        cells[|cells| - 1].AddAgent(e.name);
      }
    } else if cells != [] {
      ok := cells[|cells| - 1].Add(e, read);
    }
  }

  /** What the variables of the scan hold after the lines `ev`. */
  ghost predicate Scanned(
    ev: seq<Event>, groups: seq<Group>, lastWasAgent: bool, sitemaps: seq<string>, read: DelayReader)
  {
    && groups == GroupsOf(CutOf(ev).chunks, read)
    && lastWasAgent == EndsInAgent(ev)
    && sitemaps == SitemapsIn(ev)
  }

  lemma ScanLine(
    ev: seq<Event>, e: Event, groups: seq<Group>, lastWasAgent: bool, sitemaps: seq<string>, read: DelayReader)
    requires Scanned(ev, groups, lastWasAgent, sitemaps, read)
    ensures Scanned(
              ev + [e], FeedGroups(groups, lastWasAgent, e, read), e.Agent?,
              sitemaps + (if e.Sitemap? then [e.url] else []), read)
  {
    CutEnd(ev);
    CutOfAppend(ev, e);
    GroupsOfFeed(CutOf(ev).chunks, e, read);
  }

  /** A line that counts: what it does to the groups and sitemaps; or a panic. */
  method TakeLine(
    cells: seq<GroupCell>, lastWasAgent: bool, sitemaps: seq<string>, e: Event, read: DelayReader,
    ghost ev: seq<Event>, ghost groups: seq<Group>)
    returns (ok: bool, cells': seq<GroupCell>, sitemaps': seq<string>, ghost groups': seq<Group>)
    requires Mirror(cells, groups) && Scanned(ev, groups, lastWasAgent, sitemaps, read) && AllCompile(ev)
    modifies cells
    ensures ok <==> AllCompile(ev + [e])
    ensures ok ==> Mirror(cells', groups') && Scanned(ev + [e], groups', e.Agent?, sitemaps', read)
    ensures forall i :: 0 <= i < |cells'| ==> cells'[i] in cells || fresh(cells'[i])
  {
    CompilesSoFar(ev, e, groups, read);
    ScanLine(ev, e, groups, lastWasAgent, sitemaps, read);
    groups' := FeedGroups(groups, lastWasAgent, e, read);
    sitemaps' := sitemaps + (if e.Sitemap? then [e.url] else []);
    cells', ok := FeedCells(cells, lastWasAgent, e, read, groups);
  }

  /** The scan: the groups and sitemaps of a file, in one pass; or a panic at the first rule that does not
      compile. */
  method Scan(content: string, read: DelayReader) returns (ok: bool, cells: seq<GroupCell>, sitemaps: seq<string>)
    ensures ok <==> AllCompile(Events(Lines(content)))
    ensures ok ==> Mirror(cells, GroupsOf(CutOf(Events(Lines(content))).chunks, read))
    ensures ok ==> sitemaps == SitemapsIn(Events(Lines(content)))
  {
    var lines := Lines(content);
    ok, cells, sitemaps := true, [], [];
    var lastWasAgent := false;
    ghost var ev: seq<Event> := [];
    ghost var groups: seq<Group> := [];
    for n := 0 to |lines|
      invariant ok && ev == Events(lines[..n]) && AllCompile(ev)
      invariant Mirror(cells, groups) && Scanned(ev, groups, lastWasAgent, sitemaps, read)
      invariant forall i :: 0 <= i < |cells| ==> fresh(cells[i])
    {
      var e := Classify(lines[n]);
      EventsWith(lines, n, e);
      if e != Blank {
        ok, cells, sitemaps, groups := TakeLine(cells, lastWasAgent, sitemaps, e, read, ev, groups);
        if !ok {
          NotAllCompile(lines, n);
          return;
        }
        lastWasAgent := e.Agent?;
        ev := ev + [e];
      }
    }
    assert lines[..|lines|] == lines;
  }

  lemma CompilesSoFar(ev: seq<Event>, e: Event, groups: seq<Group>, read: DelayReader)
    requires groups == GroupsOf(CutOf(ev).chunks, read) && AllCompile(ev)
    ensures AllCompile(ev + [e]) <==> (IsRule(e) && groups != [] ==> Compiles(e.pattern))
  {
    CompileOneMore(ev, e);
    GroupIffAgent(ev);
  }

  lemma NotAllCompile(lines: seq<string>, n: nat)
    requires n < |lines| && !AllCompile(Events(lines[..n + 1]))
    ensures !AllCompile(Events(lines))
  {
    EventsPrefix(lines, n + 1);
    if AllCompile(Events(lines)) {
      CompilePrefix(Events(lines[..n + 1]), Events(lines));
    }
  }

  /** Parse: what the one-pass scan and the merge keep is what the file's only cut into maximal runs
      gives, selected for the agent. It returns if and only if every rule line inside a group compiles. */
  method Parse(content: string, agentName: string, read: DelayReader) returns (out: Option<Rules>)
    ensures out.Some? <==> AllCompile(Events(Lines(content)))
    ensures out.Some? ==> out.value == ParseSpec(Events(Lines(content)), ToLower(agentName), read)
  {
    var agent := ToLower(agentName);
    ghost var ev := Events(Lines(content));
    ghost var chunks := CutOf(ev).chunks;
    var ok, cells, sitemaps := Scan(content, read);
    if !ok {
      return None;
    }
    var named := SelectorFor(true, agent);
    var rules, delay, matched := Collect(cells, named, GroupsOf(chunks, read));
    CollectsTheChunks(chunks, named, read);
    SelectedIffSomeLine(ev, named);
    assert matched == FileNames(ev, agent);
    if !matched {
      var star := SelectorFor(false, agent);
      rules, delay, matched := Collect(cells, star, GroupsOf(chunks, read));
      CollectsTheChunks(chunks, star, read);
    }
    out := Some(Rules(rules, delay, sitemaps));
  }

  /** Parse, line by line: the kept rules are exactly those under a user-agent line that names the
      agent, in file order; under a `*` line if no line names it. */
  lemma ParseKeepsTheGovernedRules(ev: seq<Event>, agent: string, read: DelayReader)
    ensures ParseSpec(ev, agent, read).rules
         == GovernedRules(ev, |ev|, SelectorFor(FileNames(ev, agent), agent))
  {
    KeptRulesAreTheGovernedOnes(ev, SelectorFor(FileNames(ev, agent), agent));
  }

  // ------------------------------- where the code departs from RFC 9309

  /** Section 2.2.4 of RFC 9309: these records must not interfere with the grouping. */
  predicate IsExtra(e: Event) {
    e.Sitemap? || e.Other? || e.Delay?
  }

  function WithoutExtras(ev: seq<Event>): seq<Event> {
    if ev == [] then []
    else if IsExtra(ev[|ev| - 1]) then WithoutExtras(ev[..|ev| - 1])
    else WithoutExtras(ev[..|ev| - 1]) + [ev[|ev| - 1]]
  }

  /** A run of user-agent lines interrupted by nothing but such records. */
  ghost predicate RunIsSplit(ev: seq<Event>) {
    exists i, j :: 0 <= i < i + 1 < j < |ev| && SplitAt(ev, i, j)
  }

  ghost predicate SplitAt(ev: seq<Event>, i: nat, j: nat)
    requires i < j < |ev|
  {
    ev[i].Agent? && ev[j].Agent? && forall m :: i < m < j ==> IsExtra(ev[m])
  }

  /** The groups as the RFC sees them: user-agents and rules. */
  function Shape(cs: Chunks): seq<(seq<string>, seq<Rule>)> {
    match cs
    case Empty => []
    case Snoc(front, c) => Shape(front) + [(c.agents, RulesIn(c.body))]
  }

  /** The last line that is no such record, if it is a user-agent line, and some record after it. */
  ghost predicate DanglingRun(ev: seq<Event>) {
    exists i :: 0 <= i < |ev| - 1 && ev[i].Agent? && forall m :: i < m < |ev| ==> IsExtra(ev[m])
  }

  lemma DanglingStep(ev: seq<Event>, e: Event)
    ensures DanglingRun(ev + [e]) <==> IsExtra(e) && (EndsInAgent(ev) || DanglingRun(ev))
  {
    var all := ev + [e];
    if DanglingRun(all) {
      var i :| 0 <= i < |all| - 1 && all[i].Agent? && forall m :: i < m < |all| ==> IsExtra(all[m]);
      assert IsExtra(all[|ev|]);
      assert ev[i] == all[i];
      if i < |ev| - 1 {
        assert forall m :: i < m < |ev| ==> IsExtra(ev[m]) by {
          assert forall m :: i < m < |ev| ==> ev[m] == all[m];
        }
      }
    }
    if IsExtra(e) && EndsInAgent(ev) {
      assert all[|ev| - 1].Agent? && forall m :: |ev| - 1 < m < |all| ==> IsExtra(all[m]);
    }
    if IsExtra(e) && DanglingRun(ev) {
      var i :| 0 <= i < |ev| - 1 && ev[i].Agent? && forall m :: i < m < |ev| ==> IsExtra(ev[m]);
      assert all[i].Agent? && forall m :: i < m < |all| ==> IsExtra(all[m]);
    }
  }

  lemma SplitStep(ev: seq<Event>, e: Event)
    ensures RunIsSplit(ev + [e]) <==> RunIsSplit(ev) || (e.Agent? && DanglingRun(ev))
  {
    var all := ev + [e];
    if RunIsSplit(all) {
      var i, j :| 0 <= i < i + 1 < j < |all| && SplitAt(all, i, j);
      if j < |ev| {
        assert forall m :: i <= m <= j ==> ev[m] == all[m];
        assert SplitAt(ev, i, j);
      } else {
        assert ev[i].Agent? && forall m :: i < m < |ev| ==> IsExtra(ev[m]) by {
          assert forall m :: i <= m < |ev| ==> ev[m] == all[m];
        }
      }
    }
    if RunIsSplit(ev) {
      var i, j :| 0 <= i < i + 1 < j < |ev| && SplitAt(ev, i, j);
      assert SplitAt(all, i, j);
    }
    if e.Agent? && DanglingRun(ev) {
      var i :| 0 <= i < |ev| - 1 && ev[i].Agent? && forall m :: i < m < |ev| ==> IsExtra(ev[m]);
      assert SplitAt(all, i, |ev|);
    }
  }

  lemma ShapeOfFeed(cs: Chunks, e: Event)
    ensures |Shape(FeedChunks(cs, e))| ==
            |Shape(cs)| + (if e.Agent? && !(cs.Snoc? && cs.last.body == []) then 1 else 0)
    ensures IsExtra(e) ==> Shape(FeedChunks(cs, e)) == Shape(cs)
  {
    if IsExtra(e) && cs.Snoc? {
      RulesOfBody(cs.last.body, e);
    }
  }

  /** Groupings of the same shape keep it under the same line, if a run ends in both or in neither. */
  lemma SameShapeFed(a: Chunks, b: Chunks, e: Event)
    requires Shape(a) == Shape(b)
    requires e.Agent? ==> (a.Snoc? && a.last.body == [] <==> b.Snoc? && b.last.body == [])
    ensures Shape(FeedChunks(a, e)) == Shape(FeedChunks(b, e))
  {
    if a.Snoc? {
      assert Shape(b)[|Shape(a)| - 1] == (a.last.agents, RulesIn(a.last.body));
      assert Shape(a)[..|Shape(a)| - 1] == Shape(a.front);
      assert Shape(b)[..|Shape(b)| - 1] == Shape(b.front);
      RulesOfBody(a.last.body, e);
      RulesOfBody(b.last.body, e);
    } else {
      assert b.Empty?;
    }
  }

  /** How the code's grouping compares with the grouping of the file without those records. */
  ghost predicate Compared(ev: seq<Event>) {
    var mine, rfc := CutOf(ev).chunks, CutOf(WithoutExtras(ev)).chunks;
    && (EndsInAgent(WithoutExtras(ev)) <==> EndsInAgent(ev) || DanglingRun(ev))
    && (if RunIsSplit(ev) then |Shape(rfc)| < |Shape(mine)| else Shape(mine) == Shape(rfc))
  }

  lemma CompareOneMore(ev: seq<Event>, e: Event)
    requires Compared(ev)
    ensures Compared(ev + [e])
  {
    var rfc := WithoutExtras(ev);
    DanglingStep(ev, e);
    SplitStep(ev, e);
    CutOfAppend(ev, e);
    ShapeOfFeed(CutOf(ev).chunks, e);
    WithoutExtrasOfAppend(ev, e);
    if !IsExtra(e) {
      CutEnd(ev);
      CutEnd(rfc);
      CutOfAppend(rfc, e);
      ShapeOfFeed(CutOf(rfc).chunks, e);
      if !RunIsSplit(ev + [e]) {
        SameShapeFed(CutOf(ev).chunks, CutOf(rfc).chunks, e);
      }
    }
  }

  lemma {:induction false} CompareGroupings(ev: seq<Event>)
    ensures Compared(ev)
  {
    if ev != [] {
      CompareGroupings(ev[..|ev| - 1]);
      CompareOneMore(ev[..|ev| - 1], ev[|ev| - 1]);
      assert ev[..|ev| - 1] + [ev[|ev| - 1]] == ev;
    }
  }

  ghost predicate GroupsAsRfc(ev: seq<Event>) {
    Shape(CutOf(ev).chunks) == Shape(CutOf(WithoutExtras(ev)).chunks)
  }

  /** Exactly when the code groups a file as the RFC does, whatever the records between: when no run
      of user-agent lines is interrupted by nothing but such records. */
  lemma GroupsAsRfcIffNoRunIsSplit(ev: seq<Event>)
    ensures GroupsAsRfc(ev) <==> !RunIsSplit(ev)
  {
    CompareGroupings(ev);
  }

  /** Files on which they differ: a Sitemap, Crawl-delay or unknown record between two user-agent lines. */
  lemma OtherRecordSplitsRun(a: string, x: Event, b: string)
    requires x.Sitemap? || x.Delay? || x.Other?
    ensures !GroupsAsRfc([Agent(a), x, Agent(b), RuleLine(false, "/")])
  {
    assert SplitAt([Agent(a), x, Agent(b), RuleLine(false, "/")], 0, 2);
    GroupsAsRfcIffNoRunIsSplit([Agent(a), x, Agent(b), RuleLine(false, "/")]);
  }

  lemma WithoutExtrasOfAppend(ev: seq<Event>, e: Event)
    ensures WithoutExtras(ev + [e]) == if IsExtra(e) then WithoutExtras(ev) else WithoutExtras(ev) + [e]
  {
    assert (ev + [e])[..|ev|] == ev;
  }
}
