/** internal/robots/robots.go: Rules.Allowed, the longest-match verdict of section 2.2.2 of RFC 9309,
    and what a whole robots.txt file decides. */
module RobotsVerdict {
  import opened RobotsPattern
  import opened RobotsParse

  /** Which rules match the path at hand. */
  type Hit = Rule -> bool

  /** As the code decides it for a decoded path. */
  function CodeHit(s: string): Hit {
    (r: Rule) => CodeMatches(r.pattern, s)
  }

  /** The longest matching rule is an Allow, or no rule matches: said without an order. */
  ghost predicate Permitted(rules: seq<Rule>, hit: Hit) {
    || (forall r :: r in rules ==> !hit(r))
    || (exists a :: a in rules && Decides(a, rules, hit))
  }

  ghost predicate Decides(a: Rule, rules: seq<Rule>, hit: Hit) {
    && a.allow && hit(a)
    && forall r :: r in rules && hit(r) ==> |r.pattern| <= |a.pattern|
  }

  /** What the loop of Allowed knows of the rules it has passed: no rule matches, or `winner` does, is of
      length `best`, and comes before all others that do. */
  ghost predicate Leads(rules: seq<Rule>, hit: Hit, best: int, allow: bool, winner: Rule) {
    if best < 0 then best == -1 && allow && forall r :: r in rules ==> !hit(r)
    else
      && winner in rules && hit(winner) && |winner.pattern| == best && winner.allow == allow
      && forall r :: r in rules && hit(r) ==> |r.pattern| <= best && (r.allow && !allow ==> |r.pattern| < best)
  }

  lemma LeadsOver(rules: seq<Rule>, ru: Rule, hit: Hit, best: int, allow: bool, winner: Rule)
    requires Leads(rules, hit, best, allow, winner)
    ensures var n := |ru.pattern|;
            if hit(ru) && (n > best || (n == best && ru.allow)) then Leads(rules + [ru], hit, n, ru.allow, ru)
            else Leads(rules + [ru], hit, best, allow, winner)
  {
  }

  function Target(path: string): string {
    if path == "" then "/" else path
  }

  method Allowed(rules: seq<Rule>, path: string) returns (ok: bool)
    ensures ok <==> Target(path) == "/robots.txt" || Permitted(rules, CodeHit(Unescape(Target(path))))
  {
    var p := if path == "" then "/" else path;
    if p == "/robots.txt" {
      return true;
    }
    var hit := CodeHit(Unescape(p));
    var best, allow := -1, true;
    ghost var winner := Rule(true, "");
    for i := 0 to |rules|
      invariant Leads(rules[..i], hit, best, allow, winner)
    {
      var ru := rules[i];
      assert rules[..i + 1] == rules[..i] + [ru];
      LeadsOver(rules[..i], ru, hit, best, allow, winner);
      if hit(ru) {
        var n := |ru.pattern|;
        if n > best || (n == best && ru.allow) {
          best, allow := n, ru.allow;
          winner := ru;
        }
      }
    }
    assert rules[..|rules|] == rules;
    if best >= 0 && allow {
      assert Decides(winner, rules, hit);
    }
    ok := allow;
  }

  // ------------------------------------------------- laws of the verdict

  /** Only which rules there are matters: neither their order nor their number. */
  lemma VerdictIgnoresOrder(a: seq<Rule>, b: seq<Rule>, hit: Hit)
    requires multiset(a) == multiset(b)
    ensures Permitted(a, hit) <==> Permitted(b, hit)
  {
    forall r ensures r in a <==> r in b {
      assert r in a <==> r in multiset(a);
      assert r in b <==> r in multiset(b);
    }
    SameRulesSameVerdict(a, b, hit);
    SameRulesSameVerdict(b, a, hit);
  }

  lemma SameRulesSameVerdict(a: seq<Rule>, b: seq<Rule>, hit: Hit)
    requires forall r :: r in a <==> r in b
    ensures Permitted(a, hit) ==> Permitted(b, hit)
  {
    if w :| w in a && Decides(w, a, hit) {
      assert Decides(w, b, hit);
    }
  }

  /** One more Allow never forbids a path. */
  lemma AllowOnlyPermits(rules: seq<Rule>, at: nat, pattern: string, hit: Hit)
    requires at <= |rules| && Permitted(rules, hit)
    ensures Permitted(rules[..at] + [Rule(true, pattern)] + rules[at..], hit)
  {
    var a := Rule(true, pattern);
    var more := rules[..at] + [a] + rules[at..];
    InsertMembers(rules, at, a);
    if w :| w in rules && Decides(w, rules, hit) {
      if hit(a) && |a.pattern| > |w.pattern| {
        assert Decides(a, more, hit);
      } else {
        assert Decides(w, more, hit);
      }
    } else if hit(a) {
      assert Decides(a, more, hit);
    }
  }

  /** One more Disallow never permits a path. */
  lemma DisallowOnlyForbids(rules: seq<Rule>, at: nat, pattern: string, hit: Hit)
    requires at <= |rules| && Permitted(rules[..at] + [Rule(false, pattern)] + rules[at..], hit)
    ensures Permitted(rules, hit)
  {
    var d := Rule(false, pattern);
    var more := rules[..at] + [d] + rules[at..];
    InsertMembers(rules, at, d);
    if w :| w in more && Decides(w, more, hit) {
      assert w in rules && Decides(w, rules, hit);
    }
  }

  lemma InsertMembers(rules: seq<Rule>, at: nat, x: Rule)
    requires at <= |rules|
    ensures forall r :: r in rules[..at] + [x] + rules[at..] <==> r == x || r in rules
  {
    assert rules == rules[..at] + rules[at..];
  }

  // -------------------------------------------- what a whole file decides

  /** Line `i` is a rule for the agent: governed by a user-agent line that names it (by `*` if no line
      of the file names it), with a value, and matching. */
  ghost predicate Applies(ev: seq<Event>, i: nat, agent: string, s: string)
    requires i < |ev|
  {
    && ev[i].RuleLine? && ev[i].pattern != ""
    && Governed(ev, i, SelectorFor(FileNames(ev, agent), agent))
    && CodeMatches(ev[i].pattern, s)
  }

  lemma {:induction false} GovernedRuleHasLine(ev: seq<Event>, n: nat, sel: Selector, r: Rule)
    requires n <= |ev|
    ensures r in GovernedRules(ev, n, sel) <==>
              exists i :: 0 <= i < n && Governed(ev, i, sel) && RuleOf(ev[i]) == [r]
  {
    if n > 0 {
      GovernedRuleHasLine(ev, n - 1, sel, r);
      assert r in RuleOf(ev[n - 1]) <==> RuleOf(ev[n - 1]) == [r];
    }
  }

  /** The rules that match are the lines that apply. */
  ghost predicate RulesAreLines(rules: seq<Rule>, ev: seq<Event>, agent: string, s: string) {
    && (forall r :: r in rules && CodeHit(s)(r) ==> HasLine(ev, agent, s, r))
    && (forall i :: 0 <= i < |ev| && Applies(ev, i, agent, s) ==> RuleAt(ev[i]) in rules && CodeHit(s)(RuleAt(ev[i])))
  }

  function RuleAt(e: Event): Rule
    requires e.RuleLine?
  {
    Rule(e.allow, e.pattern)
  }

  ghost predicate HasLine(ev: seq<Event>, agent: string, s: string, r: Rule) {
    exists i :: 0 <= i < |ev| && Applies(ev, i, agent, s) && RuleAt(ev[i]) == r
  }

  lemma KeptRulesAreLines(ev: seq<Event>, agent: string, read: DelayReader, s: string)
    ensures RulesAreLines(ParseSpec(ev, agent, read).rules, ev, agent, s)
  {
    var sel := SelectorFor(FileNames(ev, agent), agent);
    var rules := ParseSpec(ev, agent, read).rules;
    ParseKeepsTheGovernedRules(ev, agent, read);
    forall r | r in rules && CodeHit(s)(r) ensures HasLine(ev, agent, s, r) {
      GovernedRuleHasLine(ev, |ev|, sel, r);
      var i :| 0 <= i < |ev| && Governed(ev, i, sel) && RuleOf(ev[i]) == [r];
      assert Applies(ev, i, agent, s);
    }
    forall i | 0 <= i < |ev| && Applies(ev, i, agent, s) ensures RuleAt(ev[i]) in rules {
      assert RuleOf(ev[i]) == [RuleAt(ev[i])];
      GovernedRuleHasLine(ev, |ev|, sel, RuleAt(ev[i]));
    }
  }

  ghost predicate LineDecides(ev: seq<Event>, i: nat, agent: string, s: string)
    requires i < |ev|
  {
    && Applies(ev, i, agent, s) && ev[i].allow
    && forall j :: 0 <= j < |ev| && Applies(ev, j, agent, s) ==> |ev[j].pattern| <= |ev[i].pattern|
  }

  /** The verdict of a file on a path, said of its lines: no line applies, or the longest line that
      applies is an Allow. */
  ghost predicate FilePermits(ev: seq<Event>, agent: string, s: string) {
    || (forall i :: 0 <= i < |ev| ==> !Applies(ev, i, agent, s))
    || (exists i :: 0 <= i < |ev| && LineDecides(ev, i, agent, s))
  }

  lemma VerdictOfLines(rules: seq<Rule>, ev: seq<Event>, agent: string, s: string)
    requires RulesAreLines(rules, ev, agent, s)
    ensures Permitted(rules, CodeHit(s)) <==> FilePermits(ev, agent, s)
  {
    if w :| w in rules && Decides(w, rules, CodeHit(s)) {
      var i :| 0 <= i < |ev| && Applies(ev, i, agent, s) && RuleAt(ev[i]) == w;
      assert LineDecides(ev, i, agent, s);
    }
    if i :| 0 <= i < |ev| && LineDecides(ev, i, agent, s) {
      forall r | r in rules && CodeHit(s)(r) ensures |r.pattern| <= |ev[i].pattern| {
        assert HasLine(ev, agent, s, r);
      }
      assert Decides(RuleAt(ev[i]), rules, CodeHit(s));
    }
    if r :| r in rules && CodeHit(s)(r) {
      assert HasLine(ev, agent, s, r);
    }
  }

  /** Grouping, merging and ranking together decide each path as the lines of the file say. */
  lemma FileVerdict(ev: seq<Event>, agent: string, read: DelayReader, s: string)
    ensures Permitted(ParseSpec(ev, agent, read).rules, CodeHit(s)) <==> FilePermits(ev, agent, s)
  {
    KeptRulesAreLines(ev, agent, read, s);
    VerdictOfLines(ParseSpec(ev, agent, read).rules, ev, agent, s);
  }
}
