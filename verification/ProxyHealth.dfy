/** internal/proxy/pool.go: what the reports on one proxy do to its failure streak and its cooldown. */
module ProxyHealth {
  import opened Commons
  import opened Outcomes

  /** The settings of the pool. Durations and times are nanoseconds; a duration is an int64. */
  datatype Policy = Policy(threshold: int, base: int, maxCooldown: int)

  /** `until` is bannedUntil, zero for a proxy that never cooled; the totals are uint64. */
  datatype Health = Health(fails: nat, until: int, streak: nat, success: nat, failure: nat)

  const CLEAN := Health(0, 0, 0, 0, 0)

  const TWO_62 := 0x4000_0000_0000_0000
  const TWO_63 := 0x8000_0000_0000_0000
  const TWO_64 := 0x1_0000_0000_0000_0000

  /** The int64 that arithmetic with result `x` gives. */
  function Int64(x: int): (r: int)
    ensures -TWO_63 <= x < TWO_63 ==> r == x
    ensures TWO_63 <= x < TWO_64 ==> r == x - TWO_64
  {
    var m := x % TWO_64;
    if m >= TWO_63 then m - TWO_64 else m
  }

  function Min(a: int, b: int): int {
    if a < b then a else b
  }

  function Cap(policy: Policy): int {
    if policy.maxCooldown > 0 then policy.maxCooldown else Int64(16 * policy.base)
  }

  /** What the doubling loop leaves in its variable when it starts with `d` and may run `k` times. */
  function Doubling(d: int, k: nat, cap: int): int
    decreases k
  {
    if k > 0 && d < cap then Doubling(Int64(d * 2), k - 1, cap) else d
  }

  /** The cooldown that follows `streak` others. */
  function Escalated(policy: Policy, streak: nat): int {
    Min(Doubling(policy.base, streak, Cap(policy)), Cap(policy))
  }

  predicate IsCooling(h: Health, now: int) {
    now < h.until
  }

  datatype Reported = Reported(health: Health, cooled: bool)

  function Cool(h: Health, d: int, now: int): Reported {
    Reported(h.(until := if now + d > h.until then now + d else h.until, fails := 0), !IsCooling(h, now))
  }

  function CoolEscalated(policy: Policy, h: Health, now: int): Reported {
    Cool(h.(streak := h.streak + 1), Escalated(policy, h.streak), now)
  }

  /** ReportOutcome. */
  function ReportOutcome(policy: Policy, h: Health, report: Report, retryAfter: int, now: int): Reported {
    match report
    case Succeeded => Reported(h.(fails := 0, streak := 0, success := (h.success + 1) % TWO_64), false)
    case Neutral => Reported(h, false)
    case WasBlocked => CoolEscalated(policy, h.(failure := (h.failure + 1) % TWO_64), now)
    case WasRateLimited =>
      var counted := h.(failure := (h.failure + 1) % TWO_64);
      if retryAfter > 0 then Cool(counted, retryAfter, now) else CoolEscalated(policy, counted, now)
    case Failed =>
      var counted := h.(failure := (h.failure + 1) % TWO_64, fails := h.fails + 1);
      if policy.threshold > 0 && counted.fails >= policy.threshold then CoolEscalated(policy, counted, now)
      else Reported(counted, false)
  }

  // ------------------------------------------------------------ doubling

  /** The first doubling of `d` that reaches the cap is still an int64. */
  predicate CapInReach(d: int, cap: int)
    requires d > 0
    decreases cap - d
  {
    d >= cap || (d * 2 < TWO_63 && CapInReach(d * 2, cap))
  }

  lemma {:induction false} DoublingBy(d: int, k: nat)
    ensures k > 0 ==> d * Pow2(k) == (d * 2) * Pow2(k - 1)
  {
  }

  lemma {:induction false} DoublingIsCapped(d: int, k: nat, cap: int)
    requires 0 < d && CapInReach(d, cap)
    ensures Min(Doubling(d, k, cap), cap) == Min(d * Pow2(k), cap)
    decreases k
  {
    if d >= cap {
      GrowsPast(d, k);
    } else if k > 0 {
      DoublingIsCapped(d * 2, k - 1, cap);
      DoublingBy(d, k);
    }
  }

  lemma GrowsPast(d: int, k: nat)
    requires 0 < d
    ensures d * Pow2(k) >= d
  {
  }

  /** Where the cap is out of reach some streak makes the loop overflow, and the cooldown is negative. */
  lemma {:induction false} DoublingOverflows(d: int, cap: int) returns (k: nat)
    requires 0 < d < TWO_63 && !CapInReach(d, cap)
    ensures Doubling(d, k, cap) < 0
    decreases cap - d
  {
    if d * 2 >= TWO_63 {
      k := 1;
      assert Doubling(d, 1, cap) == Doubling(Int64(d * 2), 0, cap);
    } else {
      var j := DoublingOverflows(d * 2, cap);
      k := j + 1;
      assert Doubling(d, k, cap) == Doubling(d * 2, j, cap);
    }
  }

  /** The loop computes min(cap, base * 2^streak) for every streak exactly if the first doubling that
      reaches the cap fits in 64 bits. */
  lemma EscalatesUpToCapIffInReach(policy: Policy)
    requires 0 < policy.base < TWO_63 && Cap(policy) > 0
    ensures (forall k: nat :: Escalated(policy, k) == Min(policy.base * Pow2(k), Cap(policy)))
       <==> CapInReach(policy.base, Cap(policy))
  {
    if CapInReach(policy.base, Cap(policy)) {
      forall k: nat
        ensures Escalated(policy, k) == Min(policy.base * Pow2(k), Cap(policy))
      {
        DoublingIsCapped(policy.base, k, Cap(policy));
      }
    } else {
      var k := DoublingOverflows(policy.base, Cap(policy));
      GrowsPast(policy.base, k);
      assert Escalated(policy, k) < 0 < Min(policy.base * Pow2(k), Cap(policy));
    }
  }

  /** A cap of at most 2^62 nanoseconds is always in reach. */
  lemma {:induction false} SmallCapInReach(d: int, cap: int)
    requires 0 < d && cap <= TWO_62
    ensures CapInReach(d, cap)
    decreases cap - d
  {
    if d < cap {
      SmallCapInReach(d * 2, cap);
    }
  }

  /** What is documented: the base doubled for each of `k` cooldowns since the last success, up to MaxCooldown, and
      up to 16 times the base if that is not set. */
  function Documented(policy: Policy, k: nat): int {
    var d := policy.base * Pow2(k);
    if policy.maxCooldown > 0 then
      if d < policy.maxCooldown then d else policy.maxCooldown
    else
      if d < 16 * policy.base then d else 16 * policy.base
  }

  /** No doubling up to the limit overflows. */
  predicate Fits(policy: Policy) {
    && policy.base > 0
    && if policy.maxCooldown > 0 then CapInReach(policy.base, policy.maxCooldown) else 16 * policy.base < TWO_63
  }

  lemma DefaultCapInReach(policy: Policy)
    requires 0 < policy.base && 16 * policy.base < TWO_63
    ensures CapInReach(policy.base, 16 * policy.base)
  {
    var d := policy.base;
    assert CapInReach(16 * d, 16 * d);
    assert CapInReach(4 * d, 16 * d) by {
      assert CapInReach(8 * d, 16 * d);
    }
    assert CapInReach(2 * d, 16 * d);
  }

  lemma DocumentedIfFits(policy: Policy, k: nat)
    requires Fits(policy)
    ensures Escalated(policy, k) == Documented(policy, k)
  {
    if policy.maxCooldown <= 0 {
      DefaultCapInReach(policy);
    }
    DoublingIsCapped(policy.base, k, Cap(policy));
  }

  /** In terms of the settings alone: every cooldown is as documented if and only if no doubling up to the limit
      overflows. */
  lemma EscalatesAsDocumentedIffFits(policy: Policy)
    requires 0 < policy.base < TWO_63
    ensures (forall k: nat :: Escalated(policy, k) == Documented(policy, k)) <==> Fits(policy)
  {
    if Fits(policy) {
      forall k: nat
        ensures Escalated(policy, k) == Documented(policy, k)
      {
        DocumentedIfFits(policy, k);
      }
    } else if policy.maxCooldown > 0 {
      var k := DoublingOverflows(policy.base, policy.maxCooldown);
      GrowsPast(policy.base, k);
      assert Escalated(policy, k) < 0 < Documented(policy, k);
    } else {
      assert Pow2(4) == 16 by {
        assert Pow2(2) == 4;
      }
      assert Escalated(policy, 4) <= Cap(policy) < 16 * policy.base == Documented(policy, 4);
    }
  }

  /** With the default settings, 30 seconds and at most ten minutes: 30, 60, 120, 240, 480 seconds, and then 600 again
      and again. */
  lemma DefaultCooldowns(threshold: int, k: nat)
    ensures var seconds := Escalated(Policy(threshold, 30_000_000_000, 600_000_000_000), k) / 1_000_000_000;
            seconds == if k < 5 then [30, 60, 120, 240, 480][k] else 600
  {
    var policy := Policy(threshold, 30_000_000_000, 600_000_000_000);
    SmallCapInReach(policy.base, policy.maxCooldown);
    DocumentedIfFits(policy, k);
    assert Pow2(2) == 4 && Pow2(3) == 8 && Pow2(4) == 16 && Pow2(5) == 32;
    if k >= 5 {
      PowersGrow(5, k);
    }
  }

  // ---------------------------------------------------------------- runs

  datatype Event = Event(report: Report, retryAfter: int, at: int)

  /** The reports on one proxy, oldest first. */
  datatype History = Start | Then(before: History, e: Event)

  function After(policy: Policy, run: History): Health {
    match run
    case Start => CLEAN
    case Then(before, e) => ReportOutcome(policy, After(policy, before), e.report, e.retryAfter, e.at).health
  }

  /** The failures since the last report of another kind that is not neutral. */
  function Recent(run: History): nat {
    match run
    case Start => 0
    case Then(before, e) =>
      if e.report.Failed? then Recent(before) + 1 else if e.report.Neutral? then Recent(before) else 0
  }

  /** Whether report `e` after `before` brings a cooldown that escalates: a block, a rate limit without
      Retry-After, and every threshold-th failure in a row. */
  predicate Escalates(policy: Policy, before: History, e: Event) {
    match e.report
    case WasBlocked => true
    case WasRateLimited => e.retryAfter <= 0
    case Failed => policy.threshold > 0 && (Recent(before) + 1) % policy.threshold == 0
    case _ => false
  }

  predicate HasWait(e: Event) {
    e.report.WasRateLimited? && e.retryAfter > 0
  }

  predicate Cools(policy: Policy, before: History, e: Event) {
    HasWait(e) || Escalates(policy, before, e)
  }

  /** The escalating reports since the last success. */
  function Escalations(policy: Policy, run: History): nat {
    match run
    case Start => 0
    case Then(before, e) =>
      if e.report.Succeeded? then 0
      else Escalations(policy, before) + if Escalates(policy, before, e) then 1 else 0
  }

  function Length(policy: Policy, before: History, e: Event): int {
    if HasWait(e) then e.retryAfter else Escalated(policy, Escalations(policy, before))
  }

  /** The latest end of all cooldowns. */
  function LatestEnd(policy: Policy, run: History): int {
    match run
    case Start => 0
    case Then(before, e) =>
      var end := e.at + Length(policy, before, e);
      if Cools(policy, before, e) && end > LatestEnd(policy, before) then end else LatestEnd(policy, before)
  }

  lemma NextRemainder(n: nat, m: int)
    requires m > 0
    ensures (n + 1) % m == if n % m + 1 == m then 0 else n % m + 1
  {
    var q, r := n / m, n % m;
    assert n == q * m + r;
    if r + 1 == m {
      assert n + 1 == (q + 1) * m;
      RemainderOf(q + 1, 0, m);
    } else {
      RemainderOf(q, r + 1, m);
    }
  }

  lemma RemainderOf(q: int, r: int, m: int)
    requires m > 0 && 0 <= r < m
    ensures (q * m + r) % m == r
  {
    var n := q * m + r;
    var d := n / m - q;
    assert d * m + n % m == r;
    assert d > 0 ==> d * m >= m;
    assert d < 0 ==> d * m <= -m;
  }

  /** The failure count is the failures in a row, reduced by the threshold, so it stays below it. */
  lemma {:induction false} FailsAreRemainder(policy: Policy, run: History)
    ensures After(policy, run).fails == if policy.threshold > 0 then Recent(run) % policy.threshold else Recent(run)
  {
    if run.Then? {
      FailsAreRemainder(policy, run.before);
      if policy.threshold > 0 {
        NextRemainder(Recent(run.before), policy.threshold);
        assert 0 % policy.threshold == 0;
      }
    }
  }

  lemma FailsBelowThreshold(policy: Policy, run: History)
    requires policy.threshold > 0
    ensures After(policy, run).fails < policy.threshold
  {
    FailsAreRemainder(policy, run);
  }

  lemma FailureEscalates(policy: Policy, before: History, e: Event)
    requires e.report.Failed?
    ensures Escalates(policy, before, e) <==>
              policy.threshold > 0 && After(policy, before).fails + 1 >= policy.threshold
  {
    FailsAreRemainder(policy, before);
    if policy.threshold > 0 {
      NextRemainder(Recent(before), policy.threshold);
    }
  }

  /** The streak counts the escalating reports since the last success, whether or not the proxy was
      cooling already; a Retry-After leaves it alone. */
  lemma {:induction false} StreakIsEscalations(policy: Policy, run: History)
    ensures After(policy, run).streak == Escalations(policy, run)
  {
    if run.Then? {
      StreakIsEscalations(policy, run.before);
      if run.e.report.Failed? {
        FailureEscalates(policy, run.before, run.e);
      }
    }
  }

  /** A proxy cools until the latest end of all its cooldowns, each as long as the Retry-After or as the
      escalation says. */
  lemma {:induction false} CoolsUntilLatestEnd(policy: Policy, run: History)
    ensures After(policy, run).until == LatestEnd(policy, run)
  {
    if run.Then? {
      CoolsUntilLatestEnd(policy, run.before);
      StreakIsEscalations(policy, run.before);
      if run.e.report.Failed? {
        FailureEscalates(policy, run.before, run.e);
      }
    }
  }

  /** What an escalating report leaves, by the settings alone: the cooldown ends as long after the report as
      documented for the escalating reports since the last success, unless another ends later. */
  lemma EscalatingReportCools(policy: Policy, before: History, e: Event)
    requires Fits(policy) && Escalates(policy, before, e)
    ensures var end := e.at + Documented(policy, Escalations(policy, before));
            var was := After(policy, before).until;
            After(policy, Then(before, e)).until == if end > was then end else was
  {
    StreakIsEscalations(policy, before);
    DocumentedIfFits(policy, Escalations(policy, before));
    if e.report.Failed? {
      FailureEscalates(policy, before, e);
    }
  }

  /** The reports that count as a success, and those that count against the proxy. */
  function Successes(run: History): nat {
    if run.Start? then 0 else Successes(run.before) + if run.e.report.Succeeded? then 1 else 0
  }

  function Setbacks(run: History): nat {
    if run.Start? then 0
    else Setbacks(run.before) + if run.e.report.Succeeded? || run.e.report.Neutral? then 0 else 1
  }

  lemma CountWraps(n: nat)
    ensures (n % TWO_64 + 1) % TWO_64 == (n + 1) % TWO_64
  {
  }

  /** The totals are those counts, as uint64. */
  lemma {:induction false} TotalsAreCounts(policy: Policy, run: History)
    ensures After(policy, run).success == Successes(run) % TWO_64
    ensures After(policy, run).failure == Setbacks(run) % TWO_64
  {
    if run.Then? {
      TotalsAreCounts(policy, run.before);
      CountWraps(Successes(run.before));
      CountWraps(Setbacks(run.before));
    }
  }

  /** `run` begins with `start`. */
  predicate Extends(run: History, start: History) {
    run == start || (run.Then? && Extends(run.before, start))
  }

  /** No report shortens a cooldown, not even a success. */
  lemma {:induction false} CooldownNeverShrinks(policy: Policy, run: History, start: History)
    requires Extends(run, start)
    ensures After(policy, run).until >= After(policy, start).until
  {
    if run != start {
      CooldownNeverShrinks(policy, run.before, start);
    }
  }

  /** After a rate limit with Retry-After the proxy cools at least that long, whatever else is reported. */
  lemma RetryAfterIsHonoured(policy: Policy, run: History, before: History, e: Event, now: int)
    requires HasWait(e) && Extends(run, Then(before, e)) && now < e.at + e.retryAfter
    ensures IsCooling(After(policy, run), now)
  {
    CooldownNeverShrinks(policy, run, Then(before, e));
  }

  /** ReportOutcome's answer to `e` is true exactly when the report takes the proxy from available to
      cooling. */
  predicate AnswersRight(policy: Policy, before: History, e: Event) {
    var h := After(policy, before);
    var r := ReportOutcome(policy, h, e.report, e.retryAfter, e.at);
    r.cooled <==> !IsCooling(h, e.at) && IsCooling(r.health, e.at)
  }

  /** ReportOutcome says true exactly when the proxy was available and the report brings a cooldown; that
      is when it passes from available to cooling, except for a cooldown no longer than nothing. */
  lemma TrueIffStartsCooling(policy: Policy, before: History, e: Event)
    ensures var h := After(policy, before);
            var r := ReportOutcome(policy, h, e.report, e.retryAfter, e.at);
            && (r.cooled <==> !IsCooling(h, e.at) && Cools(policy, before, e))
            && (AnswersRight(policy, before, e) <==>
                (!IsCooling(h, e.at) && Cools(policy, before, e) ==> Length(policy, before, e) > 0))
  {
    StreakIsEscalations(policy, before);
    if e.report.Failed? {
      FailureEscalates(policy, before, e);
    }
  }

  /** Settings with which escalating cooldowns are what they should be. */
  predicate Sound(policy: Policy) {
    0 < policy.base < TWO_63 && Cap(policy) > 0 && CapInReach(policy.base, Cap(policy))
  }

  lemma EscalatedIsPositive(policy: Policy, k: nat)
    requires Sound(policy)
    ensures Escalated(policy, k) > 0
  {
    EscalatesUpToCapIffInReach(policy);
    GrowsPast(policy.base, k);
    assert Escalated(policy, k) == Min(policy.base * Pow2(k), Cap(policy));
  }

  /** With sound settings every cooldown is longer than nothing. */
  lemma LengthsArePositive(policy: Policy, before: History, e: Event)
    requires Sound(policy)
    ensures Length(policy, before, e) > 0
  {
    EscalatedIsPositive(policy, Escalations(policy, before));
  }

  /** With a cooldown of zero a block is answered with true and the proxy does not cool. */
  lemma ZeroCooldownAnswersWrong()
    ensures !AnswersRight(Policy(3, 0, 0), Start, Event(WasBlocked, 0, 5))
  {
    assert !IsCooling(ReportOutcome(Policy(3, 0, 0), CLEAN, WasBlocked, 0, 5).health, 5);
  }

  /** `k` blocks in a row. */
  function Blocks(k: nat): History {
    if k == 0 then Start else Then(Blocks(k - 1), Event(WasBlocked, 0, 0))
  }

  lemma {:induction false} BlocksEscalate(policy: Policy, k: nat)
    ensures Escalations(policy, Blocks(k)) == k
  {
    if k > 0 {
      BlocksEscalate(policy, k - 1);
    }
  }

  /** A streak whose cooldown has no length gives a wrong answer. */
  lemma NoLengthAnswersWrong(policy: Policy, k: nat) returns (e: Event)
    requires Escalated(policy, k) <= 0
    ensures !AnswersRight(policy, Blocks(k), e)
  {
    var until := After(policy, Blocks(k)).until;
    e := Event(WasBlocked, 0, if until > 0 then until else 0);
    BlocksEscalate(policy, k);
    TrueIffStartsCooling(policy, Blocks(k), e);
  }

  /** In terms of the settings: the documented answer is right after every history and for every report
      exactly if the settings are sound. */
  lemma AnswersRightIffSound(policy: Policy)
    requires policy.base < TWO_63
    ensures (forall before, e :: AnswersRight(policy, before, e)) <==> Sound(policy)
  {
    if Sound(policy) {
      forall before, e
        ensures AnswersRight(policy, before, e)
      {
        LengthsArePositive(policy, before, e);
        TrueIffStartsCooling(policy, before, e);
      }
    } else {
      var k := 0;
      if policy.base > 0 && Cap(policy) > 0 {
        k := DoublingOverflows(policy.base, Cap(policy));
      }
      var e := NoLengthAnswersWrong(policy, k);
    }
  }

  /** The failures that end the run, with nothing in between. */
  function LastFailures(run: History): nat {
    if run.Then? && run.e.report.Failed? then LastFailures(run.before) + 1 else 0
  }

  /** One of the last `m` reports brought an escalating cooldown. */
  predicate CooledWithin(policy: Policy, run: History, m: nat)
    decreases m
  {
    m > 0 && run.Then? && (Escalates(policy, run.before, run.e) || CooledWithin(policy, run.before, m - 1))
  }

  lemma {:induction false} SomeFailureEscalates(policy: Policy, run: History, m: nat)
    requires policy.threshold > 0 && LastFailures(run) >= m && Recent(run) % policy.threshold < m
    ensures CooledWithin(policy, run, m)
    decreases m
  {
    if !Escalates(policy, run.before, run.e) {
      NextRemainder(Recent(run.before), policy.threshold);
      SomeFailureEscalates(policy, run.before, m - 1);
    }
  }

  /** Among any threshold-many failures in a row one brings a cooldown, again and again. */
  lemma FailuresCoolAgain(policy: Policy, run: History)
    requires policy.threshold > 0 && LastFailures(run) >= policy.threshold
    ensures CooledWithin(policy, run, policy.threshold)
  {
    SomeFailureEscalates(policy, run, policy.threshold);
  }
}
