/** internal/proxy/pool.go: what a proxy is promised over whole runs of the pool, in which reports on all
    proxies, picks of every strategy and reloads alternate. Every call of the class ProxyPool.Pool is a
    step of such a run. */
module PoolRun {
  import opened Commons
  import opened Outcomes
  import opened ProxyHealth
  import opened ProxyPool

  /** The pool, and the health of every proxy it ever had. */
  datatype PoolState = PoolState(
    urls: seq<string>, proxies: seq<Proxy>, byURL: map<string, Proxy>, idx: nat, health: map<Proxy, Health>)

  predicate Sane(s: PoolState) {
    && |s.urls| == |s.proxies| && s.idx < |s.proxies|
    && s.byURL == Index(s.urls, s.proxies)
    && (forall i :: 0 <= i < |s.proxies| ==> s.proxies[i] in s.health)
    && (forall u :: u in s.byURL ==> s.byURL[u] in s.health)
  }

  datatype Strategy = RoundRobin | Random | WeightedSuccessRate

  /** `readings` are the times at which a pick looks at the proxies, `made` the proxies that a reload makes
      for URLs it does not know. */
  datatype Step =
    | Report(p: Proxy, report: Report, retryAfter: int, at: int)
    | Next(strategy: Strategy, readings: seq<int>, pick: Option<Proxy>)
    | Reload(urls: seq<string>, made: seq<Proxy>)

  /** Whether each proxy was found available when it was looked at. */
  function FreeIn(s: PoolState, readings: seq<int>): seq<bool>
    requires Sane(s) && |readings| == |s.proxies|
  {
    Free(seq(|s.proxies|, k requires 0 <= k < |s.proxies| => s.health[s.proxies[k]].until), readings)
  }

  function AtPosition(s: PoolState, k: Option<nat>): Option<Proxy>
    requires k.Some? ==> k.value < |s.proxies|
  {
    if k.Some? then Some(s.proxies[k.value]) else None
  }

  ghost predicate CanPick(s: PoolState, strategy: Strategy, readings: seq<int>, pick: Option<Proxy>)
    requires Sane(s) && |readings| == |s.proxies|
  {
    var free := FreeIn(s, readings);
    if strategy.RoundRobin? then pick == AtPosition(s, Pick(free, s.idx, |free|))
    else if pick.None? then forall k :: 0 <= k < |free| ==> !free[k]
    else exists k :: 0 <= k < |free| && free[k] && s.proxies[k] == pick.value
  }

  ghost predicate Enabled(s: PoolState, step: Step) {
    Sane(s) &&
    match step
    case Report(p, _, _, _) => p in s.health
    case Next(strategy, readings, pick) => |readings| == |s.proxies| && CanPick(s, strategy, readings, pick)
    case Reload(urls, made) =>
      && |made| == |Effective(urls)|
      && forall i :: 0 <= i < |made| && Effective(urls)[i] !in s.byURL ==> made[i] !in s.health
  }

  /** The proxies after a reload: those known by their URL, and new ones. */
  function Listed(s: PoolState, urls: seq<string>, made: seq<Proxy>): (ps: seq<Proxy>)
    requires |made| == |urls|
    ensures |ps| == |urls|
  {
    seq(|urls|, i requires 0 <= i < |urls| => if urls[i] in s.byURL then s.byURL[urls[i]] else made[i])
  }

  ghost function Apply(policy: Policy, s: PoolState, step: Step): PoolState
    requires Enabled(s, step)
  {
    match step
    case Report(p, report, retryAfter, at) =>
      s.(health := s.health[p := ReportOutcome(policy, s.health[p], report, retryAfter, at).health])
    case Next(strategy, readings, _) =>
      var free := FreeIn(s, readings);
      if strategy.RoundRobin? then s.(idx := IndexAfter(Pick(free, s.idx, |free|), s.idx, |free|)) else s
    case Reload(urls, made) =>
      var ps := Listed(s, Effective(urls), made);
      var news := map i | 0 <= i < |ps| && ps[i] !in s.health :: ps[i] := CLEAN;
      PoolState(Effective(urls), ps, Index(Effective(urls), ps), 0, s.health + news)
  }

  /** `steps` is a run from `s` to `n`. */
  ghost predicate Continues(policy: Policy, s: PoolState, steps: seq<Step>, n: PoolState)
    decreases |steps|
  {
    if steps == [] then n == s
    else Enabled(s, steps[0]) && Continues(policy, Apply(policy, s, steps[0]), steps[1..], n)
  }

  // ----------------------------------------------------------- one proxy

  lemma {:induction false} SaneStep(policy: Policy, s: PoolState, step: Step)
    requires Enabled(s, step)
    ensures Sane(Apply(policy, s, step))
  {
    if step.Reload? {
      var ps := Listed(s, Effective(step.urls), step.made);
      IndexFinds(Effective(step.urls), ps);
    }
  }

  /** No step moves the end of any cooldown to an earlier time. */
  lemma UntilStep(policy: Policy, s: PoolState, step: Step, p: Proxy)
    requires Enabled(s, step) && p in s.health
    ensures var n := Apply(policy, s, step); p in n.health && n.health[p].until >= s.health[p].until
  {
  }

  /** In no run, whatever is reported, picked and reloaded in it, does a cooldown end earlier than it
      would have. */
  lemma {:induction false} CooldownNeverShrinksInRuns(
    policy: Policy, s: PoolState, steps: seq<Step>, n: PoolState, p: Proxy)
    requires Continues(policy, s, steps, n) && p in s.health
    ensures p in n.health && n.health[p].until >= s.health[p].until
    decreases |steps|
  {
    if steps != [] {
      UntilStep(policy, s, steps[0], p);
      CooldownNeverShrinksInRuns(policy, Apply(policy, s, steps[0]), steps[1..], n, p);
    }
  }

  /** The pick looks at the proxy, if it is listed, before `time`. */
  predicate LooksBefore(s: PoolState, readings: seq<int>, p: Proxy, time: int)
    requires |readings| == |s.proxies|
  {
    forall k :: 0 <= k < |s.proxies| && s.proxies[k] == p ==> readings[k] < time
  }

  lemma CoolingIsNotPicked(s: PoolState, strategy: Strategy, readings: seq<int>, pick: Option<Proxy>, p: Proxy)
    requires Sane(s) && |readings| == |s.proxies| && CanPick(s, strategy, readings, pick)
    requires p in s.health && LooksBefore(s, readings, p, s.health[p].until)
    ensures pick != Some(p)
  {
    var free := FreeIn(s, readings);
    forall k | 0 <= k < |free| && s.proxies[k] == p
      ensures !free[k]
    {
      assert readings[k] < s.health[p].until;
    }
  }

  /** A rate limit with Retry-After `wait` reported at `at`: in every run after it, no strategy hands the
      proxy out before `at + wait`. */
  lemma RetryAfterIsHonouredInRuns(
    policy: Policy, s: PoolState, p: Proxy, wait: int, at: int, steps: seq<Step>, n: PoolState, next: Step)
    requires Enabled(s, Report(p, WasRateLimited, wait, at)) && wait > 0
    requires Continues(policy, Apply(policy, s, Report(p, WasRateLimited, wait, at)), steps, n)
    requires Enabled(n, next) && next.Next? && LooksBefore(n, next.readings, p, at + wait)
    ensures next.pick != Some(p)
  {
    CooldownNeverShrinksInRuns(policy, Apply(policy, s, Report(p, WasRateLimited, wait, at)), steps, n, p);
    CoolingIsNotPicked(n, next.strategy, next.readings, next.pick, p);
  }

  // ------------------------------------------------------------- one URL

  /** Every reload in the run keeps the URL. */
  predicate Retains(steps: seq<Step>, url: string) {
    forall i :: 0 <= i < |steps| && steps[i].Reload? ==> url in Effective(steps[i].urls)
  }

  lemma {:induction false} IndexOfKnown(s: PoolState, urls: seq<string>, made: seq<Proxy>, url: string)
    requires |urls| == |made| && url in urls && url in s.byURL
    ensures var m := Index(urls, Listed(s, urls, made)); url in m && m[url] == s.byURL[url]
  {
    var ps := Listed(s, urls, made);
    IndexFinds(urls, ps);
    assert StandsFor(urls, ps, url, Index(urls, ps)[url]);
  }

  /** A URL that every reload keeps stays with its proxy, and so with its history. */
  lemma {:induction false} RetainedURLKeepsItsProxy(
    policy: Policy, s: PoolState, steps: seq<Step>, n: PoolState, url: string)
    requires Continues(policy, s, steps, n) && url in s.byURL && Retains(steps, url)
    ensures url in n.byURL && n.byURL[url] == s.byURL[url]
    decreases |steps|
  {
    if steps != [] {
      if steps[0].Reload? {
        IndexOfKnown(s, Effective(steps[0].urls), steps[0].made, url);
      }
      assert Retains(steps[1..], url);
      RetainedURLKeepsItsProxy(policy, Apply(policy, s, steps[0]), steps[1..], n, url);
    }
  }

  predicate Distinct(urls: seq<string>) {
    forall i, j :: 0 <= i < j < |urls| ==> urls[i] != urls[j]
  }

  /** With distinct URLs the proxy of a URL is the only one listed for it. */
  lemma ListedUnderItsURL(s: PoolState, k: nat)
    requires Sane(s) && Distinct(s.urls) && k < |s.urls|
    ensures s.urls[k] in s.byURL && s.byURL[s.urls[k]] == s.proxies[k]
  {
    IndexFinds(s.urls, s.proxies);
    assert s.urls[k] in s.urls;
    assert StandsFor(s.urls, s.proxies, s.urls[k], s.byURL[s.urls[k]]);
  }

  /** So no proxy at all is handed out for a URL that every reload keeps, before the Retry-After that was
      reported for it is over. */
  lemma URLIsNotHandedOutEarly(
    policy: Policy, s: PoolState, url: string, wait: int, at: int, steps: seq<Step>, n: PoolState, next: Step, k: nat)
    requires url in s.byURL && wait > 0 && Retains(steps, url) && Distinct(n.urls)
    requires Enabled(s, Report(s.byURL[url], WasRateLimited, wait, at))
    requires Continues(policy, Apply(policy, s, Report(s.byURL[url], WasRateLimited, wait, at)), steps, n)
    requires Enabled(n, next) && next.Next? && k < |n.proxies| && n.urls[k] == url
    requires LooksBefore(n, next.readings, n.proxies[k], at + wait)
    ensures next.pick != Some(n.proxies[k])
  {
    var p := s.byURL[url];
    RetainedURLKeepsItsProxy(policy, Apply(policy, s, Report(p, WasRateLimited, wait, at)), steps, n, url);
    ListedUnderItsURL(n, k);
    RetryAfterIsHonouredInRuns(policy, s, p, wait, at, steps, n, next);
  }

  // ------------------------------------------------- the class and its runs

  /** `s` is what the pool holds, and the health of all proxies it ever had. */
  ghost predicate Shows(pool: Pool, s: PoolState)
    reads pool, s.health.Keys
  {
    && pool.Valid() && Sane(s)
    && s.proxies == pool.proxies && s.byURL == pool.byURL && s.idx == pool.idx
    && forall p :: p in s.health ==> p.State() == s.health[p]
  }

  /** A new pool is at the start of a run. */
  method Start(urls: seq<string>, settings: Policy) returns (pool: Pool, ghost s: PoolState)
    ensures fresh(pool) && pool.policy == settings && Shows(pool, s)
    ensures s.urls == Effective(urls) && forall p :: p in s.health ==> s.health[p] == CLEAN
  {
    pool := new Pool(urls, settings);
    s := PoolState(Effective(urls), pool.proxies, pool.byURL, 0, map p | p in pool.proxies :: CLEAN);
    IndexFinds(s.urls, s.proxies);
  }

  method ReportStep(pool: Pool, p: Proxy, report: Report, retryAfter: int, at: int, ghost s: PoolState)
    returns (cooled: bool, ghost step: Step)
    requires Shows(pool, s) && p in s.health
    modifies p
    ensures step == Report(p, report, retryAfter, at) && Enabled(s, step)
    ensures Shows(pool, Apply(pool.policy, s, step))
  {
    step := Report(p, report, retryAfter, at);
    cooled := pool.Report(p, report, retryAfter, at);
  }

  method NextStep(pool: Pool, strategy: Strategy, readings: seq<int>, ghost s: PoolState)
    returns (r: Option<Proxy>, ghost step: Step)
    requires Shows(pool, s) && |readings| == |pool.proxies|
    modifies pool
    ensures step == Next(strategy, readings, r) && Enabled(s, step)
    ensures Shows(pool, Apply(pool.policy, s, step))
  {
    ghost var free := FreeIn(s, readings);
    assert free == Free(Untils(pool.proxies), readings);
    if strategy.RoundRobin? {
      r := pool.NextRoundRobin(readings);
    } else {
      r := pool.NextRandom(readings);
    }
    step := Next(strategy, readings, r);
  }

  method ReloadStep(pool: Pool, urls: seq<string>, ghost s: PoolState) returns (ghost step: Step)
    requires Shows(pool, s)
    modifies pool
    ensures step.Reload? && step.urls == urls && Enabled(s, step)
    ensures Shows(pool, Apply(pool.policy, s, step))
  {
    pool.Reload(urls);
    step := Reload(urls, pool.proxies);
    assert Listed(s, Effective(urls), pool.proxies) == pool.proxies;
    SaneStep(pool.policy, s, step);
  }
}
