/** internal/worker/pool.go: waiting for a proxy, the retry loop every job runs, and the workers. Others
    report on the same proxies, time passes and the context may end between any two steps, which is why
    the loops over the pool appear here again, one look at a proxy at a time. */
module Acquire {
  import opened Commons
  import opened Outcomes
  import opened ProxyHealth
  import opened ProxyPool

  const DEFAULT_MAX_WAIT := 120_000_000_000

  /** The proxies, the clock and the context. Proxies are numbered in order of creation; `list` are those
      configured, and `healths` has the health of all, also of those that a reload dropped. `changes` bounds
      the reports and reloads that others have yet to make. */
  datatype Situation = Situation(
    now: int, ended: bool, healths: seq<Health>, list: seq<nat>, idx: nat, changes: nat)

  predicate Sane(s: Situation) {
    s.idx < |s.list| && forall i :: 0 <= i < |s.list| ==> s.list[i] < |s.healths|
  }

  predicate Ready(s: Situation)
    requires Sane(s)
  {
    exists i :: 0 <= i < |s.list| && s.healths[s.list[i]].until <= s.now
  }

  /** `t` may come after `s`: clocks do not go back, cooldowns do not shrink, and proxies are only added. */
  predicate Later(s: Situation, t: Situation) {
    && t.now >= s.now
    && (s.ended ==> t.ended)
    && |t.healths| >= |s.healths|
    && (forall k :: 0 <= k < |s.healths| ==> t.healths[k].until >= s.healths[k].until)
  }

  /** `t` may come after `s` while this worker reports nothing. */
  predicate Waited(s: Situation, t: Situation) {
    && Later(s, t) && t.changes <= s.changes
    && (t.changes == s.changes ==> t.healths == s.healths && t.list == s.list)
  }

  /** The first `n` proxies of the list cool at least until `time`. */
  predicate AllUntil(s: Situation, n: nat, time: int)
    requires Sane(s) && n <= |s.list|
  {
    forall i :: 0 <= i < n ==> s.healths[s.list[i]].until >= time
  }

  lemma AllUntilStays(s: Situation, t: Situation, n: nat, time: int)
    requires Sane(s) && Sane(t) && n <= |s.list| && s.list == t.list && Later(s, t) && AllUntil(s, n, time)
    ensures AllUntil(t, n, time)
  {
    forall i | 0 <= i < n
      ensures t.healths[t.list[i]].until >= time
    {
      assert t.healths[s.list[i]].until >= s.healths[s.list[i]].until;
    }
  }

  /** Some cooldown ends at `time`. */
  predicate EndsAt(s: Situation, time: int)
    requires Sane(s)
  {
    exists i :: 0 <= i < |s.list| && s.healths[s.list[i]].until == time
  }

  lemma ReadyOnWaking(s: Situation, t: Situation, at: int)
    requires Sane(s) && Sane(t) && EndsAt(s, at)
    requires t.healths == s.healths && t.list == s.list && t.now >= at
    ensures Ready(t)
  {
  }

  /** What nextProxy gives: a proxy with its health and the time when it was seen not cooling. */
  datatype Got = Got(k: nat, seen: Health, at: int) | AllCooling | Ended

  /** One pass of the loop of Acquire that got as far as asking for a proxy. `checked` is when the proxy was
      seen not cooling, `err` what the fetch returned, `at` when the outcome was reported, `wait` the Retry-After,
      `end` the end of the proxy's cooldown after the report, `cooled` whether the report began it, `used` whether
      the response was used, and `delayed` whether the pass began with a backoff. */
  datatype Try =
    | NoProxy(delayed: bool)
    | Fetched(
        delayed: bool, proxy: nat, checked: int, err: Option<Err>, outcome: Outcome, at: int, wait: int, end: int,
        cooled: bool, used: bool)

  datatype Cause = Nothing | NoProxyFree | FetchFailed(o: Outcome) | UseFailed | ContextEnded

  /** Panicked: backoffDuration asked for a random number below none. */
  datatype Result = Used | Dropped(attempts: nat, canceled: bool, cause: Cause) | Panicked

  /** Between `s` and `t` proxy `k` was seen at time `at` with health `seen`, and was not cooling then. */
  predicate SeenFree(s: Situation, t: Situation, k: nat, seen: Health, at: int) {
    && k < |t.healths|
    && (k < |s.healths| ==> s.healths[k].until <= seen.until)
    && seen.until <= t.healths[k].until
    && s.now <= at <= t.now
    && !IsCooling(seen, at)
  }

  /** The metrics the loop keeps. */
  datatype Counters = Counters(
    retried: nat, failures: nat, banned: nat, outcomes: multiset<Outcome>, succeeded: nat, dropped: nat)

  // -------------------------------------------------------------- backoff

  const BACKOFF_UNIT := 50_000_000
  const MAX_BACKOFF := 2_000_000_000

  /** The base of backoffDuration, in int64. */
  function BackoffBase(attempt: nat): int {
    var base := Int64(Int64(Pow2(attempt)) * BACKOFF_UNIT);
    if base > MAX_BACKOFF then MAX_BACKOFF else base
  }

  /** rand.Int63n panics unless its bound is positive. */
  predicate BackoffPanics(attempt: nat) {
    BackoffBase(attempt) < 2
  }

  lemma FiveDoublings(n: nat)
    ensures Pow2(n + 5) == 32 * Pow2(n)
  {
    assert Pow2(n + 5) == 2 * Pow2(n + 4) && Pow2(n + 4) == 2 * Pow2(n + 3);
    assert Pow2(n + 3) == 2 * Pow2(n + 2) && Pow2(n + 2) == 2 * Pow2(n + 1);
  }

  lemma TenDoublings(n: nat)
    ensures Pow2(n + 10) == 1024 * Pow2(n)
  {
    FiveDoublings(n + 5);
    FiveDoublings(n);
  }

  lemma SevenDoublings()
    ensures Pow2(7) == 128
  {
    FiveDoublings(2);
    assert Pow2(2) == 4;
  }

  lemma LargePowers()
    ensures Pow2(37) == 137_438_953_472 && Pow2(38) == 274_877_906_944
  {
    SevenDoublings();
    TenDoublings(7);
    TenDoublings(17);
    TenDoublings(27);
    assert Pow2(38) == 2 * Pow2(37);
  }

  lemma BackoffAtMost37(attempt: nat)
    requires attempt <= 37
    ensures BACKOFF_UNIT <= BackoffBase(attempt) <= MAX_BACKOFF
  {
    LargePowers();
    PowersGrow(attempt, 37);
  }

  /** Up to 37 retries the base doubles from 100 ms before the first to 1.6 s before the fifth, and is two seconds
      from then on. */
  lemma BackoffDoublesToTwoSeconds(attempt: nat)
    requires 1 <= attempt <= 37
    ensures BackoffBase(attempt) == if attempt <= 5 then 50_000_000 * Pow2(attempt) else 2_000_000_000
  {
    LargePowers();
    PowersGrow(attempt, 37);
    assert Pow2(3) == 8 && Pow2(5) == 32 && Pow2(6) == 64;
    if attempt <= 5 {
      PowersGrow(attempt, 5);
    } else {
      PowersGrow(6, attempt);
    }
  }

  /** The doubling of the backoff overflows at attempt 38, not before. */
  lemma NoBackoffPanicsIffAtMost37(retries: int)
    ensures (forall attempt: nat :: 1 <= attempt <= retries ==> !BackoffPanics(attempt)) <==> retries <= 37
  {
    forall attempt: nat | attempt <= 37
      ensures !BackoffPanics(attempt)
    {
      BackoffAtMost37(attempt);
    }
    LargePowers();
    assert BackoffPanics(38);
  }

  // ------------------------------------------------ what the attempts say

  /** The attempts made for a job, oldest first. */
  datatype Tries = NoTry | Tried(before: Tries, last: Try)

  function Number(tries: Tries): nat {
    if tries.NoTry? then 0 else Number(tries.before) + 1
  }

  function Fetches(tries: Tries): nat {
    if tries.NoTry? then 0 else Fetches(tries.before) + if tries.last.Fetched? then 1 else 0
  }

  /** The attempts that count as failures: every fetch whose response was not used, except the canceled. */
  predicate IsFailure(t: Try) {
    t.Fetched? && !t.used && !t.outcome.Canceled?
  }

  function Failures(tries: Tries): nat {
    if tries.NoTry? then 0 else Failures(tries.before) + if IsFailure(tries.last) then 1 else 0
  }

  /** The cooldowns that the attempts began. */
  function Bans(tries: Tries): nat {
    if tries.NoTry? then 0 else Bans(tries.before) + if tries.last.Fetched? && tries.last.cooled then 1 else 0
  }

  function OutcomeOf(t: Try): multiset<Outcome> {
    if t.Fetched? then multiset{t.outcome} else multiset{}
  }

  function OutcomesOf(tries: Tries): multiset<Outcome> {
    if tries.NoTry? then multiset{} else OutcomesOf(tries.before) + OutcomeOf(tries.last)
  }

  /** Whether the loop goes on after the attempt, as long as it has retries left. */
  predicate GoesOn(t: Try) {
    t.NoProxy? || t.outcome.Retryable() || (t.outcome.Success? && !t.used)
  }

  predicate AllGoOn(tries: Tries) {
    tries.Tried? ==> GoesOn(tries.last) && !IsUse(tries.last) && AllGoOn(tries.before)
  }

  predicate IsUse(t: Try) {
    t.Fetched? && t.used
  }

  function CauseOf(t: Try): Cause {
    if t.NoProxy? then NoProxyFree
    else if t.outcome.Success? then UseFailed
    else FetchFailed(t.outcome)
  }

  function LastCause(tries: Tries): Cause {
    if tries.NoTry? then Nothing else CauseOf(tries.last)
  }

  predicate LastFailedOver(tries: Tries) {
    tries.Tried? && tries.last.Fetched? && FailsOver(tries.last.outcome)
  }

  /** An attempt waits out a backoff unless it is the first or the one before failed over. */
  predicate DelaysRight(tries: Tries) {
    tries.Tried? ==>
      && (tries.last.delayed <==> tries.before.Tried? && !LastFailedOver(tries.before))
      && DelaysRight(tries.before)
  }

  /** `t` does not use a proxy before the end of a cooldown that one of `tries` left it with. */
  predicate RestedAfter(tries: Tries, t: Try) {
    tries.Tried? ==>
      && (tries.last.Fetched? && t.Fetched? && tries.last.proxy == t.proxy ==> t.checked >= tries.last.end)
      && RestedAfter(tries.before, t)
  }

  predicate Rested(tries: Tries) {
    tries.Tried? ==> RestedAfter(tries.before, tries.last) && Rested(tries.before)
  }

  /** A rate limit or block leaves the proxy cooling, at least for the Retry-After. */
  predicate Cooled(policy: Policy, t: Try) {
    t.Fetched? && FailsOver(t.outcome) ==>
      && (Sound(policy) ==> t.end > t.at)
      && (t.outcome.RateLimited? && t.wait > 0 ==> t.end >= t.at + t.wait)
  }

  predicate AllCooled(policy: Policy, tries: Tries) {
    tries.Tried? ==> Cooled(policy, tries.last) && AllCooled(policy, tries.before)
  }

  /** The outcome and the wait are those of the error that the fetch returned, or the outcome is a cancellation
      in place of an error. */
  predicate Judged(t: Try) {
    t.Fetched? ==>
      && (t.outcome == Classify(t.err) || (t.err.Some? && t.outcome.Canceled?))
      && t.wait == RetryAfterOf(t.err)
      && (t.cooled ==> !ProxyOutcome(t.outcome).Succeeded? && !ProxyOutcome(t.outcome).Neutral?)
      && (t.used ==> t.err.None?)
  }

  predicate AllJudged(tries: Tries) {
    tries.Tried? ==> Judged(tries.last) && AllJudged(tries.before)
  }

  /** The outcome of the fetch is not that of what it returned: the context had ended. */
  predicate Overruled(t: Try) {
    t.Fetched? && t.outcome != Classify(t.err)
  }

  /** A job with at most `retries` retries ended with `r`: every attempt but the last called for another;
      the job succeeded exactly if the last one's response was used; and it was given up only for want of
      retries, after an outcome that no retry can mend, or because it was canceled. A panic comes before a
      retry that is to be delayed, if its backoff overflows. */
  predicate Accounts(r: Result, tries: Tries, retries: int) {
    && (tries.Tried? ==> AllGoOn(tries.before))
    && (r.Used? <==> tries.Tried? && IsUse(tries.last))
    && (r.Dropped? ==> r.attempts == Fetches(tries))
    && (r.Panicked? ==>
          tries.Tried? && AllGoOn(tries) && !LastFailedOver(tries)
          && Number(tries) <= retries && BackoffPanics(Number(tries)))
    && (r.Dropped? && !r.canceled ==>
          && r.cause == LastCause(tries)
          && (Number(tries) == retries + 1 || retries < 0 || r.cause == FetchFailed(ClientError)))
  }

  /** Every fetch is counted under its outcome, as a failure if it is one, and as a cooldown if it began one. */
  predicate Counted(c: Counters, d: Counters, tries: Tries) {
    && d.outcomes == c.outcomes + OutcomesOf(tries)
    && d.failures == c.failures + Failures(tries)
    && d.banned == c.banned + Bans(tries)
    && d.succeeded == c.succeeded && d.dropped == c.dropped
  }

  /** What Acquire promises of the attempts of a job that ended with `r`, the counters going from c to d. */
  predicate Finished(policy: Policy, c: Counters, r: Result, tries: Tries, retries: int, ended: bool, d: Counters) {
    && Accounts(r, tries, retries) && Counted(c, d, tries)
    && DelaysRight(tries) && Rested(tries) && AllCooled(policy, tries) && AllJudged(tries)
    && (r.Used? ==> d.retried == c.retried + Number(tries) - 1)
    && (r.Dropped? && r.canceled ==>
          ended || (tries.Tried? && tries.last.Fetched? && Classify(tries.last.err).Canceled?))
  }

  /** A job that ended with `r`, no panic, takes the counters from `c` to `d`. */
  predicate CountsJob(c: Counters, d: Counters, r: Result) {
    && !r.Panicked?
    && d.succeeded == c.succeeded + (if r.Used? then 1 else 0)
    && d.dropped == c.dropped + (if r.Used? then 0 else 1)
  }

  // -------------------------------------------------------------- cooling

  /** The outcomes after which Acquire fails over are those whose report makes the proxy cool. */
  lemma FailoverCools(policy: Policy, h: Health, err: Option<Err>, o: Outcome, now: int)
    requires o == Classify(err) || o == Canceled
    ensures var end := ReportOutcome(policy, h, ProxyOutcome(o), RetryAfterOf(err), now).health.until;
            && end >= h.until
            && (FailsOver(o) && Sound(policy) ==> end > now)
            && (FailsOver(o) && o.RateLimited? && RetryAfterOf(err) > 0 ==> end >= now + RetryAfterOf(err))
  {
    if Sound(policy) {
      EscalatedIsPositive(policy, h.streak);
    }
  }

  /** The cooldowns the attempts left are still running or have run out. */
  predicate Behind(tries: Tries, s: Situation) {
    tries.Tried? ==>
      && (tries.last.Fetched? ==>
            tries.last.proxy < |s.healths| && tries.last.end <= s.healths[tries.last.proxy].until)
      && Behind(tries.before, s)
  }

  lemma {:induction false} BehindStays(tries: Tries, s: Situation, t: Situation)
    requires Behind(tries, s) && Later(s, t)
    ensures Behind(tries, t)
  {
    if tries.Tried? {
      BehindStays(tries.before, s, t);
    }
  }

  lemma {:induction false} BehindRests(tries: Tries, s: Situation, t: Try)
    requires Behind(tries, s)
    requires t.Fetched? && t.proxy < |s.healths| ==> s.healths[t.proxy].until <= t.checked
    ensures RestedAfter(tries, t)
  {
    if tries.Tried? {
      BehindRests(tries.before, s, t);
    }
  }

  /** The pairwise reading of Rested: a job does not go back to a proxy before the end of the cooldown an
      earlier attempt left it with, so after a failover it takes another one or waits. */
  lemma {:induction false} FailoverAvoidsCooling(policy: Policy, tries: Tries, first: Tries, later: Tries)
    requires Rested(tries) && AllCooled(policy, tries) && Within(tries, later) && Within(later.before, first)
    requires first.last.Fetched? && later.last.Fetched? && FailsOver(first.last.outcome) && Sound(policy)
    ensures later.last.proxy != first.last.proxy || later.last.checked >= first.last.end > first.last.at
  {
    WithinKeeps(policy, tries, later);
    WithinKeeps(policy, later.before, first);
    WithinRests(later.before, first, later.last);
  }

  /** `part` is the list of attempts up to one of `tries`. */
  predicate Within(tries: Tries, part: Tries) {
    part.Tried? && tries.Tried? && (tries == part || Within(tries.before, part))
  }

  lemma {:induction false} WithinKeeps(policy: Policy, tries: Tries, part: Tries)
    requires Rested(tries) && AllCooled(policy, tries) && Within(tries, part)
    ensures Rested(part) && AllCooled(policy, part)
  {
    if tries != part {
      WithinKeeps(policy, tries.before, part);
    }
  }

  lemma {:induction false} WithinRests(tries: Tries, part: Tries, t: Try)
    requires RestedAfter(tries, t) && Within(tries, part)
    ensures part.last.Fetched? && t.Fetched? && part.last.proxy == t.proxy ==> t.checked >= part.last.end
  {
    if tries != part {
      WithinRests(tries.before, part, t);
    }
  }

  // ------------------------------------------------- what ends a job

  /** An error that no retry can mend. */
  ghost predicate IsFinal(e: Err) {
    Wraps(e, ContextCanceled) || exists code :: Wraps(e, Status(code)) && code < 500
  }

  lemma {:induction false} EarlierGoesOn(tries: Tries, part: Tries)
    requires AllGoOn(tries) && Within(tries, part)
    ensures GoesOn(part.last) && !IsUse(part.last)
  {
    if tries != part {
      EarlierGoesOn(tries.before, part);
    }
  }

  lemma {:induction false} PartJudged(tries: Tries, part: Tries)
    requires AllJudged(tries) && Within(tries, part)
    ensures Judged(part.last)
  {
    if tries != part {
      PartJudged(tries.before, part);
    }
  }

  /** After a fetch that returned a final error, a status below 500 or a cancellation, there is no other attempt. */
  lemma NothingAfterFinal(
    policy: Policy, c: Counters, r: Result, tries: Tries, retries: int, ended: bool, d: Counters, part: Tries, e: Err)
    requires Finished(policy, c, r, tries, retries, ended, d) && Within(tries, part)
    requires part.last.Fetched? && part.last.err == Some(e) && IsFinal(e)
    ensures part == tries && r.Dropped?
  {
    MeaningByChain(e);
    PartJudged(tries, part);
    if part != tries {
      EarlierGoesOn(tries.before, part);
    }
  }

  /** After a fetch that returned any other error, a status of 500 or more among them, a job is given up only if its
      retries are used up or the context has ended. */
  lemma GivenUpForWantOfRetries(
    policy: Policy, c: Counters, r: Result, tries: Tries, retries: int, ended: bool, d: Counters, e: Err)
    requires Finished(policy, c, r, tries, retries, ended, d) && tries.Tried? && r.Dropped?
    requires tries.last.Fetched? && tries.last.err == Some(e) && !IsFinal(e) && retries >= 0
    ensures Number(tries) == retries + 1 || ended
  {
    MeaningByChain(e);
  }

  // ------------------------------------------------------------- progress

  /** The variables of the loop of Acquire. */
  datatype Progress = Progress(attempts: nat, failover: bool, lastErr: Cause)

  function Noted(g: Progress, t: Try): Progress {
    Progress(g.attempts + if t.Fetched? then 1 else 0, t.Fetched? && FailsOver(t.outcome), CauseOf(t))
  }

  /** What the attempt `t` makes of the job, `g` being noted. None means that another may follow. */
  function Verdict(g: Progress, t: Try): Option<Result> {
    if t.NoProxy? then None
    else if t.used then Some(Used)
    else if t.outcome.Canceled? then Some(Dropped(g.attempts, true, g.lastErr))
    else if !GoesOn(t) then Some(Dropped(g.attempts, false, g.lastErr))
    else None
  }

  /** The attempts made so far leave the loop in this state. */
  predicate Going(policy: Policy, tries: Tries, s: Situation, g: Progress) {
    && g == Progress(Fetches(tries), LastFailedOver(tries), LastCause(tries))
    && AllGoOn(tries) && DelaysRight(tries) && Rested(tries)
    && AllCooled(policy, tries) && AllJudged(tries) && Behind(tries, s)
  }

  /** What an attempt leaves behind that began in `s` and ended in `n`. */
  predicate Sensible(policy: Policy, t: Try, s: Situation, n: Situation) {
    && Later(s, n) && Cooled(policy, t) && Judged(t) && (Overruled(t) ==> n.ended)
    && (t.Fetched? ==>
          && t.proxy < |n.healths| && t.end <= n.healths[t.proxy].until
          && (t.proxy < |s.healths| ==> s.healths[t.proxy].until <= t.checked))
    && (IsUse(t) ==> t.outcome.Success?)
  }

  /** The counters before another attempt: each attempt but the first was a retry. */
  predicate Booked(c: Counters, d: Counters, tries: Tries) {
    Counted(c, d, tries) && d.retried == c.retried + if tries.NoTry? then 0 else Number(tries) - 1
  }

  /** The counters go from `d` to `e` by the attempt `t`. */
  predicate CountsTry(d: Counters, e: Counters, t: Try) {
    && e.outcomes == d.outcomes + OutcomeOf(t)
    && e.failures == d.failures + (if IsFailure(t) then 1 else 0)
    && e.banned == d.banned + (if t.Fetched? && t.cooled then 1 else 0)
    && e.succeeded == d.succeeded && e.dropped == d.dropped && e.retried == d.retried
  }

  lemma CountedMore(c: Counters, d: Counters, tries: Tries, t: Try, e: Counters)
    requires Counted(c, d, tries) && CountsTry(d, e, t)
    ensures Counted(c, e, Tried(tries, t))
  {
  }

  lemma StepGoesOn(policy: Policy, tries: Tries, s: Situation, g: Progress, t: Try, n: Situation)
    requires Going(policy, tries, s, g) && Sensible(policy, t, s, n)
    requires t.delayed <==> tries.Tried? && !g.failover
    requires Verdict(Noted(g, t), t).None?
    ensures Going(policy, Tried(tries, t), n, Noted(g, t))
  {
    BehindStays(tries, s, n);
    BehindRests(tries, s, t);
  }

  lemma StepFinishes(
    policy: Policy, tries: Tries, s: Situation, g: Progress, t: Try, n: Situation,
    c: Counters, d: Counters, retries: int)
    requires Going(policy, tries, s, g) && Sensible(policy, t, s, n)
    requires t.delayed <==> tries.Tried? && !g.failover
    requires Verdict(Noted(g, t), t).Some?
    requires Counted(c, d, Tried(tries, t)) && d.retried == c.retried + Number(tries)
    ensures Finished(policy, c, Verdict(Noted(g, t), t).value, Tried(tries, t), retries, n.ended, d)
  {
    BehindRests(tries, s, t);
  }

  lemma StepSettles(
    policy: Policy, tries: Tries, s: Situation, g: Progress, t: Try, n: Situation,
    c: Counters, d: Counters, e: Counters, retries: int)
    requires Going(policy, tries, s, g) && Sensible(policy, t, s, n)
    requires t.delayed <==> tries.Tried? && !g.failover
    requires Counted(c, d, tries) && d.retried == c.retried + Number(tries) && CountsTry(d, e, t)
    ensures var h := Noted(g, t);
            if Verdict(h, t).Some? then
              Finished(policy, c, Verdict(h, t).value, Tried(tries, t), retries, n.ended, e)
            else
              Going(policy, Tried(tries, t), n, h) && Booked(c, e, Tried(tries, t))
  {
    CountedMore(c, d, tries, t, e);
    if Verdict(Noted(g, t), t).Some? {
      StepFinishes(policy, tries, s, g, t, n, c, e, retries);
    } else {
      StepGoesOn(policy, tries, s, g, t, n);
    }
  }

  lemma SensibleEarlier(policy: Policy, t: Try, s: Situation, m: Situation, n: Situation)
    requires Later(s, m) && Sensible(policy, t, m, n)
    ensures Sensible(policy, t, s, n)
  {
  }

  /** A job that gave up between attempts. */
  lemma GivenUp(
    policy: Policy, tries: Tries, s: Situation, g: Progress, canceled: bool, cause: Cause,
    retries: int, ended: bool, c: Counters, d: Counters)
    requires Going(policy, tries, s, g) && Counted(c, d, tries)
    requires canceled ==> ended
    requires !canceled ==> cause == g.lastErr && (Number(tries) == retries + 1 || retries < 0)
    ensures Finished(policy, c, Dropped(g.attempts, canceled, cause), tries, retries, ended, d)
  {
    if tries.Tried? {
      assert AllGoOn(tries.before);
    }
  }

  lemma PanickedBefore(
    policy: Policy, tries: Tries, s: Situation, g: Progress, retries: int, ended: bool, c: Counters, d: Counters)
    requires Going(policy, tries, s, g) && Counted(c, d, tries)
    requires tries.Tried? && !g.failover && Number(tries) <= retries && BackoffPanics(Number(tries))
    ensures Finished(policy, c, Panicked, tries, retries, ended, d)
  {
  }

  // --------------------------------------------------------------- class

  class Worker {
    const policy: Policy
    const maxRetries: int
    const maxProxyWait: int
    const roundRobin: bool
    var s: Situation
    var c: Counters

    constructor (settings: Policy, retries: int, wait: int, rr: bool, start: Situation)
      requires Sane(start)
      ensures s == start && policy == settings && maxRetries == retries && maxProxyWait == wait
      ensures c == Counters(0, 0, 0, multiset{}, 0, 0)
    {
      policy, maxRetries, maxProxyWait, roundRobin := settings, retries, wait, rr;
      s, c := start, Counters(0, 0, 0, multiset{}, 0, 0);
    }

    /** Something happens elsewhere while this worker holds the pool's lock: time passes, the context
        ends, another job reports on a proxy. */
    method ElsewhereLocked()
      requires Sane(s)
      modifies this`s
      ensures Sane(s) && Waited(old(s), s) && s.list == old(s.list) && s.idx == old(s.idx)
      ensures |s.healths| == old(|s.healths|)
    {
      var t :| t >= s.now;
      s := s.(now := t);
      if * {
        s := s.(ended := true);
      }
      if s.changes > 0 {
        if * {
          assert s.list[0] < |s.healths|;
          var k :| 0 <= k < |s.healths|;
          var report: Report := *;
          var wait: int := *;
          var h := ReportOutcome(policy, s.healths[k], report, wait, s.now).health;
          s := s.(healths := s.healths[k := h], changes := s.changes - 1);
        }
      }
    }

    /** Something happens elsewhere: also, other jobs take proxies, or the pool is reloaded. */
    method Elsewhere()
      requires Sane(s)
      modifies this`s
      ensures Sane(s) && Waited(old(s), s)
    {
      ElsewhereLocked();
      var turn :| 0 <= turn < |s.list|;
      s := s.(idx := turn);
      if s.changes > 0 {
        if * {
          assert s.list[0] < |s.healths|;
          var added, list := SomeList(|s.healths|);
          s := s.(healths := s.healths + seq(added, _ => CLEAN), list := list, idx := 0, changes := s.changes - 1);
        }
      }
    }

    /** A list that Reload may be given, of the `known` proxies and some new ones. */
    method SomeList(known: nat) returns (added: nat, list: seq<nat>)
      requires known > 0
      ensures list != [] && forall i :: 0 <= i < |list| ==> list[i] < known + added
    {
      added :| added >= 0;
      list := *;
      if !(list != [] && forall i :: 0 <= i < |list| ==> list[i] < known + added) {
        list := [0];
      }
    }

    /** sleepCtx. */
    method Sleep(d: int) returns (woke: bool)
      requires Sane(s)
      modifies this`s
      ensures Sane(s) && Waited(old(s), s)
      ensures if woke then d > 0 ==> s.now >= old(s.now) + d else s.ended
    {
      var before := s.now;
      Elsewhere();
      if d <= 0 {
        return !s.ended;
      }
      if s.ended {
        if * {
          return false;
        }
      }
      var t :| t >= before + d && t >= s.now;
      s := s.(now := t);
      woke := true;
    }

    /** Next, each proxy looked at at its own time. */
    method Next() returns (r: Option<nat>, seen: Health, at: int)
      requires Sane(s)
      modifies this`s
      ensures Sane(s) && Waited(old(s), s)
      ensures r.Some? ==> SeenFree(old(s), s, r.value, seen, at)
      ensures r.None? && s.changes == old(s.changes) ==> !Ready(old(s))
    {
      if roundRobin {
        r, seen, at := NextInTurn();
      } else {
        r, seen, at := NextFromHealthy();
      }
    }

    method NextInTurn() returns (r: Option<nat>, seen: Health, at: int)
      requires Sane(s)
      modifies this`s
      ensures Sane(s) && Waited(old(s), s)
      ensures r.Some? ==> SeenFree(old(s), s, r.value, seen, at)
      ensures r.None? && s.changes == old(s.changes) ==> !Ready(old(s))
    {
      var n := |s.list|;
      seen, at := CLEAN, 0;
      for i := 0 to n
        invariant Sane(s) && Waited(old(s), s) && s.list == old(s.list)
        invariant i < n ==> Distance(old(s.idx), s.idx, n) == i
        invariant s.changes == old(s.changes) ==>
                    forall j :: 0 <= j < n && Distance(old(s.idx), j, n) < i ==> s.healths[s.list[j]].until > old(s.now)
      {
        ElsewhereLocked();
        var k := s.list[s.idx];
        seen, at := s.healths[k], s.now;
        s := s.(idx := Succ(s.idx, n));
        if !IsCooling(seen, at) {
          return Some(k), seen, at;
        }
      }
      r := None;
    }

    method NextFromHealthy() returns (r: Option<nat>, seen: Health, at: int)
      requires Sane(s)
      modifies this`s
      ensures Sane(s) && Waited(old(s), s)
      ensures r.Some? ==> SeenFree(old(s), s, r.value, seen, at)
      ensures r.None? && s.changes == old(s.changes) ==> !Ready(old(s))
    {
      seen, at := CLEAN, 0;
      var healthy: seq<(nat, Health, int)> := [];
      for i := 0 to |s.list|
        invariant Sane(s) && Waited(old(s), s) && s.list == old(s.list)
        invariant forall h :: 0 <= h < |healthy| ==>
                    SeenFree(old(s), s, healthy[h].0, healthy[h].1, healthy[h].2)
        invariant healthy == [] && s.changes == old(s.changes) ==>
                    forall j :: 0 <= j < i ==> s.healths[s.list[j]].until > old(s.now)
      {
        ElsewhereLocked();
        var k := s.list[i];
        if !IsCooling(s.healths[k], s.now) {
          healthy := healthy + [(k, s.healths[k], s.now)];
        }
      }
      if |healthy| == 0 {
        return None, seen, at;
      }
      var h :| 0 <= h < |healthy|;
      return Some(healthy[h].0), healthy[h].1, healthy[h].2;
    }

    /** NextAvailableAt, the clock read once, each cooldown at its own time. */
    method NextAvailableAt() returns (at: Option<int>)
      requires Sane(s)
      modifies this`s
      ensures Sane(s) && Waited(old(s), s)
      ensures at.None? && s.changes == old(s.changes) ==> Ready(s)
      ensures at.Some? ==> old(s.now) < at.value && AllUntil(s, |s.list|, at.value)
      ensures at.Some? && s.changes == old(s.changes) ==> EndsAt(s, at.value)
    {
      Elsewhere();
      var now := s.now;
      at := None;
      ghost var locked := s;
      for i := 0 to |s.list|
        invariant Sane(s) && Waited(old(s), s) && old(s.now) <= now <= s.now && s.list == locked.list
        invariant i == 0 <==> at.None?
        invariant at.Some? ==> now < at.value && AllUntil(s, i, at.value)
        invariant at.Some? && s.changes == old(s.changes) ==>
                    exists j :: 0 <= j < i && s.healths[s.list[j]].until == at.value
      {
        ghost var before := s;
        ElsewhereLocked();
        if at.Some? {
          AllUntilStays(before, s, i, at.value);
        }
        var until := s.healths[s.list[i]].until;
        if now >= until {
          return None;
        }
        if at.None? || until < at.value {
          at := Some(until);
        }
      }
    }

    /** Next, and NextAvailableAt if it fails. */
    method Poll() returns (got: Got, soonest: Option<int>)
      requires Sane(s)
      modifies this`s
      ensures Sane(s) && Waited(old(s), s)
      ensures got.Got? ==> SeenFree(old(s), s, got.k, got.seen, got.at)
      ensures got.Got? || got.AllCooling?
      ensures got.AllCooling? && s.changes == old(s.changes) ==> !Ready(old(s)) && (soonest.None? ==> Ready(s))
      ensures got.AllCooling? && soonest.Some? ==>
                && AllUntil(s, |s.list|, soonest.value)
                && (s.changes == old(s.changes) ==> EndsAt(s, soonest.value))
    {
      soonest := None;
      var k, seen, at := Next();
      if k.Some? {
        return Got(k.value, seen, at), soonest;
      }
      soonest := NextAvailableAt();
      got := AllCooling;
    }

    /** sleepCtx until the time `at`, for which it asks to sleep so long. */
    method SleepUntil(at: int) returns (woke: bool, asked: int)
      requires Sane(s)
      modifies this`s
      ensures Sane(s) && Waited(old(s), s)
      ensures 0 <= asked && (asked == 0 || old(s.now) + asked <= at)
      ensures if woke then s.now >= at && s.now >= old(s.now) + asked else s.ended
    {
      Elsewhere();
      var d := at - s.now;
      asked := if d > 0 then d else 0;
      woke := Sleep(d);
    }

    /** nextProxy. `slept` is the sum of the sleeps it asked for. */
    method NextProxy() returns (r: Got, slept: int)
      requires Sane(s)
      modifies this`s
      ensures Sane(s) && Waited(old(s), s)
      ensures r.Got? ==> SeenFree(old(s), s, r.k, r.seen, r.at)
      ensures r.AllCooling? ==> AllUntil(s, |s.list|, old(s.now) + MaxWait() + 1)
      ensures r.Ended? ==> s.ended
      ensures 0 <= slept <= MaxWait()
    {
      Elsewhere();
      ghost var start := s.now;
      var deadline := s.now + MaxWait();
      slept := 0;
      ghost var ready := false;
      while true
        invariant Sane(s) && Waited(old(s), s)
        invariant 0 <= slept <= s.now - start && slept <= MaxWait()
        invariant ready ==> Ready(s)
        decreases s.changes, if ready then 0 else 1
      {
        ghost var top := s;
        var got, soonest := Poll();
        if got.Got? {
          return got, slept;
        }
        if soonest.None? {
          ready := s.changes == top.changes;
          continue;
        }
        if soonest.value > deadline {
          return AllCooling, slept;
        }
        ghost var read := s;
        var woke, asked := SleepUntil(soonest.value);
        slept := slept + asked;
        if !woke {
          return Ended, slept;
        }
        ready := s.changes == top.changes;
        if ready {
          ReadyOnWaking(read, s, soonest.value);
        }
      }
    }

    /** The fetcher, which may return anything. */
    method Fetch() returns (err: Option<Err>) {
      err := *;
    }

    /** Fetch through proxy `k` and recordOutcome. `was` is the proxy's health when the report came in. */
    method FetchAndReport(k: nat)
      returns (err: Option<Err>, o: Outcome, at: int, end: int, cooled: bool, ghost was: Health)
      requires Sane(s) && k < |s.healths|
      modifies this`s, this`c
      ensures Sane(s) && Later(old(s), s)
      ensures c == old(c).(outcomes := old(c.outcomes) + multiset{o},
                           banned := old(c.banned) + if cooled then 1 else 0)
      ensures old(s.ended) ==> o.Success? || o.Canceled?
      ensures o == Classify(err) || (err.Some? && o.Canceled? && s.ended)
      ensures Reported(s.healths[k], cooled) == ReportOutcome(policy, was, ProxyOutcome(o), RetryAfterOf(err), at)
      ensures old(s.healths[k].until) <= was.until && end == s.healths[k].until
      ensures FailsOver(o) && Sound(policy) ==> end > at
      ensures o.RateLimited? && RetryAfterOf(err) > 0 ==> end >= at + RetryAfterOf(err)
    {
      Elsewhere();
      err := Fetch();
      o := Classify(err);
      if err.Some? && s.ended {
        o := Canceled;
      }
      c := c.(outcomes := c.outcomes + multiset{o});
      Elsewhere();
      at, was := s.now, s.healths[k];
      FailoverCools(policy, s.healths[k], err, o, at);
      var r := ReportOutcome(policy, s.healths[k], ProxyOutcome(o), RetryAfterOf(err), at);
      s := s.(healths := s.healths[k := r.health]);
      end, cooled := r.health.until, r.cooled;
      if cooled {
        c := c.(banned := c.banned + 1);
      }
    }

    /** Fetch through the proxy that was got, report, and use the response. */
    method FetchAndUse(delayed: bool, got: Got) returns (t: Try)
      requires Sane(s) && got.Got? && got.k < |s.healths|
      modifies this`s, this`c
      ensures Sane(s) && Later(old(s), s)
      ensures t.Fetched? && t.delayed == delayed && t.proxy == got.k && t.checked == got.at
      ensures t.end <= s.healths[got.k].until && (t.used ==> t.outcome.Success?)
      ensures Cooled(policy, t) && Judged(t) && (Overruled(t) ==> s.ended)
      ensures c == old(c).(outcomes := old(c.outcomes) + OutcomeOf(t),
                           banned := old(c.banned) + if t.cooled then 1 else 0)
    {
      ghost var was;
      var err, o, at, end, cooled;
      err, o, at, end, cooled, was := FetchAndReport(got.k);
      var used: bool := false;
      if o.Success? {
        Elsewhere();
        used := *;
      }
      t := Fetched(delayed, got.k, got.at, err, o, at, RetryAfterOf(err), end, cooled, used);
    }

    /** One pass of the loop from asking for a proxy to using the response. None means the context ended. */
    method Attempt(delayed: bool) returns (r: Option<Try>)
      requires Sane(s)
      modifies this`s, this`c
      ensures Sane(s) && Later(old(s), s)
      ensures r.None? ==> s.ended && c == old(c)
      ensures r.Some? ==> r.value.delayed == delayed && Sensible(policy, r.value, old(s), s)
      ensures r.Some? && r.value.NoProxy? ==> AllUntil(s, |s.list|, old(s.now) + MaxWait() + 1)
      ensures r.Some? ==>
                c == old(c).(outcomes := old(c.outcomes) + OutcomeOf(r.value),
                             banned := old(c.banned) + if r.value.Fetched? && r.value.cooled then 1 else 0)
    {
      var got, _ := NextProxy();
      if !got.Got? {
        return if s.ended then None else Some(NoProxy(delayed));
      }
      Elsewhere();
      if s.ended {
        if * {
          return None;
        }
      }
      var t := FetchAndUse(delayed, got);
      r := Some(t);
    }

    /** The backoff, if the attempt is to be delayed, the attempt and its count. None means that the context
        ended. */
    method BackOffAndTry(delayed: bool, attempt: nat) returns (r: Option<Try>)
      requires Sane(s) && (delayed ==> !BackoffPanics(attempt))
      modifies this`s, this`c
      ensures Sane(s) && Later(old(s), s)
      ensures r.None? ==> s.ended && c == old(c)
      ensures r.Some? ==> r.value.delayed == delayed && Sensible(policy, r.value, old(s), s)
      ensures r.Some? ==> CountsTry(old(c), c, r.value)
    {
      if delayed {
        var base := BackoffBase(attempt);
        var jitter :| 0 <= jitter < base / 2;
        var woke := Sleep(base + jitter);
        if !woke {
          return None;
        }
      }
      ghost var rested := s;
      r := Attempt(delayed);
      if r.Some? {
        SensibleEarlier(policy, r.value, old(s), rested, s);
        if r.value.Fetched? {
          if r.value.err.Some? {
            if !r.value.outcome.Canceled? {
              c := c.(failures := c.failures + 1);
            }
          } else if !r.value.used {
            c := c.(failures := c.failures + 1);
          }
        }
      }
    }

    /** One round of the loop of Acquire, `c0` being the counters when the job began. */
    method Round(tries: Tries, g: Progress, attempt: nat, ghost c0: Counters)
      returns (r: Option<Result>, more: Tries, h: Progress)
      requires Sane(s) && Going(policy, tries, s, g) && Booked(c0, c, tries)
      requires attempt == Number(tries) <= maxRetries
      modifies this`s, this`c
      ensures Sane(s) && Later(old(s), s)
      ensures Number(more) <= Number(tries) + 1
      ensures r.Some? ==> Finished(policy, c0, r.value, more, maxRetries, s.ended, c)
      ensures r.None? ==> Going(policy, more, s, h) && Booked(c0, c, more) && Number(more) == Number(tries) + 1
    {
      more, h := tries, g;
      var delayed := attempt > 0 && !g.failover;
      if attempt > 0 {
        c := c.(retried := c.retried + 1);
      }
      if delayed && BackoffPanics(attempt) {
        PanickedBefore(policy, tries, s, g, maxRetries, s.ended, c0, c);
        return Some(Panicked), tries, g;
      }
      ghost var started := c;
      var made := BackOffAndTry(delayed, attempt);
      if made.None? {
        GivenUp(policy, tries, old(s), g, true, ContextEnded, maxRetries, s.ended, c0, c);
        return Some(Dropped(g.attempts, true, ContextEnded)), tries, g;
      }
      var t := made.value;
      StepSettles(policy, tries, old(s), g, t, s, c0, started, c, maxRetries);
      more, h := Tried(tries, t), Noted(g, t);
      r := Verdict(h, t);
    }

    /** Acquire, with the attempts it made. */
    method Acquire() returns (r: Result, tries: Tries)
      requires Sane(s)
      modifies this`s, this`c
      ensures Sane(s) && Later(old(s), s)
      ensures Finished(policy, old(c), r, tries, maxRetries, s.ended, c)
      ensures Number(tries) <= if maxRetries < 0 then 0 else maxRetries + 1
      ensures maxRetries <= 37 ==> !r.Panicked?
    {
      NoBackoffPanicsIffAtMost37(maxRetries);
      var attempt, g := 0, Progress(0, false, Nothing);
      tries := NoTry;
      while attempt <= maxRetries
        invariant Sane(s) && Later(old(s), s)
        invariant Number(tries) == attempt <= if maxRetries < 0 then 0 else maxRetries + 1
        invariant Going(policy, tries, s, g) && Booked(old(c), c, tries)
        decreases maxRetries - attempt
      {
        var verdict;
        verdict, tries, g := Round(tries, g, attempt, old(c));
        if verdict.Some? {
          return verdict.value, tries;
        }
        attempt := attempt + 1;
      }
      GivenUp(policy, tries, s, g, false, g.lastErr, maxRetries, s.ended, old(c), c);
      r := Dropped(g.attempts, false, g.lastErr);
    }

    /** process: a job is counted once, as a success exactly if its response was used. */
    method Process() returns (r: Result)
      requires Sane(s)
      modifies this`s, this`c
      ensures Sane(s) && Later(old(s), s)
      ensures !r.Panicked? ==> CountsJob(old(c), c, r)
      ensures maxRetries <= 37 ==> !r.Panicked?
    {
      var tries;
      r, tries := Acquire();
      match r
      case Panicked =>
      case Dropped(_, _, _) => c := c.(dropped := c.dropped + 1);
      case Used => c := c.(succeeded := c.succeeded + 1);
    }

    /** runWorker on a queue that gives this worker `jobs` jobs before it is closed. */
    method RunWorker(jobs: nat) returns (taken: nat, panicked: bool)
      requires Sane(s)
      modifies this`s, this`c
      ensures Sane(s) && Later(old(s), s)
      ensures !panicked ==> c.succeeded + c.dropped == old(c.succeeded) + old(c.dropped) + taken
      ensures taken <= jobs && (taken < jobs && !panicked ==> s.ended)
      ensures maxRetries <= 37 ==> !panicked
    {
      taken, panicked := 0, false;
      while taken < jobs
        invariant Sane(s) && Later(old(s), s) && taken <= jobs && !panicked
        invariant c.succeeded + c.dropped == old(c.succeeded) + old(c.dropped) + taken
      {
        Elsewhere();
        if s.ended {
          if * {
            return;
          }
        }
        var r := Process();
        taken := taken + 1;
        if r.Panicked? {
          return taken, true;
        }
      }
    }

    function MaxWait(): (w: int)
      ensures w == (if maxProxyWait > 0 then maxProxyWait else 120_000_000_000) > 0
    {
      if maxProxyWait <= 0 then DEFAULT_MAX_WAIT else maxProxyWait
    }
  }
}
