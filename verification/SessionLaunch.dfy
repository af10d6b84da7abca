/** When the browser fetcher launches a browser (internal/fetcher/playwright.go): under the mutex, one launch
    at a time, in step with the backoff, and none that is decided after Close was called. */
module SessionLaunch {
  import opened Commons
  import opened SessionPool
  import opened SessionProtocol

  // --------------------------------------------------------------- the mutex

  /** The mutex is held exactly by the fetch that is inside the locked section of acquire, if there is one. */
  ghost predicate LockInv(s: State) {
    && (s.pool.locked <==> exists t :: 0 <= t < |s.fetches| && s.fetches[t].Locked?)
    && (forall t, u :: 0 <= t < u < |s.fetches| && s.fetches[t].Locked? ==> !s.fetches[u].Locked?)
    && (forall t :: 0 <= t < |s.fetches| && s.fetches[t].Locked? ==> s.fetches[t].at <= s.pool.now)
  }

  /** What a step of a fetch does to the mutex, the clock and the launches. */
  lemma FetchLocks(cfg: Config, p: Pool, closed: bool, phase: Phase, f: FetchStep)
    requires CanFetch(cfg, p, phase, f)
    ensures var r := AfterFetch(cfg, p, closed, phase, f);
            && r.0.now == p.now
            && (if f.Lock? then !p.locked && r.0.locked && r.1 == Locked(phase.key, closed, p.now)
                else
                  && !r.1.Locked?
                  && (if f.AcquireLocked? then !r.0.locked else r.0.locked == p.locked && !phase.Locked?))
  {
  }

  lemma LockStep(cfg: Config, s: State, step: Step)
    requires LockInv(s) && Enabled(cfg, s, step)
    ensures LockInv(Apply(cfg, s, step))
  {
    if step.InFetch? {
      var n := Apply(cfg, s, step);
      FetchLocks(cfg, s.pool, IsClosed(s), s.fetches[step.t], step.f);
      if step.f.Lock? {
        assert n.fetches[step.t].Locked?;
      } else if !step.f.AcquireLocked? && s.pool.locked {
        var t :| 0 <= t < |s.fetches| && s.fetches[t].Locked?;
        assert n.fetches[t].Locked?;
      }
    }
  }

  lemma {:induction false} LockAlways(cfg: Config, fetches: nat, steps: seq<Step>, s: State)
    requires Reaches(cfg, fetches, steps, s)
    ensures LockInv(s)
    decreases |steps|
  {
    if steps != [] {
      var p := LastStep(cfg, fetches, steps, s);
      LockAlways(cfg, fetches, steps[..|steps| - 1], p);
      LockStep(cfg, p, steps[|steps| - 1]);
    }
  }

  /** While a fetch is inside the locked section of acquire no step but the end of that section touches what the mutex
      guards, whatever the other fetches, Close and the world do. */
  lemma MutexGuards(cfg: Config, fetches: nat, steps: seq<Step>, s: State, t: nat, step: Step)
    requires Reaches(cfg, fetches, steps, s) && t < |s.fetches| && s.fetches[t].Locked? && Enabled(cfg, s, step)
    requires step.InFetch? ==> step.t != t
    ensures Apply(cfg, s, step).pool.shared == s.pool.shared && Apply(cfg, s, step).fetches[t] == s.fetches[t]
  {
    LockAlways(cfg, fetches, steps, s);
    if step.InFetch? {
      UnlockedFetchLeavesAlone(cfg, s.pool, IsClosed(s), s.fetches[step.t], step.f);
    }
  }

  lemma UnlockedFetchLeavesAlone(cfg: Config, p: Pool, closed: bool, phase: Phase, f: FetchStep)
    requires CanFetch(cfg, p, phase, f) && p.locked && !phase.Locked?
    ensures AfterFetch(cfg, p, closed, phase, f).0.shared == p.shared
  {
  }

  // ---------------------------------------------------------- one browser

  /** browserLocked launches only for a fetcher that is open, when no browser is connected and the wait
      after the last failures is over. */
  lemma LaunchesOnlyWhenAllowed(sh: Shared, w: World)
    ensures Launches(sh, w) ==> !w.closed && w.now >= sh.nextLaunch && w.launch.Some?
    ensures Launches(sh, w) ==> !(sh.browser.Some? && sh.browser.value in w.alive)
    ensures BrowserStep(sh, w).result.LaunchFailed? ==>
              && !w.closed && w.now >= sh.nextLaunch
              && BrowserStep(sh, w).shared.nextLaunch > w.after
              && BrowserStep(sh, w).shared.launchFailures == sh.launchFailures + 1
  {
  }

  /** No browser but the current one is connected. */
  ghost predicate OneBrowser(p: Pool) {
    forall b :: b in p.alive ==> p.shared.browser == Some(b)
  }

  lemma FetchKeepsOneBrowser(cfg: Config, p: Pool, closed: bool, phase: Phase, f: FetchStep)
    requires CanFetch(cfg, p, phase, f) && OneBrowser(p)
    ensures OneBrowser(AfterFetch(cfg, p, closed, phase, f).0)
  {
    if f.AcquireLocked? {
      var w := WorldOf(p, phase.closed, phase.at, f.launchWorks);
      LaunchesOnlyWhenAllowed(p.shared, w);
      CurrentAfterAcquire(p.shared, phase.key, cfg.poolSize, w);
    }
  }

  lemma CurrentAfterAcquire(sh: Shared, key: string, poolSize: nat, w: World)
    ensures AcquireStep(sh, key, poolSize, w).shared.browser == if Launches(sh, w) then w.launch else sh.browser
  {
  }

  /** In every reachable state at most one browser is connected, the one that sessions are opened in. */
  lemma {:induction false} OneBrowserAlways(cfg: Config, fetches: nat, steps: seq<Step>, s: State)
    requires Reaches(cfg, fetches, steps, s)
    ensures OneBrowser(s.pool)
    decreases |steps|
  {
    if steps != [] {
      var p := LastStep(cfg, fetches, steps, s);
      var last := steps[|steps| - 1];
      OneBrowserAlways(cfg, fetches, steps[..|steps| - 1], p);
      if last.InFetch? {
        FetchKeepsOneBrowser(cfg, p.pool, IsClosed(p), p.fetches[last.t], last.f);
      }
    }
  }

  // ------------------------------------------------------------ after Close

  /** A fetch is inside the locked section that it entered before Close was called. */
  ghost predicate LockedOpen(s: State) {
    exists t :: 0 <= t < |s.fetches| && s.fetches[t].Locked? && !s.fetches[t].closed
  }

  /** The launches so far, and the one that may still be under way. */
  ghost function LaunchesAtMost(s: State): nat {
    s.pool.launched + if LockedOpen(s) then 1 else 0
  }

  lemma FetchLaunches(cfg: Config, p: Pool, closed: bool, phase: Phase, f: FetchStep)
    requires CanFetch(cfg, p, phase, f)
    ensures AfterFetch(cfg, p, closed, phase, f).0.launched ==
            if f.AcquireLocked? && Launches(p.shared, WorldOf(p, phase.closed, phase.at, f.launchWorks))
            then p.launched + 1 else p.launched
  {
  }

  /** Once Close has been called no step brings a launch, except the end of the section that a fetch entered
      before. */
  lemma LaunchStep(cfg: Config, s: State, step: Step)
    requires LockInv(s) && IsClosed(s) && Enabled(cfg, s, step)
    ensures IsClosed(Apply(cfg, s, step)) && LaunchesAtMost(Apply(cfg, s, step)) <= LaunchesAtMost(s)
    ensures !LockedOpen(s) ==> !LockedOpen(Apply(cfg, s, step))
  {
    if step.InFetch? {
      var n, t := Apply(cfg, s, step), step.t;
      FetchLocks(cfg, s.pool, true, s.fetches[t], step.f);
      FetchLaunches(cfg, s.pool, true, s.fetches[t], step.f);
      if LockedOpen(n) {
        var u :| 0 <= u < |n.fetches| && n.fetches[u].Locked? && !n.fetches[u].closed;
        assert u != t && s.fetches[u] == n.fetches[u];
        assert LockedOpen(s);
      }
    }
  }

  /** After Close was called at most one more browser is launched, in any continuation, and none if no fetch
      was inside the locked section: no launch is decided any more. Reachable states satisfy LockInv. */
  lemma {:induction false} NoLaunchDecidedOnceClosed(cfg: Config, s: State, steps: seq<Step>, n: State)
    requires LockInv(s) && IsClosed(s) && Continues(cfg, s, steps, n)
    ensures n.pool.launched <= LaunchesAtMost(n) <= LaunchesAtMost(s) <= s.pool.launched + 1
    ensures !LockedOpen(s) ==> !LockedOpen(n) && n.pool.launched <= s.pool.launched
    decreases |steps|
  {
    if steps != [] {
      LaunchStep(cfg, s, steps[0]);
      LockStep(cfg, s, steps[0]);
      NoLaunchDecidedOnceClosed(cfg, Apply(cfg, s, steps[0]), steps[1..], n);
    }
  }

  predicate Emptied(c: Closer) {
    !c.NotCalled? && !c.Announced?
  }

  /** In every reachable state in which Close has had the mutex, no launch is under way that it did not wait
      for. */
  lemma {:induction false} CloseWaitsForLaunch(cfg: Config, fetches: nat, steps: seq<Step>, s: State)
    requires Reaches(cfg, fetches, steps, s)
    ensures Emptied(s.closer) ==> !LockedOpen(s)
    decreases |steps|
  {
    if steps != [] {
      var p := LastStep(cfg, fetches, steps, s);
      CloseWaitsForLaunch(cfg, fetches, steps[..|steps| - 1], p);
      LockAlways(cfg, fetches, steps[..|steps| - 1], p);
      if IsClosed(p) {
        LaunchStep(cfg, p, steps[|steps| - 1]);
      }
    }
  }

  /** So from the moment Close has emptied the idle list no browser is launched any more. */
  lemma NoLaunchOnceEmptied(cfg: Config, fetches: nat, steps: seq<Step>, s: State, more: seq<Step>, n: State)
    requires Reaches(cfg, fetches, steps, s) && Emptied(s.closer) && Continues(cfg, s, more, n)
    ensures n.pool.launched == s.pool.launched
  {
    LockAlways(cfg, fetches, steps, s);
    CloseWaitsForLaunch(cfg, fetches, steps, s);
    NoLaunchDecidedOnceClosed(cfg, s, more, n);
    LaunchesOnlyGrow(cfg, s, more, n);
  }

  lemma {:induction false} LaunchesOnlyGrow(cfg: Config, s: State, steps: seq<Step>, n: State)
    requires Continues(cfg, s, steps, n)
    ensures n.pool.launched >= s.pool.launched
    decreases |steps|
  {
    if steps != [] {
      if steps[0].InFetch? {
        FetchLaunches(cfg, s.pool, IsClosed(s), s.fetches[steps[0].t], steps[0].f);
      }
      LaunchesOnlyGrow(cfg, Apply(cfg, s, steps[0]), steps[1..], n);
    }
  }

  // -------------------------------------------------------------- backoff

  /** A step that ends an attempt to launch a browser. */
  predicate TriesLaunch(s: State, step: Step) {
    && step.InFetch? && step.f.AcquireLocked? && step.t < |s.fetches| && s.fetches[step.t].Locked?
    && var phase := s.fetches[step.t];
       var w := WorldOf(s.pool, phase.closed, phase.at, step.f.launchWorks);
       BrowserStep(s.pool.shared, w).result.LaunchFailed? || Launches(s.pool.shared, w)
  }

  /** A fetch attempts a launch if and only if no browser is connected, it saw the fetcher open, and the wait was
      over by then; whether the launch works is up to the world. */
  lemma TriesIffDue(cfg: Config, s: State, t: nat, works: bool)
    requires Enabled(cfg, s, InFetch(t, AcquireLocked(works)))
    ensures TriesLaunch(s, InFetch(t, AcquireLocked(works))) <==>
              && !(s.pool.shared.browser.Some? && s.pool.shared.browser.value in s.pool.alive)
              && !s.fetches[t].closed && s.fetches[t].at >= s.pool.shared.nextLaunch
    ensures var n := Apply(cfg, s, InFetch(t, AcquireLocked(works)));
            n.pool.launched > s.pool.launched <==> works && TriesLaunch(s, InFetch(t, AcquireLocked(works)))
  {
  }

  lemma BrowserFieldsOfAcquire(sh: Shared, key: string, poolSize: nat, w: World)
    ensures var a, l := AcquireStep(sh, key, poolSize, w).shared, BrowserStep(sh, w).shared;
            a.nextLaunch == l.nextLaunch && a.launchFailures == l.launchFailures
  {
  }

  /** Only an attempt moves the time of the next one, and none is made before it. */
  lemma BackoffStep(cfg: Config, s: State, step: Step)
    requires Enabled(cfg, s, step)
    ensures Apply(cfg, s, step).pool.now >= s.pool.now
    ensures if TriesLaunch(s, step) then s.fetches[step.t].at >= s.pool.shared.nextLaunch
            else Apply(cfg, s, step).pool.shared.nextLaunch == s.pool.shared.nextLaunch
  {
    if step.InFetch? && step.f.AcquireLocked? {
      var phase := s.fetches[step.t];
      var w := WorldOf(s.pool, phase.closed, phase.at, step.f.launchWorks);
      BrowserFieldsOfAcquire(s.pool.shared, phase.key, cfg.poolSize, w);
    }
  }

  /** An attempt now or later begins at `time` or later. */
  ghost predicate WaitsUntil(s: State, time: int) {
    || s.pool.shared.nextLaunch >= time
    || (s.pool.now >= time && forall t :: 0 <= t < |s.fetches| && s.fetches[t].Locked? ==> s.fetches[t].at >= time)
  }

  lemma WaitStep(cfg: Config, s: State, step: Step, time: int)
    requires LockInv(s) && WaitsUntil(s, time) && Enabled(cfg, s, step)
    ensures WaitsUntil(Apply(cfg, s, step), time)
    ensures TriesLaunch(s, step) ==> s.fetches[step.t].at >= time
  {
    BackoffStep(cfg, s, step);
    if step.InFetch? {
      FetchLocks(cfg, s.pool, IsClosed(s), s.fetches[step.t], step.f);
    }
  }

  lemma {:induction false} WaitRun(cfg: Config, s: State, steps: seq<Step>, n: State, time: int)
    requires LockInv(s) && WaitsUntil(s, time) && Continues(cfg, s, steps, n)
    ensures LockInv(n) && WaitsUntil(n, time)
    decreases |steps|
  {
    if steps != [] {
      LockStep(cfg, s, steps[0]);
      WaitStep(cfg, s, steps[0], time);
      WaitRun(cfg, Apply(cfg, s, steps[0]), steps[1..], n, time);
    }
  }

  /** After the k-th failed launch in a row no launch is begun, in any continuation, before the k-th wait is
      over. */
  lemma BackoffIsKept(
    cfg: Config, fetches: nat, run: seq<Step>, s: State, failed: Step, steps: seq<Step>, n: State, next: Step)
    requires Reaches(cfg, fetches, run, s) && Enabled(cfg, s, failed) && TriesLaunch(s, failed) && !failed.f.launchWorks
    requires Continues(cfg, Apply(cfg, s, failed), steps, n) && TriesLaunch(n, next)
    ensures var k := Apply(cfg, s, failed).pool.shared.launchFailures;
            && k == s.pool.shared.launchFailures + 1
            && n.fetches[next.t].at >= s.pool.now + Backoff(k)
  {
    LockAlways(cfg, fetches, run, s);
    var phase := s.fetches[failed.t];
    BrowserFieldsOfAcquire(s.pool.shared, phase.key, cfg.poolSize, WorldOf(s.pool, phase.closed, phase.at, false));
    var time := s.pool.now + Backoff(s.pool.shared.launchFailures + 1);
    LockStep(cfg, s, failed);
    WaitRun(cfg, Apply(cfg, s, failed), steps, n, time);
    WaitStep(cfg, n, next, time);
  }

  /** The failed launches since the last that worked, after `steps` and `k` before them. */
  ghost function InARow(cfg: Config, s: State, steps: seq<Step>, n: State, k: int): int
    requires Continues(cfg, s, steps, n)
    decreases |steps|
  {
    if steps == [] then k
    else
      var j := if !TriesLaunch(s, steps[0]) then k else if steps[0].f.launchWorks then 0 else k + 1;
      InARow(cfg, Apply(cfg, s, steps[0]), steps[1..], n, j)
  }

  lemma FailuresStep(cfg: Config, s: State, step: Step)
    requires Enabled(cfg, s, step)
    ensures Apply(cfg, s, step).pool.shared.launchFailures ==
            if !TriesLaunch(s, step) then s.pool.shared.launchFailures
            else if step.f.launchWorks then 0 else s.pool.shared.launchFailures + 1
  {
    if step.InFetch? && step.f.AcquireLocked? {
      var phase := s.fetches[step.t];
      var w := WorldOf(s.pool, phase.closed, phase.at, step.f.launchWorks);
      BrowserFieldsOfAcquire(s.pool.shared, phase.key, cfg.poolSize, w);
    }
  }

  /** What the backoff counts are the failed launches in a row, from the start of the fetcher. */
  lemma FailuresAreInARow(cfg: Config, fetches: nat, steps: seq<Step>, n: State)
    requires Continues(cfg, Init(fetches), steps, n)
    ensures n.pool.shared.launchFailures == InARow(cfg, Init(fetches), steps, n, 0)
  {
    FailuresOfRun(cfg, Init(fetches), steps, n);
  }

  lemma {:induction false} FailuresOfRun(cfg: Config, s: State, steps: seq<Step>, n: State)
    requires Continues(cfg, s, steps, n)
    ensures n.pool.shared.launchFailures == InARow(cfg, s, steps, n, s.pool.shared.launchFailures)
    decreases |steps|
  {
    if steps != [] {
      FailuresStep(cfg, s, steps[0]);
      FailuresOfRun(cfg, Apply(cfg, s, steps[0]), steps[1..], n);
    }
  }

  /** The wait doubles from one second and stops at thirty. */
  lemma BackoffDoubles(failures: nat)
    requires failures >= 1
    ensures Backoff(failures) == if Pow2(failures - 1) > 30 then 30 else Pow2(failures - 1)
    ensures 1 <= Backoff(failures) <= Backoff(failures + 1) <= 30
  {
    assert Pow2(5) == 32;
    if failures >= 6 {
      PowersGrow(5, failures - 1);
    }
  }
}
