/** How long Close of the browser fetcher waits (internal/fetcher/playwright.go): once it has emptied the idle
    list every fetch frees its slot within a bounded number of its own steps, and the drain can be completed. */
module SessionProgress {
  import opened SessionPool
  import opened SessionProtocol
  import opened SessionSafety
  import opened SessionLaunch
  import opened SessionDrain

  /** How many steps a fetch can take at most before it is out, if no session is idle. */
  function Work(phase: Phase): nat {
    match phase
    case Out => 0
    case Leaving => 1
    case CreateFailed => 2
    case Retiring(_) => 2
    case Fetching(_) => 3
    case Creating(_, _, toClose) => 4 + |toClose|
    case Reusing(_, toClose) => 4 + |toClose|
    case Locked(_, _, _) => 5
    case Passed(_) => 6
    case Slotted(_) => 7
  }

  lemma AcquireClosesNothing(sh: Shared, key: string, poolSize: nat, w: World)
    requires sh.idle == []
    ensures Work(Granted(key, AcquireStep(sh, key, poolSize, w).grant)) <= 4
  {
  }

  /** Every step of a fetch but taking a slot brings it nearer to its end. */
  lemma FetchWorks(cfg: Config, p: Pool, closed: bool, phase: Phase, f: FetchStep)
    requires CanFetch(cfg, p, phase, f) && p.shared.idle == []
    ensures if f.TakeSlot? then AfterFetch(cfg, p, closed, phase, f).1 == Slotted(f.key)
            else Work(AfterFetch(cfg, p, closed, phase, f).1) < Work(phase)
  {
    if f.AcquireLocked? {
      AcquireClosesNothing(p.shared, phase.key, cfg.poolSize, WorldOf(p, phase.closed, phase.at, f.launchWorks));
    }
  }

  function TotalWork(ps: seq<Phase>): nat {
    if ps == [] then 0 else TotalWork(ps[..|ps| - 1]) + Work(ps[|ps| - 1])
  }

  lemma {:induction false} WorkAt(ps: seq<Phase>, t: nat, p: Phase)
    requires t < |ps|
    ensures TotalWork(ps[t := p]) == TotalWork(ps) - Work(ps[t]) + Work(p)
  {
    var n := |ps| - 1;
    if t == n {
      assert ps[t := p][..n] == ps[..n];
    } else {
      WorkAt(ps[..n], t, p);
      assert ps[t := p][..n] == ps[..n][t := p];
    }
  }

  /** The steps that can still be taken before Close holds every slot. */
  function DrainWork(cfg: Config, s: State): int {
    TotalWork(s.fetches) + cfg.poolSize - TakenByCloser(s.closer)
  }

  /** A fetch goes on, or Close takes a slot. */
  predicate Finishes(step: Step) {
    (step.InFetch? && !step.f.TakeSlot?) || step == InClose(DrainSlot)
  }

  predicate Takes(step: Step) {
    step.InFetch? && step.f.TakeSlot?
  }

  predicate Drains(s: State) {
    s.closer.Draining? && s.pool.shared.idle == []
  }

  lemma DrainStep(cfg: Config, s: State, step: Step)
    requires Drains(s) && Enabled(cfg, s, step) && step != InClose(DrainEnds)
    ensures Drains(Apply(cfg, s, step))
    ensures DrainWork(cfg, Apply(cfg, s, step)) <=
            DrainWork(cfg, s) + (if Takes(step) then 7 else if Finishes(step) then -1 else 0)
  {
    if step.InFetch? {
      FetchWorks(cfg, s.pool, true, s.fetches[step.t], step.f);
      FetchWhileClosed(cfg, s.pool, s.fetches[step.t], step.f);
      WorkAt(s.fetches, step.t, Apply(cfg, s, step).fetches[step.t]);
    }
  }

  function Finishing(steps: seq<Step>): nat {
    if steps == [] then 0 else (if Finishes(steps[0]) then 1 else 0) + Finishing(steps[1..])
  }

  function Taking(steps: seq<Step>): nat {
    if steps == [] then 0 else (if Takes(steps[0]) then 1 else 0) + Taking(steps[1..])
  }

  /** While Close drains, in any continuation, the steps that fetches and Close take are bounded by what was
      under way and by seven for each fetch that still takes a slot. */
  lemma {:induction false} DrainIsBounded(cfg: Config, s: State, steps: seq<Step>, n: State)
    requires Drains(s) && Continues(cfg, s, steps, n) && InClose(DrainEnds) !in steps
    ensures Drains(n) && Finishing(steps) + DrainWork(cfg, n) <= DrainWork(cfg, s) + 7 * Taking(steps)
    decreases |steps|
  {
    if steps != [] {
      DrainStep(cfg, s, steps[0]);
      assert forall x :: x in steps[1..] ==> x in steps;
      DrainIsBounded(cfg, Apply(cfg, s, steps[0]), steps[1..], n);
    }
  }

  /** As long as Close does not hold every slot a fetch can go on or Close can take a slot. */
  lemma DrainGoesOn(cfg: Config, s: State) returns (step: Step)
    requires SlotsInv(cfg, s) && LockInv(s) && s.closer.Draining? && !Drained(cfg, s)
    ensures Enabled(cfg, s, step) && Finishes(step)
  {
    if t: nat :| t < |s.fetches| && !s.fetches[t].Out? {
      CountsAt(s.fetches, t, Out);
      step := InFetch(t, NextOf(s.fetches[t]));
      if !Enabled(cfg, s, step) {
        var u :| 0 <= u < |s.fetches| && s.fetches[u].Locked?;
        step := InFetch(u, AcquireLocked(true));
      }
    } else {
      AllOutOccupyNone(s.fetches);
      step := InClose(DrainSlot);
    }
  }

  ghost predicate CanDrainFrom(cfg: Config, s: State) {
    exists steps, n :: Continues(cfg, s, steps, n) && Drained(cfg, n) && |steps| <= DrainWork(cfg, s)
  }

  /** From every state of the drain it can be completed by the fetches under way and Close alone, within the
      bound. */
  lemma {:induction false} DrainCompletes(cfg: Config, s: State)
    requires SlotsInv(cfg, s) && LockInv(s) && Drains(s)
    ensures CanDrainFrom(cfg, s)
    decreases DrainWork(cfg, s)
  {
    if Drained(cfg, s) {
      assert Continues(cfg, s, [], s);
    } else {
      var step := DrainGoesOn(cfg, s);
      var next := Apply(cfg, s, step);
      DrainStep(cfg, s, step);
      SlotsStep(cfg, s, step);
      LockStep(cfg, s, step);
      DrainCompletes(cfg, next);
      var steps, n :| Continues(cfg, next, steps, n) && Drained(cfg, n) && |steps| <= DrainWork(cfg, next);
      OneStepBefore(cfg, s, step, steps, n);
    }
  }

  lemma OneStepBefore(cfg: Config, s: State, step: Step, steps: seq<Step>, n: State)
    requires Enabled(cfg, s, step) && Continues(cfg, Apply(cfg, s, step), steps, n) && Drained(cfg, n)
    requires |steps| + 1 <= DrainWork(cfg, s)
    ensures CanDrainFrom(cfg, s)
  {
    assert ([step] + steps)[1..] == steps;
    assert Continues(cfg, s, [step] + steps, n);
  }

  /** In every reachable state in which Close drains: it can complete, and it has not only if some fetch or
      Close can go on. */
  lemma ReachableDrainCompletes(cfg: Config, fetches: nat, steps: seq<Step>, s: State)
    requires Reaches(cfg, fetches, steps, s) && s.closer.Draining?
    ensures CanDrainFrom(cfg, s)
    ensures Drained(cfg, s) || exists step :: Enabled(cfg, s, step) && Finishes(step)
  {
    CountsAlways(cfg, fetches, steps, s);
    EmptyAlways(cfg, fetches, steps, s);
    LockAlways(cfg, fetches, steps, s);
    DrainCompletes(cfg, s);
    if !Drained(cfg, s) {
      var step := DrainGoesOn(cfg, s);
    }
  }
}
