/** What Close of the browser fetcher brings about (internal/fetcher/playwright.go), whatever fetches run
    beside it. */
module SessionDrain {
  import opened SessionPool
  import opened SessionProtocol
  import opened SessionSafety
  import opened SessionLaunch

  // ------------------------------------------------------------- closing

  ghost predicate EmptyInv(s: State) {
    Emptied(s.closer) ==> s.pool.shared.idle == []
  }

  /** Once the fetcher is closed no step of a fetch fills the idle list. */
  lemma FetchWhileClosed(cfg: Config, p: Pool, phase: Phase, f: FetchStep)
    requires CanFetch(cfg, p, phase, f)
    ensures p.shared.idle == [] ==> AfterFetch(cfg, p, true, phase, f).0.shared.idle == []
  {
    if f.AcquireLocked? && p.shared.idle == [] {
      AcquireFromEmpty(p.shared, phase.key, cfg.poolSize, WorldOf(p, phase.closed, phase.at, f.launchWorks));
    }
  }

  lemma AcquireFromEmpty(sh: Shared, key: string, poolSize: nat, w: World)
    requires sh.idle == []
    ensures AcquireStep(sh, key, poolSize, w).shared.idle == []
  {
  }

  lemma EmptyStays(cfg: Config, s: State, step: Step)
    requires EmptyInv(s) && Enabled(cfg, s, step)
    ensures EmptyInv(Apply(cfg, s, step))
  {
    if step.InFetch? && IsClosed(s) {
      FetchWhileClosed(cfg, s.pool, s.fetches[step.t], step.f);
    }
  }

  /** In every reachable state: Close has left the idle list empty, and it stays empty. */
  lemma {:induction false} EmptyAlways(cfg: Config, fetches: nat, steps: seq<Step>, s: State)
    requires Reaches(cfg, fetches, steps, s)
    ensures EmptyInv(s)
    decreases |steps|
  {
    if steps != [] {
      var p := LastStep(cfg, fetches, steps, s);
      EmptyAlways(cfg, fetches, steps[..|steps| - 1], p);
      EmptyStays(cfg, p, steps[|steps| - 1]);
    }
  }

  /** Whether the fetch has seen the fetcher open and may still begin to work with a session. */
  function MayBegin(phase: Phase): nat {
    if phase.Passed? || phase.Locked? || phase.Creating? || phase.Reusing? then 1 else 0
  }

  function MayBeginOf(ps: seq<Phase>): nat {
    if ps == [] then 0 else MayBeginOf(ps[..|ps| - 1]) + MayBegin(ps[|ps| - 1])
  }

  lemma {:induction false} MayBeginAt(ps: seq<Phase>, t: nat, p: Phase)
    requires t < |ps|
    ensures MayBeginOf(ps[t := p]) == MayBeginOf(ps) - MayBegin(ps[t]) + MayBegin(p)
  {
    var n := |ps| - 1;
    if t == n {
      assert ps[t := p][..n] == ps[..n];
    } else {
      MayBeginAt(ps[..n], t, p);
      assert ps[t := p][..n] == ps[..n][t := p];
    }
  }

  lemma FetchWhileClosedBegins(cfg: Config, p: Pool, phase: Phase, f: FetchStep)
    requires CanFetch(cfg, p, phase, f)
    ensures var r := AfterFetch(cfg, p, true, phase, f);
            |r.0.served| + MayBegin(r.1) <= |p.served| + MayBegin(phase)
  {
  }

  lemma BeginsStep(cfg: Config, s: State, step: Step)
    requires IsClosed(s) && Enabled(cfg, s, step)
    ensures var n := Apply(cfg, s, step);
            IsClosed(n) && |n.pool.served| + MayBeginOf(n.fetches) <= |s.pool.served| + MayBeginOf(s.fetches)
  {
    if step.InFetch? {
      FetchWhileClosedBegins(cfg, s.pool, s.fetches[step.t], step.f);
      MayBeginAt(s.fetches, step.t, AfterFetch(cfg, s.pool, true, s.fetches[step.t], step.f).1);
    }
  }

  /** After Close was called, in every continuation, no more fetches begin to work with a session, new or reused, than
      had seen the fetcher open by then. */
  lemma {:induction false} OnlySeenOpenBegin(cfg: Config, s: State, steps: seq<Step>, n: State)
    requires IsClosed(s) && Continues(cfg, s, steps, n)
    ensures |n.pool.served| <= |s.pool.served| + MayBeginOf(s.fetches) - MayBeginOf(n.fetches)
    decreases |steps|
  {
    if steps != [] {
      BeginsStep(cfg, s, steps[0]);
      OnlySeenOpenBegin(cfg, Apply(cfg, s, steps[0]), steps[1..], n);
    }
  }

  // ------------------------------------------------------------- drained

  /** Close has taken every slot. */
  predicate Drained(cfg: Config, s: State) {
    TakenByCloser(s.closer) == cfg.poolSize
  }

  /** When Close has taken every slot, no fetch is under way, no session is idle, reserved or open, and
      every session ever created has been closed and counted off exactly once. */
  lemma DrainedIsEmpty(cfg: Config, fetches: nat, steps: seq<Step>, s: State)
    requires cfg.poolSize >= 1 && Reaches(cfg, fetches, steps, s) && Drained(cfg, s)
    ensures forall t :: 0 <= t < |s.fetches| ==> s.fetches[t] == Out
    ensures s.pool.shared.idle == [] && s.pool.shared.open == 0
    ensures forall id: nat :: s.pool.retired[id] == if id < s.pool.created then 1 else 0
    ensures s.pool.gauge == 0
  {
    CountsAlways(cfg, fetches, steps, s);
    EmptyAlways(cfg, fetches, steps, s);
    assert Occupied(s.fetches) == 0;
    NoneOccupied(s.fetches, 0);
    forall id: nat
      ensures s.pool.retired[id] == if id < s.pool.created then 1 else 0
    {
      PlacesAlways(cfg, fetches, steps, s, id);
      NoneOccupied(s.fetches, id);
    }
    PlacesAlways(cfg, fetches, steps, s, 0);
    EachAtMostOnce(s.pool.retired, s.pool.created);
  }

  ghost predicate Quiet(cfg: Config, s: State) {
    && s.pool.slots == cfg.poolSize && Drained(cfg, s)
    && forall t :: 0 <= t < |s.fetches| ==> s.fetches[t] == Out
  }

  lemma {:induction false} QuietRun(cfg: Config, s: State, steps: seq<Step>, n: State)
    requires cfg.poolSize >= 1 && Quiet(cfg, s) && Continues(cfg, s, steps, n)
    ensures Quiet(cfg, n) && n.pool.shared == s.pool.shared && n.pool.gauge == s.pool.gauge
    ensures n.pool.created == s.pool.created && n.pool.launched == s.pool.launched
    decreases |steps|
  {
    if steps != [] {
      QuietRun(cfg, Apply(cfg, s, steps[0]), steps[1..], n);
    }
  }

  /** From then on, in every continuation, nothing is opened and no browser launched. */
  lemma DrainedForGood(cfg: Config, fetches: nat, steps: seq<Step>, s: State, more: seq<Step>, n: State)
    requires cfg.poolSize >= 1 && Reaches(cfg, fetches, steps, s) && Drained(cfg, s)
    requires Continues(cfg, s, more, n)
    ensures n.pool.created == s.pool.created && n.pool.launched == s.pool.launched
    ensures n.pool.shared.idle == [] && n.pool.shared.open == 0 && n.pool.gauge == 0
    ensures forall t :: 0 <= t < |n.fetches| ==> n.fetches[t] == Out
  {
    DrainedIsEmpty(cfg, fetches, steps, s);
    CountsAlways(cfg, fetches, steps, s);
    QuietRun(cfg, s, more, n);
  }

  // ------------------------------------------------------------ progress

  /** The step a fetch takes next when all it asks for works. */
  function NextOf(phase: Phase): FetchStep
    requires !phase.Out?
  {
    match phase
    case Slotted(_) => CheckClosed
    case Passed(_) => Lock
    case Locked(_, _, _) => AcquireLocked(true)
    case Creating(_, _, toClose) => if toClose == [] then NewSession(true) else CloseOne
    case CreateFailed => Unreserve
    case Reusing(_, toClose) => if toClose == [] then StartFetch else CloseOne
    case Fetching(_) => ReleaseLocked(true)
    case Retiring(_) => CloseOwn
    case Leaving => FreeSlot
  }

  /** A fetch that has a slot can take its next step, or waits for the mutex, which some fetch has that can
      take its own. */
  lemma NoFetchIsStuck(cfg: Config, fetches: nat, steps: seq<Step>, s: State, t: nat)
    requires Reaches(cfg, fetches, steps, s) && t < |s.fetches| && !s.fetches[t].Out?
    ensures || Enabled(cfg, s, InFetch(t, NextOf(s.fetches[t])))
            || exists u :: 0 <= u < |s.fetches| && s.fetches[u].Locked?
                           && Enabled(cfg, s, InFetch(u, AcquireLocked(true)))
  {
    CountsAlways(cfg, fetches, steps, s);
    CountsAt(s.fetches, t, Out);
    LockAlways(cfg, fetches, steps, s);
    if !s.pool.locked {
      NextWaitsForMutexOnly(cfg, s.pool, s.fetches[t]);
    } else {
      var u :| 0 <= u < |s.fetches| && s.fetches[u].Locked?;
      assert Enabled(cfg, s, InFetch(u, AcquireLocked(true)));
    }
  }

  lemma NextWaitsForMutexOnly(cfg: Config, p: Pool, phase: Phase)
    requires !phase.Out? && p.slots > 0 && !p.locked
    ensures CanFetch(cfg, p, phase, NextOf(phase))
  {
  }

  /** While Close drains it can take the slots it lacks as soon as no fetch has one. */
  lemma CloseCanDrain(cfg: Config, fetches: nat, steps: seq<Step>, s: State)
    requires Reaches(cfg, fetches, steps, s) && s.closer.Draining? && s.closer.taken < cfg.poolSize
    requires forall t :: 0 <= t < |s.fetches| ==> s.fetches[t].Out?
    ensures Enabled(cfg, s, InClose(DrainSlot))
  {
    CountsAlways(cfg, fetches, steps, s);
    AllOutOccupyNone(s.fetches);
  }

  lemma {:induction false} AllOutOccupyNone(ps: seq<Phase>)
    requires forall t :: 0 <= t < |ps| ==> ps[t].Out?
    ensures Occupied(ps) == 0
  {
    if ps != [] {
      AllOutOccupyNone(ps[..|ps| - 1]);
    }
  }
}
