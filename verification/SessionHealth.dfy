/** Which sessions serve on (internal/fetcher/playwright.go): none through which a fetch has failed, and each for one
    key only; and exactly when release keeps one. */
module SessionHealth {
  import opened Commons
  import opened SessionPool
  import opened SessionProtocol
  import opened SessionSafety
  import opened SessionReuse

  /** No fetch has failed through the session, and it has been given to one that asked for its key. */
  ghost predicate Good(p: Pool, u: Session) {
    u.id !in p.failed && (u.id, u.key) in p.asked
  }

  /** The session that a fetch is to work with or works with. */
  function Serving(phase: Phase): Option<Session> {
    match phase
    case Reusing(u, _) => Some(u)
    case Fetching(u) => Some(u)
    case _ => None
  }

  ghost predicate GoodPhase(p: Pool, phase: Phase) {
    Serving(phase).Some? ==> Good(p, Serving(phase).value)
  }

  ghost predicate GoodIdle(p: Pool) {
    forall u :: u in p.shared.idle ==> Good(p, u)
  }

  /** The logs name sessions that there are, and each with one key. */
  ghost predicate OneKeyEach(p: Pool) {
    && (forall id, k :: (id, k) in p.asked ==> id < p.created)
    && (forall id, j, k :: (id, j) in p.asked && (id, k) in p.asked ==> j == k)
    && (forall id :: id in p.failed ==> id < p.created)
  }

  ghost predicate HealthInv(s: State) {
    && OneKeyEach(s.pool) && GoodIdle(s.pool)
    && forall t :: 0 <= t < |s.fetches| ==> GoodPhase(s.pool, s.fetches[t])
  }

  // ------------------------------------------------------ one fetch alone

  ghost predicate LocalHealth(cfg: Config, p: Pool, phase: Phase) {
    && LocalInv(cfg, p, phase) && OneKeyEach(p) && GoodIdle(p) && GoodPhase(p, phase)
  }

  /** What a step of a fetch leaves good, a session of another fetch among it. */
  ghost predicate KeepsHealth(cfg: Config, p: Pool, closed: bool, phase: Phase, f: FetchStep)
    requires CanFetch(cfg, p, phase, f)
  {
    var r := AfterFetch(cfg, p, closed, phase, f);
    && OneKeyEach(r.0) && GoodIdle(r.0) && GoodPhase(r.0, r.1)
    && forall u :: Good(p, u) && Carries(phase, u.id) == 0 ==> Good(r.0, u)
  }

  /** Where the logs do not change, what was good stays good. */
  lemma SameLogs(p: Pool, phase: Phase, q: Pool, next: Phase)
    requires OneKeyEach(p) && GoodIdle(p) && GoodPhase(p, phase)
    requires q.asked == p.asked && q.failed == p.failed && q.created == p.created
    requires forall u :: u in q.shared.idle ==> u in p.shared.idle
    requires Serving(next).Some? ==> Serving(next) == Serving(phase) || Serving(next).value in p.shared.idle
    ensures OneKeyEach(q) && GoodIdle(q) && GoodPhase(q, next)
    ensures forall u :: Good(p, u) ==> Good(q, u)
  {
  }

  lemma GrantedIsIdle(cfg: Config, p: Pool, key: string, w: World)
    requires IdleInv(cfg, p)
    ensures var a := AcquireStep(p.shared, key, cfg.poolSize, w);
            && (forall u :: u in a.shared.idle ==> u in p.shared.idle)
            && (a.grant.Reuse? ==> a.grant.session in p.shared.idle && a.grant.session.key == key)
  {
    AcquireKeepsIdle(cfg, p, key, w);
    AcquireReuses(cfg, p, key, w);
  }

  lemma AlreadyAsked(p: Pool, key: string, g: Grant)
    requires GoodIdle(p) && (g.Reuse? ==> g.session in p.shared.idle && g.session.key == key)
    ensures p.asked + Given(key, g) == p.asked
  {
  }

  function AcquiredPool(p: Pool, phase: Phase, a: Acquired, w: World): Pool
    requires phase.Locked?
  {
    Grants(p, a, Launches(p.shared, w)).(asked := p.asked + Given(phase.key, a.grant))
  }

  lemma AcquireHealth(cfg: Config, p: Pool, closed: bool, phase: Phase, works: bool)
    requires CanFetch(cfg, p, phase, AcquireLocked(works)) && LocalHealth(cfg, p, phase)
    ensures KeepsHealth(cfg, p, closed, phase, AcquireLocked(works))
  {
    var w := WorldOf(p, phase.closed, phase.at, works);
    var a := AcquireStep(p.shared, phase.key, cfg.poolSize, w);
    GrantedIsIdle(cfg, p, phase.key, w);
    AlreadyAsked(p, phase.key, a.grant);
    SameLogs(p, phase, AcquiredPool(p, phase, a, w), Granted(phase.key, a.grant));
  }

  lemma NewSessionHealth(cfg: Config, p: Pool, closed: bool, phase: Phase, works: bool)
    requires CanFetch(cfg, p, phase, NewSession(works)) && LocalHealth(cfg, p, phase)
    ensures KeepsHealth(cfg, p, closed, phase, NewSession(works))
  {
  }

  lemma ReleaseHealth(cfg: Config, p: Pool, closed: bool, phase: Phase, healthy: bool)
    requires CanFetch(cfg, p, phase, ReleaseLocked(healthy)) && LocalHealth(cfg, p, phase)
    ensures KeepsHealth(cfg, p, closed, phase, ReleaseLocked(healthy))
  {
    var r := AfterFetch(cfg, p, closed, phase, ReleaseLocked(healthy));
    assert Carries(phase, phase.session.id) == 1;
    forall u | u in r.0.shared.idle
      ensures Good(r.0, u)
    {
      assert u in p.shared.idle ==> Good(p, u) && u.id != phase.session.id;
    }
  }

  lemma OtherHealth(cfg: Config, p: Pool, closed: bool, phase: Phase, f: FetchStep)
    requires CanFetch(cfg, p, phase, f) && LocalHealth(cfg, p, phase)
    requires !f.AcquireLocked? && !f.NewSession? && !f.ReleaseLocked?
    ensures KeepsHealth(cfg, p, closed, phase, f)
  {
    var r := AfterFetch(cfg, p, closed, phase, f);
    SameLogs(p, phase, r.0, r.1);
  }

  lemma FetchHealth(cfg: Config, p: Pool, closed: bool, phase: Phase, f: FetchStep)
    requires CanFetch(cfg, p, phase, f) && LocalHealth(cfg, p, phase)
    ensures KeepsHealth(cfg, p, closed, phase, f)
  {
    match f
    case AcquireLocked(works) => AcquireHealth(cfg, p, closed, phase, works);
    case NewSession(works) => NewSessionHealth(cfg, p, closed, phase, works);
    case ReleaseLocked(healthy) => ReleaseHealth(cfg, p, closed, phase, healthy);
    case _ => OtherHealth(cfg, p, closed, phase, f);
  }

  // ---------------------------------------------------------- all fetches

  lemma OthersStayGood(cfg: Config, s: State, t: nat, f: FetchStep, j: nat)
    requires PlacesInv(s) && HealthInv(s) && Enabled(cfg, s, InFetch(t, f)) && j < |s.fetches| && j != t
    requires KeepsHealth(cfg, s.pool, IsClosed(s), s.fetches[t], f)
    ensures GoodPhase(Apply(cfg, s, InFetch(t, f)).pool, s.fetches[j])
  {
    assert GoodPhase(s.pool, s.fetches[j]);
    if Serving(s.fetches[j]).Some? {
      OwnAlone(s, j, Serving(s.fetches[j]).value);
    }
  }

  lemma HealthInFetch(cfg: Config, s: State, t: nat, f: FetchStep)
    requires cfg.maxUses >= 1 && PlacesInv(s) && UsesInv(cfg, s) && HealthInv(s) && Enabled(cfg, s, InFetch(t, f))
    ensures HealthInv(Apply(cfg, s, InFetch(t, f)))
  {
    LocalFromGlobal(cfg, s, t);
    FetchHealth(cfg, s.pool, IsClosed(s), s.fetches[t], f);
    var n := Apply(cfg, s, InFetch(t, f));
    forall j | 0 <= j < |n.fetches|
      ensures GoodPhase(n.pool, n.fetches[j])
    {
      if j != t {
        OthersStayGood(cfg, s, t, f, j);
      }
    }
  }

  lemma HealthStays(s: State, n: State)
    requires HealthInv(s) && n.fetches == s.fetches
    requires n.pool.asked == s.pool.asked && n.pool.failed == s.pool.failed && n.pool.created == s.pool.created
    requires n.pool.shared.idle == s.pool.shared.idle || n.pool.shared.idle == []
    ensures HealthInv(n)
  {
    forall t | 0 <= t < |n.fetches|
      ensures GoodPhase(n.pool, n.fetches[t])
    {
      assert GoodPhase(s.pool, s.fetches[t]);
    }
  }

  lemma HealthStep(cfg: Config, s: State, step: Step)
    requires cfg.maxUses >= 1 && PlacesInv(s) && UsesInv(cfg, s) && HealthInv(s) && Enabled(cfg, s, step)
    ensures HealthInv(Apply(cfg, s, step))
  {
    if step.InFetch? {
      HealthInFetch(cfg, s, step.t, step.f);
    } else {
      HealthStays(s, Apply(cfg, s, step));
    }
  }

  lemma {:induction false} HealthAlways(cfg: Config, fetches: nat, steps: seq<Step>, s: State)
    requires cfg.maxUses >= 1 && Reaches(cfg, fetches, steps, s)
    ensures HealthInv(s)
    decreases |steps|
  {
    if steps != [] {
      var front := steps[..|steps| - 1];
      var p := LastStep(cfg, fetches, steps, s);
      HealthAlways(cfg, fetches, front, p);
      EachPlaceAlways(cfg, fetches, front, p);
      UsesAlways(cfg, fetches, front, p);
      HealthStep(cfg, p, steps[|steps| - 1]);
    }
  }

  /** In every reachable state no session through which a fetch has failed is idle, or with a fetch that is to work or
      works with it. */
  lemma FailedSessionsNeverServe(cfg: Config, fetches: nat, steps: seq<Step>, s: State)
    requires cfg.maxUses >= 1 && Reaches(cfg, fetches, steps, s)
    ensures forall u :: u in s.pool.shared.idle ==> u.id !in s.pool.failed
    ensures forall t :: 0 <= t < |s.fetches| && (s.fetches[t].Reusing? || s.fetches[t].Fetching?) ==>
              s.fetches[t].session.id !in s.pool.failed
  {
    HealthAlways(cfg, fetches, steps, s);
    forall u | u in s.pool.shared.idle
      ensures u.id !in s.pool.failed
    {
      assert Good(s.pool, u);
    }
    forall t | 0 <= t < |s.fetches| && (s.fetches[t].Reusing? || s.fetches[t].Fetching?)
      ensures s.fetches[t].session.id !in s.pool.failed
    {
      assert GoodPhase(s.pool, s.fetches[t]);
    }
  }

  /** In every reachable state all fetches that one session was given to came with one key. */
  lemma SessionsServeOneKey(cfg: Config, fetches: nat, steps: seq<Step>, s: State, id: nat, j: string, k: string)
    requires cfg.maxUses >= 1 && Reaches(cfg, fetches, steps, s)
    requires (id, j) in s.pool.asked && (id, k) in s.pool.asked
    ensures j == k
  {
    HealthAlways(cfg, fetches, steps, s);
  }

  // -------------------------------------------------------------- release

  /** The fetch leaves and its session is the last of the idle ones. */
  predicate Returned(s: State, n: State, t: nat, u: Session)
    requires t < |n.fetches|
  {
    n.pool.shared == s.pool.shared.(idle := s.pool.shared.idle + [u]) && n.fetches[t] == Leaving
  }

  /** The fetch must close its session, which is counted off. */
  predicate GivenUp(s: State, n: State, t: nat, u: Session)
    requires t < |n.fetches|
  {
    n.pool.shared == s.pool.shared.(open := s.pool.shared.open - 1) && n.fetches[t] == Retiring(u)
  }

  /** A session comes back to the idle list if and only if the fetch did not fail, the fetcher is open, the page has
      not crashed, the session has a use left, and its browser is the current one and connected; otherwise it is
      counted off and closed. */
  lemma ReturnedIffFit(cfg: Config, s: State, t: nat, healthy: bool)
    requires Enabled(cfg, s, InFetch(t, ReleaseLocked(healthy)))
    ensures var n := Apply(cfg, s, InFetch(t, ReleaseLocked(healthy)));
            var u := s.fetches[t].session.(uses := s.fetches[t].session.uses + 1);
            && (Returned(s, n, t, u) <==>
                  && healthy && s.closer.NotCalled? && u.id !in s.pool.crashed && u.uses < cfg.maxUses
                  && s.pool.shared.browser == Some(u.browser) && u.browser in s.pool.alive)
            && (GivenUp(s, n, t, u) <==> !Returned(s, n, t, u))
  {
  }
}
