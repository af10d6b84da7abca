/** Which sessions the pool hands out again, and how often (internal/fetcher/playwright.go): the idle ones
    all belong to the current browser, are handed to one fetch at a time, only under their own key, and
    never serve more than the configured number of fetches. */
module SessionReuse {
  import opened Commons
  import opened SessionPool
  import opened SessionProtocol
  import opened SessionSafety

  /** An idle session: of the current browser, its uses the fetches it served, fit for another. */
  ghost predicate Rested(cfg: Config, p: Pool, u: Session) {
    && p.shared.browser == Some(u.browser)
    && u.uses == p.served[u.id]
    && 1 <= u.uses < cfg.maxUses
  }

  ghost predicate IdleInv(cfg: Config, p: Pool) {
    && p.shared.browser.Some?
    && forall u :: u in p.shared.idle ==> Rested(cfg, p, u)
  }

  /** The session a fetch works with. */
  function Own(phase: Phase): Option<Session> {
    match phase
    case Reusing(u, _) => Some(u)
    case Fetching(u) => Some(u)
    case Retiring(u) => Some(u)
    case _ => None
  }

  ghost predicate PhaseInv(cfg: Config, p: Pool, phase: Phase) {
    match phase
    case Reusing(u, _) => u.uses == p.served[u.id] && u.uses < cfg.maxUses
    case Fetching(u) => u.uses + 1 == p.served[u.id] && u.uses < cfg.maxUses
    case Retiring(u) => u.uses == p.served[u.id]
    case _ => true
  }

  ghost predicate ServedInv(cfg: Config, p: Pool) {
    forall id: nat :: p.served[id] <= if id < p.created then cfg.maxUses else 0
  }

  // ------------------------------------------------------ one fetch alone

  lemma {:induction false} NoneLeft(idle: seq<Session>, b: nat)
    requires forall u :: u in idle ==> u.browser == b
    ensures NotOfBrowser(idle, b) == []
  {
    if idle != [] {
      NoneLeft(idle[..|idle| - 1], b);
    }
  }

  /** A browser is only launched over an empty idle list. */
  lemma BrowserKeepsIdle(cfg: Config, p: Pool, w: World)
    requires IdleInv(cfg, p)
    ensures var l := BrowserStep(p.shared, w);
            && l.shared.browser.Some?
            && (l.shared.idle == [] || l.shared == p.shared)
  {
    NoneLeft(p.shared.idle, p.shared.browser.value);
  }

  lemma PickKeepsIdle(sh: Shared, key: string, poolSize: nat, b: nat, dead: set<nat>)
    ensures var c := Pick(sh, key, poolSize, b, dead);
            && c.shared.browser == sh.browser
            && (forall u :: u in c.shared.idle ==> u in sh.idle)
            && (c.grant.Reuse? ==> c.grant.session in sh.idle && Reusable(c.grant.session, key, b, dead))
  {
    ScanFinds(sh.idle, key, b, dead);
  }

  lemma AcquireKeepsIdle(cfg: Config, p: Pool, key: string, w: World)
    requires IdleInv(cfg, p)
    ensures var a := AcquireStep(p.shared, key, cfg.poolSize, w);
            && a.shared.browser.Some?
            && (forall u :: u in a.shared.idle ==> u in p.shared.idle && a.shared.browser == p.shared.browser)
            && (a.grant.Reuse? ==> a.grant.session in p.shared.idle)
  {
    BrowserKeepsIdle(cfg, p, w);
    var l := BrowserStep(p.shared, w);
    if l.result.Ready? {
      PickKeepsIdle(l.shared, key, cfg.poolSize, l.result.browser, w.Dead());
    }
  }

  /** What a step of a fetch does to the session its fetch works with and to the idle ones. */
  ghost predicate KeepsUses(cfg: Config, p: Pool, closed: bool, phase: Phase, f: FetchStep)
    requires CanFetch(cfg, p, phase, f)
  {
    var r := AfterFetch(cfg, p, closed, phase, f);
    && IdleInv(cfg, r.0)
    && PhaseInv(cfg, r.0, r.1)
    && ServedInv(cfg, r.0)
  }

  ghost predicate LocalInv(cfg: Config, p: Pool, phase: Phase) {
    && cfg.maxUses >= 1
    && IdleInv(cfg, p) && PhaseInv(cfg, p, phase) && ServedInv(cfg, p)
    && (forall u :: u in p.shared.idle ==> u.id < p.created && Carries(phase, u.id) == 0)
    && (Own(phase).Some? ==> Own(phase).value.id < p.created)
  }

  lemma AcquireUses(cfg: Config, p: Pool, closed: bool, phase: Phase, works: bool)
    requires CanFetch(cfg, p, phase, AcquireLocked(works)) && LocalInv(cfg, p, phase)
    ensures KeepsUses(cfg, p, closed, phase, AcquireLocked(works))
  {
    AcquireKeepsIdle(cfg, p, phase.key, WorldOf(p, phase.closed, phase.at, works));
  }

  lemma NewSessionUses(cfg: Config, p: Pool, closed: bool, phase: Phase, works: bool)
    requires CanFetch(cfg, p, phase, NewSession(works)) && LocalInv(cfg, p, phase)
    ensures KeepsUses(cfg, p, closed, phase, NewSession(works))
  {
  }

  lemma StartUses(cfg: Config, p: Pool, closed: bool, phase: Phase)
    requires CanFetch(cfg, p, phase, StartFetch) && LocalInv(cfg, p, phase)
    ensures KeepsUses(cfg, p, closed, phase, StartFetch)
  {
    var id := phase.session.id;
    forall u | u in p.shared.idle
      ensures u.id != id
    {
      assert Carries(phase, id) > 0;
    }
  }

  lemma ReleaseUses(cfg: Config, p: Pool, closed: bool, phase: Phase, healthy: bool)
    requires CanFetch(cfg, p, phase, ReleaseLocked(healthy)) && LocalInv(cfg, p, phase)
    ensures KeepsUses(cfg, p, closed, phase, ReleaseLocked(healthy))
  {
  }

  lemma OtherUses(cfg: Config, p: Pool, closed: bool, phase: Phase, f: FetchStep)
    requires CanFetch(cfg, p, phase, f) && LocalInv(cfg, p, phase)
    requires !f.AcquireLocked? && !f.NewSession? && !f.StartFetch? && !f.ReleaseLocked?
    ensures KeepsUses(cfg, p, closed, phase, f)
  {
  }

  lemma FetchUses(cfg: Config, p: Pool, closed: bool, phase: Phase, f: FetchStep)
    requires CanFetch(cfg, p, phase, f) && LocalInv(cfg, p, phase)
    ensures KeepsUses(cfg, p, closed, phase, f)
  {
    match f
    case AcquireLocked(works) => AcquireUses(cfg, p, closed, phase, works);
    case NewSession(works) => NewSessionUses(cfg, p, closed, phase, works);
    case StartFetch => StartUses(cfg, p, closed, phase);
    case ReleaseLocked(healthy) => ReleaseUses(cfg, p, closed, phase, healthy);
    case _ => OtherUses(cfg, p, closed, phase, f);
  }

  /** A step of one fetch leaves alone the sessions it does not carry. */
  lemma ServedElsewhere(cfg: Config, p: Pool, closed: bool, phase: Phase, f: FetchStep, id: nat)
    requires CanFetch(cfg, p, phase, f) && id < p.created && Carries(phase, id) == 0
    ensures AfterFetch(cfg, p, closed, phase, f).0.served[id] == p.served[id]
  {
  }

  // ---------------------------------------------------------- all fetches

  lemma TwoCarriers(ps: seq<Phase>, i: nat, j: nat, id: nat)
    requires i < |ps| && j < |ps| && i != j
    ensures Carried(ps, id) >= Carries(ps[i], id) + Carries(ps[j], id)
  {
    CarriedAt(ps, i, Out, id);
    CarriedAt(ps[i := Out], j, Out, id);
  }

  lemma {:induction false} Counted(ss: seq<Session>, u: Session)
    requires u in ss
    ensures Count(ss, u.id) >= 1
  {
    if u != ss[|ss| - 1] {
      Counted(ss[..|ss| - 1], u);
    }
  }

  ghost predicate PlacesInv(s: State) {
    forall id: nat :: PlaceInv(s, id)
  }

  /** What is in two places at once was never there. */
  lemma IdleAlone(s: State, t: nat, u: Session)
    requires PlacesInv(s) && t < |s.fetches| && u in s.pool.shared.idle
    ensures u.id < s.pool.created && Carries(s.fetches[t], u.id) == 0
  {
    assert PlaceInv(s, u.id);
    Counted(s.pool.shared.idle, u);
    CarriedAt(s.fetches, t, Out, u.id);
  }

  lemma OwnAlone(s: State, t: nat, u: Session)
    requires PlacesInv(s) && t < |s.fetches| && Own(s.fetches[t]) == Some(u)
    ensures u.id < s.pool.created
    ensures forall i: nat :: i < |s.fetches| && i != t ==> Carries(s.fetches[i], u.id) == 0
    ensures Count(s.pool.shared.idle, u.id) == 0 && s.pool.retired[u.id] == 0
  {
    assert PlaceInv(s, u.id);
    assert Carries(s.fetches[t], u.id) >= 1;
    CarriedAt(s.fetches, t, Out, u.id);
    forall i: nat | i < |s.fetches| && i != t
      ensures Carries(s.fetches[i], u.id) == 0
    {
      TwoCarriers(s.fetches, i, t, u.id);
    }
  }

  ghost predicate UsesInv(cfg: Config, s: State) {
    && IdleInv(cfg, s.pool) && ServedInv(cfg, s.pool)
    && forall t :: 0 <= t < |s.fetches| ==> PhaseInv(cfg, s.pool, s.fetches[t])
  }

  lemma LocalFromGlobal(cfg: Config, s: State, t: nat)
    requires cfg.maxUses >= 1 && PlacesInv(s) && UsesInv(cfg, s) && t < |s.fetches|
    ensures LocalInv(cfg, s.pool, s.fetches[t])
  {
    forall u | u in s.pool.shared.idle
      ensures u.id < s.pool.created && Carries(s.fetches[t], u.id) == 0
    {
      IdleAlone(s, t, u);
    }
    if Own(s.fetches[t]).Some? {
      OwnAlone(s, t, Own(s.fetches[t]).value);
    }
  }

  lemma OthersKeep(cfg: Config, s: State, t: nat, f: FetchStep, j: nat)
    requires PlacesInv(s) && UsesInv(cfg, s) && Enabled(cfg, s, InFetch(t, f)) && j < |s.fetches| && j != t
    ensures PhaseInv(cfg, Apply(cfg, s, InFetch(t, f)).pool, s.fetches[j])
  {
    assert PhaseInv(cfg, s.pool, s.fetches[j]);
    if Own(s.fetches[j]).Some? {
      var u := Own(s.fetches[j]).value;
      OwnAlone(s, j, u);
      ServedElsewhere(cfg, s.pool, IsClosed(s), s.fetches[t], f, u.id);
    }
  }

  lemma UsesStepInFetch(cfg: Config, s: State, t: nat, f: FetchStep)
    requires cfg.maxUses >= 1 && PlacesInv(s) && UsesInv(cfg, s) && Enabled(cfg, s, InFetch(t, f))
    ensures UsesInv(cfg, Apply(cfg, s, InFetch(t, f)))
  {
    LocalFromGlobal(cfg, s, t);
    FetchUses(cfg, s.pool, IsClosed(s), s.fetches[t], f);
    var n := Apply(cfg, s, InFetch(t, f));
    forall j | 0 <= j < |n.fetches|
      ensures PhaseInv(cfg, n.pool, n.fetches[j])
    {
      if j != t {
        OthersKeep(cfg, s, t, f, j);
      }
    }
  }

  lemma PhaseDependsOnServed(cfg: Config, s: State, n: State)
    requires UsesInv(cfg, s) && n.fetches == s.fetches
    requires n.pool.served == s.pool.served && n.pool.created == s.pool.created
    requires n.pool.shared.browser == s.pool.shared.browser
    requires n.pool.shared.idle == s.pool.shared.idle || n.pool.shared.idle == []
    ensures UsesInv(cfg, n)
  {
    forall t | 0 <= t < |n.fetches|
      ensures PhaseInv(cfg, n.pool, n.fetches[t])
    {
      assert PhaseInv(cfg, s.pool, s.fetches[t]);
    }
    forall u | u in n.pool.shared.idle
      ensures Rested(cfg, n.pool, u)
    {
      assert Rested(cfg, s.pool, u);
    }
  }

  lemma UsesStep(cfg: Config, s: State, step: Step)
    requires cfg.maxUses >= 1 && PlacesInv(s) && UsesInv(cfg, s) && Enabled(cfg, s, step)
    ensures UsesInv(cfg, Apply(cfg, s, step))
  {
    match step
    case InFetch(t, f) => UsesStepInFetch(cfg, s, t, f);
    case InClose(_) => PhaseDependsOnServed(cfg, s, Apply(cfg, s, step));
    case Outside(_) => PhaseDependsOnServed(cfg, s, Apply(cfg, s, step));
  }

  lemma EachPlaceAlways(cfg: Config, fetches: nat, steps: seq<Step>, s: State)
    requires Reaches(cfg, fetches, steps, s)
    ensures PlacesInv(s)
  {
    forall id: nat
      ensures PlaceInv(s, id)
    {
      PlacesAlways(cfg, fetches, steps, s, id);
    }
  }

  /** In every reachable state every idle session belongs to the current browser and may serve again, and
      no session has served more fetches than MaxSessionUses. */
  lemma {:induction false} UsesAlways(cfg: Config, fetches: nat, steps: seq<Step>, s: State)
    requires cfg.maxUses >= 1 && Reaches(cfg, fetches, steps, s)
    ensures UsesInv(cfg, s)
    decreases |steps|
  {
    if steps != [] {
      var p := LastStep(cfg, fetches, steps, s);
      UsesAlways(cfg, fetches, steps[..|steps| - 1], p);
      EachPlaceAlways(cfg, fetches, steps[..|steps| - 1], p);
      UsesStep(cfg, p, steps[|steps| - 1]);
    }
  }

  /** A session a fetch works with is with no other fetch, not idle and not retired. */
  lemma SessionsAreNotShared(cfg: Config, fetches: nat, steps: seq<Step>, s: State, i: nat, j: nat)
    requires Reaches(cfg, fetches, steps, s) && i < |s.fetches| && j < |s.fetches| && i != j
    requires Own(s.fetches[i]).Some? && Own(s.fetches[j]).Some?
    ensures Own(s.fetches[i]).value.id != Own(s.fetches[j]).value.id
    ensures forall u :: u in s.pool.shared.idle ==> u.id != Own(s.fetches[i]).value.id
    ensures s.pool.retired[Own(s.fetches[i]).value.id] == 0
  {
    EachPlaceAlways(cfg, fetches, steps, s);
    OwnAlone(s, i, Own(s.fetches[i]).value);
    OwnAlone(s, j, Own(s.fetches[j]).value);
    forall u | u in s.pool.shared.idle
      ensures u.id != Own(s.fetches[i]).value.id
    {
      Counted(s.pool.shared.idle, u);
    }
  }

  /** What acquire hands out again was idle under the same key, belongs to the connected browser, has
      neither crashed nor closed, and has a fetch left; and it opens a new session only if no idle one
      would do. */
  lemma ReuseIsSound(cfg: Config, fetches: nat, steps: seq<Step>, s: State, t: nat, works: bool)
    requires cfg.maxUses >= 1 && Reaches(cfg, fetches, steps, s)
    requires Enabled(cfg, s, InFetch(t, AcquireLocked(works)))
    ensures var n := Apply(cfg, s, InFetch(t, AcquireLocked(works)));
            && (n.fetches[t].Reusing? ==>
                  var u := n.fetches[t].session;
                  && u in s.pool.shared.idle && u.key == s.fetches[t].key
                  && u.browser in n.pool.alive && n.pool.shared.browser == Some(u.browser)
                  && u.id !in s.pool.crashed + s.pool.pageClosed
                  && n.pool.served[u.id] < cfg.maxUses)
            && (n.fetches[t].Creating? ==>
                  forall u :: u in s.pool.shared.idle && u.key == s.fetches[t].key && u.browser in s.pool.alive
                              ==> u.id in s.pool.crashed + s.pool.pageClosed)
  {
    UsesAlways(cfg, fetches, steps, s);
    AcquireReuses(cfg, s.pool, s.fetches[t].key, WorldOf(s.pool, s.fetches[t].closed, s.fetches[t].at, works));
  }

  lemma AcquireReuses(cfg: Config, p: Pool, key: string, w: World)
    requires IdleInv(cfg, p)
    ensures var a := AcquireStep(p.shared, key, cfg.poolSize, w);
            && (a.grant.Reuse? ==>
                  var u := a.grant.session;
                  && u in p.shared.idle && u.key == key && u.id !in w.Dead()
                  && u.browser in w.alive && a.shared.browser == Some(u.browser) == p.shared.browser
                  && u.uses == p.served[u.id] < cfg.maxUses)
            && (a.grant.Create? ==>
                  forall u :: u in p.shared.idle && u.key == key && u.browser in w.alive ==> u.id in w.Dead())
  {
    BrowserKeepsIdle(cfg, p, w);
    var l := BrowserStep(p.shared, w);
    if l.result.Ready? {
      ScanFinds(l.shared.idle, key, l.result.browser, w.Dead());
      PickKeepsIdle(l.shared, key, cfg.poolSize, l.result.browser, w.Dead());
    }
  }
}
