/** internal/fetcher/playwright.go: Fetch, acquire, release and Close as a protocol over atomic steps,
    any number of fetches running at once while pages crash, browsers die and are launched again. */
module SessionProtocol {
  import opened Commons
  import opened SessionPool

  /** Where a fetch is. `toClose` are the sessions it has taken out of the pool and must close. */
  datatype Phase =
    | Out                                                           // not in Fetch
    | Slotted(key: string)                                          // has a slot
    | Passed(key: string)                                           // has seen the fetcher open
    | Locked(key: string, closed: bool, at: int)                    // has the mutex; the flag and time it saw
    | Creating(key: string, browser: nat, toClose: seq<Session>)    // has reserved a session
    | CreateFailed                                                  // must give the reservation back
    | Reusing(session: Session, toClose: seq<Session>)              // has an idle session
    | Fetching(session: Session)
    | Retiring(session: Session)                                    // must close its session
    | Leaving                                                       // must free its slot

  /** Where Close is. `Draining` has taken so many slots; `Ended` says whether it got them all. */
  datatype Closer =
    | NotCalled
    | Announced
    | Emptying(toClose: seq<Session>)
    | Draining(taken: nat)
    | Ended(taken: nat)

  datatype Config = Config(poolSize: nat, maxUses: nat)

  /** What all share. `locked` says that a fetch is inside the locked section of acquire; the other locked
      sections are single steps, for which the mutex must be free. `created` counts sessions, `launched`
      browsers; `served` logs the fetches each session has started, `asked` the keys those fetches came with, `failed`
      the sessions through which a fetch has failed, `retired` those taken off the open-sessions gauge, whose value is
      `gauge`. */
  datatype Pool = Pool(
    shared: Shared, slots: nat, locked: bool, alive: set<nat>, crashed: set<nat>, pageClosed: set<nat>, now: int,
    created: nat, launched: nat, served: multiset<nat>, asked: set<(nat, string)>, failed: set<nat>,
    retired: multiset<nat>, gauge: int)

  datatype State = State(pool: Pool, fetches: seq<Phase>, closer: Closer)

  predicate IsClosed(s: State) {
    !s.closer.NotCalled?
  }

  function WorldOf(p: Pool, closed: bool, at: int, launchWorks: bool): World {
    World(closed, p.alive, p.crashed, p.pageClosed, at, p.now, if launchWorks then Some(p.launched) else None)
  }

  datatype WorldStep = BrowserDies(browser: nat) | PageCrashes(id: nat) | PageCloses(id: nat) | Tick

  datatype FetchStep =
    | TakeSlot(key: string)
    | CheckClosed
    | Lock
    | AcquireLocked(launchWorks: bool)
    | CloseOne
    | NewSession(works: bool)
    | Unreserve
    | StartFetch
    | ReleaseLocked(healthy: bool)
    | CloseOwn
    | FreeSlot

  datatype CloseStep = Announce | EmptyLocked | CloseIdle | StartDrain | DrainSlot | DrainEnds

  datatype Step = Outside(w: WorldStep) | InFetch(t: nat, f: FetchStep) | InClose(c: CloseStep)

  // --------------------------------------------------------------- the world

  function AfterWorld(p: Pool, step: WorldStep): Pool {
    match step
    case BrowserDies(b) => p.(alive := p.alive - {b})
    case PageCrashes(id) => p.(crashed := p.crashed + {id})
    case PageCloses(id) => p.(pageClosed := p.pageClosed + {id})
    case Tick => p.(now := p.now + 1)
  }

  // ----------------------------------------------------------------- a fetch

  /** closeSession: the gauge drops by one. */
  function Retire(p: Pool, ids: multiset<nat>): Pool {
    p.(retired := p.retired + ids, gauge := p.gauge - |ids|)
  }

  function IdsOf(ss: seq<Session>): (ids: multiset<nat>)
    ensures |ids| == |ss|
  {
    if ss == [] then multiset{} else IdsOf(ss[..|ss| - 1]) + multiset{ss[|ss| - 1].id}
  }

  predicate CanFetch(cfg: Config, p: Pool, phase: Phase, f: FetchStep) {
    match f
    case TakeSlot(_) => phase.Out? && p.slots < cfg.poolSize
    case CheckClosed => phase.Slotted?
    case Lock => phase.Passed? && !p.locked
    case AcquireLocked(_) => phase.Locked?
    case CloseOne => (phase.Creating? || phase.Reusing?) && phase.toClose != []
    case NewSession(_) => phase.Creating? && phase.toClose == []
    case Unreserve => phase.CreateFailed? && !p.locked
    case StartFetch => phase.Reusing? && phase.toClose == []
    case ReleaseLocked(_) => phase.Fetching? && !p.locked
    case CloseOwn => phase.Retiring?
    case FreeSlot => phase.Leaving? && p.slots > 0
  }

  /** The phase a fetch goes to with what the locked section of acquire grants it. */
  function Granted(key: string, g: Grant): Phase {
    match g
    case Refused(_) => Leaving
    case Reuse(u, toClose) => Reusing(u, toClose)
    case Create(b, toClose) => Creating(key, b, toClose)
  }

  /** The idle session that is given to a fetch with that key. */
  function Given(key: string, g: Grant): set<(nat, string)> {
    if g.Reuse? then {(g.session.id, key)} else {}
  }

  /** Whether browserLocked launches a browser. */
  predicate Launches(sh: Shared, w: World) {
    BrowserStep(sh, w).result.Ready? && !(sh.browser.Some? && sh.browser.value in w.alive)
  }

  function Launch(p: Pool, launches: bool): Pool {
    if launches then p.(launched := p.launched + 1, alive := p.alive + {p.launched}) else p
  }

  /** The pool after the locked section of acquire gave `a`. */
  function Grants(p: Pool, a: Acquired, launches: bool): Pool {
    Launch(Retire(p.(shared := a.shared, locked := false), IdsOf(a.dropped)), launches)
  }

  function AfterFetch(cfg: Config, p: Pool, closed: bool, phase: Phase, f: FetchStep): (Pool, Phase)
    requires CanFetch(cfg, p, phase, f)
  {
    match f
    case TakeSlot(key) => (p.(slots := p.slots + 1), Slotted(key))
    case CheckClosed => (p, if closed then Leaving else Passed(phase.key))
    case Lock => (p.(locked := true), Locked(phase.key, closed, p.now))
    case AcquireLocked(launchWorks) =>
      var w := WorldOf(p, phase.closed, phase.at, launchWorks);
      var a := AcquireStep(p.shared, phase.key, cfg.poolSize, w);
      (Grants(p, a, Launches(p.shared, w)).(asked := p.asked + Given(phase.key, a.grant)), Granted(phase.key, a.grant))
    case CloseOne => (Retire(p, multiset{phase.toClose[0].id}), phase.(toClose := phase.toClose[1..]))
    case NewSession(works) =>
      if works then
        (p.(created := p.created + 1, served := p.served + multiset{p.created}, gauge := p.gauge + 1,
            asked := p.asked + {(p.created, phase.key)}),
         Fetching(Session(p.created, phase.key, phase.browser, 0)))
      else (p, CreateFailed)
    case Unreserve => (p.(shared := p.shared.(open := p.shared.open - 1)), Leaving)
    case StartFetch => (p.(served := p.served + multiset{phase.session.id}), Fetching(phase.session))
    case ReleaseLocked(healthy) =>
      var used := phase.session.(uses := phase.session.uses + 1);
      var w := WorldOf(p, closed, p.now, false);
      (p.(shared := ReleaseStep(p.shared, used, healthy, cfg.maxUses, w),
          failed := if healthy then p.failed else p.failed + {used.id}),
       if Keeps(p.shared, used, healthy, cfg.maxUses, w) then Leaving else Retiring(used))
    case CloseOwn => (Retire(p, multiset{phase.session.id}), Leaving)
    case FreeSlot => (p.(slots := p.slots - 1), Out)
  }

  // ------------------------------------------------------------------- Close

  predicate CanClose(cfg: Config, p: Pool, closer: Closer, c: CloseStep) {
    match c
    case Announce => closer.NotCalled?
    case EmptyLocked => closer.Announced? && !p.locked
    case CloseIdle => closer.Emptying? && closer.toClose != []
    case StartDrain => closer.Emptying? && closer.toClose == []
    case DrainSlot => closer.Draining? && closer.taken < cfg.poolSize && p.slots < cfg.poolSize
    case DrainEnds => closer.Draining?
  }

  function AfterClose(cfg: Config, p: Pool, closer: Closer, c: CloseStep): (Pool, Closer)
    requires CanClose(cfg, p, closer, c)
  {
    match c
    case Announce => (p, Announced)
    case EmptyLocked => (p.(shared := EmptyStep(p.shared)), Emptying(p.shared.idle))
    case CloseIdle => (Retire(p, multiset{closer.toClose[0].id}), Emptying(closer.toClose[1..]))
    case StartDrain => (p, Draining(0))
    case DrainSlot => (p.(slots := p.slots + 1), Draining(closer.taken + 1))
    case DrainEnds => (p, Ended(closer.taken))
  }

  // -------------------------------------------------------------------- runs

  predicate Enabled(cfg: Config, s: State, step: Step) {
    match step
    case Outside(w) => true
    case InFetch(t, f) => t < |s.fetches| && CanFetch(cfg, s.pool, s.fetches[t], f)
    case InClose(c) => CanClose(cfg, s.pool, s.closer, c)
  }

  function Apply(cfg: Config, s: State, step: Step): State
    requires Enabled(cfg, s, step)
  {
    match step
    case Outside(w) => s.(pool := AfterWorld(s.pool, w))
    case InFetch(t, f) =>
      var r := AfterFetch(cfg, s.pool, IsClosed(s), s.fetches[t], f);
      s.(pool := r.0, fetches := s.fetches[t := r.1])
    case InClose(c) =>
      var r := AfterClose(cfg, s.pool, s.closer, c);
      s.(pool := r.0, closer := r.1)
  }

  function AllOut(n: nat): (ps: seq<Phase>)
    ensures |ps| == n && forall i :: 0 <= i < n ==> ps[i] == Out
  {
    seq(n, _ => Out)
  }

  /** NewPlaywrightFetcher has launched browser 0. `fetches` is how many may run at once. */
  function Init(fetches: nat): State {
    var pool := Pool(Shared([], 0, Some(0), 0, 0), 0, false, {0}, {}, {}, 0, 0, 1, multiset{}, {}, {}, multiset{}, 0);
    State(pool, AllOut(fetches), NotCalled)
  }

  /** `steps` is a run that leads from the initial state to `s`. */
  ghost predicate Reaches(cfg: Config, fetches: nat, steps: seq<Step>, s: State)
    decreases |steps|, 1
  {
    if steps == [] then s == Init(fetches) else ReachesBy(cfg, fetches, steps, s)
  }

  ghost predicate ReachesBy(cfg: Config, fetches: nat, steps: seq<Step>, s: State)
    requires steps != []
    decreases |steps|, 0
  {
    var front, last := steps[..|steps| - 1], steps[|steps| - 1];
    exists p :: Reaches(cfg, fetches, front, p) && Enabled(cfg, p, last) && s == Apply(cfg, p, last)
  }

  lemma LastStep(cfg: Config, fetches: nat, steps: seq<Step>, s: State) returns (p: State)
    requires steps != [] && Reaches(cfg, fetches, steps, s)
    ensures Reaches(cfg, fetches, steps[..|steps| - 1], p) && Enabled(cfg, p, steps[|steps| - 1])
    ensures s == Apply(cfg, p, steps[|steps| - 1])
  {
    assert ReachesBy(cfg, fetches, steps, s);
    p :| Reaches(cfg, fetches, steps[..|steps| - 1], p) && Enabled(cfg, p, steps[|steps| - 1])
         && s == Apply(cfg, p, steps[|steps| - 1]);
  }

  /** `steps` is a run from `s` to `n`. */
  ghost predicate Continues(cfg: Config, s: State, steps: seq<Step>, n: State)
    decreases |steps|
  {
    if steps == [] then n == s
    else Enabled(cfg, s, steps[0]) && Continues(cfg, Apply(cfg, s, steps[0]), steps[1..], n)
  }
}
