/** What every run of the browser session pool keeps (internal/fetcher/playwright.go), in every
    interleaving of fetches, failures, page crashes, browser deaths, relaunches and Close: the slots, the
    open counter, and the place of each session. */
module SessionSafety {
  import opened SessionPool
  import opened SessionProtocol

  // ------------------------------------------------------------ counting

  function Occupies(p: Phase): nat {
    if p.Out? then 0 else 1
  }

  /** Whether the fetch holds a session or a reservation that `open` counts. */
  function Holds(p: Phase): nat {
    if p.Creating? || p.CreateFailed? || p.Reusing? || p.Fetching? then 1 else 0
  }

  function One(u: Session, id: nat): nat {
    if u.id == id then 1 else 0
  }

  function Count(ss: seq<Session>, id: nat): nat {
    if ss == [] then 0 else Count(ss[..|ss| - 1], id) + One(ss[|ss| - 1], id)
  }

  lemma {:induction false} CountIsMultiplicity(ss: seq<Session>, id: nat)
    ensures IdsOf(ss)[id] == Count(ss, id)
  {
    if ss != [] {
      CountIsMultiplicity(ss[..|ss| - 1], id);
    }
  }

  /** How often the fetch has session `id` with it. */
  function Carries(p: Phase, id: nat): nat {
    match p
    case Creating(_, _, toClose) => Count(toClose, id)
    case Reusing(u, toClose) => One(u, id) + Count(toClose, id)
    case Fetching(u) => One(u, id)
    case Retiring(u) => One(u, id)
    case _ => 0
  }

  function Occupied(ps: seq<Phase>): nat {
    if ps == [] then 0 else Occupied(ps[..|ps| - 1]) + Occupies(ps[|ps| - 1])
  }

  function Holding(ps: seq<Phase>): (n: nat)
    ensures n <= Occupied(ps)
  {
    if ps == [] then 0 else Holding(ps[..|ps| - 1]) + Holds(ps[|ps| - 1])
  }

  function Carried(ps: seq<Phase>, id: nat): nat {
    if ps == [] then 0 else Carried(ps[..|ps| - 1], id) + Carries(ps[|ps| - 1], id)
  }

  lemma {:induction false} CountsAt(ps: seq<Phase>, t: nat, p: Phase)
    requires t < |ps|
    ensures Occupied(ps[t := p]) == Occupied(ps) - Occupies(ps[t]) + Occupies(p)
    ensures Holding(ps[t := p]) == Holding(ps) - Holds(ps[t]) + Holds(p)
  {
    var n := |ps| - 1;
    if t == n {
      assert ps[t := p][..n] == ps[..n];
    } else {
      CountsAt(ps[..n], t, p);
      assert ps[t := p][..n] == ps[..n][t := p];
    }
  }

  lemma {:induction false} CarriedAt(ps: seq<Phase>, t: nat, p: Phase, id: nat)
    requires t < |ps|
    ensures Carried(ps[t := p], id) == Carried(ps, id) - Carries(ps[t], id) + Carries(p, id)
  {
    var n := |ps| - 1;
    if t == n {
      assert ps[t := p][..n] == ps[..n];
    } else {
      CarriedAt(ps[..n], t, p, id);
      assert ps[t := p][..n] == ps[..n][t := p];
    }
  }

  lemma {:induction false} NoneOccupied(ps: seq<Phase>, id: nat)
    requires Occupied(ps) == 0
    ensures Carried(ps, id) == 0
    ensures forall t :: 0 <= t < |ps| ==> ps[t] == Out
  {
    if ps != [] {
      NoneOccupied(ps[..|ps| - 1], id);
    }
  }

  lemma {:induction false} AllOutCounts(n: nat)
    ensures Occupied(AllOut(n)) == 0
  {
    if n > 0 {
      AllOutCounts(n - 1);
      assert AllOut(n)[..n - 1] == AllOut(n - 1);
    }
  }

  /** A slot holder that holds no session leaves room. */
  lemma RoomForHolder(ps: seq<Phase>, t: nat)
    requires t < |ps| && (ps[t].Passed? || ps[t].Locked?)
    ensures Holding(ps) < Occupied(ps)
  {
    CountsAt(ps, t, Out);
  }

  // --------------------------------------------------------------- slots

  function TakenByCloser(c: Closer): nat {
    match c
    case Draining(n) => n
    case Ended(n) => n
    case _ => 0
  }

  ghost predicate SlotsInv(cfg: Config, s: State) {
    && s.pool.slots == Occupied(s.fetches) + TakenByCloser(s.closer)
    && s.pool.slots <= cfg.poolSize
  }

  lemma FetchSlots(cfg: Config, p: Pool, closed: bool, phase: Phase, f: FetchStep)
    requires CanFetch(cfg, p, phase, f)
    ensures var r := AfterFetch(cfg, p, closed, phase, f); r.0.slots - Occupies(r.1) == p.slots - Occupies(phase)
    ensures p.slots <= cfg.poolSize ==> AfterFetch(cfg, p, closed, phase, f).0.slots <= cfg.poolSize
  {
  }

  lemma SlotsStep(cfg: Config, s: State, step: Step)
    requires SlotsInv(cfg, s) && Enabled(cfg, s, step)
    ensures SlotsInv(cfg, Apply(cfg, s, step))
  {
    if step.InFetch? {
      FetchSlots(cfg, s.pool, IsClosed(s), s.fetches[step.t], step.f);
      CountsAt(s.fetches, step.t, Apply(cfg, s, step).fetches[step.t]);
    }
  }

  // ---------------------------------------------------------------- open

  ghost predicate OpenInv(cfg: Config, s: State) {
    && s.pool.shared.open == |s.pool.shared.idle| + Holding(s.fetches)
    && s.pool.shared.open <= cfg.poolSize
  }

  lemma {:induction false} SplitByBrowser(idle: seq<Session>, b: nat, id: nat)
    ensures |OfBrowser(idle, b)| + |NotOfBrowser(idle, b)| == |idle|
    ensures Count(OfBrowser(idle, b), id) + Count(NotOfBrowser(idle, b), id) == Count(idle, id)
  {
    if idle != [] {
      var front, last := idle[..|idle| - 1], idle[|idle| - 1];
      SplitByBrowser(front, b, id);
      CountOfAppend(OfBrowser(front, b), last, id);
      CountOfAppend(NotOfBrowser(front, b), last, id);
    }
  }

  lemma CountOfAppend(a: seq<Session>, u: Session, id: nat)
    ensures Count(a + [u], id) == Count(a, id) + One(u, id)
    ensures a + [] == a
  {
    assert (a + [u])[..|a|] == a;
  }

  lemma {:induction false} CountOfFirst(a: seq<Session>, id: nat)
    requires a != []
    ensures Count(a, id) == One(a[0], id) + Count(a[1..], id)
  {
    var n := |a| - 1;
    if n == 0 {
      assert a[..0] == [] && a[1..] == [];
    } else {
      CountOfFirst(a[..n], id);
      assert a[..n][1..] == a[1..][..n - 1];
      assert a[1..][n - 1] == a[n];
    }
  }

  lemma PurgeSplits(sh: Shared, id: nat)
    ensures |DroppedOf(sh)| + |KeptOf(sh)| == |sh.idle|
    ensures Count(DroppedOf(sh), id) + Count(KeptOf(sh), id) == Count(sh.idle, id)
  {
    if sh.browser.Some? {
      SplitByBrowser(sh.idle, sh.browser.value, id);
    }
  }

  lemma BrowserCounts(sh: Shared, w: World)
    ensures var l := BrowserStep(sh, w);
            l.shared.open - |l.shared.idle| == sh.open - |sh.idle| && l.shared.open <= sh.open
  {
    PurgeSplits(sh, 0);
  }

  /** The locked section of acquire adds one session or reservation if it grants, and respects the
      cap whenever its caller leaves room for one. */
  lemma AcquireCounts(sh: Shared, key: string, poolSize: nat, w: World)
    ensures var a := AcquireStep(sh, key, poolSize, w);
            && a.shared.open - |a.shared.idle| == sh.open - |sh.idle| + Holds(Granted(key, a.grant))
            && (sh.open <= poolSize && sh.open - |sh.idle| < poolSize ==> a.shared.open <= poolSize)
  {
    BrowserCounts(sh, w);
    var l := BrowserStep(sh, w);
    if l.result.Ready? {
      ScanLosesNone(l.shared.idle, key, l.result.browser, w.Dead());
    }
  }

  lemma FetchOpen(cfg: Config, p: Pool, closed: bool, phase: Phase, f: FetchStep)
    requires CanFetch(cfg, p, phase, f) && p.shared.open <= cfg.poolSize
    requires phase.Locked? ==> p.shared.open - |p.shared.idle| < cfg.poolSize
    ensures var r := AfterFetch(cfg, p, closed, phase, f);
            && r.0.shared.open - |r.0.shared.idle| - Holds(r.1) == p.shared.open - |p.shared.idle| - Holds(phase)
            && r.0.shared.open <= cfg.poolSize
  {
    if f.AcquireLocked? {
      AcquireCounts(p.shared, phase.key, cfg.poolSize, WorldOf(p, phase.closed, phase.at, f.launchWorks));
    }
  }

  lemma OpenStep(cfg: Config, s: State, step: Step)
    requires SlotsInv(cfg, s) && OpenInv(cfg, s) && Enabled(cfg, s, step)
    ensures OpenInv(cfg, Apply(cfg, s, step))
  {
    if step.InFetch? {
      if s.fetches[step.t].Locked? {
        RoomForHolder(s.fetches, step.t);
      }
      FetchOpen(cfg, s.pool, IsClosed(s), s.fetches[step.t], step.f);
      CountsAt(s.fetches, step.t, Apply(cfg, s, step).fetches[step.t]);
    }
  }

  // -------------------------------------------------------------- places

  function HeldByCloser(c: Closer, id: nat): nat {
    if c.Emptying? then Count(c.toClose, id) else 0
  }

  /** How often session `id` is in the idle list, with a fetch, with Close, or retired. */
  function Places(s: State, id: nat): nat {
    Count(s.pool.shared.idle, id) + Carried(s.fetches, id) + HeldByCloser(s.closer, id) + s.pool.retired[id]
  }

  ghost predicate PlaceInv(s: State, id: nat) {
    Places(s, id) == if id < s.pool.created then 1 else 0
  }

  ghost predicate GaugeInv(s: State) {
    s.pool.gauge == s.pool.created - |s.pool.retired|
  }

  function NearBy(p: Pool, phase: Phase, id: nat): nat {
    Count(p.shared.idle, id) + Carries(phase, id) + p.retired[id]
  }

  function Sought(r: Scan, id: nat): nat {
    Count(r.stale, id) + Count(r.kept, id) + (if r.reuse.Some? then One(r.reuse.value, id) else 0)
  }

  lemma {:induction false} ScanPlaces(idle: seq<Session>, key: string, b: nat, dead: set<nat>, id: nat)
    ensures Sought(ScanIdle(idle, key, b, dead), id) == Count(idle, id)
  {
    if idle != [] {
      var front, u := idle[..|idle| - 1], idle[|idle| - 1];
      ScanPlaces(front, key, b, dead, id);
      CountOfAppend(ScanIdle(front, key, b, dead).stale, u, id);
      CountOfAppend(ScanIdle(front, key, b, dead).kept, u, id);
    }
  }

  lemma {:induction false} BrowserPlaces(sh: Shared, w: World, id: nat)
    ensures var l := BrowserStep(sh, w); Count(l.shared.idle, id) + Count(l.dropped, id) == Count(sh.idle, id)
  {
    BrowserPurges(sh, w);
    PurgeSplits(sh, id);
    assert Count([], id) == 0;
  }

  /** browserLocked leaves the idle list alone, or drops the sessions of the browser. */
  lemma BrowserPurges(sh: Shared, w: World)
    ensures var l := BrowserStep(sh, w);
            || (l.shared.idle == sh.idle && l.dropped == [])
            || (l.shared.idle == KeptOf(sh) && l.dropped == DroppedOf(sh))
  {
  }

  lemma EvictPlaces(stale: seq<Session>, kept: seq<Session>, id: nat)
    requires kept != []
    ensures Count(stale + [kept[0]], id) + Count(kept[1..], id) == Count(stale, id) + Count(kept, id)
  {
    CountOfFirst(kept, id);
    CountOfAppend(stale, kept[0], id);
  }

  lemma {:induction false} PickPlaces(sh: Shared, key: string, poolSize: nat, b: nat, dead: set<nat>, id: nat)
    ensures var c := Pick(sh, key, poolSize, b, dead);
            Count(c.shared.idle, id) + Carries(Granted(key, c.grant), id) == Count(sh.idle, id)
  {
    ScanPlaces(sh.idle, key, b, dead, id);
    ChoosePlaces(sh, ScanIdle(sh.idle, key, b, dead), key, poolSize, b, id);
  }

  lemma ChoosePlaces(sh: Shared, r: Scan, key: string, poolSize: nat, b: nat, id: nat)
    ensures var c := Choose(sh, r, poolSize, b);
            Count(c.shared.idle, id) + Carries(Granted(key, c.grant), id) == Sought(r, id)
  {
    if r.kept != [] {
      EvictPlaces(r.stale, r.kept, id);
    }
  }

  /** The locked section of acquire moves sessions and loses none. */
  lemma {:induction false} AcquirePlaces(sh: Shared, key: string, poolSize: nat, w: World, id: nat)
    ensures var a := AcquireStep(sh, key, poolSize, w);
            Count(a.shared.idle, id) + Count(a.dropped, id) + Carries(Granted(key, a.grant), id) == Count(sh.idle, id)
  {
    BrowserPlaces(sh, w, id);
    var l := BrowserStep(sh, w);
    if l.result.Ready? {
      PickPlaces(l.shared, key, poolSize, l.result.browser, w.Dead(), id);
    }
  }

  ghost predicate FetchMoves(cfg: Config, p: Pool, closed: bool, phase: Phase, f: FetchStep, id: nat)
    requires CanFetch(cfg, p, phase, f)
  {
    var r := AfterFetch(cfg, p, closed, phase, f);
    && NearBy(r.0, r.1, id) == NearBy(p, phase, id) + (if p.created <= id < r.0.created then 1 else 0)
    && r.0.created >= p.created
    && r.0.gauge - r.0.created + |r.0.retired| == p.gauge - p.created + |p.retired|
  }

  lemma AcquireMoves(cfg: Config, p: Pool, closed: bool, phase: Phase, works: bool, id: nat)
    requires CanFetch(cfg, p, phase, AcquireLocked(works))
    ensures FetchMoves(cfg, p, closed, phase, AcquireLocked(works), id)
  {
    var w := WorldOf(p, phase.closed, phase.at, works);
    AcquirePlaces(p.shared, phase.key, cfg.poolSize, w, id);
    CountIsMultiplicity(AcquireStep(p.shared, phase.key, cfg.poolSize, w).dropped, id);
  }

  lemma CloseOneMoves(cfg: Config, p: Pool, closed: bool, phase: Phase, id: nat)
    requires CanFetch(cfg, p, phase, CloseOne)
    ensures FetchMoves(cfg, p, closed, phase, CloseOne, id)
  {
    CountOfFirst(phase.toClose, id);
  }

  lemma ReleaseCounts(sh: Shared, u: Session, healthy: bool, maxUses: nat, w: World, id: nat)
    ensures Count(ReleaseStep(sh, u, healthy, maxUses, w).idle, id)
         == Count(sh.idle, id) + if Keeps(sh, u, healthy, maxUses, w) then One(u, id) else 0
  {
    CountOfAppend(sh.idle, u, id);
  }

  lemma {:induction false} ReleaseMoves(cfg: Config, p: Pool, closed: bool, phase: Phase, healthy: bool, id: nat)
    requires CanFetch(cfg, p, phase, ReleaseLocked(healthy))
    ensures FetchMoves(cfg, p, closed, phase, ReleaseLocked(healthy), id)
  {
    var used := phase.session.(uses := phase.session.uses + 1);
    ReleaseCounts(p.shared, used, healthy, cfg.maxUses, WorldOf(p, closed, p.now, false), id);
  }

  lemma {:induction false} MovesOtherwise(cfg: Config, p: Pool, closed: bool, phase: Phase, f: FetchStep, id: nat)
    requires CanFetch(cfg, p, phase, f) && !f.AcquireLocked? && !f.CloseOne? && !f.ReleaseLocked?
    ensures FetchMoves(cfg, p, closed, phase, f, id)
  {
  }

  lemma FetchPlaces(cfg: Config, p: Pool, closed: bool, phase: Phase, f: FetchStep, id: nat)
    requires CanFetch(cfg, p, phase, f)
    ensures FetchMoves(cfg, p, closed, phase, f, id)
  {
    match f
    case AcquireLocked(works) => AcquireMoves(cfg, p, closed, phase, works, id);
    case CloseOne => CloseOneMoves(cfg, p, closed, phase, id);
    case ReleaseLocked(healthy) => ReleaseMoves(cfg, p, closed, phase, healthy, id);
    case _ => MovesOtherwise(cfg, p, closed, phase, f, id);
  }

  lemma PlaceStepInFetch(cfg: Config, s: State, t: nat, f: FetchStep, id: nat)
    requires PlaceInv(s, id) && GaugeInv(s) && Enabled(cfg, s, InFetch(t, f))
    ensures PlaceInv(Apply(cfg, s, InFetch(t, f)), id) && GaugeInv(Apply(cfg, s, InFetch(t, f)))
  {
    FetchPlaces(cfg, s.pool, IsClosed(s), s.fetches[t], f, id);
    CarriedAt(s.fetches, t, AfterFetch(cfg, s.pool, IsClosed(s), s.fetches[t], f).1, id);
  }

  lemma PlaceStepInClose(cfg: Config, s: State, c: CloseStep, id: nat)
    requires PlaceInv(s, id) && GaugeInv(s) && Enabled(cfg, s, InClose(c))
    ensures PlaceInv(Apply(cfg, s, InClose(c)), id) && GaugeInv(Apply(cfg, s, InClose(c)))
  {
    if c.CloseIdle? {
      CountOfFirst(s.closer.toClose, id);
    }
  }

  lemma PlaceStep(cfg: Config, s: State, step: Step, id: nat)
    requires PlaceInv(s, id) && GaugeInv(s) && Enabled(cfg, s, step)
    ensures PlaceInv(Apply(cfg, s, step), id) && GaugeInv(Apply(cfg, s, step))
  {
    match step
    case InFetch(t, f) => PlaceStepInFetch(cfg, s, t, f, id);
    case InClose(c) => PlaceStepInClose(cfg, s, c, id);
    case Outside(_) =>
  }

  // ---------------------------------------------------------------- runs

  /** In every reachable state the slots taken are those of the fetches under way and of Close, and `open`
      counts the idle sessions and the fetches that hold or reserve one, within the pool size. */
  lemma {:induction false} CountsAlways(cfg: Config, fetches: nat, steps: seq<Step>, s: State)
    requires Reaches(cfg, fetches, steps, s)
    ensures SlotsInv(cfg, s) && OpenInv(cfg, s)
    decreases |steps|
  {
    if steps == [] {
      AllOutCounts(fetches);
    } else {
      var p := LastStep(cfg, fetches, steps, s);
      CountsAlways(cfg, fetches, steps[..|steps| - 1], p);
      SlotsStep(cfg, p, steps[|steps| - 1]);
      OpenStep(cfg, p, steps[|steps| - 1]);
    }
  }

  /** In every reachable state a session is in exactly one place if it was ever created, and nowhere
      otherwise, and the gauge counts those not retired. */
  lemma {:induction false} PlacesAlways(cfg: Config, fetches: nat, steps: seq<Step>, s: State, id: nat)
    requires Reaches(cfg, fetches, steps, s)
    ensures PlaceInv(s, id) && GaugeInv(s)
    decreases |steps|
  {
    if steps == [] {
      AllOutCounts(fetches);
      NoneOccupied(AllOut(fetches), id);
    } else {
      var p := LastStep(cfg, fetches, steps, s);
      PlacesAlways(cfg, fetches, steps[..|steps| - 1], p, id);
      PlaceStep(cfg, p, steps[|steps| - 1], id);
    }
  }

  /** A full pool always has an idle session for a fetch that is about to acquire one, so the eviction
      test of acquire is enough to keep the cap. */
  lemma FullPoolHasIdle(cfg: Config, fetches: nat, steps: seq<Step>, s: State, t: nat)
    requires Reaches(cfg, fetches, steps, s) && t < |s.fetches| && (s.fetches[t].Passed? || s.fetches[t].Locked?)
    requires s.pool.shared.open >= cfg.poolSize
    ensures s.pool.shared.idle != []
  {
    CountsAlways(cfg, fetches, steps, s);
    RoomForHolder(s.fetches, t);
  }

  lemma {:induction false} EachAtMostOnce(m: multiset<nat>, n: nat)
    requires forall id: nat :: m[id] <= if id < n then 1 else 0
    ensures |m| <= n
    ensures (forall id: nat :: id < n ==> m[id] == 1) ==> |m| == n
  {
    if n == 0 {
      assert m == multiset{};
    } else {
      var rest := m - multiset{n - 1};
      EachAtMostOnce(rest, n - 1);
      assert |rest| == |m| - m[n - 1];
    }
  }

  /** A session leaves the gauge at most once, and the gauge is never negative. */
  lemma GaugeNeverNegative(cfg: Config, fetches: nat, steps: seq<Step>, s: State)
    requires Reaches(cfg, fetches, steps, s)
    ensures forall id: nat :: s.pool.retired[id] <= 1
    ensures 0 <= s.pool.gauge <= s.pool.created
  {
    forall id: nat
      ensures s.pool.retired[id] <= if id < s.pool.created then 1 else 0
    {
      PlacesAlways(cfg, fetches, steps, s, id);
    }
    PlacesAlways(cfg, fetches, steps, s, 0);
    EachAtMostOnce(s.pool.retired, s.pool.created);
  }
}
