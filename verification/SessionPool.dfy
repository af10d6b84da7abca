/** internal/fetcher/playwright.go: the sections that PlaywrightFetcher runs under its mutex, as the
    methods of a class over its fields, each proved to be a function of what it finds there. */
module SessionPool {
  import opened Commons

  /** One browser context with its page. Ids number the sessions in order of creation. */
  datatype Session = Session(id: nat, key: string, browser: nat, uses: nat)

  /** The fields the mutex guards. Times are whole seconds. */
  datatype Shared = Shared(
    idle: seq<Session>, open: int, browser: Option<nat>, launchFailures: nat, nextLaunch: int)

  /** What a section sees of the world outside: the closed flag, the browsers still connected, the
      sessions whose page crashed, those whose page is closed, the clock when the section begins and when a
      launch in it has failed, and the browser a launch would give. */
  datatype World = World(
    closed: bool, alive: set<nat>, crashed: set<nat>, pageClosed: set<nat>, now: int, after: int, launch: Option<nat>)
  {
    function Dead(): set<nat> {
      crashed + pageClosed
    }
  }

  const MAX_LAUNCH_BACKOFF := 30

  /** The wait after the `failures`-th failed launch in a row. */
  function Backoff(failures: nat): (d: nat)
    requires failures >= 1
  {
    var shift := if failures - 1 < 5 then failures - 1 else 5;
    if Pow2(shift) > MAX_LAUNCH_BACKOFF then MAX_LAUNCH_BACKOFF else Pow2(shift)
  }

  // ------------------------------------------------------------- filters

  function OfBrowser(idle: seq<Session>, b: nat): seq<Session> {
    if idle == [] then []
    else OfBrowser(idle[..|idle| - 1], b)
         + (if idle[|idle| - 1].browser == b then [idle[|idle| - 1]] else [])
  }

  function NotOfBrowser(idle: seq<Session>, b: nat): seq<Session> {
    if idle == [] then []
    else NotOfBrowser(idle[..|idle| - 1], b)
         + (if idle[|idle| - 1].browser == b then [] else [idle[|idle| - 1]])
  }

  /** What the scan of the idle list has found: the dead ones, the one to reuse, the others. */
  datatype Scan = Scan(stale: seq<Session>, reuse: Option<Session>, kept: seq<Session>)

  predicate Reusable(s: Session, key: string, browser: nat, dead: set<nat>) {
    s.id !in dead && s.key == key && s.browser == browser
  }

  function ScanIdle(idle: seq<Session>, key: string, browser: nat, dead: set<nat>): (r: Scan) {
    if idle == [] then Scan([], None, [])
    else
      var r := ScanIdle(idle[..|idle| - 1], key, browser, dead);
      var s := idle[|idle| - 1];
      if s.id in dead then r.(stale := r.stale + [s])
      else if r.reuse.None? && s.key == key && s.browser == browser then r.(reuse := Some(s))
      else r.(kept := r.kept + [s])
  }

  /** The scan finds a session to reuse exactly if there is one, drops only dead ones and keeps no dead one. */
  lemma {:induction false} ScanFinds(idle: seq<Session>, key: string, browser: nat, dead: set<nat>)
    ensures var r := ScanIdle(idle, key, browser, dead);
            && (r.reuse.Some? ==> r.reuse.value in idle && Reusable(r.reuse.value, key, browser, dead))
            && (r.reuse.None? ==> forall s :: s in idle ==> !Reusable(s, key, browser, dead))
            && (forall s :: s in r.kept ==> s in idle && s.id !in dead)
            && (forall s :: s in r.stale ==> s in idle && s.id in dead)
  {
    if idle != [] {
      ScanFinds(idle[..|idle| - 1], key, browser, dead);
    }
  }

  lemma {:induction false} ScanLosesNone(idle: seq<Session>, key: string, browser: nat, dead: set<nat>)
    ensures var r := ScanIdle(idle, key, browser, dead);
            |r.stale| + |r.kept| + (if r.reuse.Some? then 1 else 0) == |idle|
  {
    if idle != [] {
      ScanLosesNone(idle[..|idle| - 1], key, browser, dead);
    }
  }

  // ------------------------------------------------------------ sections

  /** The idle sessions of the current browser, and the others. */
  function DroppedOf(sh: Shared): seq<Session> {
    if sh.browser.Some? then OfBrowser(sh.idle, sh.browser.value) else []
  }

  function KeptOf(sh: Shared): seq<Session> {
    if sh.browser.Some? then NotOfBrowser(sh.idle, sh.browser.value) else sh.idle
  }

  function AfterFailure(sh: Shared, now: int): Shared {
    var failures := sh.launchFailures + 1;
    sh.(launchFailures := failures, nextLaunch := now + Backoff(failures))
  }

  datatype BrowserResult = Ready(browser: nat) | Closed | Unavailable | LaunchFailed

  datatype Launched = Launched(shared: Shared, result: BrowserResult, dropped: seq<Session>)

  /** browserLocked. `dropped` are the idle sessions of a dead browser. */
  function BrowserStep(sh: Shared, w: World): Launched {
    if sh.browser.Some? && sh.browser.value in w.alive then Launched(sh, Ready(sh.browser.value), [])
    else if w.closed then Launched(sh, Closed, [])
    else if w.now < sh.nextLaunch then Launched(sh, Unavailable, [])
    else
      var kept := sh.(idle := KeptOf(sh), open := sh.open - |DroppedOf(sh)|);
      match w.launch
      case None => Launched(AfterFailure(kept, w.after), LaunchFailed, DroppedOf(sh))
      case Some(b) =>
        Launched(kept.(browser := Some(b), launchFailures := 0, nextLaunch := 0), Ready(b), DroppedOf(sh))
  }

  datatype Grant =
    | Refused(why: BrowserResult)
    | Reuse(session: Session, toClose: seq<Session>)
    | Create(browser: nat, toClose: seq<Session>)

  datatype Acquired = Acquired(shared: Shared, grant: Grant, dropped: seq<Session>)

  datatype Picked = Picked(shared: Shared, grant: Grant)

  /** A session for `key` on the given browser: an idle one that is not dead, else a new one, in the place
      of the oldest idle session if the pool is full. */
  function Pick(sh: Shared, key: string, poolSize: nat, browser: nat, dead: set<nat>): Picked {
    Choose(sh, ScanIdle(sh.idle, key, browser, dead), poolSize, browser)
  }

  function Choose(sh: Shared, r: Scan, poolSize: nat, browser: nat): Picked {
    var open := sh.open - |r.stale|;
    if r.reuse.Some? then Picked(sh.(idle := r.kept, open := open), Reuse(r.reuse.value, r.stale))
    else if open >= poolSize && |r.kept| > 0 then
      Picked(sh.(idle := r.kept[1..], open := open), Create(browser, r.stale + [r.kept[0]]))
    else Picked(sh.(idle := r.kept, open := open + 1), Create(browser, r.stale))
  }

  /** The locked section of acquire. */
  function AcquireStep(sh: Shared, key: string, poolSize: nat, w: World): Acquired {
    var l := BrowserStep(sh, w);
    if !l.result.Ready? then Acquired(l.shared, Refused(l.result), l.dropped)
    else
      var c := Pick(l.shared, key, poolSize, l.result.browser, w.Dead());
      Acquired(c.shared, c.grant, l.dropped)
  }

  /** Whether release keeps a session that has just served another fetch. */
  predicate Keeps(sh: Shared, s: Session, healthy: bool, maxUses: nat, w: World) {
    && healthy && !w.closed && s.id !in w.crashed && s.uses < maxUses
    && sh.browser == Some(s.browser) && s.browser in w.alive
  }

  /** The locked section of release, for a session whose uses are already counted. */
  function ReleaseStep(sh: Shared, s: Session, healthy: bool, maxUses: nat, w: World): Shared {
    if Keeps(sh, s, healthy, maxUses, w) then sh.(idle := sh.idle + [s]) else sh.(open := sh.open - 1)
  }

  /** The locked section of Close. */
  function EmptyStep(sh: Shared): Shared {
    sh.(idle := [], open := sh.open - |sh.idle|)
  }

  // --------------------------------------------------------------- class

  class PlaywrightFetcher {
    const poolSize: nat
    const maxSessionUses: nat
    var idle: seq<Session>
    var open: int
    var browser: Option<nat>
    var launchFailures: nat
    var nextLaunch: int

    function State(): Shared
      reads this
    {
      Shared(idle, open, browser, launchFailures, nextLaunch)
    }

    constructor (size: int, uses: int)
      ensures poolSize == (if size <= 0 then 4 else size) && maxSessionUses == (if uses <= 0 then 50 else uses)
      ensures State() == Shared([], 0, None, 0, 0)
    {
      poolSize := if size <= 0 then 4 else size;
      maxSessionUses := if uses <= 0 then 50 else uses;
      idle, open, browser, launchFailures, nextLaunch := [], 0, None, 0, 0;
    }

    method BrowserLocked(w: World) returns (result: BrowserResult, dropped: seq<Session>)
      modifies this
      ensures Launched(State(), result, dropped) == BrowserStep(old(State()), w)
    {
      dropped := [];
      if browser.Some? && browser.value in w.alive {
        return Ready(browser.value), [];
      }
      if w.closed {
        return Closed, [];
      }
      if w.now < nextLaunch {
        return Unavailable, [];
      }
      if browser.Some? {
        var kept := [];
        for i := 0 to |idle|
          invariant idle == old(idle) && browser == old(browser) && open == old(open) - |dropped|
          invariant launchFailures == old(launchFailures) && nextLaunch == old(nextLaunch)
          invariant dropped == OfBrowser(idle[..i], browser.value)
          invariant kept == NotOfBrowser(idle[..i], browser.value)
        {
          assert idle[..i + 1][..i] == idle[..i];
          if idle[i].browser == browser.value {
            open := open - 1;
            dropped := dropped + [idle[i]];
          } else {
            kept := kept + [idle[i]];
          }
        }
        assert idle[..|idle|] == idle;
        idle := kept;
      }
      if w.launch.None? {
        launchFailures := launchFailures + 1;
        nextLaunch := w.after + Backoff(launchFailures);
        return LaunchFailed, dropped;
      }
      launchFailures, nextLaunch := 0, 0;
      browser := w.launch;
      result := Ready(browser.value);
    }

    method AcquireLocked(key: string, w: World) returns (grant: Grant, dropped: seq<Session>)
      modifies this
      ensures Acquired(State(), grant, dropped) == AcquireStep(old(State()), key, poolSize, w)
    {
      var result;
      result, dropped := BrowserLocked(w);
      if !result.Ready? {
        return Refused(result), dropped;
      }
      var stale, reuse := Sweep(key, result.browser, w.Dead());
      if reuse.Some? {
        return Reuse(reuse.value, stale), dropped;
      }
      if open >= poolSize && |idle| > 0 {
        stale := stale + [idle[0]];
        idle := idle[1..];
        open := open - 1;
      }
      open := open + 1;
      grant := Create(result.browser, stale);
    }

    /** The loop of acquire over the idle list. */
    method Sweep(key: string, browser: nat, dead: set<nat>) returns (stale: seq<Session>, reuse: Option<Session>)
      modifies this`idle, this`open
      ensures Scan(stale, reuse, idle) == ScanIdle(old(idle), key, browser, dead)
      ensures open == old(open) - |stale|
    {
      var kept := [];
      stale, reuse := [], None;
      for i := 0 to |idle|
        invariant idle == old(idle) && open == old(open) - |stale|
        invariant Scan(stale, reuse, kept) == ScanIdle(idle[..i], key, browser, dead)
      {
        assert idle[..i + 1][..i] == idle[..i];
        var s := idle[i];
        if s.id in dead {
          stale := stale + [s];
          open := open - 1;
        } else if reuse.None? && s.key == key && s.browser == browser {
          reuse := Some(s);
        } else {
          kept := kept + [s];
        }
      }
      assert idle[..|idle|] == idle;
      idle := kept;
    }

    method ReleaseLocked(s: Session, healthy: bool, w: World) returns (keep: bool)
      modifies this
      ensures State() == ReleaseStep(old(State()), s, healthy, maxSessionUses, w)
      ensures keep == Keeps(old(State()), s, healthy, maxSessionUses, w)
      ensures keep <==>
                && healthy && !w.closed && s.id !in w.crashed && s.uses < maxSessionUses
                && old(browser) == Some(s.browser) && s.browser in w.alive
      ensures idle == if keep then old(idle) + [s] else old(idle)
      ensures open == if keep then old(open) else old(open) - 1
    {
      keep := healthy && !w.closed && s.id !in w.crashed && s.uses < maxSessionUses
              && browser == Some(s.browser) && s.browser in w.alive;
      if keep {
        idle := idle + [s];
      } else {
        open := open - 1;
      }
    }

    method UnreserveLocked()
      modifies this`open
      ensures State() == old(State()).(open := old(open) - 1)
    {
      open := open - 1;
    }

    method CloseLocked() returns (toClose: seq<Session>)
      modifies this
      ensures toClose == old(idle) && State() == EmptyStep(old(State()))
    {
      toClose := idle;
      idle := [];
      open := open - |toClose|;
    }
  }
}
