/** Which session acquire takes (internal/fetcher/playwright.go): the oldest idle one that will do, else a new one, for
    which an idle session is given up only if the pool is full, and then the oldest. */
module SessionChoice {
  import opened Commons
  import opened SessionPool
  import opened SessionProtocol

  /** The sessions of the list that are dead, or those that are not, in their order. */
  function Sift(idle: seq<Session>, ids: set<nat>, dead: bool): (r: seq<Session>)
    ensures forall u :: u in r <==> u in idle && (u.id in ids) == dead
  {
    if idle == [] then []
    else
      var u := idle[|idle| - 1];
      Sift(idle[..|idle| - 1], ids, dead) + if (u.id in ids) == dead then [u] else []
  }

  predicate Fits(u: Session, key: string, browser: nat) {
    u.key == key && u.browser == browser
  }

  /** The first session of the list that will do, or the length of the list. */
  function FirstFit(alive: seq<Session>, key: string, browser: nat): (i: nat)
    ensures i <= |alive| && (i < |alive| ==> Fits(alive[i], key, browser))
    ensures forall j :: 0 <= j < i ==> !Fits(alive[j], key, browser)
  {
    if alive == [] || Fits(alive[0], key, browser) then 0 else 1 + FirstFit(alive[1..], key, browser)
  }

  lemma FirstFitOfMore(alive: seq<Session>, u: Session, key: string, browser: nat)
    ensures FirstFit(alive + [u], key, browser) ==
            if FirstFit(alive, key, browser) == |alive| && !Fits(u, key, browser) then |alive| + 1
            else FirstFit(alive, key, browser)
  {
    var more := alive + [u];
    var i, j := FirstFit(alive, key, browser), FirstFit(more, key, browser);
    assert more[|alive|] == u && forall k :: 0 <= k < |alive| ==> more[k] == alive[k];
    assert i < |alive| ==> Fits(more[i], key, browser);
  }

  function Without(alive: seq<Session>, i: nat): seq<Session>
    requires i < |alive|
  {
    alive[..i] + alive[i + 1..]
  }

  lemma WithoutOfMore(alive: seq<Session>, u: Session, i: nat)
    requires i <= |alive|
    ensures Without(alive + [u], i) == if i < |alive| then Without(alive, i) + [u] else alive
  {
  }

  lemma WithoutKeeps(alive: seq<Session>, i: nat, u: Session)
    requires i < |alive| && u in alive && u != alive[i]
    ensures u in Without(alive, i)
  {
    var k :| 0 <= k < |alive| && alive[k] == u;
    assert Without(alive, i)[if k < i then k else k - 1] == u;
  }

  /** What the scan must give: the first of the living that will do is taken out. */
  ghost predicate ScansRight(r: Scan, gone: seq<Session>, alive: seq<Session>, key: string, browser: nat) {
    var i := FirstFit(alive, key, browser);
    && r.stale == gone
    && (if i == |alive| then r.reuse == None && r.kept == alive
        else r.reuse == Some(alive[i]) && r.kept == Without(alive, i))
  }

  lemma ScanOneMore(r: Scan, gone: seq<Session>, alive: seq<Session>, key: string, browser: nat, u: Session)
    requires ScansRight(r, gone, alive, key, browser)
    ensures var q := if r.reuse.None? && Fits(u, key, browser) then r.(reuse := Some(u)) else r.(kept := r.kept + [u]);
            ScansRight(q, gone, alive + [u], key, browser)
  {
    FirstFitOfMore(alive, u, key, browser);
    WithoutOfMore(alive, u, FirstFit(alive, key, browser));
  }

  lemma {:induction false} ScanTakesOldest(idle: seq<Session>, key: string, browser: nat, dead: set<nat>)
    ensures ScansRight(
              ScanIdle(idle, key, browser, dead), Sift(idle, dead, true), Sift(idle, dead, false), key, browser)
  {
    if idle != [] {
      var front, u := idle[..|idle| - 1], idle[|idle| - 1];
      var gone, alive := Sift(front, dead, true), Sift(front, dead, false);
      ScanTakesOldest(front, key, browser, dead);
      ScanOneMore(ScanIdle(front, key, browser, dead), gone, alive, key, browser, u);
      assert gone + [] == gone && alive + [] == alive;
    }
  }

  /** What acquire does on a connected browser, by the idle list alone. The dead ones go, off the count and to be
      closed. If one of the others has the key and the browser, the oldest such is taken and the rest stay. If none
      has, and those open without the dead have reached the size of the pool, the oldest goes too, if there is one,
      and its place is taken; and in all other cases all stay and one more is reserved. */
  lemma PickByAge(sh: Shared, key: string, poolSize: nat, browser: nat, dead: set<nat>)
    ensures var gone, alive := Sift(sh.idle, dead, true), Sift(sh.idle, dead, false);
            var open := sh.open - |gone|;
            var i := FirstFit(alive, key, browser);
            Pick(sh, key, poolSize, browser, dead) ==
            if i < |alive| then
              Picked(sh.(idle := Without(alive, i), open := open), Reuse(alive[i], gone))
            else if open >= poolSize && alive != [] then
              Picked(sh.(idle := alive[1..], open := open), Create(browser, gone + [alive[0]]))
            else
              Picked(sh.(idle := alive, open := open + 1), Create(browser, gone))
  {
    ScanTakesOldest(sh.idle, key, browser, dead);
  }

  /** A living session is left idle, or handed out, or is the oldest and must make room. */
  lemma EvictedIsOldest(sh: Shared, key: string, poolSize: nat, browser: nat, dead: set<nat>, u: Session)
    requires u in sh.idle && u.id !in dead
    ensures var c := Pick(sh, key, poolSize, browser, dead);
            var alive := Sift(sh.idle, dead, false);
            || u in c.shared.idle
            || (c.grant.Reuse? && c.grant.session == u)
            || (&& sh.open - |Sift(sh.idle, dead, true)| >= poolSize
                && u in alive && alive[0] == u && forall v :: v in alive ==> !Fits(v, key, browser))
  {
    PickByAge(sh, key, poolSize, browser, dead);
    var alive := Sift(sh.idle, dead, false);
    var i := FirstFit(alive, key, browser);
    if i < |alive| {
      if u != alive[i] {
        WithoutKeeps(alive, i, u);
      }
    } else if alive[0] != u {
      WithoutKeeps(alive, 0, u);
      assert Without(alive, 0) == alive[1..];
    }
  }

  /** In every state: if acquire, on a connected browser, takes a living session out of the idle list and does not
      hand it to its fetch, then no idle session would do, those open without the dead have reached the size of the
      pool, and it is the oldest living one. */
  lemma EvictsOldestOnlyIfFull(cfg: Config, s: State, t: nat, works: bool, u: Session)
    requires Enabled(cfg, s, InFetch(t, AcquireLocked(works)))
    requires s.pool.shared.browser.Some? && s.pool.shared.browser.value in s.pool.alive
    requires u in s.pool.shared.idle && u.id !in s.pool.crashed + s.pool.pageClosed
    ensures var n := Apply(cfg, s, InFetch(t, AcquireLocked(works)));
            var dead := s.pool.crashed + s.pool.pageClosed;
            var alive := Sift(s.pool.shared.idle, dead, false);
            u !in n.pool.shared.idle && !(n.fetches[t].Reusing? && n.fetches[t].session == u) ==>
              && s.pool.shared.open - |Sift(s.pool.shared.idle, dead, true)| >= cfg.poolSize
              && u in alive && alive[0] == u
              && forall v :: v in alive ==> !Fits(v, s.fetches[t].key, s.pool.shared.browser.value)
  {
    var sh, key, b := s.pool.shared, s.fetches[t].key, s.pool.shared.browser.value;
    var w := WorldOf(s.pool, s.fetches[t].closed, s.fetches[t].at, works);
    OnConnectedBrowser(sh, key, cfg.poolSize, w);
    EvictedIsOldest(sh, key, cfg.poolSize, b, w.Dead(), u);
  }

  lemma OnConnectedBrowser(sh: Shared, key: string, poolSize: nat, w: World)
    requires sh.browser.Some? && sh.browser.value in w.alive
    ensures var c := Pick(sh, key, poolSize, sh.browser.value, w.Dead());
            AcquireStep(sh, key, poolSize, w) == Acquired(c.shared, c.grant, [])
  {
  }

  // ------------------------------------------------- it does come to that

  ghost predicate CanReach(cfg: Config, fetches: nat, s: State) {
    exists steps :: Reaches(cfg, fetches, steps, s)
  }

  lemma OneMoreStep(cfg: Config, fetches: nat, s: State, step: Step)
    requires CanReach(cfg, fetches, s) && Enabled(cfg, s, step)
    ensures CanReach(cfg, fetches, Apply(cfg, s, step))
  {
    var steps :| Reaches(cfg, fetches, steps, s);
    var more := steps + [step];
    assert more[..|more| - 1] == steps && more[|more| - 1] == step;
    assert ReachesBy(cfg, fetches, more, Apply(cfg, s, step));
    assert Reaches(cfg, fetches, more, Apply(cfg, s, step));
  }

  /** Nothing is going on: one fetch that is out, and these idle sessions. */
  ghost predicate Resting(s: State, idle: seq<Session>) {
    && s.fetches == [Out] && s.closer.NotCalled? && s.pool.slots == 0 && !s.pool.locked
    && s.pool.shared == Shared(idle, |idle|, Some(0), 0, 0) && s.pool.alive == {0}
    && s.pool.crashed == {} && s.pool.pageClosed == {} && s.pool.created == s.pool.gauge == |idle|
    && s.pool.launched == 1 && s.pool.now == 0
  }

  /** The fetch comes up to the locked section of acquire. */
  lemma Enters(cfg: Config, s: State, key: string) returns (c: State)
    requires CanReach(cfg, 1, s) && s.fetches == [Out] && s.closer.NotCalled? && s.pool.slots == 0 && !s.pool.locked
    requires cfg.poolSize >= 1
    ensures CanReach(cfg, 1, c) && c.closer.NotCalled? && c.fetches == [Locked(key, false, c.pool.now)]
    ensures c.pool == s.pool.(slots := 1, locked := true)
  {
    OneMoreStep(cfg, 1, s, InFetch(0, TakeSlot(key)));
    var a := Apply(cfg, s, InFetch(0, TakeSlot(key)));
    OneMoreStep(cfg, 1, a, InFetch(0, CheckClosed));
    var b := Apply(cfg, a, InFetch(0, CheckClosed));
    OneMoreStep(cfg, 1, b, InFetch(0, Lock));
    c := Apply(cfg, b, InFetch(0, Lock));
  }

  /** And through it. */
  lemma Acquires(cfg: Config, s: State, idle: seq<Session>, key: string) returns (n: State)
    requires CanReach(cfg, 1, s) && Resting(s, idle) && cfg.poolSize >= 1
    ensures CanReach(cfg, 1, n) && n.closer.NotCalled? && n.pool.slots == 1 && !n.pool.locked && n.pool.alive == {0}
    ensures var c := Pick(s.pool.shared, key, cfg.poolSize, 0, {});
            n.pool.shared == c.shared && n.fetches == [Granted(key, c.grant)]
    ensures n.pool.crashed == {} && n.pool.pageClosed == {} && n.pool.created == n.pool.gauge == |idle|
    ensures n.pool.launched == 1 && n.pool.now == 0
  {
    var c := Enters(cfg, s, key);
    OneMoreStep(cfg, 1, c, InFetch(0, AcquireLocked(true)));
    n := Apply(cfg, c, InFetch(0, AcquireLocked(true)));
    var w := WorldOf(c.pool, false, c.pool.now, true);
    OnConnectedBrowser(c.pool.shared, key, cfg.poolSize, w);
    assert w.Dead() == {} && IdsOf([]) == multiset{};
  }

  lemma FirstFetch(cfg: Config, key: string) returns (n: State)
    requires cfg.poolSize >= 1 && cfg.maxUses >= 2
    ensures CanReach(cfg, 1, n) && Resting(n, [Session(0, key, 0, 1)])
  {
    var s := Init(1);
    assert Reaches(cfg, 1, [], s) && s.fetches == [Out];
    var a := Acquires(cfg, s, [], key);
    assert a.fetches == [Creating(key, 0, [])];
    OneMoreStep(cfg, 1, a, InFetch(0, NewSession(true)));
    var b := Apply(cfg, a, InFetch(0, NewSession(true)));
    assert b.fetches == [Fetching(Session(0, key, 0, 0))];
    OneMoreStep(cfg, 1, b, InFetch(0, ReleaseLocked(true)));
    var c := Apply(cfg, b, InFetch(0, ReleaseLocked(true)));
    assert c.fetches == [Leaving] && c.pool.shared.idle == [Session(0, key, 0, 1)];
    OneMoreStep(cfg, 1, c, InFetch(0, FreeSlot));
    n := Apply(cfg, c, InFetch(0, FreeSlot));
  }

  /** A second fetch with the key of the first works with the session that the first one opened. */
  lemma SecondFetchReuses(cfg: Config, key: string) returns (n: State)
    requires cfg.poolSize >= 1 && cfg.maxUses >= 2
    ensures CanReach(cfg, 1, n) && n.fetches == [Fetching(Session(0, key, 0, 1))]
    ensures n.pool.created == n.pool.gauge == 1 && n.pool.shared.idle == [] && n.pool.shared.open == 1
  {
    var u := Session(0, key, 0, 1);
    var s := FirstFetch(cfg, key);
    var a := Acquires(cfg, s, [u], key);
    PickByAge(s.pool.shared, key, cfg.poolSize, 0, {});
    assert Sift([u], {}, false) == [u] && Sift([u], {}, true) == [];
    assert Without([u], 0) == [];
    assert a.fetches == [Reusing(u, [])];
    OneMoreStep(cfg, 1, a, InFetch(0, StartFetch));
    n := Apply(cfg, a, InFetch(0, StartFetch));
  }

  /** The browser dies while a session is idle: the next fetch launches another, in which it opens a session of its own,
      and the idle one is dropped. */
  lemma DeadBrowserIsReplaced(cfg: Config, key: string) returns (n: State)
    requires cfg.poolSize >= 1 && cfg.maxUses >= 2
    ensures CanReach(cfg, 1, n) && n.fetches == [Creating(key, 1, [])]
    ensures n.pool.shared == Shared([], 1, Some(1), 0, 0) && n.pool.alive == {1} && n.pool.gauge == 0
  {
    var u := Session(0, key, 0, 1);
    var s := FirstFetch(cfg, key);
    OneMoreStep(cfg, 1, s, Outside(BrowserDies(0)));
    var a := Apply(cfg, s, Outside(BrowserDies(0)));
    var d := Enters(cfg, a, key);
    OneMoreStep(cfg, 1, d, InFetch(0, AcquireLocked(true)));
    n := Apply(cfg, d, InFetch(0, AcquireLocked(true)));
    OnDeadBrowser(d.pool.shared, u, key, cfg.poolSize, WorldOf(d.pool, false, d.pool.now, true));
  }

  lemma OnDeadBrowser(sh: Shared, u: Session, key: string, poolSize: nat, w: World)
    requires sh == Shared([u], 1, Some(0), 0, 0) && u.browser == 0 && 0 !in w.alive && !w.closed && w.now >= 0
    requires w.launch == Some(1) && poolSize >= 1
    ensures AcquireStep(sh, key, poolSize, w) == Acquired(Shared([], 1, Some(1), 0, 0), Create(1, []), [u])
    ensures IdsOf([u]) == multiset{u.id}
  {
    OneSession(u);
    var kept := Shared([], 0, Some(0), 0, 0);
    assert BrowserStep(sh, w) == Launched(kept.(browser := Some(1)), Ready(1), [u]);
    assert ScanIdle([], key, 1, w.Dead()) == Scan([], None, []);
  }

  lemma OneSession(u: Session)
    ensures OfBrowser([u], u.browser) == [u] && NotOfBrowser([u], u.browser) == [] && IdsOf([u]) == multiset{u.id}
  {
    assert [u][..0] == [];
    assert OfBrowser([], u.browser) == [] && NotOfBrowser([], u.browser) == [] && IdsOf([]) == multiset{};
    assert [] + [u] == [u];
  }
}
