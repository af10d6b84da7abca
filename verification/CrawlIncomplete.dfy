/** Where the documented promise of Crawler.Run (internal/crawl/crawler.go) fails: a family of sites and
    runs with two or more workers in which a page within MaxDepth links is never visited, although
    nothing was cancelled and the budget was not exhausted. Together with CrawlCompleteness this gives
    the exact condition. */
module CrawlIncomplete {
  import opened Crawl
  import opened CrawlSafety
  import opened CrawlCompleteness

  // A chain V(0) -> V(1) -> ... -> V(d), a start page "b" that links straight to V(d), and a page "e"
  // that only V(d) links to. While "b" is slow, V(d) is found along the chain, on the last level.

  function V(k: nat): (u: Url)
    ensures |u| == k + 1 && u[0] == 'v'
  {
    if k == 0 then "v" else V(k - 1) + "v"
  }

  function ChainLinks(d: nat, u: Url): seq<Url> {
    if u == "b" then [V(d)]
    else if u != "" && u == V(|u| - 1) && |u| - 1 < d then [V(|u|)]
    else if u == V(d) then ["e"]
    else []
  }

  function ChainSite(d: nat): Site {
    Site(_ => Fetched, u => ChainLinks(d, u))
  }

  function ChainConfig(workers: nat, d: nat, pages: nat): Config {
    Config(workers, d, pages, ["b", V(0)], ChainSite(d))
  }

  /** The jobs handed out once "b" and the first `n` pages of the chain are. */
  function ChainHanded(n: nat): seq<Job> {
    if n == 0 then [Job("b", 0)] else ChainHanded(n - 1) + [Job(V(n - 1), n - 1)]
  }

  lemma {:induction false} HandedShape(n: nat)
    ensures var jobs := ChainHanded(n);
            && |jobs| == n + 1 && jobs[0] == Job("b", 0)
            && forall i :: 0 < i <= n ==> jobs[i] == Job(V(i - 1), i - 1)
  {
    if n > 0 {
      HandedShape(n - 1);
    }
  }

  function ChainSeen(n: nat): set<Url> {
    if n == 0 then {"b"} else ChainSeen(n - 1) + {V(n - 1)}
  }

  lemma {:induction false} SeenShape(n: nat)
    ensures |ChainSeen(n)| == n + 1
    ensures forall u :: u in ChainSeen(n) ==> u == "b" || (|u| <= n && u != "" && u[0] == 'v')
  {
    if n > 0 {
      SeenShape(n - 1);
      assert V(n - 1) !in ChainSeen(n - 1);
    }
  }

  function ChainFront(d: nat, k: nat): Front {
    if k <= d then Front(ChainSeen(k + 1), [Job(V(k), k)], k + 2, false)
    else Front(ChainSeen(d + 1), [], d + 2, false)
  }

  /** "b" was handed to worker 0, and the first `k` pages of the chain are done. */
  ghost predicate AtRound(s: State, workers: nat, d: nat, k: nat) {
    && s.front == ChainFront(d, k) && s.handed == ChainHanded(k)
    && s.inFlight == 1 && !s.ctxEnded
    && |s.workers| == workers >= 2 && s.workers[0] == Visiting(Job("b", 0)) && s.workers[1].Waiting?
  }

  ghost predicate CanReach(cfg: Config, s: State) {
    exists steps :: Reaches(cfg, steps, s)
  }

  lemma OneMoreStep(cfg: Config, s: State, step: Step)
    requires CanReach(cfg, s) && Enabled(s, step)
    ensures CanReach(cfg, Apply(cfg, s, step))
  {
    var steps :| Reaches(cfg, steps, s);
    var more := steps + [step];
    assert more[..|more| - 1] == steps && more[|more| - 1] == step;
    assert ReachesBy(cfg, more, Apply(cfg, s, step));
    assert Reaches(cfg, more, Apply(cfg, s, step));
  }

  lemma EnqueueOneJob(f: Front, j: Job, maxPages: nat)
    ensures EnqueueAll(f, [j], maxPages) == Enqueue(f, j, maxPages)
  {
    assert [j][..0] == [];
  }

  lemma StartFront(pages: nat)
    requires pages >= 2
    ensures EnqueueAll(EMPTY_FRONT, JobsAt(["b", V(0)], 0), pages)
         == Front(ChainSeen(1), [Job("b", 0), Job(V(0), 0)], 2, false)
  {
    var b, v := Job("b", 0), Job(V(0), 0);
    var jobs := JobsAt(["b", V(0)], 0);
    assert jobs[..1] == [b] && jobs[1] == v;
    EnqueueOneJob(EMPTY_FRONT, b, pages);
    var f := Front({"b"}, [b], 1, false);
    assert EnqueueAll(EMPTY_FRONT, [b], pages) == f by {
      assert {} + {"b"} == {"b"} && [] + [b] == [b];
    }
    assert ChainSeen(1) == ChainSeen(0) + {V(0)};
    assert [b] + [v] == [b, v];
  }

  lemma FirstRound(workers: nat, d: nat, pages: nat) returns (s: State)
    requires workers >= 2 && pages >= 2
    ensures CanReach(ChainConfig(workers, d, pages), s) && AtRound(s, workers, d, 0)
  {
    var cfg := ChainConfig(workers, d, pages);
    StartFront(pages);
    assert Reaches(cfg, [], Init(cfg));
    OneMoreStep(cfg, Init(cfg), HandOut(0));
    s := Apply(cfg, Init(cfg), HandOut(0));
    assert [Job("b", 0), Job(V(0), 0)][1..] == [Job(V(0), 0)];
    assert [] + [Job("b", 0)] == ChainHanded(0);
  }

  lemma LinksOfChain(d: nat, k: nat)
    requires k <= d
    ensures LinksOf(ChainSite(d), V(k)) == if k < d then [V(k + 1)] else ["e"]
  {
    assert |V(k)| == k + 1 && V(k) != "b";
    assert k == d || |V(k)| != |V(d)|;
  }

  lemma JobsOfChain(workers: nat, d: nat, pages: nat, k: nat)
    requires k <= d
    ensures JobsFrom(ChainConfig(workers, d, pages), Job(V(k), k)) == if k < d then [Job(V(k + 1), k + 1)] else []
  {
    LinksOfChain(d, k);
  }

  /** What the page V(k) adds to the frontier. */
  lemma ChainFrontGrows(d: nat, pages: nat, k: nat, jobs: seq<Job>)
    requires k <= d && pages >= d + 2
    requires jobs == if k < d then [Job(V(k + 1), k + 1)] else []
    ensures EnqueueAll(ChainFront(d, k).(pending := []), jobs, pages) == ChainFront(d, k + 1)
  {
    SeenShape(k + 1);
    if k < d {
      EnqueueOneJob(ChainFront(d, k).(pending := []), Job(V(k + 1), k + 1), pages);
      assert V(k + 1) !in ChainSeen(k + 1);
      assert [] + [Job(V(k + 1), k + 1)] == [Job(V(k + 1), k + 1)];
    }
  }

  /** The state once worker 1 has done a page while the others keep what they have. */
  function AfterVisit(cfg: Config, s: State, j: Job): State {
    s.(front := EnqueueAll(s.front.(pending := []), JobsFrom(cfg, j), cfg.maxPages),
       handed := s.handed + [j], fetched := s.fetched + 1, visited := s.visited + [j])
  }

  lemma AfterVisitSteps(cfg: Config, s: State, j: Job)
    requires s.front.pending == [j] && !s.ctxEnded
    requires |s.workers| >= 2 && s.workers[1].Waiting? && cfg.site.outcome(j.url).Fetched?
    ensures Apply(cfg, Apply(cfg, Apply(cfg, s, HandOut(1)), Finish(1, false)), Receive(1)) == AfterVisit(cfg, s, j)
  {
    assert [j][1..] == [];
    assert s.workers[1 := Visiting(j)][1 := Reporting(j, JobsFrom(cfg, j))][1 := Waiting] == s.workers;
  }

  lemma OneVisit(cfg: Config, s: State, j: Job)
    requires CanReach(cfg, s) && s.front.pending == [j] && !s.ctxEnded
    requires |s.workers| >= 2 && s.workers[1].Waiting? && cfg.site.outcome(j.url).Fetched?
    ensures CanReach(cfg, AfterVisit(cfg, s, j))
  {
    AfterVisitSteps(cfg, s, j);
    OneMoreStep(cfg, s, HandOut(1));
    OneMoreStep(cfg, Apply(cfg, s, HandOut(1)), Finish(1, false));
    OneMoreStep(cfg, Apply(cfg, Apply(cfg, s, HandOut(1)), Finish(1, false)), Receive(1));
  }

  lemma NextRound(s: State, workers: nat, d: nat, pages: nat, k: nat)
    requires AtRound(s, workers, d, k) && pages >= d + 2 && k <= d
    ensures AtRound(AfterVisit(ChainConfig(workers, d, pages), s, Job(V(k), k)), workers, d, k + 1)
  {
    JobsOfChain(workers, d, pages, k);
    ChainFrontGrows(d, pages, k, JobsFrom(ChainConfig(workers, d, pages), Job(V(k), k)));
  }

  lemma RoundStep(p: State, workers: nat, d: nat, pages: nat, k: nat) returns (s: State)
    requires CanReach(ChainConfig(workers, d, pages), p) && AtRound(p, workers, d, k)
    requires pages >= d + 2 && k <= d
    ensures CanReach(ChainConfig(workers, d, pages), s) && AtRound(s, workers, d, k + 1)
  {
    OneVisit(ChainConfig(workers, d, pages), p, Job(V(k), k));
    NextRound(p, workers, d, pages, k);
    s := AfterVisit(ChainConfig(workers, d, pages), p, Job(V(k), k));
  }

  ghost predicate RoundDone(workers: nat, d: nat, pages: nat, k: nat) {
    exists s :: CanReach(ChainConfig(workers, d, pages), s) && AtRound(s, workers, d, k)
  }

  lemma NoRoundDone(workers: nat, d: nat, pages: nat)
    requires workers >= 2 && pages >= 2
    ensures RoundDone(workers, d, pages, 0)
  {
    var s := FirstRound(workers, d, pages);
  }

  lemma OneMoreRoundDone(workers: nat, d: nat, pages: nat, k: nat)
    requires RoundDone(workers, d, pages, k) && pages >= d + 2 && k <= d
    ensures RoundDone(workers, d, pages, k + 1)
  {
    var p :| CanReach(ChainConfig(workers, d, pages), p) && AtRound(p, workers, d, k);
    var s := RoundStep(p, workers, d, pages, k);
  }

  lemma {:induction false} EveryRound(workers: nat, d: nat, pages: nat, k: nat)
    requires workers >= 2 && pages >= d + 2 && k <= d + 1
    ensures RoundDone(workers, d, pages, k)
  {
    if k == 0 {
      NoRoundDone(workers, d, pages);
    } else {
      EveryRound(workers, d, pages, k - 1);
      OneMoreRoundDone(workers, d, pages, k - 1);
    }
  }

  /** The slow page comes back last, and has nothing new. */
  lemma LastRound(workers: nat, d: nat, pages: nat) returns (s: State)
    requires workers >= 2 && d >= 2 && pages >= d + 2
    ensures CanReach(ChainConfig(workers, d, pages), s)
    ensures Unhindered(s) && !Looping(s) && s.handed == ChainHanded(d + 1)
  {
    EveryRound(workers, d, pages, d + 1);
    var before :| CanReach(ChainConfig(workers, d, pages), before) && AtRound(before, workers, d, d + 1);
    s := SlowPageReturns(before, workers, d, pages);
  }

  lemma SlowPageReturns(before: State, workers: nat, d: nat, pages: nat) returns (s: State)
    requires workers >= 2 && d >= 2 && pages >= d + 2
    requires CanReach(ChainConfig(workers, d, pages), before) && AtRound(before, workers, d, d + 1)
    ensures CanReach(ChainConfig(workers, d, pages), s)
    ensures Unhindered(s) && !Looping(s) && s.handed == ChainHanded(d + 1)
  {
    var cfg := ChainConfig(workers, d, pages);
    OneMoreStep(cfg, before, Finish(0, false));
    var done := Apply(cfg, before, Finish(0, false));
    OneMoreStep(cfg, done, Receive(0));
    s := Apply(cfg, done, Receive(0));
    assert JobsFrom(cfg, Job("b", 0)) == [Job(V(d), 1)];
    EnqueueOneJob(done.front, Job(V(d), 1), pages);
    assert V(d) in ChainSeen(d + 1);
  }

  lemma MissedPageIsNear(workers: nat, d: nat, pages: nat)
    requires d >= 2
    ensures PathTo(ChainConfig(workers, d, pages), "e", 2)
    ensures Reachable(ChainConfig(workers, d, pages), "e")
  {
    var cfg := ChainConfig(workers, d, pages);
    assert PathTo(cfg, "b", 0);
    assert V(d) in LinksOf(cfg.site, "b");
    assert PathTo(cfg, V(d), 1);
    assert |V(d)| - 1 == d;
    assert "e" in LinksOf(cfg.site, V(d));
  }

  /** A page two links from a start, within the limit, is missed. */
  lemma PageMissed(workers: nat, d: nat, pages: nat) returns (s: State)
    requires workers >= 2 && d >= 2 && pages >= d + 2
    ensures CanReach(ChainConfig(workers, d, pages), s)
    ensures Unhindered(s) && !Looping(s)
    ensures PathTo(ChainConfig(workers, d, pages), "e", 2) && !Listed(s.handed, "e")
    ensures !Complete(ChainConfig(workers, d, pages), s)
  {
    s := LastRound(workers, d, pages);
    MissedPageIsNear(workers, d, pages);
    forall i | 0 <= i < |s.handed| ensures s.handed[i].url != "e" {
      HandedShape(d + 1);
      assert s.handed[i].url[0] != "e"[0];
    }
  }

  /** Whatever the site and the starts, every run that is neither cancelled nor cut short by the budget
      visits the pages within MaxDepth links. */
  ghost predicate AlwaysComplete(workers: nat, maxDepth: nat, maxPages: nat) {
    forall starts, site, steps, s ::
      (var cfg := Config(workers, maxDepth, maxPages, starts, site);
       Reaches(cfg, steps, s) && Unhindered(s) && !Looping(s) ==> Complete(cfg, s))
  }

  /** The exact condition, on nothing but the three limits a caller sets. */
  lemma CompleteIffSafeLimits(workers: nat, maxDepth: nat, maxPages: nat)
    requires workers >= 1 && maxPages >= 1
    ensures AlwaysComplete(workers, maxDepth, maxPages) <==> SafeLimits(workers, maxDepth, maxPages)
  {
    if SafeLimits(workers, maxDepth, maxPages) {
      forall starts, site, steps, s |
        (var cfg := Config(workers, maxDepth, maxPages, starts, site);
         Reaches(cfg, steps, s) && Unhindered(s) && !Looping(s))
        ensures Complete(Config(workers, maxDepth, maxPages, starts, site), s)
      {
        SafeLimitsAreComplete(Config(workers, maxDepth, maxPages, starts, site), steps, s);
      }
    } else {
      var s := PageMissed(workers, maxDepth, maxPages);
      var cfg := ChainConfig(workers, maxDepth, maxPages);
      var steps :| Reaches(cfg, steps, s);
      assert cfg == Config(workers, maxDepth, maxPages, ["b", V(0)], ChainSite(maxDepth));
    }
  }
}
