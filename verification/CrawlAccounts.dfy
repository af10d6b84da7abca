/** What the statistics of a crawl count (internal/crawl/crawler.go: Crawler.Run and visit), with any number of workers
    and in every interleaving. */
module CrawlAccounts {
  import opened Crawl
  import opened CrawlSafety
  import opened CrawlCompleteness

  /** How many of the jobs have a URL with that outcome in the site. */
  function Tally(site: Site, jobs: seq<Job>, o: Outcome): nat {
    if jobs == [] then 0
    else Tally(site, jobs[..|jobs| - 1], o) + if site.outcome(jobs[|jobs| - 1].url) == o then 1 else 0
  }

  lemma TallyOfMore(site: Site, jobs: seq<Job>, j: Job, o: Outcome)
    ensures Tally(site, jobs + [j], o) == Tally(site, jobs, o) + if site.outcome(j.url) == o then 1 else 0
  {
    assert (jobs + [j])[..|jobs|] == jobs;
  }

  function Without(jobs: seq<Job>, i: nat): seq<Job>
    requires i < |jobs|
  {
    jobs[..i] + jobs[i + 1..]
  }

  lemma WithoutIsLess(jobs: seq<Job>, i: nat)
    requires i < |jobs|
    ensures multiset(jobs) == multiset(Without(jobs, i)) + multiset{jobs[i]}
  {
    assert jobs == jobs[..i] + [jobs[i]] + jobs[i + 1..];
  }

  lemma WithoutLast(jobs: seq<Job>, i: nat)
    requires i < |jobs|
    ensures var n := |jobs| - 1;
            Without(jobs, i) == if i == n then jobs[..n] else Without(jobs[..n], i) + [jobs[n]]
  {
    var n := |jobs| - 1;
    if i < n {
      assert jobs[..n][..i] == jobs[..i] && jobs[i + 1..] == jobs[..n][i + 1..] + [jobs[n]];
    }
  }

  lemma {:induction false} TallyWithout(site: Site, jobs: seq<Job>, i: nat, o: Outcome)
    requires i < |jobs|
    ensures Tally(site, jobs, o) == Tally(site, Without(jobs, i), o) + if site.outcome(jobs[i].url) == o then 1 else 0
    decreases |jobs|
  {
    var n := |jobs| - 1;
    WithoutLast(jobs, i);
    if i < n {
      TallyWithout(site, jobs[..n], i, o);
      TallyOfMore(site, Without(jobs[..n], i), jobs[n], o);
    }
  }

  lemma PartWithout(a: multiset<Job>, b: multiset<Job>, x: Job, c: multiset<Job>, d: multiset<Job>)
    requires a <= b && a == c + multiset{x} && b == d + multiset{x}
    ensures c <= d
  {
    forall y
      ensures c[y] <= d[y]
    {
      assert a[y] <= b[y];
    }
  }

  /** A part of the jobs, in whatever order, has no more of any outcome. */
  lemma {:induction false} TallyOfPart(site: Site, part: seq<Job>, jobs: seq<Job>, o: Outcome)
    requires multiset(part) <= multiset(jobs)
    ensures Tally(site, part, o) <= Tally(site, jobs, o)
    decreases |part|
  {
    if part != [] {
      var n := |part| - 1;
      var i := IndexIn(part, n, jobs);
      WithoutIsLess(part, n);
      WithoutIsLess(jobs, i);
      WithoutLast(part, n);
      PartWithout(multiset(part), multiset(jobs), part[n], multiset(part[..n]), multiset(Without(jobs, i)));
      TallyOfPart(site, part[..n], Without(jobs, i), o);
      TallyWithout(site, jobs, i, o);
    }
  }

  lemma IndexIn(part: seq<Job>, k: nat, jobs: seq<Job>) returns (i: nat)
    requires k < |part| && multiset(part) <= multiset(jobs)
    ensures i < |jobs| && jobs[i] == part[k]
  {
    assert part[k] in multiset(part) && part[k] in multiset(jobs);
    i :| 0 <= i < |jobs| && jobs[i] == part[k];
  }

  function Is(w: Worker, j: Job): nat {
    if w == Visiting(j) then 1 else 0
  }

  /** How many workers are visiting the job. */
  function InVisit(ws: seq<Worker>, j: Job): nat {
    if ws == [] then 0 else InVisit(ws[..|ws| - 1], j) + Is(ws[|ws| - 1], j)
  }

  lemma {:induction false} InVisitOfUpdate(ws: seq<Worker>, w: nat, x: Worker, j: Job)
    requires w < |ws|
    ensures InVisit(ws[w := x], j) == InVisit(ws, j) - Is(ws[w], j) + Is(x, j)
  {
    var n := |ws| - 1;
    if w == n {
      assert ws[w := x][..n] == ws[..n];
    } else {
      InVisitOfUpdate(ws[..n], w, x, j);
      assert ws[w := x][..n] == ws[..n][w := x];
    }
  }

  lemma {:induction false} NoneInVisit(ws: seq<Worker>, j: Job)
    requires forall w :: 0 <= w < |ws| ==> !ws[w].Visiting?
    ensures InVisit(ws, j) == 0
  {
    if ws != [] {
      NoneInVisit(ws[..|ws| - 1], j);
    }
  }

  /** How often the job is in the list. */
  function Times(jobs: seq<Job>, j: Job): nat {
    multiset(jobs)[j]
  }

  lemma TimesOfMore(jobs: seq<Job>, x: Job, j: Job)
    ensures Times(jobs + [x], j) == Times(jobs, j) + if x == j then 1 else 0
  {
  }

  /** Each counter is the number of visited jobs with its outcome. */
  ghost predicate Counted(cfg: Config, s: State) {
    && s.fetched == Tally(cfg.site, s.visited, Fetched)
    && s.failed == Tally(cfg.site, s.visited, Failed)
    && s.disallowed == Tally(cfg.site, s.visited, Disallowed)
  }

  /** What was handed out is visited or being visited, but for canceled visits. */
  ghost predicate Visits(s: State, j: Job) {
    var visits := Times(s.visited, j) + InVisit(s.workers, j);
    visits <= Times(s.handed, j) && (!s.ctxEnded ==> visits == Times(s.handed, j))
  }

  /** One more visit with outcome `o` in the site. */
  ghost predicate VisitedOneMore(s: State, t: State, j: Job, o: Outcome) {
    && t.visited == s.visited + [j]
    && t.fetched == s.fetched + (if o == Fetched then 1 else 0)
    && t.failed == s.failed + (if o == Failed then 1 else 0)
    && t.disallowed == s.disallowed + (if o == Disallowed then 1 else 0)
  }

  lemma CountedOneMore(cfg: Config, s: State, j: Job, t: State)
    requires Counted(cfg, s) && VisitedOneMore(s, t, j, cfg.site.outcome(j.url))
    ensures Counted(cfg, t)
  {
    TallyOfMore(cfg.site, s.visited, j, Fetched);
    TallyOfMore(cfg.site, s.visited, j, Failed);
    TallyOfMore(cfg.site, s.visited, j, Disallowed);
  }

  lemma CountedStep(cfg: Config, s: State, step: Step)
    requires Counted(cfg, s) && Enabled(s, step)
    ensures Counted(cfg, Apply(cfg, s, step))
  {
    if step.Finish? && !step.canceled {
      CountedOneMore(cfg, s, s.workers[step.w].job, Apply(cfg, s, step));
    }
  }

  lemma VisitsStep(cfg: Config, s: State, step: Step, j: Job)
    requires Visits(s, j) && Enabled(s, step)
    ensures Visits(Apply(cfg, s, step), j)
  {
    match step
    case HandOut(w) =>
      InVisitOfUpdate(s.workers, w, Visiting(s.front.pending[0]), j);
      TimesOfMore(s.handed, s.front.pending[0], j);
    case Finish(w, canceled) =>
      InVisitOfUpdate(s.workers, w, Apply(cfg, s, step).workers[w], j);
      TimesOfMore(s.visited, s.workers[w].job, j);
    case Receive(w) => InVisitOfUpdate(s.workers, w, Waiting, j);
    case EndContext =>
    case Stop =>
  }

  /** In every reachable state each counter is the number of URLs handed out and visited whose outcome is that one;
      each job handed out is visited at most once, and once or being visited as long as the context lasts. */
  lemma {:induction false} CountersAlways(cfg: Config, steps: seq<Step>, s: State, j: Job)
    requires Reaches(cfg, steps, s)
    ensures Counted(cfg, s) && Visits(s, j)
    decreases |steps|
  {
    if steps == [] {
      NoneInVisit(s.workers, j);
    } else {
      var p := LastStep(cfg, steps, s);
      CountersAlways(cfg, steps[..|steps| - 1], p, j);
      CountedStep(cfg, p, steps[|steps| - 1]);
      VisitsStep(cfg, p, steps[|steps| - 1], j);
    }
  }

  /** When the loop is over what is visited is part of what was handed out, and all of it unless the context ended. */
  lemma VisitedAtEnd(cfg: Config, steps: seq<Step>, s: State)
    requires ValidConfig(cfg) && Reaches(cfg, steps, s) && !Looping(s)
    ensures multiset(s.visited) <= multiset(s.handed)
    ensures !s.ctxEnded ==> multiset(s.visited) == multiset(s.handed)
  {
    NoDeadlock(cfg, steps, s);
    forall j
      ensures Times(s.visited, j) <= Times(s.handed, j)
      ensures !s.ctxEnded ==> Times(s.visited, j) == Times(s.handed, j)
    {
      CountersAlways(cfg, steps, s, j);
      NoneInVisit(s.workers, j);
    }
    assert forall j :: multiset(s.visited)[j] == Times(s.visited, j) && multiset(s.handed)[j] == Times(s.handed, j);
  }

  /** When a run is over, fetched, failed and disallowed are the numbers of URLs handed out with those outcomes, or at
      most that if it was canceled. */
  lemma OutcomesAreCounted(cfg: Config, steps: seq<Step>, s: State)
    requires ValidConfig(cfg) && Reaches(cfg, steps, s) && !Looping(s)
    ensures s.fetched <= Tally(cfg.site, s.handed, Fetched)
    ensures s.failed <= Tally(cfg.site, s.handed, Failed)
    ensures s.disallowed <= Tally(cfg.site, s.handed, Disallowed)
    ensures !s.ctxEnded ==>
              && s.fetched == Tally(cfg.site, s.handed, Fetched)
              && s.failed == Tally(cfg.site, s.handed, Failed)
              && s.disallowed == Tally(cfg.site, s.handed, Disallowed)
  {
    CountersAlways(cfg, steps, s, Job("", 0));
    VisitedAtEnd(cfg, steps, s);
    forall o: Outcome
      ensures Tally(cfg.site, s.visited, o) <= Tally(cfg.site, s.handed, o)
      ensures !s.ctxEnded ==> Tally(cfg.site, s.visited, o) == Tally(cfg.site, s.handed, o)
    {
      TallyOfPart(cfg.site, s.visited, s.handed, o);
      if !s.ctxEnded {
        TallyOfPart(cfg.site, s.handed, s.visited, o);
      }
    }
  }

  // ----------------------------------------------------------- the budget

  /** A start, or a link on a page handed out that is not on the last level. */
  ghost predicate Found(cfg: Config, handed: seq<Job>, u: Url) {
    || u in cfg.starts
    || exists j :: j in handed && j.depth < cfg.maxDepth && cfg.site.outcome(j.url).Fetched?
                   && u in cfg.site.links(j.url)
  }

  ghost predicate LeftOut(cfg: Config, s: State, u: Url) {
    Found(cfg, s.handed, u) && u !in s.front.seen
  }

  /** What is enqueued after the budget is used up is not recorded, and noted if it is new. */
  lemma {:induction false} EnqueueLeavesOut(f: Front, jobs: seq<Job>, maxPages: nat)
    ensures var g := EnqueueAll(f, jobs, maxPages);
            && (|f.seen| >= maxPages ==> g.seen == f.seen)
            && (g.exhausted && !f.exhausted ==>
                  |g.seen| >= maxPages && exists i :: 0 <= i < |jobs| && jobs[i].url !in g.seen)
  {
    if jobs != [] {
      var n := |jobs| - 1;
      EnqueueLeavesOut(f, jobs[..n], maxPages);
      var m, g := EnqueueAll(f, jobs[..n], maxPages), EnqueueAll(f, jobs, maxPages);
      if m.exhausted && !f.exhausted {
        var i :| 0 <= i < n && jobs[..n][i].url !in m.seen;
        assert jobs[i].url !in g.seen;
      } else if g.exhausted && !f.exhausted {
        assert jobs[n].url !in g.seen;
      }
    }
  }

  ghost predicate BudgetInv(cfg: Config, s: State) {
    s.front.exhausted ==> |s.front.seen| >= cfg.maxPages && exists u :: LeftOut(cfg, s, u)
  }

  lemma BudgetStays(cfg: Config, s: State, t: State)
    requires BudgetInv(cfg, s) && (forall j :: j in s.handed ==> j in t.handed)
    requires t.front.exhausted ==> s.front.exhausted
    requires s.front.exhausted ==> t.front.seen == s.front.seen
    ensures BudgetInv(cfg, t)
  {
    if t.front.exhausted {
      var u :| LeftOut(cfg, s, u);
      assert LeftOut(cfg, t, u);
    }
  }

  lemma BudgetReceive(cfg: Config, s: State, w: nat)
    requires Inv(cfg, s) && BudgetInv(cfg, s) && Enabled(s, Receive(w)) && !s.ctxEnded
    ensures BudgetInv(cfg, Apply(cfg, s, Receive(w)))
  {
    var t := Apply(cfg, s, Receive(w));
    var x := s.workers[w];
    assert WorkerOk(cfg, s, x);
    EnqueueLeavesOut(s.front, x.links, cfg.maxPages);
    if t.front.exhausted && !s.front.exhausted {
      var i :| 0 <= i < |x.links| && x.links[i].url !in t.front.seen;
      assert x.links[i].url in LinksOf(cfg.site, x.job.url);
      assert LeftOut(cfg, t, x.links[i].url);
    } else if t.front.exhausted {
      BudgetStays(cfg, s, t);
    }
  }

  lemma BudgetInit(cfg: Config)
    ensures BudgetInv(cfg, Init(cfg))
  {
    var starts := JobsAt(cfg.starts, 0);
    EnqueueLeavesOut(EMPTY_FRONT, starts, cfg.maxPages);
    var s := Init(cfg);
    if s.front.exhausted {
      var i :| 0 <= i < |starts| && starts[i].url !in s.front.seen;
      assert LeftOut(cfg, s, starts[i].url);
    }
  }

  lemma {:induction false} BudgetAlways(cfg: Config, steps: seq<Step>, s: State)
    requires ValidConfig(cfg) && Reaches(cfg, steps, s)
    ensures BudgetInv(cfg, s)
    decreases |steps|
  {
    if steps == [] {
      BudgetInit(cfg);
    } else {
      var front, last := steps[..|steps| - 1], steps[|steps| - 1];
      var p := LastStep(cfg, steps, s);
      BudgetAlways(cfg, front, p);
      if last.Receive? && !p.ctxEnded {
        InvAlways(cfg, front, p);
        BudgetReceive(cfg, p, last.w);
      } else {
        BudgetStays(cfg, p, s);
      }
    }
  }

  /** When a run that was not canceled is over, BudgetExhausted is set if and only if a URL that was found was left
      out, and then MaxPages URLs were visited. */
  lemma ExhaustedIffLeftOut(cfg: Config, steps: seq<Step>, s: State)
    requires ValidConfig(cfg) && Reaches(cfg, steps, s) && !Looping(s) && !s.ctxEnded
    ensures s.front.exhausted <==> exists u :: Found(cfg, s.handed, u) && !Listed(s.handed, u)
    ensures s.front.exhausted ==> |s.handed| == cfg.maxPages
  {
    InvAlways(cfg, steps, s);
    assert Queue(s) == s.handed;
    if s.front.exhausted {
      BudgetAlways(cfg, steps, s);
      var u :| LeftOut(cfg, s, u);
      assert Found(cfg, s.handed, u) && !Listed(s.handed, u);
    } else {
      FinishedQueue(cfg, steps, s);
      forall u | Found(cfg, s.handed, u)
        ensures Listed(s.handed, u)
      {
        FoundIsListed(cfg, s.handed, u);
      }
    }
  }

  lemma FoundIsListed(cfg: Config, q: seq<Job>, u: Url)
    requires HasStarts(cfg, q) && (forall i :: 0 <= i < |q| ==> Followed(cfg, q, q[i])) && Found(cfg, q, u)
    ensures Listed(q, u)
  {
    if u in cfg.starts {
      assert ListedWithin(q, u, 0);
    } else {
      var j :| j in q && j.depth < cfg.maxDepth && cfg.site.outcome(j.url).Fetched? && u in cfg.site.links(j.url);
      var i :| 0 <= i < |q| && q[i] == j;
      assert Followed(cfg, q, q[i]) && u in LinksOf(cfg.site, j.url);
    }
  }
}
