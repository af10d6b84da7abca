/** What every run of the crawl keeps, with any number of workers and in every interleaving
    (internal/crawl/crawler.go: Crawler.Run). */
module CrawlSafety {
  import opened Crawl

  /** Every job queued so far, in order of discovery, until the coordinator stops. */
  function Queue(s: State): seq<Job> {
    s.handed + s.front.pending
  }

  ghost predicate Listed(q: seq<Job>, u: Url) {
    exists i :: 0 <= i < |q| && q[i].url == u
  }

  ghost predicate Distinct(q: seq<Job>) {
    forall i, j :: 0 <= i < j < |q| ==> q[i].url != q[j].url
  }

  /** The depth of a job is the length of a real link path, within the limit. */
  ghost predicate Genuine(cfg: Config, j: Job) {
    j.depth <= cfg.maxDepth && PathTo(cfg, j.url, j.depth)
  }

  ghost predicate AllGenuine(cfg: Config, q: seq<Job>) {
    forall i :: 0 <= i < |q| ==> Genuine(cfg, q[i])
  }

  /** `seen` is what was queued, and nothing was queued twice. */
  ghost predicate Records(seen: set<Url>, q: seq<Job>) {
    && Distinct(q)
    && |seen| == |q|
    && forall u :: u in seen <==> Listed(q, u)
  }

  // ----------------------------------------------------- one more URL

  lemma ListedAppend(q: seq<Job>, j: Job, u: Url)
    ensures Listed(q + [j], u) <==> Listed(q, u) || u == j.url
  {
    var r := q + [j];
    if Listed(q, u) {
      var i :| 0 <= i < |q| && q[i].url == u;
      assert r[i].url == u;
    }
    if u == j.url {
      assert r[|q|].url == u;
    }
    if Listed(r, u) && u != j.url {
      var i :| 0 <= i < |r| && r[i].url == u;
      assert q[i].url == u;
    }
  }

  lemma RecordsAppend(seen: set<Url>, q: seq<Job>, j: Job)
    requires Records(seen, q) && j.url !in seen
    ensures Records(seen + {j.url}, q + [j])
  {
    forall u ensures u in seen + {j.url} <==> Listed(q + [j], u) {
      ListedAppend(q, j, u);
    }
    forall i | 0 <= i < |q| ensures q[i].url != j.url {
      assert Listed(q, q[i].url);
    }
  }

  /** What queueing some jobs does to the frontier, behind the jobs `handed` out already. */
  ghost predicate Extends(handed: seq<Job>, f: Front, g: Front, jobs: seq<Job>) {
    && handed + f.pending <= handed + g.pending
    && f.seen <= g.seen
    && (f.exhausted ==> g.exhausted)
    && (forall i :: |handed + f.pending| <= i < |handed + g.pending| ==> (handed + g.pending)[i] in jobs)
    && (!g.exhausted ==> forall j :: j in jobs ==> j.url in g.seen)
  }

  ghost predicate Sound(handed: seq<Job>, f: Front, maxPages: nat) {
    Records(f.seen, handed + f.pending) && f.discovered == |f.seen| <= maxPages
  }

  lemma QueueOne(handed: seq<Job>, f: Front, j: Job, maxPages: nat)
    requires Sound(handed, f, maxPages)
    ensures Sound(handed, Enqueue(f, j, maxPages), maxPages)
  {
    var g := Enqueue(f, j, maxPages);
    if g.seen != f.seen {
      RecordsAppend(f.seen, handed + f.pending, j);
      assert handed + g.pending == handed + f.pending + [j];
    }
  }

  lemma ExtendsByOne(handed: seq<Job>, f: Front, m: Front, jobs: seq<Job>, maxPages: nat)
    requires jobs != [] && Extends(handed, f, m, jobs[..|jobs| - 1])
    ensures Extends(handed, f, Enqueue(m, jobs[|jobs| - 1], maxPages), jobs)
  {
    var j := jobs[|jobs| - 1];
    var g := Enqueue(m, j, maxPages);
    var before, mid, after := handed + f.pending, handed + m.pending, handed + g.pending;
    assert mid <= after;
    assert jobs == jobs[..|jobs| - 1] + [j];
    forall i | |before| <= i < |after| ensures after[i] in jobs {
      if i < |mid| {
        assert after[i] == mid[i];
      } else {
        assert after[i] == j;
      }
    }
  }

  lemma ExtendsByNone(handed: seq<Job>, f: Front)
    ensures Extends(handed, f, f, [])
  {
  }

  lemma {:induction false} QueueAll(handed: seq<Job>, f: Front, jobs: seq<Job>, maxPages: nat)
    requires Sound(handed, f, maxPages)
    ensures Sound(handed, EnqueueAll(f, jobs, maxPages), maxPages)
    ensures Extends(handed, f, EnqueueAll(f, jobs, maxPages), jobs)
  {
    if jobs == [] {
      ExtendsByNone(handed, f);
    } else {
      var m := EnqueueAll(f, jobs[..|jobs| - 1], maxPages);
      QueueAll(handed, f, jobs[..|jobs| - 1], maxPages);
      QueueOne(handed, m, jobs[|jobs| - 1], maxPages);
      ExtendsByOne(handed, f, m, jobs, maxPages);
    }
  }

  // ------------------------------------------------------- the invariant

  function Busy(ws: seq<Worker>): nat {
    if ws == [] then 0 else (if ws[|ws| - 1].Waiting? then 0 else 1) + Busy(ws[..|ws| - 1])
  }

  function VisitingCount(ws: seq<Worker>): nat {
    if ws == [] then 0 else (if ws[|ws| - 1].Visiting? then 1 else 0) + VisitingCount(ws[..|ws| - 1])
  }

  lemma {:induction false} CountsOfUpdate(ws: seq<Worker>, w: nat, x: Worker)
    requires w < |ws|
    ensures Busy(ws[w := x]) == Busy(ws) - (if ws[w].Waiting? then 0 else 1) + (if x.Waiting? then 0 else 1)
    ensures VisitingCount(ws[w := x])
         == VisitingCount(ws) - (if ws[w].Visiting? then 1 else 0) + (if x.Visiting? then 1 else 0)
  {
    var n := |ws| - 1;
    if w == n {
      assert ws[w := x][..n] == ws[..n];
    } else {
      CountsOfUpdate(ws[..n], w, x);
      assert ws[w := x][..n] == ws[..n][w := x];
    }
  }

  lemma {:induction false} NoneBusyInitially(n: nat)
    ensures Busy(AllWaiting(n)) == 0 && VisitingCount(AllWaiting(n)) == 0
  {
    if n > 0 {
      NoneBusyInitially(n - 1);
      assert AllWaiting(n)[..n - 1] == AllWaiting(n - 1);
    }
  }

  lemma {:induction false} SomeoneIsBusy(ws: seq<Worker>)
    requires Busy(ws) > 0
    ensures exists w :: 0 <= w < |ws| && !ws[w].Waiting?
  {
    if ws[|ws| - 1].Waiting? {
      SomeoneIsBusy(ws[..|ws| - 1]);
    }
  }

  lemma {:induction false} BusyCountsEach(ws: seq<Worker>, w: nat)
    requires w < |ws|
    ensures !ws[w].Waiting? ==> Busy(ws) > 0
    ensures ws[w].Visiting? ==> VisitingCount(ws) > 0
  {
    CountsOfUpdate(ws, w, Waiting);
  }

  /** A worker's job was handed out, and its links are genuine finds. */
  ghost predicate WorkerOk(cfg: Config, s: State, x: Worker) {
    match x
    case Waiting => true
    case Visiting(j) => j in s.handed
    case Reporting(j, links) => j in s.handed && AllGenuine(cfg, links)
                                && (links == JobsFrom(cfg, j) || (links == [] && s.ctxEnded))
  }

  ghost predicate Inv(cfg: Config, s: State) {
    && |s.workers| == cfg.workers
    && s.inFlight == Busy(s.workers)
    && (forall w :: 0 <= w < |s.workers| ==> WorkerOk(cfg, s, s.workers[w]))
    // the frontier
    && |s.front.seen| == s.front.discovered <= cfg.maxPages
    && AllGenuine(cfg, Queue(s))
    && (if s.stopped then
          s.ctxEnded && s.front.pending == [] && Distinct(s.handed)
          && (forall i :: 0 <= i < |s.handed| ==> s.handed[i].url in s.front.seen)
        else Records(s.front.seen, Queue(s)))
    // the accounts
    && (if s.ctxEnded then s.fetched + s.failed + s.disallowed + VisitingCount(s.workers) <= |s.handed|
        else s.fetched + s.failed + s.disallowed + VisitingCount(s.workers) == |s.handed|)
    && |s.handed| <= s.front.discovered
  }

  lemma StartsAreGenuine(cfg: Config)
    ensures AllGenuine(cfg, JobsAt(cfg.starts, 0))
  {
    forall i | 0 <= i < |cfg.starts| ensures PathTo(cfg, cfg.starts[i], 0) {
    }
  }

  lemma InvInit(cfg: Config)
    requires ValidConfig(cfg)
    ensures Inv(cfg, Init(cfg))
  {
    var starts := JobsAt(cfg.starts, 0);
    QueueAll([], EMPTY_FRONT, starts, cfg.maxPages);
    NoneBusyInitially(cfg.workers);
    StartsAreGenuine(cfg);
    var s := Init(cfg);
    assert Queue(s) == s.front.pending == [] + s.front.pending;
    forall i | 0 <= i < |Queue(s)| ensures Genuine(cfg, Queue(s)[i]) {
      assert ([] + s.front.pending)[i] in starts;
    }
  }

  lemma JobsFromAreGenuine(cfg: Config, j: Job)
    requires Genuine(cfg, j)
    ensures AllGenuine(cfg, JobsFrom(cfg, j))
  {
    var links := LinksOf(cfg.site, j.url);
    forall i | 0 <= i < |JobsFrom(cfg, j)| ensures Genuine(cfg, JobsFrom(cfg, j)[i]) {
      assert PathTo(cfg, j.url, j.depth + 1 - 1) && links[i] in LinksOf(cfg.site, j.url);
    }
  }

  lemma MoveFirst(a: seq<Job>, b: seq<Job>)
    requires b != []
    ensures a + [b[0]] + b[1..] == a + b
  {
  }

  lemma InvHandOut(cfg: Config, s: State, w: nat)
    requires Inv(cfg, s) && Enabled(s, HandOut(w))
    ensures Inv(cfg, Apply(cfg, s, HandOut(w)))
    ensures Queue(Apply(cfg, s, HandOut(w))) == Queue(s)
  {
    var t := Apply(cfg, s, HandOut(w));
    CountsOfUpdate(s.workers, w, Visiting(s.front.pending[0]));
    MoveFirst(s.handed, s.front.pending);
    assert |t.handed| <= |Queue(s)|;
    forall v | 0 <= v < |t.workers| ensures WorkerOk(cfg, t, t.workers[v]) {
      assert v != w ==> WorkerOk(cfg, s, s.workers[v]);
    }
  }

  lemma InvFinish(cfg: Config, s: State, w: nat, canceled: bool)
    requires Inv(cfg, s) && Enabled(s, Finish(w, canceled))
    ensures Inv(cfg, Apply(cfg, s, Finish(w, canceled)))
  {
    var j := s.workers[w].job;
    var t := Apply(cfg, s, Finish(w, canceled));
    assert WorkerOk(cfg, s, s.workers[w]);
    var i :| 0 <= i < |s.handed| && s.handed[i] == j;
    assert Genuine(cfg, Queue(s)[i]);
    JobsFromAreGenuine(cfg, j);
    CountsOfUpdate(s.workers, w, t.workers[w]);
    assert Queue(t) == Queue(s);
    forall v | 0 <= v < |t.workers| ensures WorkerOk(cfg, t, t.workers[v]) {
      assert v != w ==> WorkerOk(cfg, s, s.workers[v]);
    }
  }

  lemma InvReceive(cfg: Config, s: State, w: nat)
    requires Inv(cfg, s) && Enabled(s, Receive(w))
    ensures Inv(cfg, Apply(cfg, s, Receive(w)))
  {
    var t := Apply(cfg, s, Receive(w));
    CountsOfUpdate(s.workers, w, Waiting);
    assert WorkerOk(cfg, s, s.workers[w]);
    forall v | 0 <= v < |t.workers| ensures WorkerOk(cfg, t, t.workers[v]) {
      assert v != w ==> WorkerOk(cfg, s, s.workers[v]);
    }
    if s.ctxEnded {
      assert Queue(t) == Queue(s);
    } else {
      QueueAll(s.handed, s.front, s.workers[w].links, cfg.maxPages);
      assert |s.front.seen| <= |t.front.seen| by {
        assert |Queue(s)| <= |Queue(t)|;
      }
      forall i | 0 <= i < |Queue(t)| ensures Genuine(cfg, Queue(t)[i]) {
        if i < |Queue(s)| {
          assert Queue(t)[i] == Queue(s)[i];
        } else {
          assert Queue(t)[i] in s.workers[w].links;
        }
      }
    }
  }

  lemma InvStop(cfg: Config, s: State)
    requires Inv(cfg, s) && Enabled(s, Stop)
    ensures Inv(cfg, Apply(cfg, s, Stop))
  {
    var t := Apply(cfg, s, Stop);
    assert Queue(t) == s.handed;
    forall i | 0 <= i < |s.handed|
      ensures Genuine(cfg, s.handed[i]) && s.handed[i].url in s.front.seen
    {
      assert Queue(s)[i] == s.handed[i];
      assert Listed(Queue(s), s.handed[i].url);
    }
    forall i, j | 0 <= i < j < |s.handed| ensures s.handed[i].url != s.handed[j].url {
      assert Queue(s)[i] == s.handed[i] && Queue(s)[j] == s.handed[j];
    }
    forall v | 0 <= v < |t.workers| ensures WorkerOk(cfg, t, t.workers[v]) {
      assert WorkerOk(cfg, s, s.workers[v]);
    }
  }

  lemma InvStep(cfg: Config, s: State, step: Step)
    requires Inv(cfg, s) && Enabled(s, step)
    ensures Inv(cfg, Apply(cfg, s, step))
  {
    match step
    case HandOut(w) => InvHandOut(cfg, s, w);
    case Finish(w, canceled) => InvFinish(cfg, s, w, canceled);
    case Receive(w) => InvReceive(cfg, s, w);
    case Stop => InvStop(cfg, s);
    case EndContext =>
      var t := Apply(cfg, s, step);
      assert Queue(t) == Queue(s);
      forall v | 0 <= v < |t.workers| ensures WorkerOk(cfg, t, t.workers[v]) {
        assert WorkerOk(cfg, s, s.workers[v]);
      }
  }

  lemma {:induction false} InvAlways(cfg: Config, steps: seq<Step>, s: State)
    requires ValidConfig(cfg) && Reaches(cfg, steps, s)
    ensures Inv(cfg, s)
  {
    if steps == [] {
      InvInit(cfg);
    } else {
      var p := LastStep(cfg, steps, s);
      InvAlways(cfg, steps[..|steps| - 1], p);
      InvStep(cfg, p, steps[|steps| - 1]);
    }
  }

  // ---------------------------------------------------------- the claims

  /** In every state of every run: no URL is handed out twice; what was seen is what was handed out or
      is pending, until the coordinator stops; the page budget holds; every recorded depth is the
      length of a real link path, within the limit. */
  lemma SafetyAlways(cfg: Config, steps: seq<Step>, s: State)
    requires ValidConfig(cfg) && Reaches(cfg, steps, s)
    ensures forall i, j :: 0 <= i < j < |s.handed| ==> s.handed[i].url != s.handed[j].url
    ensures !s.stopped ==> |s.front.seen| == |s.handed| + |s.front.pending|
    ensures !s.stopped ==> forall u :: u in s.front.seen <==> Listed(s.handed, u) || Listed(s.front.pending, u)
    ensures |s.handed| <= |s.front.seen| <= cfg.maxPages
    ensures forall j :: j in s.handed || j in s.front.pending ==>
              j.depth <= cfg.maxDepth && PathTo(cfg, j.url, j.depth)
  {
    InvAlways(cfg, steps, s);
    forall j | j in s.handed || j in s.front.pending ensures Genuine(cfg, j) {
      assert j in Queue(s);
    }
    forall i, j | 0 <= i < j < |s.handed| ensures s.handed[i].url != s.handed[j].url {
      assert Queue(s)[i] == s.handed[i] && Queue(s)[j] == s.handed[j];
    }
    forall u ensures Listed(Queue(s), u) <==> Listed(s.handed, u) || Listed(s.front.pending, u) {
      ListedSplit(s.handed, s.front.pending, u);
    }
  }

  lemma ListedSplit(a: seq<Job>, b: seq<Job>, u: Url)
    ensures Listed(a + b, u) <==> Listed(a, u) || Listed(b, u)
  {
    if i :| 0 <= i < |a| && a[i].url == u {
      assert (a + b)[i].url == u;
    }
    if i :| 0 <= i < |b| && b[i].url == u {
      assert (a + b)[|a| + i].url == u;
    }
  }

  /** When the loop is over and the context has not ended, every discovered URL is accounted for. */
  lemma Accounts(cfg: Config, steps: seq<Step>, s: State)
    requires ValidConfig(cfg) && Reaches(cfg, steps, s) && !Looping(s)
    ensures !s.ctxEnded ==> s.front.discovered == s.fetched + s.failed + s.disallowed
    ensures s.front.discovered >= s.fetched + s.failed + s.disallowed
  {
    InvAlways(cfg, steps, s);
    VisitingAreBusy(s.workers);
    assert Queue(s) == s.handed;
  }

  lemma {:induction false} VisitingAreBusy(ws: seq<Worker>)
    ensures VisitingCount(ws) <= Busy(ws)
  {
    if ws != [] {
      VisitingAreBusy(ws[..|ws| - 1]);
    }
  }

  /** No deadlock: as long as the coordinator loops, some step can be taken; once it does not, no
      worker holds a job or waits to report. */
  lemma NoDeadlock(cfg: Config, steps: seq<Step>, s: State)
    requires ValidConfig(cfg) && Reaches(cfg, steps, s)
    ensures Looping(s) ==> exists step :: Enabled(s, step) && step != EndContext && step != Stop
    ensures !Looping(s) ==> forall w :: 0 <= w < |s.workers| ==> s.workers[w].Waiting?
  {
    InvAlways(cfg, steps, s);
    if Looping(s) {
      if s.inFlight > 0 {
        SomeoneIsBusy(s.workers);
        var w :| 0 <= w < |s.workers| && !s.workers[w].Waiting?;
        if s.workers[w].Visiting? {
          assert Enabled(s, Finish(w, false));
        } else {
          assert Enabled(s, Receive(w));
        }
      } else {
        if !s.workers[0].Waiting? {
          BusyCountsEach(s.workers, 0);
        }
        assert Enabled(s, HandOut(0));
      }
    } else {
      forall w | 0 <= w < |s.workers| ensures s.workers[w].Waiting? {
        BusyCountsEach(s.workers, w);
      }
    }
  }

  // --------------------------------------------------------- termination

  /** How much a run can still do: unseen budget, pending jobs, jobs in flight, the two flags. */
  function Measure(cfg: Config, s: State): int {
    4 * (cfg.maxPages - |s.front.seen|) + 3 * |s.front.pending| + Busy(s.workers) + VisitingCount(s.workers)
    + (if s.ctxEnded then 0 else 1) + (if s.stopped then 0 else 1)
  }

  lemma MeasureDrops(cfg: Config, s: State, step: Step)
    requires Inv(cfg, s) && Enabled(s, step)
    ensures Measure(cfg, Apply(cfg, s, step)) < Measure(cfg, s)
  {
    var t := Apply(cfg, s, step);
    match step
    case HandOut(w) =>
      CountsOfUpdate(s.workers, w, Visiting(s.front.pending[0]));
    case Finish(w, canceled) =>
      CountsOfUpdate(s.workers, w, t.workers[w]);
    case Receive(w) =>
      CountsOfUpdate(s.workers, w, Waiting);
      if !s.ctxEnded {
        QueueAll(s.handed, s.front, s.workers[w].links, cfg.maxPages);
        assert |t.front.seen| - |s.front.seen| == |t.front.pending| - |s.front.pending| by {
          assert |Queue(t)| == |t.front.seen| && |Queue(s)| == |s.front.seen|;
        }
        assert |Queue(s)| <= |Queue(t)|;
      }
    case EndContext =>
    case Stop =>
  }

  /** Every run is finite, whatever the interleaving: at most four steps for each page of the budget
      and two more. */
  lemma {:induction false} RunsAreBounded(cfg: Config, steps: seq<Step>, s: State)
    requires ValidConfig(cfg) && Reaches(cfg, steps, s)
    ensures Measure(cfg, s) >= 0
    ensures |steps| + Measure(cfg, s) <= Measure(cfg, Init(cfg)) <= 4 * cfg.maxPages + 2
  {
    InvAlways(cfg, steps, s);
    InvInit(cfg);
    var i := Init(cfg);
    NoneBusyInitially(cfg.workers);
    assert Queue(i) == i.front.pending;
    if steps != [] {
      var p := LastStep(cfg, steps, s);
      RunsAreBounded(cfg, steps[..|steps| - 1], p);
      InvAlways(cfg, steps[..|steps| - 1], p);
      MeasureDrops(cfg, p, steps[|steps| - 1]);
    }
  }
}
