/** What a crawl finds (internal/crawl/crawler.go: Crawler.Run): breadth-first search by one worker,
    and the conditions under which several workers miss no page within MaxDepth. */
module CrawlCompleteness {
  import opened Crawl
  import opened CrawlSafety

  /** Neither cancelled nor cut short by the page budget. */
  predicate Unhindered(s: State) {
    !s.ctxEnded && !s.front.exhausted
  }

  ghost predicate HasStarts(cfg: Config, q: seq<Job>) {
    forall u :: u in cfg.starts ==> ListedWithin(q, u, 0)
  }

  /** `u` is in the queue with a depth of at most `d`. */
  ghost predicate ListedWithin(q: seq<Job>, u: Url, d: nat) {
    exists i :: 0 <= i < |q| && q[i].url == u && q[i].depth <= d
  }

  /** The links of a job above the last level are in the queue. */
  ghost predicate Followed(cfg: Config, q: seq<Job>, j: Job) {
    j.depth < cfg.maxDepth ==> forall u :: u in LinksOf(cfg.site, j.url) ==> Listed(q, u)
  }

  predicate BusyWith(x: Worker, j: Job) {
    !x.Waiting? && x.job == j
  }

  ghost predicate InWork(s: State, j: Job) {
    exists w :: 0 <= w < |s.workers| && BusyWith(s.workers[w], j)
  }

  /** Entry `c` was found on the page of an earlier entry `p` one level up, all of whose links are in
      the queue, before `c` or on its level. */
  ghost predicate FoundFrom(cfg: Config, q: seq<Job>, p: nat, c: nat)
    requires p < |q| && c < |q|
  {
    && p < c && q[p].depth + 1 == q[c].depth
    && forall u :: u in LinksOf(cfg.site, q[p].url) ==> ListedBy(q, u, c)
  }

  ghost predicate ListedBy(q: seq<Job>, u: Url, c: nat)
    requires c < |q|
  {
    exists m :: 0 <= m < |q| && q[m].url == u && (m < c || q[m].depth == q[c].depth)
  }

  ghost predicate HasParents(cfg: Config, q: seq<Job>) {
    forall c :: 0 <= c < |q| && q[c].depth > 0 ==> exists p :: 0 <= p < |q| && FoundFrom(cfg, q, p, c)
  }

  ghost predicate Progress(cfg: Config, s: State) {
    && HasStarts(cfg, Queue(s))
    && HasParents(cfg, Queue(s))
    && forall i :: 0 <= i < |s.handed| ==> InWork(s, s.handed[i]) || Followed(cfg, Queue(s), s.handed[i])
  }

  // ------------------------------------------------------ a growing queue

  lemma ListedGrows(q: seq<Job>, r: seq<Job>, u: Url, d: nat)
    requires q <= r
    ensures Listed(q, u) ==> Listed(r, u)
    ensures ListedWithin(q, u, d) ==> ListedWithin(r, u, d)
  {
    if i :| 0 <= i < |q| && q[i].url == u {
      assert r[i].url == u;
    }
    if i :| 0 <= i < |q| && q[i].url == u && q[i].depth <= d {
      assert r[i].url == u && r[i].depth <= d;
    }
  }

  lemma FoundFromGrows(cfg: Config, q: seq<Job>, r: seq<Job>, p: nat, c: nat)
    requires q <= r && p < |q| && c < |q| && FoundFrom(cfg, q, p, c)
    ensures FoundFrom(cfg, r, p, c)
  {
    forall u | u in LinksOf(cfg.site, r[p].url) ensures ListedBy(r, u, c) {
      assert ListedBy(q, u, c);
      var m :| 0 <= m < |q| && q[m].url == u && (m < c || q[m].depth == q[c].depth);
      assert r[m].url == u;
    }
  }

  /** The queue `r` is `q` and, behind it, links of the job `j`, all of whose links are in `r`. */
  ghost predicate GrownBy(cfg: Config, q: seq<Job>, r: seq<Job>, j: Job) {
    && q <= r
    && (forall i :: |q| <= i < |r| ==> r[i].depth == j.depth + 1)
    && Followed(cfg, r, j)
    && (j.depth >= cfg.maxDepth ==> q == r)
  }

  lemma ParentsGrow(cfg: Config, q: seq<Job>, r: seq<Job>, p: nat)
    requires p < |q| && GrownBy(cfg, q, r, q[p]) && HasParents(cfg, q)
    ensures HasParents(cfg, r)
  {
    forall c | 0 <= c < |r| && r[c].depth > 0
      ensures exists p :: 0 <= p < |r| && FoundFrom(cfg, r, p, c)
    {
      if c < |q| {
        var o :| 0 <= o < |q| && FoundFrom(cfg, q, o, c);
        FoundFromGrows(cfg, q, r, o, c);
      } else {
        forall u | u in LinksOf(cfg.site, r[p].url) ensures ListedBy(r, u, c) {
          assert Listed(r, u);
          var m :| 0 <= m < |r| && r[m].url == u;
          assert m < |q| || r[m].depth == r[c].depth;
        }
        assert FoundFrom(cfg, r, p, c);
      }
    }
  }

  lemma StartsGrow(cfg: Config, q: seq<Job>, r: seq<Job>)
    requires q <= r && HasStarts(cfg, q)
    ensures HasStarts(cfg, r)
  {
    forall u | u in cfg.starts ensures ListedWithin(r, u, 0) {
      ListedGrows(q, r, u, 0);
    }
  }

  lemma FollowedGrows(cfg: Config, q: seq<Job>, r: seq<Job>, j: Job)
    requires q <= r && Followed(cfg, q, j)
    ensures Followed(cfg, r, j)
  {
    forall u | j.depth < cfg.maxDepth && u in LinksOf(cfg.site, j.url) ensures Listed(r, u) {
      ListedGrows(q, r, u, 0);
    }
  }

  // ------------------------------------------------------------ the steps

  /** Receiving a job's links in an unhindered run grows the queue by them. */
  lemma ReceiveGrows(cfg: Config, s: State, w: nat)
    requires Inv(cfg, s) && Enabled(s, Receive(w)) && Unhindered(Apply(cfg, s, Receive(w)))
    ensures Unhindered(s) && s.workers[w].job in s.handed
    ensures GrownBy(cfg, Queue(s), Queue(Apply(cfg, s, Receive(w))), s.workers[w].job)
  {
    var t := Apply(cfg, s, Receive(w));
    var j := s.workers[w].job;
    var links := s.workers[w].links;
    assert WorkerOk(cfg, s, s.workers[w]);
    assert links == JobsFrom(cfg, j);
    QueueAll(s.handed, s.front, links, cfg.maxPages);
    forall i | |Queue(s)| <= i < |Queue(t)| ensures Queue(t)[i].depth == j.depth + 1 {
      assert Queue(t)[i] in links;
    }
    if j.depth < cfg.maxDepth {
      forall u | u in LinksOf(cfg.site, j.url) ensures Listed(Queue(t), u) {
        var i :| 0 <= i < |LinksOf(cfg.site, j.url)| && LinksOf(cfg.site, j.url)[i] == u;
        assert links[i].url == u && links[i] in links;
      }
    }
  }

  lemma ProgressReceive(cfg: Config, s: State, w: nat)
    requires Inv(cfg, s) && Enabled(s, Receive(w)) && Unhindered(Apply(cfg, s, Receive(w)))
    requires Progress(cfg, s)
    ensures Progress(cfg, Apply(cfg, s, Receive(w)))
  {
    var t := Apply(cfg, s, Receive(w));
    var j := s.workers[w].job;
    ReceiveGrows(cfg, s, w);
    var p :| 0 <= p < |s.handed| && s.handed[p] == j;
    assert Queue(s)[p] == j;
    StartsGrow(cfg, Queue(s), Queue(t));
    ParentsGrow(cfg, Queue(s), Queue(t), p);
    forall i | 0 <= i < |t.handed| ensures InWork(t, t.handed[i]) || Followed(cfg, Queue(t), t.handed[i]) {
      DoneOrInWork(cfg, s, w, s.handed[i]);
    }
  }

  /** What a job handed out is once the links of one have been received. */
  lemma DoneOrInWork(cfg: Config, s: State, w: nat, x: Job)
    requires Enabled(s, Receive(w)) && (InWork(s, x) || Followed(cfg, Queue(s), x))
    requires GrownBy(cfg, Queue(s), Queue(Apply(cfg, s, Receive(w))), s.workers[w].job)
    ensures var t := Apply(cfg, s, Receive(w)); InWork(t, x) || Followed(cfg, Queue(t), x)
  {
    var t := Apply(cfg, s, Receive(w));
    if Followed(cfg, Queue(s), x) {
      FollowedGrows(cfg, Queue(s), Queue(t), x);
    } else if x != s.workers[w].job {
      var v :| 0 <= v < |s.workers| && BusyWith(s.workers[v], x);
      assert BusyWith(t.workers[v], x);
    }
  }

  lemma ProgressOther(cfg: Config, s: State, step: Step)
    requires Inv(cfg, s) && Enabled(s, step) && !step.Receive?
    requires Unhindered(Apply(cfg, s, step)) && Progress(cfg, s)
    ensures Progress(cfg, Apply(cfg, s, step))
  {
    var t := Apply(cfg, s, step);
    if step.HandOut? {
      InvHandOut(cfg, s, step.w);
      assert BusyWith(t.workers[step.w], t.handed[|s.handed|]);
    }
    assert Queue(t) == Queue(s);
    forall i | 0 <= i < |t.handed| ensures InWork(t, t.handed[i]) || Followed(cfg, Queue(t), t.handed[i]) {
      if i < |s.handed| {
        assert t.handed[i] == s.handed[i];
        if v :| 0 <= v < |s.workers| && BusyWith(s.workers[v], s.handed[i]) {
          assert BusyWith(t.workers[v], t.handed[i]);
        }
      }
    }
  }

  lemma ProgressInit(cfg: Config)
    requires ValidConfig(cfg) && Unhindered(Init(cfg))
    ensures Progress(cfg, Init(cfg))
    ensures forall i :: 0 <= i < |Queue(Init(cfg))| ==> Queue(Init(cfg))[i].depth == 0
  {
    var s := Init(cfg);
    var starts := JobsAt(cfg.starts, 0);
    QueueAll([], EMPTY_FRONT, starts, cfg.maxPages);
    assert Queue(s) == [] + s.front.pending;
    forall i | 0 <= i < |Queue(s)| ensures Queue(s)[i].depth == 0 {
      assert Queue(s)[i] in starts;
    }
    forall u | u in cfg.starts ensures ListedWithin(Queue(s), u, 0) {
      var i :| 0 <= i < |cfg.starts| && cfg.starts[i] == u;
      assert starts[i].url == u && starts[i] in starts;
      assert Listed(Queue(s), u);
      var m :| 0 <= m < |Queue(s)| && Queue(s)[m].url == u;
    }
  }

  lemma UnhinderedBefore(cfg: Config, s: State, step: Step)
    requires Inv(cfg, s) && Enabled(s, step) && Unhindered(Apply(cfg, s, step))
    ensures Unhindered(s)
  {
    if step.Receive? {
      ReceiveGrows(cfg, s, step.w);
    }
  }

  lemma {:induction false} ProgressAlways(cfg: Config, steps: seq<Step>, s: State)
    requires ValidConfig(cfg) && Reaches(cfg, steps, s) && Unhindered(s)
    ensures Progress(cfg, s)
  {
    if steps == [] {
      ProgressInit(cfg);
    } else {
      var front, last := steps[..|steps| - 1], steps[|steps| - 1];
      var p := LastStep(cfg, steps, s);
      InvAlways(cfg, front, p);
      UnhinderedBefore(cfg, p, last);
      ProgressAlways(cfg, front, p);
      if last.Receive? {
        ProgressReceive(cfg, p, last.w);
      } else {
        ProgressOther(cfg, p, last);
      }
    }
  }

  /** At the end of an unhindered run every link of every page above the last level is in the queue,
      which is the log of the jobs handed out. */
  lemma FinishedQueue(cfg: Config, steps: seq<Step>, s: State)
    requires ValidConfig(cfg) && Reaches(cfg, steps, s) && Unhindered(s) && !Looping(s)
    ensures Queue(s) == s.handed && Records(s.front.seen, s.handed) && |s.handed| <= cfg.maxPages
    ensures AllGenuine(cfg, s.handed)
    ensures HasStarts(cfg, s.handed) && HasParents(cfg, s.handed)
    ensures forall i :: 0 <= i < |s.handed| ==> Followed(cfg, s.handed, s.handed[i])
  {
    InvAlways(cfg, steps, s);
    ProgressAlways(cfg, steps, s);
    NoDeadlock(cfg, steps, s);
    assert Queue(s) == s.handed;
  }

  // -------------------------------------------------------- completeness

  ghost predicate Reachable(cfg: Config, u: Url) {
    exists k :: 0 <= k <= cfg.maxDepth && PathTo(cfg, u, k)
  }

  /** The documented promise: the pages visited are those within MaxDepth links of the starts. */
  ghost predicate Complete(cfg: Config, s: State) {
    forall u :: Listed(s.handed, u) <==> Reachable(cfg, u)
  }

  /** No page that is fewer than MaxDepth links away is recorded on the last level. */
  ghost predicate NoneTooDeep(cfg: Config, q: seq<Job>) {
    forall i, n: nat :: 0 <= i < |q| && n < cfg.maxDepth && PathTo(cfg, q[i].url, n) ==> q[i].depth < cfg.maxDepth
  }

  lemma {:induction false} PathsAreListed(cfg: Config, q: seq<Job>, u: Url, k: nat)
    requires HasStarts(cfg, q) && NoneTooDeep(cfg, q)
    requires forall i :: 0 <= i < |q| ==> Followed(cfg, q, q[i])
    requires k <= cfg.maxDepth && PathTo(cfg, u, k)
    ensures Listed(q, u)
    decreases k
  {
    if k == 0 {
      assert ListedWithin(q, u, 0);
    } else {
      var v :| PathTo(cfg, v, k - 1) && cfg.site.outcome(v).Fetched? && u in cfg.site.links(v);
      assert u in LinksOf(cfg.site, v);
      PathsAreListed(cfg, q, v, k - 1);
      var i :| 0 <= i < |q| && q[i].url == v;
      assert Followed(cfg, q, q[i]);
    }
  }

  lemma CompleteIfNoneTooDeep(cfg: Config, steps: seq<Step>, s: State)
    requires ValidConfig(cfg) && Reaches(cfg, steps, s) && Unhindered(s) && !Looping(s)
    requires NoneTooDeep(cfg, s.handed)
    ensures Complete(cfg, s)
  {
    FinishedQueue(cfg, steps, s);
    forall u ensures Listed(s.handed, u) <==> Reachable(cfg, u) {
      if Listed(s.handed, u) {
        var i :| 0 <= i < |s.handed| && s.handed[i].url == u;
        assert Genuine(cfg, s.handed[i]);
      }
      if Reachable(cfg, u) {
        var k :| 0 <= k <= cfg.maxDepth && PathTo(cfg, u, k);
        PathsAreListed(cfg, s.handed, u, k);
      }
    }
  }

  // ------------------------------------------- one worker: breadth first

  /** The first queue entry whose page is not done. */
  function Cursor(s: State): int {
    if s.workers != [] && !s.workers[0].Waiting? then |s.handed| - 1 else |s.handed|
  }

  ghost predicate ByLevel(q: seq<Job>) {
    forall i, j :: 0 <= i < j < |q| ==> q[i].depth <= q[j].depth
  }

  ghost predicate LinksWithin(cfg: Config, q: seq<Job>, j: Job) {
    j.depth < cfg.maxDepth ==> forall u :: u in LinksOf(cfg.site, j.url) ==> ListedWithin(q, u, j.depth + 1)
  }

  ghost predicate BreadthFirst(cfg: Config, s: State) {
    var q, k := Queue(s), Cursor(s);
    && |s.workers| == 1 && 0 <= k <= |q|
    && (!s.workers[0].Waiting? ==> s.handed != [] && s.workers[0].job == q[k])
    && ByLevel(q)
    && (k < |q| ==> forall i :: 0 <= i < |q| ==> q[i].depth <= q[k].depth + 1)
    && (forall i :: 0 <= i < k ==> LinksWithin(cfg, q, q[i]))
    && HasStarts(cfg, q)
  }

  lemma BreadthFirstInit(cfg: Config)
    requires ValidConfig(cfg) && cfg.workers == 1 && Unhindered(Init(cfg))
    ensures BreadthFirst(cfg, Init(cfg))
  {
    ProgressInit(cfg);
  }

  lemma LinksWithinGrows(cfg: Config, q: seq<Job>, r: seq<Job>, j: Job)
    requires q <= r && LinksWithin(cfg, q, j)
    ensures LinksWithin(cfg, r, j)
  {
    forall u | j.depth < cfg.maxDepth && u in LinksOf(cfg.site, j.url) ensures ListedWithin(r, u, j.depth + 1) {
      ListedGrows(q, r, u, j.depth + 1);
    }
  }

  /** The page of the current entry is done: its links close the next level off. */
  lemma LevelGrows(cfg: Config, q: seq<Job>, r: seq<Job>, k: nat)
    requires k < |q| && GrownBy(cfg, q, r, q[k]) && ByLevel(q)
    requires forall i :: 0 <= i < |q| ==> q[i].depth <= q[k].depth + 1
    requires forall i :: 0 <= i < k ==> LinksWithin(cfg, q, q[i])
    ensures ByLevel(r)
    ensures forall i :: 0 <= i < |r| ==> r[i].depth <= r[k].depth + 1
    ensures k + 1 < |r| ==> r[k].depth <= r[k + 1].depth
    ensures forall i :: 0 <= i <= k ==> LinksWithin(cfg, r, r[i])
  {
    forall i | 0 <= i <= k ensures LinksWithin(cfg, r, r[i]) {
      if i < k {
        LinksWithinGrows(cfg, q, r, q[i]);
      } else if q[k].depth < cfg.maxDepth {
        forall u | u in LinksOf(cfg.site, q[k].url) ensures ListedWithin(r, u, q[k].depth + 1) {
          assert Listed(r, u);
          var m :| 0 <= m < |r| && r[m].url == u;
        }
      }
    }
  }

  lemma BreadthFirstReceive(cfg: Config, s: State, w: nat)
    requires cfg.workers == 1 && Inv(cfg, s) && Enabled(s, Receive(w))
    requires Unhindered(Apply(cfg, s, Receive(w))) && BreadthFirst(cfg, s)
    ensures BreadthFirst(cfg, Apply(cfg, s, Receive(w)))
  {
    var t := Apply(cfg, s, Receive(w));
    ReceiveGrows(cfg, s, w);
    LevelGrows(cfg, Queue(s), Queue(t), Cursor(s));
    StartsGrow(cfg, Queue(s), Queue(t));
    assert Cursor(t) == Cursor(s) + 1;
  }

  lemma BreadthFirstOther(cfg: Config, s: State, step: Step)
    requires cfg.workers == 1 && Inv(cfg, s) && Enabled(s, step) && !step.Receive?
    requires Unhindered(Apply(cfg, s, step)) && BreadthFirst(cfg, s)
    ensures BreadthFirst(cfg, Apply(cfg, s, step))
  {
    var t := Apply(cfg, s, step);
    if step.HandOut? {
      InvHandOut(cfg, s, step.w);
      assert Queue(s)[|s.handed|] == s.front.pending[0];
    }
    assert Queue(t) == Queue(s);
    assert Cursor(t) == Cursor(s);
  }

  lemma {:induction false} BreadthFirstAlways(cfg: Config, steps: seq<Step>, s: State)
    requires ValidConfig(cfg) && cfg.workers == 1 && Reaches(cfg, steps, s) && Unhindered(s)
    ensures |s.workers| == 1 && BreadthFirst(cfg, s)
  {
    InvAlways(cfg, steps, s);
    if steps == [] {
      BreadthFirstInit(cfg);
    } else {
      var front, last := steps[..|steps| - 1], steps[|steps| - 1];
      var p := LastStep(cfg, steps, s);
      InvAlways(cfg, front, p);
      UnhinderedBefore(cfg, p, last);
      BreadthFirstAlways(cfg, front, p);
      if last.Receive? {
        BreadthFirstReceive(cfg, p, last.w);
      } else {
        BreadthFirstOther(cfg, p, last);
      }
    }
  }

  lemma {:induction false} PathsAreListedWithin(cfg: Config, q: seq<Job>, u: Url, k: nat)
    requires HasStarts(cfg, q) && (forall i :: 0 <= i < |q| ==> LinksWithin(cfg, q, q[i]))
    requires k <= cfg.maxDepth && PathTo(cfg, u, k)
    ensures ListedWithin(q, u, k)
    decreases k
  {
    if k > 0 {
      var v :| PathTo(cfg, v, k - 1) && cfg.site.outcome(v).Fetched? && u in cfg.site.links(v);
      assert u in LinksOf(cfg.site, v);
      PathsAreListedWithin(cfg, q, v, k - 1);
      var i :| 0 <= i < |q| && q[i].url == v && q[i].depth <= k - 1;
      assert LinksWithin(cfg, q, q[i]);
      assert ListedWithin(q, u, q[i].depth + 1);
    }
  }

  /** Breadth-first search: with one worker, no cancellation and no exhausted budget, the URLs handed
      out are exactly those within MaxDepth links of the starts, each once, and each with its shortest
      distance. */
  lemma OneWorkerSearchesBreadthFirst(cfg: Config, steps: seq<Step>, s: State)
    requires ValidConfig(cfg) && cfg.workers == 1
    requires Reaches(cfg, steps, s) && Unhindered(s) && !Looping(s)
    ensures Complete(cfg, s)
    ensures Distinct(s.handed)
    ensures forall i :: 0 <= i < |s.handed| ==> PathTo(cfg, s.handed[i].url, s.handed[i].depth)
    ensures forall i, n: nat :: 0 <= i < |s.handed| && PathTo(cfg, s.handed[i].url, n) ==> s.handed[i].depth <= n
  {
    var q := s.handed;
    FinishedQueue(cfg, steps, s);
    BreadthFirstAlways(cfg, steps, s);
    NoDeadlock(cfg, steps, s);
    assert Cursor(s) == |q|;
    forall i, n: nat | 0 <= i < |q| && PathTo(cfg, q[i].url, n) ensures q[i].depth <= n {
      assert Genuine(cfg, q[i]);
      if n <= cfg.maxDepth {
        PathsAreListedWithin(cfg, q, q[i].url, n);
        var m :| 0 <= m < |q| && q[m].url == q[i].url && q[m].depth <= n;
        assert m == i;
      }
    }
    forall i | 0 <= i < |q| ensures PathTo(cfg, q[i].url, q[i].depth) {
      assert Genuine(cfg, q[i]);
    }
    CompleteIfNoneTooDeep(cfg, steps, s);
  }

  // ------------------------------------------------------ several workers

  lemma ShallowLimitIsSafe(cfg: Config, q: seq<Job>)
    requires cfg.maxDepth <= 1 && HasStarts(cfg, q) && Distinct(q)
    ensures NoneTooDeep(cfg, q)
  {
    forall i, n: nat | 0 <= i < |q| && n < cfg.maxDepth && PathTo(cfg, q[i].url, n)
      ensures q[i].depth < cfg.maxDepth
    {
      assert ListedWithin(q, q[i].url, 0);
      var m :| 0 <= m < |q| && q[m].url == q[i].url && q[m].depth <= 0;
      assert m == i;
    }
  }

  lemma Parent(cfg: Config, q: seq<Job>, c: nat) returns (p: nat)
    requires c < |q| && HasParents(cfg, q) && q[c].depth > 0
    ensures p < c && q[p].depth + 1 == q[c].depth
  {
    p :| 0 <= p < |q| && FoundFrom(cfg, q, p, c);
  }

  /** A page at depth `d` has at least `d` pages before it. */
  lemma {:induction false} DepthNeedsPages(cfg: Config, q: seq<Job>, c: nat)
    requires c < |q| && HasParents(cfg, q)
    ensures q[c].depth <= c
  {
    if q[c].depth > 0 {
      var p := Parent(cfg, q, c);
      DepthNeedsPages(cfg, q, p);
    }
  }

  /** If the last of the pages is as deep as it can be, they form a chain. */
  lemma {:induction false} DeepestMakesChain(cfg: Config, q: seq<Job>, c: nat)
    requires c < |q| && HasParents(cfg, q) && q[c].depth == c
    ensures forall i :: 0 <= i <= c ==> q[i].depth == i
  {
    if c > 0 {
      var p := Parent(cfg, q, c);
      DepthNeedsPages(cfg, q, p);
      DeepestMakesChain(cfg, q, p);
    }
  }

  lemma {:induction false} ChainIsExact(cfg: Config, q: seq<Job>, u: Url, k: nat)
    requires HasStarts(cfg, q) && HasParents(cfg, q)
    requires |q| == cfg.maxDepth + 1 && forall i :: 0 <= i < |q| ==> q[i].depth == i
    requires k < cfg.maxDepth && PathTo(cfg, u, k)
    ensures ListedWithin(q, u, k)
    decreases k
  {
    if k > 0 {
      var v :| PathTo(cfg, v, k - 1) && cfg.site.outcome(v).Fetched? && u in cfg.site.links(v);
      assert u in LinksOf(cfg.site, v);
      ChainIsExact(cfg, q, v, k - 1);
      var i :| 0 <= i < |q| && q[i].url == v && q[i].depth <= k - 1;
      NextInChain(cfg, q, u, i);
      assert ListedWithin(q, u, i + 1);
    }
  }

  /** A link of a page of the chain is listed by the next one. */
  lemma NextInChain(cfg: Config, q: seq<Job>, u: Url, i: nat)
    requires HasParents(cfg, q) && i + 1 < |q| && forall i :: 0 <= i < |q| ==> q[i].depth == i
    requires u in LinksOf(cfg.site, q[i].url)
    ensures ListedWithin(q, u, i + 1)
  {
    var p :| 0 <= p < |q| && FoundFrom(cfg, q, p, i + 1);
    assert p == i;
    assert ListedBy(q, u, i + 1);
  }

  lemma SmallBudgetIsSafe(cfg: Config, q: seq<Job>)
    requires |q| <= cfg.maxPages <= cfg.maxDepth + 1
    requires HasStarts(cfg, q) && HasParents(cfg, q) && Distinct(q) && AllGenuine(cfg, q)
    ensures NoneTooDeep(cfg, q)
  {
    forall i, n: nat | 0 <= i < |q| && n < cfg.maxDepth && PathTo(cfg, q[i].url, n)
      ensures q[i].depth < cfg.maxDepth
    {
      assert Genuine(cfg, q[i]);
      if q[i].depth == cfg.maxDepth {
        DepthNeedsPages(cfg, q, i);
        DeepestMakesChain(cfg, q, i);
        ChainIsExact(cfg, q, q[i].url, n);
      }
    }
  }

  /** One worker, or a depth limit of at most one, or a page budget of at most MaxDepth + 1: any of
      these makes every unhindered run complete, in every interleaving. */
  predicate SafeLimits(workers: nat, maxDepth: nat, maxPages: nat) {
    workers == 1 || maxDepth <= 1 || maxPages <= maxDepth + 1
  }

  lemma SafeLimitsAreComplete(cfg: Config, steps: seq<Step>, s: State)
    requires ValidConfig(cfg) && SafeLimits(cfg.workers, cfg.maxDepth, cfg.maxPages)
    requires Reaches(cfg, steps, s) && Unhindered(s) && !Looping(s)
    ensures Complete(cfg, s)
  {
    if cfg.workers == 1 {
      OneWorkerSearchesBreadthFirst(cfg, steps, s);
    } else {
      FinishedQueue(cfg, steps, s);
      if cfg.maxDepth <= 1 {
        ShallowLimitIsSafe(cfg, s.handed);
      } else {
        SmallBudgetIsSafe(cfg, s.handed);
      }
      CompleteIfNoneTooDeep(cfg, steps, s);
    }
  }
}
