/** internal/crawl/crawler.go: Crawler.Run. The coordinator's frontier as it is updated in place, and
    the protocol it runs with its workers as a state machine over atomic steps. */
module Crawl {

  type Url = string

  datatype Job = Job(url: Url, depth: nat)

  // ------------------------------------------------------------ frontier

  /** What the coordinator owns: `seen`, `pending` and two of the statistics. */
  datatype Front = Front(seen: set<Url>, pending: seq<Job>, discovered: nat, exhausted: bool)

  const EMPTY_FRONT := Front({}, [], 0, false)

  function Enqueue(f: Front, j: Job, maxPages: nat): Front {
    if j.url in f.seen then f
    else if |f.seen| >= maxPages then f.(exhausted := true)
    else Front(f.seen + {j.url}, f.pending + [j], f.discovered + 1, f.exhausted)
  }

  function EnqueueAll(f: Front, jobs: seq<Job>, maxPages: nat): Front {
    if jobs == [] then f
    else Enqueue(EnqueueAll(f, jobs[..|jobs| - 1], maxPages), jobs[|jobs| - 1], maxPages)
  }

  function JobsAt(urls: seq<Url>, depth: nat): (jobs: seq<Job>)
    ensures |jobs| == |urls|
    ensures forall i :: 0 <= i < |urls| ==> jobs[i] == Job(urls[i], depth)
  {
    seq(|urls|, i requires 0 <= i < |urls| => Job(urls[i], depth))
  }

  /** The coordinator's variables. Each method is one of its atomic sections. */
  class Coordinator {
    const maxPages: nat
    var seen: set<Url>
    var pending: seq<Job>
    var inFlight: nat
    var discovered: nat
    var exhausted: bool

    function Frontier(): Front
      reads this
    {
      Front(seen, pending, discovered, exhausted)
    }

    constructor (pages: nat, starts: seq<Url>)
      ensures maxPages == pages && inFlight == 0
      ensures Frontier() == EnqueueAll(EMPTY_FRONT, JobsAt(starts, 0), pages)
    {
      maxPages := pages;
      seen, pending, inFlight, discovered, exhausted := {}, [], 0, 0, false;
      new;
      EnqueueJobs(JobsAt(starts, 0));
    }

    method EnqueueOne(raw: Url, depth: nat)
      modifies this`seen, this`pending, this`discovered, this`exhausted
      ensures Frontier() == Enqueue(old(Frontier()), Job(raw, depth), maxPages)
    {
      if raw in seen {
        return;
      }
      if |seen| >= maxPages {
        exhausted := true;
        return;
      }
      seen := seen + {raw};
      discovered := discovered + 1;
      pending := pending + [Job(raw, depth)];
    }

    method EnqueueJobs(links: seq<Job>)
      modifies this`seen, this`pending, this`discovered, this`exhausted
      ensures Frontier() == EnqueueAll(old(Frontier()), links, maxPages)
    {
      for i := 0 to |links|
        invariant Frontier() == EnqueueAll(old(Frontier()), links[..i], maxPages)
      {
        assert links[..i + 1][..i] == links[..i];
        EnqueueOne(links[i].url, links[i].depth);
      }
      assert links[..|links|] == links;
    }

    /** A worker has taken the first pending job. */
    method HandOut() returns (j: Job)
      requires pending != []
      modifies this`pending, this`inFlight
      ensures j == old(pending)[0]
      ensures Frontier() == old(Frontier()).(pending := old(pending)[1..]) && inFlight == old(inFlight) + 1
    {
      j := pending[0];
      pending := pending[1..];
      inFlight := inFlight + 1;
    }

    /** A worker's links have come back; they are dropped once the context has ended. */
    method Receive(links: seq<Job>, ctxEnded: bool)
      requires inFlight > 0
      modifies this
      ensures Frontier() == if ctxEnded then old(Frontier()) else EnqueueAll(old(Frontier()), links, maxPages)
      ensures inFlight == old(inFlight) - 1
    {
      inFlight := inFlight - 1;
      if !ctxEnded {
        EnqueueJobs(links);
      }
    }

    /** The coordinator has noticed the cancellation: nothing more is handed out. */
    method Stop()
      modifies this`pending
      ensures Frontier() == old(Frontier()).(pending := [])
    {
      pending := [];
    }
  }

  // ------------------------------------------------------------ the site

  datatype Outcome = Fetched | Failed | Disallowed

  /** visit as an oracle: how the fetch of a URL ends and, if it is fetched, which in-scope links its
      page has. */
  datatype Site = Site(outcome: Url -> Outcome, links: Url -> seq<Url>)

  function LinksOf(site: Site, u: Url): seq<Url> {
    if site.outcome(u).Fetched? then site.links(u) else []
  }

  datatype Config = Config(workers: nat, maxDepth: nat, maxPages: nat, starts: seq<Url>, site: Site)

  /** What compile guarantees of a target. */
  predicate ValidConfig(cfg: Config) {
    cfg.workers >= 1 && cfg.maxPages >= 1
  }

  /** The links visit returns for a job: none from the last level. */
  function JobsFrom(cfg: Config, j: Job): seq<Job> {
    if j.depth < cfg.maxDepth then JobsAt(LinksOf(cfg.site, j.url), j.depth + 1) else []
  }

  /** `u` is `k` links away from a start URL along some path. */
  ghost predicate PathTo(cfg: Config, u: Url, k: nat)
    decreases k
  {
    if k == 0 then u in cfg.starts
    else exists v :: PathTo(cfg, v, k - 1) && cfg.site.outcome(v).Fetched? && u in cfg.site.links(v)
  }

  // -------------------------------------------------------- the protocol

  datatype Worker =
    | Waiting
    | Visiting(job: Job)
    | Reporting(job: Job, links: seq<Job>)

  /** `handed` logs the jobs handed out, in order, `visited` those whose visit was not canceled. `stopped` says that
      the coordinator has noticed the end of the context. */
  datatype State = State(
    front: Front, workers: seq<Worker>, inFlight: nat, handed: seq<Job>,
    ctxEnded: bool, stopped: bool, fetched: nat, failed: nat, disallowed: nat, visited: seq<Job>)

  datatype Step =
    | HandOut(w: nat)                 // the coordinator's send meets a worker's receive
    | Finish(w: nat, canceled: bool)  // visit returns
    | Receive(w: nat)                 // a worker's send meets the coordinator's receive
    | EndContext
    | Stop                            // the coordinator sees the ended context

  function AllWaiting(n: nat): (ws: seq<Worker>)
    ensures |ws| == n && forall i :: 0 <= i < n ==> ws[i] == Waiting
  {
    seq(n, _ => Waiting)
  }

  function Init(cfg: Config): State {
    State(EnqueueAll(EMPTY_FRONT, JobsAt(cfg.starts, 0), cfg.maxPages), AllWaiting(cfg.workers),
          0, [], false, false, 0, 0, 0, [])
  }

  /** The condition of the coordinator's loop. */
  predicate Looping(s: State) {
    s.front.pending != [] || s.inFlight > 0
  }

  predicate Enabled(s: State, step: Step) {
    match step
    case HandOut(w) => w < |s.workers| && s.workers[w].Waiting? && s.front.pending != []
    case Finish(w, canceled) => w < |s.workers| && s.workers[w].Visiting? && (canceled ==> s.ctxEnded)
    case Receive(w) => w < |s.workers| && s.workers[w].Reporting? && s.inFlight > 0
    case EndContext => !s.ctxEnded
    case Stop => Looping(s) && s.ctxEnded && !s.stopped
  }

  function Apply(cfg: Config, s: State, step: Step): State
    requires Enabled(s, step)
  {
    match step
    case HandOut(w) =>
      var j := s.front.pending[0];
      s.(front := s.front.(pending := s.front.pending[1..]), inFlight := s.inFlight + 1,
         handed := s.handed + [j], workers := s.workers[w := Visiting(j)])
    case Finish(w, canceled) =>
      var j := s.workers[w].job;
      if canceled then s.(workers := s.workers[w := Reporting(j, [])])
      else
        var o := cfg.site.outcome(j.url);
        s.(workers := s.workers[w := Reporting(j, JobsFrom(cfg, j))],
           fetched := s.fetched + (if o.Fetched? then 1 else 0),
           failed := s.failed + (if o.Failed? then 1 else 0),
           disallowed := s.disallowed + (if o.Disallowed? then 1 else 0),
           visited := s.visited + [j])
    case Receive(w) =>
      s.(workers := s.workers[w := Waiting], inFlight := s.inFlight - 1,
         front := if s.ctxEnded then s.front else EnqueueAll(s.front, s.workers[w].links, cfg.maxPages))
    case EndContext => s.(ctxEnded := true)
    case Stop => s.(stopped := true, front := s.front.(pending := []))
  }

  /** `steps` is a run that leads from the initial state to `s`. */
  ghost predicate Reaches(cfg: Config, steps: seq<Step>, s: State)
    decreases |steps|, 1
  {
    if steps == [] then s == Init(cfg) else ReachesBy(cfg, steps, s)
  }

  ghost predicate ReachesBy(cfg: Config, steps: seq<Step>, s: State)
    requires steps != []
    decreases |steps|, 0
  {
    var front, last := steps[..|steps| - 1], steps[|steps| - 1];
    exists p :: Reaches(cfg, front, p) && Enabled(p, last) && s == Apply(cfg, p, last)
  }

  lemma LastStep(cfg: Config, steps: seq<Step>, s: State) returns (p: State)
    requires steps != [] && Reaches(cfg, steps, s)
    ensures Reaches(cfg, steps[..|steps| - 1], p) && Enabled(p, steps[|steps| - 1])
    ensures s == Apply(cfg, p, steps[|steps| - 1])
  {
    assert ReachesBy(cfg, steps, s);
    p :| Reaches(cfg, steps[..|steps| - 1], p) && Enabled(p, steps[|steps| - 1])
         && s == Apply(cfg, p, steps[|steps| - 1]);
  }
}
