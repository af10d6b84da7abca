/** internal/worker/pool.go: Run, any number of workers that share the job queue and the counters. */
module WorkerRun {
  import opened Acquire

  datatype WorkerState = Waiting | Processing | Returned

  /** `sent` jobs have been put into the queue, `taken` taken out of it. */
  datatype State = State(sent: nat, taken: nat, closed: bool, ended: bool, c: Counters, workers: seq<WorkerState>)

  datatype Step =
    // the producer and the context
    | Send
    | Close
    | End
    // worker w
    | Take(w: nat)
    | Process(w: nat, r: Result, after: Counters)
    | Return(w: nat)

  predicate Enabled(s: State, step: Step) {
    match step
    case Send => !s.closed
    case Close => !s.closed
    case End => true
    case Take(w) => w < |s.workers| && s.workers[w].Waiting? && s.taken < s.sent
    case Process(w, r, after) => w < |s.workers| && s.workers[w].Processing? && CountsJob(s.c, after, r)
    case Return(w) => w < |s.workers| && s.workers[w].Waiting? && (s.ended || (s.closed && s.taken == s.sent))
  }

  function Apply(s: State, step: Step): State
    requires Enabled(s, step)
  {
    match step
    case Send => s.(sent := s.sent + 1)
    case Close => s.(closed := true)
    case End => s.(ended := true)
    case Take(w) => s.(taken := s.taken + 1, workers := s.workers[w := Processing])
    case Process(w, r, after) => s.(c := after, workers := s.workers[w := Waiting])
    case Return(w) => s.(workers := s.workers[w := Returned])
  }

  function Init(concurrency: nat): State {
    State(0, 0, false, false, Counters(0, 0, 0, multiset{}, 0, 0), seq(concurrency, _ => Waiting))
  }

  /** `steps` is a run from `s` to `n`. */
  ghost predicate Continues(s: State, steps: seq<Step>, n: State)
    decreases |steps|
  {
    if steps == [] then n == s else Enabled(s, steps[0]) && Continues(Apply(s, steps[0]), steps[1..], n)
  }

  function Busy(ws: seq<WorkerState>): nat {
    if ws == [] then 0 else Busy(ws[..|ws| - 1]) + if ws[|ws| - 1].Processing? then 1 else 0
  }

  lemma {:induction false} BusyOfUpdate(ws: seq<WorkerState>, w: nat, x: WorkerState)
    requires w < |ws|
    ensures Busy(ws[w := x]) == Busy(ws) - (if ws[w].Processing? then 1 else 0) + (if x.Processing? then 1 else 0)
  {
    var n := |ws| - 1;
    if w == n {
      assert ws[w := x][..n] == ws[..n];
    } else {
      BusyOfUpdate(ws[..n], w, x);
      assert ws[w := x][..n] == ws[..n][w := x];
    }
  }

  lemma {:induction false} NoneBusy(ws: seq<WorkerState>)
    requires forall w :: 0 <= w < |ws| ==> !ws[w].Processing?
    ensures Busy(ws) == 0
  {
    if ws != [] {
      NoneBusy(ws[..|ws| - 1]);
    }
  }

  ghost predicate Inv(s: State) {
    && s.c.succeeded + s.c.dropped + Busy(s.workers) == s.taken
    && s.taken <= s.sent
    && ((exists w :: 0 <= w < |s.workers| && s.workers[w].Returned?) ==> s.ended || (s.closed && s.taken == s.sent))
  }

  lemma InvStep(s: State, step: Step)
    requires Inv(s) && Enabled(s, step)
    ensures Inv(Apply(s, step))
  {
    match step
    case Take(w) => BusyOfUpdate(s.workers, w, Processing);
    case Process(w, r, after) => BusyOfUpdate(s.workers, w, Waiting);
    case Return(w) => BusyOfUpdate(s.workers, w, Returned);
    case _ =>
  }

  lemma {:induction false} InvRun(s: State, steps: seq<Step>, n: State)
    requires Inv(s) && Continues(s, steps, n)
    ensures Inv(n) && |n.workers| == |s.workers|
    decreases |steps|
  {
    if steps != [] {
      InvStep(s, steps[0]);
      InvRun(Apply(s, steps[0]), steps[1..], n);
    }
  }

  /** In every run, at any time, each job taken has been counted once or is being processed; and when all
      workers have returned, success + dropped is the number of jobs taken, which is that of the jobs sent
      unless the context ended. */
  lemma EveryJobIsCounted(concurrency: nat, steps: seq<Step>, n: State)
    requires Continues(Init(concurrency), steps, n)
    ensures n.c.succeeded + n.c.dropped + Busy(n.workers) == n.taken <= n.sent
    ensures |n.workers| == concurrency
    ensures (forall w :: 0 <= w < concurrency ==> n.workers[w].Returned?) ==>
              && n.c.succeeded + n.c.dropped == n.taken
              && (n.ended || concurrency == 0 || (n.closed && n.taken == n.sent))
  {
    NoneBusy(Init(concurrency).workers);
    InvRun(Init(concurrency), steps, n);
    if forall w :: 0 <= w < concurrency ==> n.workers[w].Returned? {
      NoneBusy(n.workers);
      assert concurrency > 0 ==> n.workers[0].Returned?;
    }
  }

  /** Once the queue is closed or the context has ended a worker that has not returned can go on. */
  lemma NoWorkerIsStuck(s: State, w: nat, r: Result) returns (step: Step)
    requires Inv(s) && w < |s.workers| && !s.workers[w].Returned? && (s.closed || s.ended) && !r.Panicked?
    ensures Enabled(s, step) && Apply(s, step).workers[w] != s.workers[w]
  {
    if s.workers[w].Processing? {
      step := Process(w, r, s.c.(succeeded := s.c.succeeded + (if r.Used? then 1 else 0),
                                 dropped := s.c.dropped + (if r.Used? then 0 else 1)));
    } else if s.ended || s.taken == s.sent {
      step := Return(w);
    } else {
      step := Take(w);
    }
  }
}
