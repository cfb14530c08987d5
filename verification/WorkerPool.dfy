/** The operator's verification worker pool (`ProcessNewBatchLogV3`, operator/pkg/operator.go) as a transition
system: every schedule of the goroutines is a sequence of the steps below. */
module WorkerPool {
  import opened VerifierBitmap

  // --- One verification ---

  /** A proof as the pool sees it: the id of its proving system and what that system's verifier answers. */
  datatype Job = Job(system: nat, accepted: bool)

  const PROVING_SYSTEMS: nat := 6

  /** `verify`: one boolean for every job. */
  function Verdict(bitmap: nat, job: Job): bool {
    if IsDisabled(bitmap, job.system) then false
    else if job.system < PROVING_SYSTEMS then job.accepted
    else false
  }

  /** What the operator should accept: a known proving system that the contract's owner has not disabled, whose
  verifier accepts the proof. */
  ghost predicate Acceptable(calls: seq<Call>, job: Job) {
    job.system <= 5 && job.accepted && !DisabledByOwner(calls, job.system)
  }

  lemma VerdictIsAcceptable(calls: seq<Call>, job: Job)
    ensures BitmapAfter(calls) >= 0 && (Verdict(BitmapAfter(calls), job) <==> Acceptable(calls, job))
  {
    BitsAreWritten(calls);
    if job.system < PROVING_SYSTEMS { DisabledExactly(calls, job.system); }
  }

  // --- The pool ---

  datatype Worker = Idle | Busy(job: nat) | Exited

  datatype Collector = Collecting | Accepted | Rejected

  /** `verdicts[j]` is what `verify` answers for job j. Jobs `next` to `sent` wait in the jobs channel; `finished`
  lists the jobs in the order their results were sent, of which the collector has received the first `received`. */
  datatype Pool = Pool(
    verdicts: seq<bool>,
    sent: nat,
    next: nat,
    jobsClosed: bool,
    workers: seq<Worker>,
    finished: seq<nat>,
    received: nat,
    resultsClosed: bool,
    collector: Collector)

  datatype Step =
    | SendJob
    | CloseJobs
    | TakeJob(w: nat)
    | SendResult(w: nat)
    | Exit(w: nat)
    | CloseResults
    | Receive
    | EndOfResults

  ghost predicate IsWorker(p: Pool, w: nat, state: Worker) {
    w < |p.workers| && p.workers[w] == state
  }

  /** What is buffered in the results channel, whose capacity is the number of jobs. */
  function Buffered(p: Pool): int {
    |p.finished| - p.received
  }

  /** When a step can run. Sending a result needs room in the channel; the main goroutine collects after closing
  the jobs, and stops at the first false result. */
  ghost predicate Enabled(p: Pool, s: Step) {
    match s
    case SendJob => p.sent < |p.verdicts|
    case CloseJobs => p.sent == |p.verdicts| && !p.jobsClosed
    case TakeJob(w) => IsWorker(p, w, Idle) && p.next < p.sent
    case SendResult(w) => w < |p.workers| && p.workers[w].Busy? && Buffered(p) < |p.verdicts|
    case Exit(w) => IsWorker(p, w, Idle) && p.next == p.sent && p.jobsClosed
    case CloseResults => !p.resultsClosed && p.jobsClosed && forall w :: 0 <= w < |p.workers| ==> p.workers[w].Exited?
    case Receive => p.jobsClosed && p.collector.Collecting? && Buffered(p) > 0 && p.finished[p.received] < |p.verdicts|
    case EndOfResults => p.jobsClosed && p.collector.Collecting? && Buffered(p) == 0 && p.resultsClosed
  }

  ghost function Next(p: Pool, s: Step): Pool
    requires Enabled(p, s)
  {
    match s
    case SendJob => p.(sent := p.sent + 1)
    case CloseJobs => p.(jobsClosed := true)
    case TakeJob(w) => p.(workers := p.workers[w := Busy(p.next)], next := p.next + 1)
    case SendResult(w) => p.(finished := p.finished + [p.workers[w].job], workers := p.workers[w := Idle])
    case Exit(w) => p.(workers := p.workers[w := Exited])
    case CloseResults => p.(resultsClosed := true)
    case Receive =>
      p.(received := p.received + 1, collector := if p.verdicts[p.finished[p.received]] then Collecting else Rejected)
    case EndOfResults => p.(collector := Accepted)
  }

  ghost predicate Init(p: Pool) {
    && p.sent == 0 && p.next == 0 && !p.jobsClosed
    && |p.workers| >= 1 && (forall w :: 0 <= w < |p.workers| ==> p.workers[w].Idle?)
    && p.finished == [] && p.received == 0 && !p.resultsClosed && p.collector.Collecting?
  }

  // --- Invariant ---

  ghost predicate HeldBy(p: Pool, w: nat, j: nat) {
    w < |p.workers| && p.workers[w] == Busy(j)
  }

  /** A taken job is in exactly one place: with one worker, or once among the finished. */
  ghost predicate Tracked(p: Pool) {
    && (forall w: nat, j: nat :: HeldBy(p, w, j) ==> j < p.next && j !in p.finished)
    && (forall v: nat, w: nat, j: nat :: HeldBy(p, v, j) && HeldBy(p, w, j) ==> v == w)
    && Distinct(p.finished)
    && (forall i :: 0 <= i < |p.finished| ==> p.finished[i] < p.next)
    && (forall j: nat :: j < p.next ==> j in p.finished || exists w: nat :: HeldBy(p, w, j))
  }

  ghost predicate Inv(p: Pool) {
    && p.next <= p.sent <= |p.verdicts|
    && |p.workers| >= 1
    && Tracked(p)
    && p.received <= |p.finished|
    && (p.jobsClosed ==> p.sent == |p.verdicts|)
    && ((exists w :: 0 <= w < |p.workers| && p.workers[w].Exited?) ==> p.jobsClosed && p.next == p.sent)
    && (p.resultsClosed ==> p.jobsClosed && forall w :: 0 <= w < |p.workers| ==> p.workers[w].Exited?)
    && (!p.collector.Rejected? ==> forall i :: 0 <= i < p.received ==> p.verdicts[p.finished[i]])
    && (p.collector.Rejected? ==> exists i :: 0 <= i < p.received && !p.verdicts[p.finished[i]])
    && (p.collector.Accepted? ==> p.resultsClosed && p.received == |p.finished|)
  }

  lemma InitInv(p: Pool)
    requires Init(p)
    ensures Inv(p)
  {
  }

  lemma TakeKeepsTracked(p: Pool, w: nat)
    requires Tracked(p) && IsWorker(p, w, Idle)
    ensures Tracked(p.(workers := p.workers[w := Busy(p.next)], next := p.next + 1))
  {
    var p' := p.(workers := p.workers[w := Busy(p.next)], next := p.next + 1);
    assert forall v: nat, j: nat :: HeldBy(p', v, j) ==> (v == w && j == p.next) || HeldBy(p, v, j);
    forall j: nat | j < p'.next ensures j in p'.finished || exists v: nat :: HeldBy(p', v, j) {
      if j == p.next {
        assert HeldBy(p', w, j);
      } else if j !in p.finished {
        var v: nat :| HeldBy(p, v, j);
        assert HeldBy(p', v, j);
      }
    }
  }

  lemma SendKeepsTracked(p: Pool, w: nat)
    requires Tracked(p) && w < |p.workers| && p.workers[w].Busy?
    ensures Tracked(p.(finished := p.finished + [p.workers[w].job], workers := p.workers[w := Idle]))
  {
    var job := p.workers[w].job;
    var p' := p.(finished := p.finished + [job], workers := p.workers[w := Idle]);
    assert HeldBy(p, w, job);
    assert forall v: nat, j: nat :: HeldBy(p', v, j) ==> HeldBy(p, v, j) && v != w;
    forall j: nat | j < p'.next ensures j in p'.finished || exists v: nat :: HeldBy(p', v, j) {
      if j in p.finished || j == job {
        assert p'.finished[|p.finished|] == job;
      } else {
        var v: nat :| HeldBy(p, v, j);
        assert HeldBy(p', v, j);
      }
    }
  }

  lemma ExitKeepsTracked(p: Pool, w: nat)
    requires Tracked(p) && IsWorker(p, w, Idle)
    ensures Tracked(p.(workers := p.workers[w := Exited]))
  {
    var p' := p.(workers := p.workers[w := Exited]);
    assert forall v: nat, j: nat :: HeldBy(p', v, j) <==> HeldBy(p, v, j);
  }

  lemma SameTracked(p: Pool, p': Pool)
    requires Tracked(p) && p'.workers == p.workers && p'.next == p.next && p'.finished == p.finished
    ensures Tracked(p')
  {
    assert forall v: nat, j: nat :: HeldBy(p', v, j) <==> HeldBy(p, v, j);
  }

  lemma StepKeepsTracked(p: Pool, s: Step)
    requires Inv(p) && Enabled(p, s)
    ensures Tracked(Next(p, s))
  {
    match s
    case TakeJob(w) => TakeKeepsTracked(p, w);
    case SendResult(w) => SendKeepsTracked(p, w);
    case Exit(w) => ExitKeepsTracked(p, w);
    case _ => SameTracked(p, Next(p, s));
  }

  lemma StepKeepsInv(p: Pool, s: Step)
    requires Inv(p) && Enabled(p, s)
    ensures Inv(Next(p, s))
  {
    StepKeepsTracked(p, s);
    var p' := Next(p, s);
    if s.Receive? && p'.collector.Rejected? {
      assert !p'.verdicts[p'.finished[p.received]];
    } else if p'.collector.Rejected? {
      var i :| 0 <= i < p.received && !p.verdicts[p.finished[i]];
      assert !p'.verdicts[p'.finished[i]];
    }
  }

  // --- No worker blocks, nothing is sent after close ---

  ghost predicate Distinct(s: seq<nat>) {
    forall i, k :: 0 <= i < k < |s| ==> s[i] != s[k]
  }

  /** Distinct numbers below `n` that miss one of them are fewer than `n`. */
  lemma {:induction false} Pigeonhole(s: seq<nat>, n: nat, missing: nat)
    requires missing < n && missing !in s && Distinct(s)
    requires forall i :: 0 <= i < |s| ==> s[i] < n
    ensures |s| < n
    decreases n
  {
    if s != [] {
      var last := s[|s| - 1];
      var rest := s[..|s| - 1];
      assert last !in rest;
      // the first n - 1 numbers, with n - 1 renamed to the number that is free for it
      if missing == n - 1 {
        Pigeonhole(rest, n - 1, last);
      } else {
        var renamed := Rename(rest, n - 1, last);
        RenameStaysDistinct(rest, n - 1, last);
        Pigeonhole(renamed, n - 1, missing);
      }
    }
  }

  ghost function Rename(s: seq<nat>, from: nat, to: nat): seq<nat> {
    seq(|s|, i requires 0 <= i < |s| => if s[i] == from then to else s[i])
  }

  lemma RenameStaysDistinct(s: seq<nat>, from: nat, to: nat)
    requires Distinct(s) && to !in s
    ensures Distinct(Rename(s, from, to))
  {
  }

  /** A worker with a job can always send its result, even when the collector has already returned: the channel
  has room and is open. */
  lemma WorkersNeverBlock(p: Pool, w: nat)
    requires Inv(p) && w < |p.workers| && p.workers[w].Busy?
    ensures Enabled(p, SendResult(w)) && !p.resultsClosed
  {
    var job := p.workers[w].job;
    assert HeldBy(p, w, job);
    Pigeonhole(p.finished, |p.verdicts|, job);
  }

  // --- What every run ends with ---

  lemma {:induction false} RunKeepsInv(states: seq<Pool>, steps: seq<Step>, i: nat)
    requires Run(states, steps) && i <= |steps|
    ensures Inv(states[i])
  {
    if i == 0 {
      InitInv(states[0]);
    } else {
      RunKeepsInv(states, steps, i - 1);
      StepKeepsInv(states[i - 1], steps[i - 1]);
    }
  }

  ghost predicate Run(states: seq<Pool>, steps: seq<Step>) {
    && |states| == |steps| + 1
    && Init(states[0])
    && forall i :: 0 <= i < |steps| ==> Enabled(states[i], steps[i]) && states[i + 1] == Next(states[i], steps[i])
  }

  /** Once the results are closed every job has exactly one result. */
  lemma AllFinished(p: Pool)
    requires Inv(p) && p.resultsClosed
    ensures p.next == |p.verdicts| && Distinct(p.finished) && forall j: nat :: j < |p.verdicts| ==> j in p.finished
  {
    assert p.workers[0].Exited?;
    assert forall w: nat, j: nat :: !HeldBy(p, w, j);
  }

  /** The decision, whenever it is made, is the conjunction of all verdicts. */
  lemma DecisionIsRight(p: Pool)
    requires Inv(p)
    ensures p.collector.Accepted? ==> forall j :: 0 <= j < |p.verdicts| ==> p.verdicts[j]
    ensures p.collector.Rejected? ==> exists j :: 0 <= j < |p.verdicts| && !p.verdicts[j]
  {
    if p.collector.Accepted? {
      AllFinished(p);
      forall j | 0 <= j < |p.verdicts| ensures p.verdicts[j] {
        assert j in p.finished;
      }
    }
  }

  ghost predicate Done(p: Pool) {
    !p.collector.Collecting? && p.resultsClosed && forall w :: 0 <= w < |p.workers| ==> p.workers[w].Exited?
  }

  /** No schedule gets stuck before the decision is made, every worker has exited and the results are closed. */
  lemma NeverStuck(p: Pool) returns (s: Step)
    requires Inv(p) && !Done(p)
    ensures Enabled(p, s)
  {
    if p.sent < |p.verdicts| { return SendJob; }
    if !p.jobsClosed { return CloseJobs; }
    if w: nat :| w < |p.workers| && p.workers[w].Busy? {
      WorkersNeverBlock(p, w);
      return SendResult(w);
    }
    if w: nat :| w < |p.workers| && p.workers[w].Idle? {
      return if p.next < p.sent then TakeJob(w) else Exit(w);
    }
    if !p.resultsClosed { return CloseResults; }
    if Buffered(p) > 0 {
      assert p.finished[p.received] < p.next;
      return Receive;
    }
    return EndOfResults;
  }

  ghost function Alive(workers: seq<Worker>): nat {
    if workers == [] then 0 else Alive(workers[..|workers| - 1]) + if workers[|workers| - 1].Exited? then 0 else 1
  }

  lemma {:induction false} ExitLowersAlive(workers: seq<Worker>, w: nat, state: Worker)
    requires w < |workers| && !workers[w].Exited?
    ensures Alive(workers[w := state]) == Alive(workers) - if state.Exited? then 1 else 0
  {
    var last := |workers| - 1;
    if w < last {
      ExitLowersAlive(workers[..last], w, state);
      assert workers[w := state][..last] == workers[..last][w := state];
    } else {
      assert workers[w := state][..last] == workers[..last];
    }
  }

  /** Every step uses up one of finitely many things: a job to send, take or finish, a worker to exit, a result to
  receive, a channel to close, or the decision. */
  ghost function Left(p: Pool): int {
    (|p.verdicts| - p.sent) + (|p.verdicts| - p.next) + (|p.verdicts| - |p.finished|) + (|p.verdicts| - p.received)
    + (if p.jobsClosed then 0 else 1) + (if p.resultsClosed then 0 else 1) + (if p.collector.Accepted? then 0 else 1)
    + Alive(p.workers)
  }

  lemma FinishedBounded(p: Pool)
    requires Inv(p)
    ensures |p.finished| <= |p.verdicts|
  {
    if |p.finished| > 0 {
      var last := |p.finished| - 1;
      var most := p.finished[..last];
      Pigeonhole(most, |p.verdicts|, p.finished[last]);
    }
  }

  /** Every step lowers a bound, so every schedule ends, and by `NeverStuck` it ends with a decision. */
  lemma EveryStepCounts(p: Pool, s: Step)
    requires Inv(p) && Enabled(p, s)
    ensures 0 <= Left(Next(p, s)) < Left(p)
  {
    StepKeepsInv(p, s);
    FinishedBounded(Next(p, s));
    match s
    case TakeJob(w) => ExitLowersAlive(p.workers, w, Busy(p.next));
    case SendResult(w) => ExitLowersAlive(p.workers, w, Idle);
    case Exit(w) => ExitLowersAlive(p.workers, w, Exited);
    case _ =>
  }

  /** No schedule is longer than four steps per job, one per worker and three more. */
  lemma {:induction false} RunsAreBounded(states: seq<Pool>, steps: seq<Step>, i: nat)
    requires Run(states, steps) && i <= |steps|
    ensures i + Left(states[i]) <= Left(states[0]) && Left(states[i]) >= 0
  {
    if i == 0 {
      InitInv(states[0]);
      FinishedBounded(states[0]);
    } else {
      RunsAreBounded(states, steps, i - 1);
      RunKeepsInv(states, steps, i - 1);
      EveryStepCounts(states[i - 1], steps[i - 1]);
    }
  }

  lemma {:induction false} VerdictsStay(states: seq<Pool>, steps: seq<Step>, i: nat)
    requires Run(states, steps) && i <= |steps|
    ensures states[i].verdicts == states[0].verdicts
  {
    if i > 0 { VerdictsStay(states, steps, i - 1); }
  }

  ghost predicate VerdictsOf(verdicts: seq<bool>, bitmap: int, jobs: seq<Job>) {
    bitmap >= 0 && |verdicts| == |jobs| && forall j :: 0 <= j < |jobs| ==> verdicts[j] == Verdict(bitmap, jobs[j])
  }

  ghost predicate AllAcceptable(calls: seq<Call>, jobs: seq<Job>) {
    forall j :: 0 <= j < |jobs| ==> Acceptable(calls, jobs[j])
  }

  /** Under every schedule: the decision, once made, is to accept exactly when every proof is acceptable, and a
  schedule that can go no further has made it, with every worker gone. */
  lemma BatchDecision(states: seq<Pool>, steps: seq<Step>, calls: seq<Call>, jobs: seq<Job>)
    requires Run(states, steps) && VerdictsOf(states[0].verdicts, BitmapAfter(calls), jobs)
    ensures states[|steps|].collector.Accepted? ==> AllAcceptable(calls, jobs)
    ensures states[|steps|].collector.Rejected? ==> !AllAcceptable(calls, jobs)
    ensures (forall s :: !Enabled(states[|steps|], s)) ==> Done(states[|steps|])
  {
    var p := states[|steps|];
    RunKeepsInv(states, steps, |steps|);
    VerdictsStay(states, steps, |steps|);
    DecisionIsRight(p);
    forall j | 0 <= j < |jobs| ensures p.verdicts[j] <==> Acceptable(calls, jobs[j]) {
      VerdictIsAcceptable(calls, jobs[j]);
    }
    if !Done(p) {
      var s := NeverStuck(p);
    }
  }
}
