/**
 The asynchronous sync queue: a bounded FIFO with two counters under one lock, several workers, producers
 and shutdown calls. `AsyncSyncQueue` has the lock sections as methods; `Step` interleaves them.
 */
module SyncQueue {
  import opened Common

  datatype Job = Job(requestId: string, candidates: seq<string>)

  // ----- the lock sections, as functions of the shared fields -----

  /** The shared fields; `unfinished` is the standard library queue's own count behind `task_done`. */
  datatype Fields = Fields(maxSize: nat, fifo: seq<Job>, queued: int, inFlight: int, unfinished: int)

  function Clamp(x: int): int { if x >= 0 then x else 0 }

  /** `put_nowait` and the count, after the stop test; false when the queue is full. */
  function Put(f: Fields, job: Job): (Fields, bool) {
    if |f.fifo| >= f.maxSize then (f, false)
    else (f.(fifo := f.fifo + [job], queued := f.queued + 1, unfinished := f.unfinished + 1), true)
  }

  /** `_claim_next_job` */
  function Claim(f: Fields): (Fields, Option<Job>) {
    if f.queued <= 0 then (f, None)
    else if f.fifo == [] then (f.(inFlight := Clamp(f.inFlight + 1 - 1), queued := 0), None)
    else (f.(fifo := f.fifo[1..], inFlight := f.inFlight + 1, queued := Clamp(f.queued - 1)), Some(f.fifo[0]))
  }

  /** `_release_in_flight` */
  function Release(f: Fields): Fields { f.(inFlight := Clamp(f.inFlight - 1)) }

  /** One locked turn of `_clear_queued_jobs`; false when it returns. */
  function ClearOne(f: Fields): (Fields, bool) {
    if f.queued <= 0 then (f, false)
    else if f.fifo == [] then (f.(queued := 0), false)
    else (f.(fifo := f.fifo[1..], queued := Clamp(f.queued - 1)), true)
  }

  /** `queue.task_done()`, which raises when nothing is unfinished. */
  function TaskDone(f: Fields): Option<Fields> {
    if f.unfinished <= 0 then None else Some(f.(unfinished := f.unfinished - 1))
  }

  /** `_snapshot_state` */
  predicate IsIdle(f: Fields) { f.fifo == [] && f.queued == 0 && f.inFlight == 0 }

  // ----- threads -----

  datatype Phase = Running | Acking | Releasing

  /** Where a worker is in its loop. `seen` is the number of jobs accepted when it took its last snapshot. */
  datatype Worker =
    | AtSnapshot
    | AtTest(idle: bool, seen: nat)
    | AtClaim
    | Holding(job: Job, ticket: nat, phase: Phase)
    | Exited(seen: nat)

  datatype Report = Report(drain: bool, waitedForIdle: bool, idleReached: bool, remainingDepth: int,
                           inFlightJobs: int, canceledJobs: nat, aliveWorkers: nat)

  /** Where a call of `shutdown` is. */
  datatype Closer =
    | Ready(drain: bool)
    | Clearing(canceled: nat)
    | ClearAcking(canceled: nat)
    | Waiting
    | Joining(drain: bool, waited: bool, canceled: nat)
    | Counted(drain: bool, waited: bool, canceled: nat, alive: nat)
    | Reported(report: Report)

  /** What became of the job with a given ticket, once it left the FIFO. */
  datatype Fate = Claimed(worker: nat) | Cancelled

  /**
   The whole system. `enqueuing` holds the job of an `enqueue` call that has passed its stop test and still
   holds the lock. A job's ticket is its position in `accepted`; `taken` lists the fates in the order of
   leaving the FIFO; `done` are the tickets whose worker has released them.
   */
  datatype State = State(f: Fields, stop: bool, enqueuing: Option<Job>, workers: seq<Worker>, closers: seq<Closer>,
                         accepted: seq<Job>, taken: seq<Fate>, done: set<nat>)

  datatype Action =
    | EnqueueTest(job: Job)            // lock, stop test
    | EnqueuePut                       // put, count, unlock
    | WorkerSnapshot(w: nat)
    | WorkerTest(w: nat)
    | WorkerSnapshotTest(w: nat)       // the two as one locked step: not in the source, see AtomicExitStrandsNothing
    | WorkerClaim(w: nat)
    | WorkerHandle(w: nat, raises: bool)
    | WorkerAck(w: nat)
    | WorkerRelease(w: nat)
    | CloserStop(c: nat)
    | CloserClear(c: nat)
    | CloserAck(c: nat)
    | CloserWait(c: nat, timedOut: bool)
    | CloserCount(c: nat)
    | CloserReport(c: nat)

  /** The lock is free: no enqueue is between its test and its put. */
  predicate Unlocked(s: State) { s.enqueuing == None }

  function SetWorker(s: State, w: nat, pc: Worker): State
    requires w < |s.workers|
  {
    s.(workers := s.workers[w := pc])
  }

  function SetCloser(s: State, c: nat, pc: Closer): State
    requires c < |s.closers|
  {
    s.(closers := s.closers[c := pc])
  }

  /** `stop_event.is_set()` refuses; else the call goes on under the lock. */
  function StepEnqueueTest(s: State, job: Job): State {
    if !Unlocked(s) || s.stop then s else s.(enqueuing := Some(job))
  }

  function StepEnqueuePut(s: State): State {
    if s.enqueuing == None then s
    else
      var (f, ok) := Put(s.f, s.enqueuing.value);
      s.(f := f, enqueuing := None, accepted := if ok then s.accepted + [s.enqueuing.value] else s.accepted)
  }

  function StepSnapshot(s: State, w: nat): State {
    if w < |s.workers| && s.workers[w] == AtSnapshot && Unlocked(s)
    then SetWorker(s, w, AtTest(IsIdle(s.f), |s.accepted|)) else s
  }

  function StepTest(s: State, w: nat): State {
    if w < |s.workers| && s.workers[w].AtTest?
    then SetWorker(s, w, if s.stop && s.workers[w].idle then Exited(s.workers[w].seen) else AtClaim) else s
  }

  function StepSnapshotTest(s: State, w: nat): State {
    if w < |s.workers| && s.workers[w] == AtSnapshot && Unlocked(s)
    then SetWorker(s, w, if s.stop && IsIdle(s.f) then Exited(|s.accepted|) else AtClaim) else s
  }

  function StepClaim(s: State, w: nat): State {
    if w < |s.workers| && s.workers[w] == AtClaim && Unlocked(s) then
      var (f, job) := Claim(s.f);
      match job
      case None => SetWorker(s.(f := f), w, AtSnapshot)
      case Some(j) => SetWorker(s.(f := f, taken := s.taken + [Claimed(w)]), w, Holding(j, |s.taken|, Running))
    else s
  }

  /** The handler returns or raises; both lead to the `finally` part. */
  function StepHandle(s: State, w: nat, raises: bool): State {
    if w < |s.workers| && s.workers[w].Holding? && s.workers[w].phase == Running
    then SetWorker(s, w, s.workers[w].(phase := Acking)) else s
  }

  function StepAck(s: State, w: nat): State {
    if w < |s.workers| && s.workers[w].Holding? && s.workers[w].phase == Acking then
      match TaskDone(s.f)
      case None => SetWorker(s, w, Exited(0))   // the exception would end the thread
      case Some(f) => SetWorker(s.(f := f), w, s.workers[w].(phase := Releasing))
    else s
  }

  function StepRelease(s: State, w: nat): State {
    if w < |s.workers| && s.workers[w].Holding? && s.workers[w].phase == Releasing && Unlocked(s)
    then SetWorker(s.(f := Release(s.f), done := s.done + {s.workers[w].ticket}), w, AtSnapshot) else s
  }

  /** `stop_event.set()`, which takes no lock. */
  function StepStop(s: State, c: nat): State {
    if c < |s.closers| && s.closers[c].Ready?
    then SetCloser(s.(stop := true), c, if s.closers[c].drain then Waiting else Clearing(0)) else s
  }

  function StepClear(s: State, c: nat): State {
    if c < |s.closers| && s.closers[c].Clearing? && Unlocked(s) then
      var (f, more) := ClearOne(s.f);
      if more then SetCloser(s.(f := f, taken := s.taken + [Cancelled]), c, ClearAcking(s.closers[c].canceled))
      else SetCloser(s.(f := f), c, Joining(false, false, s.closers[c].canceled))
    else s
  }

  function StepCloserAck(s: State, c: nat): State {
    if c < |s.closers| && s.closers[c].ClearAcking? then
      match TaskDone(s.f)
      case None => s
      case Some(f) => SetCloser(s.(f := f), c, Clearing(s.closers[c].canceled + 1))
    else s
  }

  /** One look of `wait_for_idle`: it ends when idle is seen or the time is over. */
  function StepWait(s: State, c: nat, timedOut: bool): State {
    if c < |s.closers| && s.closers[c] == Waiting && Unlocked(s) && (IsIdle(s.f) || timedOut)
    then SetCloser(s, c, Joining(true, IsIdle(s.f), 0)) else s
  }

  function AliveWorkers(workers: seq<Worker>): nat {
    if workers == [] then 0
    else AliveWorkers(workers[..|workers| - 1]) + if workers[|workers| - 1].Exited? then 0 else 1
  }

  /** The joins end by exit or timeout, at any moment; then the live workers are counted. */
  function StepCount(s: State, c: nat): State {
    if c < |s.closers| && s.closers[c].Joining?
    then SetCloser(s, c,
        Counted(s.closers[c].drain, s.closers[c].waited, s.closers[c].canceled, AliveWorkers(s.workers)))
    else s
  }

  function StepReport(s: State, c: nat): State {
    if c < |s.closers| && s.closers[c].Counted? && Unlocked(s) then
      var pc := s.closers[c];
      SetCloser(s, c, Reported(
        Report(pc.drain, pc.waited, IsIdle(s.f), s.f.queued, s.f.inFlight, pc.canceled, pc.alive)))
    else s
  }

  /** One atomic step of one thread; an action that is not possible changes nothing. */
  function Step(s: State, a: Action): State {
    match a
    case EnqueueTest(job) => StepEnqueueTest(s, job)
    case EnqueuePut => StepEnqueuePut(s)
    case WorkerSnapshot(w) => StepSnapshot(s, w)
    case WorkerTest(w) => StepTest(s, w)
    case WorkerSnapshotTest(w) => StepSnapshotTest(s, w)
    case WorkerClaim(w) => StepClaim(s, w)
    case WorkerHandle(w, raises) => StepHandle(s, w, raises)
    case WorkerAck(w) => StepAck(s, w)
    case WorkerRelease(w) => StepRelease(s, w)
    case CloserStop(c) => StepStop(s, c)
    case CloserClear(c) => StepClear(s, c)
    case CloserAck(c) => StepCloserAck(s, c)
    case CloserWait(c, timedOut) => StepWait(s, c, timedOut)
    case CloserCount(c) => StepCount(s, c)
    case CloserReport(c) => StepReport(s, c)
  }

  function Run(s: State, actions: seq<Action>): State {
    if actions == [] then s else Step(Run(s, actions[..|actions| - 1]), actions[|actions| - 1])
  }

  /** A queue as constructed, with `shutdown` calls yet to come: drain or not, as listed. */
  function Start(maxSize: nat, workerCount: nat, drains: seq<bool>): State {
    State(Fields(if maxSize >= 1 then maxSize else 1, [], 0, 0, 0), false, None,
          seq(if workerCount >= 1 then workerCount else 1, _ => AtSnapshot),
          seq(|drains|, k requires 0 <= k < |drains| => Ready(drains[k])), [], [], {})
  }

  // ----- invariants -----

  function CountBusy(workers: seq<Worker>): nat {
    if workers == [] then 0
    else CountBusy(workers[..|workers| - 1]) + if workers[|workers| - 1].Holding? then 1 else 0
  }

  predicate Unacked(pc: Worker) { pc.Holding? && pc.phase != Releasing }

  function CountUnacked(workers: seq<Worker>): nat {
    if workers == [] then 0
    else CountUnacked(workers[..|workers| - 1]) + if Unacked(workers[|workers| - 1]) then 1 else 0
  }

  function CountClearAcking(closers: seq<Closer>): nat {
    if closers == [] then 0
    else CountClearAcking(closers[..|closers| - 1]) + if closers[|closers| - 1].ClearAcking? then 1 else 0
  }

  /** The jobs a shutdown call has taken out of the queue. */
  function CanceledBy(pc: Closer): nat {
    match pc
    case Ready(_) => 0
    case Clearing(n) => n
    case ClearAcking(n) => n + 1
    case Waiting => 0
    case Joining(_, _, n) => n
    case Counted(_, _, n, _) => n
    case Reported(r) => r.canceledJobs
  }

  function SumCanceled(closers: seq<Closer>): nat {
    if closers == [] then 0 else SumCanceled(closers[..|closers| - 1]) + CanceledBy(closers[|closers| - 1])
  }

  function CountCancelled(taken: seq<Fate>): nat {
    if taken == [] then 0
    else CountCancelled(taken[..|taken| - 1]) + if taken[|taken| - 1] == Cancelled then 1 else 0
  }

  /** The counters tell the truth about the FIFO and the threads. */
  ghost predicate Counters(s: State) {
    && s.f.queued == |s.f.fifo| <= s.f.maxSize
    && s.f.inFlight == CountBusy(s.workers)
    && s.f.unfinished == |s.f.fifo| + CountUnacked(s.workers) + CountClearAcking(s.closers)
  }

  /** Jobs leave the FIFO in the order of acceptance. */
  ghost predicate InOrder(s: State) {
    |s.taken| <= |s.accepted| && s.f.fifo == s.accepted[|s.taken|..]
  }

  /** A taken job is cancelled, or held by the worker that claimed it, or done; never two of these. */
  ghost predicate Fates(s: State) {
    && |s.taken| <= |s.accepted|
    && (forall k :: k in s.done ==> k < |s.taken| && s.taken[k].Claimed?)
    && (forall w :: 0 <= w < |s.workers| && s.workers[w].Holding? ==>
          var pc := s.workers[w];
          pc.ticket < |s.taken| && s.taken[pc.ticket] == Claimed(w) && pc.ticket !in s.done
              && pc.job == s.accepted[pc.ticket])
    && (forall k :: 0 <= k < |s.taken| && s.taken[k].Claimed? && k !in s.done ==>
          var w := s.taken[k].worker;
          w < |s.workers| && s.workers[w].Holding? && s.workers[w].ticket == k)
  }

  /** Nothing is lost: every taken job is in flight, done or cancelled. */
  ghost predicate Totals(s: State) {
    && |s.taken| == s.f.inFlight + |s.done| + CountCancelled(s.taken)
    && SumCanceled(s.closers) == CountCancelled(s.taken)
  }

  /** The job with ticket `k` was handled (or its handler raised), or cancelled. */
  ghost predicate Finished(s: State, k: nat) {
    k < |s.taken| && (s.taken[k] == Cancelled || k in s.done)
  }

  ghost predicate AllFinished(s: State, n: nat) { forall k :: 0 <= k < n ==> Finished(s, k) }

  /** A worker that saw the queue idle saw the jobs accepted until then finished. */
  ghost predicate Snapshots(s: State) {
    forall w :: 0 <= w < |s.workers| && s.workers[w].AtTest? ==>
      && s.workers[w].seen <= |s.accepted|
      && (s.workers[w].idle ==> AllFinished(s, s.workers[w].seen))
  }

  /** Stop is set and no enqueue that passed its test is still to put: no job can be accepted any more. */
  ghost predicate Quiet(s: State) { s.stop && Unlocked(s) }

  ghost predicate SawIdle(pc: Closer) {
    match pc
    case Joining(_, waited, _) => waited
    case Counted(_, waited, _, _) => waited
    case Reported(r) => r.waitedForIdle || r.idleReached
    case _ => false
  }

  /** A shutdown call past its first line has set stop, and one that saw the queue idle leaves it idle for good. */
  ghost predicate Closing(s: State) {
    && (forall c :: 0 <= c < |s.closers| && !s.closers[c].Ready? ==> s.stop)
    && (forall c :: 0 <= c < |s.closers| && SawIdle(s.closers[c]) ==> Quiet(s) && IsIdle(s.f))
  }

  ghost predicate Inv(s: State) {
    Counters(s) && InOrder(s) && Fates(s) && Totals(s) && Snapshots(s) && Closing(s)
  }

  // ----- counting lemmas -----

  lemma {:induction false} CountWorkerUpdate(workers: seq<Worker>, w: nat, pc: Worker)
    requires w < |workers|
    ensures CountBusy(workers[w := pc]) + (if workers[w].Holding? then 1 else 0)
         == CountBusy(workers) + (if pc.Holding? then 1 else 0)
    ensures CountUnacked(workers[w := pc]) + (if Unacked(workers[w]) then 1 else 0)
         == CountUnacked(workers) + (if Unacked(pc) then 1 else 0)
  {
    var n := |workers| - 1;
    if w == n {
      assert workers[w := pc][..n] == workers[..n];
    } else {
      assert workers[w := pc][..n] == workers[..n][w := pc];
      CountWorkerUpdate(workers[..n], w, pc);
    }
  }

  lemma {:induction false} CountCloserUpdate(closers: seq<Closer>, c: nat, pc: Closer)
    requires c < |closers|
    ensures CountClearAcking(closers[c := pc]) + (if closers[c].ClearAcking? then 1 else 0)
         == CountClearAcking(closers) + (if pc.ClearAcking? then 1 else 0)
    ensures SumCanceled(closers[c := pc]) + CanceledBy(closers[c]) == SumCanceled(closers) + CanceledBy(pc)
  {
    var n := |closers| - 1;
    if c == n {
      assert closers[c := pc][..n] == closers[..n];
    } else {
      assert closers[c := pc][..n] == closers[..n][c := pc];
      CountCloserUpdate(closers[..n], c, pc);
    }
  }

  /** A worker that holds a job is counted. */
  lemma {:induction false} BusyIsCounted(workers: seq<Worker>, w: nat)
    requires w < |workers| && workers[w].Holding?
    ensures CountBusy(workers) > 0
    ensures Unacked(workers[w]) ==> CountUnacked(workers) > 0
  {
    if w < |workers| - 1 { BusyIsCounted(workers[..|workers| - 1], w); }
  }

  lemma {:induction false} ClearAckingIsCounted(closers: seq<Closer>, c: nat)
    requires c < |closers| && closers[c].ClearAcking?
    ensures CountClearAcking(closers) > 0
  {
    if c < |closers| - 1 { ClearAckingIsCounted(closers[..|closers| - 1], c); }
  }

  // ----- every step keeps the invariant -----

  /** Fates only ever grow. */
  ghost predicate Grows(s: State, t: State) {
    && s.taken <= t.taken && s.done <= t.done && s.accepted <= t.accepted
  }

  /** Idle snapshots stay true while fates grow; `w` names the worker that moved, if one did. */
  lemma SnapshotsKept(s: State, t: State, w: nat)
    requires Snapshots(s) && Grows(s, t) && |t.workers| == |s.workers|
    requires forall v :: 0 <= v < |t.workers| && v != w ==> t.workers[v] == s.workers[v]
    requires w < |t.workers| && t.workers[w].AtTest? && t.workers[w] != s.workers[w] ==>
      t.workers[w].seen <= |t.accepted| && (t.workers[w].idle ==> AllFinished(s, t.workers[w].seen))
    ensures Snapshots(t)
  {
    forall k | Finished(s, k) ensures Finished(t, k) {}
  }

  /** A worker moves without touching jobs: it keeps what it holds. */
  lemma WorkerMoves(s: State, w: nat, pc: Worker)
    requires Inv(s) && w < |s.workers|
    requires pc.Holding? == s.workers[w].Holding? && Unacked(pc) == Unacked(s.workers[w])
    requires pc.Holding? ==> pc.ticket == s.workers[w].ticket && pc.job == s.workers[w].job
    requires pc.AtTest? ==> pc.seen <= |s.accepted| && (pc.idle ==> AllFinished(s, pc.seen))
    ensures Inv(SetWorker(s, w, pc))
  {
    hide Snapshots;
    CountWorkerUpdate(s.workers, w, pc);
    SnapshotsKept(s, SetWorker(s, w, pc), w);
  }

  /** A shutdown call moves without touching jobs. */
  lemma CloserMoves(s: State, c: nat, pc: Closer, stop: bool)
    requires Inv(s) && c < |s.closers|
    requires !pc.ClearAcking? && !s.closers[c].ClearAcking? && CanceledBy(pc) == CanceledBy(s.closers[c])
    requires stop && (SawIdle(pc) ==> Unlocked(s) && IsIdle(s.f))
    ensures Inv(SetCloser(s.(stop := stop), c, pc))
  {
    hide Snapshots, Fates;
    var t := SetCloser(s.(stop := stop), c, pc);
    CountCloserUpdate(s.closers, c, pc);
    SnapshotsKept(s, t, 0);
    SameFates(s, t);
  }

  lemma SameFates(s: State, t: State)
    requires Fates(s)
    requires t.workers == s.workers && t.accepted == s.accepted && t.taken == s.taken && t.done == s.done
    ensures Fates(t)
  {}

  /** An idle queue has finished every accepted job. */
  lemma IdleIsFinished(s: State)
    requires Inv(s) && IsIdle(s.f)
    ensures |s.taken| == |s.accepted| && AllFinished(s, |s.accepted|)
  {
    forall k | 0 <= k < |s.taken| ensures Finished(s, k) {
      if s.taken[k].Claimed? && k !in s.done { BusyIsCounted(s.workers, s.taken[k].worker); }
    }
  }

  lemma PutKeeps(s: State)
    requires Inv(s)
    ensures Inv(StepEnqueuePut(s))
  {
    hide Snapshots, Fates, Counters, InOrder, CountCancelled, SumCanceled;
    PutCounts(s);
    SnapshotsKept(s, StepEnqueuePut(s), 0);
    PutFates(s, StepEnqueuePut(s));
  }

  lemma PutCounts(s: State)
    requires Counters(s) && InOrder(s)
    ensures Counters(StepEnqueuePut(s)) && InOrder(StepEnqueuePut(s))
  {
    hide CountBusy, CountUnacked, CountClearAcking;
  }

  lemma PutFates(s: State, t: State)
    requires Fates(s) && s.accepted <= t.accepted
    requires t.workers == s.workers && t.taken == s.taken && t.done == s.done
    ensures Fates(t)
  {}

  /** The claimed job is the oldest one accepted and not taken, and its worker now holds it. */
  lemma ClaimFates(s: State, w: nat)
    requires Fates(s) && InOrder(s) && w < |s.workers| && !s.workers[w].Holding? && s.f.fifo != []
    ensures var t := SetWorker(s.(taken := s.taken + [Claimed(w)]), w, Holding(s.f.fifo[0], |s.taken|, Running));
      Fates(t)
  {
    assert s.f.fifo[0] == s.accepted[|s.taken|];
  }

  lemma ClaimCounters(s: State, w: nat)
    requires Counters(s) && w < |s.workers| && s.workers[w] == AtClaim && Unlocked(s) && s.f.queued > 0
    ensures Counters(StepClaim(s, w))
  {
    CountWorkerUpdate(s.workers, w, Holding(s.f.fifo[0], |s.taken|, Running));
  }

  lemma ClaimKeeps(s: State, w: nat)
    requires Inv(s)
    ensures Inv(StepClaim(s, w))
  {
    if w < |s.workers| && s.workers[w] == AtClaim && Unlocked(s) {
      if s.f.queued <= 0 {
        WorkerMoves(s, w, AtSnapshot);
      } else {
        ClaimTakes(s, w);
      }
    }
  }

  lemma ClaimTakes(s: State, w: nat)
    requires Inv(s) && w < |s.workers| && s.workers[w] == AtClaim && Unlocked(s) && s.f.queued > 0
    ensures Inv(StepClaim(s, w))
  {
    var t := StepClaim(s, w);
    assert s.f.fifo != [];
    ClaimCounters(s, w);
    ClaimFates(s, w);
    ClaimTotals(s, w);
    hide Counters, InOrder, Totals, Closing;
    SnapshotsKept(s, t, w);
    hide Snapshots;
    SameFates(SetWorker(s.(taken := s.taken + [Claimed(w)]), w, Holding(s.f.fifo[0], |s.taken|, Running)), t);
    hide Fates;
  }

  /** A claim needs a job, so no shutdown call has seen the queue idle. */
  lemma ClaimTotals(s: State, w: nat)
    requires Counters(s) && InOrder(s) && Totals(s) && Closing(s)
    requires w < |s.workers| && s.workers[w] == AtClaim && Unlocked(s) && s.f.queued > 0
    ensures InOrder(StepClaim(s, w)) && Totals(StepClaim(s, w)) && Closing(StepClaim(s, w))
  {
    hide CountBusy, CountUnacked, CountClearAcking, SumCanceled;
    assert StepClaim(s, w).taken[..|s.taken|] == s.taken;
  }

  lemma AckKeeps(s: State, w: nat)
    requires Inv(s)
    ensures Inv(StepAck(s, w))
  {
    hide Snapshots, Fates, CountCancelled, SumCanceled;
    if w < |s.workers| && s.workers[w].Holding? && s.workers[w].phase == Acking {
      AckFates(s, w);
      BusyIsCounted(s.workers, w);
      CountWorkerUpdate(s.workers, w, s.workers[w].(phase := Releasing));
      hide CountBusy, CountUnacked, CountClearAcking;
      SnapshotsKept(s, StepAck(s, w), w);
    }
  }

  lemma AckFates(s: State, w: nat)
    requires Inv(s) && w < |s.workers| && s.workers[w].Holding? && s.workers[w].phase == Acking
    ensures Fates(StepAck(s, w))
  {
    BusyIsCounted(s.workers, w);
    hide Counters, InOrder, Totals, Snapshots, Closing;
  }

  lemma ReleaseFates(s: State, w: nat)
    requires Fates(s) && w < |s.workers| && s.workers[w].Holding?
    ensures Fates(SetWorker(s.(done := s.done + {s.workers[w].ticket}), w, AtSnapshot))
  {}

  lemma ReleaseCounts(s: State, w: nat)
    requires Counters(s) && Fates(s) && Totals(s)
    requires w < |s.workers| && s.workers[w].Holding? && s.workers[w].phase == Releasing && Unlocked(s)
    ensures Counters(StepRelease(s, w)) && Totals(StepRelease(s, w))
    ensures StepRelease(s, w).f == s.f.(inFlight := s.f.inFlight - 1)
  {
    BusyIsCounted(s.workers, w);
    CountWorkerUpdate(s.workers, w, AtSnapshot);
    var ticket := s.workers[w].ticket;
    assert ticket !in s.done;
  }

  lemma ReleaseKeeps(s: State, w: nat)
    requires Inv(s)
    ensures Inv(StepRelease(s, w))
  {
    hide Snapshots, Fates, Counters, Totals;
    if w < |s.workers| && s.workers[w].Holding? && s.workers[w].phase == Releasing && Unlocked(s) {
      var t := StepRelease(s, w);
      ReleaseCounts(s, w);
      ReleaseFates(s, w);
      SnapshotsKept(s, t, w);
      SameFates(SetWorker(s.(done := s.done + {s.workers[w].ticket}), w, AtSnapshot), t);
    }
  }

  lemma CancelFates(s: State)
    requires Fates(s) && InOrder(s) && s.f.fifo != []
    ensures Fates(s.(taken := s.taken + [Cancelled]))
  {}

  lemma ClearKeeps(s: State, c: nat)
    requires Inv(s)
    ensures Inv(StepClear(s, c))
  {
    if c < |s.closers| && s.closers[c].Clearing? && Unlocked(s) {
      if s.f.queued <= 0 {
        CloserMoves(s, c, Joining(false, false, s.closers[c].canceled), s.stop);
      } else {
        ClearTakes(s, c);
      }
    }
  }

  lemma ClearTotals(s: State, c: nat)
    requires Counters(s) && InOrder(s) && Totals(s) && Closing(s)
    requires c < |s.closers| && s.closers[c].Clearing? && Unlocked(s) && s.f.queued > 0
    ensures var t := StepClear(s, c); Counters(t) && InOrder(t) && Totals(t) && Closing(t)
  {
    CountCloserUpdate(s.closers, c, ClearAcking(s.closers[c].canceled));
    hide CountBusy, CountUnacked, CountClearAcking, SumCanceled;
    assert StepClear(s, c).taken[..|s.taken|] == s.taken;
  }

  lemma ClearTakes(s: State, c: nat)
    requires Inv(s) && c < |s.closers| && s.closers[c].Clearing? && Unlocked(s) && s.f.queued > 0
    ensures Inv(StepClear(s, c))
  {
    var t := StepClear(s, c);
    assert s.f.fifo != [];
    ClearTotals(s, c);
    CancelFates(s);
    hide Counters, InOrder, Totals, Closing;
    SnapshotsKept(s, t, 0);
    hide Snapshots;
    SameFates(s.(taken := s.taken + [Cancelled]), t);
    hide Fates;
  }

  lemma CloserAckKeeps(s: State, c: nat)
    requires Inv(s)
    ensures Inv(StepCloserAck(s, c))
  {
    hide Snapshots;
    if c < |s.closers| && s.closers[c].ClearAcking? {
      ClearAckingIsCounted(s.closers, c);
      CountCloserUpdate(s.closers, c, Clearing(s.closers[c].canceled + 1));
      SnapshotsKept(s, StepCloserAck(s, c), 0);
    }
  }

  lemma SnapshotKeeps(s: State, w: nat)
    requires Inv(s)
    ensures Inv(StepSnapshot(s, w)) && Inv(StepSnapshotTest(s, w))
  {
    if w < |s.workers| && s.workers[w] == AtSnapshot {
      if IsIdle(s.f) { IdleIsFinished(s); }
      hide Inv;
      WorkerMoves(s, w, AtTest(IsIdle(s.f), |s.accepted|));
      WorkerMoves(s, w, Exited(|s.accepted|));
      WorkerMoves(s, w, AtClaim);
    }
  }

  lemma WorkerTestKeeps(s: State, w: nat)
    requires Inv(s)
    ensures Inv(StepTest(s, w))
  {
    hide Inv;
    if w < |s.workers| && s.workers[w].AtTest? {
      WorkerMoves(s, w, Exited(s.workers[w].seen));
      WorkerMoves(s, w, AtClaim);
    }
  }

  lemma HandleKeeps(s: State, w: nat, raises: bool)
    requires Inv(s)
    ensures Inv(StepHandle(s, w, raises))
  {
    hide Inv;
    if w < |s.workers| && s.workers[w].Holding? && s.workers[w].phase == Running {
      WorkerMoves(s, w, s.workers[w].(phase := Acking));
    }
  }

  lemma StepKeeps(s: State, a: Action)
    requires Inv(s)
    ensures Inv(Step(s, a))
  {
    hide Inv, StepEnqueueTest, StepEnqueuePut, StepSnapshot, StepTest, StepSnapshotTest, StepClaim, StepHandle, StepAck;
    hide StepRelease, StepStop, StepClear, StepCloserAck, StepWait, StepCount, StepReport;
    match a
    case EnqueueTest(job) => TestKeeps(s, job);
    case EnqueuePut => PutKeeps(s);
    case WorkerSnapshot(w) => SnapshotKeeps(s, w);
    case WorkerTest(w) => WorkerTestKeeps(s, w);
    case WorkerSnapshotTest(w) => SnapshotKeeps(s, w);
    case WorkerClaim(w) => ClaimKeeps(s, w);
    case WorkerHandle(w, raises) => HandleKeeps(s, w, raises);
    case WorkerAck(w) => AckKeeps(s, w);
    case WorkerRelease(w) => ReleaseKeeps(s, w);
    case CloserClear(c) => ClearKeeps(s, c);
    case CloserAck(c) => CloserAckKeeps(s, c);
    case _ => CloserStepKeeps(s, a);
  }

  lemma TestKeeps(s: State, job: Job)
    requires Inv(s)
    ensures Inv(StepEnqueueTest(s, job))
  {
    hide Snapshots, Fates;
    SnapshotsKept(s, StepEnqueueTest(s, job), 0);
    SameFates(s, StepEnqueueTest(s, job));
  }

  /** The steps of a shutdown call that move no job. */
  lemma CloserStepKeeps(s: State, a: Action)
    requires Inv(s)
    requires a.CloserStop? || a.CloserWait? || a.CloserCount? || a.CloserReport?
    ensures Inv(Step(s, a))
  {
    hide Counters, InOrder, Fates, Totals, Snapshots;
    if a.c < |s.closers| {
      var pc := s.closers[a.c];
      match a
      case CloserStop(c) =>
        if pc.Ready? { CloserMoves(s, c, if pc.drain then Waiting else Clearing(0), true); }
      case CloserWait(c, timedOut) =>
        if pc == Waiting && Unlocked(s) { CloserMoves(s, c, Joining(true, IsIdle(s.f), 0), s.stop); }
      case CloserCount(c) =>
        if pc.Joining? {
          CloserMoves(s, c, Counted(pc.drain, pc.waited, pc.canceled, AliveWorkers(s.workers)), s.stop);
        }
      case CloserReport(c) =>
        if pc.Counted? && Unlocked(s) {
          CloserMoves(s, c, Reported(Report(pc.drain, pc.waited, IsIdle(s.f), s.f.queued, s.f.inFlight, pc.canceled,
              pc.alive)), s.stop);
        }
    }
  }

  lemma {:induction false} NothingCounted(n: nat, closers: seq<Closer>)
    requires forall c :: 0 <= c < |closers| ==> closers[c].Ready?
    ensures var workers := seq(n, _ => AtSnapshot); CountBusy(workers) == 0 && CountUnacked(workers) == 0
    ensures CountClearAcking(closers) == 0 && SumCanceled(closers) == 0
    decreases n + |closers|
  {
    if n > 0 {
      NothingCounted(n - 1, closers);
      assert seq(n, _ => AtSnapshot)[..n - 1] == seq(n - 1, _ => AtSnapshot);
    } else if closers != [] {
      NothingCounted(n, closers[..|closers| - 1]);
    }
  }

  lemma StartInv(maxSize: nat, workerCount: nat, drains: seq<bool>)
    ensures Inv(Start(maxSize, workerCount, drains))
  {
    var s := Start(maxSize, workerCount, drains);
    NothingCounted(|s.workers|, s.closers);
    assert s.workers == seq(|s.workers|, _ => AtSnapshot);
  }

  lemma {:induction false} RunKeeps(s: State, actions: seq<Action>)
    requires Inv(s)
    ensures Inv(Run(s, actions))
  {
    hide Inv, Step;
    if actions == [] {
    } else {
      RunKeeps(s, actions[..|actions| - 1]);
      StepKeeps(Run(s, actions[..|actions| - 1]), actions[|actions| - 1]);
    }
  }

  // ----- what holds over every interleaving -----

  /**
   In every reachable state the depth counter is the FIFO's length and within the bound; every accepted job
   is queued, in flight, done or cancelled; jobs leave in the order of acceptance, each with one fate; and
   the shutdown calls have counted exactly the cancelled ones.
   */
  lemma Conservation(maxSize: nat, workerCount: nat, drains: seq<bool>, actions: seq<Action>)
    ensures var s := Run(Start(maxSize, workerCount, drains), actions);
      && s.f.queued == |s.f.fifo| <= s.f.maxSize
      && |s.accepted| == s.f.queued + s.f.inFlight + |s.done| + CountCancelled(s.taken)
      && SumCanceled(s.closers) == CountCancelled(s.taken)
      && InOrder(s) && Fates(s)
  {
    StartInv(maxSize, workerCount, drains);
    RunKeeps(Start(maxSize, workerCount, drains), actions);
  }

  /** So no clamp acts, no `queue.Empty` branch is reached and `task_done` never raises. */
  lemma ClampsAreIdle(maxSize: nat, workerCount: nat, drains: seq<bool>, actions: seq<Action>)
    ensures var s := Run(Start(maxSize, workerCount, drains), actions);
      && (s.f.queued > 0 ==> s.f.fifo != [] && s.f.queued - 1 >= 0)
      && (forall w :: 0 <= w < |s.workers| && s.workers[w].Holding? ==> s.f.inFlight >= 1)
      && (forall w :: 0 <= w < |s.workers| && Unacked(s.workers[w]) ==> TaskDone(s.f).Some?)
      && (forall c :: 0 <= c < |s.closers| && s.closers[c].ClearAcking? ==> TaskDone(s.f).Some?)
  {
    StartInv(maxSize, workerCount, drains);
    RunKeeps(Start(maxSize, workerCount, drains), actions);
    var s := Run(Start(maxSize, workerCount, drains), actions);
    forall w | 0 <= w < |s.workers| && s.workers[w].Holding?
      ensures s.f.inFlight >= 1 && (Unacked(s.workers[w]) ==> TaskDone(s.f).Some?)
    {
      BusyIsCounted(s.workers, w);
    }
    forall c | 0 <= c < |s.closers| && s.closers[c].ClearAcking? ensures TaskDone(s.f).Some? {
      ClearAckingIsCounted(s.closers, c);
    }
  }

  /** Whenever the queue looks idle, every job accepted by then is finished; a worker's snapshot stays true. */
  lemma IdleIsTruthful(maxSize: nat, workerCount: nat, drains: seq<bool>, actions: seq<Action>)
    ensures var s := Run(Start(maxSize, workerCount, drains), actions);
      && (IsIdle(s.f) ==> AllFinished(s, |s.accepted|))
      && (forall w :: 0 <= w < |s.workers| && s.workers[w].AtTest? && s.workers[w].idle
            ==> AllFinished(s, s.workers[w].seen))
  {
    StartInv(maxSize, workerCount, drains);
    RunKeeps(Start(maxSize, workerCount, drains), actions);
    var s := Run(Start(maxSize, workerCount, drains), actions);
    if IsIdle(s.f) { IdleIsFinished(s); }
  }

  /** Once stop is set with no enqueue under way, a step accepts nothing, the depth does not rise and idle stays. */
  lemma QuietStep(s: State, a: Action)
    requires Inv(s) && Quiet(s)
    ensures var t := Step(s, a);
      && Quiet(t) && t.accepted == s.accepted && |t.f.fifo| <= |s.f.fifo|
      && (IsIdle(s.f) ==> IsIdle(t.f)) && Grows(s, t)
  {
    hide InOrder, Fates, Totals, Snapshots, Closing, CountBusy, CountUnacked, CountClearAcking, AliveWorkers;
  }

  lemma {:induction false} QuietIsForGood(s: State, actions: seq<Action>)
    requires Inv(s) && Quiet(s)
    ensures var t := Run(s, actions);
      && Quiet(t) && t.accepted == s.accepted && |t.f.fifo| <= |s.f.fifo|
      && (IsIdle(s.f) ==> IsIdle(t.f)) && Grows(s, t)
  {
    hide Step, Inv, IsIdle;
    if actions == [] {
    } else {
      QuietIsForGood(s, actions[..|actions| - 1]);
      RunKeeps(s, actions[..|actions| - 1]);
      QuietStep(Run(s, actions[..|actions| - 1]), actions[|actions| - 1]);
    }
  }

  /**
   A shutdown report is sound: when it says idle (reached, or waited for), every job ever accepted is
   finished, the queue is idle now, and it stays so whatever happens later.
   */
  lemma ReportIsSound(maxSize: nat, workerCount: nat, drains: seq<bool>, actions: seq<Action>, later: seq<Action>,
          c: nat)
    requires var s := Run(Start(maxSize, workerCount, drains), actions);
      c < |s.closers| && s.closers[c].Reported?
          && (s.closers[c].report.idleReached || s.closers[c].report.waitedForIdle)
    ensures var s := Run(Start(maxSize, workerCount, drains), actions); var t := Run(s, later);
      && IsIdle(s.f) && IsIdle(t.f) && t.accepted == s.accepted
      && AllFinished(t, |t.accepted|)
  {
    StartInv(maxSize, workerCount, drains);
    RunKeeps(Start(maxSize, workerCount, drains), actions);
    var s := Run(Start(maxSize, workerCount, drains), actions);
    assert SawIdle(s.closers[c]);
    QuietIsForGood(s, later);
    RunKeeps(s, later);
    IdleIsFinished(Run(s, later));
  }

  // ----- a drained shutdown may strand a job -----

  /** The run in which the only worker exits on an idle snapshot older than the last accepted job. */
  lemma DrainMayStrand(job: Job)
    ensures var s := Run(Start(1, 1, [true]),
                         [WorkerSnapshot(0), EnqueueTest(job), EnqueuePut, CloserStop(0), WorkerTest(0)]);
      s.workers == [Exited(0)] && s.f.fifo == [job] && s.closers == [Waiting]
  {
    var s0 := Start(1, 1, [true]);
    var actions := [WorkerSnapshot(0), EnqueueTest(job), EnqueuePut, CloserStop(0), WorkerTest(0)];
    assert actions[..4] == actions[..5][..4] && actions[..5] == actions;
    assert actions[..4][..3] == actions[..3] && actions[..3][..2] == actions[..2] && actions[..2][..1] == actions[..1];
    var s1 := Step(s0, actions[0]);
    assert actions[..1][..0] == [];
    assert Run(s0, actions[..1]) == s1;
    assert Run(s0, actions[..2]) == Step(s1, actions[1]);
    assert Run(s0, actions[..3]) == Step(Step(s1, actions[1]), actions[2]);
    assert Run(s0, actions[..4]) == Step(Step(Step(s1, actions[1]), actions[2]), actions[3]);
  }

  /**
   A worker that leaves when no job was accepted since its snapshot, and none is under way, leaves a queue
   that is idle for good, whatever the other threads do.
   */
  lemma TimelyExitStrandsNothing(s: State, w: nat, later: seq<Action>)
    requires Inv(s) && Quiet(s)
    requires w < |s.workers| && s.workers[w].AtTest? && s.workers[w].idle && s.workers[w].seen == |s.accepted|
    ensures Step(s, WorkerTest(w)).workers[w] == Exited(|s.accepted|)
    ensures var t := Run(Step(s, WorkerTest(w)), later);
      IsIdle(t.f) && t.accepted == s.accepted && AllFinished(t, |t.accepted|)
  {
    FinishedIsIdle(s);
    var s1 := Step(s, WorkerTest(w));
    StepKeeps(s, WorkerTest(w));
    QuietIsForGood(s1, later);
    RunKeeps(s1, later);
    IdleIsFinished(Run(s1, later));
  }

  lemma {:induction false} NoneBusy(workers: seq<Worker>)
    requires forall w :: 0 <= w < |workers| ==> !workers[w].Holding?
    ensures CountBusy(workers) == 0
  {
    if workers == [] {
    } else {
      NoneBusy(workers[..|workers| - 1]);
    }
  }

  /** When every accepted job is finished the queue is idle. */
  lemma FinishedIsIdle(s: State)
    requires Inv(s) && AllFinished(s, |s.accepted|)
    ensures IsIdle(s.f)
  {
    assert s.accepted != [] ==> Finished(s, |s.accepted| - 1);
    forall w | 0 <= w < |s.workers| ensures !s.workers[w].Holding? {
      assert s.workers[w].Holding? ==> !Finished(s, s.workers[w].ticket);
    }
    NoneBusy(s.workers);
  }

  // ----- exactly the jobs accepted after the latest snapshot are stranded, or cancelled -----

  /** The worker has taken a snapshot and has claimed nothing since. */
  predicate Looked(pc: Worker) { pc.AtTest? || pc.Exited? }

  /** A worker's last snapshot is later than all its claims, and what it saw idle had been taken. */
  ghost predicate Looking(s: State) {
    && (forall k :: 0 <= k < |s.taken| && s.taken[k].Claimed? ==> s.taken[k].worker < |s.workers|)
    && (forall k :: 0 <= k < |s.taken| && s.taken[k].Claimed? && Looked(s.workers[s.taken[k].worker]) ==>
          k < s.workers[s.taken[k].worker].seen)
    && (forall w :: 0 <= w < |s.workers| && Looked(s.workers[w]) && (s.workers[w].AtTest? ==> s.workers[w].idle) ==>
          s.workers[w].seen <= |s.taken|)
  }

  ghost predicate AllExited(s: State) { forall w :: 0 <= w < |s.workers| ==> s.workers[w].Exited? }

  lemma LookingMove(s: State, t: State, w: nat, pc: Worker)
    requires Looking(s) && w < |s.workers|
    requires t.taken == s.taken && t.workers == s.workers[w := pc]
    requires Looked(pc) ==> pc.seen >= |s.taken| || (Looked(s.workers[w]) && pc.seen == s.workers[w].seen)
    requires Looked(pc) && (pc.AtTest? ==> pc.idle) ==> pc.seen <= |s.taken|
    ensures Looking(t)
  {}

  /** A worker's steps between its claims: looking at the queue and testing the stop flag, */
  lemma LookingLook(s: State, a: Action, w: nat)
    requires Inv(s) && Looking(s) && w < |s.workers|
    requires a == WorkerSnapshot(w) || a == WorkerTest(w) || a == WorkerSnapshotTest(w)
    ensures Looking(Step(s, a)) && |Step(s, a).workers| == |s.workers|
  {
    if IsIdle(s.f) { IdleIsFinished(s); }
    if s.workers[w].AtTest? && s.workers[w].idle { LookingSeen(s, w); }
    assert |s.taken| <= |s.accepted|;
    hide Inv, InOrder, Fates, Totals, Snapshots, Closing, IsIdle, Looking;
    LookingMove(s, Step(s, a), w, Step(s, a).workers[w]);
  }

  /** Acknowledging a job does not raise, so its worker goes on. */
  lemma AckStays(s: State, w: nat)
    requires Inv(s) && w < |s.workers|
    ensures var t := StepAck(s, w);
      && t.taken == s.taken && |t.workers| == |s.workers| && t.workers == s.workers[w := t.workers[w]]
      && (t.workers[w] == s.workers[w] || t.workers[w].Holding?)
  {
    if s.workers[w].Holding? { BusyIsCounted(s.workers, w); }
    hide InOrder, Fates, Totals, Snapshots, Closing, CountBusy, CountUnacked, CountClearAcking;
  }

  /** and finishing the job it holds. */
  lemma LookingFinish(s: State, a: Action, w: nat)
    requires Inv(s) && Looking(s) && w < |s.workers|
    requires (a.WorkerHandle? && a.w == w) || a == WorkerAck(w) || a == WorkerRelease(w)
    ensures Looking(Step(s, a)) && |Step(s, a).workers| == |s.workers|
  {
    if a.WorkerAck? { AckStays(s, w); }
    FinishMoves(s, a, w);
    hide Inv, Step, Looking;
    LookingMove(s, Step(s, a), w, Step(s, a).workers[w]);
  }

  lemma FinishMoves(s: State, a: Action, w: nat)
    requires w < |s.workers| && (a.WorkerAck? ==> StepAck(s, w).workers[w] == s.workers[w]
                                                  || StepAck(s, w).workers[w].Holding?)
    requires (a.WorkerHandle? && a.w == w) || a == WorkerAck(w) || a == WorkerRelease(w)
    ensures var t := Step(s, a);
      && |t.workers| == |s.workers| && t.taken == s.taken && t.workers == s.workers[w := t.workers[w]]
      && (t.workers[w] == s.workers[w] || !Looked(t.workers[w]))
  {
    hide TaskDone, Release;
  }

  lemma LookingClaimStep(s: State, w: nat)
    requires Looking(s) && w < |s.workers|
    ensures Looking(StepClaim(s, w)) && |StepClaim(s, w).workers| == |s.workers|
  {}

  lemma LookingSeen(s: State, w: nat)
    requires Looking(s) && w < |s.workers| && s.workers[w].AtTest? && s.workers[w].idle
    ensures s.workers[w].seen <= |s.taken|
  {}

  /** The steps of the other threads take no job for a worker. */
  lemma LookingElsewhere(s: State, t: State)
    requires Looking(s) && t.workers == s.workers && (t.taken == s.taken || t.taken == s.taken + [Cancelled])
    ensures Looking(t)
  {}

  predicate IsWorkerStep(a: Action) {
    || a.WorkerSnapshot? || a.WorkerTest? || a.WorkerSnapshotTest? || a.WorkerClaim?
    || a.WorkerHandle? || a.WorkerAck? || a.WorkerRelease?
  }

  lemma OtherStep(s: State, a: Action)
    requires !IsWorkerStep(a)
    ensures var t := Step(s, a); t.workers == s.workers && (t.taken == s.taken || t.taken == s.taken + [Cancelled])
  {}

  lemma LookingStep(s: State, a: Action)
    requires Inv(s) && Looking(s)
    ensures Looking(Step(s, a)) && |Step(s, a).workers| == |s.workers|
    ensures AllExited(s) ==> Step(s, a).workers == s.workers
  {
    hide Inv, Looking, Claim, ClearOne, Put, TaskDone;
    if !IsWorkerStep(a) {
      OtherStep(s, a);
      hide Step;
      LookingElsewhere(s, Step(s, a));
    } else if a.w < |s.workers| {
      if a.WorkerClaim? {
        LookingClaimStep(s, a.w);
      } else if a.WorkerHandle? || a.WorkerAck? || a.WorkerRelease? {
        LookingFinish(s, a, a.w);
      } else {
        LookingLook(s, a, a.w);
      }
    }
  }

  lemma {:induction false} LookingRun(s: State, actions: seq<Action>)
    requires Inv(s) && Looking(s)
    ensures Looking(Run(s, actions)) && |Run(s, actions).workers| == |s.workers|
    ensures AllExited(s) ==> Run(s, actions).workers == s.workers
  {
    hide Step, Inv, Looking;
    if actions == [] {
    } else {
      LookingRun(s, actions[..|actions| - 1]);
      RunKeeps(s, actions[..|actions| - 1]);
      LookingStep(Run(s, actions[..|actions| - 1]), actions[|actions| - 1]);
    }
  }

  /** The job with ticket `k` is still in the FIFO. */
  predicate Queued(s: State, k: nat) { |s.taken| <= k < |s.accepted| }

  predicate CancelledJob(s: State, k: nat) { k < |s.taken| && s.taken[k] == Cancelled }

  /** When all workers have left: what was accepted before the latest snapshot is finished, the rest never handled. */
  lemma LeftBehind(s: State, w: nat)
    requires Inv(s) && Looking(s) && AllExited(s) && w < |s.workers|
    requires forall v :: 0 <= v < |s.workers| ==> s.workers[v].seen <= s.workers[w].seen
    ensures s.workers[w].seen <= |s.taken| <= |s.accepted| && AllFinished(s, s.workers[w].seen)
    ensures forall k: nat :: k < |s.accepted| ==> (Queued(s, k) <==> k >= s.workers[w].seen && !CancelledJob(s, k))
    ensures forall k :: k in s.done ==> k < s.workers[w].seen
  {
    hide Counters, Totals, Snapshots, Closing;
  }

  predicate Drains(pc: Closer) {
    match pc
    case Ready(drain) => drain
    case Waiting => true
    case Joining(drain, _, _) => drain
    case Counted(drain, _, _, _) => drain
    case Reported(r) => r.drain
    case _ => false
  }

  /** All shutdown calls drain, so none has cancelled a job. */
  ghost predicate Draining(s: State) {
    && (forall c :: 0 <= c < |s.closers| ==> Drains(s.closers[c]))
    && (forall k :: 0 <= k < |s.taken| ==> s.taken[k].Claimed?)
  }

  lemma DrainingStep(s: State, a: Action)
    requires Draining(s)
    ensures Draining(Step(s, a))
  {
    if IsWorkerStep(a) { DrainingWorkerStep(s, a); } else { DrainingOtherStep(s, a); }
  }

  lemma DrainingWorkerStep(s: State, a: Action)
    requires Draining(s) && IsWorkerStep(a)
    ensures Draining(Step(s, a))
  {
    hide IsIdle, Release, Claim, TaskDone;
  }

  lemma DrainingOtherStep(s: State, a: Action)
    requires Draining(s) && !IsWorkerStep(a)
    ensures Draining(Step(s, a))
  {
    hide IsIdle, AliveWorkers, Put, TaskDone;
  }

  lemma {:induction false} DrainingRun(s: State, actions: seq<Action>)
    requires Draining(s)
    ensures Draining(Run(s, actions))
  {
    hide Step, Draining;
    if actions == [] {
    } else {
      DrainingRun(s, actions[..|actions| - 1]);
      DrainingStep(Run(s, actions[..|actions| - 1]), actions[|actions| - 1]);
    }
  }

  lemma DrainedIsSeen(s: State, w: nat)
    requires Inv(s) && Looking(s) && Draining(s) && AllExited(s) && w < |s.workers|
    requires forall v :: 0 <= v < |s.workers| ==> s.workers[v].seen <= s.workers[w].seen
    ensures s.f.fifo == s.accepted[s.workers[w].seen..]
  {
    hide Counters, Fates, Totals, Snapshots, Closing;
    if s.taken == [] {
    } else {
      var k := |s.taken| - 1;
      assert s.taken[k].Claimed? && k < s.workers[s.taken[k].worker].seen;
    }
  }

  /**
   Any number of workers, any shutdown calls: once all workers have left, at any later time, every job accepted
   before the latest of their snapshots is finished, no later one is ever handled, and a job is left in the FIFO
   if and only if it was accepted after that snapshot and has not been cancelled. When all shutdowns drain, that is
   exactly the jobs accepted after the snapshot.
   */
  lemma StrandedIffAcceptedLate(maxSize: nat, workerCount: nat, drains: seq<bool>, actions: seq<Action>,
          later: seq<Action>, w: nat)
    requires AllExited(Run(Start(maxSize, workerCount, drains), actions))
    requires var s := Run(Start(maxSize, workerCount, drains), actions);
      w < |s.workers| && forall v :: 0 <= v < |s.workers| ==> s.workers[v].seen <= s.workers[w].seen
    ensures var seen := Run(Start(maxSize, workerCount, drains), actions).workers[w].seen;
      var t := Run(Run(Start(maxSize, workerCount, drains), actions), later);
      && seen <= |t.taken| <= |t.accepted| && t.f.fifo == t.accepted[|t.taken|..] && AllFinished(t, seen)
      && (forall k: nat :: k < |t.accepted| ==> (Queued(t, k) <==> k >= seen && !CancelledJob(t, k)))
      && (forall k :: k in t.done ==> k < seen)
      && ((forall c :: 0 <= c < |drains| ==> drains[c]) ==> t.f.fifo == t.accepted[seen..])
  {
    var s0 := Start(maxSize, workerCount, drains);
    var s := Run(s0, actions);
    var t := Run(s, later);
    StartInv(maxSize, workerCount, drains);
    StartLooks(maxSize, workerCount, drains);
    hide *;
    RunKeeps(s0, actions);
    RunKeeps(s, later);
    LookingRun(s0, actions);
    LookingRun(s, later);
    StillExited(s, t);
    LeftBehind(t, w);
    FifoIsRest(t);
    if forall c :: 0 <= c < |drains| ==> drains[c] {
      DrainingRun(s0, actions);
      DrainingRun(s, later);
      DrainedIsSeen(t, w);
    }
  }

  lemma StartLooks(maxSize: nat, workerCount: nat, drains: seq<bool>)
    ensures Looking(Start(maxSize, workerCount, drains))
    ensures (forall c :: 0 <= c < |drains| ==> drains[c]) ==> Draining(Start(maxSize, workerCount, drains))
  {}

  lemma StillExited(s: State, t: State)
    requires AllExited(s) && t.workers == s.workers
    ensures AllExited(t)
  {}

  lemma FifoIsRest(s: State)
    requires Inv(s)
    ensures |s.taken| <= |s.accepted| && s.f.fifo == s.accepted[|s.taken|..]
  {
    hide Counters, Fates, Totals, Snapshots, Closing;
  }

  // ----- the variant with one locked step -----

  ghost predicate SplitFree(actions: seq<Action>) {
    forall k :: 0 <= k < |actions| ==> !actions[k].WorkerSnapshot?
  }

  /** A worker has left only an idle queue that stays idle. */
  ghost predicate ExitsAreFinal(s: State) {
    forall w :: 0 <= w < |s.workers| ==>
      && !s.workers[w].AtTest?
      && (s.workers[w].Exited? ==> Quiet(s) && IsIdle(s.f))
  }

  /** A worker's step moves no other worker. */
  lemma WorkerMovesAlone(s: State, a: Action)
    requires IsWorkerStep(a)
    ensures |Step(s, a).workers| == |s.workers|
    ensures a.w < |s.workers| ==> Step(s, a).workers == s.workers[a.w := Step(s, a).workers[a.w]]
    ensures a.w >= |s.workers| ==> Step(s, a).workers == s.workers
  {
    hide Claim, Release, TaskDone, IsIdle;
  }

  /** A worker leaves only by the locked step, on an idle queue with stop set. */
  lemma LeavesIdle(s: State, a: Action)
    requires Inv(s) && ExitsAreFinal(s) && IsWorkerStep(a) && !a.WorkerSnapshot? && a.w < |s.workers|
    ensures |Step(s, a).workers| == |s.workers| && !Step(s, a).workers[a.w].AtTest?
    ensures Step(s, a).workers[a.w].Exited? ==> Quiet(s) && IsIdle(s.f)
  {
    if a.WorkerAck? { AckStays(s, a.w); }
    hide Inv, StepAck, Claim, Release, IsIdle;
  }

  lemma ExitsAreFinalStep(s: State, a: Action)
    requires Inv(s) && ExitsAreFinal(s) && !a.WorkerSnapshot?
    ensures ExitsAreFinal(Step(s, a))
  {
    if Quiet(s) { QuietStep(s, a); }
    if !IsWorkerStep(a) {
      OtherStep(s, a);
    } else {
      WorkerMovesAlone(s, a);
      if a.w < |s.workers| { LeavesIdle(s, a); }
    }
    hide Step, Inv, IsIdle, IsWorkerStep;
  }

  lemma {:induction false} ExitsAreFinalRun(s: State, actions: seq<Action>)
    requires Inv(s) && ExitsAreFinal(s) && SplitFree(actions)
    ensures ExitsAreFinal(Run(s, actions))
  {
    hide Step, Inv, ExitsAreFinal;
    if actions == [] {
    } else {
      ExitsAreFinalRun(s, actions[..|actions| - 1]);
      RunKeeps(s, actions[..|actions| - 1]);
      ExitsAreFinalStep(Run(s, actions[..|actions| - 1]), actions[|actions| - 1]);
    }
  }

  /**
   With snapshot and stop test as one locked step, for any number of workers and any shutdowns: once a
   worker has left, every accepted job is finished and no other will be accepted.
   */
  lemma AtomicExitStrandsNothing(maxSize: nat, workerCount: nat, drains: seq<bool>, actions: seq<Action>, w: nat)
    requires SplitFree(actions)
    requires w < |Run(Start(maxSize, workerCount, drains), actions).workers|
    requires Run(Start(maxSize, workerCount, drains), actions).workers[w].Exited?
    ensures var s := Run(Start(maxSize, workerCount, drains), actions);
      IsIdle(s.f) && Quiet(s) && AllFinished(s, |s.accepted|)
  {
    var s0 := Start(maxSize, workerCount, drains);
    StartInv(maxSize, workerCount, drains);
    RunKeeps(s0, actions);
    ExitsAreFinalRun(s0, actions);
    IdleIsFinished(Run(s0, actions));
  }

  // ----- what a single step does, in the words of the queue -----

  lemma {:induction false} MaxSizeStays(s: State, actions: seq<Action>)
    ensures Run(s, actions).f.maxSize == s.f.maxSize
  {
    if actions == [] {
    } else {
      MaxSizeStays(s, actions[..|actions| - 1]);
      MaxSizeStep(Run(s, actions[..|actions| - 1]), actions[|actions| - 1]);
    }
  }

  lemma MaxSizeStep(s: State, a: Action)
    ensures Step(s, a).f.maxSize == s.f.maxSize
  {
    hide IsIdle, AliveWorkers;
  }

  /**
   An enqueue that finds the lock free is refused exactly when stop is set; one that goes on is accepted exactly
   when the FIFO has room, and then its job is the last one in the FIFO.
   */
  lemma AcceptedWhenRoom(maxSize: nat, workerCount: nat, drains: seq<bool>, actions: seq<Action>, job: Job)
    ensures var s := Run(Start(maxSize, workerCount, drains), actions);
      && s.f.maxSize == Max(maxSize, 1)
      && (s.enqueuing == None ==>
            Step(s, EnqueueTest(job)) == if s.stop then s else s.(enqueuing := Some(job)))
      && (s.enqueuing == Some(job) ==>
            var t := Step(s, EnqueuePut);
            && t.enqueuing == None && t.taken == s.taken && t.workers == s.workers && t.closers == s.closers
            && (|s.f.fifo| < Max(maxSize, 1) <==> t.accepted == s.accepted + [job])
            && (|s.f.fifo| < Max(maxSize, 1) ==> t.f.fifo == s.f.fifo + [job])
            && (|s.f.fifo| >= Max(maxSize, 1) ==> t.f == s.f && t.accepted == s.accepted))
  {
    MaxSizeStays(Start(maxSize, workerCount, drains), actions);
    hide Run;
    var s := Run(Start(maxSize, workerCount, drains), actions);
    assert |s.accepted + [job]| == |s.accepted| + 1;
  }

  /** A worker that claims gets the oldest queued job, whenever there is one. */
  lemma ClaimTakesOldest(maxSize: nat, workerCount: nat, drains: seq<bool>, actions: seq<Action>, w: nat)
    requires var s := Run(Start(maxSize, workerCount, drains), actions);
      w < |s.workers| && s.workers[w] == AtClaim && Unlocked(s)
    ensures var s := Run(Start(maxSize, workerCount, drains), actions);
      var t := Step(s, WorkerClaim(w));
      && (s.f.fifo == [] ==> t == s.(workers := s.workers[w := AtSnapshot]))
      && (s.f.fifo != [] ==> t.f.fifo == s.f.fifo[1..] && t.taken == s.taken + [Claimed(w)]
                             && t.workers == s.workers[w := Holding(s.f.fifo[0], |s.taken|, Running)])
  {
    StartInv(maxSize, workerCount, drains);
    RunKeeps(Start(maxSize, workerCount, drains), actions);
    hide Run, Start, InOrder, Fates, Totals, Snapshots, Closing;
  }

  lemma ThreadsStep(s: State, a: Action)
    ensures |Step(s, a).workers| == |s.workers| && |Step(s, a).closers| == |s.closers|
    ensures forall c :: 0 <= c < |s.closers| ==> Drains(Step(s, a).closers[c]) == Drains(s.closers[c])
  {
    if IsWorkerStep(a) {
      hide IsIdle, Release, Claim, TaskDone;
    } else {
      hide IsIdle, AliveWorkers, Put, TaskDone, ClearOne;
    }
  }

  lemma {:induction false} ThreadsRun(s: State, actions: seq<Action>)
    ensures |Run(s, actions).workers| == |s.workers| && |Run(s, actions).closers| == |s.closers|
    ensures forall c :: 0 <= c < |s.closers| ==> Drains(Run(s, actions).closers[c]) == Drains(s.closers[c])
  {
    hide Step, Drains;
    if actions == [] {
    } else {
      ThreadsRun(s, actions[..|actions| - 1]);
      ThreadsStep(Run(s, actions[..|actions| - 1]), actions[|actions| - 1]);
    }
  }

  /** The workers asked for, at least one, and the shutdown calls are there all the time, each call as it was made. */
  lemma ThreadsStay(maxSize: nat, workerCount: nat, drains: seq<bool>, actions: seq<Action>)
    ensures var s := Run(Start(maxSize, workerCount, drains), actions);
      && |s.workers| == Max(workerCount, 1) && |s.closers| == |drains|
      && forall c :: 0 <= c < |drains| ==>
        (s.closers[c].Ready? ==> s.closers[c].drain == drains[c])
        && (s.closers[c].Clearing? || s.closers[c].ClearAcking? ==> !drains[c])
        && (s.closers[c] == Waiting ==> drains[c])
        && (s.closers[c].Reported? ==> s.closers[c].report.drain == drains[c])
  {
    ThreadsRun(Start(maxSize, workerCount, drains), actions);
    hide Run;
  }

  // ----- what a shutdown call does and reports -----

  ghost function HoldingWorkers(workers: seq<Worker>): set<nat> {
    set w: nat | w < |workers| && workers[w].Holding?
  }

  ghost function LivingWorkers(workers: seq<Worker>): set<nat> {
    set w: nat | w < |workers| && !workers[w].Exited?
  }

  lemma LastWorker(workers: seq<Worker>)
    requires workers != []
    ensures var n := |workers| - 1;
      && n !in HoldingWorkers(workers[..n]) && n !in LivingWorkers(workers[..n])
      && HoldingWorkers(workers) == (if workers[n].Holding? then HoldingWorkers(workers[..n]) + {n}
                                     else HoldingWorkers(workers[..n]))
      && LivingWorkers(workers) == (if !workers[n].Exited? then LivingWorkers(workers[..n]) + {n}
                                    else LivingWorkers(workers[..n]))
  {}

  lemma {:induction false} CountsAreSizes(workers: seq<Worker>)
    ensures CountBusy(workers) == |HoldingWorkers(workers)| && AliveWorkers(workers) == |LivingWorkers(workers)|
  {
    if workers == [] {
    } else {
      var n := |workers| - 1;
      CountsAreSizes(workers[..n]);
      LastWorker(workers);
      hide HoldingWorkers, LivingWorkers;
      OneMore(HoldingWorkers(workers[..n]), HoldingWorkers(workers), n, workers[n].Holding?);
      OneMore(LivingWorkers(workers[..n]), LivingWorkers(workers), n, !workers[n].Exited?);
    }
  }

  /**
   A report gives the numbers of its moment: the jobs still queued, the workers that hold one, and idleness exactly
   when there are neither. The workers counted as alive are those that have not left at the count.
   */
  lemma ReportTells(maxSize: nat, workerCount: nat, drains: seq<bool>, actions: seq<Action>, c: nat)
    requires c < |Run(Start(maxSize, workerCount, drains), actions).closers|
    ensures var s := Run(Start(maxSize, workerCount, drains), actions);
      && (s.closers[c].Counted? && Unlocked(s) ==>
            var pc := s.closers[c];
            Step(s, CloserReport(c)).closers[c] == Reported(Report(pc.drain, pc.waited,
              s.f.fifo == [] && HoldingWorkers(s.workers) == {}, |s.f.fifo|, |HoldingWorkers(s.workers)|,
              pc.canceled, pc.alive)))
      && (s.closers[c].Joining? ==>
            var pc := s.closers[c];
            Step(s, CloserCount(c)).closers[c]
            == Counted(pc.drain, pc.waited, pc.canceled, |LivingWorkers(s.workers)|))
  {
    StartInv(maxSize, workerCount, drains);
    RunKeeps(Start(maxSize, workerCount, drains), actions);
    hide Run, Start, InOrder, Fates, Totals, Snapshots, Closing;
    CountsAreSizes(Run(Start(maxSize, workerCount, drains), actions).workers);
    hide HoldingWorkers, LivingWorkers, CountBusy, AliveWorkers;
  }

  /** A draining call waits: it goes on when the queue is idle or its time is over, and says which. */
  lemma WaitEnds(s: State, c: nat, timedOut: bool)
    requires c < |s.closers| && s.closers[c] == Waiting && Unlocked(s)
    ensures var idle := s.f.fifo == [] && s.f.queued == 0 && s.f.inFlight == 0;
      Step(s, CloserWait(c, timedOut)) == if idle || timedOut then s.(closers := s.closers[c := Joining(true, idle, 0)])
                                          else s
  {}

  /** The steps by which a call cancels `n` jobs. */
  function Clears(c: nat, n: nat): seq<Action> {
    if n == 0 then [] else Clears(c, n - 1) + [CloserClear(c), CloserAck(c)]
  }

  ghost function Cancels(n: nat): seq<Fate> { seq(n, _ => Cancelled) }

  lemma RunTwo(s: State, actions: seq<Action>, x: Action, y: Action)
    ensures Run(s, actions + [x, y]) == Step(Step(Run(s, actions), x), y)
  {
    hide Step;
    var all := actions + [x, y];
    assert all[..|all| - 1] == actions + [x] && (actions + [x])[..|actions|] == actions;
  }

  lemma RunOne(s: State, actions: seq<Action>, x: Action)
    ensures Run(s, actions + [x]) == Step(Run(s, actions), x)
  {
    hide Step;
    assert (actions + [x])[..|actions|] == actions;
  }

  /** One turn of the clearing loop takes the oldest job out of the FIFO. */
  lemma ClearTurn(s: State, c: nat)
    requires Inv(s) && Unlocked(s) && c < |s.closers| && s.closers[c].Clearing? && s.f.fifo != []
    ensures var t := Step(Step(s, CloserClear(c)), CloserAck(c));
      && t.f.fifo == s.f.fifo[1..] && t.taken == s.taken + [Cancelled] && t.workers == s.workers && t.stop == s.stop
      && t.closers == s.closers[c := Clearing(s.closers[c].canceled + 1)] && Unlocked(t) && t.accepted == s.accepted
  {
    hide InOrder, Fates, Totals, Snapshots, Closing, CountBusy, CountUnacked, CountClearAcking;
    var t := Step(s, CloserClear(c));
    assert t.closers[c := Clearing(s.closers[c].canceled + 1)]
        == s.closers[c := Clearing(s.closers[c].canceled + 1)];
  }

  lemma {:induction false} ClearsTake(s: State, c: nat, n: nat)
    requires Inv(s) && Unlocked(s) && c < |s.closers| && s.closers[c] == Clearing(0) && n <= |s.f.fifo|
    ensures var t := Run(s, Clears(c, n));
      && t.f.fifo == s.f.fifo[n..] && t.taken == s.taken + Cancels(n) && t.workers == s.workers && t.stop == s.stop
      && t.closers == s.closers[c := Clearing(n)] && Unlocked(t) && t.accepted == s.accepted && Inv(t)
  {
    hide Inv, Step;
    if n == 0 {
      assert s.closers[c := Clearing(0)] == s.closers;
    } else {
      ClearsTake(s, c, n - 1);
      var m := Run(s, Clears(c, n - 1));
      RunTwo(s, Clears(c, n - 1), CloserClear(c), CloserAck(c));
      hide Run;
      ClearTurn(m, c);
      RunKeepsTwo(m, CloserClear(c), CloserAck(c));
      assert m.closers[c := Clearing(n)] == s.closers[c := Clearing(n)];
      assert Cancels(n) == Cancels(n - 1) + [Cancelled];
    }
  }

  lemma RunKeepsTwo(s: State, x: Action, y: Action)
    requires Inv(s)
    ensures Inv(Step(Step(s, x), y))
  {
    hide Inv, Step;
    StepKeeps(s, x);
    StepKeeps(Step(s, x), y);
  }

  /**
   A call of `shutdown(drain=False)` whose steps follow one another sets stop, cancels every queued job and no
   other, and reports their number.
   */
  lemma ShutdownCancels(s: State, c: nat)
    requires Inv(s) && Unlocked(s) && c < |s.closers| && s.closers[c] == Ready(false)
    ensures var n := |s.f.fifo|;
      var t := Step(Run(Step(s, CloserStop(c)), Clears(c, n)), CloserClear(c));
      && t.stop && t.f.fifo == [] && t.taken == s.taken + Cancels(n) && t.workers == s.workers
      && t.accepted == s.accepted && t.closers == s.closers[c := Joining(false, false, n)]
  {
    var n, first := |s.f.fifo|, Step(s, CloserStop(c));
    StepKeeps(s, CloserStop(c));
    assert first == s.(stop := true, closers := s.closers[c := Clearing(0)]);
    ClearsTake(first, c, n);
    var m := Run(first, Clears(c, n));
    hide InOrder, Fates, Totals, Snapshots, Closing, CountBusy, CountUnacked, CountClearAcking, Run;
    assert m.f.queued == 0;
    assert m.closers[c := Joining(false, false, n)] == s.closers[c := Joining(false, false, n)];
  }

  /** A call of `shutdown(drain=True)` sets stop and begins to wait; it takes no job out of the FIFO. */
  lemma ShutdownDrains(s: State, c: nat)
    requires c < |s.closers| && s.closers[c] == Ready(true)
    ensures Step(s, CloserStop(c)) == s.(stop := true, closers := s.closers[c := Waiting])
  {}

  // ----- no worker is ever stuck -----

  /** From `s` to `t` only worker `w` has moved, and no job has been accepted. */
  ghost predicate MovedAlone(s: State, t: State, w: nat) {
    && t.stop == s.stop && t.enqueuing == s.enqueuing && t.closers == s.closers && t.accepted == s.accepted
    && w < |s.workers| && t.workers == s.workers[w := AtSnapshot]
  }

  /** The tickets of the jobs in the FIFO. */
  ghost function Tickets(s: State): set<nat> { set k: nat | k < |s.accepted| && Queued(s, k) }

  /** The three steps that end a job; those already made change nothing. */
  ghost function AfterJob(s: State, w: nat, raises: bool): State {
    Step(Step(Step(s, WorkerHandle(w, raises)), WorkerAck(w)), WorkerRelease(w))
  }

  lemma HandleMoves(s: State, w: nat, raises: bool)
    requires Inv(s) && w < |s.workers| && s.workers[w].Holding?
    ensures var pc := s.workers[w];
      var t := Step(s, WorkerHandle(w, raises));
      && Inv(t)
      && t == s.(workers := s.workers[w := pc.(phase := if pc.phase == Running then Acking else pc.phase)])
  {
    StepKeeps(s, WorkerHandle(w, raises));
    hide Inv;
    assert s.workers[w := s.workers[w]] == s.workers;
  }

  lemma AckingIsCounted(s: State, w: nat)
    requires Inv(s) && w < |s.workers| && s.workers[w].Holding? && s.workers[w].phase == Acking
    ensures s.f.unfinished > 0
  {
    BusyIsCounted(s.workers, w);
    hide InOrder, Fates, Totals, Snapshots, Closing, CountBusy, CountUnacked, CountClearAcking;
  }

  lemma AckMoves(s: State, w: nat)
    requires Inv(s) && w < |s.workers| && s.workers[w].Holding? && s.workers[w].phase != Running
    ensures var t := Step(s, WorkerAck(w));
      && Inv(t) && t.f.fifo == s.f.fifo
      && t == s.(f := t.f, workers := s.workers[w := s.workers[w].(phase := Releasing)])
  {
    StepKeeps(s, WorkerAck(w));
    if s.workers[w].phase == Acking { AckingIsCounted(s, w); }
    hide Inv;
    if s.workers[w].phase == Releasing { assert s.workers[w := s.workers[w]] == s.workers; }
  }

  lemma ReleaseMoves(s: State, w: nat)
    requires Inv(s) && Unlocked(s) && w < |s.workers| && s.workers[w].Holding? && s.workers[w].phase == Releasing
    ensures var t := Step(s, WorkerRelease(w));
      && Inv(t) && t.f.fifo == s.f.fifo
      && t == s.(f := t.f, done := s.done + {s.workers[w].ticket}, workers := s.workers[w := AtSnapshot])
  {
    StepKeeps(s, WorkerRelease(w));
    hide Inv;
  }

  /** A worker that holds a job can end it, whether its handler returns or raises, and looks at the queue again. */
  lemma JobEnds(s: State, w: nat, raises: bool)
    requires Inv(s) && Unlocked(s) && w < |s.workers| && s.workers[w].Holding?
    ensures var t := AfterJob(s, w, raises);
      && Inv(t) && MovedAlone(s, t, w) && t.f.fifo == s.f.fifo && t.taken == s.taken
      && t.done == s.done + {s.workers[w].ticket}
  {
    HandleMoves(s, w, raises);
    var a := Step(s, WorkerHandle(w, raises));
    AckMoves(a, w);
    var b := Step(a, WorkerAck(w));
    ReleaseMoves(b, w);
    hide Inv, Step;
    assert b.workers[w := AtSnapshot] == s.workers[w := AtSnapshot];
  }

  /** One turn of the loop on a queue that is not empty. */
  ghost function AfterTurn(s: State, w: nat): State {
    AfterJob(Step(Step(Step(s, WorkerSnapshot(w)), WorkerTest(w)), WorkerClaim(w)), w, false)
  }

  lemma LookMoves(s: State, w: nat)
    requires Inv(s) && Unlocked(s) && w < |s.workers| && s.workers[w] == AtSnapshot && s.f.fifo != []
    ensures var t := Step(Step(s, WorkerSnapshot(w)), WorkerTest(w));
      Inv(t) && t == s.(workers := s.workers[w := AtClaim])
  {
    var a := Step(s, WorkerSnapshot(w));
    StepKeeps(s, WorkerSnapshot(w));
    StepKeeps(a, WorkerTest(w));
    hide Inv;
    assert a.workers[w := AtClaim] == s.workers[w := AtClaim];
  }

  lemma ClaimMoves(s: State, w: nat)
    requires Inv(s) && Unlocked(s) && w < |s.workers| && s.workers[w] == AtClaim && s.f.fifo != []
    ensures var t := Step(s, WorkerClaim(w));
      && Inv(t) && t.f.fifo == s.f.fifo[1..]
      && t == s.(f := t.f, taken := s.taken + [Claimed(w)],
                 workers := s.workers[w := Holding(s.f.fifo[0], |s.taken|, Running)])
  {
    StepKeeps(s, WorkerClaim(w));
    hide InOrder, Fates, Totals, Snapshots, Closing;
  }

  lemma InvOrder(s: State)
    requires Inv(s)
    ensures |s.f.fifo| == |s.accepted| - |s.taken|
  {
    hide Counters, Fates, Totals, Snapshots, Closing;
  }

  lemma TicketsNext(s: State, t: State)
    requires |s.taken| < |s.accepted| && |t.taken| == |s.taken| + 1 && t.accepted == s.accepted
    ensures Tickets(s) == Tickets(t) + {|s.taken|}
  {}

  /** A claim, and then the job it gave. */
  lemma ClaimedEnds(s: State, w: nat)
    requires Inv(s) && Unlocked(s) && w < |s.workers| && s.workers[w] == AtClaim && s.f.fifo != []
    ensures var t := AfterJob(Step(s, WorkerClaim(w)), w, false);
      && Inv(t) && MovedAlone(s, t, w) && t.f.fifo == s.f.fifo[1..]
      && t.done + Tickets(t) == s.done + Tickets(s)
  {
    ClaimMoves(s, w);
    var m := Step(s, WorkerClaim(w));
    assert m.workers[w := AtSnapshot] == s.workers[w := AtSnapshot];
    InvOrder(s);
    hide Step, Inv, AfterJob, Tickets;
    JobEnds(m, w, false);
    TicketsNext(s, AfterJob(m, w, false));
  }

  lemma TurnTakes(s: State, w: nat)
    requires Inv(s) && Unlocked(s) && w < |s.workers| && s.workers[w] == AtSnapshot && s.f.fifo != []
    ensures var t := AfterTurn(s, w);
      && Inv(t) && MovedAlone(s, t, w) && t.f.fifo == s.f.fifo[1..]
      && t.done + Tickets(t) == s.done + Tickets(s)
  {
    LookMoves(s, w);
    var a := Step(Step(s, WorkerSnapshot(w)), WorkerTest(w));
    assert a.workers[w := AtSnapshot] == s.workers[w := AtSnapshot];
    SameTickets(s, a);
    hide Step, Inv, AfterJob, Tickets;
    ClaimedEnds(a, w);
  }

  lemma SameTickets(s: State, t: State)
    requires t.taken == s.taken && t.accepted == s.accepted
    ensures Tickets(t) == Tickets(s)
  {}

  lemma AloneTwice(s: State, m: State, t: State, w: nat)
    requires MovedAlone(s, m, w)
    ensures Unlocked(m) == Unlocked(s) && w < |m.workers| && m.workers[w] == AtSnapshot
    ensures MovedAlone(m, t, w) ==> MovedAlone(s, t, w)
  {
    assert m.workers[w := AtSnapshot] == s.workers[w := AtSnapshot];
  }

  /** Worker `w` makes one turn after the other until the FIFO is empty. */
  ghost function Drained(s: State, w: nat, turns: nat): State
    decreases turns
  {
    if turns == 0 then s else Drained(AfterTurn(s, w), w, turns - 1)
  }

  lemma NothingToDrain(s: State, w: nat)
    requires Inv(s) && w < |s.workers| && s.workers[w] == AtSnapshot && s.f.fifo == []
    ensures MovedAlone(s, s, w) && Tickets(s) == {}
  {
    InvOrder(s);
    hide Inv;
    assert s.workers[w := AtSnapshot] == s.workers;
  }

  lemma {:induction false} TurnsDrain(s: State, w: nat)
    requires Inv(s) && Unlocked(s) && w < |s.workers| && s.workers[w] == AtSnapshot
    ensures var t := Drained(s, w, |s.f.fifo|);
      && Inv(t) && MovedAlone(s, t, w) && t.f.fifo == [] && t.done == s.done + Tickets(s)
    decreases |s.f.fifo|
  {
    hide Inv, Counters, AfterTurn, Tickets, MovedAlone, Unlocked;
    if s.f.fifo == [] {
      NothingToDrain(s, w);
    } else {
      var t := AfterTurn(s, w);
      TurnTakes(s, w);
      AloneTwice(s, t, Drained(t, w, |t.f.fifo|), w);
      TurnsDrain(t, w);
    }
  }

  function JobActions(w: nat, raises: bool): seq<Action> { [WorkerHandle(w, raises), WorkerAck(w), WorkerRelease(w)] }

  /** The actions of `turns` turns of worker `w`, each with a handler that returns. */
  function Turns(w: nat, turns: nat): seq<Action> {
    if turns == 0 then []
    else [WorkerSnapshot(w), WorkerTest(w), WorkerClaim(w)] + JobActions(w, false) + Turns(w, turns - 1)
  }

  lemma {:induction false} RunConcat(s: State, xs: seq<Action>, ys: seq<Action>)
    ensures Run(s, xs + ys) == Run(Run(s, xs), ys)
  {
    hide Step;
    if ys == [] {
      assert xs + ys == xs;
    } else {
      var n := |ys| - 1;
      RunConcat(s, xs, ys[..n]);
      assert (xs + ys)[..|xs| + n] == xs + ys[..n];
    }
  }

  lemma RunThree(s: State, x: Action, y: Action, z: Action)
    ensures Run(s, [x, y, z]) == Step(Step(Step(s, x), y), z)
  {
    RunTwo(s, [], x, y);
    RunOne(s, [x, y], z);
    assert [] + [x, y] == [x, y] && [x, y] + [z] == [x, y, z];
    hide Step;
  }

  lemma {:induction false} RunTurns(s: State, w: nat, turns: nat)
    ensures Run(s, Turns(w, turns)) == Drained(s, w, turns)
    decreases turns
  {
    hide Step, Run;
    if turns == 0 {
      RunNone(s);
    } else {
      var look := [WorkerSnapshot(w), WorkerTest(w), WorkerClaim(w)];
      RunThree(s, WorkerSnapshot(w), WorkerTest(w), WorkerClaim(w));
      RunThree(Run(s, look), WorkerHandle(w, false), WorkerAck(w), WorkerRelease(w));
      RunConcat(s, look, JobActions(w, false));
      RunConcat(s, look + JobActions(w, false), Turns(w, turns - 1));
      RunTurns(AfterTurn(s, w), w, turns - 1);
    }
  }

  lemma RunNone(s: State)
    ensures Run(s, []) == s
  {}

  /**
   In every reachable state a worker can go on by itself: one that holds a job can end it, and one that is about to
   look at the queue can empty it, every job in it ending as done. No other thread need move.
   */
  lemma WorkerCanGoOn(maxSize: nat, workerCount: nat, drains: seq<bool>, actions: seq<Action>, w: nat, raises: bool)
    requires var s := Run(Start(maxSize, workerCount, drains), actions); Unlocked(s) && w < |s.workers|
    ensures var s := Run(Start(maxSize, workerCount, drains), actions);
      && (s.workers[w].Holding? ==>
            var t := Run(s, JobActions(w, raises));
            MovedAlone(s, t, w) && t.f.fifo == s.f.fifo && t.done == s.done + {s.workers[w].ticket})
      && (s.workers[w] == AtSnapshot ==>
            var t := Run(s, Turns(w, |s.f.fifo|));
            MovedAlone(s, t, w) && t.f.fifo == [] && t.done == s.done + Tickets(s))
  {
    StartInv(maxSize, workerCount, drains);
    RunKeeps(Start(maxSize, workerCount, drains), actions);
    var s := Run(Start(maxSize, workerCount, drains), actions);
    RunThree(s, WorkerHandle(w, raises), WorkerAck(w), WorkerRelease(w));
    RunTurns(s, w, |s.f.fifo|);
    hide Run, Start, Inv, Step, MovedAlone, Tickets, Drained;
    if s.workers[w].Holding? { JobEnds(s, w, raises); }
    if s.workers[w] == AtSnapshot { TurnsDrain(s, w); }
  }

  // ----- the class -----

  /** The shared object; each method is one lock section, run alone. */
  class AsyncSyncQueue {
    const maxSize: nat
    var queue: seq<Job>
    var stop: bool
    var queuedJobs: int
    var inFlightJobs: int
    var unfinishedTasks: int

    ghost function View(): Fields
      reads this
    {
      Fields(maxSize, queue, queuedJobs, inFlightJobs, unfinishedTasks)
    }

    /** The depth counter tells the length of the FIFO, which is bounded, and no counter is negative. */
    ghost predicate Valid()
      reads this
    {
      0 <= queuedJobs == |queue| <= maxSize && inFlightJobs >= 0 && unfinishedTasks >= |queue|
    }

    constructor (size: int)
      ensures Valid() && !stop && View() == Fields(if size >= 1 then size else 1, [], 0, 0, 0)
    {
      maxSize := if size >= 1 then size else 1;
      queue, stop, queuedJobs, inFlightJobs, unfinishedTasks := [], false, 0, 0, 0;
    }

    method Enqueue(job: Job) returns (accepted: bool, depth: int)
      requires Valid()
      modifies this
      ensures Valid() && stop == old(stop) && depth == queuedJobs
      ensures accepted <==> !stop && |old(queue)| < maxSize
      ensures queue == if accepted then old(queue) + [job] else old(queue)
      ensures View() == if stop then old(View()) else Put(old(View()), job).0
    {
      if stop { return false, queuedJobs; }
      if |queue| >= maxSize { return false, queuedJobs; }
      queue := queue + [job];
      unfinishedTasks := unfinishedTasks + 1;
      queuedJobs := queuedJobs + 1;
      return true, queuedJobs;
    }

    method ClaimNextJob() returns (job: Option<Job>)
      modifies this
      ensures stop == old(stop) && (View(), job) == Claim(old(View()))
      ensures old(Valid()) ==> Valid() && job == if old(queue) == [] then None else Some(old(queue)[0])
    {
      if queuedJobs <= 0 { return None; }
      inFlightJobs := inFlightJobs + 1;
      if queue == [] {
        inFlightJobs := Clamp(inFlightJobs - 1);
        queuedJobs := 0;
        return None;
      }
      job := Some(queue[0]);
      queue := queue[1..];
      queuedJobs := Clamp(queuedJobs - 1);
    }

    method ReleaseInFlight()
      requires Valid()
      modifies this`inFlightJobs
      ensures Valid() && View() == Release(old(View()))
    {
      inFlightJobs := Clamp(inFlightJobs - 1);
    }

    method SnapshotState() returns (queued: int, inFlight: int, idle: bool)
      requires Valid()
      ensures queued == |queue| && inFlight == inFlightJobs && idle == IsIdle(View())
      ensures idle <==> queued == 0 && inFlight == 0
    {
      queued, inFlight := queuedJobs, inFlightJobs;
      idle := queue == [] && queued == 0 && inFlight == 0;
    }

    /** Alone, it cancels everything that is queued and nothing else. */
    method ClearQueuedJobs() returns (canceled: nat)
      requires Valid()
      modifies this
      ensures Valid() && canceled == |old(queue)|
      ensures View() == old(View()).(fifo := [], queued := 0, unfinished := old(unfinishedTasks) - canceled)
      ensures stop == old(stop)
    {
      canceled := 0;
      while queuedJobs > 0
        invariant 0 <= queuedJobs == |queue| && canceled + |queue| == |old(queue)|
        invariant unfinishedTasks == old(unfinishedTasks) - canceled && inFlightJobs == old(inFlightJobs)
        invariant stop == old(stop)
        decreases queuedJobs
      {
        queue := queue[1..];
        queuedJobs := Clamp(queuedJobs - 1);
        unfinishedTasks := unfinishedTasks - 1;
        canceled := canceled + 1;
      }
    }
  }
}
