/**
 The gateway's event queue of one job: pushed events wait in `queue` or go to waiting calls, and a cleanup
 answers every waiting call with null.
 */
module JobQueue {
  import opened Common

  /**
   A job with its history. A call of `nextJobEvent` is named by its position among the calls for the job;
   `outcome` holds what the calls answered so far have resolved with; `delivered` counts the answers that
   were events.
   */
  datatype Job<E> = Job(live: bool, queue: seq<E>, waiters: seq<nat>, pushed: seq<E>, calls: nat,
                        outcome: map<nat, Option<E>>, delivered: nat)

  datatype Op<E> = Push(event: E) | Next | Cleanup

  function Resolve<E>(outcome: map<nat, Option<E>>, k: nat, answer: Option<E>): map<nat, Option<E>> {
    outcome[k := answer]
  }

  function Created<E>(): Job<E> { Job(true, [], [], [], 0, map[], 0) }

  /** `pushJobEvent`: the longest waiting call gets the event, else it is queued; a removed job drops it. */
  function PushEvent<E>(job: Job<E>, event: E): Job<E> {
    if !job.live then job
    else if job.waiters != [] then
      job.(waiters := job.waiters[1..], pushed := job.pushed + [event],
           outcome := Resolve(job.outcome, job.waiters[0], Some(event)), delivered := job.delivered + 1)
    else job.(queue := job.queue + [event], pushed := job.pushed + [event])
  }

  /** `nextJobEvent`, as the call numbered `job.calls`. */
  function NextEvent<E>(job: Job<E>): Job<E> {
    var k := job.calls;
    if !job.live then job.(calls := k + 1, outcome := Resolve(job.outcome, k, None))
    else if job.queue != [] then
      job.(calls := k + 1, queue := job.queue[1..], outcome := Resolve(job.outcome, k, Some(job.queue[0])),
           delivered := job.delivered + 1)
    else job.(calls := k + 1, waiters := job.waiters + [k])
  }

  /** `cleanupJob`, called at the end of the stream or by the timer. */
  function CleanupJob<E>(job: Job<E>): Job<E> {
    if !job.live then job
    else job.(live := false, queue := [], waiters := [],
              outcome := job.outcome + map k | k in job.waiters :: None)
  }

  function Apply<E>(job: Job<E>, op: Op<E>): Job<E> {
    match op
    case Push(e) => PushEvent(job, e)
    case Next => NextEvent(job)
    case Cleanup => CleanupJob(job)
  }

  function Run<E>(ops: seq<Op<E>>): Job<E> {
    if ops == [] then Created() else Apply(Run(ops[..|ops| - 1]), ops[|ops| - 1])
  }

  /**
   The k-th answered call got the k-th pushed event. While the job lives, the queue holds the pushed events
   not yet delivered and the waiters are the calls not yet answered, so not both are non-empty; afterwards
   all calls are answered, the undelivered ones with null.
   */
  ghost predicate Ordered<E>(job: Job<E>) {
    && job.delivered <= |job.pushed| && job.delivered <= job.calls
    && (forall k :: 0 <= k < job.delivered ==> k in job.outcome && job.outcome[k] == Some(job.pushed[k]))
    && (job.live ==>
          && (forall k :: k in job.outcome ==> k < job.delivered)
          && job.queue == job.pushed[job.delivered..]
          && |job.waiters| == job.calls - job.delivered
          && (forall i :: 0 <= i < |job.waiters| ==> job.waiters[i] == job.delivered + i)
          && (job.queue == [] || job.waiters == []))
    && (!job.live ==>
          && job.queue == [] && job.waiters == []
          && (forall k :: k in job.outcome <==> 0 <= k < job.calls)
          && (forall k :: job.delivered <= k < job.calls ==> job.outcome[k] == None))
  }

  lemma CleanupKeepsOrder<E>(job: Job<E>)
    requires Ordered(job)
    ensures Ordered(CleanupJob(job))
  {
    if job.live {
      forall k ensures k in job.waiters <==> job.delivered <= k < job.calls {
        if job.delivered <= k < job.calls { assert job.waiters[k - job.delivered] == k; }
      }
    }
  }

  lemma PushKeepsOrder<E>(job: Job<E>, event: E)
    requires Ordered(job)
    ensures Ordered(PushEvent(job, event))
  {
    if job.live && job.waiters != [] { assert job.waiters[0] == job.delivered; }
  }

  lemma ApplyKeepsOrder<E>(job: Job<E>, op: Op<E>)
    requires Ordered(job)
    ensures Ordered(Apply(job, op))
  {
    match op
    case Push(e) => PushKeepsOrder(job, e);
    case Next =>
    case Cleanup => CleanupKeepsOrder(job);
  }

  /** After any sequence of pushes, calls and cleanups: none lost, repeated or reordered. */
  lemma {:induction false} RunIsOrdered<E>(ops: seq<Op<E>>)
    ensures Ordered(Run(ops))
  {
    hide Ordered;
    if ops == [] {
      CreatedIsOrdered<E>();
    } else {
      RunIsOrdered(ops[..|ops| - 1]);
      ApplyKeepsOrder(Run(ops[..|ops| - 1]), ops[|ops| - 1]);
    }
  }

  lemma CreatedIsOrdered<E>()
    ensures Ordered(Created<E>())
  {}

  /** A removed job stays removed, takes no events, and answers every later call with null. */
  lemma RemovedAnswersNull<E>(job: Job<E>, op: Op<E>)
    requires Ordered(job) && !job.live
    ensures var next := Apply(job, op);
      && !next.live && next.pushed == job.pushed && next.delivered == job.delivered
      && (op == Next ==> next.outcome[job.calls] == None)
  {}

  // ----- the module-level maps -----

  /** A job that is gone without having had an event or a call. */
  function Removed<E>(): Job<E> { CleanupJob(Created()) }

  function History<E>(history: map<string, Job<E>>, id: string): Job<E> {
    if id in history then history[id] else Removed()
  }

  lemma HistoryIs<E>(history: map<string, Job<E>>, id: string)
    ensures History(history, id) == if id in history then history[id] else Removed()
    ensures id !in history ==> !History(history, id).live
  {}

  lemma UpdateTwice<E>(history: map<string, Job<E>>, id: string, first: Job<E>, second: Job<E>)
    ensures history[id := first][id := second] == history[id := second]
  {}

  datatype JobState<E> = JobState(queue: seq<E>, waiters: seq<nat>)

  function Lists<E>(job: Job<E>): JobState<E> { JobState(job.queue, job.waiters) }

  /** The maps show the job's history: its lists while it lives, and what its calls resolved with. */
  ghost predicate Shows<E>(id: string, job: Job<E>, jobs: map<string, JobState<E>>, calls: map<string, nat>,
                           resolved: map<string, map<nat, Option<E>>>)
  {
    && Ordered(job)
    && (if job.live then id in jobs && jobs[id] == Lists(job) else id !in jobs)
    && id in calls && calls[id] == job.calls
    && id in resolved && resolved[id] == job.outcome
  }

  ghost predicate AnsweredNull<E>(resolved: map<string, map<nat, Option<E>>>, id: string, k: nat) {
    id in resolved && k in resolved[id] && resolved[id][k] == None
  }

  lemma CreatedShows<E>(id: string, jobs: map<string, JobState<E>>, calls: map<string, nat>,
                        resolved: map<string, map<nat, Option<E>>>)
    requires id in jobs && jobs[id] == JobState([], []) && id in calls && calls[id] == 0
    requires id in resolved && resolved[id] == map[]
    ensures Shows(id, Created(), jobs, calls, resolved)
  {}

  /** The call for a removed job is answered with null, */
  lemma NextIsNull<E>(id: string, job: Job<E>, jobs: map<string, JobState<E>>, calls: map<string, nat>,
                      resolved: map<string, map<nat, Option<E>>>)
    requires Shows(id, job, jobs, calls, resolved) && !job.live
    ensures Shows(id, NextEvent(job), jobs, calls[id := job.calls + 1],
                  resolved[id := Resolve(job.outcome, job.calls, None)])
  {
    ApplyKeepsOrder(job, Next);
    hide Ordered;
  }

  /** the call for a job with events gets the oldest one, */
  lemma NextIsQueued<E>(id: string, job: Job<E>, jobs: map<string, JobState<E>>, calls: map<string, nat>,
                        resolved: map<string, map<nat, Option<E>>>)
    requires Shows(id, job, jobs, calls, resolved) && job.live && job.queue != []
    ensures Shows(id, NextEvent(job), jobs[id := JobState(job.queue[1..], job.waiters)], calls[id := job.calls + 1],
                  resolved[id := Resolve(job.outcome, job.calls, Some(job.queue[0]))])
  {
    ApplyKeepsOrder(job, Next);
    hide Ordered;
  }

  /** and otherwise it waits. */
  lemma NextWaits<E>(id: string, job: Job<E>, jobs: map<string, JobState<E>>, calls: map<string, nat>,
                     resolved: map<string, map<nat, Option<E>>>)
    requires Shows(id, job, jobs, calls, resolved) && job.live && job.queue == []
    ensures Shows(id, NextEvent(job), jobs[id := JobState([], job.waiters + [job.calls])],
                  calls[id := job.calls + 1], resolved)
  {
    ApplyKeepsOrder(job, Next);
    hide Ordered;
  }

  lemma UpdateBeside<V>(id: string, before: map<string, V>, v: V)
    ensures before[id := v] - {id} == before - {id}
  {}

  /** Updating the maps for one job leaves what they show of the others. */
  lemma OthersShow<E>(id: string, history: map<string, Job<E>>,
                      jobs: map<string, JobState<E>>, calls: map<string, nat>,
                      resolved: map<string, map<nat, Option<E>>>,
                      jobs': map<string, JobState<E>>, calls': map<string, nat>,
                      resolved': map<string, map<nat, Option<E>>>)
    requires forall other :: other in history ==> Shows(other, history[other], jobs, calls, resolved)
    requires jobs' - {id} == jobs - {id} && calls' - {id} == calls - {id} && resolved' - {id} == resolved - {id}
    ensures forall other :: other in history && other != id ==> Shows(other, history[other], jobs', calls', resolved')
  {
    forall other | other in history && other != id ensures Shows(other, history[other], jobs', calls', resolved') {
      assert Shows(other, history[other], jobs, calls, resolved);
      assert other in jobs <==> other in jobs - {id};
      assert other in jobs' <==> other in jobs' - {id};
      assert other in calls - {id} && other in resolved - {id};
    }
  }

  /**
   The `jobs` and `jobTimers` maps. Promises are named by job and call number; `resolved` says what they
   have resolved with. A new job's id is one that nobody has named before.
   */
  class JobBoard<E> {
    var jobs: map<string, JobState<E>>
    var timers: set<string>
    var calls: map<string, nat>
    var resolved: map<string, map<nat, Option<E>>>
    ghost var history: map<string, Job<E>>

    /** Every job shows in the maps, and jobs and timers are kept on the same keys. */
    ghost predicate Valid()
      reads this
    {
      && timers == jobs.Keys && jobs.Keys <= history.Keys && calls.Keys <= history.Keys
      && forall id :: id in history ==> Shows(id, history[id], jobs, calls, resolved)
    }

    constructor ()
      ensures Valid() && history == map[]
    {
      jobs, timers, calls, resolved, history := map[], {}, map[], map[], map[];
    }

    method CreateJob(id: string)
      requires Valid() && id !in history
      modifies this
      ensures Valid() && history == old(history)[id := Created()]
    {
      hide *;
      jobs := jobs[id := JobState([], [])];
      timers := timers + {id};
      calls := calls[id := 0];
      resolved := resolved[id := map[]];
      CreatedShows(id, jobs, calls, resolved);
      Unlisted(id);
      Record(id, Created(), old(jobs), old(calls), old(resolved));
    }

    twostate lemma Unlisted(id: string)
      requires old(Valid()) && old(id !in history) && unchanged(`history)
      requires jobs == old(jobs)[id := JobState([], [])] && timers == old(timers) + {id}
      requires calls == old(calls)[id := 0] && resolved == old(resolved)[id := map[]]
      ensures forall other :: other in history ==> Shows(other, history[other], old(jobs), old(calls), old(resolved))
      ensures jobs - {id} == old(jobs) - {id} && calls - {id} == old(calls) - {id}
          && resolved - {id} == old(resolved) - {id}
      ensures timers == jobs.Keys && jobs.Keys <= history.Keys + {id} && calls.Keys <= history.Keys + {id}
    {
      hide Shows;
    }

    /** Writes one job's new history, once the maps show it. */
    ghost method Record(id: string, job: Job<E>, jobs0: map<string, JobState<E>>, calls0: map<string, nat>,
                        resolved0: map<string, map<nat, Option<E>>>)
      requires forall other :: other in history ==> Shows(other, history[other], jobs0, calls0, resolved0)
      requires jobs - {id} == jobs0 - {id} && calls - {id} == calls0 - {id} && resolved - {id} == resolved0 - {id}
      requires Shows(id, job, jobs, calls, resolved)
      requires timers == jobs.Keys && jobs.Keys <= history.Keys + {id} && calls.Keys <= history.Keys + {id}
      modifies this`history
      ensures Valid() && history == old(history)[id := job]
    {
      hide Shows;
      OthersShow(id, history, jobs0, calls0, resolved0, jobs, calls, resolved);
      history := history[id := job];
    }

    method PushJobEvent(id: string, event: E)
      requires Valid()
      modifies this
      ensures Valid()
      ensures history ==
        if id in old(history) then old(history)[id := PushEvent(old(history)[id], event)]
        else old(history)
    {
      hide Ordered;
      if id in history { assert Shows(id, history[id], jobs, calls, resolved); }
      if id !in jobs {
        assert id in history ==> history == history[id := history[id]];
        return;
      }
      PushKeepsOrder(history[id], event);
      var state := jobs[id];
      if state.waiters != [] {
        jobs := jobs[id := state.(waiters := state.waiters[1..])];
        resolved := resolved[id := Resolve(resolved[id], state.waiters[0], Some(event))];
      } else {
        jobs := jobs[id := state.(queue := state.queue + [event])];
      }
      assert Shows(id, PushEvent(history[id], event), jobs, calls, resolved);
      hide Shows;
      Record(id, PushEvent(history[id], event), old(jobs), old(calls), old(resolved));
    }

    /**
     Returns the promise's number; it may already be resolved. An id that no job ever had is like the id of a
     removed job: the call is answered with null.
     */
    method NextJobEvent(id: string) returns (k: nat)
      requires Valid()
      modifies this
      ensures Valid() && k == History(old(history), id).calls
      ensures history == old(history)[id := NextEvent(History(old(history), id))]
      ensures id !in old(jobs) ==> AnsweredNull(resolved, id, k)
    {
      CountedAreKnown(id);
      ghost var job := History(history, id);
      HistoryIs(history, id);
      assert id !in jobs ==> !job.live;
      hide *;
      if id !in calls {
        MeetUnknown(id);
        k := AnswerNext(id);
        UpdateTwice(old(history), id, job, NextEvent(job));
      } else {
        k := AnswerNext(id);
      }
      if !job.live { NullIsShown(id, job, k); }
    }

    lemma CountedAreKnown(id: string)
      requires Valid()
      ensures id in calls <==> id in history
      ensures id in jobs <==> id in history && history[id].live
    {
      hide Ordered;
    }

    lemma NullIsShown(id: string, job: Job<E>, k: nat)
      requires Valid() && id in history && history[id] == NextEvent(job) && !job.live && k == job.calls
      ensures AnsweredNull(resolved, id, k)
    {
      hide Ordered;
      assert Shows(id, history[id], jobs, calls, resolved);
    }

    /** The call for an id that has a history. */
    method AnswerNext(id: string) returns (k: nat)
      requires Valid() && id in history
      modifies this
      ensures Valid() && k == old(history)[id].calls
      ensures history == old(history)[id := NextEvent(old(history)[id])]
    {
      ShownLists(id);
      hide *;
      k := calls[id];
      if id !in jobs {
        AnswerNull(id, k);
      } else if |jobs[id].queue| > 0 {
        AnswerQueued(id, k);
      } else {
        AwaitEvent(id, k);
      }
    }

    method AnswerNull(id: string, k: nat)
      requires Valid() && id in history && !history[id].live && k == history[id].calls
      modifies this`calls, this`resolved, this`history
      ensures Valid() && history == old(history)[id := NextEvent(old(history)[id])]
    {
      ShownLists(id);
      hide *;
      calls := calls[id := k + 1];
      resolved := resolved[id := Resolve(resolved[id], k, None)];
      NextIsNull(id, history[id], old(jobs), old(calls), old(resolved));
      UpdateBeside(id, old(calls), calls[id]);
      UpdateBeside(id, old(resolved), resolved[id]);
      Record(id, NextEvent(history[id]), old(jobs), old(calls), old(resolved));
    }

    method AnswerQueued(id: string, k: nat)
      requires Valid() && id in history && history[id].live && history[id].queue != [] && k == history[id].calls
      modifies this`jobs, this`calls, this`resolved, this`history
      ensures Valid() && history == old(history)[id := NextEvent(old(history)[id])]
    {
      ShownLists(id);
      hide *;
      var state := jobs[id];
      calls := calls[id := k + 1];
      jobs := jobs[id := state.(queue := state.queue[1..])];
      resolved := resolved[id := Resolve(resolved[id], k, Some(state.queue[0]))];
      NextIsQueued(id, history[id], old(jobs), old(calls), old(resolved));
      UpdateBeside(id, old(jobs), jobs[id]);
      UpdateBeside(id, old(calls), calls[id]);
      UpdateBeside(id, old(resolved), resolved[id]);
      Record(id, NextEvent(history[id]), old(jobs), old(calls), old(resolved));
    }

    method AwaitEvent(id: string, k: nat)
      requires Valid() && id in history && history[id].live && history[id].queue == [] && k == history[id].calls
      modifies this`jobs, this`calls, this`history
      ensures Valid() && history == old(history)[id := NextEvent(old(history)[id])]
    {
      ShownLists(id);
      hide *;
      var state := jobs[id];
      calls := calls[id := k + 1];
      jobs := jobs[id := state.(waiters := state.waiters + [k])];
      NextWaits(id, history[id], old(jobs), old(calls), old(resolved));
      UpdateBeside(id, old(jobs), jobs[id]);
      UpdateBeside(id, old(calls), calls[id]);
      Record(id, NextEvent(history[id]), old(jobs), old(calls), old(resolved));
    }

    /** What the maps say of a job that has a history. */
    lemma ShownLists(id: string)
      requires Valid() && id in history
      ensures Shows(id, history[id], jobs, calls, resolved)
      ensures id in calls && calls[id] == history[id].calls && id in resolved && resolved[id] == history[id].outcome
      ensures id in jobs <==> history[id].live
      ensures id in jobs ==> jobs[id].queue == history[id].queue && jobs[id].waiters == history[id].waiters
      ensures timers == jobs.Keys && jobs.Keys <= history.Keys && calls.Keys <= history.Keys
      ensures forall other :: other in history ==> Shows(other, history[other], jobs, calls, resolved)
    {
      hide Ordered;
    }

    /** Begins the promise count of an id that no job ever had. */
    method MeetUnknown(id: string)
      requires Valid() && id !in history
      modifies this`calls, this`resolved, this`history
      ensures Valid() && history == old(history)[id := Removed()] && jobs == old(jobs)
    {
      hide *;
      calls := calls[id := 0];
      resolved := resolved[id := map[]];
      UnknownUnlisted(id);
      RemovedShows(id);
      Record(id, Removed(), old(jobs), old(calls), old(resolved));
    }

    twostate lemma UnknownUnlisted(id: string)
      requires old(Valid()) && old(id !in history) && unchanged(`history) && unchanged(`jobs) && unchanged(`timers)
      requires calls == old(calls)[id := 0] && resolved == old(resolved)[id := map[]]
      ensures id !in jobs && timers == jobs.Keys && jobs.Keys <= history.Keys + {id}
          && calls.Keys <= history.Keys + {id}
      ensures forall other :: other in history ==> Shows(other, history[other], old(jobs), old(calls), old(resolved))
      ensures jobs - {id} == old(jobs) - {id} && calls - {id} == old(calls) - {id}
          && resolved - {id} == old(resolved) - {id}
    {
      hide Shows;
    }

    lemma RemovedShows(id: string)
      requires timers == jobs.Keys && id !in jobs && id in calls && calls[id] == 0 && id in resolved
          && resolved[id] == map[]
      ensures Shows(id, Removed(), jobs, calls, resolved)
    {}

    method CleanupJobById(id: string)
      requires Valid()
      modifies this
      ensures Valid() && id !in jobs && id !in timers
      ensures history == if id in old(history) then old(history)[id := CleanupJob(old(history)[id])] else old(history)
    {
      hide Ordered;
      if id in history { assert Shows(id, history[id], jobs, calls, resolved); }
      if id !in jobs {
        assert id in history ==> history == history[id := history[id]];
        return;
      }
      CleanupKeepsOrder(history[id]);
      timers := timers - {id};
      var waiting := jobs[id].waiters;
      resolved := resolved[id := resolved[id] + map k | k in waiting :: None];
      jobs := jobs - {id};
      assert Shows(id, CleanupJob(history[id]), jobs, calls, resolved);
      hide Shows;
      Record(id, CleanupJob(history[id]), old(jobs), old(calls), old(resolved));
    }
  }
}
