/**
 The parse job of the gateway: a producer pushes events in a fixed grammar, one stream consumer writes them
 as frames until the first terminal event, and a client reads the frames back.
 */
module ParsePipeline {
  import opened Common
  import opened JobQueue
  import SseFrames

  // ----- the producer -----

  /** Events by what they carry; the result spreads the payload's own fields over `type: 'result'`. */
  datatype Event =
    | ProgressEvent(message: string)
    | StageEvent(stage: string, status: string, detail: string)
    | ResultEvent(ownType: Option<string>, body: string, thirdPass: Option<string>)
    | ErrorEvent(message: string)
    | DoneEvent

  function Kind(e: Event): string {
    match e
    case ProgressEvent(_) => "progress"
    case StageEvent(_, _, _) => "stage_progress"
    case ResultEvent(ownType, _, _) => if ownType.Some? then ownType.value else "result"
    case ErrorEvent(_) => "error"
    case DoneEvent => "done"
  }

  /** The consumer stops at these. */
  predicate Terminal(e: Event) { Kind(e) == "done" || Kind(e) == "error" }

  /** The NLP service's answer; `ownType` is a `type` field of the payload itself, if it has one. */
  datatype NlpReply = Parsed(ownType: Option<string>, body: string) | NlpFailed(message: string)

  datatype LlmReply = Summary(failed: bool, text: string) | LlmThrew(message: string)

  /** What the services will answer to one parse request. */
  datatype Plan = Plan(nlp: NlpReply, thirdPass: bool, llm: LlmReply)

  function LlmEvents(plan: Plan): seq<Event> {
    if !plan.thirdPass then []
    else match plan.llm
      case Summary(failed, text) => [StageEvent("llm", if failed then "error" else "done", text)]
      case LlmThrew(message) => [StageEvent("llm", "error", message)]
  }

  /** The events the producer pushes, in order. */
  function Emission(plan: Plan): seq<Event> {
    [ProgressEvent("Parsing...")]
    + (match plan.nlp
       case NlpFailed(message) => [ErrorEvent(message)]
       case Parsed(ownType, body) =>
         [StageEvent("nlp", "done", "")] + LlmEvents(plan)
         + [ResultEvent(ownType, body, if plan.thirdPass && plan.llm.Summary? then Some(plan.llm.text) else None)])
    + [DoneEvent]
  }

  function PushAll(job: Job<Event>, events: seq<Event>): Job<Event>
    decreases |events|
  {
    if events == [] then job else PushAll(PushEvent(job, events[0]), events[1..])
  }

  lemma {:induction false} PushAllConcat(job: Job<Event>, xs: seq<Event>, ys: seq<Event>)
    ensures PushAll(job, xs + ys) == PushAll(PushAll(job, xs), ys)
    decreases |xs|
  {
    if xs == [] {
      assert xs + ys == ys;
    } else {
      assert (xs + ys)[1..] == xs[1..] + ys;
      PushAllConcat(PushEvent(job, xs[0]), xs[1..], ys);
    }
  }

  /** `pushJobEvent`, adding to what this producer has sent. */
  method Push(board: JobBoard<Event>, id: string, event: Event, ghost job: Job<Event>, ghost sent: seq<Event>)
    returns (ghost next: seq<Event>)
    requires board.Valid() && id in board.history && board.history[id] == PushAll(job, sent)
    modifies board
    ensures board.Valid() && board.history == old(board.history)[id := PushAll(job, next)]
    ensures next == sent + [event]
  {
    next := sent + [event];
    PushAllConcat(job, sent, [event]);
    assert PushAll(PushAll(job, sent), [event]) == PushEvent(PushAll(job, sent), event);
    board.PushJobEvent(id, event);
  }

  /** The third pass: at most one stage event, and the summary that goes into the result. */
  method ProduceLlm(board: JobBoard<Event>, id: string, plan: Plan, ghost job: Job<Event>, ghost sent: seq<Event>)
    returns (thirdPass: Option<string>, ghost next: seq<Event>)
    requires board.Valid() && id in board.history && board.history[id] == PushAll(job, sent)
    modifies board
    ensures board.Valid() && board.history == old(board.history)[id := PushAll(job, next)]
    ensures next == sent + LlmEvents(plan)
    ensures thirdPass == if plan.thirdPass && plan.llm.Summary? then Some(plan.llm.text) else None
  {
    hide PushAll;
    thirdPass, next := None, sent;
    if plan.thirdPass {
      match plan.llm {
        case Summary(failed, text) =>
          next := Push(board, id, StageEvent("llm", if failed then "error" else "done", text), job, sent);
          thirdPass := Some(text);
        case LlmThrew(message) =>
          next := Push(board, id, StageEvent("llm", "error", message), job, sent);
      }
    } else {
      assert sent + [] == sent;
    }
  }

  /** The producer, run without interruption: it pushes exactly its emission. */
  method Produce(board: JobBoard<Event>, id: string, plan: Plan)
    requires board.Valid() && id in board.history
    modifies board
    ensures board.Valid()
    ensures board.history == old(board.history)[id := PushAll(old(board.history)[id], Emission(plan))]
  {
    ghost var history, job := board.history, board.history[id];
    assert PushAll(job, []) == job;
    hide *;
    ghost var first := Push(board, id, ProgressEvent("Parsing..."), job, []);
    assert first == [ProgressEvent("Parsing...")];
    ghost var most := ProduceBody(board, id, plan, job, first);
    UpdateTwice(history, id, PushAll(job, first), PushAll(job, most));
    ghost var sent := Push(board, id, DoneEvent, job, most);
    UpdateTwice(history, id, PushAll(job, most), PushAll(job, sent));
  }

  /** The `try` block with its `catch`. */
  method ProduceBody(board: JobBoard<Event>, id: string, plan: Plan, ghost job: Job<Event>, ghost sent: seq<Event>)
    returns (ghost next: seq<Event>)
    requires sent == [ProgressEvent("Parsing...")]
    requires board.Valid() && id in board.history && board.history[id] == PushAll(job, sent)
    modifies board
    ensures board.Valid() && board.history == old(board.history)[id := PushAll(job, next)]
    ensures next + [DoneEvent] == Emission(plan)
  {
    hide PushAll, LlmEvents, JobBoard.Valid;
    match plan.nlp {
      case NlpFailed(message) =>
        next := Push(board, id, ErrorEvent(message), job, sent);
      case Parsed(ownType, body) =>
        next := Push(board, id, StageEvent("nlp", "done", ""), job, sent);
        var thirdPass;
        thirdPass, next := ProduceLlm(board, id, plan, job, next);
        next := Push(board, id, ResultEvent(ownType, body, thirdPass), job, next);
    }
    assert next + [DoneEvent] == Emission(plan);
  }

  // ----- producer, consumer and timer, interleaved -----

  /** Where `streamGatewayJob` is: before a call, waiting for call `k`, or ended. */
  datatype Consumer = Calling | Awaiting(k: nat) | Closed

  datatype Frame = EventFrame(event: Event) | NotFoundFrame

  datatype System = System(job: Job<Event>, sent: nat, consumer: Consumer, written: seq<Frame>, expired: bool)

  datatype Action = ProducerStep | ConsumerCall | ConsumerResume | Expire

  function Start(): System { System(Created(), 0, Calling, [], false) }

  /** One atomic step of a producer that pushes `emission`, the consumer or the timer; an action
   that is not possible changes nothing. */
  function Step(emission: seq<Event>, s: System, a: Action): System {
    match a
    case ProducerStep =>
      if s.sent < |emission| then s.(job := PushEvent(s.job, emission[s.sent]), sent := s.sent + 1) else s
    case ConsumerCall =>
      if s.consumer == Calling then s.(job := NextEvent(s.job), consumer := Awaiting(s.job.calls)) else s
    case ConsumerResume =>
      if s.consumer.Awaiting? && s.consumer.k in s.job.outcome then
        match s.job.outcome[s.consumer.k]
        case None => System(CleanupJob(s.job), s.sent, Closed, s.written + [NotFoundFrame], s.expired)
        case Some(e) =>
          if Terminal(e) then System(CleanupJob(s.job), s.sent, Closed, s.written + [EventFrame(e)], s.expired)
          else s.(consumer := Calling, written := s.written + [EventFrame(e)])
      else s
    case Expire => s.(job := CleanupJob(s.job), expired := true)
  }

  function Run(emission: seq<Event>, actions: seq<Action>): System {
    if actions == [] then Start()
    else Step(emission, Run(emission, actions[..|actions| - 1]), actions[|actions| - 1])
  }

  /** The emission as frames. */
  function AsFrames(events: seq<Event>): seq<Frame> {
    seq(|events|, k requires 0 <= k < |events| => EventFrame(events[k]))
  }

  /** The part of an event list up to its first terminal event. */
  function UpToTerminal(events: seq<Event>): seq<Event> {
    if events == [] then []
    else if Terminal(events[0]) then [events[0]]
    else [events[0]] + UpToTerminal(events[1..])
  }

  ghost predicate NoTerminal(events: seq<Event>) { forall k :: 0 <= k < |events| ==> !Terminal(events[k]) }

  /** The number of event frames written. */
  function EventsWritten(s: System): nat {
    if s.written != [] && s.written[|s.written| - 1] == NotFoundFrame then |s.written| - 1 else |s.written|
  }

  /** How the job relates to the producer: it has what was sent while it lived. */
  ghost predicate Fed(emission: seq<Event>, s: System) {
    && s.sent <= |emission|
    && s.job.pushed <= emission
    && (s.job.live ==> |s.job.pushed| == s.sent)
    && (s.job.live <==> !s.expired && s.consumer != Closed)
  }

  /** How the consumer relates to the job: one call per frame, and one more while it waits. */
  ghost predicate Drained(s: System) {
    var n := EventsWritten(s);
    && n <= s.job.delivered && n <= |s.job.pushed|
    && s.written[..n] == AsFrames(s.job.pushed[..n])
    && (s.consumer != Closed ==> n == |s.written| && NoTerminal(s.job.pushed[..n]))
    && (s.consumer == Calling ==> s.job.calls == n)
    && (s.consumer.Awaiting? ==> s.consumer.k == n && s.job.calls == n + 1)
    && (s.consumer == Closed ==>
          || (n == |s.written| && n > 0 && Terminal(s.job.pushed[n - 1]) && NoTerminal(s.job.pushed[..n - 1]))
          || (s.expired && n == |s.written| - 1 && NoTerminal(s.job.pushed[..n])))
  }

  ghost predicate Inv(emission: seq<Event>, s: System) {
    Ordered(s.job) && Fed(emission, s) && Drained(s)
  }

  lemma StartInv(emission: seq<Event>)
    ensures Inv(emission, Start())
  {
    CreatedIsOrdered<Event>();
    hide Ordered;
    assert Start().written[..0] == AsFrames([]);
  }

  /** More pushed events do not change what was written. */
  lemma MorePushed(s: System, t: System)
    requires Drained(s) && t.written == s.written && t.consumer == s.consumer
    requires s.job.pushed <= t.job.pushed && s.job.delivered <= t.job.delivered && s.job.calls == t.job.calls
    requires s.expired ==> t.expired
    ensures Drained(t)
  {
    var n := EventsWritten(s);
    assert t.job.pushed[..n] == s.job.pushed[..n];
    assert n > 0 ==> t.job.pushed[..n - 1] == s.job.pushed[..n - 1];
  }

  lemma PushEffects(job: Job<Event>, e: Event)
    ensures var next := PushEvent(job, e);
      && next.live == job.live && next.calls == job.calls && next.delivered >= job.delivered
      && next.pushed == if job.live then job.pushed + [e] else job.pushed
  {}

  lemma ProducerKeeps(emission: seq<Event>, s: System)
    requires Inv(emission, s)
    ensures Inv(emission, Step(emission, s, ProducerStep))
  {
    hide Ordered, Drained, PushEvent;
    if s.sent < |emission| {
      PushKeepsOrder(s.job, emission[s.sent]);
      PushEffects(s.job, emission[s.sent]);
      MorePushed(s, Step(emission, s, ProducerStep));
    }
  }

  lemma ExpireKeeps(emission: seq<Event>, s: System)
    requires Inv(emission, s)
    ensures Inv(emission, Step(emission, s, Expire))
  {
    CleanupKeepsOrder(s.job);
    hide Ordered;
  }

  lemma CallKeeps(emission: seq<Event>, s: System)
    requires Inv(emission, s)
    ensures Inv(emission, Step(emission, s, ConsumerCall))
  {
    ApplyKeepsOrder(s.job, Next);
    hide Ordered;
  }

  /** What an answered call tells the consumer: the next pushed event, or that the job has expired. */
  lemma AnswerIsNext(emission: seq<Event>, s: System)
    requires Inv(emission, s) && s.consumer.Awaiting? && s.consumer.k in s.job.outcome
    ensures var n := |s.written|; s.consumer.k == n && match s.job.outcome[n]
      case Some(e) => n < s.job.delivered && e == s.job.pushed[n]
      case None => s.expired
  {}

  /** Writing the next event keeps consumer and job in step. */
  lemma WriteNext(s: System, t: System)
    requires Drained(s) && s.consumer.Awaiting?
    requires var n := |s.written|;
      n < s.job.delivered <= |s.job.pushed| && t.written == s.written + [EventFrame(s.job.pushed[n])]
    requires t.job.pushed == s.job.pushed && t.job.delivered == s.job.delivered && t.job.calls == s.job.calls
    requires t.consumer == if Terminal(s.job.pushed[|s.written|]) then Closed else Calling
    ensures Drained(t)
  {
    hide Terminal;
    var n := |s.written|;
    assert EventsWritten(t) == n + 1 && t.written[..n + 1] == t.written && s.written[..n] == s.written;
    assert s.job.pushed[..n + 1] == s.job.pushed[..n] + [s.job.pushed[n]];
    assert AsFrames(s.job.pushed[..n + 1]) == AsFrames(s.job.pushed[..n]) + [EventFrame(s.job.pushed[n])];
    hide AsFrames, EventsWritten;
  }

  lemma WriteNotFound(s: System, t: System)
    requires Drained(s) && s.consumer.Awaiting? && s.expired && t.expired
    requires t.written == s.written + [NotFoundFrame] && t.consumer == Closed
    requires t.job.pushed == s.job.pushed && t.job.delivered == s.job.delivered && t.job.calls == s.job.calls
    ensures Drained(t)
  {
    assert t.written[..|s.written|] == s.written == s.written[..|s.written|];
  }

  lemma ResumeKeeps(emission: seq<Event>, s: System)
    requires Inv(emission, s)
    ensures Inv(emission, Step(emission, s, ConsumerResume))
  {
    if s.consumer.Awaiting? && s.consumer.k in s.job.outcome {
      AnswerIsNext(emission, s);
      CleanupKeepsOrder(s.job);
      DeliveredIsPushed(s.job);
      var t := Step(emission, s, ConsumerResume);
      hide Ordered, Drained, EventsWritten;
      if s.job.outcome[|s.written|].Some? { WriteNext(s, t); } else { WriteNotFound(s, t); }
    }
  }

  lemma DeliveredIsPushed(job: Job<Event>)
    requires Ordered(job)
    ensures job.delivered <= |job.pushed|
  {}

  lemma {:induction false} RunKeeps(emission: seq<Event>, actions: seq<Action>)
    ensures Inv(emission, Run(emission, actions))
  {
    hide Inv, Step;
    if actions == [] {
      StartInv(emission);
    } else {
      RunKeeps(emission, actions[..|actions| - 1]);
      var s := Run(emission, actions[..|actions| - 1]);
      match actions[|actions| - 1]
      case ProducerStep => ProducerKeeps(emission, s);
      case ConsumerCall => CallKeeps(emission, s);
      case ConsumerResume => ResumeKeeps(emission, s);
      case Expire => ExpireKeeps(emission, s);
    }
  }

  // ----- what the consumer writes -----

  lemma {:induction false} FirstTerminal(events: seq<Event>, n: nat)
    requires 0 < n <= |events| && Terminal(events[n - 1]) && NoTerminal(events[..n - 1])
    ensures UpToTerminal(events) == events[..n]
  {
    if n == 1 {
      assert events[..1] == [events[0]];
    } else {
      TailTerminal(events, n);
      FirstTerminal(events[1..], n - 1);
      hide NoTerminal, Terminal;
      assert [events[0]] + events[1..][..n - 1] == events[..n];
    }
  }

  lemma TailTerminal(events: seq<Event>, n: nat)
    requires 1 < n <= |events| && NoTerminal(events[..n - 1])
    ensures !Terminal(events[0]) && events[1..][n - 2] == events[n - 1] && NoTerminal(events[1..][..n - 2])
  {
    hide Terminal;
    assert events[..n - 1][0] == events[0];
    var head, tail := events[..n - 1], events[1..][..n - 2];
    forall k | 0 <= k < |tail| ensures !Terminal(tail[k]) {
      assert tail[k] == head[k + 1];
    }
  }

  /**
   On a job that does not expire, whatever the interleaving: the consumer has written the first pushed
   events in order, none of them terminal while it goes on; when it ends it has written exactly the
   emission up to its first terminal event.
   */
  lemma WritesEmission(emission: seq<Event>, actions: seq<Action>)
    requires !Run(emission, actions).expired
    ensures var s := Run(emission, actions); var n := |s.written|;
      && n <= |emission| && s.written == AsFrames(emission[..n])
      && (s.consumer != Closed ==> NoTerminal(emission[..n]))
      && (s.consumer == Closed ==> s.written == AsFrames(UpToTerminal(emission)))
  {
    RunKeeps(emission, actions);
    hide Ordered;
    var s := Run(emission, actions);
    var n := |s.written|;
    assert s.written[..n] == s.written;
    assert s.job.pushed[..n] == emission[..n];
    if s.consumer == Closed {
      assert s.job.pushed[..n - 1] == emission[..n - 1];
      FirstTerminal(emission, n);
    }
  }

  /** On a job that expires the consumer still writes pushed events in order, and may end with not-found instead. */
  lemma ExpiryEndsStream(emission: seq<Event>, actions: seq<Action>)
    ensures var s := Run(emission, actions); var n := EventsWritten(s);
      && n <= |emission| && s.written[..n] == AsFrames(emission[..n])
      && (s.written == s.written[..n]
          || (s.written == s.written[..n] + [NotFoundFrame] && s.expired && s.consumer == Closed))
  {
    RunKeeps(emission, actions);
    hide Ordered;
    var s := Run(emission, actions);
    var n := EventsWritten(s);
    assert s.job.pushed[..n] == emission[..n];
  }

  /** When the timer fires the job is gone at once: a waiting call is answered, and nothing is queued any more. */
  lemma ExpiryAnswers(emission: seq<Event>, actions: seq<Action>)
    ensures var s, t := Run(emission, actions), Step(emission, Run(emission, actions), Expire);
      && t.expired && !t.job.live && t.job.queue == [] && t.sent == s.sent && t.written == s.written
      && t.consumer == s.consumer && (t.consumer.Awaiting? ==> t.consumer.k in t.job.outcome)
  {
    RunKeeps(emission, actions);
    hide Run;
    CleanupKeepsOrder(Run(emission, actions).job);
  }

  /** Once everything is sent the consumer is never left waiting: its call is answered. */
  lemma ConsumerNeverStarves(emission: seq<Event>, actions: seq<Action>)
    requires emission != [] && Terminal(emission[|emission| - 1])
    requires Run(emission, actions).sent == |emission| && Run(emission, actions).consumer.Awaiting?
    ensures Run(emission, actions).consumer.k in Run(emission, actions).job.outcome
  {
    RunKeeps(emission, actions);
    var s := Run(emission, actions);
    var n := |s.written|;
    forall k | 0 <= k < n ensures !Terminal(s.job.pushed[k]) {
      assert s.job.pushed[..n][k] == s.job.pushed[k];
    }
    assert s.job.live ==> s.job.pushed == emission && n < |s.job.pushed|;
  }

  /** What a stream ends with: its done, unless the payload's own `type` field makes the result itself terminal. */
  ghost predicate IsEnd(plan: Plan, end: seq<Event>) {
    if plan.nlp.Parsed? && (plan.nlp.ownType == Some("done") || plan.nlp.ownType == Some("error")) then end == []
    else end == [DoneEvent]
  }

  /**
   The stream's grammar: progress and error when the NLP call fails; else progress, the nlp stage, exactly one llm
   stage when a third pass is asked for, the result, and then done. The llm stage says done exactly when a summary
   came that is no failure; a failed one and a call that threw say error with their text, and only a summary is
   passed on with the result. The done is missing exactly when the payload's own `type` makes the result terminal.
   */
  lemma StreamGrammar(plan: Plan, end: seq<Event>)
    requires IsEnd(plan, end)
    ensures plan.nlp.NlpFailed? ==>
      UpToTerminal(Emission(plan)) == [ProgressEvent("Parsing..."), ErrorEvent(plan.nlp.message)]
    ensures plan.nlp.Parsed? && !plan.thirdPass ==>
      UpToTerminal(Emission(plan))
      == [ProgressEvent("Parsing..."), StageEvent("nlp", "done", ""),
          ResultEvent(plan.nlp.ownType, plan.nlp.body, None)] + end
    ensures plan.nlp.Parsed? && plan.thirdPass && plan.llm.Summary? && !plan.llm.failed ==>
      UpToTerminal(Emission(plan))
      == [ProgressEvent("Parsing..."), StageEvent("nlp", "done", ""), StageEvent("llm", "done", plan.llm.text),
          ResultEvent(plan.nlp.ownType, plan.nlp.body, Some(plan.llm.text))] + end
    ensures plan.nlp.Parsed? && plan.thirdPass && plan.llm.Summary? && plan.llm.failed ==>
      UpToTerminal(Emission(plan))
      == [ProgressEvent("Parsing..."), StageEvent("nlp", "done", ""), StageEvent("llm", "error", plan.llm.text),
          ResultEvent(plan.nlp.ownType, plan.nlp.body, Some(plan.llm.text))] + end
    ensures plan.nlp.Parsed? && plan.thirdPass && plan.llm.LlmThrew? ==>
      UpToTerminal(Emission(plan))
      == [ProgressEvent("Parsing..."), StageEvent("nlp", "done", ""), StageEvent("llm", "error", plan.llm.message),
          ResultEvent(plan.nlp.ownType, plan.nlp.body, None)] + end
    ensures Emission(plan)[|Emission(plan)| - 1] == DoneEvent
  {
    hide UpToTerminal;
    var e := Emission(plan);
    var n := if plan.nlp.NlpFailed? then 2 else |e| - 1 + |end|;
    EmissionIs(plan);
    hide Emission;
    FirstTerminal(e, n);
    assert e[..|e|] == e;
  }

  lemma EmissionIs(plan: Plan)
    ensures plan.nlp.NlpFailed? ==>
      Emission(plan) == [ProgressEvent("Parsing..."), ErrorEvent(plan.nlp.message), DoneEvent]
    ensures plan.nlp.Parsed? && !plan.thirdPass ==>
      Emission(plan) == [ProgressEvent("Parsing..."), StageEvent("nlp", "done", ""),
                         ResultEvent(plan.nlp.ownType, plan.nlp.body, None), DoneEvent]
    ensures plan.nlp.Parsed? && plan.thirdPass ==>
      var (status, text) := match plan.llm
        case Summary(failed, text) => (if failed then "error" else "done", text)
        case LlmThrew(message) => ("error", message);
      Emission(plan)
      == [ProgressEvent("Parsing..."), StageEvent("nlp", "done", ""), StageEvent("llm", status, text),
          ResultEvent(plan.nlp.ownType, plan.nlp.body, if plan.llm.Summary? then Some(plan.llm.text) else None),
          DoneEvent]
  {}

  // ----- what the client reads -----

  const NOT_FOUND := "{\"type\":\"error\",\"message\":\"Job not found\"}"

  function FrameJson(codec: SseFrames.Codec<Event>, frame: Frame): string {
    match frame
    case EventFrame(e) => codec.print_(e)
    case NotFoundFrame => NOT_FOUND
  }

  function FrameJsons(codec: SseFrames.Codec<Event>, frames: seq<Frame>): seq<string> {
    seq(|frames|, k requires 0 <= k < |frames| => FrameJson(codec, frames[k]))
  }

  /** What a frame says to the client. */
  function FrameEvent(frame: Frame): Event {
    match frame
    case EventFrame(e) => e
    case NotFoundFrame => ErrorEvent("Job not found")
  }

  function FrameEventList(frames: seq<Frame>): seq<Event> {
    seq(|frames|, k requires 0 <= k < |frames| => FrameEvent(frames[k]))
  }

  /** The client reads exactly the written frames, however the bytes are cut into chunks. */
  lemma ClientReadsFrames(codec: SseFrames.Codec<Event>, frames: seq<Frame>, chunks: seq<string>)
    requires SseFrames.Lawful(codec) && codec.parse(NOT_FOUND) == Some(ErrorEvent("Job not found"))
    requires SseFrames.Concat(chunks) == SseFrames.Frames(FrameJsons(codec, frames))
    ensures SseFrames.EventsOf(codec, SseFrames.Concat(chunks)) == FrameEventList(frames)
  {
    NotFoundIsPlain();
    SseFrames.FramesRoundTrip(codec, FrameJsons(codec, frames), FrameEventList(frames));
  }

  lemma NotFoundIsPlain()
    ensures SseFrames.IsPlainLine(NOT_FOUND)
  {}

  /**
   End to end: for every plan, every interleaving without expiry and every chunking, the client of an ended
   stream reads exactly the emission up to its first terminal event.
   */
  lemma ClientReadsEmission(plan: Plan, actions: seq<Action>, codec: SseFrames.Codec<Event>, chunks: seq<string>)
    requires SseFrames.Lawful(codec) && codec.parse(NOT_FOUND) == Some(ErrorEvent("Job not found"))
    requires !Run(Emission(plan), actions).expired && Run(Emission(plan), actions).consumer == Closed
    requires SseFrames.Concat(chunks) == SseFrames.Frames(FrameJsons(codec, Run(Emission(plan), actions).written))
    ensures SseFrames.EventsOf(codec, SseFrames.Concat(chunks)) == UpToTerminal(Emission(plan))
  {
    hide Run, Emission;
    WritesEmission(Emission(plan), actions);
    ClientReadsFrames(codec, Run(Emission(plan), actions).written, chunks);
    assert FrameEventList(AsFrames(UpToTerminal(Emission(plan)))) == UpToTerminal(Emission(plan));
  }
}
