/**
 * Properties of whole runs of the service: any interleaving of uploads, worker
 * iterations and task completions, as the event loop may schedule them.
 */
module JobLifecycle {
  import opened Wrappers
  import opened Services

  /** One atomic step between two suspension points of the event loop. */
  datatype Event =
    | Uploaded(id: string)                    // `handle_upload` with a fresh uuid
    | Dispatched                              // one iteration of `_process_queue`
    | Finished(id: string, succeeded: bool)   // a `_process_image` task ends

  /**
   * Whether the event can happen in this state: uuid4 hands out unknown ids,
   * the worker only proceeds when the queue holds an id, and only a registered
   * task can finish.
   */
  predicate Enabled(s: Jobs, e: Event)
  {
    match e
    case Uploaded(id) => Fresh(s, id)
    case Dispatched => s.queue != []
    case Finished(id, _) => id in s.tasks
  }

  /** The effect of one event; an event that cannot happen leaves the state as it is. */
  function Step(s: Jobs, e: Event): (r: Jobs)
    ensures !Enabled(s, e) ==> r == s
    ensures Consistent(s) ==> Consistent(r)
  {
    if !Enabled(s, e) then s
    else match e
      case Uploaded(id) => Upload(s, id)
      case Dispatched => DispatchHead(s)
      case Finished(id, succeeded) => Complete(s, id, succeeded)
  }

  function Run(s: Jobs, events: seq<Event>): Jobs
    decreases |events|
  {
    if events == [] then s else Run(Step(s, events[0]), events[1..])
  }

  /** The id one event puts on the queue, if any. */
  function EnqueuedBy(s: Jobs, e: Event): seq<string>
  {
    if e.Uploaded? && Enabled(s, e) then [e.id] else []
  }

  /** The id one event takes off the queue, if any. */
  function TakenBy(s: Jobs, e: Event): seq<string>
  {
    if e.Dispatched? && Enabled(s, e) then [s.queue[0]] else []
  }

  /** The ids enqueued during a run, in upload order. */
  function Uploads(s: Jobs, events: seq<Event>): seq<string>
    decreases |events|
  {
    if events == [] then [] else EnqueuedBy(s, events[0]) + Uploads(Step(s, events[0]), events[1..])
  }

  /** The ids the worker takes off the queue during a run, in the order it takes them. */
  function Dispatches(s: Jobs, events: seq<Event>): seq<string>
    decreases |events|
  {
    if events == [] then [] else TakenBy(s, events[0]) + Dispatches(Step(s, events[0]), events[1..])
  }

  lemma {:induction false} RunKeepsConsistency(s: Jobs, events: seq<Event>)
    requires Consistent(s)
    ensures Consistent(Run(s, events))
    decreases |events|
  {
    if events != [] {
      RunKeepsConsistency(Step(s, events[0]), events[1..]);
    }
  }

  /** A single step appends at the tail and removes at the head. */
  lemma StepIsFifo(s: Jobs, e: Event)
    ensures s.queue + EnqueuedBy(s, e) == TakenBy(s, e) + Step(s, e).queue
  {
    if e.Dispatched? && Enabled(s, e) {
      assert s.queue == [s.queue[0]] + s.queue[1..];
    }
  }

  lemma SeqShuffle<T>(q: seq<T>, en: seq<T>, u: seq<T>, tk: seq<T>, q1: seq<T>, d: seq<T>, qn: seq<T>)
    requires q + en == tk + q1 && q1 + u == d + qn
    ensures q + (en + u) == (tk + d) + qn
  {
    calc {
      q + (en + u);
      (q + en) + u;
      (tk + q1) + u;
      tk + (q1 + u);
      tk + (d + qn);
    }
  }

  /**
   * FIFO: what was waiting plus what was uploaded is exactly what the worker
   * took, in the same order, followed by what is still waiting.
   */
  lemma {:induction false} DispatchIsFifo(s: Jobs, events: seq<Event>)
    ensures s.queue + Uploads(s, events) == Dispatches(s, events) + Run(s, events).queue
    decreases |events|
  {
    if events != [] {
      var e, rest := events[0], events[1..];
      var t := Step(s, e);
      DispatchIsFifo(t, rest);
      StepIsFifo(s, e);
      var q, en, u, tk, q1, d, qn := s.queue, EnqueuedBy(s, e), Uploads(t, rest), TakenBy(s, e), t.queue, Dispatches(t, rest), Run(t, rest).queue;
      assert Uploads(s, events) == en + u;
      assert Dispatches(s, events) == tk + d;
      assert Run(s, events).queue == qn;
      SeqShuffle(q, en, u, tk, q1, d, qn);
    }
  }

  /** The service has seen the id: it waits, is in flight, or is finished. */
  predicate Known(s: Jobs, id: string)
  {
    id in s.queue || id in s.tasks || id in s.processed
  }

  /**
   * An id the service never handed out stays unknown: after any run that did
   * not upload it, both queries fail with their not-found messages.
   */
  lemma {:induction false} NeverIssuedIsNotFound(s: Jobs, events: seq<Event>, id: string)
    requires !Known(s, id) && id !in Uploads(s, events)
    ensures StatusOf(Run(s, events), id) == Failure(ImageNotFound(StatusNotFoundMessage))
    ensures ResultOf(Run(s, events), id) == Failure(ImageNotFound(ResultNotFoundMessage))
    decreases |events|
  {
    if events != [] {
      var t := Step(s, events[0]);
      assert id !in EnqueuedBy(s, events[0]);
      assert !Known(t, id);
      NeverIssuedIsNotFound(t, events[1..], id);
    }
  }

  /** No step removes a finished job: once "processed", always "processed", with the same path. */
  lemma {:induction false} ProcessedIsPermanent(s: Jobs, events: seq<Event>, id: string)
    requires Consistent(s) && id in s.processed
    ensures StatusOf(Run(s, events), id) == Success(Processed)
    ensures ResultOf(Run(s, events), id) == ResultOf(s, id)
    decreases |events|
  {
    if events != [] {
      var t := Step(s, events[0]);
      assert id in t.processed && t.processed[id] == s.processed[id];
      ProcessedIsPermanent(t, events[1..], id);
    }
  }

  /**
   * The in-flight entry is only ever removed by the end of the job's own task:
   * until that task finishes, the job reads as "processing".
   */
  lemma {:induction false} ProcessingUntilFinished(s: Jobs, events: seq<Event>, id: string)
    requires id in s.tasks && id !in s.processed
    requires forall k :: 0 <= k < |events| ==> !(events[k].Finished? && events[k].id == id)
    ensures StatusOf(Run(s, events), id) == Success(Processing)
    decreases |events|
  {
    if events != [] {
      var t := Step(s, events[0]);
      assert id in t.tasks && id !in t.processed;
      ProcessingUntilFinished(t, events[1..], id);
    }
  }

  /**
   * How one step can change what `check_status` reports: "processed" is final;
   * "processing" ends only with the job's own task; a not-found id becomes
   * "processing" only when the worker takes it off the queue.
   */
  lemma StatusTransitions(s: Jobs, e: Event, id: string)
    requires Consistent(s)
    ensures StatusOf(s, id) == Success(Processed) ==> StatusOf(Step(s, e), id) == Success(Processed)
    ensures StatusOf(s, id) == Success(Processing) && StatusOf(Step(s, e), id) != Success(Processing) ==>
              e == Finished(id, StatusOf(Step(s, e), id) == Success(Processed))
    ensures StatusOf(s, id).Failure? && StatusOf(Step(s, e), id).Success? ==>
              e == Dispatched && s.queue[0] == id && StatusOf(Step(s, e), id) == Success(Processing)
  {
  }

  /** A job that fails reads as not found from then on, like an id never uploaded. */
  lemma FailedJobIsNotFound(s: Jobs, id: string)
    requires Consistent(s) && id in s.tasks
    ensures StatusOf(Step(s, Finished(id, false)), id) == Failure(ImageNotFound(StatusNotFoundMessage))
    ensures ResultOf(Step(s, Finished(id, false)), id) == Failure(ImageNotFound(ResultNotFoundMessage))
    ensures id !in Step(s, Finished(id, false)).tasks
  {
  }
}
