/**
 * Job bookkeeping of the detector service: a FIFO of job ids waiting for the
 * worker, the map of jobs whose processing task is in flight, and the map of
 * finished jobs to the path of their annotated image.
 *
 * The pure functions over `Jobs` specify each step; the class
 * `DetectorService` holds the same three pieces of state as fields and its
 * methods are proved to perform exactly those steps.
 */
module Services {
  import opened Wrappers

  /** The folder uploads and results are written to. */
  const TempImageFolder: string := "temp"

  /** Length of a job id produced by `str(uuid.uuid4())`. */
  const UuidLength: nat := 36

  const StatusNotFoundMessage: string := "Image not found."
  const ResultNotFoundMessage: string := "Image not processed or not found."

  /** Where an upload is saved and where the worker later reads it from. */
  function InputPath(id: string): (p: string)
    ensures |p| == |TempImageFolder| + 1 + |id| + |".jpg"|
  {
    TempImageFolder + "/" + id + ".jpg"
  }

  /** The input path is the folder, a separator, the id itself and the extension, in that order. */
  lemma InputPathShape(id: string)
    ensures InputPath(id)[..5] == TempImageFolder + "/"
    ensures InputPath(id)[5..5 + |id|] == id
    ensures InputPath(id)[5 + |id|..] == ".jpg"
  {
  }

  /** Where the annotated image of a successfully processed job is saved. */
  function OutputPath(id: string): (p: string)
    ensures p != InputPath(id)
    ensures |p| == |InputPath(id)| + |"processed_"|
  {
    TempImageFolder + "/processed_" + id + ".jpg"
  }

  /** Distinct jobs never share an input file. */
  lemma InputPathIsInjective(a: string, b: string)
    requires InputPath(a) == InputPath(b)
    ensures a == b
  {
    assert a == InputPath(a)[5..5 + |a|];
    assert b == InputPath(b)[5..5 + |b|];
  }

  /** Distinct jobs never share an output file. */
  lemma OutputPathIsInjective(a: string, b: string)
    requires OutputPath(a) == OutputPath(b)
    ensures a == b
  {
    assert a == OutputPath(a)[15..15 + |a|];
    assert b == OutputPath(b)[15..15 + |b|];
  }

  /** Ids of uuid4 shape never make one job's input file another job's output file. */
  lemma UuidPathsNeverShared(a: string, b: string)
    requires |a| == UuidLength && |b| == UuidLength
    ensures InputPath(a) != OutputPath(b)
  {
  }

  /** The shape matters: an arbitrary id could name another job's output file. */
  lemma ArbitraryIdsCanShareAPath()
    ensures InputPath("processed_x") == OutputPath("x")
  {
  }

  /** A task in `processing_tasks`: `_process_image` started with these arguments. */
  datatype Task = Task(uuid: string, inputPath: string)

  /** The service's bookkeeping state. */
  datatype Jobs = Jobs(queue: seq<string>, tasks: map<string, Task>, processed: map<string, string>)

  /** The answer of a status query that did not raise. */
  datatype Status = Processed | Processing

  /** `ImageNotFoundException` with its message. */
  datatype Error = ImageNotFound(message: string)

  /** The value `handle_upload` returns: `{"uuid": id, "status": "queued"}`. */
  datatype UploadResponse = UploadResponse(uuid: string, status: string)

  /** The id is unknown to the service: it is what `uuid4` hands out. */
  predicate Fresh(s: Jobs, id: string)
  {
    id !in s.queue && id !in s.tasks && id !in s.processed
  }

  /**
   * The invariant the steps keep: no id waits twice, an id is in at most one of
   * queue, in-flight map and completed map, every task was started on the id's
   * own input file and every result names the id's own output file.
   */
  predicate Consistent(s: Jobs)
  {
    && (forall i, j :: 0 <= i < j < |s.queue| ==> s.queue[i] != s.queue[j])
    && (forall id :: id in s.queue ==> id !in s.tasks && id !in s.processed)
    && (forall id :: id in s.tasks ==> id !in s.processed && s.tasks[id] == Task(id, InputPath(id)))
    && (forall id :: id in s.processed ==> s.processed[id] == OutputPath(id))
  }

  /** The state `__init__` sets up. */
  const Initial: Jobs := Jobs([], map[], map[])

  lemma InitialIsConsistent()
    ensures Consistent(Initial)
  {
  }

  /** `check_status`: a finished job wins over an in-flight one; anything else is not found. */
  function StatusOf(s: Jobs, id: string): (r: Result<Status, Error>)
    ensures r == Success(Processed) <==> id in s.processed
    ensures r == Success(Processing) <==> id !in s.processed && id in s.tasks
    ensures r.Failure? <==> id !in s.processed && id !in s.tasks
    ensures r.Failure? ==> r.error == ImageNotFound(StatusNotFoundMessage)
    ensures Consistent(s) && id in s.queue ==> r == Failure(ImageNotFound(StatusNotFoundMessage))
  {
    if id in s.processed then Success(Processed)
    else if id in s.tasks then Success(Processing)
    else Failure(ImageNotFound(StatusNotFoundMessage))
  }

  /** `get_result`: the recorded output path of a finished job, not found otherwise. */
  function ResultOf(s: Jobs, id: string): (r: Result<string, Error>)
    ensures r.Success? <==> id in s.processed
    ensures r.Success? ==> r.value == s.processed[id]
    ensures r.Failure? ==> r.error == ImageNotFound(ResultNotFoundMessage)
    ensures Consistent(s) && r.Success? ==> r.value == OutputPath(id)
    ensures r.Success? <==> StatusOf(s, id) == Success(Processed)
  {
    if id !in s.processed then Failure(ImageNotFound(ResultNotFoundMessage))
    else Success(s.processed[id])
  }

  /** `handle_upload`: the fresh id joins the tail of the queue. */
  function Upload(s: Jobs, id: string): (r: Jobs)
    requires Fresh(s, id)
    ensures |r.queue| == |s.queue| + 1 && r.queue[|s.queue|] == id && r.queue[..|s.queue|] == s.queue
    ensures r.tasks == s.tasks && r.processed == s.processed
    ensures forall x :: StatusOf(r, x) == StatusOf(s, x) && ResultOf(r, x) == ResultOf(s, x)
    ensures Consistent(s) ==> Consistent(r)
  {
    Jobs(s.queue + [id], s.tasks, s.processed)
  }

  /**
   * One iteration of `_process_queue`: the head of the queue is taken and a task
   * for it is registered. On an empty queue the worker waits and nothing changes.
   */
  function DispatchHead(s: Jobs): (r: Jobs)
    ensures s.queue == [] ==> r == s
    ensures s.queue != [] ==>
              && r.queue == s.queue[1..]
              && r.tasks.Keys == s.tasks.Keys + {s.queue[0]}
              && r.tasks[s.queue[0]] == Task(s.queue[0], InputPath(s.queue[0]))
              && (forall x :: x in s.tasks && x != s.queue[0] ==> r.tasks[x] == s.tasks[x])
              && r.processed == s.processed
    ensures Consistent(s) ==> Consistent(r)
    ensures Consistent(s) && s.queue != [] ==> StatusOf(r, s.queue[0]) == Success(Processing)
  {
    if s.queue == [] then s
    else
      var id := s.queue[0];
      Jobs(s.queue[1..], s.tasks[id := Task(id, InputPath(id))], s.processed)
  }

  /**
   * `_process_image` finishing: on success the output path is recorded; on
   * success and failure alike the id leaves the in-flight map.
   */
  function Complete(s: Jobs, id: string, succeeded: bool): (r: Jobs)
    ensures id !in r.tasks
    ensures r.queue == s.queue
    ensures forall x :: x != id ==> (x in r.tasks <==> x in s.tasks)
    ensures forall x :: x in r.tasks ==> r.tasks[x] == s.tasks[x]
    ensures succeeded ==> r.processed.Keys == s.processed.Keys + {id} && r.processed[id] == OutputPath(id)
    ensures forall x :: x in s.processed && x != id ==> x in r.processed && r.processed[x] == s.processed[x]
    ensures !succeeded ==> r.processed == s.processed
    ensures Consistent(s) && id in s.tasks ==> Consistent(r)
    ensures Consistent(s) && id in s.tasks ==>
              StatusOf(r, id) == if succeeded then Success(Processed) else Failure(ImageNotFound(StatusNotFoundMessage))
  {
    var processed := if succeeded then s.processed[id := OutputPath(id)] else s.processed;
    Jobs(s.queue, s.tasks - {id}, processed)
  }

  /** The tasks `_process_queue` registers for the ids it takes, in that order. */
  function Registered(ids: seq<string>): map<string, Task>
  {
    map id | id in ids :: Task(id, InputPath(id))
  }

  /** Updating a union at a key is the union with the second map updated there. */
  lemma UpdateAfterUnion<K, V>(m: map<K, V>, r: map<K, V>, k: K, v: V)
    ensures (m + r)[k := v] == m + r[k := v]
  {
  }

  /** Taking one more id registers one more task on that id's input path. */
  lemma RegisteredSnoc(ids: seq<string>, id: string)
    ensures Registered(ids + [id]) == Registered(ids)[id := Task(id, InputPath(id))]
  {
    assert forall x :: x in ids + [id] <==> x in ids || x == id;
  }

  /** The service object: the same three fields, updated in place. */
  class DetectorService {
    const detectorModelPath: string
    var processingQueue: seq<string>
    var processingTasks: map<string, Task>
    var processedImages: map<string, string>

    /** The bookkeeping state held by the fields. */
    function State(): Jobs
      reads this
    {
      Jobs(processingQueue, processingTasks, processedImages)
    }

    constructor (detectorModelPath: string)
      ensures this.detectorModelPath == detectorModelPath
      ensures State() == Initial && Consistent(State())
    {
      this.detectorModelPath := detectorModelPath;
      processingQueue := [];
      processingTasks := map[];
      processedImages := map[];
    }

    /** Saves the upload under `InputPath(id)` (not modelled) and enqueues the id. */
    method HandleUpload(id: string) returns (response: UploadResponse)
      requires Fresh(State(), id)
      modifies this
      ensures State() == Upload(old(State()), id)
      ensures Consistent(old(State())) ==> Consistent(State())
      ensures response == UploadResponse(id, "queued")
    {
      processingQueue := processingQueue + [id];
      response := UploadResponse(id, "queued");
    }

    method CheckStatus(id: string) returns (r: Result<Status, Error>)
      ensures r == StatusOf(State(), id)
    {
      if id in processedImages {
        r := Success(Processed);
      } else if id in processingTasks {
        r := Success(Processing);
      } else {
        r := Failure(ImageNotFound(StatusNotFoundMessage));
      }
    }

    method GetResult(id: string) returns (r: Result<string, Error>)
      ensures r == ResultOf(State(), id)
    {
      if id !in processedImages {
        return Failure(ImageNotFound(ResultNotFoundMessage));
      }
      var filePath := processedImages[id];
      r := Success(filePath);
    }

    /** One iteration of the worker loop; `None` when it would wait on an empty queue. */
    method ProcessQueueStep() returns (taken: Option<string>)
      modifies this
      ensures State() == DispatchHead(old(State()))
      ensures Consistent(old(State())) ==> Consistent(State())
      ensures taken == if old(processingQueue) == [] then None else Some(old(processingQueue)[0])
    {
      if processingQueue == [] {
        return None;
      }
      var id := processingQueue[0];
      processingQueue := processingQueue[1..];
      var inputPath := InputPath(id);
      processingTasks := processingTasks[id := Task(id, inputPath)];
      taken := Some(id);
    }

    /** The worker loop, run until it blocks on an empty queue. */
    method ProcessQueue()
      modifies this
      ensures processingQueue == []
      ensures processingTasks == old(processingTasks) + Registered(old(processingQueue))
      ensures processedImages == old(processedImages)
      ensures Consistent(old(State())) ==> Consistent(State())
    {
      ghost var waiting := processingQueue;
      ghost var n := 0;
      while processingQueue != []
        invariant n <= |waiting| && processingQueue == waiting[n..]
        invariant processingTasks == old(processingTasks) + Registered(waiting[..n])
        invariant processedImages == old(processedImages)
        invariant Consistent(old(State())) ==> Consistent(State())
        decreases |processingQueue|
      {
        ghost var before := State();
        var id := processingQueue[0];
        processingQueue := processingQueue[1..];
        processingTasks := processingTasks[id := Task(id, InputPath(id))];
        assert waiting[..n + 1] == waiting[..n] + [id];
        RegisteredSnoc(waiting[..n], id);
        assert State() == DispatchHead(before);
        UpdateAfterUnion(old(processingTasks), Registered(waiting[..n]), id, Task(id, InputPath(id)));
        n := n + 1;
      }
      assert waiting[..n] == waiting;
    }

    /**
     * The end of `_process_image`: `succeeded` is whether detection, rendering
     * and saving all returned normally. The task only exists for an id the
     * worker registered.
     */
    method ProcessImage(id: string, succeeded: bool)
      requires id in processingTasks
      modifies this
      ensures State() == Complete(old(State()), id, succeeded)
      ensures Consistent(old(State())) ==> Consistent(State())
    {
      if succeeded {
        var outputPath := OutputPath(id);
        processedImages := processedImages[id := outputPath];
      }
      // the `finally` block: `processing_tasks.pop(image_uuid, None)`
      processingTasks := processingTasks - {id};
    }
  }
}
