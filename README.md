# Meter-reading service: job bookkeeping and CTC read-out clean-up

This project models, in Dafny, the two parts of the meter-reading service that
are not neural-network code:

- **The detector service's job bookkeeping.** `DetectorService` keeps a FIFO of
  uploaded job ids, a map of jobs whose processing task is in flight, and a map
  of finished jobs to the path of their annotated image. Uploads push onto the
  queue. A background worker takes the head and registers a task for it. The
  task records the output path if processing succeeded, and always drops the
  job from the in-flight map. Clients poll `check_status` and fetch
  `get_result`.
- **The CTC decoder's post-processing.** For each batch item, every beam-search
  hypothesis's token ids become characters. Each text is stripped. Texts that
  are empty or exactly the blank `-` are dropped. The rest are joined. Spaces
  are deleted and the decimal comma becomes a point. A missing or empty search
  result gives no readings.

Files:

- `wrappers.dfy`: `Option` and `Result`.
- `detector_service.dfy` (module `Services`): the state as a datatype `Jobs`,
  one pure function per step (`Upload`, `DispatchHead`, `Complete`) and per
  query (`StatusOf`, `ResultOf`), and the class `DetectorService`. The class
  has the source's three fields and its methods are proved to perform exactly
  those steps.
- `job_lifecycle.dfy` (module `JobLifecycle`): whole runs. A run is any
  interleaving of uploads, worker iterations and task completions, as the event
  loop may schedule them. It proves FIFO dispatch, that finished jobs stay
  finished, that in-flight jobs stay in flight until their own task ends, and
  that the invariant `Consistent` holds throughout.
- `decoder.dfy` (module `Decoder`): Python's `strip`, one-character `replace` and
  `join` on strings, the per-item clean-up, the class `CTCDecoder` with its `Decode`
  loop, and the concrete vocabulary `" 0123456789.,"`.

Behaviour worth knowing, all proved:

- `check_status` answers "processed" before "processing". An id still waiting
  in the queue is reported as not found, the same as an id never uploaded.
  So is a job whose processing failed (`StatusOf`, `FailedJobIsNotFound`), and
  an id that was never uploaded, after any run (`NeverIssuedIsNotFound`).
- Only whole fragments that are exactly `-` after stripping are dropped. A `-`
  inside a longer fragment (`"1-2"`, `"--"`) reaches the reading
  (`InnerBlankIsKept`).
- Paths are `temp/{id}.jpg` and `temp/processed_{id}.jpg`. Each is injective in
  the id. For ids of uuid4 length, no input path equals any output path. For
  arbitrary ids they can collide: the id `processed_x` has the input path that
  is the output path of `x` (`ArbitraryIdsCanShareAPath`).

## Model

| member | source | states |
|---|---|---|
| `Services.InputPath` | services/detector_service.py:43 | the upload's path is exactly as long as the folder, a separator, the id and `.jpg` together; line 72 rebuilds the same path |
| `Services.InputPathShape` | services/detector_service.py:43 | the upload is saved at `temp/{id}.jpg`: the folder and separator, then the id itself, then the extension |
| `Services.OutputPath` | services/detector_service.py:88 | the output path `temp/processed_{id}.jpg` always differs from the same job's input path |
| `Services.InputPathIsInjective` | services/detector_service.py:43 | two ids with the same input path `temp/{id}.jpg` are the same id |
| `Services.OutputPathIsInjective` | services/detector_service.py:88 | two ids with the same output path are the same id |
| `Services.UuidPathsNeverShared` | services/detector_service.py:40-43 | for 36-character uuid4 ids, no job's input path is another job's output path |
| `Services.ArbitraryIdsCanShareAPath` | services/detector_service.py:43 | without the uuid shape, the input path of `processed_x` is the output path of `x` |
| `Services.InitialIsConsistent` | services/detector_service.py:16-22 | the empty queue and maps that `__init__` creates satisfy the bookkeeping invariant |
| `Services.StatusOf` | services/detector_service.py:53-59 | "processed" iff the id is in the completed map, which takes precedence; "processing" iff only in the in-flight map; otherwise ImageNotFound("Image not found."), which includes every id still waiting in the queue |
| `Services.ResultOf` | services/detector_service.py:61-66 | returns the recorded path exactly when the id is in the completed map, which is the case exactly when the status is "processed"; that path is the id's output path; otherwise ImageNotFound("Image not processed or not found.") |
| `Services.Upload` | services/detector_service.py:38-51 | the fresh id becomes the new tail of the queue and the earlier queue is unchanged; both maps, and so every status and result, are unchanged; the invariant is kept |
| `Services.DispatchHead` | services/detector_service.py:69-78 | removes exactly the head of the queue and registers a task for it, on its input path `temp/{id}.jpg`; other tasks and the completed map are unchanged; the head then reads "processing"; on an empty queue nothing changes; the invariant is kept |
| `Services.Complete` | services/detector_service.py:81-98 | afterwards the id is not in the in-flight map, whether processing succeeded or failed; on success its output path is recorded and other results are kept; on failure the completed map is unchanged and the id reads as not found; the invariant is kept |
| `Services.DetectorService.constructor` | services/detector_service.py:16-22 | fields start as an empty queue and two empty maps, and the model path is stored |
| `Services.DetectorService.HandleUpload` | services/detector_service.py:38-51 | the new field state is `Upload` of the old one; returns `{"uuid": id, "status": "queued"}`; keeps `Consistent` |
| `Services.DetectorService.CheckStatus` | services/detector_service.py:53-59 | returns `StatusOf` of the current fields and changes nothing |
| `Services.DetectorService.GetResult` | services/detector_service.py:61-66 | returns `ResultOf` of the current fields and changes nothing |
| `Services.DetectorService.ProcessQueueStep` | services/detector_service.py:70-78 | the new field state is `DispatchHead` of the old one; returns the id taken, or nothing when the worker would wait; keeps `Consistent` |
| `Services.DetectorService.ProcessQueue` | services/detector_service.py:69-78 | the worker loop, run until it would block: the queue ends empty; every id that was waiting now has a task on its input path; the completed map is untouched; `Consistent` is kept |
| `Services.DetectorService.ProcessImage` | services/detector_service.py:75-98 | for an id with a registered task, the new field state is `Complete` of the old one, for the given success outcome; keeps `Consistent` |
| `JobLifecycle.Step` | services/detector_service.py:38-98 | every schedulable step keeps the bookkeeping invariant; a step that cannot occur changes nothing |
| `JobLifecycle.RunKeepsConsistency` | services/detector_service.py:19-21 | after any run from a consistent state: no id waits twice, the queue and the two maps are disjoint, tasks and results carry the id's own paths |
| `JobLifecycle.StepIsFifo` | services/detector_service.py:49 | one step adds at the tail of the queue and removes at its head only |
| `JobLifecycle.DispatchIsFifo` | services/detector_service.py:49-71 | over any run, the ids the worker takes, followed by those still waiting, are exactly the ids that were waiting, followed by those uploaded, in order |
| `JobLifecycle.ProcessedIsPermanent` | services/detector_service.py:92 | once an id reads "processed", it does so after any later run, and `get_result` returns the same path |
| `JobLifecycle.ProcessingUntilFinished` | services/detector_service.py:76-98 | an in-flight job reads "processing" until its own task finishes; nothing else removes it from the in-flight map |
| `JobLifecycle.StatusTransitions` | services/detector_service.py:53-59 | in one step: "processed" stays "processed"; "processing" ends only by the job's own completion, into "processed" on success and not found on failure; not found becomes a success only by the worker taking that id, into "processing" |
| `JobLifecycle.NeverIssuedIsNotFound` | services/detector_service.py:53-63 | after any run that did not upload an id the service did not know, both queries for it fail with their not-found messages |
| `JobLifecycle.FailedJobIsNotFound` | services/detector_service.py:94-98 | after a failed task, the id is out of the in-flight map and both queries report not found |
| `Decoder.TrimLeft` | common/decoder.py:30 | leading part of `strip()`: returns a suffix of the input; everything cut is whitespace and the result does not start with whitespace |
| `Decoder.TrimRight` | common/decoder.py:30 | trailing part of `strip()`: returns a prefix of the input; everything cut is whitespace and the result does not end with whitespace |
| `Decoder.StripStart` | common/decoder.py:30 | the strip starts after exactly the leading whitespace: all characters before it are whitespace, the one at it is not |
| `Decoder.Strip` | common/decoder.py:30 | `strip()` returns the slice of the input from the first non-whitespace character; only whitespace follows it; it neither starts nor ends with whitespace |
| `Decoder.StripIs` | common/decoder.py:30 | strip is determined by the first and last non-whitespace characters: it returns exactly the slice between them |
| `Decoder.StripIsEmpty` | common/decoder.py:30-31 | a whitespace-only text strips to the empty string, which the filter then drops |
| `Decoder.Replace` | common/decoder.py:33 | `replace(c, with)` leaves no `c` when `with` has none, and introduces only characters of the input or of `with` |
| `Decoder.ReplaceAbsent` | common/decoder.py:33 | replacing a character that does not occur changes nothing |
| `Decoder.ReplaceAppend` | common/decoder.py:33 | single-character replacement commutes with concatenation |
| `Decoder.Canonicalize` | common/decoder.py:33 | the canonical reading contains no space and no comma |
| `Decoder.CanonicalForm` | common/decoder.py:33 | character-by-character reference: its length is the input's length minus its number of spaces |
| `Decoder.CanonicalizeIsPerCharacter` | common/decoder.py:33 | the two `replace` passes equal the one-pass reference: spaces vanish, each comma becomes a point, every other character is kept in order; the length is the input's minus its spaces |
| `Decoder.CanonicalizeAppend` | common/decoder.py:33 | canonicalising a concatenation equals concatenating the canonicalised parts |
| `Decoder.CanonicalFixedPoints` | common/decoder.py:33 | canonicalisation leaves a string unchanged iff it has neither a space nor a comma |
| `Decoder.CanonicalizeIdempotent` | common/decoder.py:33 | canonicalising a canonical reading changes nothing |
| `Decoder.CanonicalizeComma` | common/decoder.py:33 | a comma canonicalises to a point |
| `Decoder.CanonicalizeDecimal` | common/decoder.py:33 | space- and comma-free digits around one comma become the same digits around a point |
| `Decoder.IsSpace` | common/decoder.py:30 | the whitespace `strip()` removes includes the silence token and never the blank or a digit |
| `Decoder.VocabularyWhitespace` | common/decoder.py:30 | of the recognizer's vocabulary and the blank, exactly the silence token is whitespace |
| `Decoder.StripAll` | common/decoder.py:30 | one stripped text per hypothesis text, at the same position |
| `Decoder.StripAllAppend` | common/decoder.py:30 | stripping a concatenation of text lists is the concatenation of the stripped lists |
| `Decoder.DroppedIffSilent` | common/decoder.py:30-33 | a stripped text is dropped by the filter exactly when, on its own, it would read as empty |
| `Decoder.KeepFragments` | common/decoder.py:31 | a text is in the filtered list iff it is in the input and is neither empty nor exactly `-`; the result is no longer than the input |
| `Decoder.KeepFragmentsAppend` | common/decoder.py:31 | filtering a concatenation is the concatenation of the filtered parts, so kept texts stay in input order |
| `Decoder.Join` | common/decoder.py:32 | `''.join` of one part is that part; a character occurs in the join iff it occurs in one of the parts |
| `Decoder.JoinAppend` | common/decoder.py:32 | joining a concatenation of lists is the concatenation of the joins |
| `Decoder.CleanFragments` | common/decoder.py:30-33 | an item's reading contains no space and no comma |
| `Decoder.CleanFragmentsAppend` | common/decoder.py:30-33 | the reading of two runs of hypothesis texts is the first run's reading followed by the second's, so order is preserved |
| `Decoder.CleanSingleFragment` | common/decoder.py:30-33 | one text contributes nothing if it strips to empty or `-`, and otherwise its stripped text canonicalised |
| `Decoder.CleanFragmentsIsFragmentwise` | common/decoder.py:30-33 | the clean-up equals the fragment-by-fragment reference: each surviving stripped text, canonicalised, in its original order |
| `Decoder.DroppedFragmentContributesNothing` | common/decoder.py:30-31 | inserting a text that strips to empty or exactly `-`, anywhere, leaves the reading unchanged |
| `Decoder.CleanFragmentsLength` | common/decoder.py:32-33 | the reading is as long as the joined surviving text minus its spaces |
| `Decoder.CleanKeptFragment` | common/decoder.py:30-33 | a single surviving text reads as its stripped text canonicalised |
| `Decoder.CleanFragmentsExample` | common/decoder.py:30-33 | the text `" 12,34 "` reads as `"12.34"` |
| `Decoder.CleanFragmentsLeadingSpaceExample` | common/decoder.py:30-33 | the text `" 1,234"` reads as `"1.234"` |
| `Decoder.CleanFragmentsBlankExample` | common/decoder.py:30-33 | the texts `["-", " 1,234", "  "]` read as `"1.234"`: the blank and the blank-only text vanish |
| `Decoder.InnerBlankIsKept` | common/decoder.py:30-33 | a blank inside a longer text is kept: `["1-2"]` reads as `"1-2"` |
| `Decoder.HypothesisText` | common/decoder.py:30 | `''.join(batch_decode(tokens))`: one character per token id, namely the table entry at that id, in token order |
| `Decoder.HypothesisTexts` | common/decoder.py:30 | one decoded text per hypothesis of a batch item, at the same position |
| `Decoder.ItemText` | common/decoder.py:29-33 | one batch item's reading equals the fragment-by-fragment reference over its hypotheses' texts, and has no space and no comma |
| `Decoder.IndexTable` | common/decoder.py:13 | the encoder's index table: the blank at index 0, then character `i` at index `i + 1` |
| `Decoder.MeterTable` | models/recognizer.py:14 | with the recognizer's vocabulary the index table is `"- 0123456789.,"`: blank at index 0 |
| `Decoder.MeterTokensExample` | models/recognizer.py:14 | with that table, token ids 1 3 4 13 5 6 1 spell `" 12,34 "` |
| `Decoder.MeterItemExample` | common/decoder.py:28-34 | a batch item whose only hypothesis has those ids reads as `"12.34"` |
| `Decoder.CTCDecoder.constructor` | common/decoder.py:6-12 | blank is `-`, silence is a space, and the decoder holds a value copy of the caller's characters |
| `Decoder.ConstructThenMutate` | common/decoder.py:12 | changing the caller's list after construction leaves the decoder's characters as they were |
| `Decoder.CTCDecoder.Decode` | common/decoder.py:19-35 | `None` or an empty search result gives no readings; otherwise exactly one reading per batch element, in batch order, each the clean-up of that element's hypotheses; no reading contains a space or a comma |

## Left out

- Asyncio scheduling: the events of `JobLifecycle` are finer than the source's scheduling. `await self.processing_queue.get()` at services/detector_service.py:71 does not suspend while the queue holds an id, so one resumption of `_process_queue` drains the whole queue, which is `ProcessQueue`. A `Dispatched` event is one iteration of that loop. A drain is a run of `Dispatched` events with nothing in between, so every schedule the event loop can produce is a run of the model, and the run lemmas cover it; the model also admits interleavings the event loop never produces. `asyncio.Task` objects are modelled only by their arguments, as `Task(uuid, inputPath)`. `task_done` and the queue's join counter are not modelled.
- `Services.DetectorService.ProcessQueue`: the source loop never ends and blocks on an empty queue; the model runs it until it would block.
- The detector call, plotting and saving of the annotated image are foreign calls and file I/O. Their combined outcome is the `succeeded` parameter of `ProcessImage`. The exception re-raised at line 96 ends up in a task nobody awaits, so it has no effect on the bookkeeping.
- Writing the upload to `temp/{id}.jpg`, `os.makedirs`, logging, `initialize` (loading the detector, starting the worker) and `cleanup` (releasing the detector) are I/O or foreign calls, and are not modelled.
- `Services.InputPath`, `Services.OutputPath`: `os.path.join` is written as concatenation with `/`. That is the POSIX behaviour for an id that does not start with `/`. On Windows the separator is `\`, and an absolute second part would discard `temp`. uuid4 ids never start with `/`, so this does not affect the service.
- `uuid.uuid4`: the id is a parameter. The precondition `Fresh` says only that the service does not currently know it, which is weaker than never issued before.
- The torchaudio beam search and its `permute`/`contiguous` tensor handling are foreign calls. `Decode` takes the search result as token-id lists and the batch size as a parameter. It requires what the library guarantees: at least `batchSize` items, and token ids inside the table.
- The torchnlp `LabelEncoder` is not part of this model. Its index-to-token table is taken as the blank followed by the characters in order, which matches the library for a duplicate-free list without `-` such as the vocabulary in use.
- `Decoder.IsSpace` lists the characters Python's `str.isspace` accepts. It is written from the language's documented behaviour, not derived from a Unicode database.
- The training-side models and the HTTP and browser layers are not part of this model.
