# Transcription job orchestration, modelled in Dafny

This project models the job-orchestration core of a small speech-transcription
web service. Callers upload audio and get a job ID. A bounded pool of permits
limits how many transcriptions run at once. A background run walks the
segments the speech model produces. It checkpoints its progress every five
segments, polls a cancel flag before each segment, and finishes as `done`
(writing the output text and optionally POSTing a callback) or `cancelled`.
Callers poll progress and results and can request cancellation. Each upload
also runs an age-based sweep over the `tmp/` directory.

The model is a sequential state machine over an immutable store:

- `records.dfy` (module `Records`): the four kinds of file in `tmp/` are
  progress records, output text, cancel flags and audio. Each kind is a map
  keyed by job ID (audio files also by upload file name), and every entry
  carries its last-modified time as an integer.
- `transcriber.dfy` (module `Transcriber`): `transcribe_audio`. `Step` is one
  iteration of the segment loop. `TranscribeAudio` runs the loop to its end,
  given the cancel flag read at each segment boundary. `Expected` is an
  independent closed-form description of everything a run writes, and the
  lemmas after it are stated over that description.
- `sweeper.dfy` (module `Sweeper`): `clean_old_tmp_files`.
- `service.dfy` (module `Service`): the endpoints `upload_audio`,
  `upload_audio1`, `get_result`, `get_progress`/`get_progress1` and
  `cancel_transcription`. It also holds the background task wrapped by
  `wrapped_transcribe_audio`, the semaphore as a permit counter, and an
  `Action`/`Execute` transition system with its invariant.
- `scenarios.dfy` (module `Scenarios`): end-to-end interleavings with
  symbolic segment lines: one completed job, one cancelled job, one throttled
  job.

Parameters stand in for everything non-deterministic or foreign:

- the current time (`now`, whole seconds);
- the fresh UUID;
- the speech model's segment lines (`Begin`);
- whether a callback POST was delivered;
- the order in which endpoint calls and run steps interleave (a sequence of
  `Action`s).

Facts about the code that the model keeps:

- Admission rejects an ID when a progress record or an output record exists
  (app/main.py:53). Either one alone is enough.
- An exception inside a run (`Abort`) releases the permit and changes nothing
  else. The audio file is not deleted and the status stays whatever was last
  written, typically `processing`. No `error` status is ever written.
- `upload_audio1` performs no collision check at all.
- A run completes in two steps. First it writes the output text and the
  `done` record. Then it attempts the callback POST, removes the audio, and
  the wrapper releases the permit. The POST has no timeout, so between the
  two steps a job can show `done` while it still holds its permit.
- `tmp/` survives a restart (it is created with `exist_ok`), so the service
  may start with records already in it. `Init` takes the initial store as a
  parameter.

## Model

| member | source | states |
|---|---|---|
| Records.ConcatPrefix | app/transcriber.py:24-25 | the text accumulated after j segments is a prefix of the text after any k >= j: the result only grows |
| Transcriber.Step | app/transcriber.py:14-43 | one step of a run. Before each line the cancel flag is checked. A set flag ends the run `cancelled` with the count and text so far, writing only that record and then removing the audio. An unset flag gives exactly the old state with the count one higher and exactly the next line appended to the text; the step then writes exactly one `processing` checkpoint of that new count and text when the count is a multiple of 5, and nothing otherwise. After the last line, one step writes the output and then the `done` record; the next step attempts the callback and removes the audio. The accumulated text stays the join of the consumed lines |
| Transcriber.FirstCancel | app/transcriber.py:14-22 | the boundary at which the loop stops is the first one whose cancel flag is set, or the end when none is |
| Transcriber.CheckpointsSnoc | app/transcriber.py:24-28 | consuming one more segment adds a checkpoint exactly when the new count is a multiple of 5 |
| Transcriber.TranscribeAudio | app/transcriber.py:7-43 | the loop's writes are exactly the closed-form `Expected` writes; the run ends `cancelled` iff some boundary saw the flag set, else `done`; the final record is among the writes |
| Transcriber.ProgressWritesAreSnapshots | app/transcriber.py:19-35 | every progress record a run writes joins exactly its first `segments` lines, never exceeds the final record's count, is a prefix of the final result, and is a `processing` checkpoint only at a positive multiple of 5 |
| Transcriber.EndingWritesFinal | app/transcriber.py:19-43 | after the last checkpoint the only progress record a run writes is its final one, whose text joins exactly its counted lines |
| Transcriber.ProgressWritesMonotone | app/transcriber.py:24-35 | across successive progress writes `segments` never decreases, each result is a prefix of the next, and checkpoints strictly increase |
| Transcriber.CheckpointsNotSkipped | app/transcriber.py:26-28 | every positive multiple of 5 up to the final count gets its checkpoint |
| Transcriber.OutputMatchesFinal | app/transcriber.py:30-35 | an output file is written iff the run completes, and it holds exactly the final `done` result: the join of all lines, with the count equal to the number of lines. A cancelled run stops with fewer segments than there are lines, and its result is a prefix of the join of all lines |
| Transcriber.CallbackAtMostOnce | app/transcriber.py:37-41 | the callback is attempted at most once, iff the run completed and a non-empty URL was given, carrying the ID and the final result |
| Transcriber.AudioRemovedOnce | app/transcriber.py:19-43 | the audio file is removed exactly once, as the last write, on both the cancelled and the done path |
| Sweeper.Prune | app/main.py:191-199 | an entry is deleted iff `now - mtime > max_age` (strict), and every kept entry is unchanged |
| Sweeper.Sweep | app/main.py:187-199 | the sweep applies that rule with `max_age_minutes * 60` to progress, output, cancel and audio files alike, regardless of job status |
| Sweeper.FreshSurvives | app/main.py:191-195 | a file no older than the threshold survives the sweep unchanged, whatever its kind: progress, output, cancel or any of the job's audio files |
| Sweeper.SweepAbsorbs | app/main.py:187-199 | a sweep followed by a later sweep equals the later sweep alone, so the sweep is idempotent |
| Service.Init | app/main.py:24-27 | the semaphore starts with all its permits, no task is scheduled, and `tmp/` holds whatever it already held |
| Service.Admit | app/main.py:59-82 | the audio file `<id>, <filename>` is written with the upload and nothing else in the audio map changes. Without a permit, the counter, tasks and cancel records are unchanged, and the progress map differs only in the throttled notice with `/result/<id>` for this ID. With a permit, the counter drops by one and exactly one task is scheduled. The progress map then differs only in `{processing, 0, ""}` for this ID, and the cancel map only in `false` for it. The output files are untouched and the progress keys gain exactly this ID |
| Service.Submit | app/main.py:37-88 | after the sweep, the response is a conflict iff a progress or an output record exists for the chosen ID (custom ID when non-empty, else the UUID), and then nothing but the sweep happened. Otherwise the whole reply, URLs included, is exactly admission's under that ID, throttled iff no permit is free |
| Service.SubmitAnonymous | app/main.py:92-131 | the anonymous upload always admits under the fresh UUID without any collision check, throttled iff no permit is free; the result or retry URL is `/result/<fresh UUID>` |
| Service.GetResult | app/main.py:133-139 | the output text is returned verbatim iff an output record exists; otherwise not found |
| Service.GetProgress | app/main.py:141-167 | the progress record is returned verbatim iff one exists; otherwise `{status: not_found}` |
| Service.Cancel | app/main.py:169-176 | with a cancel record the flag is overwritten with `true`; without one the answer is not-found and the system is unchanged |
| Service.Begin | app/transcriber.py:8-9 | a queued task starts looping over the lines the speech model yields, changing neither the store, the permits nor the callback log |
| Service.ExecStep | app/transcriber.py:14-43 | one run step against the store. A missing or `false` cancel record lets the run append a segment, and the progress record is overwritten with the new `processing` snapshot exactly when the new count is a multiple of 5; nothing else changes. A `true` record writes the `cancelled` record, removes the audio and releases the permit. After the last line, one step writes the output and a `done` record with the same text and keeps the permit; the next logs at most one callback, removes the audio and releases the permit. The cancel record is never written |
| Service.Abort | app/main.py:178-182 | an exception inside a run releases its permit and leaves the store as last written; `Execute` allows it only before the `done` record, since after it only the callback POST (exceptions caught) and the audio removal remain |
| Service.CallbackDeliveryIrrelevant | app/transcriber.py:37-41 | whether the callback POST succeeds changes neither the store, the tasks nor the permits |
| Service.ExecutePreservesInv | app/main.py:63-82 | every endpoint call and run step keeps `available + scheduled tasks == capacity` and every running task consistent |
| Service.PermitsBounded | app/main.py:178-182 | after any sequence of actions from start-up, whatever `tmp/` held, the counter stays within [0, capacity] and equals capacity minus the scheduled tasks: each permit is released exactly once (admission writes cannot fail here; see "## Left out") |
| Service.ExecuteKeepsProgress | app/main.py:46-82 | no endpoint call or run step removes a progress record written at `t0` or later, or makes it older, as long as the action's time is at least `t0` and any sweep it runs is within the retention period after `t0` |
| Service.RunKeepsProgress | app/main.py:46-82 | the same holds across any sequence of such actions |
| Service.ResubmitConflicts | app/main.py:51-74 | after an accepted or throttled submission at `t0`, whatever endpoint calls and run steps follow, resubmitting the same custom ID within the retention period is a conflict and schedules nothing |
| Service.ConflictWritesNothing | app/main.py:50-57 | a conflicting submission takes no permit and schedules nothing. Every audio, progress, output and cancel entry left afterwards was already there with the same contents: none is created or overwritten, and only the sweep removes any |
| Service.CancelIdempotent | app/main.py:169-176 | a second cancel request has the same effect as a single one |
| Service.CancelOnlyRaisesFlag | app/main.py:169-176 | cancellation touches only the cancel record and never turns a flag from true to false |
| Scenarios.SubmitFirst | app/main.py:46-82 | submitting into an empty, idle service writes the processing record, the `false` cancel flag and the audio, takes one permit and queues one task |
| Scenarios.QuietStep | app/transcriber.py:14-28 | a segment step of an uncancelled run that reaches no checkpoint changes only the run's own count and text |
| Scenarios.CompletionStep | app/transcriber.py:30-35 | once every line is consumed, the next step writes the output and the `done` record and keeps the permit |
| Scenarios.NotifyStep | app/transcriber.py:37-43 | without a callback, the last step of a completed run removes the audio and releases the permit |
| Scenarios.CancelStep | app/transcriber.py:15-22 | a run that finds its flag set writes the `cancelled` record, removes the audio and releases the permit |
| Scenarios.CompletedJob | app/main.py:46-88 | a three-segment job shows `{processing, 0, ""}` after submission. After the completion writes it shows `{done, 3, l0+l1+l2}` while its permit and audio are still held. After the last step the result endpoint returns the same text, the audio is gone, all permits are back, and resubmitting the ID is a conflict |
| Scenarios.CancelledJob | app/transcriber.py:14-22 | a cancel requested after the first segment ends the job `cancelled` with that segment only; no output, no callback, audio removed, permit returned |
| Scenarios.ThrottledJob | app/main.py:59-74 | with the only permit held, a second job is throttled: no permit taken, no task, no cancel record, its audio left in place |

## Left out

- HTTP routing, CORS, templates and static files (app/main.py:12-35): web plumbing outside the core.
- JSON encoding and real file I/O: the store is a map of typed records. The torn-read case of `get_progress` (its HTTP 500 branch, app/main.py:163-165) is not modelled, because a record is always read whole.
- The speech model and its `model_size` and beam settings: the segment lines it yields are an input to `Begin`. The `[start - end] text` formatting is floating point, so each line is an opaque string.
- The callback's network call: it is logged as an attempted event, and a parameter says whether it was delivered.
- Threads and the real `Semaphore`: one sequential interleaving of atomic actions, with an integer permit counter. A non-integer or negative `MAX_CONCURRENT_TRANSCRIPTIONS` makes start-up fail in the source. Here the capacity is a natural-number parameter.
- Wall-clock time: `time.time()` and file mtimes are integer parameters in whole seconds.
- UUID generation: the fresh ID is a parameter, and nothing assumes it is unused.
- Sweep details: directories in `tmp/` (skipped by `isfile`) and failed deletions (logged and skipped) are not modelled. Every store entry is a file that can be removed.
- File names: the source builds the audio file name as `<id>_<filename>` in the same directory as `progress_<id>.json`, so some ID and file-name pairs can coincide with another job's record file. The model keeps the four kinds of record apart.
- Cancel file contents other than a boolean: the source reads the `cancel` key by truthiness, and here it is a boolean.
- Service.ExecStep: the ordering of progress snapshots is proved for one run's own writes (`Transcriber.ProgressWritesMonotone`), not for the store as polled. The sweep may delete a progress record mid-run, and a later job may then reuse the ID.
- Service.ResubmitConflicts: stated for actions whose clock readings do not go back before the first submission, and whose sweeps run within the retention period after it. After that period the sweep may delete the record, and the ID is then free again, as in the source.
- A removal of an audio file the sweep already deleted: the source raises, and the exception ends the background task after the callback (on the done path; the cancelled path has none) and after the permit is released by the wrapper's `finally`. Removal is a run's last write, so the model treats it as changing nothing.
- Service.PermitsBounded: admission writes never fail in the model. In the source, a write that raises after the permit is taken (app/main.py:63) and before the task is scheduled (app/main.py:82) leaks that permit for good. For example, `custom_id = "/x"` passes the collision check, and its audio path `tmp//x_<file>` is valid. But `open("tmp/progress_/x.json", "w")` at app/main.py:76 raises, so the request fails with no task scheduled and the permit is never released. Five such requests throttle every later upload. The model's IDs are plain keys, so it cannot express this failure.
