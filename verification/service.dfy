/** The job orchestration of the transcription service, as a sequential state machine.

    The system state is the store of `tmp/` records, the concurrency permit
    counter, the background tasks that admission scheduled, and the log of
    callback attempts. Each HTTP endpoint and each step of a background run
    is a pure transition; wall-clock times, fresh UUIDs, the speech model's
    segment lines and the callback's delivery outcome are parameters.
 */
module Service {
  import opened Records
  import opened Transcriber
  import Sweeper

  /** `MAX_CONCURRENT_TRANSCRIPTIONS` when the environment does not set it. */
  const DefaultCapacity: nat := 5

  /** The sweep's default `max_age_minutes`, used by both upload endpoints. */
  const RetentionMinutes: nat := 30

  /** A scheduled background task: queued until the speech model yields its lines, then looping. */
  datatype Task = Queued(job: Job) | Running(exec: Exec)

  /** One attempted callback POST; `delivered` records whether it went through. */
  datatype CallbackEvent = CallbackEvent(url: string, id: string, transcription: string, delivered: bool)

  /** `available` is the semaphore's counter; `capacity` the value it was created with. */
  datatype System = System(store: Store, capacity: nat, available: nat, tasks: seq<Task>, callbacks: seq<CallbackEvent>)

  /** The uploaded file and form fields other than the ID. */
  datatype Upload = Upload(filename: string, bytes: Bytes, callbackUrl: Option<string>)

  datatype SubmitResponse =
    | Conflict(id: string)
    | ThrottledResponse(id: string, retryUrl: string)
    | Started(id: string, resultUrl: string)

  datatype CancelResponse = CancellationRequested | NoActiveTranscription

  /** What `get_progress` answers: the stored record verbatim, or `{status: not_found}`. */
  datatype ProgressView = Found(record: ProgressRecord) | NotFound

  /** An endpoint's effect on the system together with its HTTP answer. */
  datatype Reply<R> = Reply(sys: System, response: R)

  /** A running task is a run that has not yet returned, over consistent state. */
  ghost predicate WellFormed(t: Task) {
    t.Running? ==> Active(t.exec) && Consistent(t.exec)
  }

  /** Every permit taken is held by exactly one scheduled task, so the counter
      stays within [0, capacity]. */
  ghost predicate Inv(sys: System) {
    && sys.available + |sys.tasks| == sys.capacity
    && forall i :: 0 <= i < |sys.tasks| ==> WellFormed(sys.tasks[i])
  }

  /** Start-up: `tmp/` may already hold files from an earlier process (it is created
      with `exist_ok`), and the semaphore starts with all its permits. */
  function Init(store: Store, capacity: nat): (sys: System)
    ensures Inv(sys) && sys.capacity == capacity && sys.available == capacity
    ensures sys.store == store && sys.tasks == [] && sys.callbacks == []
  {
    System(store, capacity, capacity, [], [])
  }

  function RemoveAt<T>(s: seq<T>, i: nat): (r: seq<T>)
    requires i < |s|
    ensures |r| == |s| - 1
    ensures forall j :: 0 <= j < i ==> r[j] == s[j]
    ensures forall j :: i <= j < |r| ==> r[j] == s[j + 1]
  {
    s[..i] + s[i + 1..]
  }

  // ----- Admission -----

  /** `custom_id` is used when it is present and non-empty; otherwise a fresh UUID. */
  function ChosenId(customId: Option<string>, freshId: string): string {
    if customId.Some? && customId.value != "" then customId.value else freshId
  }

  /** Everything admission does after the ID is settled: write the audio, then
      try a permit without blocking; on failure mark the job throttled, on
      success initialise its progress and cancel records and schedule one task. */
  function Admit(sys: System, id: string, upload: Upload, now: int): (r: Reply<SubmitResponse>)
    ensures r.response.id == id && !r.response.Conflict?
    ensures r.sys.capacity == sys.capacity && r.sys.callbacks == sys.callbacks
    ensures r.sys.store.audio == sys.store.audio[AudioKey(id, upload.filename) := Stamped(upload.bytes, now)]
    ensures r.sys.store.output == sys.store.output
    ensures r.sys.store.progress.Keys == sys.store.progress.Keys + {id}
    ensures r.response.ThrottledResponse? <==> sys.available == 0
    ensures r.response.ThrottledResponse? ==>
              && r.response.retryUrl == ResultUrl(id)
              && r.sys.available == sys.available
              && r.sys.tasks == sys.tasks
              && r.sys.store.cancel == sys.store.cancel
              && r.sys.store.progress ==
                   sys.store.progress[id := Stamped(ThrottledNotice(ThrottledMessage, ResultUrl(id)), now)]
    ensures r.response.Started? ==>
              && r.response.resultUrl == ResultUrl(id)
              && r.sys.available == sys.available - 1
              && r.sys.tasks == sys.tasks + [Queued(Job(id, AudioKey(id, upload.filename), upload.callbackUrl))]
              && r.sys.store.progress == sys.store.progress[id := Stamped(Tracked(Processing, 0, ""), now)]
              && r.sys.store.cancel == sys.store.cancel[id := Stamped(false, now)]
    ensures Inv(sys) ==> Inv(r.sys)
  {
    var key := AudioKey(id, upload.filename);
    var store := sys.store.(audio := sys.store.audio[key := Stamped(upload.bytes, now)]);
    if sys.available == 0 then
      var notice := ThrottledNotice(ThrottledMessage, ResultUrl(id));
      Reply(sys.(store := store.(progress := store.progress[id := Stamped(notice, now)])),
            ThrottledResponse(id, ResultUrl(id)))
    else
      var store' := store.(progress := store.progress[id := Stamped(Tracked(Processing, 0, ""), now)],
                           cancel := store.cancel[id := Stamped(false, now)]);
      var job := Job(id, key, upload.callbackUrl);
      var r := sys.(store := store', available := sys.available - 1, tasks := sys.tasks + [Queued(job)]);
      assert Inv(sys) ==> Inv(r) by {
        if Inv(sys) {
          assert forall i :: 0 <= i < |sys.tasks| ==> r.tasks[i] == sys.tasks[i];
        }
      }
      Reply(r, Started(id, ResultUrl(id)))
  }

  /** `upload_audio`: sweep, settle the ID, reject it if a progress or an output
      record exists for it, otherwise admit. */
  function Submit(sys: System, customId: Option<string>, freshId: string, upload: Upload, now: int)
    : (r: Reply<SubmitResponse>)
    ensures var swept := Sweeper.Sweep(sys.store, now, RetentionMinutes);
            var id := ChosenId(customId, freshId);
            && r.response.id == id
            && (r.response.Conflict? <==> id in swept.progress || id in swept.output)
            && (r.response.Conflict? ==> r.sys == sys.(store := swept))
            && (r.response.ThrottledResponse? <==> !r.response.Conflict? && sys.available == 0)
            && (!r.response.Conflict? ==> r == Admit(sys.(store := swept), id, upload, now))
    ensures Inv(sys) ==> Inv(r.sys)
  {
    var swept := sys.(store := Sweeper.Sweep(sys.store, now, RetentionMinutes));
    var id := ChosenId(customId, freshId);
    if id in swept.store.progress || id in swept.store.output then
      Reply(swept, Conflict(id))
    else
      Admit(swept, id, upload, now)
  }

  /** `upload_audio1`: sweep and admit under a fresh UUID, with no collision check. */
  function SubmitAnonymous(sys: System, freshId: string, upload: Upload, now: int): (r: Reply<SubmitResponse>)
    ensures r.response.id == freshId && !r.response.Conflict?
    ensures r.response.ThrottledResponse? <==> sys.available == 0
    ensures r.response.Started? ==> r.response.resultUrl == ResultUrl(freshId)
    ensures r.response.ThrottledResponse? ==> r.response.retryUrl == ResultUrl(freshId)
    ensures r.sys == Admit(sys.(store := Sweeper.Sweep(sys.store, now, RetentionMinutes)), freshId, upload, now).sys
    ensures Inv(sys) ==> Inv(r.sys)
  {
    Admit(sys.(store := Sweeper.Sweep(sys.store, now, RetentionMinutes)), freshId, upload, now)
  }

  // ----- Read-only lookups and cancellation -----

  /** `get_result`: the output text verbatim, or nothing. */
  function GetResult(store: Store, id: string): (r: Option<string>)
    ensures r.Some? <==> id in store.output
    ensures r.Some? ==> r.value == store.output[id].value
  {
    if id in store.output then Some(store.output[id].value) else None
  }

  /** `get_progress` and `get_progress1`: the progress record verbatim, or not-found. */
  function GetProgress(store: Store, id: string): (r: ProgressView)
    ensures r.Found? <==> id in store.progress
    ensures r.Found? ==> r.record == store.progress[id].value
  {
    if id in store.progress then Found(store.progress[id].value) else NotFound
  }

  /** `cancel_transcription`: overwrite an existing cancel record with `true`;
      without one, answer not-found and change nothing. */
  function Cancel(sys: System, id: string, now: int): (r: Reply<CancelResponse>)
    ensures r.response == CancellationRequested <==> id in sys.store.cancel
    ensures r.response == NoActiveTranscription ==> r.sys == sys
    ensures r.response == CancellationRequested ==>
              r.sys == sys.(store := sys.store.(cancel := sys.store.cancel[id := Stamped(true, now)]))
    ensures Inv(sys) ==> Inv(r.sys)
  {
    if id in sys.store.cancel then
      Reply(sys.(store := sys.store.(cancel := sys.store.cancel[id := Stamped(true, now)])), CancellationRequested)
    else
      Reply(sys, NoActiveTranscription)
  }

  /** The transcriber's reading of the cancel file: a missing record counts as not cancelled. */
  predicate CancelRequested(store: Store, id: string) {
    id in store.cancel && store.cancel[id].value
  }

  // ----- Background runs -----

  function ApplyEffect(store: Store, job: Job, effect: Effect, now: int): Store {
    match effect
    case WriteProgress(rec) => store.(progress := store.progress[job.id := Stamped(rec, now)])
    case WriteOutput(text) => store.(output := store.output[job.id := Stamped(text, now)])
    case PostCallback(_, _, _) => store
    case RemoveAudio => store.(audio := store.audio - {job.audio})
  }

  /** Performs a run's writes in order. Removing an audio file that is already gone
      (the sweep may have taken it) raises in the source: the wrapper's `finally`
      releases the permit and the exception ends the background task. Removal is
      always a run's last write, so the store ends as if the removal changed
      nothing, which is how it is modelled here. */
  function ApplyEffects(store: Store, job: Job, effects: seq<Effect>, now: int): Store
    decreases |effects|
  {
    if |effects| == 0 then store
    else ApplyEffects(ApplyEffect(store, job, effects[0], now), job, effects[1..], now)
  }

  function CallbackLog(effects: seq<Effect>, delivered: bool): seq<CallbackEvent>
    decreases |effects|
  {
    if |effects| == 0 then []
    else
      var rest := CallbackLog(effects[1..], delivered);
      match effects[0]
      case PostCallback(url, id, text) => [CallbackEvent(url, id, text, delivered)] + rest
      case _ => rest
  }

  lemma {:induction false} ApplyEffectsAppend(store: Store, job: Job, a: seq<Effect>, b: seq<Effect>, now: int)
    ensures ApplyEffects(store, job, a + b, now) == ApplyEffects(ApplyEffects(store, job, a, now), job, b, now)
    decreases |a|
  {
    if |a| > 0 {
      assert (a + b)[1..] == a[1..] + b;
      ApplyEffectsAppend(ApplyEffect(store, job, a[0], now), job, a[1..], b, now);
    } else {
      assert a + b == b;
    }
  }

  lemma ApplyEffectsSingle(store: Store, job: Job, x: Effect, now: int)
    ensures ApplyEffects(store, job, [x], now) == ApplyEffect(store, job, x, now)
  {
  }

  lemma {:induction false} CallbackLogAppend(a: seq<Effect>, b: seq<Effect>, delivered: bool)
    ensures CallbackLog(a + b, delivered) == CallbackLog(a, delivered) + CallbackLog(b, delivered)
    decreases |a|
  {
    if |a| > 0 {
      assert (a + b)[1..] == a[1..] + b;
      assert (a + b)[0] == a[0];
      CallbackLogAppend(a[1..], b, delivered);
    } else {
      assert a + b == b;
    }
  }

  lemma CallbackLogSingle(x: Effect, delivered: bool)
    ensures CallbackLog([x], delivered) == if x.PostCallback? then [CallbackEvent(x.url, x.id, x.transcription, delivered)] else []
  {
  }

  /** The background task starts: the speech model yields the segment lines of the audio. */
  function Begin(sys: System, i: nat, lines: seq<string>): (r: System)
    requires i < |sys.tasks| && sys.tasks[i].Queued?
    ensures r.store == sys.store && r.available == sys.available
    ensures r.callbacks == sys.callbacks && r.capacity == sys.capacity
    ensures r.tasks == sys.tasks[i := Running(Start(sys.tasks[i].job, lines))]
    ensures Inv(sys) ==> Inv(r)
  {
    sys.(tasks := sys.tasks[i := Running(Start(sys.tasks[i].job, lines))])
  }

  /** One step of a run against the store, reading its cancel flag there first.
      The completion is two steps: the output and `done` writes, then the callback
      POST and the audio removal, after which the wrapper's `finally` releases the
      permit. The POST can take arbitrarily long, so in between a job can already
      show `done` while still holding its permit. */
  function ExecStep(sys: System, i: nat, now: int, delivered: bool): (r: System)
    requires i < |sys.tasks| && sys.tasks[i].Running?
    requires Active(sys.tasks[i].exec) && sys.tasks[i].exec.count <= |sys.tasks[i].exec.lines|
    ensures r.capacity == sys.capacity && r.store.cancel == sys.store.cancel
    ensures var e := sys.tasks[i].exec;
            var id := e.job.id;
            && (e.phase == Looping && e.count < |e.lines| && !CancelRequested(sys.store, id) ==>
                  && r.tasks == sys.tasks[i := Running(e.(count := e.count + 1, result := e.result + e.lines[e.count]))]
                  && r.available == sys.available && r.callbacks == sys.callbacks
                  && r.store.progress ==
                       (if (e.count + 1) % CheckpointEvery == 0
                        then sys.store.progress[id := Stamped(Tracked(Processing, e.count + 1, e.result + e.lines[e.count]), now)]
                        else sys.store.progress)
                  && r.store.output == sys.store.output && r.store.audio == sys.store.audio)
            && (e.phase == Looping && e.count < |e.lines| && CancelRequested(sys.store, id) ==>
                  && r.tasks == RemoveAt(sys.tasks, i)
                  && r.available == sys.available + 1 && r.callbacks == sys.callbacks
                  && r.store.progress == sys.store.progress[id := Stamped(Tracked(Cancelled, e.count, e.result), now)]
                  && r.store.output == sys.store.output
                  && r.store.audio == sys.store.audio - {e.job.audio})
            && (e.phase == Looping && e.count == |e.lines| ==>
                  && r.tasks == sys.tasks[i := Running(e.(phase := Notifying))]
                  && r.available == sys.available && r.callbacks == sys.callbacks
                  && r.store.progress == sys.store.progress[id := Stamped(Tracked(Done, e.count, e.result), now)]
                  && r.store.output == sys.store.output[id := Stamped(e.result, now)]
                  && r.store.audio == sys.store.audio)
            && (e.phase == Notifying ==>
                  && r.tasks == RemoveAt(sys.tasks, i)
                  && r.available == sys.available + 1
                  && r.store.progress == sys.store.progress && r.store.output == sys.store.output
                  && r.store.audio == sys.store.audio - {e.job.audio}
                  && r.callbacks == sys.callbacks +
                       (if CallbackWanted(e.job.callbackUrl)
                        then [CallbackEvent(e.job.callbackUrl.value, id, e.result, delivered)] else []))
    ensures Inv(sys) ==> Inv(r)
  {
    var e := sys.tasks[i].exec;
    var flag := CancelRequested(sys.store, e.job.id);
    var next := Step(e, flag);
    var store := ApplyEffects(sys.store, e.job, next.effects, now);
    var callbacks := sys.callbacks + CallbackLog(next.effects, delivered);
    StepWritesLemma(sys.store, e, flag, now, delivered);
    if Active(next.exec) then
      sys.(store := store, tasks := sys.tasks[i := Running(next.exec)], callbacks := callbacks)
    else
      sys.(store := store, tasks := RemoveAt(sys.tasks, i), available := sys.available + 1, callbacks := callbacks)
  }

  /** What one step's writes do to the store and the callback log. */
  ghost predicate StepWrites(store: Store, e: Exec, flag: bool, now: int, delivered: bool)
    requires Active(e) && e.count <= |e.lines|
  {
    var next := Step(e, flag);
    var r := ApplyEffects(store, e.job, next.effects, now);
    var log := CallbackLog(next.effects, delivered);
    var id := e.job.id;
    && r.cancel == store.cancel
    && (next.exec.phase == Looping ==>
          && r.progress ==
               (if next.exec.count % CheckpointEvery == 0
                then store.progress[id := Stamped(Tracked(Processing, next.exec.count, next.exec.result), now)]
                else store.progress)
          && r.output == store.output && r.audio == store.audio && log == [])
    && (next.exec.phase == Ended(Cancelled) ==>
          && r.progress == store.progress[id := Stamped(Tracked(Cancelled, e.count, e.result), now)]
          && r.output == store.output
          && r.audio == store.audio - {e.job.audio}
          && log == [])
    && (next.exec.phase == Notifying ==>
          && r.progress == store.progress[id := Stamped(Tracked(Done, e.count, e.result), now)]
          && r.output == store.output[id := Stamped(e.result, now)]
          && r.audio == store.audio
          && log == [])
    && (next.exec.phase == Ended(Done) ==>
          && r.progress == store.progress && r.output == store.output
          && r.audio == store.audio - {e.job.audio}
          && log == (if CallbackWanted(e.job.callbackUrl)
                     then [CallbackEvent(e.job.callbackUrl.value, id, e.result, delivered)] else []))
  }

  lemma StepWritesLemma(store: Store, e: Exec, flag: bool, now: int, delivered: bool)
    requires Active(e) && e.count <= |e.lines|
    ensures StepWrites(store, e, flag, now, delivered)
  {
    var next := Step(e, flag);
    var job := e.job;
    if next.exec.phase == Looping {
      if |next.effects| == 1 {
        assert next.effects == [next.effects[0]];
        ApplyEffectsSingle(store, job, next.effects[0], now);
        CallbackLogSingle(next.effects[0], delivered);
      }
    } else if next.exec.phase == Ended(Cancelled) {
      var a := WriteProgress(Tracked(Cancelled, e.count, e.result));
      assert next.effects == [a] + [RemoveAudio];
      ApplyEffectsAppend(store, job, [a], [RemoveAudio], now);
      ApplyEffectsSingle(store, job, a, now);
      ApplyEffectsSingle(ApplyEffect(store, job, a, now), job, RemoveAudio, now);
      CallbackLogAppend([a], [RemoveAudio], delivered);
      CallbackLogSingle(a, delivered);
      CallbackLogSingle(RemoveAudio, delivered);
    } else if next.exec.phase == Notifying {
      var o := WriteOutput(e.result);
      var p := WriteProgress(Tracked(Done, e.count, e.result));
      assert next.effects == [o] + [p];
      ApplyEffectsAppend(store, job, [o], [p], now);
      ApplyEffectsSingle(store, job, o, now);
      ApplyEffectsSingle(ApplyEffect(store, job, o, now), job, p, now);
      CallbackLogAppend([o], [p], delivered);
      CallbackLogSingle(o, delivered);
      CallbackLogSingle(p, delivered);
    } else {
      var cb := CallbackEffects(job, e.result);
      assert next.effects == cb + [RemoveAudio];
      ApplyEffectsAppend(store, job, cb, [RemoveAudio], now);
      if |cb| == 1 {
        assert cb == [cb[0]];
        ApplyEffectsSingle(store, job, cb[0], now);
        CallbackLogSingle(cb[0], delivered);
      }
      ApplyEffectsSingle(ApplyEffects(store, job, cb, now), job, RemoveAudio, now);
      CallbackLogAppend(cb, [RemoveAudio], delivered);
      CallbackLogSingle(RemoveAudio, delivered);
    }
  }

  /** Whether a run can still fail with an exception. After the `done` record only the
      callback POST, whose exceptions are caught, and the audio removal remain, and a
      removal that finds the file gone is modelled as changing nothing. */
  predicate Abortable(t: Task) {
    !(t.Running? && t.exec.phase == Notifying)
  }

  /** An exception inside a run (the speech model failing, say): the store keeps
      whatever was last written, and the wrapper's `finally` still releases the permit. */
  function Abort(sys: System, i: nat): (r: System)
    requires i < |sys.tasks|
    ensures r.store == sys.store && r.callbacks == sys.callbacks
    ensures r.tasks == RemoveAt(sys.tasks, i) && r.available == sys.available + 1
    ensures Inv(sys) ==> Inv(r)
  {
    sys.(tasks := RemoveAt(sys.tasks, i), available := sys.available + 1)
  }

  lemma CallbackDeliveryIrrelevant(sys: System, i: nat, now: int)
    requires i < |sys.tasks| && sys.tasks[i].Running?
    requires Active(sys.tasks[i].exec) && sys.tasks[i].exec.count <= |sys.tasks[i].exec.lines|
    ensures ExecStep(sys, i, now, true).store == ExecStep(sys, i, now, false).store
    ensures ExecStep(sys, i, now, true).tasks == ExecStep(sys, i, now, false).tasks
    ensures ExecStep(sys, i, now, true).available == ExecStep(sys, i, now, false).available
  {
  }

  // ----- The whole service as a transition system -----

  /** Everything that can happen to the service, in some sequential interleaving. */
  datatype Action =
    | SubmitAction(customId: Option<string>, freshId: string, upload: Upload, now: int)
    | SubmitAnonymousAction(freshId: string, upload: Upload, now: int)
    | CancelAction(id: string, now: int)
    | BeginAction(index: nat, lines: seq<string>)
    | StepAction(index: nat, now: int, delivered: bool)
    | AbortAction(index: nat)

  /** Performs one action; an action on a task that is not there, or not in the
      right stage (an abort included, see `Abortable`), cannot happen and leaves
      the system as it is. */
  function Execute(sys: System, a: Action): System {
    match a
    case SubmitAction(customId, freshId, upload, now) => Submit(sys, customId, freshId, upload, now).sys
    case SubmitAnonymousAction(freshId, upload, now) => SubmitAnonymous(sys, freshId, upload, now).sys
    case CancelAction(id, now) => Cancel(sys, id, now).sys
    case BeginAction(i, lines) =>
      if i < |sys.tasks| && sys.tasks[i].Queued? then Begin(sys, i, lines) else sys
    case StepAction(i, now, delivered) =>
      if i < |sys.tasks| && sys.tasks[i].Running? && Active(sys.tasks[i].exec)
         && sys.tasks[i].exec.count <= |sys.tasks[i].exec.lines|
      then ExecStep(sys, i, now, delivered)
      else sys
    case AbortAction(i) => if i < |sys.tasks| && Abortable(sys.tasks[i]) then Abort(sys, i) else sys
  }

  function RunActions(sys: System, actions: seq<Action>): System
    decreases |actions|
  {
    if |actions| == 0 then sys else RunActions(Execute(sys, actions[0]), actions[1..])
  }

  /** Every action keeps the permit accounting and the runs' consistency. */
  lemma ExecutePreservesInv(sys: System, a: Action)
    requires Inv(sys)
    ensures Inv(Execute(sys, a)) && Execute(sys, a).capacity == sys.capacity
  {
  }

  /** From start-up, whatever `tmp/` already holds and whatever happens, the permit
      counter stays within [0, capacity] and equals the capacity less the number of
      scheduled tasks: every permit acquired is released exactly once, when its task ends. */
  lemma {:induction false} PermitsBounded(store: Store, capacity: nat, actions: seq<Action>)
    ensures var sys := RunActions(Init(store, capacity), actions);
            && Inv(sys) && sys.capacity == capacity
            && 0 <= sys.available <= capacity
            && sys.available == capacity - |sys.tasks|
  {
    InvariantAlongRun(Init(store, capacity), actions);
  }

  lemma {:induction false} InvariantAlongRun(sys: System, actions: seq<Action>)
    requires Inv(sys)
    ensures Inv(RunActions(sys, actions)) && RunActions(sys, actions).capacity == sys.capacity
    decreases |actions|
  {
    if |actions| > 0 {
      ExecutePreservesInv(sys, actions[0]);
      InvariantAlongRun(Execute(sys, actions[0]), actions[1..]);
    }
  }

  // ----- Properties of the endpoints -----

  /** An action taken no earlier than `t0`, whose sweep (if it sweeps) runs within
      the retention period after `t0`. */
  predicate InWindow(a: Action, t0: int) {
    match a
    case SubmitAction(_, _, _, now) => t0 <= now <= t0 + RetentionMinutes * 60
    case SubmitAnonymousAction(_, _, now) => t0 <= now <= t0 + RetentionMinutes * 60
    case StepAction(_, now, _) => t0 <= now
    case _ => true
  }

  /** A progress record written at `t0` or later stays present, and at least as recent,
      across any action in the window: endpoints and runs only overwrite progress
      records with the current time, and the sweep spares records that young. */
  lemma ExecuteKeepsProgress(sys: System, a: Action, id: string, t0: int)
    requires id in sys.store.progress && sys.store.progress[id].mtime >= t0
    requires InWindow(a, t0)
    ensures id in Execute(sys, a).store.progress && Execute(sys, a).store.progress[id].mtime >= t0
  {
    match a
    case SubmitAction(customId, freshId, upload, now) =>
      Sweeper.FreshSurvives(sys.store, id, now, RetentionMinutes);
    case SubmitAnonymousAction(freshId, upload, now) =>
      Sweeper.FreshSurvives(sys.store, id, now, RetentionMinutes);
    case _ =>
  }

  lemma {:induction false} RunKeepsProgress(sys: System, actions: seq<Action>, id: string, t0: int)
    requires id in sys.store.progress && sys.store.progress[id].mtime >= t0
    requires forall i :: 0 <= i < |actions| ==> InWindow(actions[i], t0)
    ensures id in RunActions(sys, actions).store.progress && RunActions(sys, actions).store.progress[id].mtime >= t0
    decreases |actions|
  {
    if |actions| > 0 {
      ExecuteKeepsProgress(sys, actions[0], id, t0);
      assert forall i :: 0 <= i < |actions[1..]| ==> InWindow(actions[1..][i], t0) by {
        forall i | 0 <= i < |actions[1..]|
          ensures InWindow(actions[1..][i], t0)
        {
          assert actions[1..][i] == actions[i + 1];
        }
      }
      RunKeepsProgress(Execute(sys, actions[0]), actions[1..], id, t0);
    }
  }

  /** After a submission at `t0` that was not rejected (accepted or throttled), whatever
      endpoint calls and run steps follow, resubmitting the same custom ID within the
      retention period is a conflict and schedules nothing. */
  lemma {:induction false} ResubmitConflicts(sys: System, id: string, fresh1: string, upload1: Upload, t0: int,
                          actions: seq<Action>, fresh2: string, upload2: Upload, t2: int)
    requires id != ""
    requires !Submit(sys, Some(id), fresh1, upload1, t0).response.Conflict?
    requires forall i :: 0 <= i < |actions| ==> InWindow(actions[i], t0)
    requires t2 <= t0 + RetentionMinutes * 60
    ensures var s := RunActions(Submit(sys, Some(id), fresh1, upload1, t0).sys, actions);
            var r := Submit(s, Some(id), fresh2, upload2, t2);
            && r.response == Conflict(id)
            && r.sys.tasks == s.tasks && r.sys.available == s.available
  {
    var s1 := Submit(sys, Some(id), fresh1, upload1, t0).sys;
    RunKeepsProgress(s1, actions, id, t0);
    var s := RunActions(s1, actions);
    Sweeper.FreshSurvives(s.store, id, t2, RetentionMinutes);
  }

  /** A conflict is decided before anything is written: the store is only swept. */
  lemma ConflictWritesNothing(sys: System, customId: Option<string>, freshId: string, upload: Upload, now: int)
    requires Submit(sys, customId, freshId, upload, now).response.Conflict?
    ensures var r := Submit(sys, customId, freshId, upload, now).sys;
            && r.available == sys.available && r.tasks == sys.tasks
            && (forall k :: k in r.store.audio ==> k in sys.store.audio && r.store.audio[k] == sys.store.audio[k])
            && (forall k :: k in r.store.progress ==> k in sys.store.progress && r.store.progress[k] == sys.store.progress[k])
            && (forall k :: k in r.store.output ==> k in sys.store.output && r.store.output[k] == sys.store.output[k])
            && (forall k :: k in r.store.cancel ==> k in sys.store.cancel && r.store.cancel[k] == sys.store.cancel[k])
  {
  }

  /** Cancelling is idempotent: a second request only refreshes the flag's time. */
  lemma CancelIdempotent(sys: System, id: string, now1: int, now2: int)
    ensures Cancel(Cancel(sys, id, now1).sys, id, now2) == Cancel(sys, id, now2)
  {
    if id in sys.store.cancel {
      var c := sys.store.cancel;
      assert c[id := Stamped(true, now1)][id := Stamped(true, now2)] == c[id := Stamped(true, now2)];
    }
  }

  /** The cancel endpoint never touches anything but the cancel record, and only ever writes `true`. */
  lemma CancelOnlyRaisesFlag(sys: System, id: string, now: int)
    ensures var r := Cancel(sys, id, now).sys;
            && r.store.progress == sys.store.progress && r.store.output == sys.store.output
            && r.store.audio == sys.store.audio && r.tasks == sys.tasks && r.available == sys.available
            && (forall k :: k in r.store.cancel && !r.store.cancel[k].value ==>
                  k in sys.store.cancel && !sys.store.cancel[k].value)
  {
  }
}
