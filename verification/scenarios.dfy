/** Concrete runs of the service, each an end-to-end interleaving of endpoint
    calls and background-run steps, with the segment lines left symbolic. */
module Scenarios {
  import opened Records
  import opened Transcriber
  import opened Service

  /** The system right after "job1" is admitted into an empty, idle service. */
  function Admitted(upload: Upload, t: int): System {
    var key := AudioKey("job1", upload.filename);
    System(Store(map["job1" := Stamped(Tracked(Processing, 0, ""), t)], map[],
                 map["job1" := Stamped(false, t)], map[key := Stamped(upload.bytes, t)]),
           DefaultCapacity, DefaultCapacity - 1, [Queued(Job("job1", key, upload.callbackUrl))], [])
  }

  /** Submitting "job1" to a fresh service admits it: one permit taken, one task queued,
      a `{processing, 0, ""}` record, a `false` cancel flag and the audio written. */
  lemma SubmitFirst(upload: Upload, uuid: string, t: int)
    ensures Execute(Init(EmptyStore, DefaultCapacity), SubmitAction(Some("job1"), uuid, upload, t)) == Admitted(upload, t)
  {
    var swept := Sweeper.Sweep(EmptyStore, t, RetentionMinutes);
    assert swept == EmptyStore;
  }

  /** Submit "job1" with three segments and no callback, let it run to the end,
      then resubmit the same ID. Between the completion writes and the final step
      the job already shows `done` while it still holds its permit. */
  lemma CompletedJob(lines: seq<string>, upload: Upload, uuid: string, t: int)
    requires |lines| == 3 && upload.callbackUrl == None
    ensures var s1 := Execute(Init(EmptyStore, DefaultCapacity), SubmitAction(Some("job1"), uuid, upload, t));
            var s2 := Execute(s1, BeginAction(0, lines));
            var s3 := Execute(s2, StepAction(0, t, false));
            var s4 := Execute(s3, StepAction(0, t, false));
            var s5 := Execute(s4, StepAction(0, t, false));
            var s6 := Execute(s5, StepAction(0, t, false));
            var s7 := Execute(s6, StepAction(0, t, false));
            && GetProgress(s1.store, "job1") == Found(Tracked(Processing, 0, ""))
            && s1.available == DefaultCapacity - 1
            && GetProgress(s6.store, "job1") == Found(Tracked(Done, 3, lines[0] + lines[1] + lines[2]))
            && s6.available == DefaultCapacity - 1
            && AudioKey("job1", upload.filename) in s6.store.audio
            && GetProgress(s7.store, "job1") == Found(Tracked(Done, 3, lines[0] + lines[1] + lines[2]))
            && GetResult(s7.store, "job1") == Some(lines[0] + lines[1] + lines[2])
            && AudioKey("job1", upload.filename) !in s7.store.audio
            && s7.available == DefaultCapacity && s7.tasks == [] && s7.callbacks == []
            && Submit(s7, Some("job1"), uuid, upload, t).response == Conflict("job1")
  {
    SubmitFirst(upload, uuid, t);
    var job := Job("job1", AudioKey("job1", upload.filename), None);
    var s2 := Execute(Admitted(upload, t), BeginAction(0, lines));
    var e := Start(job, lines);
    assert s2 == Admitted(upload, t).(tasks := [Running(e)]);
    QuietStep(s2, e, t, false);
    var s3 := Execute(s2, StepAction(0, t, false));
    var e3 := e.(count := 1, result := lines[0]);
    assert e.result + lines[0] == lines[0];
    QuietStep(s3, e3, t, false);
    var s4 := Execute(s3, StepAction(0, t, false));
    var e4 := e3.(count := 2, result := lines[0] + lines[1]);
    QuietStep(s4, e4, t, false);
    var s5 := Execute(s4, StepAction(0, t, false));
    var e5 := e4.(count := 3, result := lines[0] + lines[1] + lines[2]);
    CompletionStep(s5, e5, t, false);
    var s6 := Execute(s5, StepAction(0, t, false));
    NotifyStep(s6, e5.(phase := Notifying), t, false);
  }

  /** A segment step of a lone, uncancelled run that does not reach a checkpoint
      changes nothing but the run's own count and text. */
  lemma QuietStep(sys: System, e: Exec, t: int, delivered: bool)
    requires sys.tasks == [Running(e)] && e.phase == Looping && e.count < |e.lines|
    requires (e.count + 1) % CheckpointEvery != 0 && !CancelRequested(sys.store, e.job.id)
    ensures Execute(sys, StepAction(0, t, delivered)) ==
            sys.(tasks := [Running(e.(count := e.count + 1, result := e.result + e.lines[e.count]))])
  {
    var r := Execute(sys, StepAction(0, t, delivered));
    assert r.store == sys.store;
  }

  /** Once a lone run has consumed every line, its next step writes the output and
      the `done` record and keeps the permit. */
  lemma CompletionStep(sys: System, e: Exec, t: int, delivered: bool)
    requires sys.tasks == [Running(e)] && e.phase == Looping && e.count == |e.lines|
    ensures Execute(sys, StepAction(0, t, delivered)) ==
            sys.(store := sys.store.(progress := sys.store.progress[e.job.id := Stamped(Tracked(Done, e.count, e.result), t)],
                                     output := sys.store.output[e.job.id := Stamped(e.result, t)]),
                 tasks := [Running(e.(phase := Notifying))])
  {
  }

  /** The last step of a lone completed run without a callback removes its audio and
      releases its permit. */
  lemma NotifyStep(sys: System, e: Exec, t: int, delivered: bool)
    requires sys.tasks == [Running(e)] && e.phase == Notifying && e.count <= |e.lines|
    requires e.job.callbackUrl == None
    ensures Execute(sys, StepAction(0, t, delivered)) ==
            sys.(store := sys.store.(audio := sys.store.audio - {e.job.audio}), tasks := [], available := sys.available + 1)
  {
  }

  /** A lone run that finds its cancel flag set writes the `cancelled` record, removes its
      audio and releases its permit. */
  lemma CancelStep(sys: System, e: Exec, t: int, delivered: bool)
    requires sys.tasks == [Running(e)] && e.phase == Looping && e.count < |e.lines|
    requires CancelRequested(sys.store, e.job.id)
    ensures Execute(sys, StepAction(0, t, delivered)) ==
            sys.(store := sys.store.(progress := sys.store.progress[e.job.id := Stamped(Tracked(Cancelled, e.count, e.result), t)],
                                     audio := sys.store.audio - {e.job.audio}),
                 tasks := [], available := sys.available + 1)
  {
  }

  /** Submit "job1", let one segment through, cancel before the second: the job ends
      `cancelled` with that one segment, its audio is gone and no output is written. */
  lemma CancelledJob(lines: seq<string>, upload: Upload, uuid: string, t: int)
    requires |lines| == 3
    ensures var s1 := Execute(Init(EmptyStore, DefaultCapacity), SubmitAction(Some("job1"), uuid, upload, t));
            var s2 := Execute(s1, BeginAction(0, lines));
            var s3 := Execute(s2, StepAction(0, t, true));
            var s4 := Execute(s3, CancelAction("job1", t));
            var s5 := Execute(s4, StepAction(0, t, true));
            && GetProgress(s5.store, "job1") == Found(Tracked(Cancelled, 1, lines[0]))
            && GetResult(s5.store, "job1") == None
            && AudioKey("job1", upload.filename) !in s5.store.audio
            && s5.available == DefaultCapacity && s5.tasks == [] && s5.callbacks == []
  {
    SubmitFirst(upload, uuid, t);
    var job := Job("job1", AudioKey("job1", upload.filename), upload.callbackUrl);
    var s2 := Execute(Admitted(upload, t), BeginAction(0, lines));
    var e := Start(job, lines);
    assert s2 == Admitted(upload, t).(tasks := [Running(e)]);
    QuietStep(s2, e, t, true);
    var s3 := Execute(s2, StepAction(0, t, true));
    var e3 := e.(count := 1, result := lines[0]);
    assert e.result + lines[0] == lines[0];
    var s4 := Execute(s3, CancelAction("job1", t));
    assert s4.tasks == [Running(e3)];
    CancelStep(s4, e3, t, true);
  }

  /** With a single permit held by "job1", submitting "job2" is throttled: no permit
      is taken, no task scheduled, no cancel record created, and the audio stays. */
  lemma ThrottledJob(upload: Upload, uuid: string, t: int)
    ensures var s1 := Execute(Init(EmptyStore, 1), SubmitAction(Some("job1"), uuid, upload, t));
            var r := Submit(s1, Some("job2"), uuid, upload, t);
            && r.response == ThrottledResponse("job2", "/result/job2")
            && r.sys.available == 0 && |r.sys.tasks| == 1
            && "job2" !in r.sys.store.cancel
            && AudioKey("job2", upload.filename) in r.sys.store.audio
            && GetProgress(r.sys.store, "job2") == Found(ThrottledNotice(ThrottledMessage, "/result/job2"))
  {
  }
}
