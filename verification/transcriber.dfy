/** The transcriber's segment loop (`transcribe_audio`).

    The speech model is not modelled: its output is the sequence of formatted
    segment lines it yields, each an opaque string. A run walks those lines in
    order; before each one it reads the job's cancel flag. The run's writes
    to the store are returned as a sequence of effects, so that the service
    can apply them and the lemmas below can talk about their order.
 */
module Transcriber {
  import opened Records

  /** What a background run is handed: the job ID, its audio file and the optional callback URL. */
  datatype Job = Job(id: string, audio: AudioKey, callbackUrl: Option<string>)

  /** `Notifying`: the output and the `done` record are written; the callback
      attempt and the audio removal are still to come. */
  datatype Phase = Looping | Notifying | Ended(status: Status)

  /** The loop state of one run: `count` segments consumed, `result` accumulated. */
  datatype Exec = Exec(job: Job, lines: seq<string>, count: nat, result: string, phase: Phase)

  /** One write the transcriber performs, in the order it performs them. */
  datatype Effect =
    | WriteProgress(record: ProgressRecord)
    | WriteOutput(text: string)
    | PostCallback(url: string, id: string, transcription: string)
    | RemoveAudio

  /** The run state after one step, and the writes that step performed. */
  datatype Stepped = Stepped(exec: Exec, effects: seq<Effect>)

  const CheckpointEvery: nat := 5

  function Start(job: Job, lines: seq<string>): Exec {
    Exec(job, lines, 0, "", Looping)
  }

  /** A run that has not yet returned. */
  predicate Active(e: Exec) {
    e.phase == Looping || e.phase == Notifying
  }

  /** The accumulated text is always the in-order join of the consumed lines,
      and the completion writes happen only once every line is consumed. */
  ghost predicate Consistent(e: Exec) {
    && e.count <= |e.lines|
    && e.result == Concat(e.lines[..e.count])
    && (e.phase == Notifying ==> e.count == |e.lines|)
  }

  /** A callback is attempted only when a non-empty URL was supplied (Python truthiness). */
  predicate CallbackWanted(url: Option<string>) {
    url.Some? && url.value != ""
  }

  function CallbackEffects(job: Job, text: string): seq<Effect> {
    if CallbackWanted(job.callbackUrl) then [PostCallback(job.callbackUrl.value, job.id, text)] else []
  }

  /** The writes right after the last segment: the output text, then the `done` record. */
  function Finalize(count: nat, result: string): seq<Effect> {
    [WriteOutput(result), WriteProgress(Tracked(Done, count, result))]
  }

  /** The writes after the `done` record: the optional callback, then the audio removal. */
  function Notify(job: Job, result: string): seq<Effect> {
    CallbackEffects(job, result) + [RemoveAudio]
  }

  /** One step of a run, given the cancel flag as read at this boundary: one
      iteration of the segment loop, the completion writes, or the callback and
      audio removal that end a completed run. */
  function Step(e: Exec, cancelRequested: bool): (r: Stepped)
    requires Active(e) && e.count <= |e.lines|
    ensures r.exec.job == e.job && r.exec.lines == e.lines
    ensures Consistent(e) ==> Consistent(r.exec)
    ensures r.exec.phase == Looping <==> e.phase == Looping && e.count < |e.lines| && !cancelRequested
    ensures r.exec.phase == Looping ==>
              && r.exec.count == e.count + 1
              && e.result <= r.exec.result
              && (forall x :: x in r.effects ==>
                    x.WriteProgress? && x.record == Tracked(Processing, r.exec.count, r.exec.result))
              && (|r.effects| == 1 <==> r.exec.count % CheckpointEvery == 0)
    ensures r.exec.phase == Looping ==>
              && r.exec == e.(count := e.count + 1, result := e.result + e.lines[e.count])
              && r.effects == (if r.exec.count % CheckpointEvery == 0
                               then [WriteProgress(Tracked(Processing, r.exec.count, r.exec.result))] else [])
    ensures r.exec.phase == Ended(Cancelled) <==> e.phase == Looping && e.count < |e.lines| && cancelRequested
    ensures r.exec.phase == Ended(Cancelled) ==>
              && r.exec.count == e.count && r.exec.result == e.result
              && r.effects == [WriteProgress(Tracked(Cancelled, e.count, e.result)), RemoveAudio]
    ensures r.exec.phase == Notifying <==> e.phase == Looping && e.count == |e.lines|
    ensures r.exec.phase == Notifying ==>
              r.exec.count == e.count && r.exec.result == e.result && r.effects == Finalize(e.count, e.result)
    ensures r.exec.phase == Ended(Done) <==> e.phase == Notifying
    ensures r.exec.phase == Ended(Done) ==>
              r.exec.count == e.count && r.exec.result == e.result && r.effects == Notify(e.job, e.result)
  {
    if e.phase == Notifying then
      Stepped(e.(phase := Ended(Done)), Notify(e.job, e.result))
    else if e.count < |e.lines| then
      if cancelRequested then
        Stepped(e.(phase := Ended(Cancelled)), [WriteProgress(Tracked(Cancelled, e.count, e.result)), RemoveAudio])
      else
        var count := e.count + 1;
        var result := e.result + e.lines[e.count];
        assert Consistent(e) ==> result == Concat(e.lines[..count]) by {
          if Consistent(e) { ConcatSnoc(e.lines, e.count); }
        }
        Stepped(e.(count := count, result := result),
                if count % CheckpointEvery == 0 then [WriteProgress(Tracked(Processing, count, result))] else [])
    else
      Stepped(e.(phase := Notifying), Finalize(e.count, e.result))
  }

  // ----- A reference description of a whole run -----

  /** The index of the first boundary at which the cancel flag was seen set, or |flags| if none. */
  function FirstCancel(flags: seq<bool>): (k: nat)
    ensures k <= |flags|
    ensures forall j :: 0 <= j < k ==> !flags[j]
    ensures k < |flags| ==> flags[k]
  {
    if |flags| == 0 then 0
    else if flags[0] then 0
    else 1 + FirstCancel(flags[1..])
  }

  function Checkpoint(lines: seq<string>, c: nat): Effect
    requires c <= |lines|
  {
    WriteProgress(Tracked(Processing, c, Concat(lines[..c])))
  }

  /** The checkpoints a run writes while consuming n segments: one at every positive multiple of 5. */
  function Checkpoints(lines: seq<string>, n: nat): seq<Effect>
    requires n <= |lines|
  {
    seq(n / CheckpointEvery, j requires 0 <= j < n / CheckpointEvery => Checkpoint(lines, CheckpointEvery * (j + 1)))
  }

  /** The progress record a run leaves behind. */
  function FinalRecord(lines: seq<string>, flags: seq<bool>): ProgressRecord
    requires |flags| == |lines|
  {
    var k := FirstCancel(flags);
    Tracked(if k < |lines| then Cancelled else Done, k, Concat(lines[..k]))
  }

  /** What a run writes after its last checkpoint. */
  function Ending(job: Job, lines: seq<string>, flags: seq<bool>): seq<Effect>
    requires |flags| == |lines|
  {
    var f := FinalRecord(lines, flags);
    if f.status == Cancelled then [WriteProgress(f), RemoveAudio]
    else [WriteOutput(f.result), WriteProgress(f)] + CallbackEffects(job, f.result) + [RemoveAudio]
  }

  /** Everything a run writes, given the cancel flag it reads before each segment. */
  function Expected(job: Job, lines: seq<string>, flags: seq<bool>): seq<Effect>
    requires |flags| == |lines|
  {
    Checkpoints(lines, FirstCancel(flags)) + Ending(job, lines, flags)
  }

  lemma CheckpointsSnoc(lines: seq<string>, n: nat)
    requires n < |lines|
    ensures Checkpoints(lines, n + 1) ==
            Checkpoints(lines, n) + (if (n + 1) % CheckpointEvery == 0 then [Checkpoint(lines, n + 1)] else [])
  {
  }

  /** `transcribe_audio`: the segment loop run to its end. `flags[k]` is the cancel
      flag as read before segment k (false when the cancel record is missing). */
  method TranscribeAudio(job: Job, lines: seq<string>, flags: seq<bool>) returns (effects: seq<Effect>, status: Status)
    requires |flags| == |lines|
    ensures effects == Expected(job, lines, flags)
    ensures status == Cancelled <==> exists k :: 0 <= k < |flags| && flags[k]
    ensures status == Done <==> forall k :: 0 <= k < |flags| ==> !flags[k]
    ensures WriteProgress(FinalRecord(lines, flags)) in effects && FinalRecord(lines, flags).status == status
  {
    var e := Start(job, lines);
    effects := [];
    while Active(e)
      invariant e.job == job && e.lines == lines && Consistent(e)
      invariant Active(e) ==> LoopInvariant(job, lines, flags, e, effects)
      invariant e.phase.Ended? ==>
                  effects == Expected(job, lines, flags) && e.phase.status == FinalRecord(lines, flags).status
      decreases |lines| - e.count, Rank(e.phase)
    {
      var flag := if e.count < |flags| then flags[e.count] else false;
      var next := Step(e, flag);
      LoopStep(job, lines, flags, e, effects, flag);
      e := next.exec;
      effects := effects + next.effects;
    }
    status := e.phase.status;
    FinalRecordWritten(job, lines, flags);
  }

  function Rank(p: Phase): nat {
    match p
    case Looping => 2
    case Notifying => 1
    case Ended(_) => 0
  }

  /** No cancel flag was seen before the consumed segments, and only their checkpoints
      (and, once all are consumed, the completion writes) have been made. */
  ghost predicate LoopInvariant(job: Job, lines: seq<string>, flags: seq<bool>, e: Exec, effects: seq<Effect>)
    requires e.count <= |lines|
  {
    && (forall j :: 0 <= j < e.count ==> j < |flags| && !flags[j])
    && (e.phase == Looping ==> effects == Checkpoints(lines, e.count))
    && (e.phase == Notifying ==> effects == Checkpoints(lines, e.count) + Finalize(e.count, e.result))
  }

  /** One loop iteration keeps the loop invariant, or ends the run with exactly the expected writes. */
  lemma LoopStep(job: Job, lines: seq<string>, flags: seq<bool>, e: Exec, effects: seq<Effect>, flag: bool)
    requires |flags| == |lines| && e.job == job && e.lines == lines && Consistent(e) && Active(e)
    requires LoopInvariant(job, lines, flags, e, effects)
    requires flag == (if e.count < |flags| then flags[e.count] else false)
    ensures var next := Step(e, flag);
            && Consistent(next.exec) && next.exec.job == job && next.exec.lines == lines
            && (Active(next.exec) ==> LoopInvariant(job, lines, flags, next.exec, effects + next.effects))
            && (next.exec.phase.Ended? ==>
                  && effects + next.effects == Expected(job, lines, flags)
                  && next.exec.phase.status == FinalRecord(lines, flags).status)
  {
    var next := Step(e, flag);
    var k := FirstCancel(flags);
    assert lines[..|lines|] == lines;
    if next.exec.phase == Looping {
      CheckpointsSnoc(lines, e.count);
    } else if next.exec.phase == Notifying {
      assert k == |lines|;
    } else if next.exec.phase == Ended(Done) {
      assert k == |lines|;
      assert effects + next.effects == Checkpoints(lines, k) + (Finalize(e.count, e.result) + Notify(job, e.result));
    } else {
      assert k == e.count;
    }
  }

  /** The final record of a run is among its writes. */
  lemma FinalRecordWritten(job: Job, lines: seq<string>, flags: seq<bool>)
    requires |flags| == |lines|
    ensures WriteProgress(FinalRecord(lines, flags)) in Expected(job, lines, flags)
  {
    var f := FinalRecord(lines, flags);
    var effects := Expected(job, lines, flags);
    var n := |Checkpoints(lines, FirstCancel(flags))|;
    if f.status == Cancelled {
      assert effects[n] == WriteProgress(f);
    } else {
      assert effects[n + 1] == WriteProgress(f);
    }
  }

  // ----- Properties of a whole run -----

  /** Every progress record a run writes is a prefix-snapshot of the lines: its
      result joins exactly the first `segments` lines, and a `processing`
      checkpoint sits at a positive multiple of 5. */
  lemma {:induction false} ProgressWritesAreSnapshots(job: Job, lines: seq<string>, flags: seq<bool>, i: nat)
    requires |flags| == |lines|
    requires i < |Expected(job, lines, flags)| && Expected(job, lines, flags)[i].WriteProgress?
    ensures var rec := Expected(job, lines, flags)[i].record;
            && rec.Tracked?
            && rec.segments <= FinalRecord(lines, flags).segments
            && rec.result == Concat(lines[..rec.segments])
            && rec.result <= FinalRecord(lines, flags).result
            && (rec.status == Processing <==> i < |Checkpoints(lines, FirstCancel(flags))|)
            && (rec.status == Processing ==> rec.segments > 0 && rec.segments % CheckpointEvery == 0)
  {
    var k := FirstCancel(flags);
    var cp := Checkpoints(lines, k);
    var rec := Expected(job, lines, flags)[i].record;
    if i < |cp| {
      assert rec == Tracked(Processing, CheckpointEvery * (i + 1), Concat(lines[..CheckpointEvery * (i + 1)]));
      ConcatPrefix(lines, CheckpointEvery * (i + 1), k);
    } else {
      EndingWritesFinal(job, lines, flags, i - |cp|);
    }
  }

  /** After the checkpoints, the only progress record a run writes is its final one. */
  lemma EndingWritesFinal(job: Job, lines: seq<string>, flags: seq<bool>, i: nat)
    requires |flags| == |lines|
    requires i < |Ending(job, lines, flags)| && Ending(job, lines, flags)[i].WriteProgress?
    ensures Ending(job, lines, flags)[i].record == FinalRecord(lines, flags)
    ensures FinalRecord(lines, flags).result == Concat(lines[..FinalRecord(lines, flags).segments])
  {
  }

  /** Successive progress writes never go backwards: `segments` does not decrease,
      each result is a prefix of the next, and checkpoints strictly increase. */
  lemma {:induction false} ProgressWritesMonotone(job: Job, lines: seq<string>, flags: seq<bool>, i: nat, j: nat)
    requires |flags| == |lines|
    requires i < j < |Expected(job, lines, flags)|
    requires Expected(job, lines, flags)[i].WriteProgress? && Expected(job, lines, flags)[j].WriteProgress?
    ensures var a := Expected(job, lines, flags)[i].record;
            var b := Expected(job, lines, flags)[j].record;
            && a.Tracked? && b.Tracked?
            && a.segments <= b.segments
            && a.result <= b.result
            && (b.status == Processing ==> a.segments < b.segments)
  {
    var k := FirstCancel(flags);
    var cp := Checkpoints(lines, k);
    ProgressWritesAreSnapshots(job, lines, flags, i);
    ProgressWritesAreSnapshots(job, lines, flags, j);
    var a := Expected(job, lines, flags)[i].record;
    var b := Expected(job, lines, flags)[j].record;
    if j < |cp| {
      assert a == Tracked(Processing, CheckpointEvery * (i + 1), Concat(lines[..CheckpointEvery * (i + 1)]));
      assert b == Tracked(Processing, CheckpointEvery * (j + 1), Concat(lines[..CheckpointEvery * (j + 1)]));
      ConcatPrefix(lines, a.segments, b.segments);
    } else {
      assert Expected(job, lines, flags)[j] == Ending(job, lines, flags)[j - |cp|];
      EndingWritesFinal(job, lines, flags, j - |cp|);
    }
  }

  /** No checkpoint is skipped: every positive multiple of 5 up to the final count is written. */
  lemma CheckpointsNotSkipped(job: Job, lines: seq<string>, flags: seq<bool>, c: nat)
    requires |flags| == |lines|
    requires 0 < c <= FirstCancel(flags) && c % CheckpointEvery == 0
    ensures WriteProgress(Tracked(Processing, c, Concat(lines[..c]))) in Expected(job, lines, flags)
  {
    var k := FirstCancel(flags);
    var j := c / CheckpointEvery - 1;
    assert Checkpoints(lines, k)[j] == Checkpoint(lines, c);
    assert Expected(job, lines, flags)[j] == Checkpoint(lines, c);
  }

  /** The output file is written only on natural completion, and then holds
      exactly the result of the final `done` record: all lines, in order. */
  lemma {:induction false} OutputMatchesFinal(job: Job, lines: seq<string>, flags: seq<bool>)
    requires |flags| == |lines|
    ensures var e := Expected(job, lines, flags);
            var f := FinalRecord(lines, flags);
            && (f.status == Done <==> exists i :: 0 <= i < |e| && e[i].WriteOutput?)
            && (forall i :: 0 <= i < |e| && e[i].WriteOutput? ==> e[i].text == f.result)
            && (f.status == Done ==> f.segments == |lines| && f.result == Concat(lines))
            && (f.status == Cancelled ==> f.segments < |lines| && f.result <= Concat(lines))
  {
    var e := Expected(job, lines, flags);
    var k := FirstCancel(flags);
    var cp := Checkpoints(lines, k);
    assert lines[..|lines|] == lines;
    ConcatPrefix(lines, k, |lines|);
    if k == |lines| {
      assert e[|cp|].WriteOutput?;
    }
    forall i | 0 <= i < |e| && e[i].WriteOutput?
      ensures k == |lines| && i == |cp| && e[i].text == Concat(lines)
    {
      if i >= |cp| {
        assert e[i] == Ending(job, lines, flags)[i - |cp|];
      }
    }
  }

  /** The callback is attempted at most once, only on natural completion and only
      when a URL was supplied; it carries the final result. */
  lemma {:induction false} CallbackAtMostOnce(job: Job, lines: seq<string>, flags: seq<bool>)
    requires |flags| == |lines|
    ensures var e := Expected(job, lines, flags);
            var f := FinalRecord(lines, flags);
            && (forall i, j :: 0 <= i < |e| && 0 <= j < |e| && e[i].PostCallback? && e[j].PostCallback? ==> i == j)
            && ((exists i :: 0 <= i < |e| && e[i].PostCallback?) <==> f.status == Done && CallbackWanted(job.callbackUrl))
            && (forall i :: 0 <= i < |e| && e[i].PostCallback? ==>
                  e[i] == PostCallback(job.callbackUrl.value, job.id, f.result))
  {
    var e := Expected(job, lines, flags);
    var k := FirstCancel(flags);
    var cp := Checkpoints(lines, k);
    assert lines[..|lines|] == lines;
    forall i | 0 <= i < |e| && e[i].PostCallback?
      ensures k == |lines| && CallbackWanted(job.callbackUrl) && i == |cp| + 2
      ensures e[i] == PostCallback(job.callbackUrl.value, job.id, Concat(lines))
    {
    }
    if k == |lines| && CallbackWanted(job.callbackUrl) {
      assert e[|cp| + 2].PostCallback?;
    }
  }

  /** The audio file is removed exactly once, as the last write, whether the run completes or is cancelled. */
  lemma {:induction false} AudioRemovedOnce(job: Job, lines: seq<string>, flags: seq<bool>)
    requires |flags| == |lines|
    ensures var e := Expected(job, lines, flags);
            && |e| > 0 && e[|e| - 1] == RemoveAudio
            && (forall i :: 0 <= i < |e| && e[i] == RemoveAudio ==> i == |e| - 1)
  {
    var e := Expected(job, lines, flags);
    var k := FirstCancel(flags);
    var cp := Checkpoints(lines, k);
    forall i | 0 <= i < |e| && e[i] == RemoveAudio
      ensures i == |e| - 1
    {
    }
  }
}
