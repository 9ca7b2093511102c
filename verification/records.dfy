/** The records the transcription service keeps in its `tmp/` directory.

    Every file of that directory is one of four kinds: the progress record of
    a job, its output text, its cancel flag, or the uploaded audio. The store
    is modelled as one map per kind, keyed by the job ID (the audio file's
    name also carries the uploaded file name). Each entry carries the integer
    time it was last written, which is all the retention sweep looks at.
 */
module Records {

  datatype Option<+T> = None | Some(value: T)

  type Bytes = seq<bv8>

  /** The `status` field of a progress record written by admission or by the transcriber. */
  datatype Status = Processing | Done | Cancelled

  /** A progress record: either the `{status, segments, result}` triple, or the
      notice admission writes when no permit is available. */
  datatype ProgressRecord =
    | Tracked(status: Status, segments: nat, result: string)
    | ThrottledNotice(message: string, resultUrl: string)

  /** A stored value together with its last-modified time, in whole seconds. */
  datatype Stamped<+T> = Stamped(value: T, mtime: int)

  /** The audio file of a job is named after the job ID and the uploaded file name. */
  datatype AudioKey = AudioKey(id: string, filename: string)

  datatype Store = Store(
    progress: map<string, Stamped<ProgressRecord>>,
    output: map<string, Stamped<string>>,
    cancel: map<string, Stamped<bool>>,
    audio: map<AudioKey, Stamped<Bytes>>)

  const EmptyStore: Store := Store(map[], map[], map[], map[])

  const ThrottledMessage: string := "Transcription is throttled. Please retry later."

  /** The URL under which a job's output is served. */
  function ResultUrl(id: string): string {
    "/result/" + id
  }

  /** The text a run accumulates: its segment lines joined in order. */
  function Concat(lines: seq<string>): string {
    if |lines| == 0 then "" else Concat(lines[..|lines| - 1]) + lines[|lines| - 1]
  }

  /** Appending the next segment line extends the accumulated text by exactly that line. */
  lemma ConcatSnoc(lines: seq<string>, k: nat)
    requires k < |lines|
    ensures Concat(lines[..k + 1]) == Concat(lines[..k]) + lines[k]
  {
    assert lines[..k + 1][..k] == lines[..k];
  }

  /** The text accumulated after j segments is a prefix of the text accumulated after k >= j. */
  lemma {:induction false} ConcatPrefix(lines: seq<string>, j: nat, k: nat)
    requires j <= k <= |lines|
    ensures Concat(lines[..j]) <= Concat(lines[..k])
  {
    if j < k {
      ConcatPrefix(lines, j, k - 1);
      ConcatSnoc(lines, k - 1);
    }
  }
}
