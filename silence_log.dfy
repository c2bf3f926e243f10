/**
 * The line loop of `VideoChunker.detect_silence`: ffmpeg's `silencedetect`
 * report is read line by line, the value of the last `silence_start` line is
 * remembered, and each `silence_end` line long enough to count records a
 * silence `(start, end, duration)`.
 */
module SilenceLog {
  import opened Text

  /** `min_silence_duration`. */
  const MinSilenceDuration: real := 0.3

  /** One recorded silence: `(start, end, duration)`. */
  datatype Silence = Silence(start: real, end: real, duration: real)

  /** One line of ffmpeg's report. `text` is what the `in` tests look at;
      `startValue`, `endValue` and `durationValue` stand for the numbers
      `float(...)` reads after `silence_start:`, `silence_end:` and
      `silence_duration:` on that line. */
  datatype LogLine = LogLine(text: string, startValue: real, endValue: real, durationValue: real)

  predicate IsStartLine(line: LogLine) {
    Contains(line.text, "silence_start")
  }

  /** The `elif` branch: a line that mentions `silence_start` is never read as an end line. */
  predicate IsEndLine(line: LogLine) {
    !Contains(line.text, "silence_start") && Contains(line.text, "silence_end")
  }

  /** An end line whose duration passes `duration >= min_silence_duration`. */
  predicate IsRecordedEnd(line: LogLine) {
    IsEndLine(line) && line.durationValue >= MinSilenceDuration
  }

  /** The index of the last start line of `lines`, or -1 when there is none. */
  function LastStartIndex(lines: seq<LogLine>): (k: int)
    ensures -1 <= k < |lines|
    ensures 0 <= k ==> IsStartLine(lines[k])
    ensures forall j :: k < j < |lines| ==> !IsStartLine(lines[j])
  {
    if lines == [] then -1
    else if IsStartLine(lines[|lines| - 1]) then |lines| - 1
    else LastStartIndex(lines[..|lines| - 1])
  }

  /** The positions of the end lines that are recorded, in line order. */
  function RecordedIndices(lines: seq<LogLine>): (idx: seq<nat>)
    ensures forall t :: 0 <= t < |idx| ==> idx[t] < |lines| && IsRecordedEnd(lines[idx[t]])
    ensures forall t, u :: 0 <= t < u < |idx| ==> idx[t] < idx[u]
    ensures forall j :: 0 <= j < |lines| && IsRecordedEnd(lines[j]) ==> j in idx
  {
    if lines == [] then []
    else
      var n := |lines| - 1;
      RecordedIndices(lines[..n]) + (if IsRecordedEnd(lines[n]) then [n] else [])
  }

  /** Line `j` is recorded while `start` has never been assigned: Python raises `NameError` there. */
  predicate Unbound(lines: seq<LogLine>, j: nat)
    requires j < |lines|
  {
    IsRecordedEnd(lines[j]) && LastStartIndex(lines[..j]) < 0
  }

  /** The silence recorded for end line `j`: paired with the last start line before it. */
  function PairedSilence(lines: seq<LogLine>, j: nat): Silence
    requires j < |lines| && IsRecordedEnd(lines[j]) && !Unbound(lines, j)
  {
    Silence(lines[LastStartIndex(lines[..j])].startValue, lines[j].endValue, lines[j].durationValue)
  }

  /** After the first `i` lines: no `NameError` yet, and `periods` holds one
      paired silence per recorded end line, in line order. */
  predicate ScannedUpTo(lines: seq<LogLine>, i: nat, periods: seq<Silence>)
    requires i <= |lines|
  {
    && (forall j :: 0 <= j < i ==> !Unbound(lines, j))
    && |periods| == |RecordedIndices(lines[..i])|
    && forall t :: 0 <= t < |periods| ==>
         periods[t] == PairedSilence(lines, RecordedIndices(lines[..i])[t])
  }

  /** One line read: a recorded end line appends its paired silence, any other line appends nothing. */
  lemma ScanStep(lines: seq<LogLine>, i: nat, before: seq<Silence>, after: seq<Silence>)
    requires i < |lines| && ScannedUpTo(lines, i, before) && !Unbound(lines, i)
    requires IsRecordedEnd(lines[i]) ==> after == before + [PairedSilence(lines, i)]
    requires !IsRecordedEnd(lines[i]) ==> after == before
    ensures ScannedUpTo(lines, i + 1, after)
  {
    PrefixStep(lines, i);
  }

  /** The list of silences, or the `NameError` raised at a line. */
  datatype ScanOutcome = Periods(periods: seq<Silence>) | StartUnbound(line: nat)

  /** `detect_silence` after ffmpeg has run: its loop over the report's lines. */
  method DetectSilence(lines: seq<LogLine>) returns (outcome: ScanOutcome)
    ensures outcome.StartUnbound? ==> outcome.line < |lines| && Unbound(lines, outcome.line)
    ensures outcome.StartUnbound? ==> forall j :: 0 <= j < outcome.line ==> !Unbound(lines, j)
    ensures outcome.Periods? <==> forall j :: 0 <= j < |lines| ==> !Unbound(lines, j)
    ensures outcome.Periods? ==> |outcome.periods| == |RecordedIndices(lines)|
    ensures outcome.Periods? ==>
              forall t :: 0 <= t < |outcome.periods| ==>
                outcome.periods[t] == PairedSilence(lines, RecordedIndices(lines)[t])
  {
    var periods: seq<Silence> := [];
    var start: real := 0.0;
    var hasStart := false;
    var i := 0;
    while i < |lines|
      invariant 0 <= i <= |lines|
      invariant hasStart <==> 0 <= LastStartIndex(lines[..i])
      invariant hasStart ==> start == lines[LastStartIndex(lines[..i])].startValue
      invariant ScannedUpTo(lines, i, periods)
    {
      var line := lines[i];
      PrefixStep(lines, i);
      ghost var before := periods;
      if IsStartLine(line) {
        start, hasStart := line.startValue, true;
      } else if IsEndLine(line) {
        if line.durationValue >= MinSilenceDuration {
          if !hasStart {
            assert Unbound(lines, i);
            return StartUnbound(i);
          }
          periods := periods + [Silence(start, line.endValue, line.durationValue)];
        }
      }
      ScanStep(lines, i, before, periods);
      i := i + 1;
    }
    assert lines[..i] == lines;
    return Periods(periods);
  }

  /** How the last start and the recorded positions grow by one line. */
  lemma PrefixStep(lines: seq<LogLine>, i: nat)
    requires i < |lines|
    ensures LastStartIndex(lines[..i + 1]) == if IsStartLine(lines[i]) then i else LastStartIndex(lines[..i])
    ensures RecordedIndices(lines[..i + 1]) ==
              RecordedIndices(lines[..i]) + (if IsRecordedEnd(lines[i]) then [i] else [])
  {
    assert lines[..i + 1][..i] == lines[..i];
  }

  /** Once a start line has been read, no later end line can raise `NameError`. */
  lemma {:induction false} NoUnboundAfterStart(lines: seq<LogLine>, s: nat, j: nat)
    requires s < j < |lines| && IsStartLine(lines[s])
    ensures !Unbound(lines, j)
  {
    assert lines[..j][s] == lines[s];
  }
}
