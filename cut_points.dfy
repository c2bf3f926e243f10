/**
 * The loop of `VideoChunker.find_cut_points`: starting at time 0, each step
 * looks for the longest silence that starts in a window around
 * `current + target_duration` and cuts in its middle, or cuts at
 * `current + target_duration + 10` when there is none, until a cut would
 * reach the end of the video. Times are `real`; the silences and the
 * duration that ffmpeg and ffprobe report are inputs.
 */
module CutSchedule {
  import opened Wrappers
  import opened SilenceLog

  function Min(a: real, b: real): real {
    if b < a then b else a
  }

  /** Every silence ends no earlier than it starts. */
  predicate WellFormed(silences: seq<Silence>) {
    forall i :: 0 <= i < |silences| ==> silences[i].start <= silences[i].end
  }

  /** `search_start <= start <= search_end` in the step that begins at
      `current`: the window runs from `current + (target - 20)` to
      `current + (target + 20)`, cut short at the end of the video. */
  predicate Qualifies(s: Silence, current: real, target: int, duration: real): (b: bool)
    ensures b <==> && current + (target - 20) as real <= s.start
                   && s.start <= current + (target + 20) as real
                   && s.start <= duration
  {
    current + (target - 20) as real <= s.start <= Min(current + (target + 20) as real, duration)
  }

  /** Silence `k` is the one the inner loop keeps: it qualifies, no qualifying
      silence is longer, and every qualifying silence before it is shorter
      (the comparison is a strict `>`, so a tie keeps the earlier one). */
  predicate IsBest(ss: seq<Silence>, k: int, current: real, target: int, duration: real) {
    && 0 <= k < |ss|
    && Qualifies(ss[k], current, target, duration)
    && (forall j :: 0 <= j < |ss| && Qualifies(ss[j], current, target, duration) ==> ss[j].duration <= ss[k].duration)
    && (forall j :: 0 <= j < k && Qualifies(ss[j], current, target, duration) ==> ss[j].duration < ss[k].duration)
  }

  /** The index the inner loop ends with after reading all of `ss`. */
  function BestIndex(ss: seq<Silence>, current: real, target: int, duration: real): (r: Option<nat>)
    ensures r.None? <==> forall j :: 0 <= j < |ss| ==> !Qualifies(ss[j], current, target, duration)
    ensures r.Some? ==> IsBest(ss, r.value, current, target, duration)
  {
    if ss == [] then None
    else
      var n := |ss| - 1;
      var b := BestIndex(ss[..n], current, target, duration);
      assert forall j :: 0 <= j < n ==> ss[..n][j] == ss[j];
      if Qualifies(ss[n], current, target, duration) && (b.None? || ss[n].duration > ss[b.value].duration)
      then Some(n)
      else b
  }

  /** `best_silence` after the inner loop. */
  function BestSilence(ss: seq<Silence>, current: real, target: int, duration: real): Option<Silence> {
    match BestIndex(ss, current, target, duration)
    case None => None
    case Some(k) => Some(ss[k])
  }

  /** One more silence read by the inner loop. */
  lemma BestSilenceStep(ss: seq<Silence>, i: nat, current: real, target: int, duration: real)
    requires i < |ss|
    ensures var b := BestSilence(ss[..i], current, target, duration);
            BestSilence(ss[..i + 1], current, target, duration) ==
              if Qualifies(ss[i], current, target, duration) && (b.None? || ss[i].duration > b.value.duration)
              then Some(ss[i]) else b
  {
    assert ss[..i + 1][..i] == ss[..i];
  }

  /** At most one silence is the best one. */
  lemma BestIsUnique(ss: seq<Silence>, k: int, m: int, current: real, target: int, duration: real)
    requires IsBest(ss, k, current, target, duration) && IsBest(ss, m, current, target, duration)
    ensures k == m
  {
  }

  /** The cut made in the step that begins at `current`: the middle of the
      best silence, or `min(current + target + 10, duration)` when no silence
      starts in the window. */
  function NextCut(ss: seq<Silence>, target: int, duration: real, current: real): (cut: real)
    ensures forall k :: IsBest(ss, k, current, target, duration) ==>
              cut == ss[k].start + (ss[k].end - ss[k].start) / 2.0
    ensures (forall j :: 0 <= j < |ss| ==> !Qualifies(ss[j], current, target, duration)) ==>
              cut == Min(current + target as real + 10.0, duration)
  {
    match BestIndex(ss, current, target, duration)
    case Some(k) =>
      assert forall m :: IsBest(ss, m, current, target, duration) ==> m == k by {
        forall m | IsBest(ss, m, current, target, duration) {
          BestIsUnique(ss, m, k, current, target, duration);
        }
      }
      ss[k].start + (ss[k].end - ss[k].start) / 2.0
    case None => Min(current + target as real + 10.0, duration)
  }

  /** A cut that is kept lies at least `target - 20` after the current time
      (for a target below 20, that is a bound before the current time). */
  lemma NextCutAdvances(ss: seq<Silence>, target: int, duration: real, current: real)
    requires WellFormed(ss)
    ensures NextCut(ss, target, duration, current) < duration ==>
              NextCut(ss, target, duration, current) >= current + (target - 20) as real
  {
  }

  /** How far the loop can still go: the whole seconds left before `duration`. */
  function Remaining(duration: real, current: real): nat {
    if current < duration then (duration - current).Floor as nat else 0
  }

  lemma RemainingShrinks(duration: real, current: real, cut: real)
    requires current < cut < duration && current + 1.0 <= cut
    ensures Remaining(duration, cut) < Remaining(duration, current)
  {
    var a, b := duration - current, duration - cut;
    assert b <= a - 1.0;
    assert b.Floor as real <= b && a < a.Floor as real + 1.0;
  }

  /** The cut points appended by the `while` loop from `current` on. */
  function CutsFrom(ss: seq<Silence>, target: int, duration: real, current: real): (r: seq<real>)
    requires target > 20 && WellFormed(ss)
    ensures forall i :: 0 <= i < |r| ==> current < r[i] < duration
    decreases Remaining(duration, current), if current < duration then 1 else 0
  {
    if current >= duration then []
    else
      var cut := NextCut(ss, target, duration, current);
      if cut < duration then
        NextCutAdvances(ss, target, duration, current);
        RemainingShrinks(duration, current, cut);
        [cut] + CutsFrom(ss, target, duration, cut)
      else []
  }

  /** `find_cut_points`: 0 followed by the cuts the loop appends. */
  function CutPoints(ss: seq<Silence>, target: int, duration: real): (r: seq<real>)
    requires target > 20 && WellFormed(ss)
    ensures |r| >= 1 && r[0] == 0.0
    ensures forall i :: 1 <= i < |r| ==> 0.0 < r[i] < duration
  {
    [0.0] + CutsFrom(ss, target, duration, 0.0)
  }

  /** The loop of `find_cut_points`, with the inner loop over the silences. */
  method FindCutPoints(silences: seq<Silence>, target: int, duration: real) returns (cutPoints: seq<real>)
    requires target > 20 && WellFormed(silences)
    ensures cutPoints == CutPoints(silences, target, duration)
  {
    cutPoints := [0.0];
    var currentTime := 0.0;
    while currentTime < duration
      invariant cutPoints + CutsFrom(silences, target, duration, currentTime) == CutPoints(silences, target, duration)
      decreases Remaining(duration, currentTime)
    {
      var nextTarget := currentTime + target as real;
      var searchStart := currentTime + (target - 20) as real;
      var searchEnd := Min(currentTime + (target + 20) as real, duration);
      var best: Option<Silence> := None;
      var i := 0;
      while i < |silences|
        invariant 0 <= i <= |silences|
        invariant best == BestSilence(silences[..i], currentTime, target, duration)
      {
        var s := silences[i];
        BestSilenceStep(silences, i, currentTime, target, duration);
        if searchStart <= s.start <= searchEnd {
          if best.None? || s.duration > best.value.duration {
            best := Some(s);
          }
        }
        i := i + 1;
      }
      assert silences[..i] == silences;
      var cutPoint: real;
      if best.Some? {
        cutPoint := best.value.start + (best.value.end - best.value.start) / 2.0;
      } else {
        cutPoint := Min(nextTarget + 10.0, duration);
      }
      assert cutPoint == NextCut(silences, target, duration, currentTime);
      if cutPoint < duration {
        NextCutAdvances(silences, target, duration, currentTime);
        RemainingShrinks(duration, currentTime, cutPoint);
        cutPoints := cutPoints + [cutPoint];
        currentTime := cutPoint;
      } else {
        break;
      }
    }
  }

  /** Every cut the loop appends from `current` on lies before the end, the
      first at least `target - 20` after `current` and each later one at
      least `target - 20` after the one before it. */
  lemma {:induction false} CutsFromBounds(ss: seq<Silence>, target: int, duration: real, current: real)
    requires target > 20 && WellFormed(ss)
    ensures var c := CutsFrom(ss, target, duration, current);
            && (forall i :: 0 <= i < |c| ==> c[i] < duration)
            && (c != [] ==> c[0] >= current + (target - 20) as real)
            && (forall i :: 0 <= i < |c| - 1 ==> c[i + 1] >= c[i] + (target - 20) as real)
    decreases Remaining(duration, current), if current < duration then 1 else 0
  {
    if current < duration {
      var cut := NextCut(ss, target, duration, current);
      if cut < duration {
        NextCutAdvances(ss, target, duration, current);
        RemainingShrinks(duration, current, cut);
        CutsFromBounds(ss, target, duration, cut);
        var rest := CutsFrom(ss, target, duration, cut);
        var c := CutsFrom(ss, target, duration, current);
        assert c == [cut] + rest;
        assert forall i :: 1 <= i < |c| ==> c[i] == rest[i - 1];
      }
    }
  }

  /** Each cut the loop appends from `current` on is the cut of the step
      that begins at the one before it, and the loop stops exactly when the
      next cut would not lie before the end. */
  lemma {:induction false} CutsFromSteps(ss: seq<Silence>, target: int, duration: real, current: real)
    requires target > 20 && WellFormed(ss)
    ensures var c := CutsFrom(ss, target, duration, current);
            && (c != [] ==> c[0] == NextCut(ss, target, duration, current))
            && (forall i :: 0 <= i < |c| - 1 ==> c[i + 1] == NextCut(ss, target, duration, c[i]))
            && (c == [] ==> current >= duration || NextCut(ss, target, duration, current) >= duration)
            && (c != [] ==> NextCut(ss, target, duration, c[|c| - 1]) >= duration)
    decreases Remaining(duration, current), if current < duration then 1 else 0
  {
    if current < duration {
      var cut := NextCut(ss, target, duration, current);
      if cut < duration {
        NextCutAdvances(ss, target, duration, current);
        RemainingShrinks(duration, current, cut);
        CutsFromSteps(ss, target, duration, cut);
        var rest := CutsFrom(ss, target, duration, cut);
        var c := CutsFrom(ss, target, duration, current);
        assert c == [cut] + rest;
        assert forall i :: 1 <= i < |c| ==> c[i] == rest[i - 1];
      }
    }
  }

  /** The list `find_cut_points` returns starts with 0; every later cut
      point lies before `duration` and at least `target - 20` after the one
      before it. */
  lemma CutPointsIncrease(ss: seq<Silence>, target: int, duration: real)
    requires target > 20 && WellFormed(ss)
    ensures var c := CutPoints(ss, target, duration);
            && c[0] == 0.0
            && (forall i :: 1 <= i < |c| ==> c[i] < duration)
            && (forall i :: 0 <= i < |c| - 1 ==> c[i + 1] >= c[i] + (target - 20) as real)
  {
    CutsFromBounds(ss, target, duration, 0.0);
    var rest := CutsFrom(ss, target, duration, 0.0);
    var c := CutPoints(ss, target, duration);
    assert forall i :: 1 <= i < |c| ==> c[i] == rest[i - 1];
  }

  /** Each cut point after the first is the cut of the step that begins at
      the one before it, and the last one is where the next cut would not
      lie before the end of the video. */
  lemma CutPointsFollowSteps(ss: seq<Silence>, target: int, duration: real)
    requires target > 20 && WellFormed(ss)
    ensures var c := CutPoints(ss, target, duration);
            && (forall i :: 0 <= i < |c| - 1 ==> c[i + 1] == NextCut(ss, target, duration, c[i]))
            && (c[|c| - 1] >= duration || NextCut(ss, target, duration, c[|c| - 1]) >= duration)
  {
    CutsFromSteps(ss, target, duration, 0.0);
    var rest := CutsFrom(ss, target, duration, 0.0);
    var c := CutPoints(ss, target, duration);
    assert c == [0.0] + rest;
    forall i | 0 <= i < |c| - 1
      ensures c[i + 1] == NextCut(ss, target, duration, c[i])
    {
      if i == 0 {
        assert c[i + 1] == rest[0];
      } else {
        assert c[i] == rest[i - 1] && c[i + 1] == rest[i];
      }
    }
    if rest != [] {
      assert c[|c| - 1] == rest[|rest| - 1];
    }
  }

  /** With no silence in the first window and a video no longer than
      `target + 10`, the only cut point is 0. */
  lemma ShortVideoHasOnlyStart(ss: seq<Silence>, target: int, duration: real)
    requires target > 20 && WellFormed(ss)
    requires duration <= (target + 10) as real
    requires forall j :: 0 <= j < |ss| ==> !Qualifies(ss[j], 0.0, target, duration)
    ensures CutPoints(ss, target, duration) == [0.0]
  {
  }

  /** Why the model requires `target > 20`: below 20 the window starts
      before the current time, so a silence already passed can be chosen
      again. With `target_duration = 10` and a one-second silence at the
      start of the video, the cut after 0.5 is 0.5 again, and the Python
      loop appends 0.5 forever. */
  lemma TargetBelowTwentyCanStall()
    ensures NextCut([Silence(0.0, 1.0, 1.0)], 10, 100.0, 0.5) == 0.5
    ensures NextCut([Silence(0.0, 1.0, 1.0)], 10, 100.0, 0.0) == 0.5
  {
    assert IsBest([Silence(0.0, 1.0, 1.0)], 0, 0.5, 10, 100.0);
    assert IsBest([Silence(0.0, 1.0, 1.0)], 0, 0.0, 10, 100.0);
  }

  /** Why the model requires every silence to end after it starts: a
      silence recorded backwards can put the cut back at the current time. */
  lemma BackwardSilenceCanStall()
    ensures NextCut([Silence(100.0, -100.0, 1.0)], 120, 1000.0, 0.0) == 0.0
  {
    assert IsBest([Silence(100.0, -100.0, 1.0)], 0, 0.0, 120, 1000.0);
  }
}
