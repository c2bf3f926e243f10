# Video chunker: episode names, silence log, cut points and chunk plan

This project models the core of `VideoChunker` in `video-chunker/chunker.py`. The chunker cuts each
episode video into parts of about `target_duration` seconds, cutting in silences where it can, and
names every part `<show>_S<season>E<episode>_Part<nnn>.mp4`. Four pieces of it are modelled:

- `extract_show_info` (module `EpisodeNames`, file `episode_names.dfy`). It is pure, so the model is
  made of functions. `re.search` with the lazy `(.*?)[._\s]<lead>(\d+)<mid>(\d+)` pattern and
  `re.IGNORECASE` is written out character by character. The first group is the text from the start
  of the line up to the first separator at which the rest of the pattern matches. Each digit group is
  a maximal run of digits. The fallback is `Path(name).stem`.
- the line loop of `detect_silence` (module `SilenceLog`). It is imperative, so the model is a
  `method` with a `while` loop. The loop is proved against `RecordedIndices`, `LastStartIndex` and
  `PairedSilence`. A `silence_end` line with a duration of at least 0.3 seconds that comes before
  any `silence_start` line raises `NameError` in Python; the model returns the outcome
  `StartUnbound(line)` for it. A shorter end line there raises nothing, because it is skipped.
- the `while` loop of `find_cut_points` (module `CutSchedule`, file `cut_points.dfy`). It is a method
  with the inner `for` loop over the silences, proved against the functions `BestIndex`, `NextCut`
  and `CutPoints`.
- the task loop of `process_videos` (module `ChunkPlan`). It is a method proved against `Plan`. The
  file-name format is proved injective in the part number. When one of the three patterns matched
  the episode's file name, reading a chunk's name back with `extract_show_info` gives the same show,
  season and episode.

Helpers with Python's meaning on ASCII (`str.isspace`, `strip`, `replace`, `zfill`, decimal
formatting) are in module `Text`; `Option` is in module `Wrappers`.

Season and episode stay zero-padded digit strings throughout, as `zfill(2)` leaves them in the code.

## Model

| member | source | states |
|---|---|---|
| Text.IsSpace | video-chunker/chunker.py:25-33 | the characters `\s` matches and `strip()` removes: ASCII 9 to 13 and 28 to 32 |
| Text.IsDigit | video-chunker/chunker.py:25-27 | the characters `\d` matches: `0` to `9` |
| Text.Lower | video-chunker/chunker.py:31 | `re.IGNORECASE` on ASCII: upper-case letters compare as their lower-case forms, digits stay digits, nothing else changes |
| Text.Contains | video-chunker/chunker.py:54-56 | `needle in line`: the needle occurs at some index of the line |
| Text.Strip | video-chunker/chunker.py:33 | `strip()` keeps exactly the middle of the text: both ends of the result are non-whitespace, and every character outside it is whitespace |
| Text.ReplaceChar | video-chunker/chunker.py:33 | `replace(a, b)` keeps the length and changes exactly the characters equal to `a` |
| Text.ZeroPad | video-chunker/chunker.py:34-35 | `zfill(width)` ends with the original text, pads with `'0'` only up to `width`, and keeps a digit string a digit string |
| Text.DecimalDigits | video-chunker/chunker.py:151 | decimal formatting gives a non-empty digit string with no leading zero |
| Text.DecimalRoundTrip | video-chunker/chunker.py:151 | reading the printed digits back gives the number again |
| Text.ZeroPadValue | video-chunker/chunker.py:34-35 | zero padding does not change the value a digit string denotes |
| Text.PaddedDecimalInjective | video-chunker/chunker.py:151 | two different part numbers never give the same `:03d` text |
| EpisodeNames.Patterns | video-chunker/chunker.py:24-28 | the three patterns in the order they are tried: `S(\d+)E(\d+)`, `(\d+)x(\d+)`, `Season(\d+)Episode(\d+)`, each after `(.*?)[._\s]` |
| EpisodeNames.IsSeparator | video-chunker/chunker.py:25-27 | the class `[._\s]`: a dot, an underscore or whitespace |
| EpisodeNames.LiteralAt | video-chunker/chunker.py:25-31 | the pattern's letters `S`/`E`, `x`, `Season`/`Episode` occur at an index, compared without regard to case |
| EpisodeNames.DigitRunEnd | video-chunker/chunker.py:25-27 | `(\d+)` takes a maximal run: every character in it is a digit, and the one after it is not |
| EpisodeNames.MatchAt | video-chunker/chunker.py:25-27 | a match at a separator gives two non-empty digit groups |
| EpisodeNames.FirstMatchFrom | video-chunker/chunker.py:31 | the chosen separator index matches and no smaller one does; with no result, no index matches |
| EpisodeNames.LineStart | video-chunker/chunker.py:25-27 | `.` stops at a newline: the group starts just after the last newline before the separator |
| EpisodeNames.Search | video-chunker/chunker.py:31 | the search fails exactly when the pattern matches at no index; a found first group holds no newline, and both numbers are digit strings |
| EpisodeNames.SearchPrefixSource | video-chunker/chunker.py:31 | the first group is the slice of the name from the start of the line up to the separator `k0`: the pattern matches at `k0` and at no smaller index |
| EpisodeNames.SearchFindsFirstMatch | video-chunker/chunker.py:31 | a match at `n` with none before it, on one line, makes the first group exactly `name[..n]` |
| EpisodeNames.Cleaned | video-chunker/chunker.py:33 | the two `replace` calls on one character: `.` and `_` become a space, every other character stays |
| EpisodeNames.Spaced | video-chunker/chunker.py:33 | the two `replace` calls map every `.` and `_` to a space and keep every other character |
| EpisodeNames.CleanShowName | video-chunker/chunker.py:33 | the cleaned show name holds no `.` or `_` and has no whitespace at either end |
| EpisodeNames.CleanShowNameFrom | video-chunker/chunker.py:33 | the cleaned show name is a stretch of the first group, cleaned character by character |
| EpisodeNames.CleanShowNameIdempotent | video-chunker/chunker.py:33 | cleaning a name that is already clean changes nothing |
| EpisodeNames.FromGroups | video-chunker/chunker.py:33-36 | after a match, season and episode are digit strings at least two long |
| EpisodeNames.LastDot | video-chunker/chunker.py:38 | the index of the last `.`, or -1 when there is none |
| EpisodeNames.Stem | video-chunker/chunker.py:38 | the stem is the name up to its last dot, unless that dot is the first or the last character |
| EpisodeNames.TryPatternsPicksFirst | video-chunker/chunker.py:30-36 | the loop returns the groups of the first pattern that is found |
| EpisodeNames.TryPatternsFallsBack | video-chunker/chunker.py:30-39 | when no pattern is found, the loop returns the stem with `"01"`, `"01"` |
| EpisodeNames.FirstMatchingPatternDecides | video-chunker/chunker.py:22-36 | the first of the three patterns found in the name decides the result, whatever later ones would find |
| EpisodeNames.NoMatchFallsBackToStem | video-chunker/chunker.py:38-39 | with no pattern found, the result is `(stem, "01", "01")` |
| EpisodeNames.TryPatterns | video-chunker/chunker.py:30-39 | the loop over the pattern list: the groups of the first pattern found, else the stem with `"01"`, `"01"`; season and episode are always digit strings at least two long |
| EpisodeNames.ExtractShowInfo | video-chunker/chunker.py:22-39 | `extract_show_info` itself: the pattern loop over the three patterns in order; its season and episode are always digit strings at least two long |
| EpisodeNames.TryPatternsShow | video-chunker/chunker.py:33 | when some pattern is found, the show name is clean |
| EpisodeNames.ExtractShowInfoShape | video-chunker/chunker.py:22-39 | season and episode are digit strings at least two long; after a match, the show name has no `.`, no `_` and no surrounding whitespace |
| EpisodeNames.MatchInCleanedText | video-chunker/chunker.py:25-33 | an `S(\d+)E(\d+)` match inside a cleaned stretch of the name is also a match in the name itself |
| EpisodeNames.SeasonEpisodeInside | video-chunker/chunker.py:25 | a match that starts before a `_` has its separator, letters and season digits before that `_` |
| EpisodeNames.MatchAtFromShape | video-chunker/chunker.py:25 | a separator, `S`, digits, `E` and a digit make a match of the first pattern |
| EpisodeNames.DigitRunEndAt | video-chunker/chunker.py:25 | a run of digits ending at a non-digit is exactly the run `(\d+)` takes |
| EpisodeNames.SeasonEpisodeMatchAt | video-chunker/chunker.py:25 | `_S<season>E<episode>` followed by a non-digit matches the first pattern with exactly those digit groups |
| SilenceLog.MinSilenceDuration | video-chunker/chunker.py:17 | `min_silence_duration` is 0.3 seconds |
| SilenceLog.IsStartLine | video-chunker/chunker.py:54 | a line is a start line when it contains `silence_start` |
| SilenceLog.IsEndLine | video-chunker/chunker.py:56 | a line is an end line when it contains `silence_end` and not `silence_start` (the `elif`) |
| SilenceLog.IsRecordedEnd | video-chunker/chunker.py:56-59 | an end line whose `silence_duration` is at least 0.3 |
| SilenceLog.Unbound | video-chunker/chunker.py:54-60 | a recorded end line read before any `silence_start` line: `start` is unbound there and Python raises `NameError` |
| SilenceLog.PairedSilence | video-chunker/chunker.py:55-60 | the tuple appended for a recorded end line: the start value of the last start line before it, the end line's end and duration |
| SilenceLog.LastStartIndex | video-chunker/chunker.py:54-55 | the index of the last `silence_start` line, or -1; no later line is a start line |
| SilenceLog.RecordedIndices | video-chunker/chunker.py:56-60 | exactly the `silence_end` lines with duration `>= 0.3`, in increasing order |
| SilenceLog.PrefixStep | video-chunker/chunker.py:53-60 | how the last start line and the recorded lines change when one more line is read |
| SilenceLog.ScanStep | video-chunker/chunker.py:53-60 | reading one line keeps the loop invariant: one paired silence per recorded end line so far |
| SilenceLog.DetectSilence | video-chunker/chunker.py:53-60 | returns one `(start, end, duration)` per recorded end line, in order, with `start` from the last start line before it. It raises `NameError` at the first recorded end line with no start line before it, and only there |
| SilenceLog.NoUnboundAfterStart | video-chunker/chunker.py:54-60 | after a `silence_start` line has been read, no later line can raise `NameError` |
| CutSchedule.Qualifies | video-chunker/chunker.py:76-82 | a silence is considered in a step when its start lies between `current + target - 20` and both `current + target + 20` and `duration`, bounds included |
| CutSchedule.Min | video-chunker/chunker.py:78-89 | Python's `min` of two numbers |
| CutSchedule.IsBest | video-chunker/chunker.py:81-84 | the silence the inner loop keeps: it qualifies, no qualifying silence is longer, and every qualifying one before it is strictly shorter |
| CutSchedule.BestIndex | video-chunker/chunker.py:80-84 | no silence is kept exactly when none starts in the window. The kept one starts in the window, none there is longer, and every earlier one there is shorter (ties keep the first) |
| CutSchedule.BestSilence | video-chunker/chunker.py:80-84 | `best_silence` after the inner loop: `None`, or the silence `BestIndex` keeps |
| CutSchedule.BestSilenceStep | video-chunker/chunker.py:81-84 | one more silence read by the inner loop replaces the kept one exactly when it qualifies and is strictly longer |
| CutSchedule.BestIsUnique | video-chunker/chunker.py:83 | at most one silence is the best one |
| CutSchedule.NextCut | video-chunker/chunker.py:86-89 | the cut is the middle of the best silence, or `min(current + target + 10, duration)` when no silence starts in the window |
| CutSchedule.NextCutAdvances | video-chunker/chunker.py:77-89 | for any target, a cut before the end lies at least `target - 20` after the current time (for a target below 20 this bound lies before the current time) |
| CutSchedule.RemainingShrinks | video-chunker/chunker.py:75-93 | each kept cut lowers the whole seconds left, so the loop ends |
| CutSchedule.CutsFrom | video-chunker/chunker.py:75-95 | the cuts the `while` loop appends from `current` on: the step's cut while it lies before the end; each lies after `current` and before `duration` |
| CutSchedule.CutPoints | video-chunker/chunker.py:72-97 | the list `find_cut_points` returns: 0 followed by `CutsFrom` 0; every later point lies strictly between 0 and `duration` |
| CutSchedule.FindCutPoints | video-chunker/chunker.py:72-97 | the loop returns exactly `CutPoints`: 0, then the cut of each step while it lies before the end |
| CutSchedule.CutsFromBounds | video-chunker/chunker.py:75-95 | every appended cut lies before the end, and each lies at least `target - 20` after the one before it |
| CutSchedule.CutsFromSteps | video-chunker/chunker.py:75-95 | each appended cut is the step's cut from the previous one; the loop stops exactly when the next cut would reach the end |
| CutSchedule.CutPointsIncrease | video-chunker/chunker.py:72-97 | the list starts at 0; later points lie before `duration`, each at least `target - 20` after the one before |
| CutSchedule.CutPointsFollowSteps | video-chunker/chunker.py:72-97 | each cut point is the step's cut from the one before it, and the next cut after the last one would not lie before the end |
| CutSchedule.ShortVideoHasOnlyStart | video-chunker/chunker.py:86-95 | with no silence in the first window and `duration <= target + 10`, the only cut point is 0 |
| CutSchedule.TargetBelowTwentyCanStall | video-chunker/chunker.py:14-15 | with `target_duration = 10`, 100 seconds of video and one silence from 0 to 1 second, the first cut is 0.5 and the cut after 0.5 is 0.5 again, so the loop never advances |
| CutSchedule.BackwardSilenceCanStall | video-chunker/chunker.py:86-93 | a silence whose end precedes its start can put the cut back at the current time |
| ChunkPlan.PartString | video-chunker/chunker.py:150-151 | `f"{part_num:03d}"`: the decimal digits of the part number, zero-padded to three |
| ChunkPlan.PartStringValue | video-chunker/chunker.py:151 | the part text is at least three digits long and denotes the part number |
| ChunkPlan.ChunkFileName | video-chunker/chunker.py:153 | `f"{show_name}_S{season}E{episode}_Part{part_str}.mp4"` |
| ChunkPlan.Task | video-chunker/chunker.py:147-163 | the task for chunk `i`: from cut point `i` to cut point `i + 1`, file name of part `i + 1`, `has_silence` false |
| ChunkPlan.Plan | video-chunker/chunker.py:147-164 | the tasks of `range(len(cut_points) - 1)` in submission order; none when there are fewer than two cut points |
| ChunkPlan.PlanChunks | video-chunker/chunker.py:147-153 | the loop submits exactly the tasks of `Plan`, in order |
| ChunkPlan.PlanIsContiguous | video-chunker/chunker.py:147-153 | `n` cut points give `n - 1` tasks; task `i` spans cut points `i` to `i + 1` and is part `i + 1`; each starts where the one before it ends |
| ChunkPlan.ChunkFileNamesDiffer | video-chunker/chunker.py:150-153 | different part numbers give different file names |
| ChunkPlan.PlanFileNamesDistinct | video-chunker/chunker.py:147-153 | no two tasks of one video write the same file |
| ChunkPlan.PlanSpansArePositive | video-chunker/chunker.py:147-149 | over strictly increasing cut points, every chunk has positive length |
| ChunkPlan.PlanCoversCuts | video-chunker/chunker.py:147-149 | the chunks run from the first cut point to the last, with no gap and no overlap |
| ChunkPlan.CutPointsStrictlyIncrease | video-chunker/chunker.py:72-97 | the cut points `find_cut_points` returns increase strictly |
| ChunkPlan.TailNeverEmitted | video-chunker/chunker.py:91-95 | every chunk planned from `find_cut_points` ends before `duration`: the stretch after the last cut point is never written |
| ChunkPlan.ShortVideoYieldsNoChunk | video-chunker/chunker.py:86-95 | a video of positive length no longer than `target + 10`, with no silence in the window, gets no chunk at all |
| ChunkPlan.CoveringCutPoints | video-chunker/chunker.py:91-97 | the corrected cut points: those of `find_cut_points` with `duration` appended when the video has positive length |
| ChunkPlan.CoveringCutPointsSpanVideo | video-chunker/chunker.py:72-97 | the corrected cut points run from 0 to `duration`, increasing strictly |
| ChunkPlan.CoveringPlanSpansVideo | video-chunker/chunker.py:147-153 | with the corrected cut points, the chunks cover the whole video: from 0 to `duration`, every chunk of positive length, with no gap and no overlap |
| ChunkPlan.ChunkFileNameHasNoSlash | video-chunker/chunker.py:153 | a chunk file name has no `/` when the show name has none |
| ChunkPlan.ChunkFileNameLayout | video-chunker/chunker.py:153 | where the show, `_S`, season, `E`, episode and `_Part` lie in a chunk file name |
| ChunkPlan.FileNameLayout | video-chunker/chunker.py:153 | the same layout for any part text |
| ChunkPlan.EpisodeTagLayout | video-chunker/chunker.py:153 | where show, season and episode lie in `<show>_S<season>E<episode>` |
| ChunkPlan.ShowNameSource | video-chunker/chunker.py:31-33 | the show name is a cleaned stretch of the file name that ends before the first matching separator, and it holds no newline |
| ChunkPlan.StretchOfSlice | video-chunker/chunker.py:33 | a cleaned stretch of a slice of the name is a cleaned stretch of the name |
| ChunkPlan.SeasonEpisodeAbsentBefore | video-chunker/chunker.py:24-36 | when pattern `i` decides, `S(\d+)E(\d+)` matches nowhere before the separator where pattern `i` matched |
| ChunkPlan.NoMatchInsideShow | video-chunker/chunker.py:25-33 | in a chunk file name, `S(\d+)E(\d+)` matches nowhere inside the show name taken from such a stretch |
| ChunkPlan.SearchChunkFileName | video-chunker/chunker.py:25-31 | in a chunk file name, the first pattern finds the show, season and episode it was made from |
| ChunkPlan.ReadBackChunkFileName | video-chunker/chunker.py:22-36 | `extract_show_info` of a chunk file name returns the episode it was made from, when that episode's show name is readable |
| ChunkPlan.ShowNameHoldsNoMatch | video-chunker/chunker.py:31-33 | an extracted show name has no `/` and no newline, and `S(\d+)E(\d+)` cannot match inside it in a chunk file name |
| ChunkPlan.ExtractedInfoReadable | video-chunker/chunker.py:22-36 | whatever `extract_show_info` reads from a name with a match can be read back from any of its chunk file names |
| ChunkPlan.ChunkFileNameRoundTrip | video-chunker/chunker.py:142-153 | when one of the three patterns matched the episode's file name, naming a chunk with what `extract_show_info` read from it, then reading that chunk name back, gives the same show, season and episode |
| ChunkPlan.UnmatchedNameFallsBack | video-chunker/chunker.py:22-39 | `a_b.mp4` matches none of the three patterns, so `extract_show_info` returns the raw stem: `("a_b", "01", "01")` |
| ChunkPlan.UnmatchedNameNoMatch | video-chunker/chunker.py:24-31 | no pattern is found in `a_b.mp4`: neither letter after a separator is `s` or a digit |
| ChunkPlan.UnmatchedNameStem | video-chunker/chunker.py:38 | the stem of `a_b.mp4` is `a_b` |
| ChunkPlan.UnderscoreCleaned | video-chunker/chunker.py:33 | cleaning the group `a_b` gives the show name `a b` |
| ChunkPlan.UnmatchedChunkReadBack | video-chunker/chunker.py:22-36 | every chunk name of an episode whose show is the raw stem `a_b`, such as `a_b_S01E01_Part001.mp4`, reads back with the show `a b`, not `a_b` |
| ChunkPlan.UnmatchedChunkSearch | video-chunker/chunker.py:25-31 | in such a chunk name the first pattern is found at the `_` after `a_b`, with group 1 `a_b` |
| ChunkPlan.UnmatchedChunkNoEarlyMatch | video-chunker/chunker.py:25 | the `_` inside `a_b` is followed by `b`, so `S(\d+)E(\d+)` does not match there |

## Left out

- Running ffmpeg and ffprobe, and `float(...)` parsing of their output. The report lines are inputs
  that already carry their numbers (`LogLine`). The duration is a `real` parameter. Times are exact
  reals, not binary floating point. The `split(...)[1]` indexing is left out with them: in Python, a
  line that contains `silence_start` or `silence_end` but lacks the `silence_start:`, `silence_end:`
  or `silence_duration:` field raises `IndexError` (ffmpeg's `Input #0 ... from '<path>'` header does
  this when the video's path contains `silence_end`), while the model gives every line its numbers,
  so such a line sets `start` or records a silence.
- `create_chunk`, the thread pool, `tqdm`, `glob`, `mkdir`, `argparse` and the output directory path:
  process I/O and concurrency. A submitted task is modelled as an element appended to a list. The
  path `output_dir / output_filename` is left out; the plan keeps the file name.
- Regular-expression classes and case folding beyond ASCII. Characters outside ASCII are neither
  whitespace, digits nor letters that fold.
- EpisodeNames.Stem: follows the `Path.stem` rule from before Python 3.14 (a trailing dot is not a
  suffix). `extract_show_info` requires a name without `/`, because the caller passes
  `video_file.name`.
- CutSchedule.FindCutPoints: requires `target_duration > 20` and every silence to end no earlier than
  it starts. Otherwise the Python loop need not terminate, as TargetBelowTwentyCanStall and
  BackwardSilenceCanStall show (see "## Findings" for targets below 20). For a target of exactly 20
  the loop would still end on real silences, whose length is at least 0.3 seconds; the model does
  not relate a silence's `duration` to its `end - start`, so it excludes that target too. The same
  `target > 20 && WellFormed` requirement, and so the same gap, is on CutSchedule.CutsFrom,
  CutSchedule.CutPoints, CutSchedule.CutsFromBounds,
  CutSchedule.CutsFromSteps, CutSchedule.CutPointsIncrease, CutSchedule.CutPointsFollowSteps,
  CutSchedule.ShortVideoHasOnlyStart, ChunkPlan.CutPointsStrictlyIncrease, ChunkPlan.TailNeverEmitted,
  ChunkPlan.ShortVideoYieldsNoChunk, ChunkPlan.CoveringCutPoints, ChunkPlan.CoveringCutPointsSpanVideo
  and ChunkPlan.CoveringPlanSpansVideo.
- ChunkPlan.ChunkFileNameRoundTrip: stated for a name together with the index of the first pattern
  that matches it. When no pattern matches, the show name is the raw stem, which is not cleaned,
  while reading a chunk name back cleans group 1. So `a_b.mp4` gives `("a_b", "01", "01")`, and its
  chunk `a_b_S01E01_Part001.mp4` reads back with the show `a b` (UnmatchedNameFallsBack,
  UnmatchedChunkReadBack). No round trip holds in that case.
- The `has_silence` flag is always `False` in the code, and the model keeps it `false`.
- The mobile app that plays the chunks is not part of this model.

## Findings

| source | as written | input that shows it | evidently intended | confidence | as-written member | corrected member |
|---|---|---|---|---|---|---|
| video-chunker/chunker.py:91-95 | when the next cut would reach the end, the loop stops without adding `duration`, so the chunk from the last cut point to the end of the video is never created | duration 100.0, `target_duration` 120, no silences: the cut points are `[0]` and no chunk is written; with duration 300.0 and no silences the cut points are `[0, 130, 260]` and the last 40 seconds are dropped | the chunks cover the whole video, from 0 to `duration` | high; not executed | ChunkPlan.TailNeverEmitted | ChunkPlan.CoveringPlanSpansVideo |
| video-chunker/chunker.py:14-15 | the search window starts at `current + target_duration - 20`, which lies before the current time when `-d` is below 20, so a silence already passed can be chosen again and the cut need not advance | `-d 10`, a 100-second video with one silence from 0.0 to 1.0 seconds: the cut points grow `[0, 0.5, 0.5, 0.5, ...]` and the loop never ends | every cut lies after the one before it, so the loop ends | high; not executed | CutSchedule.TargetBelowTwentyCanStall | CutSchedule.CutPointsIncrease |
