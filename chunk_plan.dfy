/**
 * The loop of `VideoChunker.process_videos` that turns one video's cut
 * points into chunk tasks: chunk `i` runs from cut point `i` to cut point
 * `i + 1` and is written to `{show}_S{season}E{episode}_Part{i + 1:03d}.mp4`.
 * Submitting a task to the thread pool is modelled as appending it to a list.
 */
module ChunkPlan {
  import opened Wrappers
  import opened Text
  import opened EpisodeNames
  import opened SilenceLog
  import opened CutSchedule

  /** The arguments `create_chunk` is submitted with, apart from the video
      and the output directory: start, end, output file name, `has_silence`. */
  datatype ChunkTask = ChunkTask(start: real, end: real, fileName: string, hasSilence: bool)

  /** `f"{part_num:03d}"`. */
  function PartString(part: nat): string {
    ZeroPad(DecimalDigits(part), 3)
  }

  /** The part text is at least three digits long and reads back as the part number. */
  lemma PartStringValue(part: nat)
    ensures |PartString(part)| >= 3 && AllDigits(PartString(part))
    ensures DecimalValue(PartString(part)) == part
  {
    ZeroPadValue(DecimalDigits(part), 3);
    DecimalRoundTrip(part);
  }

  /** `f"{show_name}_S{season}E{episode}_Part{part_str}.mp4"`. */
  function ChunkFileName(info: EpisodeInfo, part: nat): string {
    info.show + "_S" + info.season + "E" + info.episode + "_Part" + PartString(part) + ".mp4"
  }

  /** The task for the chunk between cut points `i` and `i + 1`. */
  function Task(info: EpisodeInfo, cuts: seq<real>, i: nat): ChunkTask
    requires i + 1 < |cuts|
  {
    ChunkTask(cuts[i], cuts[i + 1], ChunkFileName(info, i + 1), false)
  }

  /** The tasks of `for i in range(len(cut_points) - 1)`, in submission order. */
  function Plan(info: EpisodeInfo, cuts: seq<real>): seq<ChunkTask> {
    var n := if |cuts| == 0 then 0 else |cuts| - 1;
    seq(n, i requires 0 <= i < n => Task(info, cuts, i))
  }

  /** The loop that builds the list of chunk tasks. */
  method PlanChunks(info: EpisodeInfo, cutPoints: seq<real>) returns (tasks: seq<ChunkTask>)
    ensures tasks == Plan(info, cutPoints)
  {
    tasks := [];
    var i := 0;
    while i + 1 < |cutPoints|
      invariant i == 0 || i < |cutPoints|
      invariant |tasks| == i
      invariant forall j :: 0 <= j < i ==> tasks[j] == Task(info, cutPoints, j)
    {
      var start := cutPoints[i];
      var end := cutPoints[i + 1];
      var partNum := i + 1;
      var outputFileName := ChunkFileName(info, partNum);
      tasks := tasks + [ChunkTask(start, end, outputFileName, false)];
      i := i + 1;
    }
  }

  /** For cut points `c0 .. cn` there are `n` chunks; chunk `i` spans
      `[c_i, c_(i+1)]` and is part `i + 1`, so each chunk starts where the
      one before it ends. */
  lemma PlanIsContiguous(info: EpisodeInfo, cuts: seq<real>)
    ensures |Plan(info, cuts)| == if cuts == [] then 0 else |cuts| - 1
    ensures forall i :: 0 <= i < |Plan(info, cuts)| ==>
              Plan(info, cuts)[i].start == cuts[i] && Plan(info, cuts)[i].end == cuts[i + 1] &&
              Plan(info, cuts)[i].fileName == ChunkFileName(info, i + 1)
    ensures forall i :: 0 <= i < |Plan(info, cuts)| - 1 ==> Plan(info, cuts)[i].end == Plan(info, cuts)[i + 1].start
  {
  }

  /** Different parts of one episode get different file names. */
  lemma ChunkFileNamesDiffer(info: EpisodeInfo, m: nat, n: nat)
    requires m != n
    ensures ChunkFileName(info, m) != ChunkFileName(info, n)
  {
    if ChunkFileName(info, m) == ChunkFileName(info, n) {
      var head := info.show + "_S" + info.season + "E" + info.episode + "_Part";
      var a, b := PartString(m), PartString(n);
      assert ChunkFileName(info, m) == head + a + ".mp4";
      assert ChunkFileName(info, n) == head + b + ".mp4";
      assert |a| == |b|;
      assert a == (head + a + ".mp4")[|head|..|head| + |a|];
      assert b == (head + b + ".mp4")[|head|..|head| + |b|];
      PaddedDecimalInjective(m, n, 3);
    }
  }

  /** No two tasks of a plan write the same file. */
  lemma PlanFileNamesDistinct(info: EpisodeInfo, cuts: seq<real>, i: nat, j: nat)
    requires i < j < |Plan(info, cuts)|
    ensures Plan(info, cuts)[i].fileName != Plan(info, cuts)[j].fileName
  {
    var plan := Plan(info, cuts);
    assert plan[i] == Task(info, cuts, i) && plan[j] == Task(info, cuts, j);
    ChunkFileNamesDiffer(info, i + 1, j + 1);
  }

  predicate StrictlyIncreasing(cuts: seq<real>) {
    forall i :: 0 <= i < |cuts| - 1 ==> cuts[i] < cuts[i + 1]
  }

  /** Over strictly increasing cut points, every chunk has positive length
      and ends at a cut point after the first. */
  lemma PlanSpansArePositive(info: EpisodeInfo, cuts: seq<real>)
    requires StrictlyIncreasing(cuts)
    ensures var plan := Plan(info, cuts);
            forall i :: 0 <= i < |plan| ==> plan[i].start < plan[i].end && plan[i].end == cuts[i + 1]
  {
  }

  /** Over at least two strictly increasing cut points, the chunks run from
      the first cut point to the last one without gap or overlap. */
  lemma PlanCoversCuts(info: EpisodeInfo, cuts: seq<real>)
    requires |cuts| >= 2 && StrictlyIncreasing(cuts)
    ensures var plan := Plan(info, cuts);
            && plan[0].start == cuts[0]
            && plan[|plan| - 1].end == cuts[|cuts| - 1]
            && (forall i :: 0 <= i < |plan| ==> plan[i].start < plan[i].end)
            && (forall i :: 0 <= i < |plan| - 1 ==> plan[i].end == plan[i + 1].start)
  {
    PlanSpansArePositive(info, cuts);
  }

  /** The cut points of `find_cut_points` increase strictly. */
  lemma CutPointsStrictlyIncrease(ss: seq<Silence>, target: int, duration: real)
    requires target > 20 && WellFormed(ss)
    ensures StrictlyIncreasing(CutPoints(ss, target, duration))
  {
    CutPointsIncrease(ss, target, duration);
  }

  /** With the cut points of `find_cut_points`, every chunk ends before the
      end of the video: the stretch from the last cut point to `duration`
      is never submitted. */
  lemma TailNeverEmitted(info: EpisodeInfo, ss: seq<Silence>, target: int, duration: real)
    requires target > 20 && WellFormed(ss)
    ensures var plan := Plan(info, CutPoints(ss, target, duration));
            forall i :: 0 <= i < |plan| ==> plan[i].start < plan[i].end < duration
  {
    CutPointsIncrease(ss, target, duration);
    CutPointsStrictlyIncrease(ss, target, duration);
    PlanSpansArePositive(info, CutPoints(ss, target, duration));
  }

  /** A video of positive length that gets the single cut point 0 produces
      no chunk at all. */
  lemma ShortVideoYieldsNoChunk(info: EpisodeInfo, ss: seq<Silence>, target: int, duration: real)
    requires target > 20 && WellFormed(ss) && 0.0 < duration <= (target + 10) as real
    requires forall j :: 0 <= j < |ss| ==> !Qualifies(ss[j], 0.0, target, duration)
    ensures Plan(info, CutPoints(ss, target, duration)) == []
  {
    ShortVideoHasOnlyStart(ss, target, duration);
  }

  /** The cut points with the end of the video added, so that the last
      chunk runs to `duration`. */
  function CoveringCutPoints(ss: seq<Silence>, target: int, duration: real): seq<real>
    requires target > 20 && WellFormed(ss)
  {
    var c := CutPoints(ss, target, duration);
    if 0.0 < duration then c + [duration] else c
  }

  /** For a video of positive length the corrected cut points run from 0 to
      `duration`, strictly increasing, one more than `find_cut_points` gives. */
  lemma CoveringCutPointsSpanVideo(ss: seq<Silence>, target: int, duration: real)
    requires target > 20 && WellFormed(ss) && 0.0 < duration
    ensures var cc := CoveringCutPoints(ss, target, duration);
            && |cc| == |CutPoints(ss, target, duration)| + 1
            && cc[0] == 0.0 && cc[|cc| - 1] == duration
            && StrictlyIncreasing(cc)
  {
    CutPointsIncrease(ss, target, duration);
    CutPointsStrictlyIncrease(ss, target, duration);
    var c := CutPoints(ss, target, duration);
    var cc := CoveringCutPoints(ss, target, duration);
    assert forall i :: 0 <= i < |c| ==> cc[i] == c[i];
  }

  /** With the end of the video added, the chunks cover the whole video:
      the first starts at 0, the last ends at `duration`, every chunk has
      positive length and each starts where the one before it ends. */
  lemma CoveringPlanSpansVideo(info: EpisodeInfo, ss: seq<Silence>, target: int, duration: real)
    requires target > 20 && WellFormed(ss) && 0.0 < duration
    ensures var plan := Plan(info, CoveringCutPoints(ss, target, duration));
            && |plan| == |CutPoints(ss, target, duration)|
            && plan[0].start == 0.0
            && plan[|plan| - 1].end == duration
            && (forall i :: 0 <= i < |plan| ==> plan[i].start < plan[i].end)
            && (forall i :: 0 <= i < |plan| - 1 ==> plan[i].end == plan[i + 1].start)
  {
    CoveringCutPointsSpanVideo(ss, target, duration);
    PlanCoversCuts(info, CoveringCutPoints(ss, target, duration));
  }

  /** A chunk's file name has no `/` when the episode's name has none. */
  lemma ChunkFileNameHasNoSlash(info: EpisodeInfo, part: nat)
    requires '/' !in info.show && AllDigits(info.season) && AllDigits(info.episode)
    ensures '/' !in ChunkFileName(info, part)
  {
    var digits := PartString(part);
    assert AllDigits(digits);
    assert '/' !in info.season && '/' !in info.episode && '/' !in digits;
  }

  /** Where a chunk file name's parts lie: the show name, then `_S`, the
      season, `E`, the episode, and `_Part...`. */
  lemma ChunkFileNameLayout(info: EpisodeInfo, part: nat)
    ensures var f, n, s := ChunkFileName(info, part), |info.show|, |info.season|;
            && n + 3 + s + |info.episode| < |f|
            && f[..n] == info.show && f[n] == '_' && f[n + 1] == 'S'
            && f[n + 2..n + 2 + s] == info.season && f[n + 2 + s] == 'E'
            && f[n + 3 + s..n + 3 + s + |info.episode|] == info.episode
            && f[n + 3 + s + |info.episode|] == '_'
  {
    FileNameLayout(info.show, info.season, info.episode, PartString(part));
  }

  /** The same layout for any part text `ps`. */
  lemma FileNameLayout(show: string, season: string, episode: string, ps: string)
    ensures var f, n, s := show + "_S" + season + "E" + episode + "_Part" + ps + ".mp4", |show|, |season|;
            && n + 3 + s + |episode| < |f|
            && f[..n] == show && f[n] == '_' && f[n + 1] == 'S'
            && f[n + 2..n + 2 + s] == season && f[n + 2 + s] == 'E'
            && f[n + 3 + s..n + 3 + s + |episode|] == episode
            && f[n + 3 + s + |episode|] == '_'
  {
    var f := show + "_S" + season + "E" + episode + "_Part" + ps + ".mp4";
    var n, s, e := |show|, |season|, |episode|;
    var d := show + "_S" + season + "E" + episode;
    assert f == d + ("_Part" + ps + ".mp4");
    assert f[..|d|] == d;
    EpisodeTagLayout(show, season, episode);
    assert f[..n] == f[..|d|][..n];
    assert f[n + 2..n + 2 + s] == f[..|d|][n + 2..n + 2 + s];
    assert f[n + 3 + s..n + 3 + s + e] == f[..|d|][n + 3 + s..];
  }

  /** Where the show, season and episode lie in `show_S<season>E<episode>`. */
  lemma EpisodeTagLayout(show: string, season: string, episode: string)
    ensures var d, n, s := show + "_S" + season + "E" + episode, |show|, |season|;
            && |d| == n + 3 + s + |episode|
            && d[..n] == show && d[n] == '_' && d[n + 1] == 'S'
            && d[n + 2..n + 2 + s] == season && d[n + 2 + s] == 'E'
            && d[n + 3 + s..] == episode
  {
    var d := show + "_S" + season + "E" + episode;
    var n, s := |show|, |season|;
    assert d[..n] == show;
    assert d[n + 2..n + 2 + s] == season;
    assert d[n + 3 + s..] == episode;
  }

  /** Where the show name of a match comes from: a stretch of the file
      name, cleaned character by character, that ends no later than the
      separator at which the pattern matched first. */
  lemma ShowNameSource(name: string, p: Pattern) returns (o: nat, k0: nat)
    requires Search(name, p).Some?
    ensures var show := CleanShowName(Search(name, p).value.prefix);
            && o + |show| <= k0 <= |name|
            && (forall t :: 0 <= t < |show| ==> show[t] == Cleaned(name[o + t]) && show[t] != '\n')
            && (forall y :: 0 <= y < k0 ==> MatchAt(name, p, y).None?)
  {
    var prefix := Search(name, p).value.prefix;
    var ls;
    ls, k0 := SearchPrefixSource(name, p);
    var o' := CleanShowNameFrom(prefix);
    o := StretchOfSlice(name, ls, k0, o', CleanShowName(prefix));
  }

  /** A cleaned stretch of the slice `name[ls..k0]`, starting at `o'` in the
      slice, is the same stretch of `name` starting at `ls + o'`. */
  lemma StretchOfSlice(name: string, ls: nat, k0: nat, o': nat, show: string) returns (o: nat)
    requires ls <= k0 <= |name| && o' + |show| <= k0 - ls
    requires forall t :: 0 <= t < |show| ==> show[t] == Cleaned(name[ls..k0][o' + t])
    requires '\n' !in name[ls..k0]
    ensures o == ls + o' && o + |show| <= k0
    ensures forall t :: 0 <= t < |show| ==> show[t] == Cleaned(name[o + t]) && show[t] != '\n'
  {
    o := ls + o';
    forall t | 0 <= t < |show|
      ensures show[t] == Cleaned(name[o + t]) && show[t] != '\n'
    {
      assert name[ls..k0][o' + t] == name[o + t];
    }
  }

  /** When pattern `i` decides, `S(\d+)E(\d+)` matches nowhere before the
      separator where pattern `i` matched first: it is either that pattern
      or one that matched nowhere. */
  lemma SeasonEpisodeAbsentBefore(name: string, i: nat, k0: nat)
    requires i < |Patterns| && Search(name, Patterns[i]).Some?
    requires forall j :: 0 <= j < i ==> Search(name, Patterns[j]).None?
    requires k0 <= |name| && forall y :: 0 <= y < k0 ==> MatchAt(name, Patterns[i], y).None?
    ensures forall y :: 0 <= y < k0 ==> MatchAt(name, Pattern("S", "E"), y).None?
  {
    assert Patterns[0] == Pattern("S", "E");
    if i > 0 {
      assert Search(name, Patterns[0]).None?;
    }
  }

  /** In a chunk file name made from a stretch of an episode's file name,
      `S(\d+)E(\d+)` matches nowhere before the `_` that follows the show name. */
  lemma NoMatchInsideShow(name: string, o: nat, k0: nat, show: string, f: string)
    requires o + |show| <= k0 <= |name|
    requires forall t :: 0 <= t < |show| ==> show[t] == Cleaned(name[o + t])
    requires forall y :: 0 <= y < k0 ==> MatchAt(name, Pattern("S", "E"), y).None?
    requires |show| < |f| && f[..|show|] == show && f[|show|] == '_'
    ensures forall k :: 0 <= k < |show| ==> MatchAt(f, Pattern("S", "E"), k).None?
  {
    forall k | 0 <= k < |show|
      ensures MatchAt(f, Pattern("S", "E"), k).None?
    {
      if MatchAt(f, Pattern("S", "E"), k).Some? {
        MatchInCleanedText(name, o, show, f, k);
      }
    }
  }

  /** `S(\d+)E(\d+)` finds a chunk file name's show, season and episode
      when the show name holds no earlier match and no newline. */
  lemma SearchChunkFileName(info: EpisodeInfo, part: nat)
    requires '\n' !in info.show
    requires |info.season| > 0 && AllDigits(info.season) && |info.episode| > 0 && AllDigits(info.episode)
    requires forall k :: 0 <= k < |info.show| ==> MatchAt(ChunkFileName(info, part), Pattern("S", "E"), k).None?
    ensures Search(ChunkFileName(info, part), Pattern("S", "E")) == Some(Groups(info.show, info.season, info.episode))
  {
    var f, n := ChunkFileName(info, part), |info.show|;
    ChunkFileNameLayout(info, part);
    var p := Pattern("S", "E");
    SeasonEpisodeMatchAt(f, n, info.season, info.episode);
    SearchFindsFirstMatch(f, p, n, info.show, (info.season, info.episode));
  }

  /** What reading a chunk file name back needs of the episode it names:
      a clean show name without `/` or newline in which `S(\d+)E(\d+)`
      cannot match, and season and episode of at least two digits. */
  predicate ReadableInfo(info: EpisodeInfo, part: nat) {
    && '/' !in info.show && '\n' !in info.show && IsCleanName(info.show)
    && |info.season| >= 2 && AllDigits(info.season) && |info.episode| >= 2 && AllDigits(info.episode)
    && forall k :: 0 <= k < |info.show| ==> MatchAt(ChunkFileName(info, part), Pattern("S", "E"), k).None?
  }

  /** A chunk file name whose show name cannot hold an earlier match is read
      back by the first pattern, giving the show, season and episode it was
      made from. */
  lemma ReadBackChunkFileName(info: EpisodeInfo, part: nat)
    requires ReadableInfo(info, part)
    ensures '/' !in ChunkFileName(info, part)
    ensures ExtractShowInfo(ChunkFileName(info, part)) == info
  {
    var f := ChunkFileName(info, part);
    ChunkFileNameHasNoSlash(info, part);
    SearchChunkFileName(info, part);
    CleanShowNameIdempotent(info.show);
    assert Patterns[0] == Pattern("S", "E");
    FirstMatchingPatternDecides(f, 0);
  }

  /** The show name read from a file name matched by pattern `i` has no
      `/` and no newline, and in a chunk file name made from it
      `S(\d+)E(\d+)` matches nowhere before the `_` that follows it. */
  lemma ShowNameHoldsNoMatch(name: string, i: nat, part: nat)
    requires '/' !in name
    requires i < |Patterns| && Search(name, Patterns[i]).Some?
    requires forall j :: 0 <= j < i ==> Search(name, Patterns[j]).None?
    ensures var info := FromGroups(Search(name, Patterns[i]).value);
            && '/' !in info.show && '\n' !in info.show
            && forall k :: 0 <= k < |info.show| ==> MatchAt(ChunkFileName(info, part), Pattern("S", "E"), k).None?
  {
    var info := FromGroups(Search(name, Patterns[i]).value);
    var o, k0 := ShowNameSource(name, Patterns[i]);
    SeasonEpisodeAbsentBefore(name, i, k0);
    forall t | 0 <= t < |info.show|
      ensures info.show[t] != '/'
    {
      assert name[o + t] in name;
    }
    ChunkFileNameLayout(info, part);
    NoMatchInsideShow(name, o, k0, info.show, ChunkFileName(info, part));
  }

  /** Reading back the name of a chunk of an episode whose file name
      matched pattern `i` (and none before it) gives that episode's show,
      season and episode again: the first pattern now matches at the `_`
      that follows the show name, and nothing earlier in the name can
      match it. */
  lemma ChunkFileNameRoundTrip(name: string, i: nat, part: nat)
    requires '/' !in name
    requires i < |Patterns| && Search(name, Patterns[i]).Some?
    requires forall j :: 0 <= j < i ==> Search(name, Patterns[j]).None?
    ensures '/' !in ChunkFileName(ExtractShowInfo(name), part)
    ensures ExtractShowInfo(ChunkFileName(ExtractShowInfo(name), part)) == ExtractShowInfo(name)
  {
    ExtractedInfoReadable(name, i, part);
    ReadBackChunkFileName(ExtractShowInfo(name), part);
  }

  /** The episode read from a file name matched by pattern `i` (and none
      before it) can be read back from any of its chunk file names. */
  lemma ExtractedInfoReadable(name: string, i: nat, part: nat)
    requires '/' !in name
    requires i < |Patterns| && Search(name, Patterns[i]).Some?
    requires forall j :: 0 <= j < i ==> Search(name, Patterns[j]).None?
    ensures ReadableInfo(ExtractShowInfo(name), part)
  {
    FirstMatchingPatternDecides(name, i);
    ExtractShowInfoShape(name);
    assert AnyMatches(name, Patterns);
    ShowNameHoldsNoMatch(name, i, part);
  }

  /** The round trip needs a pattern match: `a_b.mp4` matches none of the
      three patterns, so `extract_show_info` keeps the raw stem `a_b` as
      the show (group 1 is never cleaned on this path). */
  lemma UnmatchedNameFallsBack()
    ensures ExtractShowInfo("a_b.mp4") == EpisodeInfo("a_b", "01", "01")
  {
    forall j | 0 <= j < |Patterns| ensures Search("a_b.mp4", Patterns[j]).None? {
      UnmatchedNameNoMatch(j);
    }
    NoMatchFallsBackToStem("a_b.mp4");
    UnmatchedNameStem();
  }

  /** No pattern matches `a_b.mp4`: the letter after each separator is
      neither `s` nor a digit. */
  lemma UnmatchedNameNoMatch(j: nat)
    requires j < |Patterns|
    ensures Search("a_b.mp4", Patterns[j]).None?
  {
    var n := "a_b.mp4";
    var p := Patterns[j];
    assert p.lead == [] || Lower(p.lead[0]) == 's';
    forall k | 0 <= k < |n| ensures MatchAt(n, p, k).None? {
      if k == 1 || k == 3 {
        assert Lower(n[k + 1]) != 's' && !IsDigit(n[k + 1]);
        if p.lead != [] {
          assert !LiteralAt(n, k + 1, p.lead) by { assert Lower(n[k + 1 + 0]) != Lower(p.lead[0]); }
        } else {
          assert DigitRunEnd(n, k + 1) == k + 1;
        }
      } else {
        assert !IsSeparator(n[k]);
      }
    }
  }

  lemma UnmatchedNameStem()
    ensures Stem("a_b.mp4") == "a_b"
  {
    var n := "a_b.mp4";
    assert n[3] == '.' && n[4] == 'm' && n[5] == 'p' && n[6] == '4';
    assert LastDot(n) == 3;
    var t := n[..3];
    assert t[0] == 'a' && t[1] == '_' && t[2] == 'b';
    assert t == "a_b";
  }

  /** Cleaning `a_b` as group 1 is cleaned gives `a b`. */
  lemma UnderscoreCleaned()
    ensures CleanShowName("a_b") == "a b"
  {
    var r := Spaced("a_b");
    assert r[0] == 'a' && r[1] == ' ' && r[2] == 'b';
    assert r == "a b";
    assert LeadingSpaces(r) == 0 && TrailingSpaces(r) == 0;
    assert r[0..3] == r;
  }

  /** ... while every chunk name of an episode whose show is `a_b`, such
      as `a_b_S01E01_Part001.mp4`, is matched by the first pattern at
      `_S01E01`, and cleaning group 1 `a_b` reads the show back as `a b`. */
  lemma UnmatchedChunkReadBack(info: EpisodeInfo, part: nat)
    requires info.show == "a_b"
    requires |info.season| > 0 && AllDigits(info.season) && |info.episode| > 0 && AllDigits(info.episode)
    ensures ExtractShowInfo(ChunkFileName(info, part)).show == "a b"
  {
    UnmatchedChunkSearch(info, part);
    ChunkFileNameHasNoSlash(info, part);
    FirstMatchingPatternDecides(ChunkFileName(info, part), 0);
    UnderscoreCleaned();
  }

  /** `S(\d+)E(\d+)` first matches such a chunk name at the `_` after `a_b`. */
  lemma UnmatchedChunkSearch(info: EpisodeInfo, part: nat)
    requires info.show == "a_b"
    requires |info.season| > 0 && AllDigits(info.season) && |info.episode| > 0 && AllDigits(info.episode)
    ensures Search(ChunkFileName(info, part), Patterns[0]) == Some(Groups("a_b", info.season, info.episode))
  {
    forall k | 0 <= k < |info.show| ensures MatchAt(ChunkFileName(info, part), Pattern("S", "E"), k).None? {
      UnmatchedChunkNoEarlyMatch(info, part, k);
    }
    SearchChunkFileName(info, part);
  }

  /** The `_` inside `a_b` is followed by `b`, not `S`. */
  lemma UnmatchedChunkNoEarlyMatch(info: EpisodeInfo, part: nat, k: nat)
    requires info.show == "a_b" && k < 3
    ensures MatchAt(ChunkFileName(info, part), Pattern("S", "E"), k).None?
  {
    var f := ChunkFileName(info, part);
    ChunkFileNameLayout(info, part);
    assert f[..3] == "a_b";
    if k == 1 {
      assert f[2] == 'b';
      assert !LiteralAt(f, 2, "S") by { assert Lower(f[2]) != Lower("S"[0]); }
    } else {
      assert f[k] == "a_b"[k];
      assert !IsSeparator(f[k]);
    }
  }
}
