/**
 * `VideoChunker.extract_show_info`: the show name, season and episode read
 * from a video's file name by the first of three regular expressions that
 * `re.search` finds in it, or the file's stem with season and episode "01".
 */
module EpisodeNames {
  import opened Wrappers
  import opened Text

  /** The pattern `(.*?)[._\s]<lead>(\d+)<mid>(\d+)`, searched case-insensitively. */
  datatype Pattern = Pattern(lead: string, mid: string)

  /** The patterns in the order they are tried: `S##E##`, `##x##`, `Season#Episode#`. */
  const Patterns: seq<Pattern> := [Pattern("S", "E"), Pattern("", "x"), Pattern("Season", "Episode")]

  /** The three groups of a match. */
  datatype Groups = Groups(prefix: string, season: string, episode: string)

  /** `(show_name, season, episode)`. */
  datatype EpisodeInfo = EpisodeInfo(show: string, season: string, episode: string)

  /** The character class `[._\s]`. */
  predicate IsSeparator(c: char) {
    c == '.' || c == '_' || IsSpace(c)
  }

  /** `lit` occurs at index `i` of `s`, letters compared without regard to case. */
  predicate LiteralAt(s: string, i: nat, lit: string) {
    i + |lit| <= |s| && forall t :: 0 <= t < |lit| ==> Lower(s[i + t]) == Lower(lit[t])
  }

  /** The end of the longest run of digits that starts at `i`. */
  function DigitRunEnd(s: string, i: nat): (j: nat)
    requires i <= |s|
    ensures i <= j <= |s|
    ensures forall t :: i <= t < j ==> IsDigit(s[t])
    ensures j < |s| ==> !IsDigit(s[j])
    decreases |s| - i
  {
    if i < |s| && IsDigit(s[i]) then DigitRunEnd(s, i + 1) else i
  }

  /** The two digit groups when everything after `(.*?)` matches with the
      separator at index `k`. Each `(\d+)` takes the longest run of digits:
      what follows the first run begins with a letter, and nothing follows
      the second, so giving digits back never produces another match. */
  function MatchAt(s: string, p: Pattern, k: nat): (r: Option<(string, string)>)
    ensures r.Some? ==> |r.value.0| > 0 && AllDigits(r.value.0)
    ensures r.Some? ==> |r.value.1| > 0 && AllDigits(r.value.1)
  {
    if k < |s| && IsSeparator(s[k]) && LiteralAt(s, k + 1, p.lead) then
      var i := k + 1 + |p.lead|;
      var j := DigitRunEnd(s, i);
      if i < j && LiteralAt(s, j, p.mid) then
        var j2 := DigitRunEnd(s, j + |p.mid|);
        if j + |p.mid| < j2 then Some((s[i..j], s[j + |p.mid|..j2])) else None
      else None
    else None
  }

  /** The smallest separator index `>= k` at which the pattern matches: the
      lazy `(.*?)` tries the shortest first group first. */
  function FirstMatchFrom(s: string, p: Pattern, k: nat): (r: Option<nat>)
    requires k <= |s|
    ensures r.Some? ==> k <= r.value < |s| && MatchAt(s, p, r.value).Some?
    ensures r.Some? ==> forall y :: k <= y < r.value ==> MatchAt(s, p, y).None?
    ensures r.None? ==> forall y :: k <= y < |s| ==> MatchAt(s, p, y).None?
    decreases |s| - k
  {
    if k == |s| then None
    else if MatchAt(s, p, k).Some? then Some(k)
    else FirstMatchFrom(s, p, k + 1)
  }

  /** The start of the line that holds index `k`: `.` in `(.*?)` does not
      match a newline, so `re.search` begins the match just after the last
      newline before the separator. */
  function LineStart(s: string, k: nat): (b: nat)
    requires k <= |s|
    ensures b <= k
    ensures forall t :: b <= t < k ==> s[t] != '\n'
    ensures 0 < b ==> s[b - 1] == '\n'
  {
    if k == 0 then 0
    else if s[k - 1] == '\n' then k
    else LineStart(s, k - 1)
  }

  /** `re.search(pattern, s, re.IGNORECASE)` and its three groups. */
  function Search(s: string, p: Pattern): (r: Option<Groups>)
    ensures r.None? <==> forall k :: 0 <= k < |s| ==> MatchAt(s, p, k).None?
    ensures r.Some? ==> '\n' !in r.value.prefix
    ensures r.Some? ==> |r.value.season| > 0 && AllDigits(r.value.season)
    ensures r.Some? ==> |r.value.episode| > 0 && AllDigits(r.value.episode)
  {
    match FirstMatchFrom(s, p, 0)
    case None => None
    case Some(k) =>
      var digits := MatchAt(s, p, k).value;
      Some(Groups(s[LineStart(s, k)..k], digits.0, digits.1))
  }

  /** Where the first group of a match lies in the searched text: just
      before the separator `k0` at which the pattern matches first. */
  lemma SearchPrefixSource(s: string, p: Pattern) returns (ls: nat, k0: nat)
    requires Search(s, p).Some?
    ensures ls <= k0 <= |s| && Search(s, p).value.prefix == s[ls..k0]
    ensures MatchAt(s, p, k0).Some? && ls == LineStart(s, k0)
    ensures forall y :: 0 <= y < k0 ==> MatchAt(s, p, y).None?
  {
    k0 := FirstMatchFrom(s, p, 0).value;
    ls := LineStart(s, k0);
  }

  /** A match at `n` with none before it, on a first line `show`, gives the groups `show` and the digits. */
  lemma SearchFindsFirstMatch(s: string, p: Pattern, n: nat, show: string, digits: (string, string))
    requires n < |s| && s[..n] == show && '\n' !in show
    requires MatchAt(s, p, n) == Some(digits)
    requires forall k :: 0 <= k < n ==> MatchAt(s, p, k).None?
    ensures Search(s, p) == Some(Groups(show, digits.0, digits.1))
  {
    assert FirstMatchFrom(s, p, 0) == Some(n);
    assert forall t :: 0 <= t < n ==> s[t] == s[..n][t];
    assert LineStart(s, n) == 0;
    assert s[0..n] == show;
  }

  /** What `.replace(".", " ").replace("_", " ")` makes of one character. */
  function Cleaned(c: char): char {
    if c == '.' || c == '_' then ' ' else c
  }

  /** `group(1).replace(".", " ").replace("_", " ")`. */
  function Spaced(prefix: string): (r: string)
    ensures |r| == |prefix|
    ensures forall i :: 0 <= i < |r| ==> r[i] == Cleaned(prefix[i])
  {
    var once := ReplaceChar(prefix, '.', ' ');
    assert forall i :: 0 <= i < |prefix| ==> once[i] == (if prefix[i] == '.' then ' ' else prefix[i]);
    ReplaceChar(once, '_', ' ')
  }

  /** `group(1).replace(".", " ").replace("_", " ").strip()`. */
  function CleanShowName(prefix: string): (r: string)
    ensures '.' !in r && '_' !in r
    ensures r == [] || (!IsSpace(r[0]) && !IsSpace(r[|r| - 1]))
  {
    Strip(Spaced(prefix))
  }

  /** The cleaned show name is a stretch of the prefix with each character cleaned. */
  lemma CleanShowNameFrom(prefix: string) returns (o: nat)
    ensures o + |CleanShowName(prefix)| <= |prefix|
    ensures forall t :: 0 <= t < |CleanShowName(prefix)| ==> CleanShowName(prefix)[t] == Cleaned(prefix[o + t])
  {
    var spaced := Spaced(prefix);
    o := LeadingSpaces(spaced);
    forall t | 0 <= t < |CleanShowName(prefix)|
      ensures CleanShowName(prefix)[t] == Cleaned(prefix[o + t])
    {
      assert CleanShowName(prefix)[t] == spaced[o + t];
    }
  }

  /** Cleaning a name that is already clean changes nothing, so cleaning twice is cleaning once. */
  lemma CleanShowNameIdempotent(s: string)
    requires '.' !in s && '_' !in s
    requires s == [] || (!IsSpace(s[0]) && !IsSpace(s[|s| - 1]))
    ensures CleanShowName(s) == s
  {
    assert Spaced(s) == s;
    if s != [] {
      assert LeadingSpaces(s) == 0 && TrailingSpaces(s) == 0;
      assert s[0..|s|] == s;
    }
  }

  /** The result built from a match: cleaned show name, `zfill(2)` of both numbers. */
  function FromGroups(g: Groups): (r: EpisodeInfo)
    ensures AllDigits(g.season) ==> |r.season| >= 2 && AllDigits(r.season)
    ensures AllDigits(g.episode) ==> |r.episode| >= 2 && AllDigits(r.episode)
  {
    EpisodeInfo(CleanShowName(g.prefix), ZeroPad(g.season, 2), ZeroPad(g.episode, 2))
  }

  /** The index of the last `.` in `s`, or -1 (`str.rfind`). */
  function LastDot(s: string): (i: int)
    ensures -1 <= i < |s|
    ensures 0 <= i ==> s[i] == '.'
    ensures forall j :: i < j < |s| ==> s[j] != '.'
  {
    if s == [] then -1
    else if s[|s| - 1] == '.' then |s| - 1
    else LastDot(s[..|s| - 1])
  }

  /** `Path(name).stem` for a name without `/`: the text before the last
      dot, unless that dot is the first or the last character. The path "."
      is the current directory, whose name is empty. */
  function Stem(name: string): (r: string)
    ensures name != "." ==> r <= name
    ensures name != "." && r != name ==>
              0 < |r| < |name| - 1 && name[|r|] == '.' && '.' !in name[|r| + 1..]
    ensures name != "." && r == name ==>
              forall j :: 0 < j < |name| - 1 ==> name[j] != '.' || exists t :: j < t < |name| && name[t] == '.'
  {
    if name == "." then ""
    else
      var i := LastDot(name);
      if 0 < i < |name| - 1 then name[..i] else name
  }

  /** The loop over the pattern list: the first pattern that matches decides. */
  function TryPatterns(name: string, ps: seq<Pattern>): (r: EpisodeInfo)
    ensures |r.season| >= 2 && AllDigits(r.season) && |r.episode| >= 2 && AllDigits(r.episode)
  {
    if ps == [] then EpisodeInfo(Stem(name), "01", "01")
    else match Search(name, ps[0])
      case Some(g) => FromGroups(g)
      case None => TryPatterns(name, ps[1..])
  }

  /** `VideoChunker.extract_show_info(filename)`; the caller passes a file name, never a path. */
  function ExtractShowInfo(name: string): (r: EpisodeInfo)
    requires '/' !in name
    ensures |r.season| >= 2 && AllDigits(r.season) && |r.episode| >= 2 && AllDigits(r.episode)
  {
    TryPatterns(name, Patterns)
  }

  lemma {:induction false} TryPatternsPicksFirst(name: string, ps: seq<Pattern>, i: nat)
    requires i < |ps| && Search(name, ps[i]).Some?
    requires forall j :: 0 <= j < i ==> Search(name, ps[j]).None?
    ensures TryPatterns(name, ps) == FromGroups(Search(name, ps[i]).value)
  {
    if i > 0 {
      assert Search(name, ps[0]).None?;
      assert forall j :: 0 <= j < i - 1 ==> ps[1..][j] == ps[j + 1];
      TryPatternsPicksFirst(name, ps[1..], i - 1);
      assert ps[1..][i - 1] == ps[i];
    }
  }

  lemma {:induction false} TryPatternsFallsBack(name: string, ps: seq<Pattern>)
    requires forall j :: 0 <= j < |ps| ==> Search(name, ps[j]).None?
    ensures TryPatterns(name, ps) == EpisodeInfo(Stem(name), "01", "01")
  {
    if ps != [] {
      TryPatternsFallsBack(name, ps[1..]);
    }
  }

  /** The first pattern that is found anywhere in the name decides the
      result, whatever later patterns would find. */
  lemma FirstMatchingPatternDecides(name: string, i: nat)
    requires '/' !in name
    requires i < |Patterns| && Search(name, Patterns[i]).Some?
    requires forall j :: 0 <= j < i ==> Search(name, Patterns[j]).None?
    ensures ExtractShowInfo(name) == FromGroups(Search(name, Patterns[i]).value)
  {
    TryPatternsPicksFirst(name, Patterns, i);
  }

  /** With no pattern found the result is the stem with season and episode "01". */
  lemma NoMatchFallsBackToStem(name: string)
    requires '/' !in name
    requires forall j :: 0 <= j < |Patterns| ==> Search(name, Patterns[j]).None?
    ensures ExtractShowInfo(name) == EpisodeInfo(Stem(name), "01", "01")
  {
    TryPatternsFallsBack(name, Patterns);
  }

  /** Some pattern of `ps` is found in the name. */
  predicate AnyMatches(name: string, ps: seq<Pattern>) {
    exists j :: 0 <= j < |ps| && Search(name, ps[j]).Some?
  }

  /** No `.` or `_`, and no whitespace at either end. */
  predicate IsCleanName(show: string) {
    '.' !in show && '_' !in show && (show == [] || (!IsSpace(show[0]) && !IsSpace(show[|show| - 1])))
  }

  lemma {:induction false} TryPatternsShow(name: string, ps: seq<Pattern>)
    requires AnyMatches(name, ps)
    ensures IsCleanName(TryPatterns(name, ps).show)
  {
    if Search(name, ps[0]).None? {
      var j :| 0 <= j < |ps| && Search(name, ps[j]).Some?;
      assert 0 < j && ps[1..][j - 1] == ps[j];
      assert AnyMatches(name, ps[1..]);
      TryPatternsShow(name, ps[1..]);
    }
  }

  /** After a match the show name has no `.` or `_` and no surrounding
      whitespace; season and episode are always digit strings of length at
      least two. */
  lemma ExtractShowInfoShape(name: string)
    requires '/' !in name
    ensures var info := ExtractShowInfo(name);
            |info.season| >= 2 && AllDigits(info.season) && |info.episode| >= 2 && AllDigits(info.episode)
    ensures AnyMatches(name, Patterns) ==> IsCleanName(ExtractShowInfo(name).show)
  {
    if AnyMatches(name, Patterns) {
      TryPatternsShow(name, Patterns);
    }
  }

  /** A match of `S(\d+)E(\d+)` inside a cleaned stretch `show` of `name`,
      in a text where `show` is followed by `_`, is a match in `name` itself:
      cleaning keeps separators, digits and letters, and the `_` that follows
      can be none of the pattern's letters or digits. */
  lemma MatchInCleanedText(name: string, o: nat, show: string, f: string, k: nat)
    requires o + |show| <= |name|
    requires forall t :: 0 <= t < |show| ==> show[t] == Cleaned(name[o + t])
    requires |show| < |f| && f[..|show|] == show && f[|show|] == '_'
    requires k < |show| && MatchAt(f, Pattern("S", "E"), k).Some?
    ensures MatchAt(name, Pattern("S", "E"), o + k).Some?
  {
    var n := |show|;
    var j := SeasonEpisodeInside(f, n, k);
    forall t | k <= t <= j + 1
      ensures f[t] == Cleaned(name[o + t])
    {
      assert f[t] == f[..n][t];
    }
    assert IsSeparator(name[o + k]);
    assert forall t :: k + 1 <= t <= j + 1 ==> name[o + t] == f[t];
    assert forall u :: o + k + 2 <= u < o + j ==> IsDigit(name[u]) by {
      forall u | o + k + 2 <= u < o + j
        ensures IsDigit(name[u])
      {
        assert name[o + (u - o)] == f[u - o];
      }
    }
    MatchAtFromShape(name, o + k, o + j);
  }

  /** The shape `SeasonEpisodeInside` describes is a match of `S(\d+)E(\d+)` at `k`. */
  lemma MatchAtFromShape(s: string, k: nat, j: nat)
    requires k + 2 < j && j + 1 < |s|
    requires IsSeparator(s[k]) && Lower(s[k + 1]) == 's' && Lower(s[j]) == 'e'
    requires forall t :: k + 2 <= t < j ==> IsDigit(s[t])
    requires !IsDigit(s[j]) && IsDigit(s[j + 1])
    ensures MatchAt(s, Pattern("S", "E"), k).Some?
  {
    DigitRunEndAt(s, k + 2, j);
    assert LiteralAt(s, k + 1, "S") by {
      assert s[k + 1 + 0] == s[k + 1];
    }
    assert LiteralAt(s, j, "E") by {
      assert s[j + 0] == s[j];
    }
  }

  /** Where a season/episode match that starts inside `f[..n]` lies, when
      `f[n]` is `'_'`: its separator, its letters and its season digits all
      lie before `n`, and so does the first episode digit. */
  lemma SeasonEpisodeInside(f: string, n: nat, k: nat) returns (j: nat)
    requires n < |f| && f[n] == '_' && k < n
    requires MatchAt(f, Pattern("S", "E"), k).Some?
    ensures k + 2 < j && j + 1 < n
    ensures IsSeparator(f[k]) && Lower(f[k + 1]) == 's' && Lower(f[j]) == 'e'
    ensures forall t :: k + 2 <= t < j ==> IsDigit(f[t])
    ensures !IsDigit(f[j]) && IsDigit(f[j + 1])
  {
    var p := Pattern("S", "E");
    assert LiteralAt(f, k + 1, p.lead);
    assert Lower(f[k + 1 + 0]) == Lower(p.lead[0]);
    j := DigitRunEnd(f, k + 2);
    assert LiteralAt(f, j, p.mid);
    assert Lower(f[j + 0]) == Lower(p.mid[0]);
  }

  /** A run of digits ending at a non-digit is exactly what `DigitRunEnd` scans. */
  lemma DigitRunEndAt(s: string, a: nat, b: nat)
    requires a <= b < |s| && !IsDigit(s[b])
    requires forall t :: a <= t < b ==> IsDigit(s[t])
    ensures DigitRunEnd(s, a) == b
  {
  }

  lemma SeasonEpisodeMatchAt(f: string, b: nat, season: string, episode: string)
    requires |season| > 0 && AllDigits(season) && |episode| > 0 && AllDigits(episode)
    requires b + 3 + |season| + |episode| < |f|
    requires f[b] == '_' && f[b + 1] == 'S'
    requires f[b + 2..b + 2 + |season|] == season
    requires f[b + 2 + |season|] == 'E'
    requires f[b + 3 + |season|..b + 3 + |season| + |episode|] == episode
    requires !IsDigit(f[b + 3 + |season| + |episode|])
    ensures MatchAt(f, Pattern("S", "E"), b) == Some((season, episode))
  {
    var i := b + 2;
    var j := i + |season|;
    assert forall t :: i <= t < j ==> f[t] == season[t - i];
    assert DigitRunEnd(f, i) == j;
    var e := j + 1 + |episode|;
    assert forall t :: j + 1 <= t < e ==> f[t] == episode[t - j - 1];
    assert DigitRunEnd(f, j + 1) == e;
  }
}
