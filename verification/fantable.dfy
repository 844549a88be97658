/** The fan-sentiment table: which file it comes from (`_load_fan_df`) and
    the process-wide cache that holds it once loaded (`get_fan_df`). */
module FanTable {
  import opened Wrappers
  import opened Frames
  import opened Paths

  /** The column naming the team. */
  const TEAM_COL := "팀"
  /** The column holding the positive-sentiment percentage. */
  const RATIO_COL := "긍정비율"

  const FAN_FILE := "fan_sentiment.csv"
  const FINE_FILE := "sentiment_fine.csv"

  /** The four places the table may live, in the order they are tried: both
      file names under the data directory, then both in the working
      directory. */
  function CandidatePaths(dataDir: string): (ps: seq<string>)
    ensures |ps| == 4
    ensures ps[2] == FAN_FILE && ps[3] == FINE_FILE
  {
    [Join(dataDir, FAN_FILE), Join(dataDir, FINE_FILE), FAN_FILE, FINE_FILE]
  }

  /** The first two candidates are `fan_sentiment.csv`, then
      `sentiment_fine.csv`, both under the data directory. */
  lemma CandidatePathsOrder(dataDir: string)
    ensures Basename(CandidatePaths(dataDir)[0]) == FAN_FILE && dataDir <= CandidatePaths(dataDir)[0]
    ensures Basename(CandidatePaths(dataDir)[1]) == FINE_FILE && dataDir <= CandidatePaths(dataDir)[1]
  {
    assert '/' !in FAN_FILE && '/' !in FINE_FILE;
    JoinFileName(dataDir, FAN_FILE);
    JoinFileName(dataDir, FINE_FILE);
  }

  /** The table used when no candidate qualifies: the two expected columns
      and no rows. */
  const EMPTY_TABLE := Table([TEAM_COL, RATIO_COL], [])

  /** A candidate qualifies when it exists, parses, and has a team column. */
  predicate Usable(fs: FileSystem, path: string) {
    Exists(fs, path) && ReadCsv(fs, path).Some? && TEAM_COL in ReadCsv(fs, path).value.columns
  }

  /** `paths[i]` is the first candidate that qualifies. */
  ghost predicate WinnerAt(fs: FileSystem, paths: seq<string>, i: int) {
    0 <= i < |paths| && Usable(fs, paths[i]) && forall j | 0 <= j < i :: !Usable(fs, paths[j])
  }

  /** The table of the first qualifying candidate, if any. */
  function FirstUsable(fs: FileSystem, paths: seq<string>): (r: Option<Table>)
    ensures r.None? <==> forall i | 0 <= i < |paths| :: !Usable(fs, paths[i])
    ensures forall i | WinnerAt(fs, paths, i) :: r == ReadCsv(fs, paths[i])
  {
    if paths == [] then None
    else if Usable(fs, paths[0]) then ReadCsv(fs, paths[0])
    else
      var r := FirstUsable(fs, paths[1..]);
      assert forall i | WinnerAt(fs, paths, i) :: i > 0 && WinnerAt(fs, paths[1..], i - 1);
      r
  }

  /** What `_load_fan_df` returns: always a table with a team column; the
      table of the first qualifying candidate, or the empty two-column table
      when none qualifies. */
  function FanTableOf(fs: FileSystem, dataDir: string): (t: Table)
    ensures TEAM_COL in t.columns
    ensures forall i | WinnerAt(fs, CandidatePaths(dataDir), i) :: Some(t) == ReadCsv(fs, CandidatePaths(dataDir)[i])
    ensures (forall i | 0 <= i < 4 :: !Usable(fs, CandidatePaths(dataDir)[i])) ==> t == EMPTY_TABLE
  {
    FirstUsable(fs, CandidatePaths(dataDir)).GetOr(EMPTY_TABLE)
  }

  /** Some candidate always wins unless none qualifies. */
  lemma {:induction false} WinnerExists(fs: FileSystem, paths: seq<string>, i: int)
    requires 0 <= i < |paths| && Usable(fs, paths[i])
    ensures exists w | 0 <= w <= i :: WinnerAt(fs, paths, w)
  {
    if exists j | 0 <= j < i :: Usable(fs, paths[j]) {
      var j :| 0 <= j < i && Usable(fs, paths[j]);
      WinnerExists(fs, paths, j);
    } else {
      assert WinnerAt(fs, paths, i);
    }
  }

  /** `_load_fan_df`: tries the candidates in order and returns the first
      that exists, parses and has a team column; otherwise the empty
      table. */
  method LoadFanDf(fs: FileSystem, dataDir: string) returns (t: Table)
    ensures t == FanTableOf(fs, dataDir)
    ensures TEAM_COL in t.columns
  {
    var paths := CandidatePaths(dataDir);
    var i := 0;
    while i < |paths|
      invariant 0 <= i <= |paths|
      invariant FirstUsable(fs, paths) == FirstUsable(fs, paths[i..])
    {
      var path := paths[i];
      if Exists(fs, path) {
        var df := ReadCsv(fs, path);
        if df.Some? && TEAM_COL in df.value.columns {
          return df.value;
        }
      }
      assert paths[i..][1..] == paths[i + 1..];
      i := i + 1;
    }
    return EMPTY_TABLE;
  }

  /** The module-global `_fan_df_cache`: empty until the first request, then
      holding the loaded table for the rest of the process. */
  class FanCache {
    var cache: Option<Table>

    /** A stored table came from the loader, so it has a team column. */
    predicate Valid()
      reads this
    {
      cache.Some? ==> TEAM_COL in cache.value.columns
    }

    constructor ()
      ensures Valid() && cache == None
    {
      cache := None;
    }

    /** `get_fan_df`: loads the table on the first call only; every later
        call returns the stored table, whatever the disk holds by then. */
    method Get(fs: FileSystem, dataDir: string) returns (t: Table)
      requires Valid()
      modifies this
      ensures Valid()
      ensures old(cache).Some? ==> t == old(cache).value && cache == old(cache)
      ensures old(cache).None? ==> t == FanTableOf(fs, dataDir) && cache == Some(t)
      ensures TEAM_COL in t.columns
    {
      if cache.None? {
        var loaded := LoadFanDf(fs, dataDir);
        cache := Some(loaded);
      }
      t := cache.value;
    }
  }

  /** Two requests against a fresh process: the second sees the table the
      first loaded, even when the disk changed in between. */
  method TwoRequests(before: FileSystem, after: FileSystem, dataDir: string) returns (first: Table, second: Table)
    ensures first == FanTableOf(before, dataDir)
    ensures second == first
  {
    var c := new FanCache();
    first := c.Get(before, dataDir);
    second := c.Get(after, dataDir);
  }
}
