/** The logo lookup of `/api/teaminfo` (`_find_logo`): which file names are
    tried, in which directories and in which order, and the `logo_path` the
    response carries. */
module Logos {
  import opened Wrappers
  import opened Frames
  import opened Paths

  /** The extensions tried for `{team}{ext}`, in order. */
  const EXTENSIONS: seq<string> := [".png", ".jpg", ".jpeg"]

  /** The URL prefix under which logos are served. */
  const LOGO_ROUTE := "/logos/"

  /** The explicit team-to-file mapping. */
  const TEAM_LOGO_FILE: map<string, string> := map[
    "KIA" := "KIA.png",
    "두산" := "두산.png",
    "LG" := "LG.png",
    "키움" := "키움.png",
    "KT" := "KT.png",
    "한화" := "한화.png",
    "롯데" := "롯데.png",
    "NC" := "NC.png",
    "삼성" := "삼성.png",
    "SSG" := "SSG.png"
  ]

  /** `TEAM_LOGO_FILE.get(team, f"{team}.png")`. Every entry of the mapping
      is the team's own name with `.png`, so the hint is always that. */
  function LogoHint(team: string): (h: string)
    ensures h == team + ".png"
  {
    if team in TEAM_LOGO_FILE then TEAM_LOGO_FILE[team] else team + ".png"
  }

  /** `{team}{ext}` in the static directory, then in the data directory, for
      each extension of `exts` in turn. */
  function TeamCandidates(staticDir: string, dataDir: string, team: string, exts: seq<string>): (ps: seq<string>)
    ensures |ps| == 2 * |exts|
  {
    if exts == [] then []
    else
      var init := TeamCandidates(staticDir, dataDir, team, exts[..|exts| - 1]);
      var ext := exts[|exts| - 1];
      init + [Join(staticDir, team + ext), Join(dataDir, team + ext)]
  }

  /** The eight candidates `_find_logo(name)` tries, in order: `name` in the
      static then the data logo directory, then `{team}.png`, `{team}.jpg`
      and `{team}.jpeg`, each static before data. */
  function LogoCandidates(staticDir: string, dataDir: string, team: string, name: string): (ps: seq<string>)
    ensures |ps| == 8
  {
    [Join(staticDir, name), Join(dataDir, name)]
      + TeamCandidates(staticDir, dataDir, team, EXTENSIONS)
  }

  /** The `k`-th extension contributes the pair at `2k` and `2k + 1`: static
      first, then data. */
  lemma {:induction false} TeamCandidatesAt(staticDir: string, dataDir: string, team: string, exts: seq<string>, k: int)
    requires 0 <= k < |exts|
    ensures TeamCandidates(staticDir, dataDir, team, exts)[2 * k] == Join(staticDir, team + exts[k])
    ensures TeamCandidates(staticDir, dataDir, team, exts)[2 * k + 1] == Join(dataDir, team + exts[k])
  {
    var init := exts[..|exts| - 1];
    if k < |init| {
      TeamCandidatesAt(staticDir, dataDir, team, init, k);
    }
  }

  /** The order of the eight candidates: `name` in the static then the data
      logo directory, then `{team}.png`, `{team}.jpg` and `{team}.jpeg`, each
      in the static directory before the data directory. */
  lemma LogoCandidateOrder(staticDir: string, dataDir: string, team: string, name: string, k: int)
    requires 0 <= k < 3
    ensures LogoCandidates(staticDir, dataDir, team, name)[0] == Join(staticDir, name)
    ensures LogoCandidates(staticDir, dataDir, team, name)[1] == Join(dataDir, name)
    ensures LogoCandidates(staticDir, dataDir, team, name)[2 + 2 * k] == Join(staticDir, team + EXTENSIONS[k])
    ensures LogoCandidates(staticDir, dataDir, team, name)[3 + 2 * k] == Join(dataDir, team + EXTENSIONS[k])
  {
    TeamCandidatesAt(staticDir, dataDir, team, EXTENSIONS, k);
  }

  /** The position of the first path that exists, if any. */
  function FirstExisting(fs: FileSystem, paths: seq<string>): (r: Option<nat>)
    ensures r.None? <==> forall i | 0 <= i < |paths| :: !Exists(fs, paths[i])
    ensures r.Some? ==> r.value < |paths| && Exists(fs, paths[r.value])
    ensures r.Some? ==> forall j | 0 <= j < r.value :: !Exists(fs, paths[j])
  {
    if paths == [] then None
    else if Exists(fs, paths[0]) then Some(0)
    else
      var r := FirstExisting(fs, paths[1..]);
      if r.Some? then Some(r.value + 1) else None
  }

  /** What `_find_logo` returns for a candidate list: the basename of the
      first candidate that exists, or `None`. */
  function FoundLogo(fs: FileSystem, paths: seq<string>): (r: Option<string>)
    ensures r.None? <==> forall i | 0 <= i < |paths| :: !Exists(fs, paths[i])
    ensures r.Some? ==> '/' !in r.value
  {
    match FirstExisting(fs, paths)
    case None => None
    case Some(i) => Some(Basename(paths[i]))
  }

  /** Whichever candidate exists with none existing before it, its
      basename is what `_find_logo` returns. */
  lemma FoundLogoIsFirst(fs: FileSystem, paths: seq<string>, i: int)
    requires 0 <= i < |paths| && Exists(fs, paths[i])
    requires forall j | 0 <= j < i :: !Exists(fs, paths[j])
    ensures FoundLogo(fs, paths) == Some(Basename(paths[i]))
  {
    var r := FirstExisting(fs, paths);
    assert r.Some?;
    assert !(r.value < i) && !(i < r.value);
  }

  /** `_find_logo(name)`: builds the candidate list, then returns the
      basename of the first candidate that exists, or `None`. */
  method FindLogo(fs: FileSystem, staticDir: string, dataDir: string, team: string, name: string) returns (file: Option<string>)
    ensures file == FoundLogo(fs, LogoCandidates(staticDir, dataDir, team, name))
  {
    var candidates := [Join(staticDir, name), Join(dataDir, name)];
    for e := 0 to |EXTENSIONS|
      invariant candidates == [Join(staticDir, name), Join(dataDir, name)] + TeamCandidates(staticDir, dataDir, team, EXTENSIONS[..e])
    {
      var ext := EXTENSIONS[e];
      assert EXTENSIONS[..e + 1][..e] == EXTENSIONS[..e] && EXTENSIONS[..e + 1][e] == ext;
      candidates := candidates + [Join(staticDir, team + ext), Join(dataDir, team + ext)];
    }
    assert EXTENSIONS[..|EXTENSIONS|] == EXTENSIONS;
    assert candidates == LogoCandidates(staticDir, dataDir, team, name);
    var i := 0;
    while i < |candidates|
      invariant 0 <= i <= |candidates|
      invariant forall j | 0 <= j < i :: !Exists(fs, candidates[j])
    {
      if Exists(fs, candidates[i]) {
        assert FirstExisting(fs, candidates) == Some(i);
        return Some(Basename(candidates[i]));
      }
      i := i + 1;
    }
    assert FirstExisting(fs, candidates) == None;
    return None;
  }

  /** `f"/logos/{logo_file}" if logo_file else ""`. */
  function LogoPath(file: Option<string>): (r: string)
    ensures r == "" <==> file.None? || file.value == ""
    ensures r != "" ==> LOGO_ROUTE <= r && r[|LOGO_ROUTE|..] == file.value
  {
    if file.Some? && file.value != "" then LOGO_ROUTE + file.value else ""
  }

  /** The `logo_path` of the response for `team`. */
  function TeamLogoPath(fs: FileSystem, staticDir: string, dataDir: string, team: string): (r: string)
    ensures r == "" || LOGO_ROUTE <= r
  {
    LogoPath(FoundLogo(fs, LogoCandidates(staticDir, dataDir, team, LogoHint(team))))
  }

  /** Because the hint is always `{team}.png`, the mapped candidates repeat
      the `.png` ones: the first two of the eight are tried again as the
      third and fourth. */
  lemma MappedCandidatesRepeatPng(staticDir: string, dataDir: string, team: string)
    ensures LogoCandidates(staticDir, dataDir, team, LogoHint(team))[..2] == LogoCandidates(staticDir, dataDir, team, LogoHint(team))[2..4]
  {
    LogoCandidateOrder(staticDir, dataDir, team, LogoHint(team), 0);
  }

  /** When the winning candidate is a `/`-free file joined to a directory,
      that file is what `_find_logo` returns. */
  lemma FoundJoinedFile(fs: FileSystem, ps: seq<string>, i: nat, dir: string, file: string)
    requires FirstExisting(fs, ps) == Some(i) && i < |ps| && ps[i] == Join(dir, file) && '/' !in file
    ensures FoundLogo(fs, ps) == Some(file)
  {
    BasenameOfJoin(dir, file);
  }

  /** The file found for a team name without `/` is the team's own file
      with one of the three extensions. */
  lemma FoundTeamFile(fs: FileSystem, staticDir: string, dataDir: string, team: string, i: nat)
    requires '/' !in team
    requires FirstExisting(fs, LogoCandidates(staticDir, dataDir, team, LogoHint(team))) == Some(i)
    ensures exists k | 0 <= k < 3 :: FoundLogo(fs, LogoCandidates(staticDir, dataDir, team, LogoHint(team))) == Some(team + EXTENSIONS[k])
  {
    var k, dir := CandidateFile(staticDir, dataDir, team, i);
    FoundJoinedFile(fs, LogoCandidates(staticDir, dataDir, team, LogoHint(team)), i, dir, team + EXTENSIONS[k]);
  }

  /** When some candidate exists, the logo path is `/logos/` followed by
      the team's own file with one of the three extensions. */
  lemma TeamLogoPathFound(fs: FileSystem, staticDir: string, dataDir: string, team: string)
    requires '/' !in team
    requires FirstExisting(fs, LogoCandidates(staticDir, dataDir, team, LogoHint(team))).Some?
    ensures exists k | 0 <= k < 3 :: TeamLogoPath(fs, staticDir, dataDir, team) == LOGO_ROUTE + (team + EXTENSIONS[k])
  {
    var ps := LogoCandidates(staticDir, dataDir, team, LogoHint(team));
    FoundTeamFile(fs, staticDir, dataDir, team, FirstExisting(fs, ps).value);
    var k :| 0 <= k < 3 && FoundLogo(fs, ps) == Some(team + EXTENSIONS[k]);
    var file := team + EXTENSIONS[k];
    assert |file| > 0 by {
      assert |EXTENSIONS[k]| > 0;
    }
    assert TeamLogoPath(fs, staticDir, dataDir, team) == LogoPath(Some(file)) == LOGO_ROUTE + file;
  }

  /** For a team name without `/`, the logo path is empty exactly when none
      of the eight candidates exists, and otherwise is `/logos/` followed by
      the team's own file with one of the three extensions. */
  lemma TeamLogoPathShape(fs: FileSystem, staticDir: string, dataDir: string, team: string)
    requires '/' !in team
    ensures TeamLogoPath(fs, staticDir, dataDir, team) == "" <==>
      forall i | 0 <= i < 8 :: !Exists(fs, LogoCandidates(staticDir, dataDir, team, LogoHint(team))[i])
    ensures TeamLogoPath(fs, staticDir, dataDir, team) != "" ==>
      exists k | 0 <= k < 3 :: TeamLogoPath(fs, staticDir, dataDir, team) == LOGO_ROUTE + (team + EXTENSIONS[k])
  {
    var ps := LogoCandidates(staticDir, dataDir, team, LogoHint(team));
    if FirstExisting(fs, ps).Some? {
      TeamLogoPathFound(fs, staticDir, dataDir, team);
      assert Exists(fs, ps[FirstExisting(fs, ps).value]);
    }
  }

  /** Every candidate for the hinted name is `{team}{ext}` in one of the two
      logo directories. */
  lemma CandidateFile(staticDir: string, dataDir: string, team: string, i: int) returns (k: int, dir: string)
    requires '/' !in team && 0 <= i < 8
    ensures 0 <= k < 3 && '/' !in team + EXTENSIONS[k]
    ensures LogoCandidates(staticDir, dataDir, team, LogoHint(team))[i] == Join(dir, team + EXTENSIONS[k])
  {
    k := if i < 4 then 0 else if i < 6 then 1 else 2;
    var even := i == 0 || i == 2 || i == 4 || i == 6;
    dir := if even then staticDir else dataDir;
    var file := team + EXTENSIONS[k];
    assert '/' !in file by {
      assert '/' !in EXTENSIONS[k];
      assert forall c | c in file :: c in team || c in EXTENSIONS[k];
    }
    LogoCandidateOrder(staticDir, dataDir, team, LogoHint(team), k);
  }

  /** A `{team}.png` in either directory always wins: the static and data
      logo directories are both searched for it before any `.jpg` or
      `.jpeg`. */
  lemma PngPreferred(fs: FileSystem, staticDir: string, dataDir: string, team: string)
    requires '/' !in team
    requires Exists(fs, Join(staticDir, team + ".png")) || Exists(fs, Join(dataDir, team + ".png"))
    ensures TeamLogoPath(fs, staticDir, dataDir, team) == LOGO_ROUTE + (team + ".png")
  {
    var ps := LogoCandidates(staticDir, dataDir, team, LogoHint(team));
    LogoCandidateOrder(staticDir, dataDir, team, LogoHint(team), 0);
    assert ps[0] == Join(staticDir, team + ".png") && ps[1] == Join(dataDir, team + ".png");
    assert Exists(fs, ps[0]) || Exists(fs, ps[1]);
    var i := FirstExisting(fs, ps).value;
    assert i < 2;
    var dir := if i == 0 then staticDir else dataDir;
    assert '/' !in team + ".png";
    FoundJoinedFile(fs, ps, i, dir, team + ".png");
    assert TeamLogoPath(fs, staticDir, dataDir, team) == LogoPath(Some(team + ".png"));
  }

  /** The basename keeps only what follows the last `/`: joined to any
      directory, `a/b.png` has basename `b.png`. */
  lemma SlashNameBasename(dir: string)
    ensures Basename(Join(dir, "a/b.png")) == "b.png"
  {
    var name := "a/b.png";
    var p := Join(dir, name);
    JoinShape(dir, name);
    assert p[|p| - 7..] == name;
    assert p[|p| - 6] == name[1] == '/';
    var q := p[..|p| - 5];
    assert p == q + "b.png";
    assert q[|q| - 1] == '/';
    BasenameAfterSlash(q, "b.png");
  }

  /** A team name with a `/` loses its directory part in the logo path: for
      the team `a/b`, a file `a/b.png` under the static logo directory is
      served as `/logos/b.png`. */
  lemma SlashTeamLogoPath(fs: FileSystem, staticDir: string, dataDir: string)
    requires Exists(fs, Join(staticDir, "a/b.png"))
    ensures TeamLogoPath(fs, staticDir, dataDir, "a/b") == "/logos/b.png"
  {
    var ps := LogoCandidates(staticDir, dataDir, "a/b", LogoHint("a/b"));
    LogoCandidateOrder(staticDir, dataDir, "a/b", LogoHint("a/b"), 0);
    assert ps[0] == Join(staticDir, "a/b.png");
    SlashNameBasename(staticDir);
    FoundLogoIsFirst(fs, ps, 0);
  }
}
