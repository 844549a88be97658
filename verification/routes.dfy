/** The two JSON endpoints, `/api/teams` and `/api/teaminfo`, as methods
    over the process-wide table cache and an abstract disk, and the reply
    each one produces as a function of the table it is served. */
module Routes {
  import opened Wrappers
  import opened PyText
  import opened Frames
  import opened Paths
  import opened FanTable
  import opened Temperature
  import opened Teams
  import opened Comments
  import opened Logos

  /** Each team's cheering slogan, shown as the headline. */
  const TEAM_SLOGANS: map<string, string> := map[
    "한화" := "최강 한화! 이글스의 불꽃을 함께 피워요",
    "KIA" := "남행열차! 타이거즈의 승리를 향해 달려요!",
    "롯데" := "마, 롯데를 위해 응원 함 해보입시더!",
    "삼성" := "뜨거운 대구별과 같은 열정으로 응원하자!",
    "LG" := "무적 LG, 신바람 야구 함께 응원하자!",
    "두산" := "승리를 위하여! 베어스 10번타자 모여라!",
    "SSG" := "투혼의 랜더스! 으쓱이들 집합, 여기로 모여!",
    "키움" := "영웅출정가! 히어로즈의 승리를 위한 함성!",
    "NC" := "집행검을 들어올리자! 다이노스, 함께 해요!",
    "KT" := "우리는 kt wiz! 마법같은 시즌을 위해!"
  ]

  /** `TEAM_SLOGANS.get(team, "")`: the team's slogan, and the empty
      headline exactly for a team without one. */
  function Headline(team: string): (h: string)
    ensures h != "" <==> team in TEAM_SLOGANS
    ensures team in TEAM_SLOGANS ==> h == TEAM_SLOGANS[team]
  {
    if team in TEAM_SLOGANS then TEAM_SLOGANS[team] else ""
  }

  /** The ten fallback teams are exactly the teams with a slogan and
      exactly the teams with a mapped logo file. */
  lemma TeamDictionariesAgree()
    ensures forall t :: t in FALLBACK_TEAMS <==> t in TEAM_SLOGANS
    ensures forall t :: t in FALLBACK_TEAMS <==> t in TEAM_LOGO_FILE
    ensures forall t | t in TEAM_SLOGANS :: TEAM_SLOGANS[t] != ""
  {
  }

  /** The table a request is served: the cached one when there is one,
      otherwise the one the loader picks from the disk. */
  function Served(cache: Option<Table>, fs: FileSystem, dataDir: string): Table {
    cache.GetOr(FanTableOf(fs, dataDir))
  }

  /** The body of `/api/teams`. */
  datatype TeamsReply = TeamsReply(teams: seq<string>, default: string)

  /** `/api/teams`: the dropdown catalog of the served table, and the
      configured default team. */
  method ApiTeams(cache: FanCache, fs: FileSystem, cfg: Settings) returns (reply: TeamsReply)
    requires cache.Valid()
    modifies cache
    ensures cache.Valid()
    ensures cache.cache == Some(Served(old(cache.cache), fs, cfg.dataDir))
    ensures reply == TeamsReply(DropdownTeams(Served(old(cache.cache), fs, cfg.dataDir)), cfg.defaultTeam)
  {
    var df := cache.Get(fs, cfg.dataDir);
    reply := TeamsReply(DropdownTeams(df), cfg.defaultTeam);
  }

  /** The body of `/api/teaminfo`. */
  datatype TeamInfo = TeamInfo(
    team: string,
    logoPath: string,
    temperature: int,
    fillColor: string,
    headline: string,
    tempComment: string,
    comments: seq<Comment>)

  /** The reply assembled from the resolved team, its temperature, its logo
      path and its comments: the colour, the headline and the temperature
      comment are derived here. */
  function Reply(team: string, pos: int, logoPath: string, comments: seq<Comment>): (info: TeamInfo)
    ensures info.team == team && info.temperature == pos && info.logoPath == logoPath && info.comments == comments
    ensures info.fillColor == TemperatureColor(Some(pos))
    ensures info.tempComment == LABELS[Bucket(pos)]
    ensures info.headline != "" <==> team in TEAM_SLOGANS
    ensures team in TEAM_SLOGANS ==> info.headline == TEAM_SLOGANS[team]
  {
    TeamInfo(team, logoPath, pos, TemperatureColor(Some(pos)), Headline(team), TemperatureComment(Some(pos)), comments)
  }

  /** The first `count` comments of the team, or all of them when there are
      fewer. */
  function Sample(fs: FileSystem, dataDir: string, team: string, count: int): (cs: seq<Comment>)
    requires count >= 0
    ensures |cs| <= count
    ensures cs <= AllComments(fs, dataDir, team)
    ensures |cs| == count || cs == AllComments(fs, dataDir, team)
  {
    var all := AllComments(fs, dataDir, team);
    var n := if count < |all| then count else |all|;
    assert all[..n] <= all;
    all[..n]
  }

  /** The reply `/api/teaminfo` gives for a served table, a disk, and the
      `team` and `count` query parameters. */
  function TeamInfoOf(df: Table, fs: FileSystem, cfg: Settings, reqTeam: Option<string>, countArg: Option<string>): (info: TeamInfo)
    ensures info.team == ResolveTeam(reqTeam, InfoTeams(df), cfg.defaultTeam)
    ensures info.temperature == PositiveRatio(df, InfoTeams(df), info.team)
    ensures info.fillColor == TemperatureColor(Some(info.temperature))
    ensures info.tempComment == LABELS[Bucket(info.temperature)]
    ensures info.headline != "" <==> info.team in TEAM_SLOGANS
    ensures info.team in TEAM_SLOGANS ==> info.headline == TEAM_SLOGANS[info.team]
    ensures info.logoPath == TeamLogoPath(fs, StaticLogosDir(cfg), DataLogosDir(cfg), info.team)
    ensures info.comments == Sample(fs, cfg.dataDir, info.team, ClampCount(countArg))
  {
    var teams := InfoTeams(df);
    var team := ResolveTeam(reqTeam, teams, cfg.defaultTeam);
    var pos := PositiveRatio(df, teams, team);
    Reply(team, pos, TeamLogoPath(fs, StaticLogosDir(cfg), DataLogosDir(cfg), team), Sample(fs, cfg.dataDir, team, ClampCount(countArg)))
  }

  /** The reply names a catalog team whenever the catalog is non-empty, and
      only a catalog team with a ratio column gets a non-zero temperature;
      only a team with a slogan gets a headline. */
  lemma ReplyTeam(df: Table, fs: FileSystem, cfg: Settings, reqTeam: Option<string>, countArg: Option<string>)
    ensures InfoTeams(df) != [] ==> TeamInfoOf(df, fs, cfg, reqTeam, countArg).team in InfoTeams(df)
    ensures TeamInfoOf(df, fs, cfg, reqTeam, countArg).temperature != 0 ==>
      TeamInfoOf(df, fs, cfg, reqTeam, countArg).team in InfoTeams(df) && RATIO_COL in df.columns
    ensures TeamInfoOf(df, fs, cfg, reqTeam, countArg).headline != "" ==>
      TeamInfoOf(df, fs, cfg, reqTeam, countArg).team in TEAM_SLOGANS
  {
  }

  /** The reply's comments are the first ones the team's files offer, never
      more than the clamped count (and so never more than 100), fewer only
      when the files run out, and each one well formed. */
  lemma ReplyComments(df: Table, fs: FileSystem, cfg: Settings, reqTeam: Option<string>, countArg: Option<string>)
    ensures var info := TeamInfoOf(df, fs, cfg, reqTeam, countArg);
      && |info.comments| <= ClampCount(countArg) <= MAX_COUNT
      && info.comments <= AllComments(fs, cfg.dataDir, info.team)
      && (|info.comments| == ClampCount(countArg) || info.comments == AllComments(fs, cfg.dataDir, info.team))
      && forall k | 0 <= k < |info.comments| :: WellFormed(info.comments[k])
  {
    var info := TeamInfoOf(df, fs, cfg, reqTeam, countArg);
    var sample := Sample(fs, cfg.dataDir, info.team, ClampCount(countArg));
    var all := AllComments(fs, cfg.dataDir, info.team);
    forall k | 0 <= k < |sample| ensures WellFormed(sample[k]) {
      assert sample[k] == all[k];
    }
  }

  /** `/api/teaminfo`: fetches the table through the cache, resolves the
      team, reads its temperature, finds its logo and collects its
      comments. */
  method ApiTeamInfo(cache: FanCache, fs: FileSystem, cfg: Settings, reqTeam: Option<string>, countArg: Option<string>)
    returns (info: TeamInfo)
    requires cache.Valid()
    modifies cache
    ensures cache.Valid()
    ensures cache.cache == Some(Served(old(cache.cache), fs, cfg.dataDir))
    ensures info == TeamInfoOf(Served(old(cache.cache), fs, cfg.dataDir), fs, cfg, reqTeam, countArg)
  {
    var df := cache.Get(fs, cfg.dataDir);
    var teams := InfoTeams(df);
    var team := ResolveTeam(reqTeam, teams, cfg.defaultTeam);
    var pos := PositiveRatio(df, teams, team);
    var count := ClampCount(countArg);
    var logoFile := FindLogo(fs, StaticLogosDir(cfg), DataLogosDir(cfg), team, LogoHint(team));
    var logoPath := LogoPath(logoFile);
    assert logoPath == TeamLogoPath(fs, StaticLogosDir(cfg), DataLogosDir(cfg), team);
    var comments := CollectComments(fs, cfg.dataDir, team, count);
    assert comments == Sample(fs, cfg.dataDir, team, count);
    info := Reply(team, pos, logoPath, comments);
  }

  /** A team picked from the table's dropdown gets its own reply: the
      resolved team is the one requested. */
  lemma DropdownPickIsServed(df: Table, fs: FileSystem, cfg: Settings, x: string, countArg: Option<string>)
    requires TableTeams(df) != [] && x in DropdownTeams(df)
    ensures TeamInfoOf(df, fs, cfg, Some(x), countArg).team == x
  {
    DropdownTeamResolvesToItself(df, x, cfg.defaultTeam);
  }

  /** Asking again with the clamped count, written out as a number, gives
      the same comments: the clamp is a fixed point of the parameter. */
  lemma CountReplayStable(df: Table, fs: FileSystem, cfg: Settings, reqTeam: Option<string>, countArg: Option<string>)
    ensures TeamInfoOf(df, fs, cfg, reqTeam, Some(ShowInt(ClampCount(countArg)))).comments
      == TeamInfoOf(df, fs, cfg, reqTeam, countArg).comments
  {
    ClampCountIdempotent(countArg);
  }

  /** With an empty catalog any non-empty requested team is kept, and the
      comment files are joined from the team's own name: a name starting
      with `/` makes the route read files outside the data directory. */
  lemma AbsoluteTeamLeavesDataDir(df: Table, fs: FileSystem, cfg: Settings, countArg: Option<string>)
    requires InfoTeams(df) == []
    ensures TeamInfoOf(df, fs, cfg, Some("/tmp/x"), countArg).team == "/tmp/x"
    ensures CommentFiles(cfg.dataDir, "/tmp/x") == ["/tmp/x_유튜브.csv", "/tmp/x_댓글.csv"]
  {
    var team := "/tmp/x";
    assert Truthy(Some(team));
    assert ResolveTeam(Some(team), InfoTeams(df), cfg.defaultTeam) == team;
    AbsoluteTeamCommentFiles(cfg.dataDir);
  }
}
