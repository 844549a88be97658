/** The team catalog the dropdown offers (`/api/teams`), the catalog team
    resolution uses (`/api/teaminfo`), the resolution itself and the
    positive-ratio lookup. */
module Teams {
  import opened Wrappers
  import opened PyText
  import opened Frames
  import opened FanTable

  /** The ten teams offered when the table names none. */
  const FALLBACK_TEAMS: seq<string> := ["SSG", "LG", "두산", "키움", "KIA", "KT", "NC", "롯데", "삼성", "한화"]

  /** The non-NaN team names of the table, in row order, or nothing when the
      table has no team column. */
  function TeamCells(df: Table): (vs: seq<string>)
    ensures forall x :: x in vs <==> TEAM_COL in df.columns && exists k | 0 <= k < |df.rows| :: At(df.rows[k], TEAM_COL) == Some(x)
  {
    if TEAM_COL in df.columns then ColumnValues(df.rows, TEAM_COL) else []
  }

  /** The catalog `/api/teaminfo` resolves against:
      `list(df["팀"].dropna().unique())`; blank names are kept. */
  function InfoTeams(df: Table): (ts: seq<string>)
    ensures NoDuplicates(ts)
    ensures forall x :: x in ts <==> x in TeamCells(df)
  {
    Unique(TeamCells(df))
  }

  /** `str(t).strip()` is truthy: the name is not blank, since `Strip`
      is empty exactly on blank strings. */
  predicate Named(x: string) {
    !Blank(x)
  }

  /** The fallback list names ten different teams, none of them blank. */
  lemma FallbackNamed()
    ensures NoDuplicates(FALLBACK_TEAMS)
    ensures forall x | x in FALLBACK_TEAMS :: Named(x)
  {
    forall x | x in FALLBACK_TEAMS ensures Named(x) {
      assert x != [] && !IsSpace(x[0]);
    }
  }

  /** The names whose `strip()` is non-empty, in order. */
  function NonBlank(xs: seq<string>): (ys: seq<string>)
    ensures forall y :: y in ys <==> y in xs && Named(y)
    ensures NoDuplicates(xs) ==> NoDuplicates(ys)
    ensures |ys| <= |xs|
  {
    if xs == [] then []
    else
      var init := NonBlank(xs[..|xs| - 1]);
      var last := xs[|xs| - 1];
      assert xs == xs[..|xs| - 1] + [last];
      if Named(last) then init + [last] else init
  }

  /** The names the table itself offers to the dropdown: distinct, not NaN,
      not blank, in order of first appearance. */
  function TableTeams(df: Table): (ts: seq<string>)
    ensures NoDuplicates(ts)
    ensures forall x :: x in ts <==> x in TeamCells(df) && Named(x)
  {
    NonBlank(InfoTeams(df))
  }

  /** `/api/teams`: the table's own names when there are any, the ten-team
      list otherwise. Never empty, never a duplicate or a blank name. */
  function DropdownTeams(df: Table): (ts: seq<string>)
    ensures ts != []
    ensures NoDuplicates(ts)
    ensures forall x | x in ts :: Named(x)
    ensures TableTeams(df) != [] ==> forall x :: x in ts <==> x in TeamCells(df) && Named(x)
    ensures TableTeams(df) == [] ==> ts == FALLBACK_TEAMS
  {
    FallbackNamed();
    var teams := TableTeams(df);
    if teams != [] then teams else FALLBACK_TEAMS
  }

  /** The dropdown lists the table's names in the order they first appear
      in the team column. */
  lemma {:induction false} NonBlankKeepsOrder(xs: seq<string>, i: int, j: int)
    requires 0 <= i < j < |NonBlank(xs)|
    ensures exists a, b | 0 <= a < b < |xs| :: xs[a] == NonBlank(xs)[i] && xs[b] == NonBlank(xs)[j]
  {
    var init := xs[..|xs| - 1];
    var last := xs[|xs| - 1];
    var ys := NonBlank(xs);
    var zs := NonBlank(init);
    assert ys == if Named(last) then zs + [last] else zs;
    if j < |zs| {
      NonBlankKeepsOrder(init, i, j);
      var a, b :| 0 <= a < b < |init| && init[a] == zs[i] && init[b] == zs[j];
      assert xs[a] == ys[i] && xs[b] == ys[j];
    } else {
      assert ys[i] == zs[i] && zs[i] in zs;
      var a :| 0 <= a < |init| && init[a] == zs[i];
      assert xs[a] == ys[i] && xs[|xs| - 1] == ys[j];
    }
  }

  /** The dropdown (when it comes from the table) keeps first-appearance
      order: of two names it lists, the earlier one occurs earlier in the team
      column. */
  lemma DropdownFirstAppearance(df: Table, i: int, j: int)
    requires TableTeams(df) != []
    requires 0 <= i < j < |DropdownTeams(df)|
    ensures DropdownTeams(df)[i] in TeamCells(df) && DropdownTeams(df)[j] in TeamCells(df)
    ensures FirstIndex(TeamCells(df), DropdownTeams(df)[i]) < FirstIndex(TeamCells(df), DropdownTeams(df)[j])
  {
    var u := InfoTeams(df);
    NonBlankKeepsOrder(u, i, j);
    var a, b :| 0 <= a < b < |u| && u[a] == TableTeams(df)[i] && u[b] == TableTeams(df)[j];
    UniqueKeepsFirstOrder(TeamCells(df), a, b);
  }

  /** Read down the rows of the table: of two names the dropdown lists, the
      earlier one is met in some row before any row holds the later one. */
  lemma DropdownRowOrder(df: Table, i: int, j: int)
    requires TableTeams(df) != []
    requires 0 <= i < j < |DropdownTeams(df)|
    ensures exists a | 0 <= a < |df.rows| ::
      At(df.rows[a], TEAM_COL) == Some(DropdownTeams(df)[i]) && forall b | 0 <= b <= a :: At(df.rows[b], TEAM_COL) != Some(DropdownTeams(df)[j])
  {
    var x, y := DropdownTeams(df)[i], DropdownTeams(df)[j];
    DropdownFirstAppearance(df, i, j);
    assert TEAM_COL in df.columns;
    assert TeamCells(df) == ColumnValues(df.rows, TEAM_COL);
    FirstIndexIsFirstRow(df.rows, TEAM_COL, x, y);
  }

  /** The first catalog team, which resolution falls back to, is the team of
      the first row that names one. */
  lemma FirstCatalogTeam(df: Table, k: int, req: Option<string>, default: string)
    requires TEAM_COL in df.columns
    requires 0 <= k < |df.rows| && At(df.rows[k], TEAM_COL).Some?
    requires forall j | 0 <= j < k :: At(df.rows[j], TEAM_COL).None?
    ensures InfoTeams(df) != [] && InfoTeams(df)[0] == At(df.rows[k], TEAM_COL).value
    ensures !(Truthy(req) && req.value in InfoTeams(df)) ==> ResolveTeam(req, InfoTeams(df), default) == At(df.rows[k], TEAM_COL).value
  {
    var cells := TeamCells(df);
    ColumnValuesAt(df.rows, TEAM_COL, k);
    ColumnValuesNone(df.rows[..k], TEAM_COL);
    assert cells[0] == At(df.rows[k], TEAM_COL).value;
    UniqueHead(cells);
  }

  /** Python's truthiness of the `team` query parameter: present and not the
      empty string. */
  predicate Truthy(req: Option<string>) {
    req.Some? && req.value != ""
  }

  /** Team resolution in `/api/teaminfo`: the requested team when it is
      truthy and known (or nothing is known), else the first known team, else
      the configured default. It never fails. */
  function ResolveTeam(req: Option<string>, teams: seq<string>, default: string): (team: string)
    ensures teams != [] ==> team in teams
    ensures teams == [] ==> team == (if Truthy(req) then req.value else default)
    ensures Truthy(req) && req.value in teams ==> team == req.value
    ensures teams != [] && !(Truthy(req) && req.value in teams) ==> team == teams[0]
  {
    if Truthy(req) && (teams == [] || req.value in teams) then req.value
    else if teams != [] then teams[0]
    else default
  }

  /** The first row whose team cell is `team` (`df.loc[df["팀"] == team]`,
      first row). */
  function FirstRowOf(rows: seq<Row>, team: string): (r: Option<nat>)
    ensures r.Some? ==> r.value < |rows| && At(rows[r.value], TEAM_COL) == Some(team)
    ensures r.Some? ==> forall k | 0 <= k < r.value :: At(rows[k], TEAM_COL) != Some(team)
    ensures r.None? ==> forall k | 0 <= k < |rows| :: At(rows[k], TEAM_COL) != Some(team)
  {
    if rows == [] then None
    else if At(rows[0], TEAM_COL) == Some(team) then Some(0)
    else
      var r := FirstRowOf(rows[1..], team);
      if r.Some? then Some(r.value + 1) else None
  }

  /** `int()` applied to a cell: NaN and non-numerals raise, here `None`;
      a cell holding a plain numeral, surrounding space aside, reads as its
      value. */
  function CellInt(c: Cell): (r: Option<int>)
    ensures c.None? ==> r.None?
    ensures r.Some? ==> c.Some? && Strip(c.value) != []
    ensures c.Some? && WellFormedDigits(Strip(c.value)) ==> r == Some(DigitsValue(Strip(c.value)))
  {
    match c
    case None => None
    case Some(s) => ParseInt(s)
  }

  /** The temperature shown for `team`: 0 unless the table has both columns
      and `team` is in the catalog, otherwise the ratio of the team's first
      row, with 0 when that cell is not an integer. */
  function PositiveRatio(df: Table, teams: seq<string>, team: string): (pos: int)
    ensures pos != 0 ==> TEAM_COL in df.columns && RATIO_COL in df.columns && team in teams
    ensures pos != 0 ==> exists k | 0 <= k < |df.rows| ::
      && At(df.rows[k], TEAM_COL) == Some(team)
      && (forall j | 0 <= j < k :: At(df.rows[j], TEAM_COL) != Some(team))
      && CellInt(At(df.rows[k], RATIO_COL)) == Some(pos)
  {
    if TEAM_COL in df.columns && RATIO_COL in df.columns && team in teams then
      match FirstRowOf(df.rows, team)
      case None => 0
      case Some(k) => CellInt(At(df.rows[k], RATIO_COL)).GetOr(0)
    else 0
  }

  /** When the team is known to the catalog, the temperature is read from
      its first row. */
  lemma RatioOfKnownTeam(df: Table, team: string, k: nat)
    requires TEAM_COL in df.columns && RATIO_COL in df.columns
    requires k < |df.rows| && At(df.rows[k], TEAM_COL) == Some(team)
    requires forall j | 0 <= j < k :: At(df.rows[j], TEAM_COL) != Some(team)
    ensures team in InfoTeams(df)
    ensures PositiveRatio(df, InfoTeams(df), team) == CellInt(At(df.rows[k], RATIO_COL)).GetOr(0)
  {
    assert team in TeamCells(df);
    var r := FirstRowOf(df.rows, team);
    assert r.Some? && r.value <= k;
  }

  /** Every team the dropdown takes from the table resolves to itself in
      `/api/teaminfo`. */
  lemma DropdownTeamResolvesToItself(df: Table, x: string, default: string)
    requires TableTeams(df) != [] && x in DropdownTeams(df)
    ensures ResolveTeam(Some(x), InfoTeams(df), default) == x
  {
  }

  /** The two catalogs disagree on a table whose only team name is blank:
      the dropdown falls back to the ten-team list, yet `/api/teaminfo`
      resolves the first of those, "SSG", to the blank name. */
  lemma BlankOnlyTableMisroutesFallback()
    ensures DropdownTeams(Table([TEAM_COL], [map[TEAM_COL := Some(" ")]]))[0] == "SSG"
    ensures ResolveTeam(Some("SSG"), InfoTeams(Table([TEAM_COL], [map[TEAM_COL := Some(" ")]])), "SSG") == " "
  {
    var df := Table([TEAM_COL], [map[TEAM_COL := Some(" ")]]);
    assert TeamCells(df) == [" "];
    assert InfoTeams(df) == [" "];
    assert !Named(" ");
    assert TableTeams(df) == [];
  }
}
