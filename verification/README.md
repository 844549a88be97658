# KBO fan-sentiment routes, modelled in Dafny

This project models the decision logic of `sentiment_routes.py`, the Flask blueprint behind a baseball fan-sentiment page. The blueprint serves two JSON endpoints.

- **`/api/teams`** returns the dropdown's team list.
  - It reads the fan-sentiment table (a CSV with a team column `팀` and a positive-ratio column `긍정비율`).
  - It lists the table's distinct, non-blank team names.
  - When the table names none, it lists a fixed set of ten KBO teams.
- **`/api/teaminfo`** resolves the requested team and builds its reply:
  - the team's *temperature*, which is its positive-sentiment percentage;
  - a one-line comment and a fill colour derived from that temperature;
  - the team's slogan;
  - the URL of the first logo file found;
  - a bounded sample of fan comments, read from the team's two comment CSV files.

The sentiment table is loaded lazily from the first of four candidate files. It is then kept in a process-wide cache.

The model takes the disk as a value. A `FileSystem` holds:
- the set of paths that exist;
- for each path that `pd.read_csv` can parse, the table it yields.

A table is a header plus rows. A row maps column names to cells, and a cell is a string or NaN (`None`).

Pure code becomes functions. Code that changes state or loops becomes imperative Dafny, proved against those functions:
- **The cache** is the class `FanTable.FanCache`, with an optional `cache` field.
- **`_load_fan_df`** is a method with a loop and an early return.
- **`_find_logo`** builds its candidate list with a loop, then scans it with a second loop.
- **Comment collection** is a loop over the two files, a loop over each file's rows (`FilterMapLoop`), and a final truncation.
- **The two endpoints** are methods over the cache object.

Modules, in dependency order:
- `Wrappers`: the `Option` type.
- `PyText`: the Python string operations the routes use:
  - `strip` with Python's whitespace set;
  - ASCII `lower`;
  - substring test;
  - `str(int)` and `int(str)`.
- `Paths`: POSIX `os.path.join` and `os.path.basename`, and the two logo directories.
- `Frames`: cells, rows, tables, the file system, `dropna` and `unique`.
- `FanTable`: the loader and its cache.
- `Temperature`: `temperature_comment` and `temperature_color`.
- `Teams`: the two team catalogs, team resolution and the ratio lookup.
- `Comments`: the `count` clamp, the column heuristics and the comment collection.
- `Logos`: `_find_logo` and the `logo_path` field.
- `Routes`: the two endpoints.

Two facts of the code shape the comment and logo models:
- **Comments are concatenated, then truncated.** Lines 203-221 append every comment of the YouTube file, then every comment of the comment file. Line 223 then cuts the list to `count`. Nothing alternates between the two sources.
- **Logo candidates go name by name.** Lines 182-192 list each file name in the static directory, then in the data directory, before the next name. Lines 193-195 take the first candidate that exists.

Three behaviours of the code as written are stated as lemmas:
- **The two catalogs can disagree.** `/api/teams` drops blank team names (line 141), but `/api/teaminfo` resolves against a catalog that keeps them (line 155). `Teams.BlankOnlyTableMisroutesFallback` exhibits a table whose only team name is `" "`. The dropdown then offers the fallback team "SSG", yet `/api/teaminfo` answers for the blank team.
- **The logo mapping adds nothing.** Every entry of the mapping is the team's own name plus `.png`, so the first two logo candidates are retried as the third and fourth (`Logos.MappedCandidatesRepeatPng`). The variable `base` at line 186 is computed and never used, so it has no counterpart in the model.
- **The team name is used as a path.** With an empty catalog any non-empty requested team is kept (line 156), which is the situation with no data files at all (lines 41-42). Lines 190-191 and 204-205 then join the name into file paths, and `os.path.join` keeps an absolute name. So the team `/tmp/x` makes the route read the absolute names `/tmp/x_유튜브.csv` and `/tmp/x_댓글.csv`, whatever the data directory is (`Routes.AbsoluteTeamLeavesDataDir`). A team `a/b` gets the logo path `/logos/b.png`, since line 195 keeps only the basename (`Logos.SlashTeamLogoPath`). The logo and comment-file lemmas above that speak of `{team}` file names hold for team names without `/`.

## Model

| member | source | states |
|---|---|---|
| PyText.Strip | sentiment_routes.py:217-218 | `strip()` removes whitespace from the two ends only: the result occurs in the input, everything before and after it is whitespace, it neither starts nor ends with whitespace, and it is empty exactly when the input is blank |
| PyText.StripUnchanged | sentiment_routes.py:217-218 | a non-empty string without leading or trailing whitespace is left unchanged |
| PyText.Lower | sentiment_routes.py:212-213 | `lower()` keeps the length and lower-cases character by character |
| PyText.Contains | sentiment_routes.py:212-213 | the `in` test holds exactly when the substring occurs at some position |
| PyText.ContainsIgnoresLower | sentiment_routes.py:212-213 | lower-casing the haystack does not change whether a substring without ASCII letters, such as `댓글`, occurs |
| PyText.LowerIdempotent | sentiment_routes.py:212-213 | lower-casing twice is lower-casing once |
| PyText.ParseInt | sentiment_routes.py:173 | up to CPython's integer-string digit limit, `int()` accepts exactly a stripped numeral with at most one leading sign; an unsigned or `+` numeral reads as its digits' value, a `-` numeral as its negation |
| PyText.ParseShowInt | sentiment_routes.py:173-176 | `int(str(i)) == i` for every integer within CPython's integer-string digit limit |
| PyText.ParseDigits | sentiment_routes.py:173 | a plain numeral reads as its digits' value |
| PyText.ShowIntChars | sentiment_routes.py:124 | `str(i)` is digits with at most a leading minus, so it holds no comma |
| Paths.JoinShape | sentiment_routes.py:29-30 | `os.path.join` returns an absolute name unchanged; otherwise the result starts with the directory and ends with the name |
| Paths.Basename | sentiment_routes.py:195 | `basename` is the suffix after the last `/` and holds no `/` |
| Paths.BasenameOfJoin | sentiment_routes.py:190-195 | the basename of `join(d, n)` is `n` when `n` has no `/` |
| Paths.JoinFileName | sentiment_routes.py:29-30 | a `/`-free file name joined to a directory lies under that directory and is its own basename |
| Frames.ColumnValues | sentiment_routes.py:141 | `dropna()` keeps exactly the non-NaN cells of the column, no more values than rows |
| Frames.FilterMapAt | sentiment_routes.py:216-220 | each element contributes at its own place: the results of the elements before it, its own result if present, then those after it |
| Frames.ColumnValuesAt | sentiment_routes.py:141 | `dropna()` keeps row order: a row's cell sits between the values of earlier and later rows, and a NaN cell contributes nothing |
| Frames.ColumnValuesNone | sentiment_routes.py:155 | a column of NaN cells has no values |
| Frames.Unique | sentiment_routes.py:155 | `unique()` has no duplicates and the same members as its input |
| Frames.UniqueKeepsFirstOrder | sentiment_routes.py:141 | `unique()` lists values in order of first appearance |
| Frames.UniqueHead | sentiment_routes.py:155-159 | `unique()` starts with the first value of its input |
| Frames.FirstIndexIsFirstRow | sentiment_routes.py:141 | of two column values, the one met first in `dropna()` occurs in a row before any row holding the other |
| FanTable.CandidatePaths | sentiment_routes.py:28-33 | four candidates; the last two are the bare file names in the working directory |
| FanTable.CandidatePathsOrder | sentiment_routes.py:28-30 | the first two candidates are `fan_sentiment.csv` then `sentiment_fine.csv`, both under the data directory |
| FanTable.FirstUsable | sentiment_routes.py:28-40 | the result is absent exactly when no candidate exists, parses and has a team column; otherwise it is the first such candidate's table |
| FanTable.FanTableOf | sentiment_routes.py:27-42 | the loaded table always has a team column; it is the first qualifying candidate's table, or the empty two-column table |
| FanTable.WinnerExists | sentiment_routes.py:28-40 | if any candidate qualifies, a first qualifying candidate exists at or before it |
| FanTable.LoadFanDf | sentiment_routes.py:27-42 | the loop with its early return computes `FanTableOf` |
| FanTable.FanCache.constructor | sentiment_routes.py:25 | the cache starts empty |
| FanTable.FanCache.Get | sentiment_routes.py:44-48 | the first call loads the table and stores it; every later call returns the stored table without reloading |
| FanTable.TwoRequests | sentiment_routes.py:44-48 | a second request sees the first request's table, whatever the disk holds by then |
| Temperature.Bucket | sentiment_routes.py:101-110 | the ten buckets: up to 10, then 11-20 through 81-90, then above 90 |
| Temperature.TemperatureComment | sentiment_routes.py:96-110 | the if-chain equals the label of the temperature's bucket, with an unconvertible input read as 0 |
| Temperature.LabelsDistinct | sentiment_routes.py:101-110 | the ten labels are pairwise different |
| Temperature.BucketMonotone | sentiment_routes.py:101-110 | a higher temperature never gets a colder label |
| Temperature.CommentBoundaries | sentiment_routes.py:97-110 | 10 and 11 get different labels, 90 and 91 too; an unconvertible input behaves like 0 |
| Temperature.TruncDiv | sentiment_routes.py:118-121 | `int(x / d)` rounds toward zero |
| Temperature.ColorOf | sentiment_routes.py:112-123 | green is always 0, red is 0 up to 20, and above 50 the colour is pure red |
| Temperature.TemperatureColor | sentiment_routes.py:124 | the text has the form `rgb(...)` |
| Temperature.TemperatureColorChannels | sentiment_routes.py:117-124 | the colour text is `rgb(r,g,b)` with three comma-free numbers that read back, with `int()`, as the three channels of the colour |
| Temperature.BlueRamp | sentiment_routes.py:117-118 | the first segment has red and green 0; from 0 up to 20 its blue is between 139 and 255 |
| Temperature.BlueToRed | sentiment_routes.py:119-121 | on (20, 50] green is 0, red and blue are within 0..255 and add up to 254 or 255 |
| Temperature.SegmentsMeet | sentiment_routes.py:117-123 | (0,0,139) at 0, (0,0,255) at 20 from both sides, (255,0,0) at 50 from both sides |
| Temperature.ChannelsInRange | sentiment_routes.py:117-123 | from 0 up, every channel is within 0..255; blue is at least 139 up to 20; on (20, 50] red plus blue is 254 or 255 |
| Temperature.ColorMonotone | sentiment_routes.py:117-123 | from 0 up, red never falls as the temperature rises; blue rises up to 20 and falls from 20 on |
| Teams.TeamCells | sentiment_routes.py:140-141 | holds exactly the non-NaN team cells, and nothing when the table has no team column |
| Teams.InfoTeams | sentiment_routes.py:155 | the `/api/teaminfo` catalog has no duplicates and holds exactly the non-NaN team names, blank ones included |
| Teams.FallbackNamed | sentiment_routes.py:143 | the ten fallback teams are distinct and non-blank |
| Teams.NonBlank | sentiment_routes.py:141 | keeps exactly the names whose `strip()` is non-empty, and keeps distinctness |
| Teams.TableTeams | sentiment_routes.py:140-141 | the table's own dropdown names are distinct, non-NaN and non-blank |
| Teams.DropdownTeams | sentiment_routes.py:139-143 | `/api/teams` is never empty, has no duplicates and no blank names; it is exactly the fallback list when the table offers nothing |
| Teams.NonBlankKeepsOrder | sentiment_routes.py:141 | filtering out blank names keeps the relative order |
| Teams.DropdownFirstAppearance | sentiment_routes.py:139-141 | the dropdown lists the table's names in order of first appearance in the team column |
| Teams.DropdownRowOrder | sentiment_routes.py:139-141 | of two dropdown teams, the earlier one is named in some row before any row naming the later one |
| Teams.ResolveTeam | sentiment_routes.py:154-161 | resolution never fails: a non-empty request that is known (or when nothing is known) is kept, else the first catalog team, else the default |
| Teams.FirstCatalogTeam | sentiment_routes.py:155-159 | the first catalog team is the team of the first row that names one, and resolution falls back to it for an unknown or empty request |
| Teams.FirstRowOf | sentiment_routes.py:167 | the first row whose team cell matches |
| Teams.CellInt | sentiment_routes.py:167 | `int()` of a NaN cell fails; a cell holding a numeral, surrounding space aside, reads as its value |
| Teams.PositiveRatio | sentiment_routes.py:164-169 | the temperature is 0 unless both columns exist and the team is in the catalog; otherwise it is the integer in the team's first row |
| Teams.RatioOfKnownTeam | sentiment_routes.py:164-169 | for a team present in the table, the temperature is read from its first row (0 when that cell is not an integer) |
| Teams.DropdownTeamResolvesToItself | sentiment_routes.py:141-157 | every team the dropdown takes from the table resolves to itself |
| Teams.BlankOnlyTableMisroutesFallback | sentiment_routes.py:141-159 | with only a blank team name, the dropdown offers "SSG" but `/api/teaminfo` answers for the blank name |
| Comments.Clamp | sentiment_routes.py:176 | `max(1, min(n, 100))` lies in 1..100 and is the identity there |
| Comments.ClampCount | sentiment_routes.py:172-176 | the count is in 1..100; absent or non-integer gives 10; a too small or too large value gives 1 or 100 |
| Comments.ClampCountIdempotent | sentiment_routes.py:172-176 | passing the clamped count back changes nothing |
| Comments.FirstColumn | sentiment_routes.py:212-213 | the first column that matches the heuristic, or none when none does |
| Comments.ColumnHeuristicsIgnoreCase | sentiment_routes.py:212-213 | both column heuristics ignore letter case: a name qualifies exactly when its lower-cased form does |
| Comments.CellText | sentiment_routes.py:218 | `str()` of a string cell is the string; of a NaN cell it is `"nan"`, which is not blank |
| Comments.TextOf | sentiment_routes.py:218 | the text is blank exactly when the row has no text column or a blank string there; a NaN text cell is never blank |
| Comments.RowComment | sentiment_routes.py:216-220 | a row gives a comment exactly when its text is not blank; a missing text column reads as empty; the text is stripped; the id is the stripped author, or `익명` when the author is absent, NaN or blank |
| Frames.FilterMapAppend | sentiment_routes.py:216-220 | row processing works run by run: the comments of two runs of rows are those of the first followed by those of the second |
| Frames.FilterMapFrom | sentiment_routes.py:216-220 | every emitted comment comes from some row |
| Comments.RowsComments | sentiment_routes.py:216-220 | a file gives at most one comment per row, each well formed |
| Comments.RowsCommentsAt | sentiment_routes.py:216-220 | comments keep row order: a row with non-blank text emits its comment between those of earlier and later rows, a blank row emits nothing |
| Comments.FileComments | sentiment_routes.py:205-220 | a missing or unparsable file, or one without a text column, gives no comments; otherwise the file gives the comments of its rows, with the first id-like and the first text-like column |
| Comments.CommentFiles | sentiment_routes.py:204-205 | two comment files per team |
| Comments.CommentFilesOrder | sentiment_routes.py:204-205 | for a team without `/`, the YouTube file `{team}_유튜브.csv` comes first, then `{team}_댓글.csv`, both under the data directory |
| Comments.AbsoluteTeamCommentFiles | sentiment_routes.py:204-205 | for the team `/tmp/x` the two comment files are `/tmp/x_유튜브.csv` and `/tmp/x_댓글.csv`, whatever the data directory |
| Comments.AllComments | sentiment_routes.py:203-220 | every collected comment is well formed: non-empty stripped text, non-empty id |
| Comments.GatheredBothFiles | sentiment_routes.py:204-220 | reading the files in order gives the YouTube file's comments followed by the comment file's |
| Comments.FilterMapLoop | sentiment_routes.py:216-220 | the row loop computes the row-by-row mapping |
| Comments.ReadFileComments | sentiment_routes.py:205-220 | one pass of the file loop computes that file's comments, including its three `continue` cases |
| Comments.GatherLoop | sentiment_routes.py:203-220 | the loop over the files appends their comments in order |
| Comments.CollectComments | sentiment_routes.py:203-223 | the result is exactly the first `min(count, total)` comments of the concatenation, each well formed |
| Logos.LogoHint | sentiment_routes.py:80-91 | the mapped name is always `{team}.png`, mapped or not |
| Logos.TeamCandidates | sentiment_routes.py:188-192 | two candidates per extension |
| Logos.LogoCandidates | sentiment_routes.py:180-192 | eight candidates |
| Logos.TeamCandidatesAt | sentiment_routes.py:188-192 | for each extension, the static candidate comes before the data candidate |
| Logos.LogoCandidateOrder | sentiment_routes.py:180-192 | the mapped name in static then data, then `.png`, `.jpg`, `.jpeg`, each static then data |
| Logos.FirstExisting | sentiment_routes.py:193-196 | the first existing candidate, or none exactly when no candidate exists |
| Logos.FoundLogo | sentiment_routes.py:193-196 | `_find_logo` gives `None` exactly when no candidate exists, and a found name holds no `/` |
| Logos.FoundLogoIsFirst | sentiment_routes.py:193-195 | the candidate that exists with none existing before it gives the returned basename |
| Logos.FindLogo | sentiment_routes.py:179-196 | building and scanning the candidates returns the basename of the first existing one |
| Logos.LogoPath | sentiment_routes.py:200 | `logo_path` is empty exactly when no non-empty file was found, and otherwise is `/logos/` followed by the file |
| Logos.TeamLogoPath | sentiment_routes.py:198-200 | the logo path is empty or lies under `/logos/` |
| Logos.MappedCandidatesRepeatPng | sentiment_routes.py:182-192 | the two mapped candidates are retried as the two `.png` candidates |
| Logos.FoundJoinedFile | sentiment_routes.py:193-195 | a winning candidate `join(dir, file)` yields `file` |
| Logos.FoundTeamFile | sentiment_routes.py:193-198 | for a team name without `/`, the file found is the team's own name with one of the three extensions |
| Logos.TeamLogoPathFound | sentiment_routes.py:198-200 | for a team without `/`, when a candidate exists, the logo path is `/logos/{team}{ext}` |
| Logos.TeamLogoPathShape | sentiment_routes.py:179-200 | for a team without `/`, the logo path is `""` exactly when no candidate exists, and otherwise `/logos/{team}{ext}` |
| Logos.PngPreferred | sentiment_routes.py:179-200 | for a team without `/`, a `{team}.png` in either directory wins over any `.jpg` or `.jpeg` |
| Logos.SlashNameBasename | sentiment_routes.py:190-195 | the basename of `join(d, "a/b.png")` is `b.png` |
| Logos.SlashTeamLogoPath | sentiment_routes.py:179-200 | for the team `a/b`, an existing `a/b.png` under the static logo directory is served as `/logos/b.png` |
| Routes.TeamDictionariesAgree | sentiment_routes.py:66-91 | the fallback teams, the slogan keys and the logo-mapping keys are the same ten teams, and every slogan is non-empty |
| Routes.Headline | sentiment_routes.py:230 | the headline is the team's slogan, and empty exactly when the team has none |
| Routes.ApiTeams | sentiment_routes.py:136-144 | `/api/teams` answers with the dropdown catalog of the served table and the default team, filling the cache |
| Routes.Reply | sentiment_routes.py:225-233 | the reply carries the given team, temperature, logo path and comments; its colour is `temperature_color` and its comment the bucket label of that temperature; its headline is the team's slogan, empty exactly when the team has none |
| Routes.Sample | sentiment_routes.py:223 | the sample is a prefix of all comments, as long as the count unless the comments run out |
| Routes.TeamInfoOf | sentiment_routes.py:149-233 | the reply is for the resolved team, with that team's ratio as temperature, the colour and label of that temperature, the team's logo path, the clamped sample of its comments, and the team's slogan as headline, empty exactly when it has none |
| Routes.ReplyTeam | sentiment_routes.py:153-169 | the reply names a catalog team whenever the catalog is non-empty; a non-zero temperature only for a catalog team with a ratio column |
| Routes.ReplyComments | sentiment_routes.py:171-223 | at most `count` (so at most 100) well-formed comments, a prefix of the concatenation, fewer only when it runs out |
| Routes.ApiTeamInfo | sentiment_routes.py:149-233 | `/api/teaminfo` through the cache, the logo scan and the comment loops answers `TeamInfoOf` of the served table |
| Routes.DropdownPickIsServed | sentiment_routes.py:139-161 | a team picked from the table's dropdown gets its own reply |
| Routes.CountReplayStable | sentiment_routes.py:172-176 | asking again with the clamped count gives the same comments |
| Routes.AbsoluteTeamLeavesDataDir | sentiment_routes.py:154-161 | with an empty catalog the requested team `/tmp/x` is kept, and its comment files are the absolute names `/tmp/x_유튜브.csv` and `/tmp/x_댓글.csv`, whatever the data directory |

## Left out

- Flask plumbing is not modelled: routing, `jsonify`, `render_template` and the `/logos/<filename>` file server (lines 53-61, 129-131). That server tries the static directory before the data directory, the same order the logo lookup uses.
- `app.py` is not part of this model. It covers app construction, CORS, the health check and `PORT`.
- Environment variables are not read. `DATA_DIR`, `DEFAULT_TEAM` and the route module's directory are fields of `Paths.Settings`.
- Relative paths are compared as written, with no resolution against the working directory.
- `pd.read_csv` is an oracle: the `FileSystem.csv` map. Cell typing is not modelled. Every cell is its `str()` text or NaN, so a float ratio cell such as `63.0` is not an integer to `int()` here, while pandas would give 63.
- PyText.ParseInt: does not accept non-ASCII Unicode digits, which Python's `int()` does.
- PyText.ParseInt: has no digit limit. CPython (3.11 on) refuses to convert a numeral of more than 4300 digits and raises `ValueError`. A 4301-digit `count` then gives 10 at lines 174-175, where `ClampCount` gives 100, and a ratio cell that long gives 0 at line 169, where `CellInt` and `PositiveRatio` give its value.
- PyText.ParseShowInt: holds for every integer here, while CPython's `str(i)` raises for an integer of more than 4300 digits.
- PyText.Lower: lower-cases ASCII letters only; Python lower-cases all of Unicode.
- Temperature.TemperatureColor: exact rational arithmetic stands in for IEEE doubles. For integer temperatures this shows at t = 44, 46 and 48: there `1 - ratio` rounds down in floating point (at 44 it is 0.19999999999999996), so CPython's blue is one lower than the model's (50, 33 and 16 against 51, 34 and 17).
- Temperature.TemperatureColor: has no float overflow. A ratio below about -3·10^307 makes `116 * (t / 20)` at line 118 overflow to minus infinity, or `t / 20` itself raise, and `int()` then raises an uncaught exception, so the request fails; the model returns a colour.
- Temperature.TemperatureComment: takes an integer or an unconvertible value. Float and string inputs to `int()` are not modelled, though the routes only ever pass integers.
- Concurrent requests are not modelled. The model is single-threaded, so races on the module-level cache do not arise.
- A NaN text cell is rendered as `"nan"` and kept as a comment, as line 218 does; pandas' other renderings of non-string cells are not modelled.
- Non-string team names (numbers read by pandas) are not modelled; team names are strings.
