/** The comment sample of `/api/teaminfo`: the clamped `count` parameter,
    the column heuristics, and the collection over the team's two comment
    files. */
module Comments {
  import opened Wrappers
  import opened PyText
  import opened Frames
  import opened Paths

  const DEFAULT_COUNT := 10
  const MAX_COUNT := 100

  /** The id given to a comment whose author is unknown. */
  const ANONYMOUS := "익명"

  /** `max(1, min(n, 100))`. */
  function Clamp(n: int): (c: int)
    ensures 1 <= c <= MAX_COUNT
    ensures 1 <= n <= MAX_COUNT ==> c == n
    ensures n < 1 ==> c == 1
    ensures n > MAX_COUNT ==> c == MAX_COUNT
  {
    if n < 1 then 1 else if n > MAX_COUNT then MAX_COUNT else n
  }

  /** The `count` query parameter: absent or not an integer gives 10, and
      the result is always clamped to 1..100. */
  function ClampCount(arg: Option<string>): (n: int)
    ensures 1 <= n <= MAX_COUNT
    ensures arg.None? ==> n == DEFAULT_COUNT
    ensures arg.Some? && ParseInt(arg.value).None? ==> n == DEFAULT_COUNT
    ensures arg.Some? && ParseInt(arg.value).Some? && 1 <= ParseInt(arg.value).value <= MAX_COUNT ==> n == ParseInt(arg.value).value
    ensures arg.Some? && ParseInt(arg.value).Some? && ParseInt(arg.value).value < 1 ==> n == 1
    ensures arg.Some? && ParseInt(arg.value).Some? && ParseInt(arg.value).value > MAX_COUNT ==> n == MAX_COUNT
  {
    var requested := match arg
      case None => DEFAULT_COUNT
      case Some(s) => ParseInt(s).GetOr(DEFAULT_COUNT);
    Clamp(requested)
  }

  /** Passing an already clamped count back as the parameter changes
      nothing. */
  lemma ClampCountIdempotent(arg: Option<string>)
    ensures ClampCount(Some(ShowInt(ClampCount(arg)))) == ClampCount(arg)
  {
    ParseShowInt(ClampCount(arg));
  }

  /** One entry of the `comments` list. */
  datatype Comment = Comment(id: string, comment: string)

  /** What every emitted comment satisfies: its text is non-empty and
      already stripped, and its id is non-empty. */
  predicate WellFormed(c: Comment) {
    c.comment != [] && !IsSpace(c.comment[0]) && !IsSpace(c.comment[|c.comment| - 1]) && c.id != []
  }

  /** An author column: its lower-cased name contains "id" or "nickname". */
  predicate IdColumn(col: string) {
    Contains(Lower(col), "id") || Contains(Lower(col), "nickname")
  }

  /** A text column: its lower-cased name contains "comment" or "text", or
      its name contains "댓글". */
  predicate TextColumn(col: string) {
    Contains(Lower(col), "comment") || Contains(Lower(col), "text") || Contains(col, "댓글")
  }

  /** Both column heuristics ignore letter case: a name qualifies exactly
      when its lower-cased form does. */
  lemma ColumnHeuristicsIgnoreCase(col: string)
    ensures IdColumn(Lower(col)) == IdColumn(col)
    ensures TextColumn(Lower(col)) == TextColumn(col)
  {
    LowerIdempotent(col);
    ContainsIgnoresLower(col, "댓글");
  }

  /** `next((c for c in cols if p(c)), None)`: the first column that
      matches. */
  function FirstColumn(cols: seq<string>, p: string -> bool): (r: Option<string>)
    ensures r.Some? ==> exists i | 0 <= i < |cols| :: cols[i] == r.value && p(cols[i]) && forall j | 0 <= j < i :: !p(cols[j])
    ensures r.None? ==> forall i | 0 <= i < |cols| :: !p(cols[i])
  {
    if cols == [] then None
    else if p(cols[0]) then Some(cols[0])
    else
      var r := FirstColumn(cols[1..], p);
      assert r.Some? ==> exists i | 0 <= i < |cols| :: cols[i] == r.value && p(cols[i]) && forall j | 0 <= j < i :: !p(cols[j]) by {
        if r.Some? {
          var i :| 0 <= i < |cols[1..]| && cols[1..][i] == r.value && p(cols[1..][i]) && forall j | 0 <= j < i :: !p(cols[1..][j]);
          assert cols[i + 1] == r.value;
          assert forall j | 0 < j < i + 1 :: cols[j] == cols[1..][j - 1];
        }
      }
      r
  }

  /** `str(cell)`: a string cell is its own text, and a NaN cell renders
      as "nan", which is not blank. */
  function CellText(c: Cell): (t: string)
    ensures c.Some? ==> t == c.value
    ensures c.None? ==> t == "nan" && !Blank(t)
  {
    match c
    case None => assert !IsSpace("nan"[0]); "nan"
    case Some(s) => s
  }

  /** `str(r.get(text_col, ""))`: the rendered text cell, or the empty
      string when the row has no such column. The text is blank exactly
      when the column is missing or holds a blank string: a NaN cell is
      never blank. */
  function TextOf(row: Row, textCol: string): (t: string)
    ensures Blank(t) <==> textCol !in row || (row[textCol].Some? && Blank(row[textCol].value))
  {
    if textCol in row then CellText(row[textCol]) else ""
  }

  /** The comment one row contributes, if any: the stripped text when it is
      not blank, with the stripped author, or `익명` when there is no author
      column, the author cell is NaN or it strips to nothing. */
  function RowComment(row: Row, idCol: Option<string>, textCol: string): (r: Option<Comment>)
    ensures r.None? <==> Blank(TextOf(row, textCol))
    ensures r.Some? ==> WellFormed(r.value) && r.value.comment == Strip(TextOf(row, textCol))
    ensures r.Some? && (idCol.None? || At(row, idCol.value).None?) ==> r.value.id == ANONYMOUS
    ensures r.Some? && idCol.Some? && At(row, idCol.value).Some? ==>
      r.value.id == if Blank(At(row, idCol.value).value) then ANONYMOUS else Strip(At(row, idCol.value).value)
  {
    var nick := if idCol.Some? && At(row, idCol.value).Some? then Strip(At(row, idCol.value).value) else ANONYMOUS;
    var text := Strip(TextOf(row, textCol));
    if text != [] then Some(Comment(if nick != [] then nick else ANONYMOUS, text)) else None
  }

  /** `RowComment` for fixed author and text columns, as a function of the
      row. */
  function PerRow(idCol: Option<string>, textCol: string): Row -> Option<Comment> {
    row => RowComment(row, idCol, textCol)
  }

  /** The comments of a run of rows, in row order: one per row whose text is
      not blank. */
  function RowsComments(rows: seq<Row>, idCol: Option<string>, textCol: string): (cs: seq<Comment>)
    ensures |cs| <= |rows|
    ensures forall k | 0 <= k < |cs| :: WellFormed(cs[k])
  {
    var f := PerRow(idCol, textCol);
    var cs := FilterMap(rows, f);
    forall k | 0 <= k < |cs| ensures WellFormed(cs[k]) {
      FilterMapFrom(rows, f, k);
    }
    cs
  }

  /** Each row contributes at its own place: a row with non-blank text emits
      its comment between those of the rows before it and those of the rows
      after it, and a blank row emits nothing. */
  lemma RowsCommentsAt(rows: seq<Row>, idCol: Option<string>, textCol: string, i: int)
    requires 0 <= i < |rows|
    ensures RowsComments(rows, idCol, textCol) ==
      RowsComments(rows[..i], idCol, textCol)
      + (if Blank(TextOf(rows[i], textCol)) then [] else [RowComment(rows[i], idCol, textCol).value])
      + RowsComments(rows[i + 1..], idCol, textCol)
  {
    FilterMapAt(rows, PerRow(idCol, textCol), i);
  }

  /** The comments one file contributes: none when it is missing, does not
      parse or has no text column; otherwise those of its rows, in order. */
  function FileComments(fs: FileSystem, path: string): (cs: seq<Comment>)
    ensures forall k | 0 <= k < |cs| :: WellFormed(cs[k])
    ensures !Exists(fs, path) || ReadCsv(fs, path).None? ==> cs == []
    ensures ReadCsv(fs, path).Some? && FirstColumn(ReadCsv(fs, path).value.columns, TextColumn).None? ==> cs == []
    ensures Exists(fs, path) && ReadCsv(fs, path).Some? && FirstColumn(ReadCsv(fs, path).value.columns, TextColumn).Some? ==>
      var cdf := ReadCsv(fs, path).value;
      cs == RowsComments(cdf.rows, FirstColumn(cdf.columns, IdColumn), FirstColumn(cdf.columns, TextColumn).value)
  {
    if !Exists(fs, path) then []
    else match ReadCsv(fs, path)
      case None => []
      case Some(cdf) =>
        match FirstColumn(cdf.columns, TextColumn)
        case None => []
        case Some(textCol) => RowsComments(cdf.rows, FirstColumn(cdf.columns, IdColumn), textCol)
  }

  /** The team's two comment files, in the order they are read: the YouTube
      file, then the comment file. */
  function CommentFiles(dataDir: string, team: string): (ps: seq<string>)
    ensures |ps| == 2
  {
    [Join(dataDir, team + "_유튜브.csv"), Join(dataDir, team + "_댓글.csv")]
  }

  /** The two files are the team's YouTube file and then its comment file,
      both under the data directory. */
  lemma CommentFilesOrder(dataDir: string, team: string)
    requires '/' !in team
    ensures Basename(CommentFiles(dataDir, team)[0]) == team + "_유튜브.csv"
    ensures Basename(CommentFiles(dataDir, team)[1]) == team + "_댓글.csv"
    ensures dataDir <= CommentFiles(dataDir, team)[0] && dataDir <= CommentFiles(dataDir, team)[1]
  {
    var youtube, board := team + "_유튜브.csv", team + "_댓글.csv";
    assert '/' !in youtube && '/' !in board by {
      assert forall k | 0 <= k < |team| :: youtube[k] == team[k] && board[k] == team[k];
    }
    JoinFileName(dataDir, youtube);
    JoinFileName(dataDir, board);
  }

  /** `os.path.join` keeps an absolute name: for the team `/tmp/x` both
      comment files lie under `/tmp`, whatever the data directory. */
  lemma AbsoluteTeamCommentFiles(dataDir: string)
    ensures CommentFiles(dataDir, "/tmp/x") == ["/tmp/x_유튜브.csv", "/tmp/x_댓글.csv"]
  {
    var team := "/tmp/x";
    var youtube, board := team + "_유튜브.csv", team + "_댓글.csv";
    assert youtube[0] == '/' && board[0] == '/';
    assert youtube == "/tmp/x_유튜브.csv" && board == "/tmp/x_댓글.csv";
    assert Join(dataDir, youtube) == youtube && Join(dataDir, board) == board;
  }

  /** The comments of several files, file after file. */
  function Gathered(fs: FileSystem, paths: seq<string>): seq<Comment> {
    if paths == [] then []
    else Gathered(fs, paths[..|paths| - 1]) + FileComments(fs, paths[|paths| - 1])
  }

  /** Every qualifying comment of the team, before truncation: the first
      file's, then the second's. The two sources are concatenated, not
      interleaved. */
  function AllComments(fs: FileSystem, dataDir: string, team: string): (cs: seq<Comment>)
    ensures forall k | 0 <= k < |cs| :: WellFormed(cs[k])
  {
    var files := CommentFiles(dataDir, team);
    FileComments(fs, files[0]) + FileComments(fs, files[1])
  }

  lemma GatheredBothFiles(fs: FileSystem, dataDir: string, team: string)
    ensures Gathered(fs, CommentFiles(dataDir, team)) == AllComments(fs, dataDir, team)
  {
    var files := CommentFiles(dataDir, team);
    assert files[..1][..0] == [];
    assert Gathered(fs, files[..1]) == FileComments(fs, files[0]);
  }

  /** `FilterMap` computed by a loop over `xs`, appending each present
      result in turn. */
  method FilterMapLoop<T, U>(xs: seq<T>, f: T -> Option<U>) returns (ys: seq<U>)
    ensures ys == FilterMap(xs, f)
  {
    ys := [];
    for i := 0 to |xs|
      invariant ys == FilterMap(xs[..i], f)
    {
      var y := f(xs[i]);
      if y.Some? {
        ys := ys + [y.value];
      }
      assert xs[..i + 1][..i] == xs[..i];
    }
    assert xs[..|xs|] == xs;
  }

  /** One pass of the collection loop: a missing file, one that does not
      parse and one without a text column contribute nothing; otherwise
      every row is visited in order. */
  method ReadFileComments(fs: FileSystem, path: string) returns (found: seq<Comment>)
    ensures found == FileComments(fs, path)
  {
    found := [];
    if !Exists(fs, path) {
      return;
    }
    var parsed := ReadCsv(fs, path);
    if parsed.None? {
      return;
    }
    var cdf := parsed.value;
    var idCol := FirstColumn(cdf.columns, IdColumn);
    var textCol := FirstColumn(cdf.columns, TextColumn);
    if textCol.None? {
      return;
    }
    found := FilterMapLoop(cdf.rows, PerRow(idCol, textCol.value));
  }

  /** The loop over the comment files: each file's comments are appended
      in turn. */
  method GatherLoop(fs: FileSystem, files: seq<string>) returns (comments: seq<Comment>)
    ensures comments == Gathered(fs, files)
  {
    comments := [];
    for f := 0 to |files|
      invariant comments == Gathered(fs, files[..f])
    {
      var path := files[f];
      assert files[..f + 1][..f] == files[..f];
      var found := ReadFileComments(fs, path);
      comments := comments + found;
    }
    assert files[..|files|] == files;
  }

  /** The comment collection of `/api/teaminfo`: reads both files in order,
      keeps each row with non-blank text, then returns the first `limit`
      comments. */
  method CollectComments(fs: FileSystem, dataDir: string, team: string, limit: nat) returns (cs: seq<Comment>)
    ensures |cs| == if limit < |AllComments(fs, dataDir, team)| then limit else |AllComments(fs, dataDir, team)|
    ensures forall k | 0 <= k < |cs| :: cs[k] == AllComments(fs, dataDir, team)[k]
    ensures forall k | 0 <= k < |cs| :: WellFormed(cs[k])
  {
    var comments := GatherLoop(fs, CommentFiles(dataDir, team));
    GatheredBothFiles(fs, dataDir, team);
    var n := if limit < |comments| then limit else |comments|;
    cs := comments[..n];
  }
}
