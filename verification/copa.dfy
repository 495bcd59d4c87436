/** The world-cup data script: it reads the matches CSV row by row, groups
    consecutive rows of the same year into one cup, and writes a cup to a
    JSON file. The in-loop write is commented out in the script, so only the
    cup in hand when the stream ends is written. The CSV stream, the file
    system and `parseInt` are not modelled: rows arrive as a sequence, the
    write is returned, and scores stay the strings the CSV holds. */
module Copa {
  import opened Search

  /** The CSV columns the script reads. */
  datatype Row = Row(
    matchDate: string,
    stageName: string,
    groupName: string,
    homeTeamName: string,
    awayTeamName: string,
    homeTeamScore: string,
    awayTeamScore: string)

  datatype Match = Match(date: string, stage: string, team1: string, team2: string, score1: string, score2: string)

  datatype Cup = Cup(year: string, matches: seq<Match>)

  /** A JSON file written by `writeFile`. */
  datatype File = File(path: string, cup: Cup)

  const GroupStage := "group stage"

  /** `toUpperCase` on one character, for the ASCII letters. */
  function ToUpper(c: char): (u: char)
    ensures 'a' <= c <= 'z' ==> 'A' <= u <= 'Z' && u as int == c as int - 32
    ensures !('a' <= u <= 'z')
    ensures !('a' <= c <= 'z') ==> u == c
  {
    if 'a' <= c <= 'z' then (c as int - 32) as char else c
  }

  function Capitalize(s: string): (r: string)
    ensures |r| == |s|
    ensures |s| > 0 ==> r[0] == ToUpper(s[0]) && r[1..] == s[1..]
    ensures |s| > 0 ==> !('a' <= r[0] <= 'z')
  {
    if |s| == 0 then "" else [ToUpper(s[0])] + s[1..]
  }

  lemma CapitalizeIdempotent(s: string)
    ensures Capitalize(Capitalize(s)) == Capitalize(s)
  {
  }

  /** The `stage` field: the group for group-stage matches, the stage name
      with its first letter upper-cased for the others. */
  function StageLabel(row: Row): (r: string)
    ensures row.stageName == GroupStage ==> r == row.groupName
    ensures row.stageName != GroupStage ==>
      && |r| == |row.stageName|
      && (|r| > 0 ==> r[0] == ToUpper(row.stageName[0]) && r[1..] == row.stageName[1..])
  {
    if row.stageName == GroupStage then row.groupName else Capitalize(row.stageName)
  }

  /** `date.substring(0, 4)`: the first four characters, or the whole date
      when it is shorter. */
  function Year(date: string): (y: string)
  {
    if |date| < 4 then date else date[..4]
  }

  lemma YearIsPrefix(date: string)
    ensures |Year(date)| == if |date| < 4 then |date| else 4
    ensures Year(date) <= date
  {
  }

  function ToMatch(row: Row): (m: Match)
  {
    Match(row.matchDate, StageLabel(row), row.homeTeamName, row.awayTeamName,
          row.homeTeamScore, row.awayTeamScore)
  }

  function Matches(rows: seq<Row>): (ms: seq<Match>)
    ensures |ms| == |rows|
    ensures forall i :: 0 <= i < |rows| ==> ms[i] == ToMatch(rows[i])
  {
    if |rows| == 0 then []
    else Matches(rows[..|rows| - 1]) + [ToMatch(rows[|rows| - 1])]
  }

  /** The cup in hand before the first row. */
  const InitialCup := Cup("", [])

  /** The `data` handler: a row of another year starts a new cup; either
      way the row's match goes at the end of the cup in hand. */
  function Step(cup: Cup, row: Row): (r: Cup)
    ensures r.year == RowYear(row)
    ensures cup.year == RowYear(row) ==> r.matches == cup.matches + [ToMatch(row)]
    ensures cup.year != RowYear(row) ==> r.matches == [ToMatch(row)]
  {
    var year := Year(row.matchDate);
    var current := if year != cup.year then Cup(year, []) else cup;
    current.(matches := current.matches + [ToMatch(row)])
  }

  /** The cup in hand after the rows have been read. */
  function Fold(rows: seq<Row>): (cup: Cup)
  {
    if |rows| == 0 then InitialCup
    else Step(Fold(rows[..|rows| - 1]), rows[|rows| - 1])
  }

  function RowYear(row: Row): (y: string)
  {
    Year(row.matchDate)
  }

  /** Where the last run of rows sharing the last row's year begins. */
  function LastRunStart(rows: seq<Row>): (k: nat)
    requires |rows| > 0
    ensures k < |rows|
    ensures forall j :: k <= j < |rows| ==> RowYear(rows[j]) == RowYear(rows[|rows| - 1])
    ensures k > 0 ==> RowYear(rows[k - 1]) != RowYear(rows[|rows| - 1])
  {
    var n := |rows|;
    if n == 1 then 0
    else if RowYear(rows[n - 2]) == RowYear(rows[n - 1]) then LastRunStart(rows[..n - 1])
    else n - 1
  }

  /** The suffix from the last row holds that row alone, and its one match. */
  lemma LastRow(rows: seq<Row>)
    requires |rows| > 0
    ensures Matches(rows[|rows| - 1..]) == [ToMatch(rows[|rows| - 1])]
  {
    var row := rows[|rows| - 1];
    assert rows[|rows| - 1..] == [row];
    assert [row][..0] == [];
  }

  lemma SuffixOfSnoc<T>(s: seq<T>, k: nat)
    requires k < |s|
    ensures s[k..] == s[..|s| - 1][k..] + [s[|s| - 1]]
  {
  }

  /** A cup that already holds a run of the row's year grows by the row's
      match. */
  lemma {:induction false} StepExtendsRun(rows: seq<Row>, k: nat)
    requires k < |rows| - 1
    requires Fold(rows[..|rows| - 1]) == Cup(RowYear(rows[|rows| - 1]), Matches(rows[..|rows| - 1][k..]))
    ensures Fold(rows) == Cup(RowYear(rows[|rows| - 1]), Matches(rows[k..]))
  {
    var row := rows[|rows| - 1];
    var prefix := rows[..|rows| - 1];
    SuffixOfSnoc(rows, k);
    var tail := rows[k..];
    assert tail[..|tail| - 1] == prefix[k..];
    assert Matches(tail) == Matches(prefix[k..]) + [ToMatch(row)];
    assert Fold(rows) == Step(Fold(prefix), row);
  }

  lemma StepNewYear(cup: Cup, row: Row)
    requires cup.year != RowYear(row)
    ensures Step(cup, row) == Cup(RowYear(row), [ToMatch(row)])
  {
    assert [] + [ToMatch(row)] == [ToMatch(row)];
  }

  /** A row of another year starts a cup holding only its match. */
  lemma StepStartsRun(rows: seq<Row>)
    requires |rows| > 0
    requires Fold(rows[..|rows| - 1]).year != RowYear(rows[|rows| - 1])
    ensures Fold(rows) == Cup(RowYear(rows[|rows| - 1]), Matches(rows[|rows| - 1..]))
  {
    LastRow(rows);
    StepNewYear(Fold(rows[..|rows| - 1]), rows[|rows| - 1]);
  }

  /** After the rows, the cup in hand holds exactly the last run of rows of
      one year, in row order; everything before it has been dropped. */
  lemma {:induction false} FoldKeepsLastRun(rows: seq<Row>)
    requires |rows| > 0
    ensures Fold(rows) == Cup(RowYear(rows[|rows| - 1]), Matches(rows[LastRunStart(rows)..]))
  {
    var n := |rows|;
    var last := rows[n - 1];
    var prefix := rows[..n - 1];
    if n == 1 {
      LastRow(rows);
      assert Fold(rows) == Step(InitialCup, last);
      assert Step(InitialCup, last) == Cup(RowYear(last), [ToMatch(last)]);
    } else {
      FoldKeepsLastRun(prefix);
      assert prefix[|prefix| - 1] == rows[n - 2];
      if RowYear(rows[n - 2]) == RowYear(last) {
        StepExtendsRun(rows, LastRunStart(prefix));
      } else {
        StepStartsRun(rows);
      }
    }
  }

  function CupPath(year: string): (path: string)
  {
    "./dados/api/worldcup/" + year + ".json"
  }

  /** `writeFile`: a cup without matches is not written. */
  function WriteFile(cup: Cup): (f: Option<File>)
    ensures f.None? <==> |cup.matches| == 0
    ensures f.Some? ==> f.value == File(CupPath(cup.year), cup)
  {
    if |cup.matches| > 0 then Some(File(CupPath(cup.year), cup)) else None
  }

  /** The `end` handler: the only write the script performs. A file is
      written exactly when there was a row, and it is named after the year
      of the cup it holds. */
  function Export(rows: seq<Row>): (f: Option<File>)
    ensures f.None? <==> |rows| == 0
    ensures f.Some? ==> f.value.path == CupPath(f.value.cup.year) && |f.value.cup.matches| > 0
  {
    WriteFile(Fold(rows))
  }

  /** An empty CSV writes nothing; otherwise exactly one file is written,
      holding the last year's run of matches. */
  lemma {:induction false} ExportWritesLastCupOnly(rows: seq<Row>)
    ensures Export(rows).None? <==> |rows| == 0
    ensures |rows| > 0 ==>
      var year := RowYear(rows[|rows| - 1]);
      Export(rows) == Some(File(CupPath(year), Cup(year, Matches(rows[LastRunStart(rows)..]))))
  {
    if |rows| > 0 {
      FoldKeepsLastRun(rows);
    }
  }
}
