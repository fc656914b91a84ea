/** The league-table branch of `scrape_games`: one `Standing` per table row
    that carries a numeric rank. */
module Standings {
  import opened Wrappers
  import opened Text
  import opened TeamMatch

  /** One league-table entry, with the field names of the scraper's dict. */
  datatype Standing = Standing(
    rang: string, mannschaft: string, spiele: string,
    s: string, u: string, n: string,
    tore: string, diff: string, punkte: string,
    isOwn: bool)

  /** The sentinel for the goal columns the short format lacks. */
  const Missing := "-"

  /** The long format has goal columns; it is detected on the lower-cased
      header text. */
  predicate IsLongFormat(headerText: string)
  {
    Contains(headerText, "tore") || Contains(headerText, "diff")
  }

  /** The column the rank is read from: cell 1 when cell 0 is not numeric
      but cell 1 is (a trend icon in front of the rank), else cell 0. */
  function RankColumn(cols: seq<string>): (c: nat)
    requires |cols| >= 2
    ensures c <= 1
    ensures c == 1 <==> !IsDigits(cols[0]) && IsDigits(cols[1])
  {
    if !IsDigits(cols[0]) && IsDigits(cols[1]) then 1 else 0
  }

  /** Of the two cells after the rank, the name is the second one only when
      it is longer than the first and longer than three characters. */
  function TeamName(textA: string, textB: string): (name: string)
    ensures name == textA || name == textB
    ensures name == textB <==> (|textB| > |textA| && |textB| > 3) || textA == textB
  {
    if |textB| > |textA| && |textB| > 3 then textB else textA
  }

  /** One row of the league table, or `None` when the row is skipped: fewer
      than six cells, no numeric rank in cell 0 or cell 1, or (long format)
      fewer than seven cells, where reading `cols[-7]` raises. */
  function StandingRow(cols: seq<string>, isLong: bool, f: TeamFilter): (r: Option<Standing>)
    ensures r.Some? <==> |cols| >= 6 && (IsDigits(cols[0]) || IsDigits(cols[1])) && (isLong ==> |cols| >= 7)
  {
    if |cols| < 6 then None
    else
      var rankCol := RankColumn(cols);
      var rang := cols[rankCol];
      if !IsDigits(rang) then None
      else if isLong && |cols| < 7 then None
      else
        var mannschaft := TeamName(cols[rankCol + 1], cols[rankCol + 2]);
        var last := |cols| - 1;
        if isLong then
          Some(Standing(rang, mannschaft, cols[last - 6], cols[last - 5], cols[last - 4],
                        cols[last - 3], cols[last - 2], cols[last - 1], cols[last],
                        TeamMatches(mannschaft, f)))
        else
          Some(Standing(rang, mannschaft, cols[last - 4], cols[last - 3], cols[last - 2],
                        cols[last - 1], Missing, Missing, cols[last],
                        TeamMatches(mannschaft, f)))
  }

  /** What an emitted row holds: a digit-only rank from cell 0, or from
      cell 1 when cell 0 is not numeric; the name from the next two cells;
      the counts read backwards from the end of the row; and the club flag
      from the matching rule. */
  lemma StandingRowFields(cols: seq<string>, isLong: bool, f: TeamFilter, e: Standing)
    requires StandingRow(cols, isLong, f) == Some(e)
    ensures IsDigits(e.rang)
    ensures e.rang == if IsDigits(cols[0]) then cols[0] else cols[1]
    ensures var c := if IsDigits(cols[0]) then 0 else 1;
            e.mannschaft == TeamName(cols[c + 1], cols[c + 2])
    ensures var L := |cols|;
            && e.punkte == cols[L - 1]
            && (isLong ==> e.diff == cols[L - 2] && e.tore == cols[L - 3] && e.n == cols[L - 4]
                           && e.u == cols[L - 5] && e.s == cols[L - 6] && e.spiele == cols[L - 7])
            && (!isLong ==> e.n == cols[L - 2] && e.u == cols[L - 3] && e.s == cols[L - 4]
                            && e.spiele == cols[L - 5] && e.diff == Missing && e.tore == Missing)
    ensures e.isOwn == TeamMatches(e.mannschaft, f)
  {
  }

  /** A header or footer row, whose first two cells are not numeric, is
      never emitted. */
  lemma NonNumericRowSkipped(cols: seq<string>, isLong: bool, f: TeamFilter)
    requires |cols| >= 2 && !IsDigits(cols[0]) && !IsDigits(cols[1])
    ensures StandingRow(cols, isLong, f) == None
  {
  }

  /** What each row of the table yields. */
  function StandingResults(rows: seq<seq<string>>, isLong: bool, f: TeamFilter): (rs: seq<Option<Standing>>)
    ensures |rs| == |rows|
    ensures forall i :: 0 <= i < |rows| ==> rs[i] == StandingRow(rows[i], isLong, f)
  {
    seq(|rows|, i requires 0 <= i < |rows| => StandingRow(rows[i], isLong, f))
  }

  /** The league table of one table: the entries of its emitted rows, in
      row order. */
  function TableStandings(rows: seq<seq<string>>, isLong: bool, f: TeamFilter): seq<Standing>
  {
    Emitted(StandingResults(rows, isLong, f))
  }

  /** Every entry comes from some row, every emitted row contributes its
      entry, and there are at most as many entries as rows. */
  lemma StandingsFromRows(rows: seq<seq<string>>, isLong: bool, f: TeamFilter)
    ensures |TableStandings(rows, isLong, f)| <= |rows|
    ensures forall e :: e in TableStandings(rows, isLong, f) <==>
              exists i :: 0 <= i < |rows| && StandingRow(rows[i], isLong, f) == Some(e)
  {
    var rs := StandingResults(rows, isLong, f);
    EmittedMembers(rs);
    forall e ensures Some(e) in rs <==> exists i :: 0 <= i < |rows| && StandingRow(rows[i], isLong, f) == Some(e) {
      if Some(e) in rs {
        var i :| 0 <= i < |rs| && rs[i] == Some(e);
      }
    }
  }

  /** Every rank in a scraped league table is a non-empty digit string. */
  lemma RanksAreNumeric(rows: seq<seq<string>>, isLong: bool, f: TeamFilter)
    ensures forall e :: e in TableStandings(rows, isLong, f) ==> IsDigits(e.rang)
  {
    StandingsFromRows(rows, isLong, f);
    forall e | e in TableStandings(rows, isLong, f) ensures IsDigits(e.rang) {
      var i :| 0 <= i < |rows| && StandingRow(rows[i], isLong, f) == Some(e);
      StandingRowFields(rows[i], isLong, f, e);
    }
  }

  /** The body of the row loop for one row: `None` where the loop
      `continue`s or the `try` block raises. */
  method ReadStanding(cols: seq<string>, isLong: bool, f: TeamFilter) returns (entry: Option<Standing>)
    ensures entry == StandingRow(cols, isLong, f)
  {
    if |cols| < 6 { return None; }
    var rang := cols[0];
    var colOffset := 0;
    if !IsDigits(rang) {
      if |cols| > 1 && IsDigits(cols[1]) {
        rang := cols[1];
        colOffset := 1;
      }
    }
    if !IsDigits(rang) { return None; }
    if isLong && |cols| < 7 { return None; }
    var possibleTeamCol := colOffset + 1;
    var mannschaft := TeamName(cols[possibleTeamCol], cols[possibleTeamCol + 1]);
    var last := |cols| - 1;
    var spiele, s, u, n, tore, diff, punkte;
    if isLong {
      punkte, diff, tore := cols[last], cols[last - 1], cols[last - 2];
      n, u, s, spiele := cols[last - 3], cols[last - 4], cols[last - 5], cols[last - 6];
    } else {
      punkte, n, u, s, spiele := cols[last], cols[last - 1], cols[last - 2], cols[last - 3], cols[last - 4];
      diff, tore := Missing, Missing;
    }
    var isOwn := CheckTeamMatch(mannschaft, f);
    return Some(Standing(rang, mannschaft, spiele, s, u, n, tore, diff, punkte, isOwn));
  }

  /** The row loop of the league-table branch, appending one entry per
      emitted row. */
  method ScanStandingsTable(rows: seq<seq<string>>, isLong: bool, f: TeamFilter) returns (leagueTable: seq<Standing>)
    ensures leagueTable == TableStandings(rows, isLong, f)
  {
    ghost var results := StandingResults(rows, isLong, f);
    leagueTable := [];
    for i := 0 to |rows|
      invariant leagueTable == Emitted(results[..i])
    {
      EmittedSnoc(results, i);
      var entry := ReadStanding(rows[i], isLong, f);
      match entry {
        case Some(e) => leagueTable := leagueTable + [e];
        case None =>
      }
    }
    assert results[..|rows|] == results;
  }
}
