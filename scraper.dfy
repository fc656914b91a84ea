/** `scrape_games` over one fetched page: each `result-set` table is routed
    by its header text to the league-table branch or to the schedule
    branch, and the two result lists are collected across the tables. */
module Scraper {
  import opened Wrappers
  import opened Text
  import opened TeamMatch
  import opened Standings
  import opened Fixtures

  /** A `result-set` table: the stripped texts of its `<th>` cells and its
      rows. */
  datatype Table = Table(headers: seq<string>, rows: seq<Row>)

  /** The lower-cased header texts joined without separator. */
  function HeaderText(headers: seq<string>): (t: string)
    ensures |t| == |Concat(headers)|
  {
    Lower(Concat(headers))
  }

  /** Lower-casing the joined headers is joining the lower-cased headers,
      which is what the scraper does. */
  lemma {:induction false} HeaderTextIsJoinOfLower(headers: seq<string>)
    ensures HeaderText(headers) == Concat(seq(|headers|, i requires 0 <= i < |headers| => Lower(headers[i])))
    decreases |headers|
  {
    var lows := seq(|headers|, i requires 0 <= i < |headers| => Lower(headers[i]));
    if headers != [] {
      var init := headers[..|headers| - 1];
      HeaderTextIsJoinOfLower(init);
      assert lows[..|lows| - 1] == seq(|init|, i requires 0 <= i < |init| => Lower(init[i]));
      LowerAppend(Concat(init), headers[|headers| - 1]);
    }
  }

  lemma LowerAppend(a: string, b: string)
    ensures Lower(a + b) == Lower(a) + Lower(b)
  {
  }

  /** A league table is recognised by "rang" and "punkte" in its header
      text; every other table is read as a schedule. */
  predicate IsStandingsTable(t: Table)
  {
    var h := HeaderText(t.headers);
    Contains(h, "rang") && Contains(h, "punkte")
  }

  /** The header cells lower-cased one by one. */
  function LowerAll(headers: seq<string>): (ls: seq<string>)
    ensures |ls| == |headers|
  {
    seq(|headers|, i requires 0 <= i < |headers| => Lower(headers[i]))
  }

  /** The routing and the format test ignore the letter case of the
      headers: a table with lower-cased headers gives the same results. */
  lemma RoutingIgnoresCase(t: Table, f: TeamFilter)
    ensures var u := Table(LowerAll(t.headers), t.rows);
            && HeaderText(u.headers) == HeaderText(t.headers)
            && (IsStandingsTable(u) <==> IsStandingsTable(t))
            && StandingsOf(u, f) == StandingsOf(t, f)
            && GamesOf(u, f) == GamesOf(t, f)
  {
    HeaderTextIsJoinOfLower(t.headers);
    LowerIdempotent(Concat(t.headers));
  }

  lemma LeagueHeaderLower()
    ensures LowerAll(["Rang", "Mannschaft", "Tore", "Punkte"]) == ["rang", "mannschaft", "tore", "punkte"]
  {
    assert Lower("Rang") == "rang";
    assert Lower("Mannschaft") == "mannschaft";
    assert Lower("Tore") == "tore";
    assert Lower("Punkte") == "punkte";
  }

  lemma LeagueHeaderConcat()
    ensures Concat(["rang", "mannschaft", "tore", "punkte"]) == "rang" + "mannschaft" + "tore" + "punkte"
  {
    var ls := ["rang", "mannschaft", "tore", "punkte"];
    assert ls[..0] == [];
    ConcatSnoc(ls, 0); ConcatSnoc(ls, 1); ConcatSnoc(ls, 2); ConcatSnoc(ls, 3);
    assert ls[..4] == ls;
  }

  lemma LeagueHeaderText()
    ensures HeaderText(["Rang", "Mannschaft", "Tore", "Punkte"]) == "rang" + "mannschaft" + "tore" + "punkte"
  {
    HeaderTextIsJoinOfLower(["Rang", "Mannschaft", "Tore", "Punkte"]);
    LeagueHeaderLower();
    LeagueHeaderConcat();
  }

  /** A header row with "Rang" and "Punkte" makes a league table, in the
      long format when it has "Tore". */
  lemma LeagueHeaderRouted()
    ensures var t := Table(["Rang", "Mannschaft", "Tore", "Punkte"], []);
            IsStandingsTable(t) && IsLongFormat(HeaderText(t.headers))
  {
    LeagueHeaderText();
    var h := HeaderText(["Rang", "Mannschaft", "Tore", "Punkte"]);
    assert h[..4] == "rang";
    assert h[14..18] == "tore";
    assert h[18..] == "punkte";
    assert OccursAt(h, "rang", 0) && OccursAt(h, "tore", 14) && OccursAt(h, "punkte", 18);
  }

  /** The cell texts of the rows, as the league-table branch reads them. */
  function RowCells(rows: seq<Row>): (cs: seq<seq<string>>)
    ensures |cs| == |rows|
    ensures forall i :: 0 <= i < |rows| ==> cs[i] == rows[i].cells
  {
    seq(|rows|, i requires 0 <= i < |rows| => rows[i].cells)
  }

  /** What one table contributes to the league table. */
  function StandingsOf(t: Table, f: TeamFilter): seq<Standing>
  {
    if IsStandingsTable(t) then TableStandings(RowCells(t.rows), IsLongFormat(HeaderText(t.headers)), f)
    else []
  }

  /** What one table contributes to the games. */
  function GamesOf(t: Table, f: TeamFilter): seq<Game>
  {
    if IsStandingsTable(t) then [] else TableGames(t.rows, f)
  }

  /** One table's league-table entries, as a function of the table. */
  function StandingsOfEach(f: TeamFilter): Table -> seq<Standing>
  {
    t => StandingsOf(t, f)
  }

  function StandingsParts(tables: seq<Table>, f: TeamFilter): (ps: seq<seq<Standing>>)
    ensures |ps| == |tables|
    ensures forall i :: 0 <= i < |tables| ==> ps[i] == StandingsOf(tables[i], f)
  {
    MapParts(StandingsOfEach(f), tables)
  }

  /** One table's games, as a function of the table. */
  function GamesOfEach(f: TeamFilter): Table -> seq<Game>
  {
    t => GamesOf(t, f)
  }

  function GamesParts(tables: seq<Table>, f: TeamFilter): (ps: seq<seq<Game>>)
    ensures |ps| == |tables|
    ensures forall i :: 0 <= i < |tables| ==> ps[i] == GamesOf(tables[i], f)
  {
    MapParts(GamesOfEach(f), tables)
  }

  /** The games of a page: those of its schedule tables, table by table. */
  function PageGames(tables: seq<Table>, f: TeamFilter): seq<Game>
  {
    Concat(GamesParts(tables, f))
  }

  /** The league table of a page: the entries of its league tables. */
  function PageStandings(tables: seq<Table>, f: TeamFilter): seq<Standing>
  {
    Concat(StandingsParts(tables, f))
  }

  /** The loop over the tables of a fetched page; `None` stands for a fetch
      that failed or did not answer with status 200, which yields two empty
      lists. */
  method ScrapeGames(page: Option<seq<Table>>, f: TeamFilter) returns (games: seq<Game>, leagueTable: seq<Standing>)
    ensures page.None? ==> games == [] && leagueTable == []
    ensures page.Some? ==> games == PageGames(page.value, f) && leagueTable == PageStandings(page.value, f)
  {
    games, leagueTable := [], [];
    if page.None? { return; }
    var tables := page.value;
    ghost var gameParts := GamesParts(tables, f);
    ghost var standingParts := StandingsParts(tables, f);
    for k := 0 to |tables|
      invariant games == Concat(gameParts[..k])
      invariant leagueTable == Concat(standingParts[..k])
    {
      ConcatSnoc(gameParts, k);
      ConcatSnoc(standingParts, k);
      var table := tables[k];
      var headerText := HeaderText(table.headers);
      if Contains(headerText, "rang") && Contains(headerText, "punkte") {
        var isLongFormat := IsLongFormat(headerText);
        var entries := ScanStandingsTable(RowCells(table.rows), isLongFormat, f);
        leagueTable := leagueTable + entries;
        continue;
      }
      var tableGames := ScanFixtureTable(table.rows, f);
      games := games + tableGames;
    }
    assert gameParts[..|tables|] == gameParts;
    assert standingParts[..|tables|] == standingParts;
  }

  /** Every league-table entry comes from a table recognised as a league
      table, and every game from a table that is not one. */
  lemma ResultsRoutedByHeader(tables: seq<Table>, f: TeamFilter)
    ensures forall e :: e in PageStandings(tables, f) ==>
              exists i :: 0 <= i < |tables| && IsStandingsTable(tables[i])
                          && e in TableStandings(RowCells(tables[i].rows), IsLongFormat(HeaderText(tables[i].headers)), f)
    ensures forall g :: g in PageGames(tables, f) ==>
              exists i :: 0 <= i < |tables| && !IsStandingsTable(tables[i]) && g in TableGames(tables[i].rows, f)
  {
    ConcatMembers(StandingsParts(tables, f));
    ConcatMembers(GamesParts(tables, f));
  }

  /** A page without a league table has an empty league table. */
  lemma NoStandingsTableNoStandings(tables: seq<Table>, f: TeamFilter)
    requires forall i :: 0 <= i < |tables| ==> !IsStandingsTable(tables[i])
    ensures PageStandings(tables, f) == []
  {
    ConcatOfEmpties(StandingsParts(tables, f));
  }

  /** Every rank of a page's league table is a non-empty digit string. */
  lemma PageRanksAreNumeric(tables: seq<Table>, f: TeamFilter)
    ensures forall e :: e in PageStandings(tables, f) ==> IsDigits(e.rang)
  {
    ResultsRoutedByHeader(tables, f);
    forall e | e in PageStandings(tables, f) ensures IsDigits(e.rang) {
      var i :| 0 <= i < |tables| && IsStandingsTable(tables[i])
               && e in TableStandings(RowCells(tables[i].rows), IsLongFormat(HeaderText(tables[i].headers)), f);
      RanksAreNumeric(RowCells(tables[i].rows), IsLongFormat(HeaderText(tables[i].headers)), f);
    }
  }

  /** The tables are read independently: the date cursor starts afresh at
      every table, so the games of two pages' worth of tables are the games
      of each, one after the other. */
  lemma PageGamesAppend(a: seq<Table>, b: seq<Table>, f: TeamFilter)
    ensures PageGames(a + b, f) == PageGames(a, f) + PageGames(b, f)
  {
    MapPartsAppend(GamesOfEach(f), a, b);
    ConcatAppend(GamesParts(a, f), GamesParts(b, f));
  }

  /** Every game of a page is dated "Unbekannt" or by a date row of the
      table it comes from. */
  lemma PageGamesDatedWithinTable(tables: seq<Table>, f: TeamFilter)
    ensures forall g :: g in PageGames(tables, f) ==>
              exists i :: 0 <= i < |tables| && !IsStandingsTable(tables[i])
                          && DatedWithin(tables[i].rows, |tables[i].rows|, g.datum)
  {
    ResultsRoutedByHeader(tables, f);
    forall g | g in PageGames(tables, f)
      ensures exists i :: 0 <= i < |tables| && !IsStandingsTable(tables[i])
                          && DatedWithin(tables[i].rows, |tables[i].rows|, g.datum)
    {
      var i :| 0 <= i < |tables| && !IsStandingsTable(tables[i]) && g in TableGames(tables[i].rows, f);
      GamesDatedWithinTable(tables[i].rows, f);
    }
  }
}
