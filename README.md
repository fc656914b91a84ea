# btv-dashboard: a Dafny model of the fixture and league-table scraper

btv-dashboard is a small Flask application that shows, for each youth
handball team of the club TV Birkesdorf (BTV), the last result, the next
game and a win/draw/loss "traffic light". It gets this data by scraping
the club's division pages on a nuLiga results site. This project models the
part of `app.py` that does the real work, over plain data:

- `check_team_match`, the rule that decides whether a team name is one of
  the club's own teams (module `TeamMatch`);
- the routing of each `result-set` table, by its header text, to the
  league-table branch or to the schedule branch (module `Scraper`);
- the league-table branch: rank column, team-name column, and the counts
  read from the end of the row in the long and the short format (module
  `Standings`);
- the schedule branch: the row loop with its `current_date` cursor, the
  time anchor, the tracked-team search, the home/away/score assignment and
  the report-link search (module `Fixtures`);
- the selection in `index`: the last played game, the next game from today
  on, the traffic light, and the team loop that builds the overview
  (module `Dashboard`).

The Python built-ins these rely on are modelled in `Text` (`lower`, `in`,
`isdigit`, `strip`, `split`, `int`). The regular expressions are modelled
in `Patterns`, each as "some position starts a window of a fixed shape". A
page is a sequence of tables. A table is its header texts and its rows. A
row is its stripped cell texts and its links.

Loops in the source are `method`s with loop invariants. Each method is
proved equal to a specification function: `CheckTeamMatch`,
`FindTimeIndex`, `FindTrackedIndex`, `FindReportLink`,
`ScanStandingsTable`, `ScanFixtureTable`, `ScrapeGames`, `FindNextGame`,
`Summarize` and `LatestResults`. The lemmas then state what the source
promises about those functions.

The schedule scan is modelled as the code is written. Two consequences
follow.

- A game the club played at home keeps the score "-". The cell right of the
  tracked team is then the opponent, not a result, so the row takes the
  not-yet-played branch, although the comments at app.py:176-182 describe
  the home layout. `Fixtures.ExtractSidesAsWritten` is the assignment the
  scan uses. `Fixtures.ExtractSides` is the corrected assignment, kept
  beside it (see "## Findings").
- The outcome of a score does not depend on which side it is read from:
  swapping the goals and the side gives the same colour
  (`Dashboard.OutcomeSwap`, `Dashboard.ScoreLightSwap`).

## Model

| member | source | states |
|---|---|---|
| TeamMatch.CheckTeamMatch | app.py:46-63 | true exactly when the lower-cased name contains "birkesdorf" or "btv", a set include filter (string or list) has a token in the name, and no token of a set exclude filter is in it; `None`, `""` and `[]` count as unset |
| TeamMatch.ReserveSideSeparated | app.py:17-18 | with the configured filters of the two sides that share a division page, "TV Birkesdorf II" is the second side and not the first |
| TeamMatch.FirstSideAccepted | app.py:17-18 | "BTV" is the first side and not the second |
| TeamMatch.ExcludeVetoesInclude | app.py:49-62 | a name the include filter accepts is still rejected when an exclude token occurs in it ("BTV II" with exclude ["II", "2"]) |
| Text.Contains | app.py:48 | Python's `needle in hay` holds exactly when the needle occurs at some position |
| Text.FirstCharAbsent | app.py:48 | a needle whose first character is not in the text does not occur in it |
| Text.StripLeft | app.py:285 | the result is a suffix of the input, everything removed in front of it is whitespace, and it does not start with whitespace |
| Text.StripRight | app.py:285 | the result is a prefix of the input, everything removed after it is whitespace, and it does not end with whitespace |
| Text.StripUnchanged | app.py:285 | `strip` leaves a string without outer whitespace unchanged |
| Text.StripRemovesOuterSpace | app.py:285 | `strip` returns the infix between a run of leading and a run of trailing whitespace; the result has no outer whitespace and stripping it again changes nothing |
| Text.StripKeepsCharacters | app.py:285 | every character of the stripped text occurs in the original |
| Text.SplitNoSeparator | app.py:286 | `split` of a string without the separator is the one-element list of that string |
| Text.SplitCons | app.py:286 | a leading piece without the separator is split off whole |
| Text.SplitTwo | app.py:286 | `p:q` splits into exactly `[p, q]` when neither piece holds ':' |
| Text.SplitJoin | app.py:286 | joining the pieces of `split` with the separator gives back the string |
| Text.ParseInt | app.py:286 | `int` succeeds exactly on an optionally signed non-empty digit string with surrounding whitespace; it gives the digits' value, negated after a minus sign |
| Text.ParseIntOfIntText | app.py:286 | `int` reads back every integer printed in decimal, negative ones included |
| Patterns.TimeRegexAgrees | app.py:142 | `\d{1,2}:\d{2}` matches somewhere exactly when a digit, ':' and two digits do |
| Patterns.ScoreRegexAgrees | app.py:167 | `\d+:\d+` matches somewhere exactly when a digit, ':' and a digit do |
| Patterns.TimeIsScore | app.py:142-167 | every text that matches the time pattern also matches the score pattern |
| Patterns.DayMonthRegexAgrees | app.py:134 | `\d{1,2}\.\d{1,2}\.` matches somewhere exactly when one or two digits, '.', one or two digits and '.' occur in a row |
| Patterns.DateShapeFields | app.py:136 | in a full date, the positions of the two dots fix the lengths of day and month |
| Patterns.FullDateUnique | app.py:136 | at a given start at most one full `D.M.YYYY` match exists, so the order of the alternatives does not matter |
| Patterns.FullDateAt | app.py:136 | the result is the full date starting at the position, and any full date starting there is that result |
| Patterns.FirstFullDateFrom | app.py:136-137 | the result is the match that starts leftmost, or none when no position starts a full date |
| Patterns.FirstFullDateIsLeftmost | app.py:136 | `re.search` for a full date finds none exactly when no infix is a full date, and otherwise an infix that is a full date with none starting further left |
| Standings.StandingRow | app.py:75-120 | a row is emitted exactly when it has at least six cells, cell 0 or cell 1 is numeric, and, in the long format, at least seven cells (a shorter row raises at `cols[-7]` and is skipped) |
| Standings.StandingRowFields | app.py:76-119 | an emitted rank is a digit string from cell 0, or from cell 1 when cell 0 is not numeric; the name is chosen from the next two cells; punkte/diff/tore/n/u/s/spiele are cells -1 to -7 in the long format, and punkte/n/u/s/spiele are cells -1 to -5 with diff and tore "-" in the short format; `is_own` is the matching rule on the name |
| Standings.NonNumericRowSkipped | app.py:83 | a row whose first two cells are not numeric is never emitted |
| Standings.StandingsFromRows | app.py:73-120 | the entries are exactly those of the emitted rows, at most one per row |
| Standings.RanksAreNumeric | app.py:77-83 | every rank in a league table is a non-empty digit string |
| Standings.ReadStanding | app.py:74-120 | the loop body for one row produces exactly the entry `StandingRow` describes, or nothing |
| Standings.ScanStandingsTable | app.py:73-121 | the row loop collects exactly the entries of the emitted rows, in row order |
| Scraper.HeaderTextIsJoinOfLower | app.py:66-67 | the header text is the concatenation of the lower-cased header cells |
| Scraper.RoutingIgnoresCase | app.py:65-72 | lower-casing the header cells first changes neither the header text, nor the routing, nor what the table contributes |
| Scraper.LeagueHeaderRouted | app.py:70-72 | the header row "Rang", "Mannschaft", "Tore", "Punkte" makes a league table in the long format |
| Scraper.ScrapeGames | app.py:31-250 | a page that could not be fetched gives two empty lists; otherwise the games are those the schedule tables yield as written and the league table is that of the league tables, table by table |
| Scraper.ResultsRoutedByHeader | app.py:71-124 | every league-table entry comes from a table whose header text holds "rang" and "punkte", and every game from a table whose header text does not |
| Scraper.NoStandingsTableNoStandings | app.py:71 | a page without such a table has an empty league table |
| Scraper.PageRanksAreNumeric | app.py:71-83 | every rank of a page's league table is a digit string |
| Scraper.PageGamesAppend | app.py:124 | the date cursor starts afresh at each table: the games of two runs of tables are the games of each, one after the other |
| Scraper.PageGamesDatedWithinTable | app.py:124-138 | every game of a page is dated "Unbekannt" or by a date row of the table it comes from |
| Fixtures.DateOfCell | app.py:135-138 | a date cell sets the leftmost full `D.M.YYYY` date it contains, and its whole text only when it contains none |
| Fixtures.RowDate | app.py:133-138 | only a row with more than two cells and a `D.M.` in cell 1 moves the cursor, and then to a full date or to the text of cell 1 |
| Fixtures.DateCursor | app.py:124-138 | the cursor starts as "Unbekannt" and is always "Unbekannt" or the date of an earlier date row of the same table |
| Fixtures.DateCursorIsLastDateRow | app.py:124-138 | after any number of rows the cursor is the date of the last row with more than two cells and a `D.M.` in cell 1, whether or not that row produced a game, and "Unbekannt" when there was none |
| Fixtures.TimeAnchorFrom | app.py:140-144 | the anchor is the first cell at index 5 or less that contains a time, or none when no such cell has one |
| Fixtures.FindTimeIndex | app.py:129-146 | the `enumerate` loop leaves `time_index` at that anchor, or at -1 |
| Fixtures.TrackedFrom | app.py:149-154 | the tracked team is the first cell at or after the start whose text passes the matching rule, or none |
| Fixtures.FindTrackedIndex | app.py:149-156 | the search loop leaves `my_team_idx` at the first match after the anchor, or at -1 |
| Fixtures.IsResultCell | app.py:167 | a cell with a kick-off time also reads as a result |
| Fixtures.IsTeamLike | app.py:208-211 | an empty neighbour, the "-" of an open score and a "v" never look like a team |
| Fixtures.ExtractSidesAsWritten | app.py:163-224 | the score is kept exactly when the cell right of the tracked team is a result; the score is "-" or a result cell, the tracked team is the home or the away side, the home side is the tracked team or the cell before it, the away side the tracked team, the next cell or "???" |
| Fixtures.PlayedAway | app.py:163-188 | when the cell right of the tracked team holds a `\d+:\d+` score or "abges", the tracked team is the away side, the cell before it the home side, and that cell the score |
| Fixtures.NotYetPlayedAsWritten | app.py:196-224 | otherwise the score stays "-"; a team-like right neighbour makes the tracked team home, else a team-like left neighbour makes it away, else it is home against the right cell or "???" |
| Fixtures.HomeResultDroppedAsWritten | app.py:163-224 | a home game with the opponent right of the tracked team and its result two cells right gets the score "-" |
| Fixtures.TimeCellAsHome | app.py:184-188 | when the tracked team directly follows the time and a result follows it, the time cell becomes the home side |
| Fixtures.HomeResultRecorded | app.py:176-194 | with the corrected assignment, the played home game of the finding keeps its score |
| Fixtures.ReportLinkFrom | app.py:228-237 | the link is the `href` of the first link whose lower-cased `href` names a download, PDF, meeting or document, or whose image's `alt` or `src` says PDF |
| Fixtures.FindReportLink | app.py:227-237 | the link loop stops at that first report link, or leaves `None` |
| Fixtures.RowGame | app.py:129-244 | a row's game carries the date it was read under and a kick-off time, and `we_are_home` is the matching rule on its home side |
| Fixtures.RowGameExists | app.py:140-156 | a row yields a game exactly when a cell up to index 5 has a time and a cell after the first such one names the tracked team |
| Fixtures.RowGameFields | app.py:140-244 | a game's time is the first cell up to index 5 with a time; the tracked team is the first match after it and is the home or the away side; the other side is its neighbour or "???"; the score is kept exactly when a result stands right of the tracked team; the report link is the first one; `we_are_home` is the matching rule on the home side |
| Fixtures.CarryDate | app.py:133-138 | the date step of the row loop moves the cursor exactly as the date carry describes |
| Fixtures.ReadGame | app.py:129-244 | the rest of the loop body appends exactly the game the row yields under the current date, as written, or nothing |
| Fixtures.GamesFromRows | app.py:125-244 | the games are exactly those of the single rows, each dated by the cursor after its own row, at most one per row |
| Fixtures.GamesDatedWithinTable | app.py:124-138 | every game of a table is dated "Unbekannt" or by a date row of that table |
| Fixtures.ScanFixtureTable | app.py:124-244 | the row loop with its date cursor collects exactly the games of the rows as written, in row order |
| Fixtures.FullRowExample | app.py:133-147 | in a row of weekday, date, time, hall, home, away and result, the anchor is cell 2 and the date cell sets the cursor to "24.09.2025" |
| Fixtures.ContinuationRowExample | app.py:133-147 | in a row that starts with the time, the anchor is cell 0 and the cursor keeps its value |
| Fixtures.FindingRowTracked | app.py:149-154 | in the row of the finding the first cell after the time that passes the matching rule is "TV Birkesdorf" |
| Fixtures.HomeResultDroppedInRow | app.py:129-244 | the whole row of the finding yields the game with "TV Birkesdorf" at home, `we_are_home` set, and the score "-" |
| Dashboard.DaysInMonth | app.py:274 | months have 28 to 31 days, and 29 only in February of a leap year |
| Dashboard.ParseDate | app.py:274 | every date `strptime` returns exists in the calendar |
| Dashboard.ParsedDateShape | app.py:274 | a string that parses is a day text, '.', a month text, '.' and four digits, and parses to the date they denote |
| Dashboard.ParseDateOfFields | app.py:274 | every such string parses, to its date when that date exists and to an error otherwise |
| Dashboard.FormatDateRoundTrip | app.py:274 | every valid date printed as `dd.mm.yyyy` parses back to itself |
| Dashboard.PrintedDateCell | app.py:136-137 | a date cell printed as `dd.mm.yyyy` sets the cursor to itself, and the next-game search reads that date back |
| Dashboard.UnknownDateUnparsed | app.py:124 | the placeholder date "Unbekannt" never parses |
| Dashboard.PlayedGamesMembers | app.py:263 | the played games are exactly the games whose score contains ':' |
| Dashboard.LastPlayed | app.py:263-264 | the last game is a game of the list that has a result |
| Dashboard.LastPlayedIsLast | app.py:263-264 | the last game is a played game after which no game is played, and there is none exactly when no game is played |
| Dashboard.NextGameFrom | app.py:267-279 | the next game is the first game with no ':' and no "abges" in its score and a date that parses to today or later, or none |
| Dashboard.FindNextGame | app.py:267-279 | the loop with its `continue`s and its `break` finds exactly that game |
| Dashboard.UndatedNeverNext | app.py:272-275 | a game still dated "Unbekannt" is never the next game |
| Dashboard.NextIsNotLast | app.py:263-279 | the next game and the last game are never the same game |
| Dashboard.Outcome | app.py:288-290 | draw exactly on equal goals, win exactly when the tracked team scored more, loss exactly when it scored fewer |
| Dashboard.OutcomeSwap | app.py:288-290 | swapping the goals and the side gives the same colour |
| Dashboard.Score | app.py:283-286 | only a score text that contains ':' unpacks into two integers, so the guard before the `try` rejects nothing the unpacking accepts |
| Dashboard.ScoreLight | app.py:284-291 | a colour exists exactly when the stripped score splits at ':' into two pieces that both read as integers |
| Dashboard.TrafficLight | app.py:282-291 | a colour exists exactly when there is a last game, its score contains ':', and the score reads as two integers |
| Dashboard.ScoreOfPieces | app.py:285-286 | a score `p:q` of pieces without ':' or outer whitespace reads as the two integers of the pieces, or fails when one is not an integer |
| Dashboard.ScoreLightOfDigits | app.py:285-290 | a score of two digit strings colours by their values |
| Dashboard.ScoreLightSwap | app.py:285-290 | swapping the two pieces of a score and the side leaves the colour unchanged, whatever the pieces hold |
| Dashboard.ThreePiecesNoLight | app.py:286 | a score with a second ':' gives no colour |
| Dashboard.NonNumericNoLight | app.py:286 | a score with a piece that is not an integer gives no colour |
| Dashboard.TrafficLightOfLastGame | app.py:283-290 | a last game with a score of two digit strings gets the colour of those values from the tracked team's side |
| Dashboard.HomeResultNoLight | app.py:263-291 | the game of the row of the finding is not played, is never the last game and gives no colour |
| Dashboard.Summarize | app.py:262-298 | one team's entry holds its last game, its next game and the colour of its last game |
| Dashboard.LatestResults | app.py:255-298 | the team loop makes one entry per team, in configuration order |

## Left out

- Fetching the page (app.py:35-41): the HTTP session, its headers, the timeout and the status check are network I/O. A page is `Option<seq<Table>>`, and `None` stands for a failed fetch.
- HTML parsing (app.py:43-44, 66-68, 126, 130, 228, 232): BeautifulSoup and `get_text(strip=True)` are a library. Tables, rows, cell texts and links are given as data.
- URL resolution (app.py:236): `urljoin` is a library. The model keeps the raw `href`, and a `urljoin` that raises and makes the whole scrape return two empty lists is not modelled.
- Flask, the cache, the templates and the configuration (app.py:1-29, 252-254, 310-321): framework plumbing. Two entries of the team configuration serve as data for the `TeamMatch` lemmas.
- The clock (app.py:256): `datetime.now()` is the parameter `today`. Only its date matters, because only dates are compared.
- The sorting of the overview (app.py:300-308): two stable sorts with a `datetime.min` sentinel depend on the library's sort.
- The `print` and the catch-all `except` (app.py:246-248): the model has no step that raises apart from those it models as `None` (`cols[-7]`, `strptime`, `int`).
- Dead code: the branch at app.py:94-95 never runs, because a row with six cells always has a cell after the team column. The fallback at app.py:189-194 never runs, because its guard repeats the one at app.py:167. The test `len(cols) > 1` at app.py:80 always holds. None of these is modelled as a separate branch.
- Text.Lower: lower-cases ASCII letters only; Python's `lower()` also maps other cased letters.
- Text.IsDigits: accepts ASCII digits only; Python's `isdigit()` also accepts other digit characters.
- Text.IsSpace: covers ASCII whitespace only; `strip()` also removes other Unicode whitespace.
- Text.ParseInt: accepts ASCII digits only, and not the underscores between digits that `int()` allows.
- Patterns.HasTime: like the other regular expressions, matches ASCII digits only; Python's `\d` also matches other decimal digits.
- Dashboard.ParseDate: accepts ASCII digits only, as `Patterns` does.

## Findings

| source | as written | input that shows it | evidently intended | confidence | as-written member | corrected member |
|---|---|---|---|---|---|---|
| app.py:163-224 | a played game keeps its score only when the result is directly right of the tracked team, that is, when the tracked team played away | the row "Sa", "24.09.2025", "14:00", "Halle 7", "TV Birkesdorf", "HC Opponent", "24:22" gives home "TV Birkesdorf", away "HC Opponent" and score "-" | the comments at app.py:176-182 and the unreachable fallback at app.py:189-194 read the opponent right of the tracked team and the result after it as a home game with that result, so a home game would count as played and colour the traffic light | not executed | Fixtures.ExtractSidesAsWritten, shown by Fixtures.HomeResultDroppedAsWritten, Fixtures.HomeResultDroppedInRow and Dashboard.HomeResultNoLight | Fixtures.ExtractSides, whose contract states that in the home layout the tracked team is home and the result is the score, shown by Fixtures.HomeResultRecorded |
