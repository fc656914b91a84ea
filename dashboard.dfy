/** The per-team selection of the overview page (`index`): the last played
    game, the next game from today on, and the traffic light that colours
    the last result. */
module Dashboard {
  import opened Wrappers
  import opened Text
  import opened Patterns
  import opened TeamMatch
  import opened Fixtures

  // ---------------------------------------------------------------------
  // Calendar dates and `datetime.strptime(s, "%d.%m.%Y")`

  datatype Date = Date(year: int, month: int, day: int)

  predicate IsLeap(y: int)
  {
    y % 4 == 0 && (y % 100 != 0 || y % 400 == 0)
  }

  function DaysInMonth(y: int, m: int): (n: int)
    requires 1 <= m <= 12
    ensures 28 <= n <= 31
    ensures n == 29 <==> m == 2 && IsLeap(y)
  {
    if m == 2 then (if IsLeap(y) then 29 else 28)
    else if m == 4 || m == 6 || m == 9 || m == 11 then 30
    else 31
  }

  /** A date `datetime` accepts: years 1 to 9999, a real day of the month. */
  predicate ValidDate(d: Date)
  {
    1 <= d.year <= 9999 && 1 <= d.month <= 12 && 1 <= d.day <= DaysInMonth(d.year, d.month)
  }

  /** `a <= b` on calendar dates. */
  predicate DateLeq(a: Date, b: Date)
  {
    a.year < b.year || (a.year == b.year && (a.month < b.month || (a.month == b.month && a.day <= b.day)))
  }

  predicate NonZeroDigit(c: char) { '1' <= c <= '9' }

  /** The texts `%d` accepts: `3[01]`, `[12]\d`, `0[1-9]`, `[1-9]` or a
      space and `[1-9]`. */
  predicate DayText(t: string)
  {
    || (|t| == 2 && t[0] == '3' && (t[1] == '0' || t[1] == '1'))
    || (|t| == 2 && (t[0] == '1' || t[0] == '2') && IsDigit(t[1]))
    || (|t| == 2 && t[0] == '0' && NonZeroDigit(t[1]))
    || (|t| == 1 && NonZeroDigit(t[0]))
    || (|t| == 2 && t[0] == ' ' && NonZeroDigit(t[1]))
  }

  /** The texts `%m` accepts: `1[0-2]`, `0[1-9]` or `[1-9]`. */
  predicate MonthText(t: string)
  {
    || (|t| == 2 && t[0] == '1' && '0' <= t[1] <= '2')
    || (|t| == 2 && t[0] == '0' && NonZeroDigit(t[1]))
    || (|t| == 1 && NonZeroDigit(t[0]))
  }

  /** The texts `%Y` accepts: four digits. */
  predicate YearText(t: string)
  {
    |t| == 4 && AllDigits(t)
  }

  /** The number a day or month field denotes. */
  function FieldValue(t: string): (n: nat)
    requires DayText(t) || MonthText(t)
  {
    if t[0] == ' ' then DigitsValue(t[1..]) else DigitsValue(t)
  }

  /** `datetime.strptime(s, "%d.%m.%Y")`, with the `ValueError` it raises as
      `None`. The three fields hold no '.', so a full match of the format is
      exactly a split at '.' into a day, a month and a year text; the parsed
      date must then exist. */
  function ParseDate(s: string): (r: Option<Date>)
    ensures r.Some? ==> ValidDate(r.value)
  {
    var parts := Split(s, '.');
    if |parts| == 3 && DayText(parts[0]) && MonthText(parts[1]) && YearText(parts[2]) then
      var d := Date(DigitsValue(parts[2]), FieldValue(parts[1]), FieldValue(parts[0]));
      if ValidDate(d) then Some(d) else None
    else None
  }

  /** What a parsed string looks like: a day text, '.', a month text, '.',
      a year text, denoting the parsed date. */
  lemma ParsedDateShape(s: string)
    requires ParseDate(s).Some?
    ensures exists dt, mt, yt ::
              && DayText(dt) && MonthText(mt) && YearText(yt)
              && s == dt + "." + mt + "." + yt
              && ParseDate(s).value == Date(DigitsValue(yt), FieldValue(mt), FieldValue(dt))
  {
    var parts := Split(s, '.');
    SplitJoin(s, '.');
    var tail := parts[1..];
    assert tail[1..] == [parts[2]];
    assert Join(tail, '.') == parts[1] + "." + parts[2];
    assert s == parts[0] + "." + parts[1] + "." + parts[2];
  }

  /** Conversely every such string parses, to its date when that date
      exists and to an error otherwise. */
  lemma ParseDateOfFields(dt: string, mt: string, yt: string)
    requires DayText(dt) && MonthText(mt) && YearText(yt)
    ensures var d := Date(DigitsValue(yt), FieldValue(mt), FieldValue(dt));
            ParseDate(dt + "." + mt + "." + yt) == if ValidDate(d) then Some(d) else None
  {
    assert '.' !in dt && '.' !in mt && '.' !in yt;
    var s := dt + "." + mt + "." + yt;
    assert s == dt + ['.'] + (mt + ['.'] + yt);
    SplitCons(dt, mt + ['.'] + yt, '.');
    SplitTwo(mt, yt, '.');
  }

  /** The digit character of `k`. */
  function DigitChar(k: int): (c: char)
    requires 0 <= k <= 9
    ensures IsDigit(c) && c as int - '0' as int == k
  {
    ('0' as int + k) as char
  }

  /** The power of ten a field width allows. */
  function Pow10(w: nat): (p: nat)
    ensures p >= 1
  {
    if w == 0 then 1 else 10 * Pow10(w - 1)
  }

  /** `n` written with exactly `w` digits, zero-padded on the left. */
  function Digits(n: nat, w: nat): (t: string)
    ensures |t| == w && AllDigits(t)
  {
    if w == 0 then [] else Digits(n / 10, w - 1) + [DigitChar(n % 10)]
  }

  /** Zero-padded digits read back to the number they write. */
  lemma {:induction false} DigitsValueOfDigits(n: nat, w: nat)
    requires n < Pow10(w)
    ensures DigitsValue(Digits(n, w)) == n
  {
    if w > 0 {
      DigitsValueOfDigits(n / 10, w - 1);
      var t := Digits(n, w);
      assert t[..|t| - 1] == Digits(n / 10, w - 1);
    }
  }

  /** `date.strftime("%d.%m.%Y")`: the form the league pages print dates
      in. */
  function FormatDate(d: Date): string
    requires ValidDate(d)
  {
    Digits(d.day, 2) + "." + Digits(d.month, 2) + "." + Digits(d.year, 4)
  }

  /** A number below 100 written in two digits, tens first, reads back. */
  lemma TwoDigits(n: nat)
    requires n < 100
    ensures Digits(n, 2) == [DigitChar(n / 10), DigitChar(n % 10)]
    ensures DigitsValue(Digits(n, 2)) == n
  {
    assert n / 10 % 10 == n / 10;
    assert Digits(n / 10, 1) == [DigitChar(n / 10)];
    DigitsValueOfDigits(n, 2);
  }

  /** Every valid date printed as `dd.mm.yyyy` parses back to itself. */
  lemma FormatDateRoundTrip(d: Date)
    requires ValidDate(d)
    ensures ParseDate(FormatDate(d)) == Some(d)
  {
    TwoDigits(d.day);
    TwoDigits(d.month);
    DigitsValueOfDigits(d.year, 4);
    ParseDateOfFields(Digits(d.day, 2), Digits(d.month, 2), Digits(d.year, 4));
  }

  /** A date cell printed as `dd.mm.yyyy` sets the cursor to itself, and
      the next-game search reads that date back. */
  lemma PrintedDateCell(d: Date)
    requires ValidDate(d)
    ensures DateOfCell(FormatDate(d)) == FormatDate(d)
    ensures ParseDate(DateOfCell(FormatDate(d))) == Some(d)
  {
    var s := FormatDate(d);
    assert s[..2] == Digits(d.day, 2) && s[3..5] == Digits(d.month, 2) && s[6..] == Digits(d.year, 4);
    assert DateShape(s, 2, 2);
    assert s[0..10] == s;
    assert FullDateAt(s, 0) == Some(s);
    FormatDateRoundTrip(d);
  }

  /** The placeholder date of a game before any date row never parses. */
  lemma UnknownDateUnparsed()
    ensures ParseDate(UnknownDate) == None
  {
    SplitNoSeparator(UnknownDate, '.');
  }

  // ---------------------------------------------------------------------
  // The last game

  /** `":" in tore`: the game has a result. */
  predicate IsPlayed(g: Game)
  {
    ':' in g.tore
  }

  /** The `played_games` comprehension: the games with a result, in order. */
  function PlayedGames(games: seq<Game>): (ps: seq<Game>)
    ensures |ps| <= |games|
  {
    if games == [] then []
    else PlayedGames(games[..|games| - 1]) + if IsPlayed(games[|games| - 1]) then [games[|games| - 1]] else []
  }

  /** The played games are exactly the games with a result. */
  lemma {:induction false} PlayedGamesMembers(games: seq<Game>)
    ensures forall g :: g in PlayedGames(games) <==> g in games && IsPlayed(g)
  {
    if games != [] {
      var init, last := games[..|games| - 1], games[|games| - 1];
      PlayedGamesMembers(init);
      assert games == init + [last];
    }
  }

  /** The last of the played games is a game of the list with a result. */
  lemma LastPlayedIsPlayedGame(games: seq<Game>)
    ensures var ps := PlayedGames(games);
            ps != [] ==> ps[|ps| - 1] in games && IsPlayed(ps[|ps| - 1])
  {
    PlayedGamesMembers(games);
  }

  /** `played_games[-1] if played_games else None`: a game of the list
      that has a result. */
  function LastPlayed(games: seq<Game>): (r: Option<Game>)
    ensures r.Some? ==> r.value in games && IsPlayed(r.value)
  {
    LastPlayedIsPlayedGame(games);
    var ps := PlayedGames(games);
    if ps == [] then None else Some(ps[|ps| - 1])
  }

  /** The last game is the played game after which no game is played, and
      there is none exactly when no game is played. */
  lemma {:induction false} LastPlayedIsLast(games: seq<Game>)
    ensures LastPlayed(games).None? <==> forall i :: 0 <= i < |games| ==> !IsPlayed(games[i])
    ensures LastPlayed(games).Some? ==>
              exists i :: 0 <= i < |games| && games[i] == LastPlayed(games).value && IsPlayed(games[i])
                          && forall j :: i < j < |games| ==> !IsPlayed(games[j])
  {
    if games != [] {
      var init, last := games[..|games| - 1], games[|games| - 1];
      LastPlayedIsLast(init);
      if IsPlayed(last) {
        assert PlayedGames(games) == PlayedGames(init) + [last];
        assert LastPlayed(games) == Some(last);
      } else {
        assert PlayedGames(games) == PlayedGames(init);
        assert LastPlayed(games) == LastPlayed(init);
        forall i | 0 <= i < |init| ensures games[i] == init[i] { }
      }
    }
  }

  // ---------------------------------------------------------------------
  // The next game

  /** The score cell says "abgesagt" or similar. */
  predicate IsCancelled(g: Game)
  {
    Contains(Lower(g.tore), "abges")
  }

  /** A game that is neither played nor cancelled and whose date parses to
      today or later. */
  predicate IsUpcoming(g: Game, today: Date)
  {
    && !IsPlayed(g) && !IsCancelled(g)
    && match ParseDate(g.datum)
       case Some(d) => DateLeq(today, d)
       case None => false
  }

  /** The first upcoming game at index `i` or later. */
  function NextGameFrom(games: seq<Game>, i: nat, today: Date): (r: Option<Game>)
    ensures r.Some? ==> exists k :: i <= k < |games| && games[k] == r.value && IsUpcoming(games[k], today)
                                    && forall j :: i <= j < k ==> !IsUpcoming(games[j], today)
    ensures r.None? ==> forall j :: i <= j < |games| ==> !IsUpcoming(games[j], today)
    decreases |games| - i
  {
    if i >= |games| then None
    else if IsUpcoming(games[i], today) then Some(games[i])
    else NextGameFrom(games, i + 1, today)
  }

  /** The loop that sets `next_game`: results and cancellations are
      skipped, then games without a date, then dates that do not parse or
      lie before today; the first remaining game ends the loop. */
  method FindNextGame(games: seq<Game>, today: Date) returns (nextGame: Option<Game>)
    ensures nextGame == NextGameFrom(games, 0, today)
  {
    nextGame := None;
    for k := 0 to |games|
      invariant nextGame == None
      invariant NextGameFrom(games, 0, today) == NextGameFrom(games, k, today)
    {
      var g := games[k];
      if ':' in g.tore || Contains(Lower(g.tore), "abges") { continue; }
      var dateText := g.datum;
      if dateText == "" { continue; }
      match ParseDate(dateText) {
        case None =>
          continue;
        case Some(gDate) =>
          if DateLeq(today, gDate) {
            nextGame := Some(g);
            break;
          }
      }
    }
  }

  /** A game still dated "Unbekannt" is never the next game. */
  lemma UndatedNeverNext(games: seq<Game>, today: Date)
    ensures forall g :: g in games && g.datum == UnknownDate ==> NextGameFrom(games, 0, today) != Some(g)
  {
    UnknownDateUnparsed();
  }

  /** The next game and the last game are never the same game. */
  lemma NextIsNotLast(games: seq<Game>, today: Date)
    ensures LastPlayed(games).Some? && NextGameFrom(games, 0, today).Some? ==>
              LastPlayed(games).value != NextGameFrom(games, 0, today).value
  {
    LastPlayedIsLast(games);
  }

  // ---------------------------------------------------------------------
  // The traffic light

  datatype Light = Win | Draw | Loss

  /** The goals of the tracked team and of its opponent. */
  function OurGoals(home: int, away: int, weAreHome: bool): int { if weAreHome then home else away }
  function TheirGoals(home: int, away: int, weAreHome: bool): int { if weAreHome then away else home }

  /** The colour of a result `home:away`: draw on equal goals, otherwise
      the side the tracked team played decides. */
  function Outcome(home: int, away: int, weAreHome: bool): (l: Light)
    ensures l == Draw <==> home == away
    ensures l == Win <==> OurGoals(home, away, weAreHome) > TheirGoals(home, away, weAreHome)
    ensures l == Loss <==> OurGoals(home, away, weAreHome) < TheirGoals(home, away, weAreHome)
  {
    if home == away then Draw
    else if weAreHome then (if home > away then Win else Loss)
    else (if away > home then Win else Loss)
  }

  /** Reading a result from the other side: swapping the goals and the
      side gives the same colour. */
  lemma OutcomeSwap(home: int, away: int, weAreHome: bool)
    ensures Outcome(home, away, weAreHome) == Outcome(away, home, !weAreHome)
  {
  }

  /** Text without ':' does not split at ':' into two pieces. */
  lemma ScoreNeedsColon(tore: string)
    ensures |Split(Strip(tore), ':')| == 2 ==> ':' in tore
  {
    StripKeepsCharacters(tore);
    SplitNeedsSeparator(Strip(tore), ':');
  }

  /** `map(int, tore.strip().split(':'))` unpacked into two names: exactly
      two pieces, both integers. Only a text that contains ':' reads as a
      score, so the guard in front of the `try` block rejects nothing the
      unpacking would accept. */
  function Score(tore: string): (r: Option<(int, int)>)
    ensures r.Some? ==> ':' in tore
  {
    ScoreNeedsColon(tore);
    var parts := Split(Strip(tore), ':');
    if |parts| != 2 then None
    else
      match (ParseInt(parts[0]), ParseInt(parts[1]))
      case (Some(h), Some(a)) => Some((h, a))
      case _ => None
  }

  /** The `try` block of the traffic light: the colour of a score text,
      or `None` where unpacking or `int` raises. */
  function ScoreLight(tore: string, weAreHome: bool): (l: Option<Light>)
    ensures l.Some? <==> Score(tore).Some?
  {
    match Score(tore)
    case None => None
    case Some((h, a)) => Some(Outcome(h, a, weAreHome))
  }

  /** The status of a team: no colour without a last game or without ':'
      in its score, else the colour of the score. */
  function TrafficLight(last: Option<Game>): (l: Option<Light>)
    ensures l.Some? <==> last.Some? && IsPlayed(last.value) && Score(last.value.tore).Some?
  {
    match last
    case None => None
    case Some(g) => if IsPlayed(g) then ScoreLight(g.tore, g.weAreHome) else None
  }

  /** A digit string has no surrounding whitespace and reads as its
      value. */
  lemma DigitsNoOuterSpace(p: string)
    requires IsDigits(p)
    ensures NoOuterSpace(p) && ParseInt(p) == Some(DigitsValue(p)) && ':' !in p
  {
    assert IsDigit(p[0]) && IsDigit(p[|p| - 1]);
    StripUnchanged(p);
    assert forall i :: 0 <= i < |p| ==> IsDigit(p[i]);
  }

  /** A score of two pieces without ':' and without outer whitespace. */
  predicate TwoPieces(p: string, q: string)
  {
    ':' !in p && ':' !in q && NoOuterSpace(p) && NoOuterSpace(q)
  }

  /** Joining two such pieces with ':' adds no outer whitespace, so the
      score is split back into the pieces. */
  lemma SplitScore(p: string, q: string)
    requires TwoPieces(p, q)
    ensures Split(Strip(p + ":" + q), ':') == [p, q]
  {
    var s := p + ":" + q;
    assert s[0] == (if p == [] then ':' else p[0]);
    assert s[|s| - 1] == (if q == [] then ':' else q[|q| - 1]);
    StripUnchanged(s);
    SplitTwo(p, q, ':');
  }

  /** A score of two such pieces reads as the two integers they hold. */
  lemma ScoreOfPieces(p: string, q: string)
    requires TwoPieces(p, q)
    ensures Score(p + ":" + q) == match (ParseInt(p), ParseInt(q))
                                  case (Some(h), Some(a)) => Some((h, a))
                                  case _ => None
  {
    SplitScore(p, q);
  }

  /** A score `H:A` of two digit strings colours by their values. */
  lemma ScoreLightOfDigits(p: string, q: string, weAreHome: bool)
    requires IsDigits(p) && IsDigits(q)
    ensures ScoreLight(p + ":" + q, weAreHome) == Some(Outcome(DigitsValue(p), DigitsValue(q), weAreHome))
  {
    DigitsNoOuterSpace(p);
    DigitsNoOuterSpace(q);
    ScoreOfPieces(p, q);
  }

  /** Swapping the two pieces of a score and the side of the tracked team
      leaves the colour unchanged, whatever the pieces hold. */
  lemma ScoreLightSwap(p: string, q: string, weAreHome: bool)
    requires TwoPieces(p, q)
    ensures ScoreLight(p + ":" + q, weAreHome) == ScoreLight(q + ":" + p, !weAreHome)
  {
    ScoreOfPieces(p, q);
    ScoreOfPieces(q, p);
    var x, y := ParseInt(p), ParseInt(q);
    if x.Some? && y.Some? {
      OutcomeSwap(x.value, y.value, weAreHome);
    }
  }

  /** Three pieces joined by ':' split back into the three. */
  lemma SplitThreePieces(p: string, q: string, r: string)
    requires ':' !in p && ':' !in q && ':' !in r && NoOuterSpace(p) && NoOuterSpace(r)
    ensures |Split(Strip(p + ":" + q + ":" + r), ':')| == 3
  {
    var t := q + [':'] + r;
    SplitTwo(q, r, ':');
    SplitCons(p, t, ':');
    var s := p + [':'] + t;
    assert s[0] == (if p == [] then ':' else p[0]);
    assert s[|s| - 1] == (if r == [] then ':' else r[|r| - 1]);
    StripUnchanged(s);
    assert s == p + ":" + q + ":" + r;
  }

  /** A score with a second ':' gives no colour. */
  lemma ThreePiecesNoLight(p: string, q: string, r: string, weAreHome: bool)
    requires ':' !in p && ':' !in q && ':' !in r && NoOuterSpace(p) && NoOuterSpace(r)
    ensures ScoreLight(p + ":" + q + ":" + r, weAreHome) == None
  {
    SplitThreePieces(p, q, r);
  }

  /** A piece that is not an integer gives no colour. */
  lemma NonNumericNoLight(p: string, q: string, weAreHome: bool)
    requires TwoPieces(p, q)
    requires ParseInt(p).None? || ParseInt(q).None?
    ensures ScoreLight(p + ":" + q, weAreHome) == None
  {
    ScoreOfPieces(p, q);
  }

  /** A played last game with a score `H:A` of digit strings gets the
      colour of those values, from the tracked team's side. */
  lemma TrafficLightOfLastGame(g: Game, p: string, q: string)
    requires IsDigits(p) && IsDigits(q) && g.tore == p + ":" + q
    ensures TrafficLight(Some(g)) == Some(Outcome(DigitsValue(p), DigitsValue(q), g.weAreHome))
  {
    assert g.tore[|p|] == ':';
    ScoreLightOfDigits(p, q, g.weAreHome);
  }

  /** The game of the row of the finding, as the scan reads it, has no
      result: it never becomes the last game and gives no colour. */
  lemma HomeResultNoLight(datum: string)
    ensures var cells := ["Sa", "24.09.2025", "14:00", "Halle 7", "TV Birkesdorf", "HC Opponent", "24:22"];
            var g := RowGame(Row(cells, []), datum, TeamFilter(NoFilter, NoFilter));
            && g.Some? && !IsPlayed(g.value)
            && LastPlayed([g.value]) == None && TrafficLight(Some(g.value)) == None
  {
    HomeResultDroppedInRow(datum);
    UnscoredNoLight(Game(datum, "14:00", "TV Birkesdorf", "HC Opponent", NoScore, None, true));
  }

  /** A game without a result is not played, is never the last game and
      gives no colour. */
  lemma UnscoredNoLight(g: Game)
    requires g.tore == NoScore
    ensures !IsPlayed(g) && LastPlayed([g]) == None && TrafficLight(Some(g)) == None
  {
    assert ':' !in NoScore;
  }

  // ---------------------------------------------------------------------
  // One entry of the overview

  datatype Summary = Summary(team: string, game: Option<Game>, nextGame: Option<Game>, status: Option<Light>)

  /** The overview entry of one team with the games scraped for it. */
  function SummaryOf(team: string, games: seq<Game>, today: Date): Summary
  {
    Summary(team, LastPlayed(games), NextGameFrom(games, 0, today), TrafficLight(LastPlayed(games)))
  }

  /** One pass of the team loop of `index`. */
  method Summarize(team: string, games: seq<Game>, today: Date) returns (s: Summary)
    ensures s == SummaryOf(team, games, today)
  {
    var playedGames := PlayedGames(games);
    var lastGame := if playedGames == [] then None else Some(playedGames[|playedGames| - 1]);
    assert lastGame == LastPlayed(games);
    var nextGame := FindNextGame(games, today);
    var trafficLight := TrafficLight(lastGame);
    s := Summary(team, lastGame, nextGame, trafficLight);
  }

  /** The overview entries of the teams, in configuration order. */
  ghost function Summaries(teams: seq<(string, seq<Game>)>, today: Date): (ss: seq<Summary>)
    ensures |ss| == |teams|
    ensures forall i :: 0 <= i < |teams| ==> ss[i] == SummaryOf(teams[i].0, teams[i].1, today)
  {
    seq(|teams|, j requires 0 <= j < |teams| => SummaryOf(teams[j].0, teams[j].1, today))
  }

  /** The team loop of `index`, one entry per configured team in
      configuration order (before the page sorts them). */
  method LatestResults(teams: seq<(string, seq<Game>)>, today: Date) returns (results: seq<Summary>)
    ensures |results| == |teams|
    ensures forall i :: 0 <= i < |teams| ==> results[i] == SummaryOf(teams[i].0, teams[i].1, today)
  {
    ghost var expected := Summaries(teams, today);
    results := [];
    for i := 0 to |teams|
      invariant results == expected[..i]
    {
      var entry := Summarize(teams[i].0, teams[i].1, today);
      assert entry == expected[i];
      assert expected[..i + 1] == expected[..i] + [expected[i]];
      results := results + [entry];
    }
    assert expected[..|teams|] == expected;
  }
}
