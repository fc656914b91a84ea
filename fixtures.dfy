/** The fixture-schedule branch of `scrape_games`: a scan over the rows of
    one table that carries the last seen date forward, anchors each row at
    its kick-off time, looks for the tracked team after that anchor, and
    reads home team, away team and score from the neighbouring cells. */
module Fixtures {
  import opened Wrappers
  import opened Text
  import opened Patterns
  import opened TeamMatch

  /** The first `<img>` inside a link: its `alt` and `src` attributes, the
      empty string standing for an absent one. */
  datatype Img = Img(alt: string, src: string)

  /** A link of a row that has an `href`. */
  datatype Link = Link(href: string, img: Option<Img>)

  /** A table row: the stripped texts of its `<td>` cells and its links. */
  datatype Row = Row(cells: seq<string>, links: seq<Link>)

  /** One emitted game, with the field names of the scraper's dict. */
  datatype Game = Game(
    datum: string, zeit: string, heim: string, gast: string, tore: string,
    pdf: Option<string>, weAreHome: bool)

  const UnknownDate := "Unbekannt"
  const Placeholder := "???"
  const NoScore := "-"

  /** The time anchor is looked for in cells 0 to 5 only. */
  const MaxAnchor := 5

  // ---------------------------------------------------------------------
  // Date carry

  /** Cell 1 of a row with more than two cells holds a day and a month. */
  predicate IsDateRow(cells: seq<string>)
  {
    |cells| > 2 && Contains(cells[1], ".") && HasDayMonth(cells[1])
  }

  /** The date a date cell sets: its leftmost `D.M.YYYY` if it has one,
      else the whole cell text. */
  function DateOfCell(raw: string): (d: string)
    ensures (forall q, j :: 0 <= q <= j <= |raw| ==> !IsFullDate(raw[q..j])) ==> d == raw
    ensures (exists q, j :: 0 <= q <= j <= |raw| && IsFullDate(raw[q..j])) ==>
              && IsFullDate(d)
              && exists p, e :: 0 <= p <= e <= |raw| && raw[p..e] == d
                                && forall q, j :: 0 <= q < p && q <= j <= |raw| ==> !IsFullDate(raw[q..j])
  {
    FirstFullDateIsLeftmost(raw);
    match FirstFullDate(raw)
    case Some(full) => full
    case None => raw
  }

  /** `current_date` after a row: only a date row moves it, and then to a
      full date or to the whole text of cell 1. */
  function RowDate(cells: seq<string>, current: string): (d: string)
    ensures d == current || IsDateRow(cells)
    ensures IsDateRow(cells) ==> IsFullDate(d) || d == cells[1]
  {
    if IsDateRow(cells) then DateOfCell(cells[1]) else current
  }

  /** A date is "Unbekannt" or comes from a date row among the first `n`
      rows of the table. */
  predicate DatedWithin(rows: seq<Row>, n: nat, datum: string)
    requires n <= |rows|
  {
    datum == UnknownDate
    || exists i :: 0 <= i < n && IsDateRow(rows[i].cells) && datum == DateOfCell(rows[i].cells[1])
  }

  /** `current_date` after the first `n` rows of a table: it never carries
      a date in from elsewhere. */
  function DateCursor(rows: seq<Row>, n: nat): (d: string)
    requires n <= |rows|
    ensures DatedWithin(rows, n, d)
  {
    if n == 0 then UnknownDate else RowDate(rows[n - 1].cells, DateCursor(rows, n - 1))
  }

  /** The index of the last date row among the first `n` rows. */
  function LastDateRow(rows: seq<Row>, n: nat): (r: Option<nat>)
    requires n <= |rows|
    ensures r.None? ==> forall j :: 0 <= j < n ==> !IsDateRow(rows[j].cells)
    ensures r.Some? ==> r.value < n && IsDateRow(rows[r.value].cells)
                        && forall j :: r.value < j < n ==> !IsDateRow(rows[j].cells)
  {
    if n == 0 then None
    else if IsDateRow(rows[n - 1].cells) then Some(n - 1)
    else LastDateRow(rows, n - 1)
  }

  /** The cursor is the date of the last date row so far, whether or not
      that row or any later one produced a game, and "Unbekannt" when there
      was none. */
  lemma {:induction false} DateCursorIsLastDateRow(rows: seq<Row>, n: nat)
    requires n <= |rows|
    ensures DateCursor(rows, n) == match LastDateRow(rows, n)
                                   case None => UnknownDate
                                   case Some(i) => DateOfCell(rows[i].cells[1])
  {
    if n > 0 {
      DateCursorIsLastDateRow(rows, n - 1);
    }
  }

  // ---------------------------------------------------------------------
  // Anchor and tracked team

  /** The first cell at index `i` or later, and at most `MaxAnchor`, that
      contains a kick-off time. */
  function TimeAnchorFrom(cells: seq<string>, i: nat): (r: Option<nat>)
    ensures r.Some? ==> i <= r.value <= MaxAnchor && r.value < |cells| && HasTime(cells[r.value])
                        && forall j :: i <= j < r.value ==> !HasTime(cells[j])
    ensures r.None? ==> forall j :: i <= j < |cells| && j <= MaxAnchor ==> !HasTime(cells[j])
    decreases |cells| - i
  {
    if i >= |cells| || i > MaxAnchor then None
    else if HasTime(cells[i]) then Some(i)
    else TimeAnchorFrom(cells, i + 1)
  }

  function TimeAnchor(cells: seq<string>): Option<nat>
  {
    TimeAnchorFrom(cells, 0)
  }

  /** The first cell at index `i` or later whose text names the tracked
      team. */
  function TrackedFrom(cells: seq<string>, i: nat, f: TeamFilter): (r: Option<nat>)
    ensures r.Some? ==> i <= r.value < |cells| && TeamMatches(cells[r.value], f)
                        && forall j :: i <= j < r.value ==> !TeamMatches(cells[j], f)
    ensures r.None? ==> forall j :: i <= j < |cells| ==> !TeamMatches(cells[j], f)
    decreases |cells| - i
  {
    if i >= |cells| then None
    else if TeamMatches(cells[i], f) then Some(i)
    else TrackedFrom(cells, i + 1, f)
  }

  /** The `enumerate` loop that sets `time_index`, leaving it at -1 when no
      cell up to index 5 has a time. */
  method FindTimeIndex(cells: seq<string>) returns (timeIndex: int)
    ensures timeIndex == match TimeAnchor(cells) case Some(t) => t as int case None => -1
  {
    timeIndex := -1;
    for i := 0 to |cells|
      invariant timeIndex == -1
      invariant i <= MaxAnchor + 1
      invariant TimeAnchorFrom(cells, 0) == TimeAnchorFrom(cells, i)
    {
      if i > MaxAnchor { break; }
      if HasTime(cells[i]) {
        timeIndex := i;
        break;
      }
    }
  }

  /** The loop that sets `my_team_idx`, leaving it at -1 when no cell after
      the anchor names the tracked team. */
  method FindTrackedIndex(cells: seq<string>, timeIndex: nat, f: TeamFilter) returns (myTeamIdx: int)
    requires timeIndex < |cells|
    ensures myTeamIdx == match TrackedFrom(cells, timeIndex + 1, f) case Some(m) => m as int case None => -1
  {
    myTeamIdx := -1;
    for i := timeIndex + 1 to |cells|
      invariant myTeamIdx == -1
      invariant TrackedFrom(cells, timeIndex + 1, f) == TrackedFrom(cells, i, f)
    {
      var isOurs := CheckTeamMatch(cells[i], f);
      if isOurs {
        myTeamIdx := i;
        break;
      }
    }
  }

  // ---------------------------------------------------------------------
  // Home, away and score

  /** The cell holds a result: a `\d+:\d+` score or the "abges" (cancelled)
      marker in any case. A kick-off time matches the score pattern, so a
      time right of the tracked team also reads as a result. */
  predicate IsResultCell(s: string)
    ensures HasTime(s) ==> IsResultCell(s)
  {
    TimeIsScore(s);
    HasScore(s) || Contains(Lower(s), "abges")
  }

  /** The cell looks like a team name: longer than two characters, no
      kick-off time, not a bare number such as a hall number. An empty
      neighbour, the "-" of an open score and a "v" are never team-like. */
  predicate IsTeamLike(s: string)
    ensures IsTeamLike(s) ==> s != "" && s != NoScore && s != "v"
  {
    |s| > 2 && !HasTime(s) && !IsDigits(s)
  }

  datatype Sides = Sides(heim: string, gast: string, tore: string)

  /** The cell right of index `m`, or "" at the end of the row. */
  function NextCell(cells: seq<string>, m: nat): string
  {
    if m + 1 < |cells| then cells[m + 1] else ""
  }

  /** The sides are drawn from the cells around the tracked team's index
      `m`: the score is "-" or a result cell, the tracked team is the home
      or the away side, the home side is the tracked team or its left
      neighbour, and the away side is the tracked team, its right neighbour
      or "???". */
  predicate SidesDrawnFrom(cells: seq<string>, m: nat, s: Sides)
    requires 0 < m < |cells|
  {
    && (s.tore == NoScore || IsResultCell(s.tore))
    && (s.heim == cells[m] || s.gast == cells[m])
    && (s.heim == cells[m] || s.heim == cells[m - 1])
    && (s.gast == cells[m] || s.gast == NextCell(cells, m) || s.gast == Placeholder)
  }

  /** Home team, away team and score as the scraper assigns them from the
      tracked team's index `m` (which is after the anchor, so `m > 0`). A
      score is kept exactly when the cell right of the tracked team is a
      result. */
  function ExtractSidesAsWritten(cells: seq<string>, m: nat): (s: Sides)
    requires 0 < m < |cells|
    ensures SidesDrawnFrom(cells, m, s)
    ensures s.tore != NoScore <==> IsResultCell(NextCell(cells, m))
  {
    var next := NextCell(cells, m);
    if IsResultCell(next) then
      Sides(cells[m - 1], cells[m], next)
    else
      var left := cells[m - 1];
      if IsTeamLike(next) then Sides(cells[m], next, NoScore)
      else if IsTeamLike(left) then Sides(left, cells[m], NoScore)
      else Sides(cells[m], if next != "" then next else Placeholder, NoScore)
  }

  /** A result right of the tracked team: the tracked team is the away
      side, the cell before it the home side, and the result the score. */
  lemma PlayedAway(cells: seq<string>, m: nat)
    requires 0 < m < |cells| && IsResultCell(NextCell(cells, m))
    ensures m + 1 < |cells|
    ensures ExtractSidesAsWritten(cells, m) == Sides(cells[m - 1], cells[m], cells[m + 1])
  {
    assert !HasScore("") && !Contains(Lower(""), "abges");
  }

  /** No result right of the tracked team: the score stays "-", and the
      assignment follows which neighbour looks like a team. */
  lemma NotYetPlayedAsWritten(cells: seq<string>, m: nat)
    requires 0 < m < |cells| && !IsResultCell(NextCell(cells, m))
    ensures var s := ExtractSidesAsWritten(cells, m);
            var next := NextCell(cells, m);
            && s.tore == NoScore
            && (IsTeamLike(next) ==> s.heim == cells[m] && s.gast == next)
            && (!IsTeamLike(next) && IsTeamLike(cells[m - 1]) ==> s.heim == cells[m - 1] && s.gast == cells[m])
            && (!IsTeamLike(next) && !IsTeamLike(cells[m - 1]) ==>
                  s.heim == cells[m] && s.gast == (if next == "" then Placeholder else next))
  {
  }

  /** The layout of a game the tracked team played at home: opponent right
      of it, result two cells right. */
  predicate HomeResultLayout(cells: seq<string>, m: nat)
  {
    m + 2 < |cells| && !IsResultCell(cells[m + 1]) && IsResultCell(cells[m + 2])
  }

  /** As written, a home game that was played loses its score: the
      opponent's name is not a result, so the row takes the not-yet-played
      branch and the score stays "-". */
  lemma HomeResultDroppedAsWritten()
    ensures var cells := ["Sa", "24.09.2025", "14:00", "Halle 7", "TV Birkesdorf", "HC Opponent", "24:22"];
            && HomeResultLayout(cells, 4)
            && ExtractSidesAsWritten(cells, 4) == Sides("TV Birkesdorf", "HC Opponent", NoScore)
  {
    var cells := ["Sa", "24.09.2025", "14:00", "Halle 7", "TV Birkesdorf", "HC Opponent", "24:22"];
    assert ScoreAt(cells[6], 1);
    assert !HasScore(cells[5]) && !HasTime(cells[5]) by {
      forall k: nat ensures !ScoreAt(cells[5], k) && !TimeAt(cells[5], k) {
        assert ':' !in cells[5];
        if k + 1 < |cells[5]| { assert cells[5][k + 1] in cells[5]; }
      }
    }
    assert Lower(cells[5]) == "hc opponent";
    FirstCharAbsent(Lower(cells[5]), "abges");
    assert !IsDigits(cells[5]) by { assert !IsDigit(cells[5][0]); }
  }

  /** The assignment the scraper's comments describe and its unreachable
      fallback branch performs: with the opponent right of the tracked team
      and the result after it, the tracked team is at home and the result is
      the score. Every other layout is read as written. It keeps the sides
      drawn from the same cells, and keeps a score exactly when a result
      stands right of the tracked team or two cells right of it after an
      opponent. */
  function ExtractSides(cells: seq<string>, m: nat): (s: Sides)
    requires 0 < m < |cells|
    ensures SidesDrawnFrom(cells, m, s)
    ensures s.tore != NoScore <==> IsResultCell(NextCell(cells, m)) || HomeResultLayout(cells, m)
    ensures HomeResultLayout(cells, m) ==> s.heim == cells[m] && IsResultCell(s.tore)
  {
    if HomeResultLayout(cells, m) then Sides(cells[m], cells[m + 1], cells[m + 2])
    else ExtractSidesAsWritten(cells, m)
  }

  /** A played home game now keeps its score. */
  lemma HomeResultRecorded()
    ensures var cells := ["Sa", "24.09.2025", "14:00", "Halle 7", "TV Birkesdorf", "HC Opponent", "24:22"];
            ExtractSides(cells, 4) == Sides("TV Birkesdorf", "HC Opponent", "24:22")
  {
    HomeResultDroppedAsWritten();
  }

  // ---------------------------------------------------------------------
  // Report link

  /** A report link: its lower-cased `href` names a download, PDF, meeting
      report or document, or its image's `alt` or `src` says PDF. */
  predicate IsReportLink(l: Link)
  {
    var href := Lower(l.href);
    || Contains(href, "download") || Contains(href, "pdf")
    || Contains(href, "meeting") || Contains(href, "nudokument")
    || (l.img.Some? && (Contains(Lower(l.img.value.alt), "pdf") || Contains(Lower(l.img.value.src), "pdf")))
  }

  /** The `href` of the first report link at index `i` or later. */
  function ReportLinkFrom(links: seq<Link>, i: nat): (r: Option<string>)
    ensures r.Some? ==> exists k :: i <= k < |links| && IsReportLink(links[k]) && r.value == links[k].href
                                     && forall j :: i <= j < k ==> !IsReportLink(links[j])
    ensures r.None? ==> forall j :: i <= j < |links| ==> !IsReportLink(links[j])
    decreases |links| - i
  {
    if i >= |links| then None
    else if IsReportLink(links[i]) then Some(links[i].href)
    else ReportLinkFrom(links, i + 1)
  }

  /** The link loop of a row, stopping at the first report link. */
  method FindReportLink(links: seq<Link>) returns (pdfLink: Option<string>)
    ensures pdfLink == ReportLinkFrom(links, 0)
  {
    pdfLink := None;
    for i := 0 to |links|
      invariant pdfLink == None
      invariant ReportLinkFrom(links, 0) == ReportLinkFrom(links, i)
    {
      var link := links[i];
      var href := Lower(link.href);
      var isReport := false;
      if Contains(href, "download") || Contains(href, "pdf") || Contains(href, "meeting") || Contains(href, "nudokument") {
        isReport := true;
      }
      match link.img {
        case Some(img) =>
          if Contains(Lower(img.alt), "pdf") || Contains(Lower(img.src), "pdf") {
            isReport := true;
          }
        case None =>
      }
      if isReport {
        pdfLink := Some(link.href);
        break;
      }
    }
  }

  // ---------------------------------------------------------------------
  // One row, one table

  /** The game a row yields under the date `datum`: none without a time
      anchor, none without the tracked team after the anchor. A game carries
      the date it was read under and a kick-off time, and `weAreHome` is the
      matching rule on its home side. */
  function RowGame(row: Row, datum: string, f: TeamFilter): (r: Option<Game>)
    ensures r.Some? ==> r.value.datum == datum && HasTime(r.value.zeit)
                        && r.value.weAreHome == TeamMatches(r.value.heim, f)
  {
    match TimeAnchor(row.cells)
    case None => None
    case Some(t) =>
      match TrackedFrom(row.cells, t + 1, f)
      case None => None
      case Some(m) =>
        var s := ExtractSidesAsWritten(row.cells, m);
        Some(Game(datum, row.cells[t], s.heim, s.gast, s.tore,
                  ReportLinkFrom(row.links, 0), TeamMatches(s.heim, f)))
  }

  /** A row yields a game exactly when some cell up to index 5 has a time
      and a cell after the first such one names the tracked team. */
  lemma RowGameExists(row: Row, datum: string, f: TeamFilter)
    ensures var cells := row.cells;
            RowGame(row, datum, f).Some? <==>
              exists t :: 0 <= t < |cells| && t <= MaxAnchor && HasTime(cells[t])
                          && (forall j :: 0 <= j < t ==> !HasTime(cells[j]))
                          && exists m :: t < m < |cells| && TeamMatches(cells[m], f)
  {
    var cells := row.cells;
    match TimeAnchor(cells)
    case None =>
    case Some(t) =>
      match TrackedFrom(cells, t + 1, f)
      case None =>
        forall t' | 0 <= t' < |cells| && t' <= MaxAnchor && HasTime(cells[t'])
                    && (forall j :: 0 <= j < t' ==> !HasTime(cells[j]))
          ensures forall m :: t' < m < |cells| ==> !TeamMatches(cells[m], f)
        {
          assert t' == t;
        }
      case Some(m) =>
  }

  /** The fields of a row's game: its time is the first cell up to index 5
      with a time, the tracked team is the first match after it and is the
      home or the away side, the other side is its neighbour or "???", the
      score is "-" or a result and is kept exactly when a result stands
      right of the tracked team, and `weAreHome` applies the matching rule
      to the home side. */
  lemma RowGameFields(row: Row, datum: string, f: TeamFilter)
    requires RowGame(row, datum, f).Some?
    ensures var cells := row.cells;
            var g := RowGame(row, datum, f).value;
            exists t, m ::
              && 0 <= t < m < |cells| && t <= MaxAnchor && HasTime(cells[t])
              && (forall j :: 0 <= j < t ==> !HasTime(cells[j]))
              && TeamMatches(cells[m], f)
              && (forall j :: t < j < m ==> !TeamMatches(cells[j], f))
              && g.zeit == cells[t] && g.datum == datum
              && (g.heim == cells[m] || g.gast == cells[m])
              && (g.heim == cells[m] || g.heim == cells[m - 1])
              && (g.gast == cells[m] || g.gast == NextCell(cells, m) || g.gast == Placeholder)
              && (g.tore == NoScore || IsResultCell(g.tore))
              && (g.tore != NoScore <==> IsResultCell(NextCell(cells, m)))
              && g.weAreHome == TeamMatches(g.heim, f)
              && g.pdf == ReportLinkFrom(row.links, 0)
  {
    var cells := row.cells;
    var t := TimeAnchor(cells).value;
    var m := TrackedFrom(cells, t + 1, f).value;
    var s := ExtractSidesAsWritten(cells, m);
    var g := RowGame(row, datum, f).value;
    assert g == Game(datum, cells[t], s.heim, s.gast, s.tore, ReportLinkFrom(row.links, 0), TeamMatches(s.heim, f));
    assert 0 <= t < m < |cells| && t <= MaxAnchor && HasTime(cells[t]);
    assert TeamMatches(cells[m], f) && forall j :: t < j < m ==> !TeamMatches(cells[j], f);
  }

  /** What each row of a table yields, read under the cursor as that row
      left it. */
  function RowResults(rows: seq<Row>, f: TeamFilter): (rs: seq<Option<Game>>)
    ensures |rs| == |rows|
    ensures forall i :: 0 <= i < |rows| ==> rs[i] == RowGame(rows[i], DateCursor(rows, i + 1), f)
  {
    seq(|rows|, i requires 0 <= i < |rows| => RowGame(rows[i], DateCursor(rows, i + 1), f))
  }

  /** The games of one table, in row order. */
  function TableGames(rows: seq<Row>, f: TeamFilter): seq<Game>
  {
    Emitted(RowResults(rows, f))
  }

  /** The games are those of the single rows, at most one per row, each
      dated by the cursor after its own row. */
  lemma GamesFromRows(rows: seq<Row>, f: TeamFilter)
    ensures |TableGames(rows, f)| <= |rows|
    ensures forall g :: g in TableGames(rows, f) <==>
              exists i :: 0 <= i < |rows| && RowGame(rows[i], DateCursor(rows, i + 1), f) == Some(g)
  {
    var rs := RowResults(rows, f);
    EmittedMembers(rs);
    forall g ensures Some(g) in rs <==> exists i :: 0 <= i < |rows| && RowGame(rows[i], DateCursor(rows, i + 1), f) == Some(g) {
      if Some(g) in rs {
        var i :| 0 <= i < |rs| && rs[i] == Some(g);
      }
    }
  }

  /** Every game of a table is dated "Unbekannt" or by a date row of the
      same table: the cursor never carries a date in from elsewhere. */
  lemma GamesDatedWithinTable(rows: seq<Row>, f: TeamFilter)
    ensures forall g :: g in TableGames(rows, f) ==> DatedWithin(rows, |rows|, g.datum)
  {
    GamesFromRows(rows, f);
    forall g | g in TableGames(rows, f) ensures DatedWithin(rows, |rows|, g.datum) {
      var r :| 0 <= r < |rows| && RowGame(rows[r], DateCursor(rows, r + 1), f) == Some(g);
      var d := DateCursor(rows, r + 1);
      assert DatedWithin(rows, r + 1, d);
    }
  }

  /** The date step of the row loop: a row with more than two cells and a
      `D.M.` in cell 1 moves the cursor. */
  method CarryDate(cols: seq<string>, currentDate: string) returns (newDate: string)
    ensures newDate == RowDate(cols, currentDate)
  {
    newDate := currentDate;
    if |cols| > 2 && Contains(cols[1], ".") {
      if HasDayMonth(cols[1]) {
        var rawDate := cols[1];
        match FirstFullDate(rawDate) {
          case Some(full) => newDate := full;
          case None => newDate := rawDate;
        }
      }
    }
  }

  /** The rest of the row loop's body: `None` where it `continue`s, else
      the game it appends. */
  method ReadGame(row: Row, currentDate: string, f: TeamFilter) returns (game: Option<Game>)
    ensures game == RowGame(row, currentDate, f)
  {
    var cols := row.cells;
    var timeIndex := FindTimeIndex(cols);
    if timeIndex == -1 { return None; }
    var zeit := cols[timeIndex];

    var myTeamIdx := FindTrackedIndex(cols, timeIndex, f);
    if myTeamIdx == -1 { return None; }

    var sides := ExtractSidesAsWritten(cols, myTeamIdx);
    var pdfLink := FindReportLink(row.links);
    var weAreHome := CheckTeamMatch(sides.heim, f);
    return Some(Game(currentDate, zeit, sides.heim, sides.gast, sides.tore, pdfLink, weAreHome));
  }

  /** The row loop of the schedule branch: the date cursor starts at
      "Unbekannt", each row may move it, and a row with a time anchor and
      the tracked team after it appends one game. */
  method ScanFixtureTable(rows: seq<Row>, f: TeamFilter) returns (games: seq<Game>)
    ensures games == TableGames(rows, f)
  {
    ghost var results := RowResults(rows, f);
    games := [];
    var currentDate := UnknownDate;
    for r := 0 to |rows|
      invariant games == Emitted(results[..r])
      invariant currentDate == DateCursor(rows, r)
    {
      EmittedSnoc(results, r);
      var cols := rows[r].cells;
      if cols == [] {
        assert DateCursor(rows, r + 1) == currentDate;
        assert results[r] == None;
        continue;
      }
      currentDate := CarryDate(cols, currentDate);
      assert currentDate == DateCursor(rows, r + 1);
      var game := ReadGame(rows[r], currentDate, f);
      assert game == results[r];
      match game {
        case Some(g) => games := games + [g];
        case None =>
      }
    }
    assert results[..|rows|] == results;
  }

  // ---------------------------------------------------------------------
  // Two row layouts: a full row and a continuation row

  /** A full row: weekday, date, time, hall, home, away, result. The anchor
      is the time in cell 2 and the date cell sets the cursor. */
  lemma FullRowExample()
    ensures var cells := ["Sa", "24.09.2025", "14:00", "Halle 7", "HC Opponent", "TV Birkesdorf", "24:22"];
            && TimeAnchor(cells) == Some(2)
            && RowDate(cells, UnknownDate) == "24.09.2025"
  {
    var cells := ["Sa", "24.09.2025", "14:00", "Halle 7", "HC Opponent", "TV Birkesdorf", "24:22"];
    assert TimeAt(cells[2], 1);
    assert ':' !in cells[0] && ':' !in cells[1];
    forall c: nat, k: nat | c < 2 ensures !TimeAt(cells[c], k) {
      if k + 1 < |cells[c]| { assert cells[c][k + 1] in cells[c]; }
    }
    assert DayMonthAt(cells[1], 1);
    assert OccursAt(cells[1], ".", 2);
    assert DateShape(cells[1][0..10], 2, 2);
  }

  /** A continuation row: no weekday or date, the time in cell 0. The
      anchor is 0 and the cursor keeps its value. */
  lemma ContinuationRowExample(current: string)
    ensures var cells := ["14:30", "Halle 7", "HC Other", "TV Birkesdorf", "-"];
            && TimeAnchor(cells) == Some(0)
            && RowDate(cells, current) == current
  {
    var cells := ["14:30", "Halle 7", "HC Other", "TV Birkesdorf", "-"];
    assert TimeAt(cells[0], 1);
    FirstCharAbsent(cells[1], ".");
  }

  /** When the tracked team directly follows the time, a result right of it
      makes the time cell the home side. */
  lemma TimeCellAsHome()
    ensures var cells := ["14:00", "TV Birkesdorf", "24:22"];
            && TimeAnchor(cells) == Some(0)
            && ExtractSidesAsWritten(cells, 1) == Sides("14:00", "TV Birkesdorf", "24:22")
  {
    var cells := ["14:00", "TV Birkesdorf", "24:22"];
    assert TimeAt(cells[0], 1);
    assert ScoreAt(cells[2], 1);
  }

  /** A hall name is not a team of the club. */
  lemma HallNamesNoClub()
    ensures !MentionsClub(Lower("Halle 7"))
  {
    var hall := Lower("Halle 7");
    assert hall == "halle 7";
    FirstCharAbsent(hall, "birkesdorf");
    FirstCharAbsent(hall, "btv");
  }

  /** The club's own name passes the club test. */
  lemma ClubNamed()
    ensures MentionsClub(Lower("TV Birkesdorf"))
  {
    var own := Lower("TV Birkesdorf");
    assert own == "tv birkesdorf";
    assert OccursAt(own, "birkesdorf", 3);
  }

  /** In the row of the finding the hall is not a team of the club and the
      first cell after the time that names one is that of "TV Birkesdorf". */
  lemma FindingRowTracked()
    ensures var cells := ["Sa", "24.09.2025", "14:00", "Halle 7", "TV Birkesdorf", "HC Opponent", "24:22"];
            var f := TeamFilter(NoFilter, NoFilter);
            TrackedFrom(cells, 3, f) == Some(4) && TeamMatches("TV Birkesdorf", f)
  {
    HallNamesNoClub();
    ClubNamed();
  }

  /** The row of the finding, scanned as written with no filter: the game is
      found with the tracked team at home, and its result is lost. */
  lemma HomeResultDroppedInRow(datum: string)
    ensures var cells := ["Sa", "24.09.2025", "14:00", "Halle 7", "TV Birkesdorf", "HC Opponent", "24:22"];
            RowGame(Row(cells, []), datum, TeamFilter(NoFilter, NoFilter))
              == Some(Game(datum, "14:00", "TV Birkesdorf", "HC Opponent", NoScore, None, true))
  {
    FullRowExample();
    FindingRowTracked();
    HomeResultDroppedAsWritten();
  }
}
