/** Deciding whether a team name belongs to the tracked club (the nested
    `check_team_match` of `scrape_games`). */
module TeamMatch {
  import opened Text

  /** One filter argument of `scrape_games`: `None`, a single string, or a
      list of strings. */
  datatype Filter = NoFilter | Token(token: string) | AnyOf(tokens: seq<string>)

  /** The include and exclude filters configured for one tracked team. */
  datatype TeamFilter = TeamFilter(includes: Filter, excludes: Filter)

  /** Python truthiness of a filter argument: `None`, `""` and `[]` all
      count as "not set". */
  predicate IsSet(fl: Filter)
  {
    match fl
    case NoFilter => false
    case Token(t) => t != ""
    case AnyOf(ts) => ts != []
  }

  /** Some token of the filter, lower-cased, occurs in `lowerName`. */
  predicate AnyTokenIn(fl: Filter, lowerName: string)
  {
    match fl
    case NoFilter => false
    case Token(t) => Contains(lowerName, Lower(t))
    case AnyOf(ts) => exists i | 0 <= i < |ts| :: Contains(lowerName, Lower(ts[i]))
  }

  /** The club's two spellings, one of which every own team carries. */
  predicate MentionsClub(lowerName: string)
  {
    Contains(lowerName, "birkesdorf") || Contains(lowerName, "btv")
  }

  /** The matching rule: the club must be named, a set include filter must
      have a token in the name, and no token of a set exclude filter may
      occur in it. All comparisons ignore ASCII case. */
  predicate TeamMatches(name: string, f: TeamFilter)
  {
    var n := Lower(name);
    && MentionsClub(n)
    && (IsSet(f.includes) ==> AnyTokenIn(f.includes, n))
    && !(IsSet(f.excludes) && AnyTokenIn(f.excludes, n))
  }

  /** `check_team_match`, with its early returns and its `match_any` loop. */
  method CheckTeamMatch(name: string, f: TeamFilter) returns (r: bool)
    ensures r <==> && MentionsClub(Lower(name))
                   && (IsSet(f.includes) ==> AnyTokenIn(f.includes, Lower(name)))
                   && !(IsSet(f.excludes) && AnyTokenIn(f.excludes, Lower(name)))
    ensures r == TeamMatches(name, f)
  {
    var nameLower := Lower(name);
    if !Contains(nameLower, "birkesdorf") && !Contains(nameLower, "btv") {
      return false;
    }
    if IsSet(f.includes) {
      match f.includes {
        case AnyOf(items) =>
          var matchAny := false;
          for i := 0 to |items|
            invariant matchAny <==> exists j | 0 <= j < i :: Contains(nameLower, Lower(items[j]))
          {
            if Contains(nameLower, Lower(items[i])) {
              matchAny := true;
            }
          }
          if !matchAny {
            return false;
          }
        case Token(t) =>
          if !Contains(nameLower, Lower(t)) {
            return false;
          }
      }
    }
    if IsSet(f.excludes) {
      match f.excludes {
        case AnyOf(items) =>
          for i := 0 to |items|
            invariant forall j | 0 <= j < i :: !Contains(nameLower, Lower(items[j]))
          {
            if Contains(nameLower, Lower(items[i])) {
              return false;
            }
          }
        case Token(t) =>
          if Contains(nameLower, Lower(t)) {
            return false;
          }
      }
    }
    return true;
  }

  // ---------------------------------------------------------------------
  // The rule on the configured teams: the first and second side of a club
  // that share one division page, told apart by the figure in the name.

  /** The first side: no include filter, exclude "II" and "2". */
  function FirstSide(): TeamFilter { TeamFilter(NoFilter, AnyOf(["II", "2"])) }

  /** The second side: include "II" or "2", no exclude filter. */
  function SecondSide(): TeamFilter { TeamFilter(AnyOf(["II", "2"]), NoFilter) }

  lemma ReserveSideSeparated()
    ensures TeamMatches("TV Birkesdorf II", SecondSide())
    ensures !TeamMatches("TV Birkesdorf II", FirstSide())
  {
    var n := Lower("TV Birkesdorf II");
    assert n == "tv birkesdorf ii";
    assert OccursAt(n, "birkesdorf", 3);
    assert Lower(["II", "2"][0]) == "ii";
    assert OccursAt(n, "ii", 14);
  }

  lemma FirstSideAccepted()
    ensures TeamMatches("BTV", FirstSide())
    ensures !TeamMatches("BTV", SecondSide())
  {
    var n := Lower("BTV");
    assert n == "btv";
    assert OccursAt(n, "btv", 0);
    assert Lower(["II", "2"][0]) == "ii" && Lower(["II", "2"][1]) == "2";
    FirstCharAbsent(n, "ii");
    FirstCharAbsent(n, "2");
  }

  /** Exclusion is applied last and vetoes a name the include filter
      accepted. */
  lemma ExcludeVetoesInclude()
    ensures !TeamMatches("BTV II", TeamFilter(AnyOf(["II"]), AnyOf(["II", "2"])))
  {
    var n := Lower("BTV II");
    assert n == "btv ii";
    assert Lower(["II", "2"][0]) == "ii";
    assert OccursAt(n, "ii", 4);
  }
}
