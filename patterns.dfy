/** The regular expressions the scraper searches cell texts with, as
    predicates on strings. Each `re.search` asks whether the pattern matches
    at some position; for the patterns here that reduces to a short window
    of fixed shape, and the lemmas `TimeRegexAgrees` and `ScoreRegexAgrees`
    show the reduction loses nothing. The full-date search keeps its
    leftmost-match result, because the scraper uses the matched text. */
module Patterns {
  import opened Wrappers
  import opened Text

  // ---------------------------------------------------------------------
  // \d{1,2}:\d{2}  (a kick-off time)

  /** A digit, ':', and two digits start at `k`. */
  predicate TimeAt(s: string, k: nat)
  {
    k + 3 < |s| && IsDigit(s[k]) && s[k + 1] == ':' && IsDigit(s[k + 2]) && IsDigit(s[k + 3])
  }

  /** `re.search(r'\d{1,2}:\d{2}', s)` succeeds. */
  predicate HasTime(s: string)
  {
    exists k: nat | k < |s| :: TimeAt(s, k)
  }

  /** The regular expression itself, matched at `p` with an hour of `h`
      digits. */
  predicate TimeRegexAt(s: string, p: nat, h: nat)
  {
    1 <= h <= 2 && p + h + 3 <= |s| && AllDigits(s[p..p + h]) && s[p + h] == ':'
    && IsDigit(s[p + h + 1]) && IsDigit(s[p + h + 2])
  }

  /** A one- or two-digit hour matches somewhere exactly when the one-digit
      window does: a two-digit match contains a one-digit one. */
  lemma TimeRegexAgrees(s: string)
    ensures HasTime(s) <==> exists p: nat, h: nat :: TimeRegexAt(s, p, h)
  {
    if HasTime(s) {
      var k: nat :| k < |s| && TimeAt(s, k);
      assert s[k..k + 1][0] == s[k];
      assert TimeRegexAt(s, k, 1);
    }
    if p: nat, h: nat :| TimeRegexAt(s, p, h) {
      assert IsDigit(s[p..p + h][h - 1]);
      assert TimeAt(s, p + h - 1);
    }
  }

  // ---------------------------------------------------------------------
  // \d+:\d+  (a final score)

  predicate ScoreAt(s: string, k: nat)
  {
    k + 2 < |s| && IsDigit(s[k]) && s[k + 1] == ':' && IsDigit(s[k + 2])
  }

  /** `re.search(r'\d+:\d+', s)` succeeds. */
  predicate HasScore(s: string)
  {
    exists k: nat | k < |s| :: ScoreAt(s, k)
  }

  /** The regular expression matched at `p` with `a` digits before the
      colon and `b` after it. */
  predicate ScoreRegexAt(s: string, p: nat, a: nat, b: nat)
  {
    1 <= a && 1 <= b && p + a + 1 + b <= |s| && AllDigits(s[p..p + a]) && s[p + a] == ':'
    && AllDigits(s[p + a + 1..p + a + 1 + b])
  }

  lemma ScoreRegexAgrees(s: string)
    ensures HasScore(s) <==> exists p: nat, a: nat, b: nat :: ScoreRegexAt(s, p, a, b)
  {
    if HasScore(s) {
      var k: nat :| k < |s| && ScoreAt(s, k);
      assert s[k..k + 1][0] == s[k] && s[k + 2..k + 3][0] == s[k + 2];
      assert ScoreRegexAt(s, k, 1, 1);
    }
    if p: nat, a: nat, b: nat :| ScoreRegexAt(s, p, a, b) {
      assert IsDigit(s[p..p + a][a - 1]);
      assert IsDigit(s[p + a + 1..p + a + 1 + b][0]);
      assert ScoreAt(s, p + a - 1);
    }
  }

  /** Every text with a kick-off time also matches the score pattern. */
  lemma TimeIsScore(s: string)
    ensures HasTime(s) ==> HasScore(s)
  {
    if HasTime(s) {
      var k: nat :| k < |s| && TimeAt(s, k);
      assert ScoreAt(s, k);
    }
  }

  // ---------------------------------------------------------------------
  // \d{1,2}\.\d{1,2}\.  (a day and a month)

  /** A digit, '.', then one or two digits and '.' start at `k`; a two-digit
      day is covered by the match that starts at its second digit. */
  predicate DayMonthAt(s: string, k: nat)
  {
    k + 3 < |s| && IsDigit(s[k]) && s[k + 1] == '.' && IsDigit(s[k + 2])
    && (s[k + 3] == '.' || (k + 4 < |s| && IsDigit(s[k + 3]) && s[k + 4] == '.'))
  }

  /** `re.search(r'\d{1,2}\.\d{1,2}\.', s)` succeeds. */
  predicate HasDayMonth(s: string)
  {
    exists k: nat | k < |s| :: DayMonthAt(s, k)
  }

  /** The regular expression matched at `p` with a day of `a` and a month
      of `b` digits. */
  predicate DayMonthRegexAt(s: string, p: nat, a: nat, b: nat)
  {
    1 <= a <= 2 && 1 <= b <= 2 && p + a + b + 2 <= |s| && AllDigits(s[p..p + a]) && s[p + a] == '.'
    && AllDigits(s[p + a + 1..p + a + 1 + b]) && s[p + a + 1 + b] == '.'
  }

  /** A one- or two-digit day matches somewhere exactly when the window
      that starts at the day's last digit does. */
  lemma DayMonthRegexAgrees(s: string)
    ensures HasDayMonth(s) <==> exists p: nat, a: nat, b: nat :: DayMonthRegexAt(s, p, a, b)
  {
    if HasDayMonth(s) {
      var k: nat :| k < |s| && DayMonthAt(s, k);
      assert s[k..k + 1][0] == s[k];
      if s[k + 3] == '.' {
        assert s[k + 2..k + 3][0] == s[k + 2];
        assert DayMonthRegexAt(s, k, 1, 1);
      } else {
        assert s[k + 2..k + 4][0] == s[k + 2] && s[k + 2..k + 4][1] == s[k + 3];
        assert DayMonthRegexAt(s, k, 1, 2);
      }
    }
    if p: nat, a: nat, b: nat :| DayMonthRegexAt(s, p, a, b) {
      var day, month := s[p..p + a], s[p + a + 1..p + a + 1 + b];
      assert AllDigits(day) && AllDigits(month);
      assert IsDigit(day[a - 1]) && day[a - 1] == s[p + a - 1];
      assert IsDigit(month[0]) && month[0] == s[p + a + 1];
      if b == 2 {
        assert IsDigit(month[1]) && month[1] == s[p + a + 2];
      }
      assert DayMonthAt(s, p + a - 1);
    }
  }

  // ---------------------------------------------------------------------
  // (\d{1,2}\.\d{1,2}\.\d{4})  (a full date, whose matched text is used)

  /** `d` is a day of `a` digits, '.', a month of `b` digits, '.', and a
      four-digit year, and nothing else. */
  predicate DateShape(d: string, a: nat, b: nat)
  {
    1 <= a <= 2 && 1 <= b <= 2 && |d| == a + b + 6
    && AllDigits(d[..a]) && d[a] == '.' && AllDigits(d[a + 1..a + 1 + b])
    && d[a + 1 + b] == '.' && AllDigits(d[a + 2 + b..])
  }

  /** `d` is, in full, a match of `\d{1,2}\.\d{1,2}\.\d{4}`. */
  predicate IsFullDate(d: string)
  {
    DateShape(d, 1, 1) || DateShape(d, 1, 2) || DateShape(d, 2, 1) || DateShape(d, 2, 2)
  }

  /** In a full date the day has one digit exactly when its second
      character is '.', and the month likewise. */
  lemma DateShapeFields(d: string, a: nat, b: nat)
    requires DateShape(d, a, b)
    ensures a == 1 <==> d[1] == '.'
    ensures b == 1 <==> d[a + 2] == '.'
  {
    if a == 2 { assert d[..a][1] == d[1]; }
    if b == 2 { assert d[a + 1..a + 1 + b][1] == d[a + 2]; }
  }

  /** At a given start there is at most one full-date match: the position
      of the first '.' fixes the day, that of the second the month, and the
      year is four digits. So the order in which the regular-expression
      engine tries the alternatives does not matter. */
  lemma {:induction false} FullDateUnique(s: string, k: nat, j1: nat, j2: nat)
    requires k <= j1 <= |s| && k <= j2 <= |s|
    requires IsFullDate(s[k..j1]) && IsFullDate(s[k..j2])
    ensures j1 == j2
  {
    var d1, d2 := s[k..j1], s[k..j2];
    var a1 := if DateShape(d1, 1, 1) || DateShape(d1, 1, 2) then 1 else 2;
    var b1 := if DateShape(d1, a1, 1) then 1 else 2;
    var a2 := if DateShape(d2, 1, 1) || DateShape(d2, 1, 2) then 1 else 2;
    var b2 := if DateShape(d2, a2, 1) then 1 else 2;
    DateShapeFields(d1, a1, b1);
    DateShapeFields(d2, a2, b2);
    assert d1[1] == s[k + 1] == d2[1];
    assert d1[a1 + 2] == s[k + a1 + 2] == d2[a2 + 2];
  }

  /** The full date that matches starting exactly at `k`, if one does. */
  function FullDateAt(s: string, k: nat): (r: Option<string>)
    requires k <= |s|
    ensures r.Some? ==> IsFullDate(r.value) && k + |r.value| <= |s| && r.value == s[k..k + |r.value|]
    ensures forall j :: k <= j <= |s| && IsFullDate(s[k..j]) ==> r == Some(s[k..j])
  {
    var r :=
      if k + 8 <= |s| && IsFullDate(s[k..k + 8]) then Some(s[k..k + 8])
      else if k + 9 <= |s| && IsFullDate(s[k..k + 9]) then Some(s[k..k + 9])
      else if k + 10 <= |s| && IsFullDate(s[k..k + 10]) then Some(s[k..k + 10])
      else None;
    assert forall j :: k <= j <= |s| && IsFullDate(s[k..j]) ==> r == Some(s[k..j]) by {
      forall j | k <= j <= |s| && IsFullDate(s[k..j]) ensures r == Some(s[k..j]) {
        if r.Some? { FullDateUnique(s, k, k + |r.value|, j); }
      }
    }
    r
  }

  /** `re.search(r'(\d{1,2}\.\d{1,2}\.\d{4})', s[k..])`: the match that
      starts leftmost. */
  function FirstFullDateFrom(s: string, k: nat): (r: Option<string>)
    requires k <= |s|
    ensures r.Some? ==> exists p :: k <= p <= |s| && FullDateAt(s, p) == r
                          && forall q :: k <= q < p ==> FullDateAt(s, q).None?
    ensures r.None? ==> forall p :: k <= p <= |s| ==> FullDateAt(s, p).None?
    decreases |s| - k
  {
    if FullDateAt(s, k).Some? then FullDateAt(s, k)
    else if k == |s| then None
    else FirstFullDateFrom(s, k + 1)
  }

  function FirstFullDate(s: string): Option<string>
  {
    FirstFullDateFrom(s, 0)
  }

  /** In terms of the text alone: no infix is a full date, or the result is
      a full-date infix that no full-date infix starts before. */
  lemma FirstFullDateIsLeftmost(s: string)
    ensures FirstFullDate(s).None? ==> forall q, j :: 0 <= q <= j <= |s| ==> !IsFullDate(s[q..j])
    ensures FirstFullDate(s).Some? ==>
              var d := FirstFullDate(s).value;
              && IsFullDate(d)
              && exists p, e :: 0 <= p <= e <= |s| && s[p..e] == d
                                && forall q, j :: 0 <= q < p && q <= j <= |s| ==> !IsFullDate(s[q..j])
  {
    var r := FirstFullDateFrom(s, 0);
    if r.None? {
      forall q, j | 0 <= q <= j <= |s| ensures !IsFullDate(s[q..j]) {
        assert FullDateAt(s, q).None?;
      }
    } else {
      var p :| 0 <= p <= |s| && FullDateAt(s, p) == r && forall q :: 0 <= q < p ==> FullDateAt(s, q).None?;
      forall q, j | 0 <= q < p && q <= j <= |s| ensures !IsFullDate(s[q..j]) {
        assert FullDateAt(s, q).None?;
      }
      assert s[p..p + |r.value|] == r.value;
    }
  }
}
