/** The handful of Python string operations the scraper relies on, restricted
    to ASCII: `str.lower`, `str.isdigit`, `in` on strings, `str.strip`,
    `str.split` and `int(...)`. */
module Text {
  import opened Wrappers

  predicate IsDigit(c: char) { '0' <= c <= '9' }

  /** Every character is an ASCII digit (the empty string included). */
  predicate AllDigits(s: string) { forall i :: 0 <= i < |s| ==> IsDigit(s[i]) }

  /** Python's `s.isdigit()`: false on the empty string. */
  predicate IsDigits(s: string) { |s| > 0 && AllDigits(s) }

  function LowerChar(c: char): char
  {
    if 'A' <= c <= 'Z' then (c as int + 32) as char else c
  }

  /** Python's `s.lower()` on ASCII letters; other characters are kept. */
  function Lower(s: string): string
  {
    seq(|s|, i requires 0 <= i < |s| => LowerChar(s[i]))
  }

  /** Lower-casing twice is lower-casing once. */
  lemma LowerIdempotent(s: string)
    ensures Lower(Lower(s)) == Lower(s)
  {
  }

  /** `needle` occurs in `hay` starting at position `k`. */
  predicate OccursAt(hay: string, needle: string, k: nat)
  {
    k + |needle| <= |hay| && hay[k..k + |needle|] == needle
  }

  /** Python's `needle in hay`: `needle` occurs somewhere in `hay`. */
  function Contains(hay: string, needle: string): (r: bool)
    ensures r <==> exists k: nat :: OccursAt(hay, needle, k)
    decreases |hay|
  {
    if |needle| > |hay| then false
    else if hay[..|needle|] == needle then
      assert OccursAt(hay, needle, 0);
      true
    else
      var r := Contains(hay[1..], needle);
      assert forall k: nat :: OccursAt(hay[1..], needle, k) <==> OccursAt(hay, needle, k + 1) by {
        forall k: nat ensures OccursAt(hay[1..], needle, k) <==> OccursAt(hay, needle, k + 1) {
          if k + 1 + |needle| <= |hay| {
            assert hay[1..][k..k + |needle|] == hay[k + 1..k + 1 + |needle|];
          }
        }
      }
      assert !OccursAt(hay, needle, 0);
      assert (exists k: nat :: OccursAt(hay, needle, k)) ==> exists k: nat :: OccursAt(hay[1..], needle, k) by {
        if k: nat :| OccursAt(hay, needle, k) {
          assert k > 0 && OccursAt(hay[1..], needle, k - 1);
        }
      }
      r
  }

  /** A needle whose first character does not occur in the name is not in
      it. */
  lemma FirstCharAbsent(hay: string, needle: string)
    requires needle != [] && needle[0] !in hay
    ensures !Contains(hay, needle)
  {
    forall k: nat ensures !OccursAt(hay, needle, k) {
      if k + |needle| <= |hay| {
        assert hay[k..k + |needle|][0] == hay[k];
      }
    }
  }

  /** The ASCII characters for which Python's `str.isspace()` holds. */
  predicate IsSpace(c: char)
  {
    c == ' ' || 9 <= c as int <= 13 || 28 <= c as int <= 31
  }

  /** Every character of `t` is whitespace. */
  predicate AllSpace(t: string)
  {
    forall i :: 0 <= i < |t| ==> IsSpace(t[i])
  }

  /** `s` without its leading whitespace: what is removed is whitespace, and
      what is kept does not start with any. */
  function StripLeft(s: string): (r: string)
    ensures |r| <= |s| && r == s[|s| - |r|..]
    ensures AllSpace(s[..|s| - |r|])
    ensures r == [] || !IsSpace(r[0])
    decreases |s|
  {
    if |s| > 0 && IsSpace(s[0]) then
      var r := StripLeft(s[1..]);
      assert s[..|s| - |r|] == [s[0]] + s[1..][..|s| - 1 - |r|];
      r
    else s
  }

  /** `s` without its trailing whitespace. */
  function StripRight(s: string): (r: string)
    ensures |r| <= |s| && r == s[..|r|]
    ensures AllSpace(s[|r|..])
    ensures r == [] || !IsSpace(r[|r| - 1])
    decreases |s|
  {
    if |s| > 0 && IsSpace(s[|s| - 1]) then
      var r := StripRight(s[..|s| - 1]);
      assert s[|r|..] == s[..|s| - 1][|r|..] + [s[|s| - 1]];
      r
    else s
  }

  /** Python's `s.strip()`. */
  function Strip(s: string): string
  {
    StripRight(StripLeft(s))
  }

  /** Neither end of `s` is whitespace, so `Strip` leaves it alone. */
  predicate NoOuterSpace(s: string)
  {
    s == [] || (!IsSpace(s[0]) && !IsSpace(s[|s| - 1]))
  }

  lemma StripUnchanged(s: string)
    requires NoOuterSpace(s)
    ensures Strip(s) == s
  {
  }

  /** `strip` removes whitespace from both ends and nothing else: the
      result is the infix of `s` between a run of leading and a run of
      trailing whitespace, it has no outer whitespace itself, and stripping
      again changes nothing. */
  lemma StripRemovesOuterSpace(s: string)
    ensures var r := Strip(s);
            && NoOuterSpace(r)
            && Strip(r) == r
            && exists i, e :: 0 <= i <= e <= |s| && s[i..e] == r && AllSpace(s[..i]) && AllSpace(s[e..])
  {
    var l := StripLeft(s);
    var r := StripRight(l);
    var i := |s| - |l|;
    var e := i + |r|;
    assert s[i..e] == r;
    assert s[e..] == l[|r|..];
    if r != [] {
      assert r[0] == l[0];
    }
    StripUnchanged(r);
  }

  /** Every character of the stripped text is one of the text. */
  lemma StripKeepsCharacters(s: string)
    ensures forall c :: c in Strip(s) ==> c in s
  {
    var l := StripLeft(s);
    var r := StripRight(l);
    forall c | c in r ensures c in s {
      var k :| 0 <= k < |r| && r[k] == c;
      assert l[k] == c;
      assert s[|s| - |l| + k] == c;
    }
  }

  /** Python's `s.split(sep)` for a one-character separator: the pieces
      between the separators, so always one more piece than separators. */
  function Split(s: string, sep: char): (parts: seq<string>)
    ensures |parts| >= 1
    decreases |s|
  {
    if |s| == 0 then [""]
    else
      var rest := Split(s[1..], sep);
      if s[0] == sep then [""] + rest
      else [[s[0]] + rest[0]] + rest[1..]
  }

  lemma {:induction false} SplitNoSeparator(s: string, sep: char)
    requires sep !in s
    ensures Split(s, sep) == [s]
    decreases |s|
  {
    if |s| > 0 {
      SplitNoSeparator(s[1..], sep);
      assert [s[0]] + s[1..] == s;
    }
  }

  /** A leading piece without the separator is split off whole. */
  lemma {:induction false} SplitCons(p: string, rest: string, sep: char)
    requires sep !in p
    ensures Split(p + [sep] + rest, sep) == [p] + Split(rest, sep)
    decreases |p|
  {
    if |p| == 0 {
      assert p + [sep] + rest == [sep] + rest;
      assert ([sep] + rest)[1..] == rest;
    } else {
      assert (p + [sep] + rest)[1..] == p[1..] + [sep] + rest;
      SplitCons(p[1..], rest, sep);
      assert [p[0]] + p[1..] == p;
    }
  }

  /** Splitting `p + [sep] + q`, where neither piece holds the separator,
      gives back exactly the two pieces. */
  lemma SplitTwo(p: string, q: string, sep: char)
    requires sep !in p && sep !in q
    ensures Split(p + [sep] + q, sep) == [p, q]
  {
    SplitCons(p, q, sep);
    SplitNoSeparator(q, sep);
  }

  /** Python's `sep.join(parts)`. */
  function Join(parts: seq<string>, sep: char): string
    requires |parts| >= 1
  {
    if |parts| == 1 then parts[0] else parts[0] + [sep] + Join(parts[1..], sep)
  }

  /** A string without the separator splits into one piece. */
  lemma SplitNeedsSeparator(s: string, sep: char)
    ensures sep !in s ==> |Split(s, sep)| == 1
  {
    if sep !in s {
      SplitNoSeparator(s, sep);
    }
  }

  /** Joining the pieces with the separator gives back the string. */
  lemma {:induction false} SplitJoin(s: string, sep: char)
    ensures Join(Split(s, sep), sep) == s
    decreases |s|
  {
    if |s| > 0 {
      var rest := Split(s[1..], sep);
      SplitJoin(s[1..], sep);
      if s[0] == sep {
        assert ([""] + rest)[1..] == rest;
        assert [s[0]] + s[1..] == s;
      } else {
        var parts := [[s[0]] + rest[0]] + rest[1..];
        if |rest| == 1 {
          assert [s[0]] + s[1..] == s;
        } else {
          assert parts[1..] == rest[1..];
          assert Join(rest, sep) == rest[0] + [sep] + Join(rest[1..], sep);
          assert s == [s[0]] + s[1..];
        }
      }
    }
  }

  /** The value of a string of decimal digits, read left to right. */
  function DigitsValue(s: string): (n: nat)
    requires AllDigits(s)
    decreases |s|
  {
    if |s| == 0 then 0
    else 10 * DigitsValue(s[..|s| - 1]) + (s[|s| - 1] as int - '0' as int)
  }

  /** A decimal literal with nothing around it: one optional sign, then at
      least one digit. */
  function ParseLiteral(t: string): (r: Option<int>)
    ensures r.Some? <==> (IsDigits(t) || (|t| > 1 && t[0] in "+-" && IsDigits(t[1..])))
    ensures IsDigits(t) ==> r == Some(DigitsValue(t))
    ensures |t| > 1 && t[0] == '-' && IsDigits(t[1..]) ==> r.Some? && r.value == -(DigitsValue(t[1..]) as int)
    ensures |t| > 1 && t[0] == '+' && IsDigits(t[1..]) ==> r == Some(DigitsValue(t[1..]))
  {
    if IsDigits(t) then Some(DigitsValue(t))
    else if |t| > 0 && (t[0] == '+' || t[0] == '-') && IsDigits(t[1..]) then
      Some(if t[0] == '-' then 0 - DigitsValue(t[1..]) else DigitsValue(t[1..]))
    else None
  }

  /** Python's `int(s)` on a decimal literal: surrounding whitespace is
      ignored, one optional sign, then at least one digit; anything else is
      the `ValueError` the caller catches. */
  function ParseInt(s: string): (r: Option<int>)
    ensures r.Some? <==> (IsDigits(Strip(s)) || (|Strip(s)| > 1 && Strip(s)[0] in "+-" && IsDigits(Strip(s)[1..])))
    ensures var t := Strip(s);
            && (IsDigits(t) ==> r == Some(DigitsValue(t)))
            && (|t| > 1 && t[0] == '-' && IsDigits(t[1..]) ==> r.Some? && r.value == -(DigitsValue(t[1..]) as int))
            && (|t| > 1 && t[0] == '+' && IsDigits(t[1..]) ==> r == Some(DigitsValue(t[1..])))
  {
    ParseLiteral(Strip(s))
  }

  /** The shortest decimal text of `n`, as `str(n)` prints it. */
  function NatText(n: nat): (t: string)
    ensures IsDigits(t)
    decreases n
  {
    var last := ('0' as int + n % 10) as char;
    if n < 10 then [last] else NatText(n / 10) + [last]
  }

  /** `str(n)` for any integer: a minus sign in front of a negative one. */
  function IntText(n: int): string
  {
    if n < 0 then "-" + NatText(-n) else NatText(n)
  }

  lemma {:induction false} NatTextValue(n: nat)
    ensures DigitsValue(NatText(n)) == n
    decreases n
  {
    if n >= 10 {
      NatTextValue(n / 10);
      var t := NatText(n);
      assert t[..|t| - 1] == NatText(n / 10);
    }
  }

  /** Text without outer whitespace is read as it stands. */
  lemma ParseIntUnstripped(t: string)
    requires NoOuterSpace(t)
    ensures ParseInt(t) == ParseLiteral(t)
  {
    StripUnchanged(t);
  }

  /** A digit string reads as its value. */
  lemma ParseIntOfDigits(d: string)
    requires IsDigits(d)
    ensures ParseInt(d) == Some(DigitsValue(d))
  {
    assert IsDigit(d[0]) && IsDigit(d[|d| - 1]);
    ParseIntUnstripped(d);
  }

  /** A minus sign before a digit string has no outer whitespace and reads
      as the negated digits. */
  lemma MinusDigits(d: string)
    requires IsDigits(d)
    ensures NoOuterSpace("-" + d)
    ensures ParseLiteral("-" + d) == Some(-(DigitsValue(d) as int))
  {
    var t := "-" + d;
    assert t[0] == '-' && t[1..] == d;
    assert t[|t| - 1] == d[|d| - 1];
    assert IsDigit(d[|d| - 1]);
  }

  /** A minus sign in front of a digit string negates its value. */
  lemma ParseIntOfNegative(d: string)
    requires IsDigits(d)
    ensures ParseInt("-" + d) == Some(-(DigitsValue(d) as int))
  {
    MinusDigits(d);
    ParseIntUnstripped("-" + d);
  }

  /** `int` reads back every integer `str` prints. */
  lemma ParseIntOfIntText(n: int)
    ensures ParseInt(IntText(n)) == Some(n)
  {
    if n < 0 {
      NatTextValue(-n);
      ParseIntOfNegative(NatText(-n));
    } else {
      NatTextValue(n);
      ParseIntOfDigits(NatText(n));
    }
  }
}
