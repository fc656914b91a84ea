/** The optional value used wherever the scraper either finds something or
    swallows an exception and carries on. */
module Wrappers {

  datatype Option<+T> = None | Some(value: T)

  /** The zero- or one-element sequence of an optional value (an `append`
      that may or may not happen). */
  function ToSeq<T>(o: Option<T>): (s: seq<T>)
    ensures |s| <= 1
    ensures o.Some? <==> |s| == 1
    ensures o.Some? ==> s[0] == o.value
  {
    match o
    case None => []
    case Some(v) => [v]
  }

  /** The values of the `Some` entries, in order: what a loop that appends
      only on success collects. */
  function Emitted<T>(opts: seq<Option<T>>): seq<T>
  {
    if opts == [] then [] else Emitted(opts[..|opts| - 1]) + ToSeq(opts[|opts| - 1])
  }

  /** At most one value per entry, and exactly the values of the `Some`
      entries. */
  lemma {:induction false} EmittedMembers<T>(opts: seq<Option<T>>)
    ensures |Emitted(opts)| <= |opts|
    ensures forall x :: x in Emitted(opts) <==> Some(x) in opts
  {
    if opts != [] {
      var init := opts[..|opts| - 1];
      EmittedMembers(init);
      assert opts == init + [opts[|opts| - 1]];
      forall x ensures x in Emitted(opts) <==> Some(x) in opts {
        assert Some(x) in opts <==> Some(x) in init || Some(x) == opts[|opts| - 1];
      }
    }
  }

  /** Appending one more entry appends its value, if any. */
  lemma EmittedSnoc<T>(opts: seq<Option<T>>, n: nat)
    requires n < |opts|
    ensures Emitted(opts[..n + 1]) == Emitted(opts[..n]) + ToSeq(opts[n])
  {
    assert opts[..n + 1][..n] == opts[..n];
  }

  /** The concatenation of a sequence of sequences, in order: what a loop
      that extends one list by a list per step collects. */
  function Concat<T>(xss: seq<seq<T>>): seq<T>
  {
    if xss == [] then [] else Concat(xss[..|xss| - 1]) + xss[|xss| - 1]
  }

  /** The elements of the concatenation are the elements of its parts. */
  lemma {:induction false} ConcatMembers<T>(xss: seq<seq<T>>)
    ensures forall x :: x in Concat(xss) <==> exists i :: 0 <= i < |xss| && x in xss[i]
  {
    if xss != [] {
      var init := xss[..|xss| - 1];
      ConcatMembers(init);
      forall x ensures x in Concat(xss) <==> exists i :: 0 <= i < |xss| && x in xss[i] {
        if x in Concat(xss) && x in Concat(init) {
          var i :| 0 <= i < |init| && x in init[i];
          assert xss[i] == init[i];
        }
        if i :| 0 <= i < |xss| && x in xss[i] {
          if i < |xss| - 1 { assert x in init[i]; }
        }
      }
    }
  }

  /** Concatenating the parts of two halves is concatenating the halves'
      results. */
  lemma {:induction false} ConcatAppend<T>(a: seq<seq<T>>, b: seq<seq<T>>)
    ensures Concat(a + b) == Concat(a) + Concat(b)
    decreases |b|
  {
    if b == [] {
      assert a + b == a;
    } else {
      var bInit := b[..|b| - 1];
      ConcatAppend(a, bInit);
      assert (a + b)[..|a + b| - 1] == a + bInit;
    }
  }

  /** Appending one more part appends its elements. */
  lemma ConcatSnoc<T>(xss: seq<seq<T>>, n: nat)
    requires n < |xss|
    ensures Concat(xss[..n + 1]) == Concat(xss[..n]) + xss[n]
  {
    assert xss[..n + 1][..n] == xss[..n];
  }

  /** Parts that are all empty concatenate to nothing. */
  lemma {:induction false} ConcatOfEmpties<T>(xss: seq<seq<T>>)
    requires forall i :: 0 <= i < |xss| ==> xss[i] == []
    ensures Concat(xss) == []
  {
    if xss != [] {
      ConcatOfEmpties(xss[..|xss| - 1]);
    }
  }

  /** The part `g` gives for each element, in order. */
  function MapParts<T, U>(g: T -> seq<U>, xs: seq<T>): (ps: seq<seq<U>>)
    ensures |ps| == |xs|
    ensures forall i :: 0 <= i < |xs| ==> ps[i] == g(xs[i])
  {
    seq(|xs|, i requires 0 <= i < |xs| => g(xs[i]))
  }

  /** The parts of two halves are the parts of each, one after the other. */
  lemma MapPartsAppend<T, U>(g: T -> seq<U>, a: seq<T>, b: seq<T>)
    ensures MapParts(g, a + b) == MapParts(g, a) + MapParts(g, b)
  {
    var whole, left, right := MapParts(g, a + b), MapParts(g, a), MapParts(g, b);
    forall i | 0 <= i < |whole| ensures whole[i] == (left + right)[i] {
      if i < |a| {
        assert (a + b)[i] == a[i];
      } else {
        assert (a + b)[i] == b[i - |a|];
      }
    }
  }
}
