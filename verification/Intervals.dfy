/** Lists of intervals, as they arise from block numbers and from pages of a file. */
module Intervals {

  datatype Interval = Interval(first: nat, len: nat)

  predicate Has(x: Interval, b: nat) {
    x.first <= b < x.first + x.len
  }

  ghost predicate Covers(s: seq<Interval>, b: nat) {
    exists x <- s :: Has(x, b)
  }

  ghost predicate SameCover(s: seq<Interval>, r: seq<Interval>) {
    forall b: nat :: Covers(s, b) <==> Covers(r, b)
  }

  ghost predicate ByFirst(s: seq<Interval>) {
    forall i, j | 0 <= i < j < |s| :: s[i].first <= s[j].first
  }

  /** Between neighbours there is at least one number that belongs to neither. */
  ghost predicate Separated(s: seq<Interval>) {
    forall i, j | 0 <= i < j < |s| :: s[i].first + s[i].len < s[j].first
  }

  lemma CoversConcat(s: seq<Interval>, r: seq<Interval>, b: nat)
    ensures Covers(s + r, b) <==> Covers(s, b) || Covers(r, b)
  {
    assert forall x :: x in s + r <==> x in s || x in r;
  }

  lemma CoversOne(x: Interval, b: nat)
    ensures Covers([x], b) <==> Has(x, b)
  {
    assert x in [x];
  }

  /**
    There is only one such list of non-empty intervals for a set of numbers, so it does not depend on how it was made.
   */
  lemma {:induction false} SeparatedUnique(s: seq<Interval>, r: seq<Interval>)
    requires Separated(s) && Separated(r) && SameCover(s, r)
    requires (forall x <- s :: x.len > 0) && forall x <- r :: x.len > 0
    ensures s == r
  {
    hide Separated, SameCover;
    if s == [] {
      EmptyCover(r);
    } else if r == [] {
      EmptyCover(s);
    } else {
      RestPositive(s);
      RestPositive(r);
      FirstSame(s, r);
      RestCover(s, r);
      RestSeparated(s);
      RestSeparated(r);
      SeparatedUnique(s[1..], r[1..]);
      SameParts(s, r);
    }
  }

  lemma SameParts(s: seq<Interval>, r: seq<Interval>)
    requires s != [] && r != [] && s[0] == r[0] && s[1..] == r[1..]
    ensures s == r
  {
    assert s == [s[0]] + s[1..] && r == [r[0]] + r[1..];
  }

  lemma RestPositive(s: seq<Interval>)
    requires s != [] && forall x <- s :: x.len > 0
    ensures s[0].len > 0 && forall x <- s[1..] :: x.len > 0
  {
    assert s[0] in s;
  }

  lemma EmptyCover(s: seq<Interval>)
    requires (SameCover([], s) || SameCover(s, [])) && forall x <- s :: x.len > 0
    ensures s == []
  {
    if s != [] {
      NonEmptyCovers(s);
    }
  }

  lemma NonEmptyCovers(s: seq<Interval>)
    requires s != [] && forall x <- s :: x.len > 0
    ensures Covers(s, s[0].first)
  {
    assert s[0] in s && Has(s[0], s[0].first);
  }

  lemma RestSeparated(s: seq<Interval>)
    requires Separated(s) && s != []
    ensures Separated(s[1..])
  {}

  lemma FirstSame(s: seq<Interval>, r: seq<Interval>)
    requires Separated(s) && Separated(r) && SameCover(s, r) && s != [] && r != [] && s[0].len > 0 && r[0].len > 0
    ensures s[0] == r[0]
  {
    hide Separated;
    FirstNotBehind(s, r);
    FirstNotBehind(r, s);
    FirstEnd(s, r);
    FirstEnd(r, s);
  }

  lemma FirstNotBehind(s: seq<Interval>, r: seq<Interval>)
    requires Separated(s) && SameCover(s, r) && s != [] && r != [] && r[0].len > 0
    ensures s[0].first <= r[0].first
  {
    assert Has(r[0], r[0].first) && r[0] in r && Covers(r, r[0].first);
    var x :| x in s && Has(x, r[0].first);
    var i :| 0 <= i < |s| && s[i] == x;
  }

  lemma FirstEnd(s: seq<Interval>, r: seq<Interval>)
    requires Separated(s) && Separated(r) && SameCover(s, r) && s != [] && r != [] && s[0].first == r[0].first
    requires s[0].len > 0
    ensures s[0].len <= r[0].len
  {
    var b := r[0].first + r[0].len;
    NotAtEnd(r);
    assert !Covers(s, b) && s[0] in s;
    assert !Has(s[0], b);
  }

  lemma NotAtEnd(r: seq<Interval>)
    requires Separated(r) && r != []
    ensures !Covers(r, r[0].first + r[0].len)
  {
    forall x | x in r ensures !Has(x, r[0].first + r[0].len) {
      var i :| 0 <= i < |r| && r[i] == x;
    }
  }

  lemma RestCover(s: seq<Interval>, r: seq<Interval>)
    requires Separated(s) && Separated(r) && SameCover(s, r) && s != [] && r != [] && s[0] == r[0]
    ensures SameCover(s[1..], r[1..])
  {
    forall b: nat ensures Covers(s[1..], b) <==> Covers(r[1..], b) {
      CoversConcat([s[0]], s[1..], b);
      CoversConcat([r[0]], r[1..], b);
      assert s == [s[0]] + s[1..] && r == [r[0]] + r[1..];
      CoversOne(s[0], b);
      RestBehind(s, b);
      RestBehind(r, b);
    }
  }

  lemma RestBehind(s: seq<Interval>, b: nat)
    requires Separated(s) && s != []
    ensures Covers(s[1..], b) ==> !Has(s[0], b)
  {
    if Covers(s[1..], b) {
      var x :| x in s[1..] && Has(x, b);
      var i :| 0 <= i < |s[1..]| && s[1..][i] == x;
      assert s[0].first + s[0].len < s[i + 1].first;
    }
  }
}
