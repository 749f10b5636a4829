/** Walking over the cached pages of a file in batches, and tracing the runs of referenced pages. */
module WalkCache {
  import opened Intervals

  /** The cached pages of a file have ascending indexes. */
  ghost predicate Ascending(indexes: seq<nat>) {
    forall i, j | 0 <= i < j < |indexes| :: indexes[i] < indexes[j]
  }

  /** Some of the first `n` pages is referenced and has index `b`. */
  ghost predicate Referenced(indexes: seq<nat>, bits: seq<bool>, n: nat, b: nat)
    requires n <= |indexes| == |bits|
  {
    exists i :: 0 <= i < n && indexes[i] == b && bits[i]
  }

  function CountSet(bits: seq<bool>): nat {
    if bits == [] then 0 else CountSet(bits[..|bits| - 1]) + if bits[|bits| - 1] then 1 else 0
  }

  function TotalLen(s: seq<Interval>): nat {
    if s == [] then 0 else TotalLen(s[..|s| - 1]) + s[|s| - 1].len
  }

  /** The runs `r` are the sorted maximal runs of the referenced pages among the first `n`. */
  ghost predicate RunsOf(indexes: seq<nat>, bits: seq<bool>, n: nat, r: seq<Interval>)
    requires n <= |indexes| == |bits|
  {
    && Separated(r) && (forall x <- r :: x.len > 0)
    && (forall b: nat :: Covers(r, b) <==> Referenced(indexes, bits, n, b))
    && TotalLen(r) == CountSet(bits[..n])
  }

  /** The pending range: `len` pages from `start`, all referenced or all not, the last ones of the first `p`. */
  ghost predicate Pending(indexes: seq<nat>, bits: seq<bool>, p: nat, start: nat, len: nat, previous: bool)
    requires p <= |indexes| == |bits|
  {
    && 0 < len <= p && start + len == indexes[p - 1] + 1
    && forall i | p - len <= i < p :: bits[i] == previous && indexes[i] == start + (i - (p - len))
  }

  /** After `p > 0` pages: the finished runs, and the pending range behind them. */
  ghost predicate Walked(indexes: seq<nat>, bits: seq<bool>, p: nat, runs: seq<Interval>, start: nat, len: nat,
                         previous: bool) {
    && 0 < p <= |indexes| == |bits|
    && Pending(indexes, bits, p, start, len, previous)
    && RunsOf(indexes, bits, p - len, runs)
    && (forall x <- runs :: x.first + x.len <= start)
    && (previous ==> forall x <- runs :: x.first + x.len < start)
  }

  lemma SetLast(bits: seq<bool>, p: nat)
    requires 0 < p <= |bits|
    ensures CountSet(bits[..p]) == CountSet(bits[..p - 1]) + if bits[p - 1] then 1 else 0
  {
    assert bits[..p][..p - 1] == bits[..p - 1];
  }

  lemma {:induction false} SetRange(bits: seq<bool>, p: nat, len: nat, v: bool)
    requires len <= p <= |bits| && forall i | p - len <= i < p :: bits[i] == v
    ensures CountSet(bits[..p]) == CountSet(bits[..p - len]) + if v then len else 0
  {
    if len > 0 {
      SetLast(bits, p);
      SetRange(bits, p - 1, len - 1, v);
    }
  }

  /** The pending range becomes a run, or is dropped when its pages are not referenced. */
  lemma Finish(indexes: seq<nat>, bits: seq<bool>, p: nat, runs: seq<Interval>, start: nat, len: nat, previous: bool)
    requires Ascending(indexes) && Walked(indexes, bits, p, runs, start, len, previous)
    ensures RunsOf(indexes, bits, p, if previous then runs + [Interval(start, len)] else runs)
  {
    hide Separated, Covers, Referenced, CountSet, TotalLen;
    SetRange(bits, p, len, previous);
    var x := Interval(start, len);
    var all := if previous then runs + [x] else runs;
    forall b: nat ensures Covers(all, b) <==> Referenced(indexes, bits, p, b) {
      FinishCover(indexes, bits, p, runs, start, len, previous, b);
    }
    if previous {
      SeparatedMore(runs, x);
      LenMore(runs, x);
    }
  }

  lemma LenMore(runs: seq<Interval>, x: Interval)
    ensures TotalLen(runs + [x]) == TotalLen(runs) + x.len
  {
    assert (runs + [x])[..|runs|] == runs;
  }

  lemma SeparatedMore(runs: seq<Interval>, x: Interval)
    requires Separated(runs) && forall y <- runs :: y.first + y.len < x.first
    ensures Separated(runs + [x])
  {
    var r := runs + [x];
    forall i, j | 0 <= i < j < |r| ensures r[i].first + r[i].len < r[j].first {
      assert r[i] in runs;
    }
  }

  lemma FinishCover(indexes: seq<nat>, bits: seq<bool>, p: nat, runs: seq<Interval>, start: nat, len: nat,
                    previous: bool, b: nat)
    requires 0 < p <= |indexes| == |bits| && Pending(indexes, bits, p, start, len, previous)
    requires Covers(runs, b) <==> Referenced(indexes, bits, p - len, b)
    ensures Covers(if previous then runs + [Interval(start, len)] else runs, b) <==> Referenced(indexes, bits, p, b)
  {
    var x := Interval(start, len);
    CoversConcat(runs, [x], b);
    CoversOne(x, b);
    if Referenced(indexes, bits, p - len, b) {
      var i :| 0 <= i < p - len && indexes[i] == b && bits[i];
      assert Referenced(indexes, bits, p, b);
    }
    if previous && Has(x, b) {
      var i := p - len + (b - start);
      assert indexes[i] == b && bits[i];
    }
    if Referenced(indexes, bits, p, b) {
      var i :| 0 <= i < p && indexes[i] == b && bits[i];
      if i < p - len {
        assert Referenced(indexes, bits, p - len, b);
      }
    }
  }

  /** The next page continues the pending range. */
  lemma Continue(indexes: seq<nat>, bits: seq<bool>, p: nat, runs: seq<Interval>, start: nat, len: nat, previous: bool)
    requires Walked(indexes, bits, p, runs, start, len, previous) && p < |indexes|
    requires indexes[p] == start + len && bits[p] == previous
    ensures Walked(indexes, bits, p + 1, runs, start, len + 1, previous)
  {
    hide RunsOf;
  }

  /** The next page begins a new range. */
  lemma Begin(indexes: seq<nat>, bits: seq<bool>, p: nat, runs: seq<Interval>, start: nat, len: nat, previous: bool)
    requires Ascending(indexes) && Walked(indexes, bits, p, runs, start, len, previous) && p < |indexes|
    requires !(indexes[p] == start + len && bits[p] == previous)
    ensures var runs' := if previous then runs + [Interval(start, len)] else runs;
      Walked(indexes, bits, p + 1, runs', indexes[p], 1, bits[p])
  {
    hide RunsOf;
    Finish(indexes, bits, p, runs, start, len, previous);
    assert indexes[p - 1] < indexes[p];
  }

  /** The first page. */
  lemma First(indexes: seq<nat>, bits: seq<bool>)
    requires |indexes| == |bits| > 0
    ensures Walked(indexes, bits, 1, [], indexes[0], 1, bits[0])
  {
    assert bits[..0] == [];
  }

  /** The range that is emitted before the first page, if there is one. */
  function Leading(indexes: seq<nat>, bits: seq<bool>): seq<Interval>
    requires |indexes| == |bits|
  {
    if indexes != [] && indexes[0] != 0 && bits[0] then [Interval(0, 0)] else []
  }

  /** Where the walk is after `p` pages: at first the range is empty and only the bit of the first page is known. */
  ghost predicate Progress(indexes: seq<nat>, bits: seq<bool>, p: nat, runs: seq<Interval>, start: nat, len: nat,
                           previous: bool) {
    if p == 0 then |indexes| == |bits| > 0 && runs == [] && start == len == 0 && previous == bits[0]
    else Walked(indexes, bits, p, runs, start, len, previous)
  }

  /** One more page, as the loop goes on with it. */
  lemma NextPage(indexes: seq<nat>, bits: seq<bool>, p: nat, runs: seq<Interval>, start: nat, len: nat, previous: bool)
    requires Ascending(indexes) && Progress(indexes, bits, p, runs, start, len, previous) && p < |indexes| == |bits|
    ensures
      if indexes[p] == start + len && previous == bits[p] then
        Progress(indexes, bits, p + 1, runs, start, len + 1, previous) && (p == 0 ==> Leading(indexes, bits) == [])
      else
        var runs' := if p > 0 && previous then runs + [Interval(start, len)] else runs;
        Progress(indexes, bits, p + 1, runs', indexes[p], 1, bits[p])
        && (p == 0 ==> Leading(indexes, bits) == if previous then [Interval(start, len)] else [])
  {
    hide Walked;
    if p == 0 {
      First(indexes, bits);
    } else if indexes[p] == start + len && previous == bits[p] {
      Continue(indexes, bits, p, runs, start, len, previous);
    } else {
      Begin(indexes, bits, p, runs, start, len, previous);
    }
  }

  /** The next page to look up is the one behind those already walked. */
  lemma NextFrom(indexes: seq<nat>, bits: seq<bool>, p: nat, runs: seq<Interval>, start: nat, len: nat,
                 previous: bool, lo: nat)
    requires Ascending(indexes) && (p > 0 ==> Walked(indexes, bits, p, runs, start, len, previous)) && (p == 0 ==> start == len == 0)
    requires p <= |indexes| && lo <= |indexes|
    requires forall i | 0 <= i < lo :: indexes[i] < start + len
    requires forall i | lo <= i < |indexes| :: indexes[i] >= start + len
    ensures lo == p
  {
    assert lo > 0 ==> indexes[0] >= 0;
    assert 0 < p < |indexes| ==> indexes[p - 1] < indexes[p];
  }

  /** The state of a walk over the caches: the statistics and the traced ranges. While `clearing`, nothing is traced. */
  class Session {
    const clearing: bool
    var pagesWalked: nat
    var pagesReferenced: nat
    var pagesReferencedDebug: nat
    var pageBlocks: nat
    var trace: seq<Interval>

    constructor (clearing: bool)
      ensures this.clearing == clearing && trace == [] && pagesWalked == pagesReferenced == pagesReferencedDebug == pageBlocks == 0
    {
      this.clearing := clearing;
      pagesWalked, pagesReferenced, pagesReferencedDebug, pageBlocks, trace := 0, 0, 0, 0, [];
    }

    /** What is traced of the ranges of a file. */
    function Recorded(onDevice: bool, ranges: seq<Interval>): seq<Interval> {
      if clearing || !onDevice then [] else ranges
    }

    /** Counts a range, and traces it if its file is on a device and no clearing run is in progress. */
    method AddReferencedPageRange(onDevice: bool, start: nat, len: nat)
      modifies `pagesReferenced, `pageBlocks, `trace
      ensures pagesReferenced == old(pagesReferenced) + len && pageBlocks == old(pageBlocks) + 1
      ensures trace == old(trace) + Recorded(onDevice, [Interval(start, len)])
    {
      pagesReferenced := pagesReferenced + len;
      pageBlocks := pageBlocks + 1;
      if !clearing {
        if onDevice {
          trace := trace + [Interval(start, len)];
        }
      }
    }

    lemma RecordedConcat(onDevice: bool, a: seq<Interval>, b: seq<Interval>, c: seq<Interval>)
      ensures a + Recorded(onDevice, b) + Recorded(onDevice, c) == a + Recorded(onDevice, b + c)
    {
      assert a + b + c == a + (b + c);
    }

    /** The pages with an index of at least `from`, at most a batch of them: their positions run from `lo` up to `hi`. */
    method GangLookup(indexes: seq<nat>, from: nat, batch: nat) returns (lo: nat, hi: nat)
      requires Ascending(indexes) && batch > 0
      ensures lo <= hi <= |indexes| && hi - lo <= batch
      ensures forall i | 0 <= i < lo :: indexes[i] < from
      ensures forall i | lo <= i < |indexes| :: indexes[i] >= from
      ensures lo < |indexes| ==> lo < hi
    {
      lo := 0;
      while lo < |indexes| && indexes[lo] < from
        invariant lo <= |indexes| && forall i | 0 <= i < lo :: indexes[i] < from
      {
        lo := lo + 1;
      }
      hi := if lo + batch < |indexes| then lo + batch else |indexes|;
    }

    /** What has been traced for a file: the runs, behind what is emitted before the first page. */
    ghost predicate Traced(onDevice: bool, trace0: seq<Interval>, blocks0: nat, referenced0: nat, lead: seq<Interval>,
                           runs: seq<Interval>)
      reads `trace, `pageBlocks, `pagesReferenced
    {
      && trace == trace0 + Recorded(onDevice, lead + runs)
      && pageBlocks == blocks0 + |lead| + |runs|
      && pagesReferenced == referenced0 + TotalLen(runs)
    }

    /** One page of a batch. */
    method WalkPage(onDevice: bool, indexes: seq<nat>, bits: array<bool>, p: nat, start: nat, len: nat,
                    previous: bool, ghost bits0: seq<bool>, ghost runs: seq<Interval>, ghost trace0: seq<Interval>,
                    ghost blocks0: nat, ghost referenced0: nat)
      returns (start': nat, len': nat, previous': bool, ghost runs': seq<Interval>)
      requires Ascending(indexes) && bits.Length == |indexes| == |bits0| && p < |indexes| && bits[p] == bits0[p]
      requires Progress(indexes, bits0, p, runs, start, len, previous)
      requires Traced(onDevice, trace0, blocks0, referenced0, if p == 0 then [] else Leading(indexes, bits0), runs)
      modifies this, bits
      ensures Progress(indexes, bits0, p + 1, runs', start', len', previous')
      ensures Traced(onDevice, trace0, blocks0, referenced0, Leading(indexes, bits0), runs')
      ensures bits[..] == old(bits[..])[p := false]
      ensures pagesWalked == old(pagesWalked) + 1
      ensures pagesReferencedDebug == old(pagesReferencedDebug) + if bits0[p] then 1 else 0
    {
      hide Ascending, Progress, Leading, TotalLen;
      var current := bits[p];
      bits[p] := false;
      pagesWalked := pagesWalked + 1;
      if current {
        pagesReferencedDebug := pagesReferencedDebug + 1;
      }
      runs' := runs;
      NextPage(indexes, bits0, p, runs, start, len, previous);
      ProgressStart(indexes, bits0, p, runs, start, len, previous);
      if indexes[p] == start + len && previous == current {
        start', len' := start, len + 1;
      } else {
        if previous {
          ghost var x, lead := Interval(start, len), if p == 0 then [] else Leading(indexes, bits0);
          AddReferencedPageRange(onDevice, start, len);
          RecordedConcat(onDevice, trace0, lead + runs, [x]);
          LenMore(runs, x);
          if p > 0 {
            runs' := runs + [x];
            assert lead + runs + [x] == lead + (runs + [x]);
          } else {
            assert lead + runs + [x] == [x] + [];
          }
        }
        start', len' := indexes[p], 1;
      }
      previous' := current;
    }

    /**
      Walks over the cached pages of a file, `batch` at a time, and clears their referenced bits. It traces the maximal
      runs of referenced pages, whatever the batches are; before them an empty range if the first page is referenced
      and is not page 0. During a clearing run, and for a file that is on no device, it only counts them.
     */
    method WalkFileCache(onDevice: bool, indexes: seq<nat>, bits: array<bool>, batch: nat) returns (ghost runs: seq<Interval>)
      requires Ascending(indexes) && bits.Length == |indexes| && batch > 0
      modifies this, bits
      ensures RunsOf(indexes, old(bits[..]), |indexes|, runs)
      ensures trace == old(trace) + Recorded(onDevice, Leading(indexes, old(bits[..])) + runs)
      ensures pageBlocks == old(pageBlocks) + |Leading(indexes, old(bits[..]))| + |runs|
      ensures forall i | 0 <= i < bits.Length :: !bits[i]
      ensures pagesWalked == old(pagesWalked) + |indexes|
      ensures pagesReferenced == old(pagesReferenced) + CountSet(old(bits[..]))
      ensures pagesReferencedDebug == old(pagesReferencedDebug) + CountSet(old(bits[..]))
    {
      hide Ascending, Progress, Walked, RunsOf, CountSet, Leading, TotalLen;
      ghost var bits0, trace0, blocks0, referenced0 := bits[..], trace, pageBlocks, pagesReferenced;
      var n := |indexes|;
      var start: nat, len: nat, previous, page0, p: nat := 0, 0, false, false, 0;
      runs := [];
      NothingWalked(indexes, bits0);
      while true
        invariant p <= n && bits[p..] == bits0[p..] && (forall i | 0 <= i < p :: !bits[i])
        invariant page0 <==> p > 0
        invariant p == 0 ==> start == len == 0 && runs == [] && !previous
        invariant p > 0 ==> Walked(indexes, bits0, p, runs, start, len, previous)
        invariant Traced(onDevice, trace0, blocks0, referenced0, if p == 0 then [] else Leading(indexes, bits0), runs)
        invariant pagesWalked == old(pagesWalked) + p && pagesReferencedDebug == old(pagesReferencedDebug) + CountSet(bits0[..p])
        decreases n - p
      {
        var lo, hi := GangLookup(indexes, start + len, batch);
        NextFrom(indexes, bits0, p, runs, start, len, previous, lo);
        if hi == lo {
          WalkedAll(indexes, bits0, runs, start, len, previous);
          if previous {
            ghost var x, lead := Interval(start, len), if p == 0 then [] else Leading(indexes, bits0);
            AddReferencedPageRange(onDevice, start, len);
            RecordedConcat(onDevice, trace0, lead + runs, [x]);
            LenMore(runs, x);
            assert lead + runs + [x] == lead + (runs + [x]);
            runs := runs + [x];
          }
          break;
        }
        if !page0 {
          page0 := true;
          previous := bits[lo];
          assert bits[lo] == bits[p..][0];
        }
        WalkStarts(indexes, bits0, p, runs, start, len, previous);
        while p < hi
          invariant lo <= p <= hi && bits[p..] == bits0[p..] && (forall i | 0 <= i < p :: !bits[i])
          invariant Progress(indexes, bits0, p, runs, start, len, previous)
          invariant Traced(onDevice, trace0, blocks0, referenced0, if p == 0 then [] else Leading(indexes, bits0), runs)
          invariant pagesWalked == old(pagesWalked) + p && pagesReferencedDebug == old(pagesReferencedDebug) + CountSet(bits0[..p])
        {
          assert bits[p] == bits[p..][0] == bits0[p];
          SetLast(bits0, p + 1);
          ghost var rest := bits[..];
          start, len, previous, runs :=
            WalkPage(onDevice, indexes, bits, p, start, len, previous, bits0, runs, trace0, blocks0, referenced0);
          BitsAfter(rest, bits[..], bits0, p);
          p := p + 1;
        }
        ProgressEnd(indexes, bits0, p, runs, start, len, previous);
      }
      assert bits0[..n] == bits0;
    }
  }

  lemma BitsAfter(a: seq<bool>, b: seq<bool>, bits0: seq<bool>, p: nat)
    requires p < |a| == |bits0| && b == a[p := false] && a[p..] == bits0[p..] && forall i | 0 <= i < p :: !a[i]
    ensures b[p + 1..] == bits0[p + 1..] && forall i | 0 <= i < p + 1 :: !b[i]
  {
    assert a[p + 1..] == a[p..][1..] && bits0[p + 1..] == bits0[p..][1..];
  }

  lemma ProgressStart(indexes: seq<nat>, bits: seq<bool>, p: nat, runs: seq<Interval>, start: nat, len: nat,
                      previous: bool)
    requires Progress(indexes, bits, p, runs, start, len, previous)
    ensures p == 0 ==> runs == [] && start == len == 0
  {
    hide Walked;
  }

  lemma ProgressEnd(indexes: seq<nat>, bits: seq<bool>, p: nat, runs: seq<Interval>, start: nat, len: nat,
                    previous: bool)
    requires p > 0 && Progress(indexes, bits, p, runs, start, len, previous)
    ensures Walked(indexes, bits, p, runs, start, len, previous)
  {}

  lemma WalkStarts(indexes: seq<nat>, bits: seq<bool>, p: nat, runs: seq<Interval>, start: nat, len: nat,
                   previous: bool)
    requires p < |indexes| == |bits|
    requires if p == 0 then runs == [] && start == len == 0 && previous == bits[0]
      else Walked(indexes, bits, p, runs, start, len, previous)
    ensures Progress(indexes, bits, p, runs, start, len, previous)
  {}

  lemma NothingWalked(indexes: seq<nat>, bits: seq<bool>)
    requires |indexes| == |bits|
    ensures CountSet(bits[..0]) == 0 && TotalLen([]) == 0
    ensures |indexes| == 0 ==> RunsOf(indexes, bits, 0, []) && Leading(indexes, bits) == []
  {}

  /** At the end the pending range is all that is missing. */
  lemma WalkedAll(indexes: seq<nat>, bits: seq<bool>, runs: seq<Interval>, start: nat, len: nat, previous: bool)
    requires Ascending(indexes) && |indexes| == |bits|
    requires if |indexes| == 0 then runs == [] && !previous else Walked(indexes, bits, |indexes|, runs, start, len, previous)
    ensures var all := if previous then runs + [Interval(start, len)] else runs;
      RunsOf(indexes, bits, |indexes|, all) && TotalLen(all) == CountSet(bits)
    ensures |indexes| == 0 ==> Leading(indexes, bits) == []
  {
    hide Walked;
    assert bits[..|indexes|] == bits;
    if |indexes| > 0 {
      Finish(indexes, bits, |indexes|, runs, start, len, previous);
    }
  }

  /** The runs do not depend on the size of the batches. */
  lemma RunsUnique(indexes: seq<nat>, bits: seq<bool>, a: seq<Interval>, b: seq<Interval>)
    requires |indexes| == |bits| && RunsOf(indexes, bits, |indexes|, a) && RunsOf(indexes, bits, |indexes|, b)
    ensures a == b
  {
    hide Covers, Separated, Referenced;
    SeparatedUnique(a, b);
  }
}
