/** e2block2file: which files the traced blocks belong to. */
module BlockToFile {
  import opened Arithmetic
  import opened Intervals
  import opened Sorting

  // ----- Merging the traced extents

  /** The extents up to `i` merged into `done`, the rest still to come. */
  ghost predicate Merged(s: seq<Interval>, done: seq<Interval>, i: nat) {
    && i <= |s| && Separated(done) && SameCover(done, s[..i])
    && (i < |s| && done != [] ==> done[|done| - 1].first + done[|done| - 1].len < s[i].first)
  }

  /** `x` is growing behind `done`; the extents up to `i` are merged. */
  ghost predicate Growing(s: seq<Interval>, done: seq<Interval>, x: Interval, i: nat) {
    && i <= |s| && Separated(done + [x]) && SameCover(done + [x], s[..i])
    && forall k | i <= k < |s| :: x.first <= s[k].first
  }

  lemma MergeStart(s: seq<Interval>, done: seq<Interval>, i: nat)
    requires ByFirst(s) && Merged(s, done, i) && i < |s|
    ensures Growing(s, done, s[i], i + 1)
  {
    var all := done + [s[i]];
    forall j, k | 0 <= j < k < |all| ensures all[j].first + all[j].len < all[k].first {
      if k == |done| && j < |done| - 1 {
        assert done[j].first + done[j].len < done[|done| - 1].first;
      }
    }
    assert s[..i + 1] == s[..i] + [s[i]];
    forall b: nat ensures Covers(all, b) <==> Covers(s[..i + 1], b) {
      CoversConcat(done, [s[i]], b);
      CoversConcat(s[..i], [s[i]], b);
    }
  }

  /** The extent with the end of an overlapping one taken over. */
  function Extended(x: Interval, y: Interval): Interval {
    if x.first + x.len < y.first + y.len && x.first <= y.first + y.len then x.(len := y.first + y.len - x.first) else x
  }

  lemma MergeMore(s: seq<Interval>, done: seq<Interval>, x: Interval, i: nat)
    requires Growing(s, done, x, i) && i < |s| && x.first + x.len >= s[i].first
    ensures Growing(s, done, Extended(x, s[i]), i + 1)
  {
    var y := Extended(x, s[i]);
    var all := done + [y];
    forall j, k | 0 <= j < k < |all| ensures all[j].first + all[j].len < all[k].first {
      assert (done + [x])[j] == done[j] && (done + [x])[k].first == all[k].first;
    }
    assert s[..i + 1] == s[..i] + [s[i]];
    forall b: nat ensures Covers(all, b) <==> Covers(s[..i + 1], b) {
      CoversConcat(done, [y], b);
      CoversConcat(done, [x], b);
      CoversConcat(s[..i], [s[i]], b);
      assert Covers(done + [x], b) <==> Covers(s[..i], b);
      CoversOne(x, b);
      CoversOne(y, b);
      CoversOne(s[i], b);
    }
  }

  lemma MergeEnd(s: seq<Interval>, done: seq<Interval>, x: Interval, i: nat)
    requires Growing(s, done, x, i) && (i < |s| ==> x.first + x.len < s[i].first)
    ensures Merged(s, done + [x], i)
  {}

  /** Merges the intervals that overlap or touch the one at `i` into it. */
  method MergeFollowing(a: array<Interval>, count: nat, i: nat, shift: nat, ghost s: seq<Interval>,
                        ghost done: seq<Interval>)
    returns (shift': nat)
    requires i + shift + 1 <= count <= a.Length && |s| == count && a[..i] == done
    requires Growing(s, done, a[i], i + shift + 1) && a[i + shift + 1..count] == s[i + shift + 1..]
    modifies a
    ensures shift <= shift' && i + shift' + 1 <= count && a[..i] == done
    ensures Merged(s, done + [a[i]], i + shift' + 1) && a[i + shift' + 1..count] == s[i + shift' + 1..]
  {
    hide Merged, Growing;
    shift' := shift;
    while i + shift' + 1 < count && a[i].first + a[i].len >= a[i + shift' + 1].first
      invariant shift <= shift' && i + shift' + 1 <= count && a[..i] == done
      invariant Growing(s, done, a[i], i + shift' + 1)
      invariant a[i + shift' + 1..count] == s[i + shift' + 1..]
      decreases count - shift'
    {
      ghost var k := i + shift' + 1;
      assert a[k] == a[k..count][0] == s[k..][0] == s[k];
      assert a[k + 1..count] == a[k..count][1..] == s[k..][1..] == s[k + 1..];
      MergeMore(s, done, a[i], i + shift' + 1);
      GrowingBlock(s, done, a[i], i + shift' + 1);
      if a[i].first + a[i].len < a[i + shift' + 1].first + a[i + shift' + 1].len {
        a[i] := a[i].(len := a[i + shift' + 1].first + a[i + shift' + 1].len - a[i].first);
      }
      assert a[k + 1..count] == s[k + 1..];
      shift' := shift' + 1;
    }
    assert i + shift' + 1 < count ==> a[i + shift' + 1] == s[i + shift' + 1];
    MergeEnd(s, done, a[i], i + shift' + 1);
  }

  /** Merges overlapping and touching extents in place; returns how many are left. */
  method Compact(a: array<Interval>, count: nat) returns (left: nat)
    requires count <= a.Length && ByFirst(a[..count])
    modifies a
    ensures left <= count && Separated(a[..left]) && SameCover(a[..left], old(a[..count]))
  {
    hide Merged, Growing, SameCover, Separated, ByFirst;
    ghost var s := a[..count];
    var shift: nat, i: nat := 0, 0;
    NothingMerged(s);
    assert a[..0] == [];
    while i < count - shift
      invariant i + shift <= count
      invariant Merged(s, a[..i], i + shift)
      invariant a[i + shift..count] == s[i + shift..]
    {
      assert a[i + shift] == s[i + shift];
      MergeStart(s, a[..i], i + shift);
      ghost var done := a[..i];
      assert a[i + shift + 1..count] == a[i + shift..count][1..] == s[i + shift..][1..] == s[i + shift + 1..];
      a[i] := a[i + shift];
      assert a[..i] == done && a[i] == s[i + shift];
      assert a[i + shift + 1..count] == s[i + shift + 1..];
      shift := MergeFollowing(a, count, i, shift, s, done);
      assert a[..i + 1] == done + [a[i]];
      i := i + 1;
    }
    MergedAll(s, a[..i]);
    left := count - shift;
  }

  lemma NothingMerged(s: seq<Interval>)
    ensures Merged(s, [], 0)
  {
    assert s[..0] == [];
  }

  lemma GrowingBlock(s: seq<Interval>, done: seq<Interval>, x: Interval, i: nat)
    requires Growing(s, done, x, i) && i < |s|
    ensures x.first <= s[i].first
  {}

  lemma MergedAll(s: seq<Interval>, done: seq<Interval>)
    requires Merged(s, done, |s|)
    ensures Separated(done) && SameCover(done, s)
  {
    assert s[..|s|] == s;
  }

  /** The first `n` extents end before the block. */
  ghost predicate LowOut(s: seq<Interval>, n: int, b: nat) {
    n <= |s| && forall j | 0 <= j < n :: s[j].first + s[j].len <= b
  }

  /** The extents behind `e` do not hold the block, nor start before it. */
  ghost predicate HighOut(s: seq<Interval>, e: int, b: nat) {
    -1 <= e && forall j | e < j < |s| :: !Has(s[j], b) && b <= s[j].first
  }

  lemma SearchStep(s: seq<Interval>, mid: nat, b: nat)
    requires Separated(s) && mid < |s| && !Has(s[mid], b)
    ensures s[mid].first < b ==> LowOut(s, mid + 1, b)
    ensures s[mid].first >= b ==> HighOut(s, mid - 1, b)
  {}

  lemma SearchDone(s: seq<Interval>, start: int, end: int, b: nat)
    requires LowOut(s, start, b) && HighOut(s, end, b)
    requires start > end || (Separated(s) && 0 <= start && end < |s| && (b < s[start].first || b >= s[end].first + s[end].len))
    ensures !Covers(s, b)
  {
    forall x | x in s ensures !Has(x, b) {
      var j :| 0 <= j < |s| && s[j] == x;
      if start <= end {
        if start < j {
          assert s[start].first + s[start].len < s[j].first;
        }
        if j < end {
          assert s[j].first + s[j].len < s[end].first;
        }
      }
    }
  }

  /** Binary search with an early exit, guarded so that it stays in the array. */
  method FindBlock(s: seq<Interval>, b: nat) returns (found: bool, k: nat)
    requires Separated(s)
    ensures found ==> k < |s| && Has(s[k], b)
    ensures found <==> Covers(s, b)
  {
    hide Separated, LowOut, HighOut;
    var start, end := 0, |s| - 1;
    SearchBegins(s, b);
    while start <= end
      invariant 0 <= start <= end + 1 <= |s|
      invariant LowOut(s, start, b) && HighOut(s, end, b)
      decreases end - start
    {
      var mid := (start + end) / 2;
      if s[mid].first <= b && s[mid].first + s[mid].len > b {
        assert s[mid] in s;
        return true, mid;
      }
      SearchStep(s, mid, b);
      if s[mid].first < b {
        start := mid + 1;
      } else {
        end := mid - 1;
      }
      if start <= end && (b < s[start].first || b >= s[end].first + s[end].len) {
        SearchDone(s, start, end, b);
        return false, 0;
      }
    }
    SearchDone(s, start, end, b);
    found, k := false, 0;
  }

  lemma SearchBegins(s: seq<Interval>, b: nat)
    ensures LowOut(s, 0, b) && HighOut(s, |s| - 1, b)
  {}

  // ----- Loading

  /** A traced range of device sectors. */
  datatype Traced = Traced(sector: int, len: nat)

  /** The `n` whole blocks of a traced range begin at block `q` of the partition. */
  ghost predicate BlocksOf(t: Traced, partitionStart: int, perBlock: nat, q: nat, n: nat) {
    q * perBlock <= t.sector - partitionStart < (q + 1) * perBlock && n * perBlock <= t.len < (n + 1) * perBlock
  }

  /** Some range that does not begin before the partition has the block. */
  ghost predicate IsTraced(traced: seq<Traced>, partitionStart: int, perBlock: nat, b: nat) {
    exists t <- traced, q: nat, n: nat :: BlocksOf(t, partitionStart, perBlock, q, n) && q <= b < q + n
  }

  /** The positions of the ranges that do not begin before the partition, in order. */
  ghost predicate PartitionRanges(traced: seq<Traced>, partitionStart: int, which: seq<nat>) {
    && (forall i, j | 0 <= i < j < |which| :: which[i] < which[j])
    && forall k: nat :: k in which <==> k < |traced| && traced[k].sector >= partitionStart
  }

  ghost function Inside(traced: seq<Traced>, partitionStart: int): seq<nat> {
    if traced == [] then []
    else
      var n := |traced| - 1;
      var rest := Inside(traced[..n], partitionStart);
      if traced[n].sector < partitionStart then rest else rest + [n]
  }

  /** The blocks of the traced ranges; ranges before the partition are ignored. */
  function ToBlocks(traced: seq<Traced>, partitionStart: int, perBlock: nat): seq<Interval>
    requires perBlock > 0
  {
    if traced == [] then []
    else
      var t := traced[|traced| - 1];
      var rest := ToBlocks(traced[..|traced| - 1], partitionStart, perBlock);
      if t.sector < partitionStart then rest else rest + [Interval((t.sector - partitionStart) / perBlock, t.len / perBlock)]
  }

  lemma Scaled(x: nat, perBlock: nat)
    requires perBlock > 0
    ensures x / perBlock * perBlock <= x < (x / perBlock + 1) * perBlock
  {
    assert x == x / perBlock * perBlock + x % perBlock;
  }

  lemma ScaledOnce(x: int, perBlock: nat, p: nat, q: nat)
    requires p * perBlock <= x < (p + 1) * perBlock && q * perBlock <= x < (q + 1) * perBlock
    ensures p == q
  {
    if p < q {
      MulMono(p + 1, q, perBlock);
    } else if q < p {
      MulMono(q + 1, p, perBlock);
    }
  }

  /** A range has its blocks in one way, and none if it begins before the partition. */
  lemma BlocksOnce(t: Traced, partitionStart: int, perBlock: nat, q: nat, n: nat, q': nat, n': nat)
    requires BlocksOf(t, partitionStart, perBlock, q, n) && BlocksOf(t, partitionStart, perBlock, q', n')
    ensures q == q' && n == n' && t.sector >= partitionStart
  {
    ScaledOnce(t.sector - partitionStart, perBlock, q, q');
    ScaledOnce(t.len, perBlock, n, n');
  }

  /** The ranges in the partition and their blocks go together. */
  ghost predicate Aligned(traced: seq<Traced>, partitionStart: int, perBlock: nat, which: seq<nat>, blocks: seq<Interval>) {
    && |blocks| == |which|
    && forall i | 0 <= i < |which| ::
      which[i] < |traced| && BlocksOf(traced[which[i]], partitionStart, perBlock, blocks[i].first, blocks[i].len)
  }

  lemma {:induction false} InsideRanges(traced: seq<Traced>, partitionStart: int)
    ensures PartitionRanges(traced, partitionStart, Inside(traced, partitionStart))
  {
    if traced != [] {
      var n := |traced| - 1;
      var which := Inside(traced[..n], partitionStart);
      InsideRanges(traced[..n], partitionStart);
      assert forall i | 0 <= i < |which| :: which[i] in which;
      assert forall k: nat :: k in which + [n] <==> k in which || k == n;
    }
  }

  lemma {:induction false} ToBlocksAligned(traced: seq<Traced>, partitionStart: int, perBlock: nat)
    requires perBlock > 0
    ensures Aligned(traced, partitionStart, perBlock, Inside(traced, partitionStart),
        ToBlocks(traced, partitionStart, perBlock))
  {
    hide BlocksOf, Aligned, ToBlocks, Inside;
    if traced != [] {
      ToBlocksAligned(traced[..|traced| - 1], partitionStart, perBlock);
      AlignedStep(traced, partitionStart, perBlock);
    } else {
      NoneAligned(partitionStart, perBlock);
    }
  }

  lemma AlignedStep(traced: seq<Traced>, partitionStart: int, perBlock: nat)
    requires perBlock > 0 && traced != []
    requires var before := traced[..|traced| - 1];
      Aligned(before, partitionStart, perBlock, Inside(before, partitionStart), ToBlocks(before, partitionStart, perBlock))
    ensures Aligned(traced, partitionStart, perBlock, Inside(traced, partitionStart),
        ToBlocks(traced, partitionStart, perBlock))
  {
    hide BlocksOf, Aligned;
    var n := |traced| - 1;
    var t, before := traced[n], traced[..n];
    var x := Interval(if t.sector < partitionStart then 0 else (t.sector - partitionStart) / perBlock, t.len / perBlock);
    if t.sector >= partitionStart {
      LastBlocks(t, partitionStart, perBlock);
    }
    AlignedMore(traced, partitionStart, perBlock, Inside(before, partitionStart),
      ToBlocks(before, partitionStart, perBlock), x);
  }

  lemma NoneAligned(partitionStart: int, perBlock: nat)
    requires perBlock > 0
    ensures Aligned([], partitionStart, perBlock, Inside([], partitionStart), ToBlocks([], partitionStart, perBlock))
  {}

  lemma AlignedMore(traced: seq<Traced>, partitionStart: int, perBlock: nat, which: seq<nat>, blocks: seq<Interval>,
                    x: Interval)
    requires traced != [] && Aligned(traced[..|traced| - 1], partitionStart, perBlock, which, blocks)
    ensures Aligned(traced, partitionStart, perBlock, which, blocks)
    ensures BlocksOf(traced[|traced| - 1], partitionStart, perBlock, x.first, x.len) ==>
      Aligned(traced, partitionStart, perBlock, which + [|traced| - 1], blocks + [x])
  {
    hide BlocksOf;
  }

  lemma LastBlocks(t: Traced, partitionStart: int, perBlock: nat)
    requires perBlock > 0 && t.sector >= partitionStart
    ensures BlocksOf(t, partitionStart, perBlock, (t.sector - partitionStart) / perBlock, t.len / perBlock)
  {
    Scaled(t.sector - partitionStart, perBlock);
    Scaled(t.len, perBlock);
  }

  lemma AlignedCover(traced: seq<Traced>, partitionStart: int, perBlock: nat, which: seq<nat>, blocks: seq<Interval>,
                     b: nat)
    requires PartitionRanges(traced, partitionStart, which) && Aligned(traced, partitionStart, perBlock, which, blocks)
    ensures Covers(blocks, b) <==> IsTraced(traced, partitionStart, perBlock, b)
  {
    hide BlocksOf;
    if Covers(blocks, b) {
      var x :| x in blocks && Has(x, b);
      var i :| 0 <= i < |blocks| && blocks[i] == x;
      assert traced[which[i]] in traced && BlocksOf(traced[which[i]], partitionStart, perBlock, x.first, x.len);
    }
    if IsTraced(traced, partitionStart, perBlock, b) {
      var t, q: nat, n: nat :| t in traced && BlocksOf(t, partitionStart, perBlock, q, n) && q <= b < q + n;
      BlocksOnce(t, partitionStart, perBlock, q, n, q, n);
      var k :| 0 <= k < |traced| && traced[k] == t;
      assert k in which;
      var i :| 0 <= i < |which| && which[i] == k;
      BlocksOnce(t, partitionStart, perBlock, q, n, blocks[i].first, blocks[i].len);
      assert blocks[i] in blocks && Has(blocks[i], b);
    }
  }

  /** Reads, sorts and merges the traced ranges: what is left covers exactly the traced blocks of the partition. */
  method LoadBlocks(traced: seq<Traced>, partitionStart: int, perBlock: nat) returns (s: seq<Interval>)
    requires perBlock > 0
    ensures Separated(s) && forall b: nat :: Covers(s, b) <==> IsTraced(traced, partitionStart, perBlock, b)
  {
    hide ToBlocks, Separated, IsTraced, Covers, PartitionRanges, Aligned, Inside;
    var key := (x: Interval) => x.first;
    var blocks := ToBlocks(traced, partitionStart, perBlock);
    var sorted := Sort(blocks, key);
    SortIsSorted(blocks, key);
    Permuted(blocks, sorted);
    var a := new Interval[|sorted|](i requires 0 <= i < |sorted| => sorted[i]);
    assert a[..] == sorted && a[..|sorted|] == sorted;
    var left := Compact(a, |sorted|);
    s := a[..left];
    SameMembersCover(sorted, blocks);
    InsideRanges(traced, partitionStart);
    ToBlocksAligned(traced, partitionStart, perBlock);
    forall b: nat ensures Covers(s, b) <==> IsTraced(traced, partitionStart, perBlock, b) {
      AlignedCover(traced, partitionStart, perBlock, Inside(traced, partitionStart), blocks, b);
    }
  }

  lemma SameMembersCover(s: seq<Interval>, r: seq<Interval>)
    requires forall x :: x in s <==> x in r
    ensures SameCover(s, r)
  {}

  // ----- The map from blocks to files

  /** Consecutive blocks at consecutive offsets of an inode. */
  datatype Entry = Entry(block: nat, len: nat, offset: int, ino: nat)

  predicate Holds(e: Entry, b: nat) {
    e.block <= b < e.block + e.len
  }

  ghost predicate MapsTo(s: seq<Entry>, b: nat, ino: nat, offset: int) {
    exists e <- s :: Holds(e, b) && e.ino == ino && offset == e.offset + (b - e.block)
  }

  ghost predicate Known(s: seq<Entry>, b: nat) {
    exists e <- s :: Holds(e, b)
  }

  /** No block is in two entries. */
  ghost predicate DisjointEntries(s: seq<Entry>) {
    && (forall e <- s :: e.len > 0)
    && forall i, j | 0 <= i < j < |s| :: s[i].block + s[i].len <= s[j].block || s[j].block + s[j].len <= s[i].block
  }

  /** A block that an entry is lengthened for. */
  predicate Continues(e: Entry, offset: int, block: nat) {
    offset >= 0 && e.block + e.len == block && e.offset + e.len == offset
  }

  class BlockMap {
    var bmap: seq<Entry>
    var lastBlock: map<nat, nat>

    ghost predicate Valid()
      reads this
    {
      forall ino <- lastBlock :: lastBlock[ino] < |bmap| && bmap[lastBlock[ino]].ino == ino
    }

    constructor ()
      ensures Valid() && bmap == []
    {
      bmap, lastBlock := [], map[];
    }

    /** Adds a block of a file; it continues the last entry of the inode or begins a new one. */
    method InsertNewBlock(ino: nat, offset: int, block: nat)
      requires Valid()
      modifies this
      ensures Valid()
      ensures if ino in old(lastBlock) && Continues(old(bmap)[old(lastBlock)[ino]], offset, block) then
        var k := old(lastBlock)[ino];
        bmap == old(bmap)[k := old(bmap)[k].(len := old(bmap)[k].len + 1)] && lastBlock == old(lastBlock)
      else bmap == old(bmap) + [Entry(block, 1, offset, ino)] && lastBlock == old(lastBlock)[ino := |old(bmap)|]
      ensures forall b: nat, i: nat, o: int ::
        MapsTo(bmap, b, i, o) <==> MapsTo(old(bmap), b, i, o) || (b == block && i == ino && o == offset)
      ensures DisjointEntries(old(bmap)) && !Known(old(bmap), block) ==> DisjointEntries(bmap)
    {
      hide MapsTo, DisjointEntries, Known;
      if ino in lastBlock {
        var k := lastBlock[ino];
        var last := bmap[k];
        if offset >= 0 && last.block + last.len == block && last.offset + last.len == offset {
          ghost var before := bmap;
          bmap := bmap[k := last.(len := last.len + 1)];
          Grown(before, k, bmap);
          GrownDisjoint(before, k, bmap);
          return;
        }
      }
      ghost var before := bmap;
      bmap := bmap + [Entry(block, 1, offset, ino)];
      Appended(before, Entry(block, 1, offset, ino), bmap);
      AppendedDisjoint(before, Entry(block, 1, offset, ino));
      lastBlock := lastBlock[ino := |bmap| - 1];
    }
  }

  lemma AppendedDisjoint(s: seq<Entry>, e: Entry)
    requires e.len == 1
    ensures DisjointEntries(s) && !Known(s, e.block) ==> DisjointEntries(s + [e])
  {
    if DisjointEntries(s) && !Known(s, e.block) {
      var r := s + [e];
      forall i, j | 0 <= i < j < |r| ensures r[i].block + r[i].len <= r[j].block || r[j].block + r[j].len <= r[i].block {
        assert s[i] in s && !Holds(s[i], e.block);
      }
    }
  }

  lemma GrownDisjoint(s: seq<Entry>, k: nat, r: seq<Entry>)
    requires k < |s| && r == s[k := s[k].(len := s[k].len + 1)]
    ensures DisjointEntries(s) && !Known(s, s[k].block + s[k].len) ==> DisjointEntries(r)
  {
    if DisjointEntries(s) && !Known(s, s[k].block + s[k].len) {
      forall i, j | 0 <= i < j < |r| ensures r[i].block + r[i].len <= r[j].block || r[j].block + r[j].len <= r[i].block {
        assert s[i] in s && s[j] in s;
        assert !Holds(s[i], s[k].block + s[k].len) && !Holds(s[j], s[k].block + s[k].len);
      }
      forall e | e in r ensures e.len > 0 {
        var i :| 0 <= i < |r| && r[i] == e;
        assert s[i] in s;
      }
    }
  }

  /** Sorting disjoint entries by their blocks gives a map that can be searched, with the same entries. */
  lemma SortedMap(s: seq<Entry>)
    requires DisjointEntries(s)
    ensures OrderedMap(Sort(s, (e: Entry) => e.block))
    ensures forall e :: e in Sort(s, (e: Entry) => e.block) <==> e in s
    ensures forall b: nat, i: nat, o: int :: MapsTo(Sort(s, (e: Entry) => e.block), b, i, o) <==> MapsTo(s, b, i, o)
  {
    var key := (e: Entry) => e.block;
    var r := Sort(s, key);
    SortIsSorted(s, key);
    Permuted(s, r);
    forall i, j | 0 <= i < j < |r| ensures r[i].block + r[i].len <= r[j].block {
      assert key(r[i]) <= key(r[j]);
      SortedApart(s, r, i, j);
    }
  }

  lemma SortedApart(s: seq<Entry>, r: seq<Entry>, i: nat, j: nat)
    requires DisjointEntries(s) && multiset(r) == multiset(s) && i < j < |r| && r[i].block <= r[j].block
    ensures r[i].block + r[i].len <= r[j].block
  {
    Permuted(s, r);
    assert r[i] in s && r[j] in s;
    var a :| 0 <= a < |s| && s[a] == r[i];
    if r[i] == r[j] {
      OncePlaced(s, r[i]);
      SplitTwice(r, i, j);
    } else {
      var b :| 0 <= b < |s| && s[b] == r[j];
      assert a < b || b < a;
    }
  }

  lemma SplitTwice(r: seq<Entry>, i: nat, j: nat)
    requires i < j < |r| && r[i] == r[j]
    ensures multiset(r)[r[i]] >= 2
  {
    assert r == r[..i] + [r[i]] + r[i + 1..j] + [r[j]] + r[j + 1..];
  }

  lemma {:induction false} OncePlaced(s: seq<Entry>, e: Entry)
    requires DisjointEntries(s)
    ensures multiset(s)[e] <= 1
  {
    if s != [] {
      var n := |s| - 1;
      CountLast(s, e);
      assert forall x <- s[..n] :: x in s;
      OncePlaced(s[..n], e);
      forall a | 0 <= a < n ensures s[..n][a] != s[n] {
        assert s[a] in s;
      }
      CountNone(s[..n], s[n]);
    }
  }

  lemma CountLast(s: seq<Entry>, e: Entry)
    requires s != []
    ensures var n := |s| - 1; multiset(s)[e] == multiset(s[..n])[e] + if s[n] == e then 1 else 0
  {
    assert s == s[..|s| - 1] + [s[|s| - 1]];
  }

  lemma CountNone(s: seq<Entry>, e: Entry)
    requires forall a | 0 <= a < |s| :: s[a] != e
    ensures multiset(s)[e] == 0
  {
    assert e !in s;
  }

  lemma Appended(s: seq<Entry>, e: Entry, r: seq<Entry>)
    requires e.len == 1 && r == s + [e]
    ensures forall b: nat, i: nat, o: int ::
      MapsTo(r, b, i, o) <==> MapsTo(s, b, i, o) || (b == e.block && i == e.ino && o == e.offset)
  {
    assert forall x :: x in s + [e] <==> x in s || x == e;
  }

  lemma Grown(s: seq<Entry>, k: nat, r: seq<Entry>)
    requires k < |s| && r == s[k := s[k].(len := s[k].len + 1)]
    ensures forall b: nat, i: nat, o: int :: MapsTo(r, b, i, o) <==>
      MapsTo(s, b, i, o) || (b == s[k].block + s[k].len && i == s[k].ino && o == s[k].offset + s[k].len)
  {
    var e := s[k];
    forall b: nat, i: nat, o: int ensures MapsTo(r, b, i, o) <==>
        MapsTo(s, b, i, o) || (b == e.block + e.len && i == e.ino && o == e.offset + e.len)
    {
      GrownAt(s, k, b, i, o);
    }
  }

  lemma GrownAt(s: seq<Entry>, k: nat, b: nat, i: nat, o: int)
    requires k < |s|
    ensures var e := s[k];
      MapsTo(s[k := e.(len := e.len + 1)], b, i, o) <==>
        MapsTo(s, b, i, o) || (b == e.block + e.len && i == e.ino && o == e.offset + e.len)
  {
    var e := s[k];
    var g := e.(len := e.len + 1);
    var r := s[k := g];
    assert r[k] == g && g in r && e in s;
    if MapsTo(r, b, i, o) {
      var x :| x in r && Holds(x, b) && x.ino == i && o == x.offset + (b - x.block);
      var j :| 0 <= j < |r| && r[j] == x;
      assert j != k ==> s[j] == x && x in s;
      assert j == k && b < e.block + e.len ==> Holds(e, b);
    }
    if MapsTo(s, b, i, o) {
      var x :| x in s && Holds(x, b) && x.ino == i && o == x.offset + (b - x.block);
      var j :| 0 <= j < |s| && s[j] == x;
      assert j != k ==> r[j] == x && x in r;
      assert j == k ==> Holds(g, b);
    }
    if b == e.block + e.len && i == e.ino && o == e.offset + e.len {
      assert Holds(g, b);
    }
  }

  // ----- Splitting traced ranges against the map

  /** Sorted, and no block in two entries. */
  ghost predicate OrderedMap(s: seq<Entry>) {
    && (forall e <- s :: e.len > 0)
    && forall i, j | 0 <= i < j < |s| :: s[i].block + s[i].len <= s[j].block
  }

  /** Entry `k` is the first one that ends behind `b`; all of them end before if there is none. */
  ghost predicate FirstBehind(s: seq<Entry>, b: nat, k: nat) {
    && k <= |s|
    && (forall j | 0 <= j < k :: s[j].block + s[j].len <= b)
    && forall j | k <= j < |s| :: b < s[j].block + s[j].len
  }

  /** Binary search for the entry that holds a block, or else the next one; |s| if there is none. */
  method FindMapBlock(s: seq<Entry>, b: nat) returns (k: nat)
    requires OrderedMap(s)
    ensures FirstBehind(s, b, k)
  {
    var start, end := 0, |s| - 1;
    while start <= end
      invariant 0 <= start <= end + 1 <= |s|
      invariant forall j | 0 <= j < start :: s[j].block + s[j].len <= b
      invariant forall j | end < j < |s| :: b < s[j].block
      decreases end - start
    {
      var mid := (start + end) / 2;
      assert s[mid] in s;
      if s[mid].block <= b && s[mid].block + s[mid].len > b {
        assert forall j | mid < j < |s| :: s[mid].block + s[mid].len <= s[j].block;
        return mid;
      }
      if s[mid].block < b {
        start := mid + 1;
      } else {
        end := mid - 1;
      }
    }
    k := start;
  }

  /** A line of the output: blocks that no file owns, or blocks of a file from an offset on. */
  datatype Piece = Unmapped(block: nat, len: nat) | Mapped(block: nat, len: nat, offset: int, ino: nat)

  /** A line about blocks of a file comes from one entry. */
  ghost predicate InEntry(s: seq<Entry>, p: Piece)
    requires p.Mapped?
  {
    exists e <- s :: PartOf(e, p)
  }

  ghost predicate PartOf(e: Entry, p: Piece)
    requires p.Mapped?
  {
    && e.block <= p.block && p.block + p.len <= e.block + e.len
    && p.ino == e.ino && p.offset == e.offset + (p.block - e.block)
  }

  /** What a line says is right for each of its blocks. */
  ghost predicate RightPiece(s: seq<Entry>, p: Piece) {
    && p.len > 0 && (p.Mapped? ==> InEntry(s, p))
    && forall b: nat | p.block <= b < p.block + p.len :: RightAt(s, p, b)
  }

  ghost predicate RightAt(s: seq<Entry>, p: Piece, b: nat) {
    if p.Unmapped? then !Known(s, b) else MapsTo(s, b, p.ino, p.offset + (b - p.block))
  }

  /** The lines follow one another from block `b` to block `end`. */
  ghost predicate Chain(ps: seq<Piece>, b: nat, end: nat) {
    if ps == [] then b == end
    else
      var p := ps[|ps| - 1];
      p.block + p.len == end && Chain(ps[..|ps| - 1], b, p.block)
  }

  ghost predicate Pieces(s: seq<Entry>, ps: seq<Piece>, b: nat, end: nat) {
    Chain(ps, b, end) && forall p <- ps :: RightPiece(s, p)
  }

  /** A line is as long as it can be: it ends with its range, or where a file's blocks begin, or with an entry. */
  ghost predicate EndsRight(s: seq<Entry>, p: Piece, end: nat) {
    p.block + p.len == end || (if p.Unmapped? then Known(s, p.block + p.len) else EndsEntry(s, p))
  }

  ghost predicate EndsEntry(s: seq<Entry>, p: Piece)
    requires p.Mapped?
  {
    exists e <- s :: PartOf(e, p) && p.block + p.len == e.block + e.len
  }

  /** The lines of a range, each as long as it can be. */
  ghost predicate Splits(s: seq<Entry>, ps: seq<Piece>, b: nat, end: nat) {
    Pieces(s, ps, b, end) && forall p <- ps :: EndsRight(s, p, end)
  }

  lemma MorePieces(s: seq<Entry>, ps: seq<Piece>, b: nat, p: Piece)
    requires Pieces(s, ps, b, p.block) && RightPiece(s, p)
    ensures Pieces(s, ps + [p], b, p.block + p.len)
  {
    assert (ps + [p])[..|ps|] == ps;
  }

  lemma GapPiece(s: seq<Entry>, k: nat, b: nat, n: nat)
    requires OrderedMap(s) && FirstBehind(s, b, k) && n > 0 && (k < |s| ==> b + n <= s[k].block)
    ensures RightPiece(s, Unmapped(b, n))
    ensures k < |s| && b + n == s[k].block ==> Known(s, b + n)
  {
    if k < |s| {
      assert s[k] in s && (b + n == s[k].block ==> Holds(s[k], b + n));
    }
    forall c: nat | b <= c < b + n ensures RightAt(s, Unmapped(b, n), c) {
      forall e | e in s ensures !Holds(e, c) {
        var j :| 0 <= j < |s| && s[j] == e;
        if k < j {
          assert s[k].block + s[k].len <= s[j].block;
        }
      }
    }
  }

  lemma EntryPiece(s: seq<Entry>, k: nat, b: nat, n: nat)
    requires k < |s| && n > 0 && s[k].block <= b && b + n <= s[k].block + s[k].len
    ensures RightPiece(s, Mapped(b, n, s[k].offset + (b - s[k].block), s[k].ino))
    ensures b + n == s[k].block + s[k].len ==> EndsEntry(s, Mapped(b, n, s[k].offset + (b - s[k].block), s[k].ino))
  {
    var e := s[k];
    assert e in s;
    var p := Mapped(b, n, e.offset + (b - e.block), e.ino);
    assert PartOf(e, p);
    forall c: nat | b <= c < b + n ensures RightAt(s, p, c) {
      assert Holds(e, c);
    }
  }

  /** Splits the blocks of a traced range into the lines of the output. */
  method DumpRange(s: seq<Entry>, block: nat, count: nat) returns (ps: seq<Piece>)
    requires OrderedMap(s)
    ensures Splits(s, ps, block, block + count)
  {
    hide OrderedMap, FirstBehind, Pieces, RightPiece, Known, EndsEntry;
    ps := [];
    var b: nat, len: nat := block, count;
    NoPieces(s, block);
    while len > 0
      invariant b + len == block + count && Pieces(s, ps, block, b)
      invariant forall p <- ps :: EndsRight(s, p, block + count)
    {
      var k := FindMapBlock(s, b);
      BehindFacts(s, b, k);
      if k == |s| {
        GapPiece(s, k, b, len);
        MorePieces(s, ps, block, Unmapped(b, len));
        ps := ps + [Unmapped(b, len)];
        b, len := b + len, 0;
        break;
      }
      if b < s[k].block {
        var cur := Min(s[k].block - b, len);
        GapPiece(s, k, b, cur);
        MorePieces(s, ps, block, Unmapped(b, cur));
        ps := ps + [Unmapped(b, cur)];
        len := len - cur;
        b := b + cur;
        if len == 0 {
          break;
        }
      }
      var cur := Min(len, s[k].len - (b - s[k].block));
      EntryPiece(s, k, b, cur);
      var p := Mapped(b, cur, s[k].offset + (b - s[k].block), s[k].ino);
      MorePieces(s, ps, block, p);
      ps := ps + [p];
      len := len - cur;
      b := b + cur;
    }
  }

  /** The lines of several ranges, one after the other. */
  function AllLines(pss: seq<seq<Piece>>): seq<Piece> {
    if pss == [] then [] else AllLines(pss[..|pss| - 1]) + pss[|pss| - 1]
  }

  /** Each range has its lines: they follow one another from its first block to its end. */
  ghost predicate RangesSplit(s: seq<Entry>, ranges: seq<Interval>, pss: seq<seq<Piece>>) {
    && |pss| == |ranges|
    && forall i | 0 <= i < |ranges| :: Splits(s, pss[i], ranges[i].first, ranges[i].first + ranges[i].len)
  }

  /** One group of lines for each range in the partition, in their order: they make up its blocks, from the first on. */
  ghost predicate RangeGroups(s: seq<Entry>, traced: seq<Traced>, partitionStart: int, perBlock: nat, which: seq<nat>,
                              pss: seq<seq<Piece>>) {
    && |pss| == |which|
    && forall i, q: nat, n: nat | 0 <= i < |which| && which[i] < |traced| &&
      BlocksOf(traced[which[i]], partitionStart, perBlock, q, n) :: Splits(s, pss[i], q, q + n)
  }

  lemma SplitGroups(s: seq<Entry>, traced: seq<Traced>, partitionStart: int, perBlock: nat, which: seq<nat>,
                    blocks: seq<Interval>, pss: seq<seq<Piece>>)
    requires Aligned(traced, partitionStart, perBlock, which, blocks) && RangesSplit(s, blocks, pss)
    ensures RangeGroups(s, traced, partitionStart, perBlock, which, pss)
  {
    hide BlocksOf, Splits;
    forall i, q: nat, n: nat | 0 <= i < |which| && BlocksOf(traced[which[i]], partitionStart, perBlock, q, n)
      ensures Splits(s, pss[i], q, q + n)
    {
      BlocksOnce(traced[which[i]], partitionStart, perBlock, q, n, blocks[i].first, blocks[i].len);
    }
  }

  /** All lines are right. */
  lemma {:induction false} LinesRight(s: seq<Entry>, ranges: seq<Interval>, pss: seq<seq<Piece>>)
    requires RangesSplit(s, ranges, pss)
    ensures forall p <- AllLines(pss) :: RightPiece(s, p)
  {
    hide RightPiece, Chain;
    if pss != [] {
      LinesRight(s, ranges[..|ranges| - 1], pss[..|pss| - 1]);
    }
  }

  predicate InPiece(p: Piece, b: nat) {
    p.block <= b < p.block + p.len
  }

  lemma {:induction false} ChainCovers(ps: seq<Piece>, from: nat, end: nat, b: nat)
    requires Chain(ps, from, end)
    ensures from <= b < end ==> exists p <- ps :: InPiece(p, b)
  {
    if ps != [] {
      var n := |ps| - 1;
      ChainCovers(ps[..n], from, ps[n].block, b);
      assert forall p <- ps[..n] :: p in ps;
      assert ps[n] in ps && (ps[n].block <= b < end ==> InPiece(ps[n], b));
    }
  }

  /** Every block of every range is in one of the lines. */
  lemma {:induction false} LinesCover(s: seq<Entry>, ranges: seq<Interval>, pss: seq<seq<Piece>>, b: nat)
    requires RangesSplit(s, ranges, pss) && Covers(ranges, b)
    ensures exists p <- AllLines(pss) :: InPiece(p, b)
  {
    hide Chain, RightPiece, InPiece;
    var n := |ranges| - 1;
    assert ranges == ranges[..n] + [ranges[n]];
    if Has(ranges[n], b) {
      ChainCovers(pss[n], ranges[n].first, ranges[n].first + ranges[n].len, b);
      var p :| p in pss[n] && InPiece(p, b);
      assert p in AllLines(pss);
    } else {
      LinesCover(s, ranges[..n], pss[..n], b);
      var p :| p in AllLines(pss[..n]) && InPiece(p, b);
      assert p in AllLines(pss);
    }
  }

  /** Prints the lines of all traced ranges, in their order. */
  method DumpTimes(s: seq<Entry>, ranges: seq<Interval>) returns (ps: seq<Piece>, ghost pss: seq<seq<Piece>>)
    requires OrderedMap(s)
    ensures ps == AllLines(pss) && RangesSplit(s, ranges, pss)
    ensures forall p <- ps :: RightPiece(s, p)
    ensures forall b: nat | Covers(ranges, b) :: exists p <- ps :: InPiece(p, b)
  {
    hide OrderedMap, Splits, RightPiece, InPiece, Covers;
    ps, pss := [], [];
    var i := 0;
    while i < |ranges|
      invariant i <= |ranges| && ps == AllLines(pss) && RangesSplit(s, ranges[..i], pss)
    {
      var more := DumpRange(s, ranges[i].first, ranges[i].len);
      assert (pss + [more])[..|pss|] == pss;
      ps, pss := ps + more, pss + [more];
      i := i + 1;
    }
    assert ranges[..i] == ranges;
    LinesRight(s, ranges, pss);
    forall b: nat | Covers(ranges, b) ensures exists p <- ps :: InPiece(p, b) {
      LinesCover(s, ranges, pss, b);
    }
  }

  lemma NoPieces(s: seq<Entry>, b: nat)
    ensures Pieces(s, [], b, b)
  {}

  lemma BehindFacts(s: seq<Entry>, b: nat, k: nat)
    requires OrderedMap(s) && FirstBehind(s, b, k)
    ensures k <= |s| && (k < |s| ==> b < s[k].block + s[k].len && s[k].len > 0)
  {
    assert k < |s| ==> s[k] in s;
  }
}
