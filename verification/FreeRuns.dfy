/** Choosing the free runs of blocks that receive the remapped data, and finding the run of a chunk offset. */
module FreeRuns {
  import opened Sorting

  datatype FreeExtent = FreeExtent(block: nat, len: nat, offset: nat)

  datatype Option<T> = None | Some(value: T)

  // ----- Runs of free blocks

  ghost predicate AllFree(used: seq<bool>, block: nat, len: nat) {
    block + len <= |used| && forall b | block <= b < block + len :: !used[b]
  }

  /** A run from a multiple of 8 that cannot go on: it ends at a used block or at the end of the bitmap. */
  ghost predicate MaximalRun(used: seq<bool>, end: nat, x: FreeExtent)
    requires end <= |used|
  {
    && x.len > 0 && x.block % 8 == 0 && x.block + x.len <= end
    && AllFree(used, x.block, x.len)
    && (x.block + x.len == end || used[x.block + x.len])
  }

  /** The runs the scan keeps: maximal, long enough to consider and not long enough to hold everything. */
  ghost predicate ScannedRuns(used: seq<bool>, end: nat, total: nat, minSize: nat, runs: seq<FreeExtent>)
    requires end <= |used|
  {
    && (forall x <- runs :: MaximalRun(used, end, x) && minSize <= x.len <= total)
    && DiskOrder(runs)
  }

  ghost predicate DiskOrder(runs: seq<FreeExtent>) {
    forall i, j | 0 <= i < j < |runs| :: runs[i].block + runs[i].len <= runs[j].block
  }

  /** The first free block at or after `b` in steps of 8. */
  function NextFree(used: seq<bool>, b: nat, end: nat): (r: nat)
    requires end <= |used|
    ensures b <= r && r % 8 == b % 8 && (r < end ==> !used[r])
    ensures forall c | b <= c < r && c < end && c % 8 == b % 8 :: used[c]
    decreases end - b
  {
    if b < end && used[b] then NextFree(used, b + 8, end) else b
  }

  /** The end of the free run around `b`. */
  function RunEnd(used: seq<bool>, b: nat, end: nat): (r: nat)
    requires b <= end <= |used|
    ensures b <= r <= end && AllFree(used, b, r - b)
    ensures r == end || used[r]
    decreases end - b
  {
    if b < end && !used[b] then RunEnd(used, b + 1, end) else b
  }

  datatype Scanned = Scanned(single: Option<FreeExtent>, runs: seq<FreeExtent>)

  /** What the scan finds from `b` on. A single run longer than `total` ends it at once. */
  function Scan(used: seq<bool>, b: nat, end: nat, total: nat, minSize: nat): (r: Scanned)
    requires end <= |used|
    decreases end - b
  {
    if b >= end then Scanned(None, [])
    else
      var first := NextFree(used, (b + 8) / 8 * 8, end);
      if first >= end then Scanned(None, [])
      else
        var stop := RunEnd(used, first, end);
        if stop - first > total then Scanned(Some(FreeExtent(first, total, 0)), [])
        else
          var rest := Scan(used, stop, end, total, minSize);
          if rest.single.Some? || stop - first < minSize then rest
          else Scanned(None, [FreeExtent(first, stop - first, 0)] + rest.runs)
  }

  lemma ScanStep(used: seq<bool>, b: nat, end: nat, total: nat, minSize: nat)
    requires b < end <= |used|
    ensures var first := NextFree(used, (b + 8) / 8 * 8, end);
      var whole := Scan(used, b, end, total, minSize);
      if first >= end then whole == Scanned(None, [])
      else
        var stop := RunEnd(used, first, end);
        var rest := Scan(used, stop, end, total, minSize);
        b < stop && whole ==
          if stop - first > total then Scanned(Some(FreeExtent(first, total, 0)), [])
          else if rest.single.Some? || stop - first < minSize then rest
          else Scanned(None, [FreeExtent(first, stop - first, 0)] + rest.runs)
  {
    hide AllFree;
  }

  lemma ScanNothing(used: seq<bool>, b: nat, end: nat, total: nat, minSize: nat)
    requires end <= |used| && (b >= end || NextFree(used, (b + 8) / 8 * 8, end) >= end)
    ensures Scan(used, b, end, total, minSize) == Scanned(None, [])
  {}

  /** `len` free blocks from `m`, a place past `b` where the scan looks for the start of a run. */
  ghost predicate FreeFrom(used: seq<bool>, b: nat, end: nat, m: nat, len: nat) {
    b < m && m % 8 == 0 && AllFree(used, m, len) && m + len <= end
  }

  ghost predicate InRun(runs: seq<FreeExtent>, m: nat, len: nat) {
    exists x <- runs :: x.block <= m && m + len <= x.block + x.len
  }

  /** The kept runs contain every free stretch that is long enough. */
  ghost predicate FindsAll(used: seq<bool>, b: nat, end: nat, minSize: nat, runs: seq<FreeExtent>) {
    forall m: nat, len: nat | len > 0 && len >= minSize && FreeFrom(used, b, end, m, len) :: InRun(runs, m, len)
  }

  /** Some free stretch is longer than the total. */
  ghost predicate RoomInOne(used: seq<bool>, b: nat, end: nat, total: nat) {
    exists m: nat :: LongerFrom(used, b, end, m, total)
  }

  ghost predicate LongerFrom(used: seq<bool>, b: nat, end: nat, m: nat, total: nat) {
    FreeFrom(used, b, end, m, total + 1)
  }

  ghost predicate FirstLonger(used: seq<bool>, b: nat, end: nat, m: nat, total: nat) {
    LongerFrom(used, b, end, m, total) && forall i: nat | i < m :: !LongerFrom(used, b, end, i, total)
  }

  /**
    The scan finds the first longer run for everything, exactly if there is one. Otherwise it keeps runs that cannot go
    on, in ascending order, and every free stretch of at least `minSize` blocks lies in one of them.
   */
  lemma {:induction false} ScanFinds(used: seq<bool>, b: nat, end: nat, total: nat, minSize: nat)
    requires end <= |used|
    ensures var r := Scan(used, b, end, total, minSize);
      && (r.single.Some? <==> RoomInOne(used, b, end, total))
      && if r.single.Some? then
        var x := r.single.value;
        && x.len == total && x.offset == 0 && AllFree(used, x.block, total) && x.block + total <= end
        && FirstLonger(used, b, end, x.block, total)
      else
        && ScannedRuns(used, end, total, minSize, r.runs) && (forall x <- r.runs :: b <= x.block)
        && FindsAll(used, b, end, minSize, r.runs)
    decreases end - b
  {
    hide Scan, NextFree, RunEnd, ScannedRuns, AllFree, LongerFrom, FindsAll, RoomInOne;
    NothingScanned(used, end, total, minSize);
    var first := NextFree(used, (b + 8) / 8 * 8, end);
    if b >= end || first >= end {
      NoRoom(used, b, end, first, total, minSize);
      ScanNothing(used, b, end, total, minSize);
    } else {
      ScanStep(used, b, end, total, minSize);
      var stop := RunEnd(used, first, end);
      RunEndPast(used, first, end);
      ScanFinds(used, stop, end, total, minSize);
      var rest := Scan(used, stop, end, total, minSize);
      RoomFrom(used, b, end, first, stop, total);
      if stop - first > total {
        FreeLess(used, first, stop - first, total);
      } else if rest.single.None? {
        FindsMore(used, b, end, first, stop, minSize, rest.runs);
        if stop - first >= minSize {
          KeepRun(used, end, total, minSize, first, stop, rest.runs);
        }
      }
    }
  }

  /** Behind the last run there is no free place left. */
  lemma NoRoom(used: seq<bool>, b: nat, end: nat, first: nat, total: nat, minSize: nat)
    requires end <= |used| && first == NextFree(used, (b + 8) / 8 * 8, end) && (b >= end || first >= end)
    ensures !RoomInOne(used, b, end, total) && FindsAll(used, b, end, minSize, [])
  {
    forall m: nat, len: nat | len > 0 ensures !FreeFrom(used, b, end, m, len) {
      assert AllFree(used, m, len) ==> !used[m];
    }
  }

  /** A free stretch past `b` begins in the first run and lies in it, or it is past that run. */
  lemma WhereFree(used: seq<bool>, b: nat, end: nat, first: nat, stop: nat, m: nat, len: nat)
    requires b < end <= |used| && first == NextFree(used, (b + 8) / 8 * 8, end) < end && stop == RunEnd(used, first, end)
    requires len > 0
    ensures FreeFrom(used, b, end, m, len) <==> (first <= m && m % 8 == 0 && m + len <= stop) || FreeFrom(used, stop, end, m, len)
  {
    assert AllFree(used, m, len) ==> !used[m];
    assert AllFree(used, m, len) && m <= stop < m + len ==> !used[stop];
    RunEndPast(used, first, end);
  }

  lemma RoomFrom(used: seq<bool>, b: nat, end: nat, first: nat, stop: nat, total: nat)
    requires b < end <= |used| && first == NextFree(used, (b + 8) / 8 * 8, end) < end && stop == RunEnd(used, first, end)
    ensures RoomInOne(used, b, end, total) <==> stop - first > total || RoomInOne(used, stop, end, total)
    ensures stop - first > total ==> FirstLonger(used, b, end, first, total)
    ensures stop - first <= total ==>
      forall m: nat :: LongerFrom(used, b, end, m, total) <==> LongerFrom(used, stop, end, m, total)
  {
    hide NextFree, RunEnd, AllFree, FreeFrom;
    WhereFree(used, b, end, first, stop, first, total + 1);
    if stop - first > total {
      assert LongerFrom(used, b, end, first, total);
      RunEndPast(used, first, end);
    }
    forall m: nat ensures LongerFrom(used, b, end, m, total) <==>
        (first <= m && m % 8 == 0 && m + (total + 1) <= stop) || LongerFrom(used, stop, end, m, total)
    {
      WhereFree(used, b, end, first, stop, m, total + 1);
    }
    forall m: nat | m <= stop ensures !LongerFrom(used, stop, end, m, total) {
      NotBefore(used, stop, end, m, total + 1);
    }
  }

  lemma NotBefore(used: seq<bool>, b: nat, end: nat, m: nat, len: nat)
    requires m <= b
    ensures !FreeFrom(used, b, end, m, len)
  {}

  lemma FindsMore(used: seq<bool>, b: nat, end: nat, first: nat, stop: nat, minSize: nat, runs: seq<FreeExtent>)
    requires b < end <= |used| && first == NextFree(used, (b + 8) / 8 * 8, end) < end && stop == RunEnd(used, first, end)
    requires FindsAll(used, stop, end, minSize, runs)
    ensures FindsAll(used, b, end, minSize,
        if stop - first >= minSize then [FreeExtent(first, stop - first, 0)] + runs else runs)
  {
    hide NextFree, RunEnd, AllFree, FreeFrom;
    var x := FreeExtent(first, stop - first, 0);
    var all := if stop - first >= minSize then [x] + runs else runs;
    forall m: nat, len: nat | len > 0 && len >= minSize && FreeFrom(used, b, end, m, len) ensures InRun(all, m, len) {
      WhereFree(used, b, end, first, stop, m, len);
      if FreeFrom(used, stop, end, m, len) {
        assert InRun(runs, m, len);
        var y :| y in runs && y.block <= m && m + len <= y.block + y.len;
        assert y in all;
      } else {
        assert x in all;
      }
    }
  }

  lemma NothingScanned(used: seq<bool>, end: nat, total: nat, minSize: nat)
    requires end <= |used|
    ensures ScannedRuns(used, end, total, minSize, [])
  {}

  lemma RunEndPast(used: seq<bool>, b: nat, end: nat)
    requires b < end <= |used| && !used[b]
    ensures b < RunEnd(used, b, end)
  {}

  lemma FreeLess(used: seq<bool>, b: nat, n: nat, m: nat)
    requires AllFree(used, b, n) && m <= n
    ensures AllFree(used, b, m)
  {}

  lemma KeepRun(used: seq<bool>, end: nat, total: nat, minSize: nat, first: nat, stop: nat, runs: seq<FreeExtent>)
    requires first < stop <= end <= |used| && AllFree(used, first, stop - first) && (stop == end || used[stop])
    requires first % 8 == 0 && minSize <= stop - first <= total
    requires ScannedRuns(used, end, total, minSize, runs) && forall x <- runs :: stop <= x.block
    ensures ScannedRuns(used, end, total, minSize, [FreeExtent(first, stop - first, 0)] + runs)
  {
    hide AllFree, MaximalRun;
    var x := FreeExtent(first, stop - first, 0);
    NewRun(used, end, first, stop);
    assert forall y <- [x] + runs :: y == x || y in runs;
    AscendingPrepend(x, runs);
  }

  lemma NewRun(used: seq<bool>, end: nat, first: nat, stop: nat)
    requires first < stop <= end <= |used| && AllFree(used, first, stop - first) && (stop == end || used[stop])
    requires first % 8 == 0
    ensures MaximalRun(used, end, FreeExtent(first, stop - first, 0))
  {}

  lemma AscendingPrepend(x: FreeExtent, runs: seq<FreeExtent>)
    requires DiskOrder(runs) && forall y <- runs :: x.block + x.len <= y.block
    ensures DiskOrder([x] + runs)
  {
    var all := [x] + runs;
    forall i, j | 0 <= i < j < |all| ensures all[i].block + all[i].len <= all[j].block {
      assert all[j] == runs[j - 1];
      if i > 0 {
        assert all[i] == runs[i - 1];
      }
    }
  }

  method SkipUsed(used: seq<bool>, b: nat, end: nat) returns (r: nat)
    requires end <= |used|
    ensures r == NextFree(used, b, end)
  {
    r := b;
    while r < end && used[r]
      invariant NextFree(used, r, end) == NextFree(used, b, end)
      decreases end - r
    {
      r := r + 8;
    }
  }

  method SkipFree(used: seq<bool>, b: nat, end: nat) returns (r: nat)
    requires b <= end <= |used|
    ensures r == RunEnd(used, b, end)
  {
    r := b;
    while r < end && !used[r]
      invariant b <= r <= end && RunEnd(used, r, end) == RunEnd(used, b, end)
    {
      r := r + 1;
    }
  }

  /** The outcome of a scan that had already kept `runs`. */
  ghost function Resume(runs: seq<FreeExtent>, rest: Scanned): Scanned {
    if rest.single.Some? then rest else Scanned(None, runs + rest.runs)
  }

  lemma ResumeMore(runs: seq<FreeExtent>, x: FreeExtent, rest: Scanned)
    ensures Resume(runs + [x], rest) == Resume(runs, if rest.single.Some? then rest else Scanned(None, [x] + rest.runs))
  {
    assert runs + [x] + rest.runs == runs + ([x] + rest.runs);
  }

  lemma ScanPastEnd(used: seq<bool>, b: nat, end: nat, total: nat, minSize: nat)
    requires b >= end && end <= |used|
    ensures Scan(used, b, end, total, minSize) == Scanned(None, [])
  {}

  /** The scan over the bitmap. */
  method ScanBitmap(used: seq<bool>, start: nat, end: nat, total: nat, minSize: nat) returns (r: Scanned)
    requires end <= |used|
    ensures r == Scan(used, start, end, total, minSize)
  {
    hide Scan, NextFree, RunEnd, AllFree;
    var runs: seq<FreeExtent> := [];
    var b := start;
    ScanPastEnd(used, end, end, total, minSize);
    if b >= end {
      ScanPastEnd(used, b, end, total, minSize);
    }
    while b < end
      invariant b <= end || runs == []
      invariant b > end ==> Scan(used, b, end, total, minSize) == Scanned(None, [])
      invariant Resume(runs, Scan(used, b, end, total, minSize)) == Scan(used, start, end, total, minSize)
      decreases end - b
    {
      ScanStep(used, b, end, total, minSize);
      var first := SkipUsed(used, (b + 8) / 8 * 8, end);
      if first >= end {
        return Scanned(None, runs);
      }
      b := SkipFree(used, first, end);
      if b - first > total {
        return Scanned(Some(FreeExtent(first, total, 0)), []);
      }
      if b - first >= minSize {
        var x := FreeExtent(first, b - first, 0);
        ResumeMore(runs, x, Scan(used, b, end, total, minSize));
        runs := runs + [x];
      }
    }
    r := Scanned(None, runs);
  }

  // ----- The offsets of the chosen runs

  /** The runs take consecutive slices of the chunk offsets from `from` to `total`. */
  ghost predicate OffsetsTile(runs: seq<FreeExtent>, from: nat, total: nat) {
    if runs == [] then from == total
    else runs[0].offset == from && runs[0].len > 0 && OffsetsTile(runs[1..], from + runs[0].len, total)
  }

  /** Disjoint free runs tiling the chunk offsets: what the rest of the program relies on. */
  ghost predicate SoundRuns(used: seq<bool>, end: nat, runs: seq<FreeExtent>, total: nat) {
    && (total > 0 ==> OffsetsTile(runs, 0, total))
    && (forall x <- runs :: AllFree(used, x.block, x.len) && x.block + x.len <= end)
    && DiskOrder(runs)
  }

  ghost predicate Holds(x: FreeExtent, o: nat) {
    x.offset <= o < x.offset + x.len
  }

  lemma {:induction false} TileBounds(runs: seq<FreeExtent>, from: nat, total: nat, i: nat)
    requires OffsetsTile(runs, from, total) && i < |runs|
    ensures from <= runs[i].offset && runs[i].offset + runs[i].len <= total && runs[i].len > 0
    ensures forall j | 0 <= j < i :: runs[j].offset + runs[j].len <= runs[i].offset
  {
    if i > 0 {
      TileBounds(runs[1..], from + runs[0].len, total, i - 1);
      forall j | 0 <= j < i ensures runs[j].offset + runs[j].len <= runs[i].offset {
        if j > 0 {
          assert runs[j] == runs[1..][j - 1];
        }
      }
    } else {
      TileTotal(runs, from, total);
    }
  }

  lemma {:induction false} TileTotal(runs: seq<FreeExtent>, from: nat, total: nat)
    requires OffsetsTile(runs, from, total)
    ensures runs == [] ==> from == total
    ensures runs != [] ==> from + runs[0].len <= total
  {
    if runs != [] {
      TileTotal(runs[1..], from + runs[0].len, total);
    }
  }

  /** The place of a chunk offset on the disk. */
  ghost function Target(runs: seq<FreeExtent>, o: nat): nat {
    if runs == [] then 0
    else if Holds(runs[0], o) then runs[0].block + (o - runs[0].offset)
    else Target(runs[1..], o)
  }

  /** Every offset below the total is held by a run. */
  lemma {:induction false} RunOf(runs: seq<FreeExtent>, from: nat, total: nat, o: nat) returns (k: nat)
    requires OffsetsTile(runs, from, total) && from <= o < total
    ensures k < |runs| && Holds(runs[k], o) && Target(runs, o) == runs[k].block + (o - runs[k].offset)
  {
    if Holds(runs[0], o) {
      k := 0;
    } else {
      k := RunOf(runs[1..], from + runs[0].len, total, o);
      k := k + 1;
    }
  }

  lemma {:induction false} TargetAt(runs: seq<FreeExtent>, from: nat, total: nat, o: nat, k: nat)
    requires OffsetsTile(runs, from, total) && k < |runs| && Holds(runs[k], o)
    ensures Target(runs, o) == runs[k].block + (o - runs[k].offset)
  {
    TileBounds(runs, from, total, k);
    if k > 0 {
      TargetAt(runs[1..], from + runs[0].len, total, o, k - 1);
    }
  }

  /** Sound runs place the chunk offsets below the total injectively on free blocks. */
  lemma TargetsFree(used: seq<bool>, end: nat, runs: seq<FreeExtent>, total: nat, o: nat)
    requires SoundRuns(used, end, runs, total) && o < total
    ensures Target(runs, o) < end && Target(runs, o) < |used| && !used[Target(runs, o)]
  {
    var k := RunOf(runs, 0, total, o);
    assert runs[k] in runs;
  }

  lemma TargetsDistinct(used: seq<bool>, end: nat, runs: seq<FreeExtent>, total: nat, o: nat, p: nat)
    requires SoundRuns(used, end, runs, total) && o < total && p < total && o != p
    ensures Target(runs, o) != Target(runs, p)
  {
    var j := RunOf(runs, 0, total, o);
    var k := RunOf(runs, 0, total, p);
    if j < k {
      assert runs[j].block + runs[j].len <= runs[k].block;
    } else if k < j {
      assert runs[k].block + runs[k].len <= runs[j].block;
    }
  }

  /** The places ascend with the chunk offsets. */
  lemma TargetsAscend(used: seq<bool>, end: nat, runs: seq<FreeExtent>, total: nat, o: nat, p: nat)
    requires SoundRuns(used, end, runs, total) && o < p < total
    ensures Target(runs, o) < Target(runs, p)
  {
    hide Target;
    var j := RunOf(runs, 0, total, o);
    var k := RunOf(runs, 0, total, p);
    if j < k {
      assert runs[j].block + runs[j].len <= runs[k].block;
    } else if k < j {
      TileBounds(runs, 0, total, j);
    }
  }

  /** Every block of a run is the target of an offset. */
  lemma RunBlockTarget(runs: seq<FreeExtent>, total: nat, k: nat, i: nat)
    requires OffsetsTile(runs, 0, total) && k < |runs| && i < runs[k].len
    ensures runs[k].offset + i < total && Target(runs, runs[k].offset + i) == runs[k].block + i
  {
    TileBounds(runs, 0, total, k);
    TargetAt(runs, 0, total, runs[k].offset + i, k);
  }

  /** Binary search for the run holding a chunk offset. */
  method FindRemappedOffset(runs: seq<FreeExtent>, total: nat, o: nat) returns (r: Option<FreeExtent>)
    requires OffsetsTile(runs, 0, total)
    ensures r.Some? <==> o < total
    ensures r.Some? ==> r.value in runs && Holds(r.value, o) && Target(runs, o) == r.value.block + (o - r.value.offset)
  {
    var start, end := 0, |runs| - 1;
    while start <= end
      invariant 0 <= start <= end + 1 <= |runs|
      invariant forall j | 0 <= j < start :: runs[j].offset + runs[j].len <= o
      invariant forall j | end < j < |runs| :: o < runs[j].offset
      decreases end - start
    {
      var mid := (start + end) / 2;
      TileBounds(runs, 0, total, mid);
      if runs[mid].offset <= o && runs[mid].offset + runs[mid].len > o {
        TargetAt(runs, 0, total, o, mid);
        return Some(runs[mid]);
      }
      if runs[mid].offset < o {
        start := mid + 1;
      } else {
        forall j | mid <= j < |runs| ensures o < runs[j].offset {
          TileBounds(runs, 0, total, j);
        }
        end := mid - 1;
      }
    }
    if o < total {
      var k := RunOf(runs, 0, total, o);
    }
    r := None;
  }

  // ----- Choosing runs

  /** The total length of the runs that pass a length threshold. */
  function KeptTotal(runs: seq<FreeExtent>, minLen: nat): nat {
    if runs == [] then 0
    else
      var n := |runs| - 1;
      KeptTotal(runs[..n], minLen) + if runs[n].len >= minLen then runs[n].len else 0
  }

  /** How many runs, taken from the front, it takes to reach `total`; all of them if they do not. */
  function Needed(runs: seq<FreeExtent>, total: int): (k: nat)
    ensures k <= |runs|
  {
    if runs == [] || total <= 0 then 0 else 1 + Needed(runs[1..], total - runs[0].len)
  }

  /** The program needs one run more than those that reach the total, taken from the shortest up. */
  predicate EnoughRuns(runs: seq<FreeExtent>, total: nat) {
    Needed(ByLength(runs), total) < |runs|
  }

  /** Half the longest of the shortest runs that reach the total. */
  function Threshold(runs: seq<FreeExtent>, total: nat): nat
    requires total > 0 && runs != []
  {
    var sorted := ByLength(runs);
    var k := Needed(sorted, total);
    SortIsSorted(runs, (x: FreeExtent) => x.len);
    Permuted(runs, sorted);
    sorted[k - 1].len / 2
  }

  function ByLength(runs: seq<FreeExtent>): seq<FreeExtent> {
    Sort(runs, (x: FreeExtent) => x.len)
  }

  function ByStart(runs: seq<FreeExtent>): seq<FreeExtent> {
    Sort(runs, (x: FreeExtent) => x.block)
  }

  lemma {:induction false} KeptMonotone(runs: seq<FreeExtent>, minLen: nat, k: nat)
    requires k <= |runs|
    ensures KeptTotal(runs[..k], minLen) <= KeptTotal(runs, minLen)
  {
    if k < |runs| {
      var n := |runs| - 1;
      assert runs[..n][..k] == runs[..k];
      KeptMonotone(runs[..n], minLen, k);
    } else {
      assert runs[..k] == runs;
    }
  }

  lemma {:induction false} TileAppend(runs: seq<FreeExtent>, from: nat, total: nat, x: FreeExtent)
    requires OffsetsTile(runs, from, total) && x.offset == total && x.len > 0
    ensures OffsetsTile(runs + [x], from, total + x.len)
  {
    if runs != [] {
      TileAppend(runs[1..], from + runs[0].len, total, x);
      assert (runs + [x])[1..] == runs[1..] + [x];
    } else {
      assert (runs + [x])[1..] == [];
    }
  }

  lemma {:induction false} TileLast(runs: seq<FreeExtent>, from: nat, total: nat)
    requires OffsetsTile(runs, from, total) && runs != []
    ensures var n := |runs| - 1;
      OffsetsTile(runs[..n], from, runs[n].offset) && total == runs[n].offset + runs[n].len
  {
    var n := |runs| - 1;
    if n > 0 {
      TileLast(runs[1..], from + runs[0].len, total);
      assert runs[1..][..n - 1] == runs[..n][1..];
    }
  }

  /** The state of the choice after looking at `a` runs. */
  ghost predicate Taking(used: seq<bool>, end: nat, runs: seq<FreeExtent>, minLen: nat, total: nat,
                         taken: seq<FreeExtent>, acc: nat, a: nat)
    requires end <= |used|
  {
    && a <= |runs| && acc == KeptTotal(runs[..a], minLen)
    && OffsetsTile(taken, 0, acc)
    && (taken != [] ==> acc - taken[|taken| - 1].len < total)
    && (forall x <- taken :: MaximalRun(used, end, x))
    && DiskOrder(taken)
    && (forall x <- taken, y <- runs[a..] :: x.block + x.len <= y.block)
    && (taken == [] ==> forall j | 0 <= j < a :: runs[j].len < minLen)
  }

  /** The chosen runs with the last one made as long as the total needs. */
  function Fitted(taken: seq<FreeExtent>, acc: nat, total: nat): seq<FreeExtent>
    requires taken != [] && taken[|taken| - 1].len > acc - total
  {
    var n := |taken| - 1;
    taken[..n] + [taken[n].(len := taken[n].len - (acc - total))]
  }

  lemma TakingStart(used: seq<bool>, end: nat, runs: seq<FreeExtent>, minLen: nat, total: nat)
    requires end <= |used|
    ensures Taking(used, end, runs, minLen, total, [], 0, 0)
  {
    assert runs[..0] == [];
  }

  lemma AscendingTail(runs: seq<FreeExtent>, a: nat)
    requires DiskOrder(runs) && a < |runs|
    ensures runs[a..] == [runs[a]] + runs[a + 1..]
    ensures forall y <- runs[a + 1..] :: runs[a].block + runs[a].len <= y.block
  {}

  lemma AscendingAppend(runs: seq<FreeExtent>, x: FreeExtent)
    requires DiskOrder(runs) && forall y <- runs :: y.block + y.len <= x.block
    ensures DiskOrder(runs + [x])
  {
    var r := runs + [x];
    forall i, j | 0 <= i < j < |r| ensures r[i].block + r[i].len <= r[j].block {
      assert r[i] in runs;
    }
  }

  lemma RunFacts(used: seq<bool>, end: nat, runs: seq<FreeExtent>, total: nat, a: nat, acc: nat)
    requires end <= |used| && ScannedRuns(used, end, total, 0, runs) && a < |runs|
    ensures DiskOrder(runs) && MaximalRun(used, end, runs[a].(offset := acc)) && runs[a].len > 0
  {
    assert runs[a] in runs;
  }

  lemma KeptNext(runs: seq<FreeExtent>, a: nat, minLen: nat)
    requires a < |runs|
    ensures KeptTotal(runs[..a + 1], minLen) == KeptTotal(runs[..a], minLen) + if runs[a].len >= minLen then runs[a].len else 0
  {
    assert runs[..a + 1][..a] == runs[..a];
  }

  lemma TakeNext(used: seq<bool>, end: nat, runs: seq<FreeExtent>, minLen: nat, total: nat,
                 taken: seq<FreeExtent>, acc: nat, a: nat)
    requires end <= |used| && ScannedRuns(used, end, total, 0, runs)
    requires Taking(used, end, runs, minLen, total, taken, acc, a) && a < |runs| && acc < total
    ensures if runs[a].len >= minLen
      then Taking(used, end, runs, minLen, total, taken + [runs[a].(offset := acc)], acc + runs[a].len, a + 1)
      else Taking(used, end, runs, minLen, total, taken, acc, a + 1)
  {
    hide OffsetsTile, DiskOrder, MaximalRun, ScannedRuns, KeptTotal, AllFree;
    var x := runs[a].(offset := acc);
    RunFacts(used, end, runs, total, a, acc);
    KeptNext(runs, a, minLen);
    AscendingTail(runs, a);
    assert runs[a..] == [runs[a]] + runs[a + 1..];
    assert runs[a] in runs[a..] && forall z <- runs[a + 1..] :: z in runs[a..];
    if x.len >= minLen {
      TileAppend(taken, 0, acc, x);
      AscendingAppend(taken, x);
      AppendMembers(used, end, taken, x, runs[a + 1..]);
    }
  }

  lemma AppendMembers(used: seq<bool>, end: nat, taken: seq<FreeExtent>, x: FreeExtent, rest: seq<FreeExtent>)
    requires end <= |used| && (forall y <- taken :: MaximalRun(used, end, y)) && MaximalRun(used, end, x)
    requires forall y <- taken, z <- rest :: y.block + y.len <= z.block
    requires forall z <- rest :: x.block + x.len <= z.block
    ensures forall y <- taken + [x] :: MaximalRun(used, end, y)
    ensures forall y <- taken + [x], z <- rest :: y.block + y.len <= z.block
  {
    hide MaximalRun;
    assert forall y <- taken + [x] :: y in taken || y == x;
  }

  lemma TakenSome(used: seq<bool>, end: nat, runs: seq<FreeExtent>, minLen: nat, total: nat,
                  taken: seq<FreeExtent>, acc: nat, a: nat)
    requires end <= |used| && total > 0 && Taking(used, end, runs, minLen, total, taken, acc, a)
    requires a == |runs| || acc >= total
    requires exists x <- runs :: x.len >= minLen
    ensures taken != []
  {
    var x :| x in runs && x.len >= minLen;
    var j :| 0 <= j < |runs| && runs[j] == x;
  }

  lemma FitLast(used: seq<bool>, end: nat, runs: seq<FreeExtent>, minLen: nat, total: nat,
                taken: seq<FreeExtent>, acc: nat, a: nat)
    requires end <= |used| && total > 0 && taken != []
    requires Taking(used, end, runs, minLen, total, taken, acc, a) && (a == |runs| || acc >= total)
    ensures taken[|taken| - 1].len > acc - total
    ensures OffsetsTile(Fitted(taken, acc, total), 0, total)
    ensures SoundRuns(used, end, Fitted(taken, acc, total), total) <==> KeptTotal(runs, minLen) >= total
  {
    hide OffsetsTile, KeptTotal, MaximalRun;
    var n := |taken| - 1;
    TileLast(taken, 0, acc);
    var last := taken[n];
    var fitted := last.(len := last.len - (acc - total));
    var fit := taken[..n] + [fitted];
    TileAppend(taken[..n], 0, last.offset, fitted);
    KeptMonotone(runs, minLen, a);
    assert last in taken && MaximalRun(used, end, last);
    if acc < total {
      assert runs[..a] == runs;
      OverlongLast(used, end, last, fitted.len);
      assert fit[n] == fitted;
    } else {
      ShortenedSound(used, end, taken, fitted.len);
    }
  }

  /** A maximal run made longer is no longer free. */
  lemma OverlongLast(used: seq<bool>, end: nat, x: FreeExtent, len: nat)
    requires end <= |used| && MaximalRun(used, end, x) && len > x.len
    ensures !(AllFree(used, x.block, len) && x.block + len <= end)
  {}

  lemma ShortenedSound(used: seq<bool>, end: nat, taken: seq<FreeExtent>, len: nat)
    requires end <= |used| && taken != [] && len <= taken[|taken| - 1].len
    requires (forall x <- taken :: MaximalRun(used, end, x)) && DiskOrder(taken)
    ensures var n := |taken| - 1;
      var fit := taken[..n] + [taken[n].(len := len)];
      (forall x <- fit :: AllFree(used, x.block, x.len) && x.block + x.len <= end) && DiskOrder(fit)
  {
    var n := |taken| - 1;
    var fitted := taken[n].(len := len);
    var fit := taken[..n] + [fitted];
    assert taken[n] in taken;
    assert forall y <- fit :: y in taken || y == fitted;
    forall i, j | 0 <= i < j < |fit| ensures fit[i].block + fit[i].len <= fit[j].block {
      assert taken[i].block + taken[i].len <= taken[j].block;
    }
  }

  /** The runs taken so far are those of the first `a` that pass, with offsets. */
  ghost predicate TakenSame(runs: seq<FreeExtent>, p: nat, taken: seq<FreeExtent>, acc: nat, a: nat) {
    && a <= |runs| && |taken| == |Passing(runs[..a], p)| && acc == TotalLen(Passing(runs[..a], p))
    && forall i | 0 <= i < |taken| ::
      taken[i].block == Passing(runs[..a], p)[i].block && taken[i].len == Passing(runs[..a], p)[i].len
  }

  lemma PassingNext(runs: seq<FreeExtent>, p: nat, a: nat)
    requires a < |runs|
    ensures Passing(runs[..a + 1], p) == Passing(runs[..a], p) + if 2 * runs[a].len + 1 >= p then [runs[a]] else []
  {
    assert runs[..a + 1][..a] == runs[..a];
  }

  lemma SameStart(runs: seq<FreeExtent>, p: nat)
    ensures TakenSame(runs, p, [], 0, 0)
  {
    assert runs[..0] == [];
  }

  lemma SameNext(runs: seq<FreeExtent>, p: nat, taken: seq<FreeExtent>, acc: nat, a: nat)
    requires a < |runs| && TakenSame(runs, p, taken, acc, a)
    ensures if runs[a].len >= p / 2 then TakenSame(runs, p, taken + [runs[a].(offset := acc)], acc + runs[a].len, a + 1)
      else TakenSame(runs, p, taken, acc, a + 1)
  {
    hide Passing, TotalLen;
    PassingNext(runs, p, a);
    var t := Passing(runs[..a], p);
    HalfMeans(runs[a].len, p);
    TotalAppend(t, runs[a]);
    assert Passing(runs[..a + 1], p) == if runs[a].len >= p / 2 then t + [runs[a]] else t;
  }

  lemma HalfMeans(len: nat, p: nat)
    ensures 2 * len + 1 >= p <==> len >= p / 2
  {}

  lemma TotalAppend(t: seq<FreeExtent>, x: FreeExtent)
    ensures TotalLen(t + [x]) == TotalLen(t) + x.len
  {
    assert (t + [x])[..|t|] == t;
  }

  lemma {:induction false} PassingPrefix(runs: seq<FreeExtent>, p: nat, a: nat)
    requires a <= |runs|
    ensures Passing(runs[..a], p) <= Passing(runs, p)
  {
    if a < |runs| {
      var n := |runs| - 1;
      assert runs[..n][..a] == runs[..a];
      PassingPrefix(runs[..n], p, a);
    } else {
      assert runs[..a] == runs;
    }
  }

  /** The runs taken are the first that pass. */
  lemma SameEnd(runs: seq<FreeExtent>, p: nat, total: nat, taken: seq<FreeExtent>, acc: nat, a: nat)
    requires TakenSame(runs, p, taken, acc, a) && taken != [] && (a == |runs| || acc >= total)
    requires acc - taken[|taken| - 1].len < total && taken[|taken| - 1].len > acc - total
    requires OffsetsTile(Fitted(taken, acc, total), 0, total)
    ensures TakesFirst(Passing(runs, p), total, Fitted(taken, acc, total))
  {
    hide Passing, TotalLen, OffsetsTile;
    PassingPrefix(runs, p, a);
    var t, all := Passing(runs[..a], p), Passing(runs, p);
    var n := |taken| - 1;
    assert all[..|t|] == t && all[..n] == t[..n];
    TotalAppend(t[..n], t[n]);
    assert t == t[..n] + [t[n]];
    if a == |runs| {
      assert runs[..a] == runs;
    }
  }

  /**
    Takes the runs of at least half the length of `p`, from the front, until they reach the total; the last one is
    fitted to it.
   */
  method TakeRuns(ghost used: seq<bool>, ghost end: nat, runs: seq<FreeExtent>, minLen: nat, total: nat, ghost p: nat)
    returns (taken: seq<FreeExtent>)
    requires end <= |used| && total > 0 && ScannedRuns(used, end, total, 0, runs) && minLen == p / 2
    requires exists x <- runs :: x.len >= minLen
    ensures TakesFirst(Passing(runs, p), total, taken)
    ensures SoundRuns(used, end, taken, total) <==> TotalLen(Passing(runs, p)) >= total
  {
    taken := [];
    hide *;
    var a: nat, acc: nat := 0, 0;
    TakingStart(used, end, runs, minLen, total);
    SameStart(runs, p);
    while a < |runs| && acc < total
      invariant a <= |runs| && Taking(used, end, runs, minLen, total, taken, acc, a)
      invariant TakenSame(runs, p, taken, acc, a)
    {
      TakeNext(used, end, runs, minLen, total, taken, acc, a);
      SameNext(runs, p, taken, acc, a);
      if runs[a].len >= minLen {
        taken := taken + [runs[a].(offset := acc)];
        acc := acc + runs[a].len;
      }
      a := a + 1;
    }
    TakenSome(used, end, runs, minLen, total, taken, acc, a);
    FitLast(used, end, runs, minLen, total, taken, acc, a);
    TakenEnds(used, end, runs, minLen, total, taken, acc, a);
    SameEnd(runs, p, total, taken, acc, a);
    PassingIs(runs, p);
    taken := Fitted(taken, acc, total);
  }

  lemma TakenEnds(used: seq<bool>, end: nat, runs: seq<FreeExtent>, minLen: nat, total: nat, taken: seq<FreeExtent>,
                  acc: nat, a: nat)
    requires end <= |used| && taken != [] && Taking(used, end, runs, minLen, total, taken, acc, a)
    ensures acc - taken[|taken| - 1].len < total
  {
    hide KeptTotal, OffsetsTile, MaximalRun, DiskOrder;
  }

  // ----- The threshold, without sorting

  function TotalLen(runs: seq<FreeExtent>): nat {
    if runs == [] then 0 else TotalLen(runs[..|runs| - 1]) + runs[|runs| - 1].len
  }

  /** The total length of the runs shorter than `p`. */
  function ShorterLen(runs: seq<FreeExtent>, p: nat): nat {
    if runs == [] then 0
    else ShorterLen(runs[..|runs| - 1], p) + if runs[|runs| - 1].len < p then runs[|runs| - 1].len else 0
  }

  /** Even without any one of them the runs can hold the data. */
  ghost predicate SpareRun(runs: seq<FreeExtent>, total: nat) {
    runs != [] && forall x <- runs :: TotalLen(runs) - x.len >= total
  }

  /** The runs shorter than `p` cannot hold the data, those of at most that length can. */
  ghost predicate IsPivot(runs: seq<FreeExtent>, total: nat, p: nat) {
    ShorterLen(runs, p) < total <= ShorterLen(runs, p + 1)
  }

  /** The runs of at least half that length, in their order. */
  function Passing(runs: seq<FreeExtent>, p: nat): seq<FreeExtent> {
    if runs == [] then []
    else Passing(runs[..|runs| - 1], p) + if 2 * runs[|runs| - 1].len + 1 >= p then [runs[|runs| - 1]] else []
  }

  /** The data fits into the runs that pass. A caller can compute this from the bitmap. */
  ghost predicate PassingHold(runs: seq<FreeExtent>, total: nat) {
    && total > 0 && SpareRun(runs, total)
    && forall p: nat | IsPivot(runs, total, p) :: TotalLen(Passing(runs, p)) >= total
  }

  /**
    The chosen runs are the first of `all`, until they reach the total; they have consecutive offsets, and the last one
    has the length that is missing.
   */
  ghost predicate TakesFirst(all: seq<FreeExtent>, total: nat, chosen: seq<FreeExtent>) {
    && chosen != [] && |chosen| <= |all| && OffsetsTile(chosen, 0, total)
    && (forall i | 0 <= i < |chosen| :: chosen[i].block == all[i].block)
    && (forall i | 0 <= i < |chosen| - 1 :: chosen[i].len == all[i].len)
    && TotalLen(all[..|chosen| - 1]) < total
    && (|chosen| < |all| ==> TotalLen(all[..|chosen|]) >= total)
  }

  lemma {:induction false} ShorterConcat(a: seq<FreeExtent>, b: seq<FreeExtent>, p: nat)
    ensures ShorterLen(a + b, p) == ShorterLen(a, p) + ShorterLen(b, p)
    ensures TotalLen(a + b) == TotalLen(a) + TotalLen(b)
  {
    if b == [] {
      assert a + b == a;
    } else {
      var n := |b| - 1;
      ShorterConcat(a, b[..n], p);
      assert (a + b)[..|a + b| - 1] == a + b[..n];
    }
  }

  lemma {:induction false} ShorterAll(a: seq<FreeExtent>, p: nat)
    ensures (forall x <- a :: x.len < p) ==> ShorterLen(a, p) == TotalLen(a)
    ensures (forall x <- a :: x.len >= p) ==> ShorterLen(a, p) == 0
    ensures ShorterLen(a, p) <= TotalLen(a)
  {
    if a != [] {
      var n := |a| - 1;
      assert a[n] in a && forall x <- a[..n] :: x in a;
      ShorterAll(a[..n], p);
    }
  }

  lemma {:induction false} ShorterMonotone(a: seq<FreeExtent>, p: nat, q: nat)
    requires p <= q
    ensures ShorterLen(a, p) <= ShorterLen(a, q)
  {
    if a != [] {
      ShorterMonotone(a[..|a| - 1], p, q);
    }
  }

  lemma {:induction false} LengthsPermuted(a: seq<FreeExtent>, b: seq<FreeExtent>, p: nat)
    requires multiset(a) == multiset(b)
    ensures ShorterLen(a, p) == ShorterLen(b, p) && TotalLen(a) == TotalLen(b)
  {
    hide TotalLen, ShorterLen;
    Permuted(a, b);
    if a != [] {
      var n := |a| - 1;
      assert a[n] in b;
      var i :| 0 <= i < |b| && b[i] == a[n];
      RemoveOne(b, i);
      RemoveOne(a, n);
      assert a[..n] + a[n + 1..] == a[..n];
      LengthsPermuted(a[..n], b[..i] + b[i + 1..], p);
      LengthRemoved(b, i, p);
      LengthRemoved(a, n, p);
    }
  }

  lemma LengthRemoved(a: seq<FreeExtent>, i: nat, p: nat)
    requires i < |a|
    ensures var rest := a[..i] + a[i + 1..];
      && TotalLen(a) == TotalLen(rest) + a[i].len
      && ShorterLen(a, p) == ShorterLen(rest, p) + if a[i].len < p then a[i].len else 0
  {
    hide TotalLen, ShorterLen;
    assert a == a[..i] + ([a[i]] + a[i + 1..]);
    ShorterConcat(a[..i], a[i + 1..], p);
    ShorterConcat(a[..i], [a[i]] + a[i + 1..], p);
    ShorterConcat([a[i]], a[i + 1..], p);
    OneLength(a[i], p);
  }

  lemma OneLength(x: FreeExtent, p: nat)
    ensures TotalLen([x]) == x.len && ShorterLen([x], p) == if x.len < p then x.len else 0
  {
    assert [x][..0] == [];
  }

  /** There is only one pivot. */
  lemma PivotUnique(runs: seq<FreeExtent>, total: nat, p: nat, q: nat)
    requires IsPivot(runs, total, p) && IsPivot(runs, total, q)
    ensures p == q
  {
    if p < q {
      ShorterMonotone(runs, p + 1, q);
    } else if q < p {
      ShorterMonotone(runs, q + 1, p);
    }
  }

  lemma {:induction false} PrefixLess(a: seq<FreeExtent>, j: nat, k: nat)
    requires j <= k <= |a|
    ensures TotalLen(a[..j]) <= TotalLen(a[..k])
  {
    ShorterConcat(a[..j], a[j..k], 0);
    assert a[..j] + a[j..k] == a[..k];
  }

  /** How many runs are needed: the least number whose lengths sum to the total, or all if there is none. */
  lemma {:induction false} NeededIsLeast(runs: seq<FreeExtent>, total: int)
    ensures var k := Needed(runs, total);
      && (forall j | 0 <= j < k :: TotalLen(runs[..j]) < total)
      && (k < |runs| ==> TotalLen(runs[..k]) >= total)
      && (k > 0 && TotalLen(runs) >= total ==> TotalLen(runs[..k]) >= total)
  {
    hide TotalLen, Needed;
    TotalNone();
    NeededStep(runs, total);
    assert runs[..0] == [];
    if runs != [] && total > 0 {
      var rest := runs[1..];
      NeededIsLeast(rest, total - runs[0].len);
      forall j | 0 < j <= |runs| ensures TotalLen(runs[..j]) == runs[0].len + TotalLen(rest[..j - 1]) {
        assert runs[..j] == [runs[0]] + rest[..j - 1];
        ShorterConcat([runs[0]], rest[..j - 1], 0);
        OneLength(runs[0], 0);
      }
      assert runs[..|runs|] == runs && rest[..|rest|] == rest && rest[..0] == [];
    }
  }

  lemma TotalNone()
    ensures TotalLen([]) == 0
  {}

  lemma NeededStep(runs: seq<FreeExtent>, total: int)
    ensures Needed(runs, total) == if runs == [] || total <= 0 then 0 else 1 + Needed(runs[1..], total - runs[0].len)
  {}

  lemma SortedFacts(runs: seq<FreeExtent>)
    ensures var sorted := ByLength(runs);
      && multiset(sorted) == multiset(runs) && |sorted| == |runs| && (forall x :: x in sorted <==> x in runs)
      && (forall i, j | 0 <= i < j < |sorted| :: sorted[i].len <= sorted[j].len)
  {
    var key := (x: FreeExtent) => x.len;
    SortIsSorted(runs, key);
    Permuted(runs, ByLength(runs));
    forall i, j | 0 <= i < j < |ByLength(runs)| ensures ByLength(runs)[i].len <= ByLength(runs)[j].len {
      assert key(ByLength(runs)[i]) <= key(ByLength(runs)[j]);
    }
  }

  /** There are enough runs exactly if any one of them can be spared. */
  lemma EnoughMeans(runs: seq<FreeExtent>, total: nat)
    ensures EnoughRuns(runs, total) <==> SpareRun(runs, total)
  {
    hide ByLength;
    var sorted := ByLength(runs);
    SortedFacts(runs);
    LengthsPermuted(runs, sorted, 0);
    NeededIsLeast(sorted, total);
    if runs != [] {
      var n := |sorted| - 1;
      assert sorted[n] in runs;
      assert TotalLen(sorted) == TotalLen(sorted[..n]) + sorted[n].len;
      forall x | x in runs ensures x.len <= sorted[n].len {
        var i :| 0 <= i < |sorted| && sorted[i] == x;
      }
      if EnoughRuns(runs, total) {
        PrefixLess(sorted, Needed(sorted, total), n);
      }
    }
  }

  /** The length of the last run that is needed, from the shortest up, is the pivot. */
  lemma PivotIs(runs: seq<FreeExtent>, total: nat)
    requires total > 0 && EnoughRuns(runs, total)
    ensures var sorted := ByLength(runs);
      var k := Needed(sorted, total);
      0 < k <= |sorted| && IsPivot(runs, total, sorted[k - 1].len)
  {
    hide ByLength;
    var sorted := ByLength(runs);
    var k := Needed(sorted, total);
    SortedFacts(runs);
    NeededIsLeast(sorted, total);
    var p := sorted[k - 1].len;
    LengthsPermuted(runs, sorted, p);
    LengthsPermuted(runs, sorted, p + 1);
    PivotBelow(sorted, k - 1, p);
    PivotUpto(sorted, k, p);
  }

  lemma PivotBelow(sorted: seq<FreeExtent>, j: nat, p: nat)
    requires j <= |sorted| && forall i | j <= i < |sorted| :: sorted[i].len >= p
    ensures ShorterLen(sorted, p) <= TotalLen(sorted[..j])
  {
    assert sorted == sorted[..j] + sorted[j..];
    ShorterConcat(sorted[..j], sorted[j..], p);
    ShorterAll(sorted[..j], p);
    ShorterAll(sorted[j..], p);
  }

  lemma PivotUpto(sorted: seq<FreeExtent>, k: nat, p: nat)
    requires k <= |sorted| && forall i | 0 <= i < k :: sorted[i].len <= p
    ensures TotalLen(sorted[..k]) <= ShorterLen(sorted, p + 1)
  {
    assert sorted == sorted[..k] + sorted[k..];
    ShorterConcat(sorted[..k], sorted[k..], p + 1);
    ShorterAll(sorted[..k], p + 1);
  }

  /** The runs of at least half the length of the pivot, and what they hold. */
  lemma {:induction false} PassingIs(runs: seq<FreeExtent>, p: nat)
    ensures TotalLen(Passing(runs, p)) == KeptTotal(runs, p / 2)
  {
    if runs != [] {
      var n := |runs| - 1;
      var t := Passing(runs[..n], p);
      PassingIs(runs[..n], p);
      TotalAppend(t, runs[n]);
      HalfMeans(runs[n].len, p);
      assert Passing(runs, p) == if runs[n].len >= p / 2 then t + [runs[n]] else t;
    }
  }

  /** The runs of the threshold can hold the data exactly if those can that pass. */
  lemma ThresholdMeans(runs: seq<FreeExtent>, total: nat)
    ensures ThresholdSafe(runs, total) <==> PassingHold(runs, total)
  {
    hide ByLength, Needed, IsPivot, SpareRun, Passing, KeptTotal;
    EnoughMeans(runs, total);
    if total > 0 && EnoughRuns(runs, total) {
      PivotIs(runs, total);
      var sorted := ByLength(runs);
      var p := sorted[Needed(sorted, total) - 1].len;
      PassingIs(runs, p);
      assert Threshold(runs, total) == p / 2;
      forall q: nat | IsPivot(runs, total, q) ensures q == p {
        PivotUnique(runs, total, p, q);
      }
    }
  }

  // ----- The whole choice

  /** The runs the threshold leaves can hold all the data. A caller can compute this from the bitmap. */
  predicate ThresholdSafe(runs: seq<FreeExtent>, total: nat) {
    total > 0 && EnoughRuns(runs, total) && KeptTotal(runs, Threshold(runs, total)) >= total
  }

  /** The threshold never discards every run. */
  lemma ThresholdKeepsOne(runs: seq<FreeExtent>, total: nat)
    requires total > 0 && runs != []
    ensures exists x <- runs :: x.len >= Threshold(runs, total)
  {
    var sorted := ByLength(runs);
    SortIsSorted(runs, (x: FreeExtent) => x.len);
    Permuted(runs, sorted);
    var x := sorted[Needed(sorted, total) - 1];
    assert x in sorted;
    assert x in runs && x.len >= x.len / 2;
  }

  /** Counts how many of the shortest runs reach the total. */
  method CountNeeded(sorted: seq<FreeExtent>, total: nat) returns (k: nat)
    ensures k == Needed(sorted, total)
  {
    k := 0;
    var acc := 0;
    assert sorted[0..] == sorted;
    while k < |sorted| && acc < total
      invariant k <= |sorted| && k + Needed(sorted[k..], total - acc) == Needed(sorted, total)
    {
      acc := acc + sorted[k].len;
      k := k + 1;
    }
  }

  lemma NothingForZero(used: seq<bool>, end: nat, runs: seq<FreeExtent>, total: nat, minSize: nat)
    requires end <= |used| && ScannedRuns(used, end, total, minSize, runs)
    ensures runs != [] ==> total > 0
    ensures ScannedRuns(used, end, total, 0, runs)
    ensures forall i, j | 0 <= i < j < |runs| :: runs[i].block < runs[j].block
  {
    if runs != [] {
      assert runs[0] in runs;
    }
    forall i, j | 0 <= i < j < |runs| ensures runs[i].block < runs[j].block {
      assert runs[i] in runs;
    }
  }

  lemma ChoiceFacts(used: seq<bool>, end: nat, runs: seq<FreeExtent>, total: nat, minSize: nat)
    requires end <= |used| && ScannedRuns(used, end, total, minSize, runs)
    ensures ScannedRuns(used, end, total, 0, runs) && ByStart(runs) == runs && |ByLength(runs)| == |runs|
    ensures runs != [] ==> total > 0 && Needed(ByLength(runs), total) >= 1
    ensures runs != [] ==> exists x <- runs :: x.len >= Threshold(runs, total)
  {
    NothingForZero(used, end, runs, total, minSize);
    SortAscending(runs, (x: FreeExtent) => x.block);
    SortIsSorted(runs, (x: FreeExtent) => x.len);
    Permuted(runs, ByLength(runs));
    if runs != [] {
      ThresholdKeepsOne(runs, total);
    }
  }

  /** Everything in the first longer run if there is one, otherwise in the first runs of at least half the pivot. */
  ghost predicate Chosen(used: seq<bool>, start: nat, end: nat, total: nat, runs: seq<FreeExtent>,
                         chosen: seq<FreeExtent>) {
    if RoomInOne(used, start, end, total) then
      |chosen| == 1 && FirstLonger(used, start, end, chosen[0].block, total) && chosen[0].len == total
    else exists p :: IsPivot(runs, total, p) && TakesFirst(Passing(runs, p), total, chosen)
  }

  /** What the count of the needed runs and the length of the last of them mean. */
  lemma ChoiceMeans(used: seq<bool>, end: nat, runs: seq<FreeExtent>, total: nat, minSize: nat)
    requires end <= |used| && ScannedRuns(used, end, total, minSize, runs)
    ensures var sorted := ByLength(runs);
      var k := Needed(sorted, total);
      && ScannedRuns(used, end, total, 0, runs) && ByStart(runs) == runs && |sorted| == |runs|
      && (k < |runs| <==> SpareRun(runs, total))
      && (k < |runs| ==>
        && total > 0 && k > 0 && IsPivot(runs, total, sorted[k - 1].len)
        && (exists x <- runs :: x.len >= sorted[k - 1].len / 2)
        && (PassingHold(runs, total) <==> TotalLen(Passing(runs, sorted[k - 1].len)) >= total))
  {
    hide ByLength, ByStart, Needed, SpareRun, IsPivot, ScannedRuns, KeptTotal, TotalLen, Passing, PassingHold;
    ChoiceFacts(used, end, runs, total, minSize);
    EnoughMeans(runs, total);
    ThresholdMeans(runs, total);
    var sorted := ByLength(runs);
    var k := Needed(sorted, total);
    if k < |runs| {
      PivotIs(runs, total);
      PassingIs(runs, sorted[k - 1].len);
    }
  }

  lemma SingleRun(used: seq<bool>, end: nat, x: FreeExtent, total: nat)
    requires end <= |used| && x.len == total && x.offset == 0 && AllFree(used, x.block, total) && x.block + total <= end
    ensures SoundRuns(used, end, [x], total) && (total > 0 ==> OffsetsTile([x], 0, total))
  {
    assert [x][1..] == [];
  }

  /**
    Finds the free blocks for `total` blocks of data. None where the program exits: there is no longer run for all of
    them, and no run to spare. With several runs it takes the first ones of at least half the length of the pivot, and
    the result is sound exactly when those can hold the data.
   */
  method FindFreeBlocks(used: seq<bool>, start: nat, end: nat, total: nat,
                        minSize: nat) returns (r: Option<seq<FreeExtent>>)
    requires end <= |used|
    ensures var s := Scan(used, start, end, total, minSize);
      && (s.single.Some? <==> RoomInOne(used, start, end, total))
      && (s.single.None? ==> FindsAll(used, start, end, minSize, s.runs))
      && (r.None? <==> s.single.None? && !SpareRun(s.runs, total))
      && (r.Some? ==> Chosen(used, start, end, total, s.runs, r.value))
      && (r.Some? ==> (SoundRuns(used, end, r.value, total) <==> s.single.Some? || PassingHold(s.runs, total)))
    ensures r.Some? && total > 0 ==> OffsetsTile(r.value, 0, total)
  {
    hide Passing, IsPivot, SpareRun, PassingHold, TakesFirst, RoomInOne, FirstLonger, FindsAll, Scan, SoundRuns,
      OffsetsTile, TotalLen, Needed, ByLength, ByStart, ScannedRuns, AllFree;
    var s := ScanBitmap(used, start, end, total, minSize);
    ScanFinds(used, start, end, total, minSize);
    if s.single.Some? {
      SingleRun(used, end, s.single.value, total);
      return Some([s.single.value]);
    }
    ChoiceMeans(used, end, s.runs, total, minSize);
    var sorted := ByLength(s.runs);
    var k := CountNeeded(sorted, total);
    if k >= |s.runs| {
      return None;
    }
    ghost var p := sorted[k - 1].len;
    var taken := TakeRuns(used, end, ByStart(s.runs), sorted[k - 1].len / 2, total, p);
    ChosenTile(Passing(s.runs, p), total, taken);
    r := Some(taken);
  }

  lemma ChosenTile(all: seq<FreeExtent>, total: nat, chosen: seq<FreeExtent>)
    requires TakesFirst(all, total, chosen)
    ensures OffsetsTile(chosen, 0, total)
  {}

  // ----- A bitmap for which the threshold leaves too little

  const SHORT_RUNS := [FreeExtent(8, 16, 0), FreeExtent(32, 17, 0), FreeExtent(56, 18, 0)]
  const LONG_RUNS := [FreeExtent(80, 40, 0), FreeExtent(128, 41, 0)]

  function Scattered(): seq<bool> {
    seq(170, b => !(8 <= b < 24 || 32 <= b < 49 || 56 <= b < 74 || 80 <= b < 120 || 128 <= b < 169))
  }

  lemma {:induction false} RunEndIs(used: seq<bool>, b: nat, stop: nat, end: nat)
    requires b <= stop < end <= |used| && used[stop] && forall c | b <= c < stop :: !used[c]
    ensures RunEnd(used, b, end) == stop
    decreases stop - b
  {
    if b < stop {
      RunEndIs(used, b + 1, stop, end);
    }
  }

  /** A run from the next multiple of 8 is kept. */
  lemma ScanKeeps(used: seq<bool>, b: nat, first: nat, stop: nat, end: nat, total: nat, minSize: nat,
                  runs: seq<FreeExtent>)
    requires b < first < stop < end <= |used| && first == (b + 8) / 8 * 8 && used[stop]
    requires (forall c | first <= c < stop :: !used[c]) && minSize <= stop - first <= total
    requires Scan(used, stop, end, total, minSize) == Scanned(None, runs)
    ensures Scan(used, b, end, total, minSize) == Scanned(None, [FreeExtent(first, stop - first, 0)] + runs)
  {
    RunEndIs(used, first, stop, end);
    ScanStep(used, b, end, total, minSize);
  }

  lemma ScatteredScan()
    ensures Scan(Scattered(), 0, 170, 90, 16) == Scanned(None, SHORT_RUNS + LONG_RUNS)
  {
    hide Scan, RunEnd, NextFree;
    var used := Scattered();
    ScanStep(used, 169, 170, 90, 16);
    NextFreePast(used, 176, 170);
    ScanKeeps(used, 120, 128, 169, 170, 90, 16, []);
    ScanKeeps(used, 74, 80, 120, 170, 90, 16, [FreeExtent(128, 41, 0)]);
    ScanKeeps(used, 49, 56, 74, 170, 90, 16, LONG_RUNS);
    ScanKeeps(used, 24, 32, 49, 170, 90, 16, [FreeExtent(56, 18, 0)] + LONG_RUNS);
    ScanKeeps(used, 0, 8, 24, 170, 90, 16, [FreeExtent(32, 17, 0)] + ([FreeExtent(56, 18, 0)] + LONG_RUNS));
  }

  lemma NextFreePast(used: seq<bool>, b: nat, end: nat)
    requires end <= |used| && b >= end
    ensures NextFree(used, b, end) >= end
  {}

  lemma NeededPrefix(runs: seq<FreeExtent>, rest: seq<FreeExtent>, total: int)
    requires runs != [] && total > runs[0].len
    ensures Needed(runs + rest, total) == 1 + Needed(runs[1..] + rest, total - runs[0].len)
  {
    assert (runs + rest)[1..] == runs[1..] + rest;
  }

  lemma KeptAppend(runs: seq<FreeExtent>, x: FreeExtent, minLen: nat)
    ensures KeptTotal(runs + [x], minLen) == KeptTotal(runs, minLen) + if x.len >= minLen then x.len else 0
  {
    assert (runs + [x])[..|runs|] == runs;
  }

  lemma ShortNeeded()
    ensures Needed(SHORT_RUNS + LONG_RUNS, 90) == 4
  {
    var s, t := SHORT_RUNS, LONG_RUNS;
    NeededPrefix(s, t, 90);
    NeededPrefix(s[1..], t, 74);
    NeededPrefix(s[2..], t, 57);
    assert s[1..][1..] == s[2..] && s[2..][1..] + t == t;
    assert Needed(t, 39) == 1 + Needed(t[1..], -1);
  }

  lemma ShortKept()
    ensures KeptTotal(SHORT_RUNS + LONG_RUNS, 20) == 81
  {
    var s, t := SHORT_RUNS, LONG_RUNS;
    KeptAppend([], s[0], 20);
    KeptAppend([s[0]], s[1], 20);
    KeptAppend([s[0], s[1]], s[2], 20);
    KeptAppend(s, t[0], 20);
    KeptAppend(s + [t[0]], t[1], 20);
    assert [] + [s[0]] == [s[0]] && [s[0]] + [s[1]] == [s[0], s[1]] && [s[0], s[1]] + [s[2]] == s;
    assert s + [t[0]] + [t[1]] == s + t;
  }

  lemma ShortThreshold()
    ensures EnoughRuns(SHORT_RUNS + LONG_RUNS, 90) && Threshold(SHORT_RUNS + LONG_RUNS, 90) == 20
  {
    hide Needed, Sort;
    var runs := SHORT_RUNS + LONG_RUNS;
    assert runs[3] == LONG_RUNS[0];
    SortAscending(runs, (x: FreeExtent) => x.len);
    ShortNeeded();
    assert ByLength(runs) == runs;
  }

  /** A bitmap with three short runs and two longer ones, 90 blocks to place: the threshold leaves 81 blocks. */
  lemma ThresholdCanFail()
    ensures var s := Scan(Scattered(), 0, 170, 90, 16);
      s == Scanned(None, SHORT_RUNS + LONG_RUNS) && SpareRun(s.runs, 90) && !PassingHold(s.runs, 90)
  {
    hide Scan, EnoughRuns, Threshold, KeptTotal, SpareRun, PassingHold;
    var runs := SHORT_RUNS + LONG_RUNS;
    ScatteredScan();
    EnoughMeans(runs, 90);
    ThresholdMeans(runs, 90);
    ShortThreshold();
    ShortKept();
  }

  /** The program goes on with runs for this bitmap, and they are not sound. */
  method ChoosesUnsound() returns (runs: seq<FreeExtent>)
    ensures !SoundRuns(Scattered(), 170, runs, 90) && OffsetsTile(runs, 0, 90)
  {
    hide Scan, SoundRuns, OffsetsTile, SpareRun, PassingHold, IsPivot, TakesFirst;
    ThresholdCanFail();
    var r := FindFreeBlocks(Scattered(), 0, 170, 90, 16);
    runs := r.value;
  }
}
