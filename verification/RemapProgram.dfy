/** The whole of e2remapblocks, from the list of extents to the bitmaps. */
module RemapProgram {
  import opened Ext2
  import opened Traverse
  import opened FreeRuns
  import opened RemapBlocks
  import opened RemapInode
  import opened LoadExtents
  import opened ExtentTree
  import opened CopyBlocks
  import opened Remap
  import opened RemapPlan
  import opened Sorting
  import GC = GroupCounts

  // ----- The extents of the plan are those of the log

  function Flatten(plan: seq<Listing>): seq<Extent> {
    if plan == [] then [] else Flatten(plan[..|plan| - 1]) + plan[|plan| - 1].exts
  }

  ghost function LogValues(log: seq<Piece>): seq<Extent> {
    if log == [] then [] else LogValues(log[..|log| - 1]) + [Value(log[|log| - 1].ext)]
  }

  ghost function FlatOwn(log: seq<Piece>, inos: seq<nat>): seq<Extent> {
    if inos == [] then [] else FlatOwn(log, inos[..|inos| - 1]) + Values(OwnPieces(log, inos[|inos| - 1]))
  }

  lemma OwnAdd(log: seq<Piece>, ino: nat)
    requires log != []
    ensures var p := log[|log| - 1];
      Values(OwnPieces(log, ino)) == Values(OwnPieces(log[..|log| - 1], ino)) + if p.ino == ino then [Value(p.ext)] else []
  {
    var p, own := log[|log| - 1], OwnPieces(log[..|log| - 1], ino);
    assert (own + [p.ext])[..|own|] == own;
  }

  lemma {:induction false} FlatAdd(log: seq<Piece>, inos: seq<nat>)
    requires log != [] && Distinct(inos)
    ensures var p := log[|log| - 1];
      multiset(FlatOwn(log, inos)) == multiset(FlatOwn(log[..|log| - 1], inos)) + if p.ino in inos then multiset{Value(p.ext)} else multiset{}
  {
    hide Values, OwnPieces;
    if inos != [] {
      var n, k := |log| - 1, |inos| - 1;
      FlatAdd(log, inos[..k]);
      assert inos == inos[..k] + [inos[k]];
      OwnAdd(log, inos[k]);
    }
  }

  lemma {:induction false} FlatEmpty(inos: seq<nat>)
    ensures FlatOwn([], inos) == []
  {
    if inos != [] {
      FlatEmpty(inos[..|inos| - 1]);
    }
  }

  lemma {:induction false} FlatOwnIs(log: seq<Piece>, inos: seq<nat>)
    requires Distinct(inos) && forall p <- log :: p.ino in inos
    ensures multiset(FlatOwn(log, inos)) == multiset(LogValues(log))
  {
    if log != [] {
      FlatOwnIs(log[..|log| - 1], inos);
      FlatAdd(log, inos);
    } else {
      FlatEmpty(inos);
    }
  }

  lemma {:induction false} FlattenSorted(log: seq<Piece>, inos: seq<nat>)
    ensures multiset(Flatten(SortLists(InodeLists(log), inos))) == multiset(FlatOwn(log, inos))
  {
    hide SortExtents, InodeLists, OwnPieces, Values;
    if inos != [] {
      var k := |inos| - 1;
      FlattenSorted(log, inos[..k]);
      ListsAre(log, inos[k]);
      SortedExtents(Values(OwnPieces(log, inos[k])));
      var plan := SortLists(InodeLists(log), inos);
      assert plan[..|plan| - 1] == SortLists(InodeLists(log), inos[..k]);
    }
  }

  /** The plan has exactly the extents of the log. */
  lemma FlattenIs(log: seq<Piece>, inos: seq<nat>, plan: seq<Listing>)
    requires PlanOf(log, inos, plan)
    ensures multiset(Flatten(plan)) == multiset(LogValues(log))
  {
    hide SortLists, InodeLists, FlatOwn, LogValues, OwnPieces;
    FlattenSorted(log, inos);
    forall p | p in log ensures p.ino in inos {
      ListsAre(log, p.ino);
      assert p == Piece(p.ext, p.ino);
      OwnMembers(log, p.ino, p.ext);
    }
    FlatOwnIs(log, inos);
  }

  function SumLen(s: seq<Extent>): nat {
    if s == [] then 0 else SumLen(s[..|s| - 1]) + s[|s| - 1].len
  }

  lemma {:induction false} SumLenRemove(s: seq<Extent>, i: nat)
    requires i < |s|
    ensures SumLen(s) == SumLen(s[..i] + s[i + 1..]) + s[i].len
  {
    var n := |s| - 1;
    if i < n {
      SumLenRemove(s[..n], i);
      var r := s[..i] + s[i + 1..];
      assert r[..|r| - 1] == s[..n][..i] + s[..n][i + 1..];
    } else {
      assert s[..i] + s[i + 1..] == s[..n];
    }
  }

  lemma {:induction false} SumLenPermuted(s: seq<Extent>, r: seq<Extent>)
    requires multiset(s) == multiset(r)
    ensures SumLen(s) == SumLen(r)
  {
    Permuted(r, s);
    if s != [] {
      var n := |s| - 1;
      assert s[n] in r;
      var i :| 0 <= i < |r| && r[i] == s[n];
      SumLenRemove(r, i);
      RemoveOne(r, i);
      RemoveOne(s, n);
      assert s[..n] + s[n + 1..] == s[..n];
      SumLenPermuted(s[..n], r[..i] + r[i + 1..]);
    }
  }

  lemma {:induction false} LogTotal(log: seq<Piece>, total: nat)
    requires Tiling(log, total)
    ensures SumLen(LogValues(log)) == total
  {
    if log != [] {
      LogTotal(log[..|log| - 1], log[|log| - 1].ext.chunkOffset);
    }
  }

  // ----- The ranges that the bitmap update goes through

  function RangeOf(x: Extent): GC.Range {
    GC.Range(x.block, x.len)
  }

  function MovedRanges(s: seq<Extent>): (r: seq<GC.Range>)
    ensures |r| == |s| && forall i | 0 <= i < |s| :: r[i] == RangeOf(s[i])
  {
    if s == [] then [] else MovedRanges(s[..|s| - 1]) + [RangeOf(s[|s| - 1])]
  }

  function RunRanges(runs: seq<FreeExtent>): (r: seq<GC.Range>)
    ensures |r| == |runs| && forall i | 0 <= i < |runs| :: r[i] == GC.Range(runs[i].block, runs[i].len)
  {
    if runs == [] then [] else RunRanges(runs[..|runs| - 1]) + [GC.Range(runs[|runs| - 1].block, runs[|runs| - 1].len)]
  }

  lemma {:induction false} MovedTotal(s: seq<Extent>)
    ensures GC.Total(MovedRanges(s)) == SumLen(s)
  {
    if s != [] {
      MovedTotal(s[..|s| - 1]);
      assert MovedRanges(s)[..|s| - 1] == MovedRanges(s[..|s| - 1]);
    }
  }

  lemma {:induction false} RunsTotal(runs: seq<FreeExtent>, from: nat, total: nat)
    requires OffsetsTile(runs, from, total)
    ensures total == from + GC.Total(RunRanges(runs))
  {
    if runs != [] {
      var n := |runs| - 1;
      TileLast(runs, from, total);
      RunsTotal(runs[..n], from, runs[n].offset);
      assert RunRanges(runs)[..n] == RunRanges(runs[..n]);
    }
  }

  lemma LogValuesAt(log: seq<Piece>)
    ensures |LogValues(log)| == |log| && forall k | 0 <= k < |log| :: LogValues(log)[k] == Value(log[k].ext)
  {
    if log != [] {
      LogValuesAt(log[..|log| - 1]);
    }
  }

  /** The moved ranges do not overlap, and together hold as many blocks as the chosen runs. */
  lemma MovedApart(log: seq<Piece>, total: nat, inos: seq<nat>, plan: seq<Listing>)
    requires GoodLog(log, total) && PlanOf(log, inos, plan)
    ensures GC.RangesApart(MovedRanges(Flatten(plan))) && GC.Total(MovedRanges(Flatten(plan))) == total
  {
    hide Flatten, LogValues, Tiling, SumLen, PlanOf;
    var s, r := Flatten(plan), LogValues(log);
    FlattenIs(log, inos, plan);
    LogValuesAt(log);
    LogTotal(log, total);
    SumLenPermuted(s, r);
    MovedTotal(s);
    Permuted(r, s);
    forall i, j, b: int | 0 <= i < j < |s| && GC.InRange(MovedRanges(s)[i], b) ensures !GC.InRange(MovedRanges(s)[j], b) {
      ApartAt(log, s, i, j);
    }
  }

  lemma ApartAt(log: seq<Piece>, s: seq<Extent>, i: nat, j: nat)
    requires multiset(s) == multiset(LogValues(log)) && i < j < |s|
    requires Disjoint(log) && forall p <- log :: p.ext.len > 0
    ensures s[i].block + s[i].len <= s[j].block || s[j].block + s[j].len <= s[i].block
  {
    hide LogValues, Disjoint;
    var r := LogValues(log);
    LogValuesAt(log);
    Permuted(r, s);
    if s[i] == s[j] {
      TwiceMember(r, s, i, j);
      var a, b :| 0 <= a < b < |r| && r[a] == s[i] && r[b] == s[i];
      ValuesApart(log, a, b);
    } else {
      assert s[i] in r && s[j] in r;
      var a :| 0 <= a < |r| && r[a] == s[i];
      var b :| 0 <= b < |r| && r[b] == s[j];
      if a < b {
        ValuesApart(log, a, b);
      } else {
        ValuesApart(log, b, a);
      }
    }
  }

  lemma ValuesApart(log: seq<Piece>, a: nat, b: nat)
    requires Disjoint(log) && a < b < |log|
    ensures var x, y := Value(log[a].ext), Value(log[b].ext);
      x.block + x.len <= y.block || y.block + y.len <= x.block
  {}

  lemma RunsApart(used: seq<bool>, end: nat, runs: seq<FreeExtent>, total: nat)
    requires SoundRuns(used, end, runs, total) && total > 0
    ensures GC.RangesApart(RunRanges(runs)) && GC.Total(RunRanges(runs)) == total
  {
    RunsTotal(runs, 0, total);
    hide RunRanges;
  }

  // ----- What the input has to be

  /** No block is shared, the bitmap marks all used blocks, and each line names blocks where the file has them. */
  ghost predicate InputRight(fs: Fs, used: seq<bool>, lines: seq<Line>, firstIno: nat) {
    && WellFormed(fs) && NoSharing(fs) && fs.apb > 0
    && BitmapRight(fs, used)
    && forall b <- Owners(lines, firstIno) :: OwnerMet(fs, b, Owners(lines, firstIno)[b])
  }

  ghost predicate BitmapRight(fs: Fs, used: seq<bool>) {
    && |used| == |fs.disk| > 0 && used[0]
    && forall b | 0 <= b < |used| && Referenced(fs, b) :: used[b]
  }

  ghost predicate OwnerMet(fs: Fs, b: nat, loc: Loc) {
    loc.ino in fs.inodes && Met(loc.offset, b) in MetIn(fs, loc.ino)
  }

  /** The walks meet ascending codes, and the extents neither interleave nor exceed the buffer. */
  ghost predicate Walkable(fs: Fs, plan: seq<Listing>, bufBlocks: nat) {
    forall l <- plan :: Ascending(MetIn(fs, l.ino)) && Separated(l.exts) && forall x <- l.exts :: x.len <= bufBlocks
  }

  lemma {:induction false} BlocksAt(log: seq<Piece>, p: Piece, b: nat)
    requires Disjoint(log) && p in log && p.ext.Holds(b)
    ensures b in Blocks(log) && Blocks(log)[b] == Loc(p.ino, p.ext.offset + (b - p.ext.block))
  {
    var n := |log| - 1;
    if log[n] != p {
      assert log == log[..n] + [log[n]];
      BlocksAt(log[..n], p, b);
      var j :| 0 <= j < n && log[j] == p;
      assert b !in PieceBlocks(log[n]);
    }
  }

  lemma PlanMapped(fs: Fs, lines: seq<Line>, firstIno: nat, log: seq<Piece>, l: Listing)
    requires Disjoint(log) && Blocks(log) == Owners(lines, firstIno)
    requires forall b <- Owners(lines, firstIno) :: OwnerMet(fs, b, Owners(lines, firstIno)[b])
    requires l.exts != [] && forall y: Extent :: y in l.exts <==> InLog(log, l.ino, y)
    requires forall p <- log :: p.ext.len > 0
    ensures l.ino in fs.inodes && RemapBlocks.Mapped(l.exts, MetIn(fs, l.ino))
  {
    hide Blocks, Owners, MetIn, Disjoint;
    forall x, n: nat | x in l.exts && n < x.len ensures l.ino in fs.inodes && MetAt(MetIn(fs, l.ino), x, n) {
      var p :| p in log && p.ino == l.ino && Value(p.ext) == x;
      BlocksAt(log, p, x.block + n);
      assert OwnerMet(fs, x.block + n, Owners(lines, firstIno)[x.block + n]);
    }
    var x := l.exts[0];
    assert x in l.exts;
    var p :| p in log && p.ino == l.ino && Value(p.ext) == x;
    assert MetAt(MetIn(fs, l.ino), x, 0);
  }

  lemma RunsUnused(fs: Fs, used: seq<bool>, end: nat, runs: seq<FreeExtent>, total: nat)
    requires BitmapRight(fs, used) && SoundRuns(used, end, runs, total) && end <= |used|
    ensures PlacesUnused(fs, runs, total)
  {
    hide Target, Referenced, SoundRuns;
    forall c: nat | c < total ensures 0 < Target(runs, c) < |fs.disk| && !Referenced(fs, Target(runs, c)) {
      TargetsFree(used, end, runs, total, c);
    }
    forall c: nat, d: nat | c < d < total ensures Target(runs, c) != Target(runs, d) {
      TargetsDistinct(used, end, runs, total, c, d);
    }
  }

  lemma PlanIsGood(fs: Fs, used: seq<bool>, end: nat, lines: seq<Line>, firstIno: nat, log: seq<Piece>, total: nat,
                   inos: seq<nat>, plan: seq<Listing>, runs: seq<FreeExtent>, bufBlocks: nat)
    requires InputRight(fs, used, lines, firstIno) && GoodLog(log, total) && Blocks(log) == Owners(lines, firstIno)
    requires PlanOf(log, inos, plan) && Walkable(fs, plan, bufBlocks)
    requires end <= |used| && SoundRuns(used, end, runs, total)
    ensures PlanGood(fs, plan, runs, total, bufBlocks)
  {
    hide Blocks, Owners, MetIn, Disjoint, Tiling, PlanOf, Target, WellFormed, NoSharing, SoundRuns, Ascending,
      Separated, RemapBlocks.Mapped,
      ChunksApart, ListingsApart, PlacesUnused, OwnerMet, BitmapRight, InLog;
    RunsUnused(fs, used, end, runs, total);
    PlanApart(log, total, inos, plan);
    forall l | l in plan ensures ListingGood(fs, l, total, bufBlocks) {
      var k :| 0 <= k < |plan| && plan[k] == l;
      PlanMapped(fs, lines, firstIno, log, l);
    }
  }

  // ----- The bitmap at the end

  /** Block `b` was one of the listed blocks. */
  ghost predicate WasListed(plan: seq<Listing>, b: nat) {
    exists l <- plan, x <- l.exts :: x.block <= b < x.block + x.len
  }

  lemma {:induction false} FlattenMembers(plan: seq<Listing>, x: Extent)
    ensures x in Flatten(plan) <==> exists l <- plan :: x in l.exts
  {
    if plan != [] {
      var n := |plan| - 1;
      FlattenMembers(plan[..n], x);
      assert plan == plan[..n] + [plan[n]];
    }
  }

  lemma CoveredMoved(plan: seq<Listing>, b: nat)
    ensures GC.Covered(MovedRanges(Flatten(plan)), b) <==> WasListed(plan, b)
  {
    hide Flatten, MovedRanges;
    var s := Flatten(plan);
    var rs := MovedRanges(s);
    if GC.Covered(rs, b) {
      var r :| r in rs && GC.InRange(r, b);
      var i :| 0 <= i < |rs| && rs[i] == r;
      FlattenMembers(plan, s[i]);
    }
    if WasListed(plan, b) {
      var l, x :| l in plan && x in l.exts && x.block <= b < x.block + x.len;
      FlattenMembers(plan, x);
      var i :| 0 <= i < |s| && s[i] == x;
      assert rs[i] in rs && GC.InRange(rs[i], b);
    }
  }

  /** A block covered by the runs is the place of a chunk offset. */
  lemma CoveredRuns(runs: seq<FreeExtent>, total: nat, b: nat)
    requires OffsetsTile(runs, 0, total)
    ensures GC.Covered(RunRanges(runs), b) <==> exists c: nat :: c < total && Target(runs, c) == b
  {
    hide Target, OffsetsTile, RunRanges;
    var rs := RunRanges(runs);
    if GC.Covered(rs, b) {
      var r :| r in rs && GC.InRange(r, b);
      var k :| 0 <= k < |rs| && rs[k] == r;
      RunBlockTarget(runs, total, k, b - runs[k].block);
    }
    if c: nat :| c < total && Target(runs, c) == b {
      var k := RunOf(runs, 0, total, c);
      RunHolds(runs[k], c);
      assert rs[k] in rs && GC.InRange(rs[k], b);
    }
  }

  /** The slot of a listed block. */
  lemma ListedSlot(fs: Fs, l: Listing, total: nat, bufBlocks: nat, x: Extent, n: nat) returns (k: nat)
    requires WellFormed(fs) && fs.apb > 0 && ListingGood(fs, l, total, bufBlocks) && x in l.exts && n < x.len
    ensures k < |Visited(fs, l.ino)| == |MetIn(fs, l.ino)|
    ensures MetIn(fs, l.ino)[k] == Met(x.offset + n, x.block + n)
    ensures Listed(l.exts, MetIn(fs, l.ino)[k].code)
    ensures ValidSlot(fs, Visited(fs, l.ino)[k]) && Ptr(fs, Visited(fs, l.ino)[k]) == x.block + n > 0
  {
    hide Ptr, Visited, Ascending, Separated, ChunksApart, WellFormed;
    assert MetAt(MetIn(fs, l.ino), x, n);
    VisitedIsVisit(fs, l.ino);
    k :| 0 <= k < |MetIn(fs, l.ino)| && MetIn(fs, l.ino)[k] == Met(x.offset + n, x.block + n);
    assert Visited(fs, l.ino)[k] in Visited(fs, l.ino);
    assert Lists(x, MetIn(fs, l.ino)[k].code);
  }

  /** Where a slot points in the end, if the code of its block was listed. */
  lemma MovedSlot(fs0: Fs, fs: Fs, plan: seq<Listing>, runs: seq<FreeExtent>, total: nat, bufBlocks: nat, j: nat,
                  k: nat) returns (c: nat)
    requires PlanGood(fs0, plan, runs, total, bufBlocks) && j < |plan| && InodeDone(fs0, fs, plan[j], runs)
    requires k < |MetIn(fs0, plan[j].ino)| && Listed(plan[j].exts, MetIn(fs0, plan[j].ino)[k].code)
    ensures k < |Visited(fs0, plan[j].ino)|
    ensures c < total && Ptr(fs, Visited(fs0, plan[j].ino)[k]) == Target(runs, c)
    ensures WasListed(plan, MetIn(fs0, plan[j].ino)[k].block)
    ensures forall x <- plan[j].exts :: Lists(x, MetIn(fs0, plan[j].ino)[k].code) ==>
      c == x.chunkOffset + (MetIn(fs0, plan[j].ino)[k].code - x.offset)
  {
    hide Ptr, Visited, MetIn, Ascending, Separated, RemapBlocks.Mapped, WellFormed, NoSharing, Target, NewPlace,
      PlacesUnused, ListingsApart;
    var l, met := plan[j], MetIn(fs0, plan[j].ino);
    assert l in plan;
    var a := PlaceOfCode(l.exts, runs, met, k);
    assert l.exts[a] in l.exts;
    c := Chunk(l.exts[a], met[k].code);
    forall x | x in l.exts && Lists(x, met[k].code) ensures c == x.chunkOffset + (met[k].code - x.offset) {
      var i :| 0 <= i < |l.exts| && l.exts[i] == x;
    }
  }

  /** A listed block is used at first and unused in the end. */
  lemma ListedFreed(fs0: Fs, fs: Fs, plan: seq<Listing>, runs: seq<FreeExtent>, total: nat, bufBlocks: nat, b: nat)
    requires PlanGood(fs0, plan, runs, total, bufBlocks) && Progress(fs0, fs, plan, runs, |plan|) && WasListed(plan, b)
    ensures Referenced(fs0, b) && !Referenced(fs, b)
    ensures forall c: nat | c < total :: Target(runs, c) != b
  {
    hide Ptr, Visited, MetIn, Referenced, WellFormed, Target, NewPlace, NoSharing, Progress, ListingGood;
    var l, x :| l in plan && x in l.exts && x.block <= b < x.block + x.len;
    var k := ListedSlot(fs0, l, total, bufBlocks, x, b - x.block);
    ReferencedBy(fs0, Visited(fs0, l.ino)[k]);
    forall q | ValidSlot(fs, q) ensures Ptr(fs, q) != b {
      ProgressSlots(fs0, fs, plan, runs, q);
      SlotFate(fs0, fs, plan, runs, total, bufBlocks, q);
    }
    NotReferencedIf(fs, b);
  }

  lemma ProgressSlots(fs0: Fs, fs: Fs, plan: seq<Listing>, runs: seq<FreeExtent>, q: Slot)
    requires Progress(fs0, fs, plan, runs, |plan|)
    ensures ValidSlot(fs, q) <==> ValidSlot(fs0, q)
  {
    hide InodeDone, InodeUntouched, HolesKept, NoSharing, PlacesWait;
    SameFilesMeans(fs0, fs);
  }

  /** Each pointer of a file is kept, and then was not listed, or has moved to a place of its own. */
  lemma SlotFate(fs0: Fs, fs: Fs, plan: seq<Listing>, runs: seq<FreeExtent>, total: nat, bufBlocks: nat, q: Slot)
    requires PlanGood(fs0, plan, runs, total, bufBlocks) && Progress(fs0, fs, plan, runs, |plan|) && ValidSlot(fs0, q)
    ensures
      || (Ptr(fs, q) == Ptr(fs0, q) && (Ptr(fs0, q) != 0 ==> !WasListed(plan, Ptr(fs0, q))))
      || (WasListed(plan, Ptr(fs0, q)) && exists c: nat :: c < total && Target(runs, c) == Ptr(fs, q))
  {
    hide Ptr, Visited, MetIn, Referenced, WellFormed, Target, NewPlace, NoSharing, ListingGood, SameFiles, PlacesUnused;
    if Ptr(fs0, q) != 0 {
      if j :| 0 <= j < |plan| && plan[j].ino == q.ino {
        ListedFate(fs0, fs, plan, runs, total, bufBlocks, j, q);
      } else {
        assert Unlisted(plan, |plan|, q.ino);
        forall l, x | l in plan && x in l.exts ensures !(x.block <= Ptr(fs0, q) < x.block + x.len) {
          if x.block <= Ptr(fs0, q) < x.block + x.len {
            var j :| 0 <= j < |plan| && plan[j] == l;
            OwnSlot(fs0, plan, runs, total, bufBlocks, j, x, q);
          }
        }
      }
    }
  }

  /** A slot that holds a listed block is the one the walk meets it at. */
  lemma OwnSlot(fs0: Fs, plan: seq<Listing>, runs: seq<FreeExtent>, total: nat, bufBlocks: nat, j: nat, x: Extent,
                q: Slot)
    requires PlanGood(fs0, plan, runs, total, bufBlocks) && ValidSlot(fs0, q) && j < |plan|
    requires x in plan[j].exts && x.block <= Ptr(fs0, q) < x.block + x.len && Ptr(fs0, q) != 0
    ensures q.ino == plan[j].ino && |Visited(fs0, q.ino)| == |MetIn(fs0, q.ino)|
    ensures exists k :: 0 <= k < |MetIn(fs0, q.ino)| && Visited(fs0, q.ino)[k] == q && Listed(plan[j].exts, MetIn(fs0, q.ino)[k].code)
  {
    hide Ptr, Visited, MetIn, WellFormed, Target, ListingGood, ListingsApart, PlacesUnused;
    assert plan[j] in plan;
    var l := plan[j];
    var k := ListedSlot(fs0, l, total, bufBlocks, x, Ptr(fs0, q) - x.block);
    assert Visited(fs0, l.ino)[k] == q;
    InodeOfVisited(fs0, l, total, bufBlocks, k);
  }

  lemma InodeOfVisited(fs: Fs, l: Listing, total: nat, bufBlocks: nat, k: nat)
    requires WellFormed(fs) && fs.apb > 0 && ListingGood(fs, l, total, bufBlocks) && k < |Visited(fs, l.ino)|
    ensures Visited(fs, l.ino)[k].ino == l.ino
  {
    hide Ptr, Visited, MetIn;
    VisitedIsVisit(fs, l.ino);
    assert Visited(fs, l.ino)[k] in Visited(fs, l.ino);
  }

  lemma ListedFate(fs0: Fs, fs: Fs, plan: seq<Listing>, runs: seq<FreeExtent>, total: nat, bufBlocks: nat, j: nat,
                   q: Slot)
    requires PlanGood(fs0, plan, runs, total, bufBlocks) && j < |plan| && InodeDone(fs0, fs, plan[j], runs)
    requires ValidSlot(fs0, q) && q.ino == plan[j].ino && Ptr(fs0, q) != 0
    ensures
      || (Ptr(fs, q) == Ptr(fs0, q) && !WasListed(plan, Ptr(fs0, q)))
      || (WasListed(plan, Ptr(fs0, q)) && exists c: nat :: c < total && Target(runs, c) == Ptr(fs, q))
  {
    hide Ptr, Visited, MetOf, WellFormed, Target, NewPlace, NoSharing, Listed, PlacesUnused, RemapBlocks.Mapped,
      Separated, Ascending;
    var l, v, met := plan[j], Visited(fs0, plan[j].ino), MetIn(fs0, plan[j].ino);
    assert l in plan && ListingGood(fs0, l, total, bufBlocks);
    VisitedIsVisit(fs0, l.ino);
    var k :| 0 <= k < |v| && v[k] == q;
    MetBlock(fs0, v, k);
    if Listed(l.exts, met[k].code) {
      var c := MovedSlot(fs0, fs, plan, runs, total, bufBlocks, j, k);
    } else {
      NotListedSlot(fs0, plan, runs, total, bufBlocks, j, k, q);
    }
  }

  lemma NotListedSlot(fs0: Fs, plan: seq<Listing>, runs: seq<FreeExtent>, total: nat, bufBlocks: nat, j: nat, k: nat,
                      q: Slot)
    requires PlanGood(fs0, plan, runs, total, bufBlocks) && j < |plan| && ValidSlot(fs0, q) && Ptr(fs0, q) != 0
    requires q.ino == plan[j].ino && k < |Visited(fs0, q.ino)| == |MetIn(fs0, q.ino)| && Visited(fs0, q.ino)[k] == q
    requires Visit(fs0.apb, q.ino, Visited(fs0, q.ino)) && !Listed(plan[j].exts, MetIn(fs0, q.ino)[k].code)
    ensures !WasListed(plan, Ptr(fs0, q))
  {
    hide Ptr, Visited, MetIn, WellFormed, NoSharing, Listed, PlacesUnused, ListingGood, Visit, ChunksShared;
    forall m, x | m in plan && x in m.exts ensures !(x.block <= Ptr(fs0, q) < x.block + x.len) {
      if x.block <= Ptr(fs0, q) < x.block + x.len {
        var i :| 0 <= i < |plan| && plan[i] == m;
        OwnSlot(fs0, plan, runs, total, bufBlocks, i, x, q);
        var n :| 0 <= n < |MetIn(fs0, q.ino)| && Visited(fs0, q.ino)[n] == q && Listed(plan[i].exts, MetIn(fs0, q.ino)[n].code);
        SameIndex(fs0.apb, q.ino, Visited(fs0, q.ino), k, n);
      }
    }
  }

  lemma SameIndex(apb: nat, ino: nat, v: seq<Slot>, i: nat, k: nat)
    requires Visit(apb, ino, v) && i < |v| && k < |v| && v[i] == v[k]
    ensures i == k
  {}

  /** Every chunk offset below the total belongs to an extent of the plan. */
  ghost predicate ChunksTaken(plan: seq<Listing>, total: nat) {
    forall c: nat | c < total :: ChunkTaken(plan, c)
  }

  ghost predicate ChunkTaken(plan: seq<Listing>, c: nat) {
    exists l <- plan :: UsesChunk(l.exts, c)
  }

  lemma PlanTakesChunks(log: seq<Piece>, total: nat, inos: seq<nat>, plan: seq<Listing>)
    requires GoodLog(log, total) && PlanOf(log, inos, plan)
    ensures ChunksTaken(plan, total)
  {
    hide Tiling, Disjoint, SortLists, InodeLists, ChunksApart, ListingsApart;
    PlanApart(log, total, inos, plan);
    forall c: nat | c < total ensures ChunkTaken(plan, c) {
      ChunkUnique(log, total, c);
      var k :| 0 <= k < |log| && InChunk(log[k].ext, c);
      var j := ListOfPiece(log, total, inos, plan, log[k]);
      assert Value(log[k].ext) in plan[j].exts && UsesChunk(plan[j].exts, c);
    }
  }

  /** Every place is used in the end. */
  lemma PlaceTaken(fs0: Fs, fs: Fs, plan: seq<Listing>, runs: seq<FreeExtent>, total: nat, bufBlocks: nat, c: nat)
    requires PlanGood(fs0, plan, runs, total, bufBlocks) && Progress(fs0, fs, plan, runs, |plan|)
    requires ChunksTaken(plan, total) && c < total
    ensures Referenced(fs, Target(runs, c))
  {
    hide Ptr, Visited, MetIn, Referenced, WellFormed, Target, NewPlace, NoSharing, ListingGood, SameFiles, PlacesUnused;
    assert ChunkTaken(plan, c);
    var l :| l in plan && UsesChunk(l.exts, c);
    var j :| 0 <= j < |plan| && plan[j] == l;
    var x :| x in l.exts && x.chunkOffset <= c < x.chunkOffset + x.len;
    var k := ListedSlot(fs0, l, total, bufBlocks, x, c - x.chunkOffset);
    var d := MovedSlot(fs0, fs, plan, runs, total, bufBlocks, j, k);
    assert Lists(x, MetIn(fs0, l.ino)[k].code);
    ProgressSlots(fs0, fs, plan, runs, Visited(fs0, l.ino)[k]);
    ReferencedBy(fs, Visited(fs0, l.ino)[k]);
  }

  /** A block in use that is not listed stays in use, and nothing else comes into use but the places. */
  lemma OthersStay(fs0: Fs, fs: Fs, plan: seq<Listing>, runs: seq<FreeExtent>, total: nat, bufBlocks: nat, b: nat)
    requires PlanGood(fs0, plan, runs, total, bufBlocks) && Progress(fs0, fs, plan, runs, |plan|)
    requires b > 0 && !WasListed(plan, b) && forall c: nat | c < total :: Target(runs, c) != b
    ensures Referenced(fs, b) <==> Referenced(fs0, b)
  {
    hide Ptr, Visited, MetIn, WellFormed, Target, NewPlace, NoSharing, ListingGood, SameFiles, PlacesUnused,
      WasListed, Progress, PlanGood;
    if Referenced(fs, b) {
      var q :| ValidSlot(fs, q) && Ptr(fs, q) == b;
      ProgressSlots(fs0, fs, plan, runs, q);
      SlotFate(fs0, fs, plan, runs, total, bufBlocks, q);
    }
    if Referenced(fs0, b) {
      var q :| ValidSlot(fs0, q) && Ptr(fs0, q) == b;
      ProgressSlots(fs0, fs, plan, runs, q);
      SlotFate(fs0, fs, plan, runs, total, bufBlocks, q);
    }
  }

  /** The bits after the update. */
  ghost predicate BitsUpdated(used: seq<bool>, used': seq<bool>, plan: seq<Listing>, runs: seq<FreeExtent>) {
    |used'| == |used| && forall b | 0 <= b < |used| ::
      used'[b] <==> !GC.Covered(MovedRanges(Flatten(plan)), b) && (GC.Covered(RunRanges(runs), b) || used[b])
  }

  /**
    Once the bitmap is updated, the marked blocks are those the files use now, and those that were marked for other
    reasons before.
   */
  lemma BitmapExact(fs0: Fs, fs: Fs, plan: seq<Listing>, runs: seq<FreeExtent>, total: nat, bufBlocks: nat,
                    used: seq<bool>, used': seq<bool>, b: nat)
    requires PlanGood(fs0, plan, runs, total, bufBlocks) && Progress(fs0, fs, plan, runs, |plan|)
    requires ChunksTaken(plan, total) && OffsetsTile(runs, 0, total)
    requires BitmapRight(fs0, used) && BitsUpdated(used, used', plan, runs) && 0 < b < |used|
    ensures used'[b] <==> Referenced(fs, b) || (used[b] && !Referenced(fs0, b))
  {
    hide Ptr, WellFormed, Target, Referenced, NoSharing, WasListed, Progress, PlanGood, OffsetsTile, ChunksTaken,
      Flatten, RunRanges,
      MovedRanges, GC.Covered;
    CoveredMoved(plan, b);
    CoveredRuns(runs, total, b);
    if WasListed(plan, b) {
      ListedFreed(fs0, fs, plan, runs, total, bufBlocks, b);
    } else if c: nat :| c < total && Target(runs, c) == b {
      PlaceTaken(fs0, fs, plan, runs, total, bufBlocks, c);
    } else {
      OthersStay(fs0, fs, plan, runs, total, bufBlocks, b);
    }
  }

  /** The update frees used blocks and marks free ones, none of them twice. */
  lemma UpdateIsClean(fs0: Fs, fs: Fs, log: seq<Piece>, inos: seq<nat>, plan: seq<Listing>, runs: seq<FreeExtent>,
                      total: nat,
                      bufBlocks: nat, used: seq<bool>, end: nat)
    requires PlanGood(fs0, plan, runs, total, bufBlocks) && Progress(fs0, fs, plan, runs, |plan|)
    requires GoodLog(log, total) && PlanOf(log, inos, plan) && total > 0
    requires BitmapRight(fs0, used) && SoundRuns(used, end, runs, total) && end <= |used|
    ensures GC.CleanUpdate(used, RunRanges(runs), MovedRanges(Flatten(plan)))
    ensures GC.Total(RunRanges(runs)) == GC.Total(MovedRanges(Flatten(plan)))
  {
    hide Ptr, WellFormed, Target, Referenced, NoSharing, WasListed, Progress, PlanGood, Flatten, RunRanges,
      MovedRanges, GC.Covered,
      PlanOf, GoodLog, GC.Total, GC.RangesApart, SoundRuns;
    MovedApart(log, total, inos, plan);
    RunsApart(used, end, runs, total);
    forall b | 0 <= b < |used| && GC.Covered(RunRanges(runs), b) ensures !used[b] {
      RunsTile(used, end, runs, total);
      CoveredRuns(runs, total, b);
      var c: nat :| c < total && Target(runs, c) == b;
      TargetsFree(used, end, runs, total, c);
    }
    forall b | 0 <= b < |used| && GC.Covered(MovedRanges(Flatten(plan)), b) ensures used[b] {
      CoveredMoved(plan, b);
      ListedFreed(fs0, fs, plan, runs, total, bufBlocks, b);
    }
  }

  /** The conditions under which the program does what it is for. */
  ghost predicate Promised(fs: Fs, used: seq<bool>, lines: seq<Line>, firstIno: nat, start: nat, end: nat, minSize: nat,
                           plan: seq<Listing>, total: nat, bufBlocks: nat)
    requires end <= |used|
  {
    && InputRight(fs, used, lines, firstIno) && Walkable(fs, plan, bufBlocks)
    && (RoomInOne(used, start, end, total) || PassingHold(Scan(used, start, end, total, minSize).runs, total))
  }

  /**
    The conditions under which the program keeps all files, whatever the list says: the walks meet ascending codes, the
    extents fit into the buffer and the chosen runs can hold the data.
   */
  ghost predicate Harmless(fs: Fs, used: seq<bool>, start: nat, end: nat, minSize: nat, plan: seq<Listing>,
                           total: nat, bufBlocks: nat)
    requires end <= |used|
  {
    && WellFormed(fs) && NoSharing(fs) && fs.apb > 0 && BitmapRight(fs, used)
    && (forall l <- plan :: l.ino in fs.inodes && Ascending(MetIn(fs, l.ino)) && forall x <- l.exts :: x.len <= bufBlocks)
    && (RoomInOne(used, start, end, total) || PassingHold(Scan(used, start, end, total, minSize).runs, total))
  }

  lemma HarmlessPlan(fs: Fs, used: seq<bool>, lines: seq<Line>, firstIno: nat, start: nat, end: nat, minSize: nat,
                     log: seq<Piece>, total: nat, inos: seq<nat>, plan: seq<Listing>, runs: seq<FreeExtent>,
                     bufBlocks: nat)
    requires end <= |used| && Harmless(fs, used, start, end, minSize, plan, total, bufBlocks)
    requires FromInput(lines, firstIno, log, total, inos, plan)
    requires SoundRuns(used, end, runs, total) <==>
      RoomInOne(used, start, end, total) || PassingHold(Scan(used, start, end, total, minSize).runs, total)
    ensures PlanUsable(fs, plan, runs, total, bufBlocks)
  {
    hide Owners, Blocks, Scan, SoundRuns, PassingHold, BitmapRight, RoomInOne, MetIn, Ascending, AllCut,
      WellFormed, NoSharing, PlacesUnused, ChunksApart, ListingsApart, PlanOf, Tiling, Disjoint;
    RunsUnused(fs, used, end, runs, total);
    PlanApart(log, total, inos, plan);
    forall l | l in plan ensures ListingUsable(fs, l, total, bufBlocks) {
      PlanLengths(log, total, inos, plan, l);
    }
  }

  lemma PlanLengths(log: seq<Piece>, total: nat, pinos: seq<nat>, plan: seq<Listing>, l: Listing)
    requires GoodLog(log, total) && PlanOf(log, pinos, plan) && l in plan
    ensures forall x <- l.exts :: x.len > 0
  {
    hide Tiling, InodeLists, ChunksApart, ListingsApart, Disjoint;
    PlanApart(log, total, pinos, plan);
    var k :| 0 <= k < |plan| && plan[k] == l;
    forall x | x in l.exts ensures x.len > 0 {
      assert InLog(log, plan[k].ino, x);
    }
  }

  /** Where the slot of a listed block points in the end: to the place of the chunk offset of the block. */
  lemma PlaceOfListed(fs0: Fs, fs: Fs, lines: seq<Line>, firstIno: nat, log: seq<Piece>, total: nat, inos: seq<nat>,
                      plan: seq<Listing>, runs: seq<FreeExtent>, bufBlocks: nat, q: Slot) returns (c: nat)
    requires PlanGood(fs0, plan, runs, total, bufBlocks) && Progress(fs0, fs, plan, runs, |plan|)
    requires FromInput(lines, firstIno, log, total, inos, plan)
    requires ValidSlot(fs0, q) && Ptr(fs0, q) != 0 && Ptr(fs0, q) in Owners(lines, firstIno)
    ensures HasChunk(log, Ptr(fs0, q), c) && c < total && Ptr(fs, q) == Target(runs, c)
  {
    hide Ptr, Visited, MetIn, WellFormed, Target, NewPlace, NoSharing, ListingGood, SameFiles, PlacesUnused, Owners,
      Blocks, AllCut, InListOrder, InodeLists, SortLists, Tiling, Disjoint, ListingsApart, ChunksApart, InodeDone,
      InodeUntouched, HolesKept, PlacesWait, ValidSlot;
    var b := Ptr(fs0, q);
    BlocksHeld(log, b);
    var p :| p in log && p.ext.Holds(b);
    var j := ListOfPiece(log, total, inos, plan, p);
    var x, n := Value(p.ext), b - p.ext.block;
    var k := ListedSlot(fs0, plan[j], total, bufBlocks, x, n);
    assert Visited(fs0, plan[j].ino)[k] == q by {
      SlotOnce(fs0, Visited(fs0, plan[j].ino)[k], q);
    }
    c := MovedSlot(fs0, fs, plan, runs, total, bufBlocks, j, k);
    assert Lists(x, MetIn(fs0, plan[j].ino)[k].code);
  }

  lemma SlotOnce(fs: Fs, q: Slot, r: Slot)
    requires NoSharing(fs) && ValidSlot(fs, q) && ValidSlot(fs, r) && Ptr(fs, q) == Ptr(fs, r) != 0
    ensures q == r
  {}

  /** The listing that a piece of the log belongs to. */
  lemma ListOfPiece(log: seq<Piece>, total: nat, inos: seq<nat>, plan: seq<Listing>, p: Piece) returns (j: nat)
    requires GoodLog(log, total) && PlanOf(log, inos, plan) && p in log
    ensures j < |plan| && plan[j] in plan && Value(p.ext) in plan[j].exts
  {
    hide Tiling, Disjoint, SortLists, InodeLists, ChunksApart, ListingsApart;
    PlanApart(log, total, inos, plan);
    ListsAre(log, p.ino);
    assert p == Piece(p.ext, p.ino);
    OwnMembers(log, p.ino, p.ext);
    j :| 0 <= j < |inos| && inos[j] == p.ino;
    assert InLog(log, plan[j].ino, Value(p.ext));
  }

  /** In the end the listed blocks lie on the disk in the order in which the list names them. */
  lemma DiskInListOrder(fs0: Fs, fs: Fs, lines: seq<Line>, firstIno: nat, log: seq<Piece>, total: nat, inos: seq<nat>,
                        plan: seq<Listing>, runs: seq<FreeExtent>, used: seq<bool>, end: nat, bufBlocks: nat, q: Slot,
                        r: Slot)
    requires PlanGood(fs0, plan, runs, total, bufBlocks) && Progress(fs0, fs, plan, runs, |plan|)
    requires FromInput(lines, firstIno, log, total, inos, plan) && SoundRuns(used, end, runs, total)
    requires ValidSlot(fs0, q) && Ptr(fs0, q) != 0 && Ptr(fs0, q) in Owners(lines, firstIno)
    requires ValidSlot(fs0, r) && Ptr(fs0, r) != 0 && Ptr(fs0, r) in Owners(lines, firstIno)
    ensures Ptr(fs, q) < Ptr(fs, r) <==> Earlier(lines, firstIno, Ptr(fs0, q), Ptr(fs0, r))
  {
    hide Ptr, PlanGood, Progress, Owners, Blocks, AllCut, InListOrder, Earlier, HasChunk, PlanOf, Tiling, Disjoint,
      SoundRuns, Target, ValidSlot;
    var c := PlaceOfListed(fs0, fs, lines, firstIno, log, total, inos, plan, runs, bufBlocks, q);
    var d := PlaceOfListed(fs0, fs, lines, firstIno, log, total, inos, plan, runs, bufBlocks, r);
    ChunksInListOrder(lines, firstIno, log, total, Ptr(fs0, q), Ptr(fs0, r), c, d);
    if c < d {
      TargetsAscend(used, end, runs, total, c, d);
    } else if d < c {
      TargetsAscend(used, end, runs, total, d, c);
    }
  }

  lemma RunsTile(used: seq<bool>, end: nat, runs: seq<FreeExtent>, total: nat)
    requires SoundRuns(used, end, runs, total) && total > 0
    ensures OffsetsTile(runs, 0, total)
  {}

  // ----- The program

  /** How the program ends. `Hung` stands for a loop that does not end, `Crashed` for an access outside its arrays. */
  datatype Ending = NotLoaded(why: Outcome) | NoSpace | Failed | Crashed | Hung | Done

  /** The inodes with extents, in some order. */
  method ListInodes(lists: map<nat, seq<RemapExtent>>) returns (inos: seq<nat>)
    ensures Distinct(inos) && forall i :: i in inos <==> i in lists
  {
    inos := [];
    var rest := lists.Keys;
    while rest != {}
      invariant rest <= lists.Keys
      invariant Distinct(inos) && forall i :: i in inos <==> i in lists.Keys - rest
      decreases |rest|
    {
      var i: nat :| i in rest;
      rest := rest - {i};
      assert forall k :: k in inos + [i] <==> k in inos || k == i;
      inos := inos + [i];
    }
  }

  /** Whether the bitmap update stays inside the bitmap. */
  predicate AllInside(rs: seq<GC.Range>, first: nat, size: nat) {
    forall r <- rs :: first <= r.block && r.block + r.len <= size
  }

  lemma PlanNonEmpty(log: seq<Piece>, total: nat, inos: seq<nat>, plan: seq<Listing>)
    requires GoodLog(log, total) && PlanOf(log, inos, plan)
    ensures plan != [] ==> total > 0
    ensures forall l <- plan :: l.exts != []
  {
    hide Tiling, Disjoint, InodeLists, SortLists, ListingsApart;
    PlanApart(log, total, inos, plan);
    if plan != [] {
      var x := plan[0].exts[0];
      assert plan[0] in plan && x in plan[0].exts;
      assert InLog(log, plan[0].ino, x);
    }
  }

  /** What the choices of a run come from. */
  ghost predicate FromInput(lines: seq<Line>, firstIno: nat, log: seq<Piece>, total: nat, inos: seq<nat>,
                            plan: seq<Listing>) {
    && Blocks(log) == Owners(lines, firstIno) && AllCut(lines, firstIno, log) && InListOrder(lines, firstIno, log)
    && GoodLog(log, total) && PlanOf(log, inos, plan)
  }

  lemma InsideGood(fs0: Fs, fs: Fs, lay: GC.Layout, plan: seq<Listing>, runs: seq<FreeExtent>, total: nat,
                   bufBlocks: nat,
                   used: seq<bool>, end: nat)
    requires PlanGood(fs0, plan, runs, total, bufBlocks) && Progress(fs0, fs, plan, runs, |plan|)
    requires lay.Valid() && BitmapRight(fs0, used) && SoundRuns(used, end, runs, total) && end <= |used| && total > 0
    ensures AllInside(RunRanges(runs) + MovedRanges(Flatten(plan)), lay.firstData, |used|)
  {
    hide Ptr, WellFormed, Target, Referenced, NoSharing, Progress, ListingGood, Flatten, MovedRanges, RunRanges,
      ListingsApart;
    forall r | r in RunRanges(runs) ensures lay.firstData <= r.block && r.block + r.len <= |used| {
      var k :| 0 <= k < |runs| && RunRanges(runs)[k] == r;
      assert runs[k] in runs;
      TileBounds(runs, 0, total, k);
      RunBlockTarget(runs, total, k, 0);
      TargetsFree(used, end, runs, total, runs[k].offset);
    }
    forall r | r in MovedRanges(Flatten(plan)) ensures lay.firstData <= r.block && r.block + r.len <= |used| {
      var k :| 0 <= k < |Flatten(plan)| && MovedRanges(Flatten(plan))[k] == r;
      var x := Flatten(plan)[k];
      FlattenMembers(plan, x);
      var l :| l in plan && x in l.exts;
      ListedInside(fs0, l, total, bufBlocks, x);
    }
  }

  lemma ListedInside(fs: Fs, l: Listing, total: nat, bufBlocks: nat, x: Extent)
    requires WellFormed(fs) && fs.apb > 0 && ListingGood(fs, l, total, bufBlocks) && x in l.exts
    ensures 0 < x.block && x.block + x.len <= |fs.disk|
  {
    hide Ptr, MetIn;
    SourceUsed(fs, l.ino, l.exts, x, x.len - 1);
    SourceUsed(fs, l.ino, l.exts, x, 0);
  }

  ghost predicate ReadyToFinish(fs0: Fs, fs: Fs, plan: seq<Listing>, runs: seq<FreeExtent>, total: nat, bufBlocks: nat,
                                used: seq<bool>, end: nat)
  {
    && PlanGood(fs0, plan, runs, total, bufBlocks) && Progress(fs0, fs, plan, runs, |plan|)
    && BitmapRight(fs0, used) && SoundRuns(used, end, runs, total)
  }

  /** The bitmap update. */
  method FinishBitmap(groups: GC.Groups, plan: seq<Listing>, runs: seq<FreeExtent>, ghost fs0: Fs, ghost fs: Fs,
                      ghost log: seq<Piece>,
                      ghost inos: seq<nat>, ghost total: nat, ghost bufBlocks: nat, ghost end: nat)
    returns (r: Ending)
    requires groups.lay.Valid() && end <= |groups.used|
    requires forall b: nat | groups.lay.firstData <= b < |groups.used| :: groups.lay.GroupOf(b) < |groups.free|
    requires GoodLog(log, total) && PlanOf(log, inos, plan) && total > 0
    modifies groups`used, groups`free
    ensures r == Done || r == Hung || r == Crashed
    ensures r == Hung ==> exists x <- RunRanges(runs) + MovedRanges(Flatten(plan)) :: GC.Hangs(groups.lay, x)
    ensures r == Done ==> forall x <- RunRanges(runs) + MovedRanges(Flatten(plan)) :: !GC.Hangs(groups.lay, x)
    ensures r == Done ==> BitsUpdated(old(groups.used), groups.used, plan, runs)
    ensures r == Crashed ==> unchanged(groups)
    ensures r == Crashed ==>
      !AllInside(RunRanges(runs) + MovedRanges(Flatten(plan)), groups.lay.firstData, |groups.used|)
    ensures ReadyToFinish(fs0, fs, plan, runs, total, bufBlocks, old(groups.used), end) ==>
      && r != Crashed
      && (r == Done ==>
          && BitmapFollows(fs0, fs, old(groups.used), groups.used)
          && GC.Sum(groups.free) == GC.Sum(old(groups.free))
          && (GC.Accounted(groups.lay, old(groups.used), old(groups.free)) ==> GC.Accounted(groups.lay, groups.used, groups.free)))
  {
    hide PlanGood, Progress, BitmapRight, SoundRuns, GC.Accounted, GC.Sum, GC.Hangs, GC.CleanUpdate, GC.Total,
      GC.Covered,
      BitmapFollows, GoodLog, PlanOf, RunRanges, MovedRanges, Flatten, AllInside;
    var a, b := RunRanges(runs), MovedRanges(Flatten(plan));
    ghost var used := groups.used;
    ghost var good := ReadyToFinish(fs0, fs, plan, runs, total, bufBlocks, used, end);
    if good {
      InsideGood(fs0, fs, groups.lay, plan, runs, total, bufBlocks, used, end);
      UpdateIsClean(fs0, fs, log, inos, plan, runs, total, bufBlocks, used, end);
    }
    if !AllInside(a + b, groups.lay.firstData, |groups.used|) {
      return Crashed;
    }
    InsideMeans(a + b, groups.lay.firstData, |groups.used|);
    var hung := groups.UpdateBitmap(a, b);
    r := if hung then Hung else Done;
    if good && !hung {
      Follows(fs0, fs, log, inos, plan, runs, total, bufBlocks, used, groups.used, end);
    }
  }

  lemma InsideMeans(rs: seq<GC.Range>, first: nat, size: nat)
    requires AllInside(rs, first, size)
    ensures forall r <- rs :: first <= r.block && r.block + r.len <= size
  {}

  lemma Follows(fs0: Fs, fs: Fs, log: seq<Piece>, inos: seq<nat>, plan: seq<Listing>, runs: seq<FreeExtent>,
                total: nat, bufBlocks: nat,
                used: seq<bool>, used': seq<bool>, end: nat)
    requires PlanGood(fs0, plan, runs, total, bufBlocks) && Progress(fs0, fs, plan, runs, |plan|)
    requires GoodLog(log, total) && PlanOf(log, inos, plan) && total > 0
    requires BitmapRight(fs0, used) && SoundRuns(used, end, runs, total) && BitsUpdated(used, used', plan, runs)
    ensures BitmapFollows(fs0, fs, used, used')
  {
    hide PlanGood, Progress, BitmapRight, SoundRuns, GC.Covered, GoodLog, PlanOf, RunRanges, MovedRanges, Flatten,
      Referenced;
    RunsTile(used, end, runs, total);
    PlanTakesChunks(log, total, inos, plan);
    forall b | 0 < b < |used| ensures used'[b] <==> Referenced(fs, b) || (used[b] && !Referenced(fs0, b)) {
      BitmapExact(fs0, fs, plan, runs, total, bufBlocks, used, used', b);
    }
  }

  /**
    The whole program. When the input names blocks where the files have them, the walks meet them in order, the extents
    fit into the buffer and the free runs that pass the threshold can hold the data, then every file keeps its content,
    the listed blocks are in their new places and the free-space accounting is exact. Whatever the list says, the files
    keep their content, unless the program fails, which it does exactly if an extent leaves the device or a walk looks up
    a block that the list names differently.
   */
  method Run(vol: Volume, groups: GC.Groups, lines: seq<Line>, firstIno: nat, start: nat, end: nat, minSize: nat,
             bufBlocks: nat)
    returns (r: Ending, ghost log: seq<Piece>, ghost total: nat, ghost inos: seq<nat>, ghost plan: seq<Listing>,
             ghost runs: seq<FreeExtent>)
    requires bufBlocks > 0 && end <= |groups.used|
    requires groups.lay.Valid()
    requires forall b: nat | groups.lay.firstData <= b < |groups.used| :: groups.lay.GroupOf(b) < |groups.free|
    modifies vol`disk, vol`inodes, groups`used, groups`free
    ensures r.NotLoaded? <==> LoadOutcome(lines, firstIno) != Outcome.Loaded
    ensures r.NotLoaded? ==> r.why == LoadOutcome(lines, firstIno)
    ensures !r.NotLoaded? ==> FromInput(lines, firstIno, log, total, inos, plan)
    ensures r.NotLoaded? || r == NoSpace ==> unchanged(vol) && unchanged(groups)
    ensures !r.NotLoaded? ==>
      var s := Scan(old(groups.used), start, end, total, minSize);
      && (r == NoSpace <==> !RoomInOne(old(groups.used), start, end, total) && !SpareRun(s.runs, total))
      && (r == NoSpace ==> FindsAll(old(groups.used), start, end, minSize, s.runs))
      && (r != NoSpace ==> Chosen(old(groups.used), start, end, total, s.runs, runs))
    ensures !r.NotLoaded? && r != NoSpace && total == 0 ==>
      r == Done && vol.Files() == old(vol.Files()) && unchanged(groups)
    ensures !r.NotLoaded? && r != NoSpace && total > 0 ==>
      Harmless(old(vol.Files()), old(groups.used), start, end, minSize, plan, total, bufBlocks) ==>
      && (r == Failed <==> exists l <- plan :: !ListingAgrees(old(vol.Files()), l))
      && (r != Failed ==> Progress(old(vol.Files()), vol.Files(), TakenPlan(old(vol.Files()), plan), runs, |plan|))
    ensures r == Failed || r == Crashed ==> unchanged(groups)
    ensures !r.NotLoaded? && r != NoSpace && total > 0 ==>
      && (r == Done ==> BitsUpdated(old(groups.used), groups.used, plan, runs))
      && (r == Hung ==> exists x <- RunRanges(runs) + MovedRanges(Flatten(plan)) :: GC.Hangs(groups.lay, x))
      && (r == Crashed ==>
        !AllInside(RunRanges(runs) + MovedRanges(Flatten(plan)), groups.lay.firstData, |groups.used|))
    ensures !r.NotLoaded? && r != NoSpace && total > 0 ==>
      Promised(old(vol.Files()), old(groups.used), lines, firstIno, start, end, minSize, plan, total, bufBlocks) ==>
      && (r == Done || r == Hung)
      && Progress(old(vol.Files()), vol.Files(), plan, runs, |plan|)
      && SoundRuns(old(groups.used), end, runs, total) && PlanGood(old(vol.Files()), plan, runs, total, bufBlocks)
      && (r == Hung <==> exists x <- RunRanges(runs) + MovedRanges(Flatten(plan)) :: GC.Hangs(groups.lay, x))
      && (r == Done ==>
          && BitmapFollows(old(vol.Files()), vol.Files(), old(groups.used), groups.used)
          && GC.Sum(groups.free) == GC.Sum(old(groups.free))
          && (GC.Accounted(groups.lay, old(groups.used), old(groups.free)) ==> GC.Accounted(groups.lay, groups.used, groups.free)))
  {
    hide LoadOutcome, Owners, Blocks, FromInput, GoodLog, PlanOf, Scan, SpareRun, PlanGood, Progress, Walkable,
      InputRight,
      SoundRuns, PassingHold, GC.Sum, GC.Accounted, GC.Hangs, Flatten, RunRanges, MovedRanges, BitmapFollows, BitmapRight,
      OffsetsTile, Promised, RoomInOne, FindsAll, AllCut, InListOrder, Harmless, PlanUsable, ListingAgrees, TakenPlan, Chosen,
      BitsUpdated, AllInside;
    ghost var fs0, used0 := vol.Files(), groups.used;
    total, inos, plan, runs := 0, [], [], [];
    var loader := new Loader(firstIno);
    var loaded := loader.Load(lines);
    log := loader.log;
    if !loaded.Loaded? {
      return NotLoaded(loaded), log, total, inos, plan, runs;
    }
    total := loader.remapBlocks;
    var inodeList := ListInodes(loader.inodes);
    var sorted := SortLists(loader.inodes, inodeList);
    inos, plan := inodeList, sorted;
    InputTaken(lines, firstIno, log, total, inos, plan);
    PlanNonEmpty(log, total, inos, plan);
    var found := FindFreeBlocks(groups.used, start, end, loader.remapBlocks, minSize);
    if found.None? {
      return NoSpace, log, total, inos, plan, runs;
    }
    runs := found.value;
    if Promised(fs0, used0, lines, firstIno, start, end, minSize, plan, total, bufBlocks) {
      PromisedPlan(fs0, used0, lines, firstIno, start, end, minSize, log, total, inos, plan, runs, bufBlocks);
    }
    if Harmless(fs0, used0, start, end, minSize, plan, total, bufBlocks) {
      HarmlessPlan(fs0, used0, lines, firstIno, start, end, minSize, log, total, inos, plan, runs, bufBlocks);
    }
    var ok := CopyAndRemapExtents(vol, sorted, found.value, loader.remapBlocks, bufBlocks);
    if !ok {
      return Failed, log, total, inos, plan, runs;
    }
    if loader.remapBlocks == 0 {
      return Done, log, total, inos, plan, runs;
    }
    r := FinishBitmap(groups, sorted, found.value, fs0, vol.Files(), log, inos, total, bufBlocks, end);
  }

  lemma InputTaken(lines: seq<Line>, firstIno: nat, log: seq<Piece>, total: nat, inos: seq<nat>, plan: seq<Listing>)
    requires Blocks(log) == Owners(lines, firstIno) && AllCut(lines, firstIno, log) && InListOrder(lines, firstIno, log)
    requires Tiling(log, total) && Disjoint(log) && forall p <- log :: p.ext.len > 0
    requires Distinct(inos) && (forall i :: i in inos <==> i in InodeLists(log)) && plan == SortLists(InodeLists(log), inos)
    ensures FromInput(lines, firstIno, log, total, inos, plan) && GoodLog(log, total) && PlanOf(log, inos, plan)
  {}

  lemma PromisedPlan(fs: Fs, used: seq<bool>, lines: seq<Line>, firstIno: nat, start: nat, end: nat, minSize: nat,
                     log: seq<Piece>,
                     total: nat, inos: seq<nat>, plan: seq<Listing>, runs: seq<FreeExtent>, bufBlocks: nat)
    requires end <= |used| && Promised(fs, used, lines, firstIno, start, end, minSize, plan, total, bufBlocks)
    requires FromInput(lines, firstIno, log, total, inos, plan)
    requires SoundRuns(used, end, runs, total) <==>
      RoomInOne(used, start, end, total) || PassingHold(Scan(used, start, end, total, minSize).runs, total)
    ensures PlanGood(fs, plan, runs, total, bufBlocks) && SoundRuns(used, end, runs, total) && BitmapRight(fs, used)
  {
    hide Owners, Blocks, GoodLog, PlanOf, Scan, PlanGood, Walkable, SoundRuns, PassingHold, BitmapRight, OwnerMet,
      WellFormed, NoSharing, RoomInOne;
    PlanIsGood(fs, used, end, lines, firstIno, log, total, inos, plan, runs, bufBlocks);
  }
}
