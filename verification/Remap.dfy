/** The whole remapping: for each inode its blocks are copied and its pointers rewritten, and no file changes. */
module Remap {
  import opened Arithmetic
  import opened Ext2
  import opened BlockTree
  import opened Traverse
  import opened FreeRuns
  import opened RemapBlocks
  import opened RemapInode
  import opened CopyBlocks

  /** An inode and its extents, sorted. */
  datatype Listing = Listing(ino: nat, exts: seq<Extent>)

  // ----- What the input has to be

  ghost function MetIn(fs: Fs, ino: nat): seq<Met> {
    MetOf(fs, Visited(fs, ino))
  }

  ghost predicate UsesChunk(exts: seq<Extent>, c: nat) {
    exists x <- exts :: x.chunkOffset <= c < x.chunkOffset + x.len
  }

  /** The extents have chunk offsets of their own below the total. */
  ghost predicate ChunksApart(exts: seq<Extent>, total: nat) {
    && (forall x <- exts :: x.chunkOffset + x.len <= total)
    && forall i, j | 0 <= i < j < |exts| ::
        exts[i].chunkOffset + exts[i].len <= exts[j].chunkOffset || exts[j].chunkOffset + exts[j].len <= exts[i].chunkOffset
  }

  /** The extents of an inode are really mapped in it, do not interleave, and fit into the buffer. */
  ghost predicate ListingGood(fs: Fs, l: Listing, total: nat, bufBlocks: nat) {
    && l.ino in fs.inodes
    && Ascending(MetIn(fs, l.ino)) && Mapped(l.exts, MetIn(fs, l.ino)) && Separated(l.exts)
    && ChunksApart(l.exts, total) && forall x <- l.exts :: x.len <= bufBlocks
  }

  ghost predicate PlacesUnused(fs: Fs, runs: seq<FreeExtent>, total: nat) {
    PlacesApart(runs, total, |fs.disk|) && forall c: nat | c < total :: !Referenced(fs, Target(runs, c))
  }

  ghost predicate ListingsApart(plan: seq<Listing>) {
    forall i, j | 0 <= i < j < |plan| :: plan[i].ino != plan[j].ino && ChunksShared(plan[i].exts, plan[j].exts) == {}
  }

  ghost function ChunksOf(exts: seq<Extent>): set<nat> {
    if exts == [] then {} else ChunkRange(exts[0].chunkOffset, exts[0].len) + ChunksOf(exts[1..])
  }

  ghost function ChunkRange(o: nat, n: nat): set<nat> {
    if n == 0 then {} else ChunkRange(o, n - 1) + {o + n - 1}
  }

  ghost function ChunksShared(a: seq<Extent>, b: seq<Extent>): set<nat> {
    ChunksOf(a) * ChunksOf(b)
  }

  lemma {:induction false} ChunkRangeIs(o: nat, n: nat, c: nat)
    ensures c in ChunkRange(o, n) <==> o <= c < o + n
  {
    if n > 0 {
      ChunkRangeIs(o, n - 1, c);
    }
  }

  lemma {:induction false} ChunksOfIs(exts: seq<Extent>, c: nat)
    ensures c in ChunksOf(exts) <==> UsesChunk(exts, c)
  {
    if exts != [] {
      ChunkRangeIs(exts[0].chunkOffset, exts[0].len, c);
      ChunksOfIs(exts[1..], c);
      assert exts == [exts[0]] + exts[1..];
    }
  }

  /** What the remapping relies on. */
  ghost predicate PlanGood(fs: Fs, plan: seq<Listing>, runs: seq<FreeExtent>, total: nat, bufBlocks: nat) {
    && WellFormed(fs) && NoSharing(fs) && fs.apb > 0
    && PlacesUnused(fs, runs, total)
    && (forall l <- plan :: ListingGood(fs, l, total, bufBlocks))
    && ListingsApart(plan)
  }

  /** The same without asking whether the lists fit the walks of the files. */
  ghost predicate ListingUsable(fs: Fs, l: Listing, total: nat, bufBlocks: nat) {
    && l.ino in fs.inodes && Ascending(MetIn(fs, l.ino))
    && ChunksApart(l.exts, total) && forall x <- l.exts :: 0 < x.len <= bufBlocks
  }

  ghost predicate PlanUsable(fs: Fs, plan: seq<Listing>, runs: seq<FreeExtent>, total: nat, bufBlocks: nat) {
    && WellFormed(fs) && NoSharing(fs) && fs.apb > 0
    && PlacesUnused(fs, runs, total)
    && (forall l <- plan :: ListingUsable(fs, l, total, bufBlocks))
    && ListingsApart(plan)
  }

  /** The blocks of each inode that its walk is right to change. */
  ghost function TakenListing(fs: Fs, l: Listing): Listing {
    Listing(l.ino, TakenIn(fs, l.ino, l.exts))
  }

  ghost function TakenPlan(fs: Fs, plan: seq<Listing>): seq<Listing> {
    seq(|plan|, (k: nat) requires k < |plan| => TakenListing(fs, plan[k]))
  }

  /** The list of an inode does not name other blocks than the walk looks up, and none off the device. */
  ghost predicate ListingAgrees(fs: Fs, l: Listing) {
    Agrees(fs, l.ino, l.exts) && forall x <- l.exts :: x.block + x.len <= |fs.disk|
  }

  // ----- What has been done

  /** The listed blocks of the inode are in their new places, all others where they were. */
  ghost predicate InodeDone(fs0: Fs, fs: Fs, l: Listing, runs: seq<FreeExtent>) {
    var v, met := Visited(fs0, l.ino), MetIn(fs0, l.ino);
    |met| == |v| && forall i | 0 <= i < |v| :: Ptr(fs, v[i]) == Want(l.exts, runs, met[i])
  }

  ghost predicate InodeUntouched(fs0: Fs, fs: Fs, ino: nat) {
    forall q :: ValidSlot(fs0, q) && q.ino == ino ==> Ptr(fs, q) == Ptr(fs0, q)
  }

  ghost predicate HolesKept(fs0: Fs, fs: Fs) {
    forall q :: ValidSlot(fs0, q) && Ptr(fs0, q) == 0 ==> Ptr(fs, q) == 0
  }

  ghost predicate PlacesWait(fs: Fs, l: Listing, runs: seq<FreeExtent>) {
    forall c <- ChunksOf(l.exts) :: !Referenced(fs, Target(runs, c))
  }

  ghost predicate Unlisted(plan: seq<Listing>, n: nat, ino: nat)
    requires n <= |plan|
  {
    forall j | 0 <= j < n :: plan[j].ino != ino
  }

  /** The first `n` inodes have been remapped, and no file has changed. */
  ghost predicate Progress(fs0: Fs, fs: Fs, plan: seq<Listing>, runs: seq<FreeExtent>, n: nat)
    requires n <= |plan|
  {
    && SameFiles(fs0, fs) && NoSharing(fs) && |fs.disk| == |fs0.disk|
    && (forall j | 0 <= j < n :: InodeDone(fs0, fs, plan[j], runs))
    && (forall ino: nat :: Unlisted(plan, n, ino) ==> InodeUntouched(fs0, fs, ino))
    && HolesKept(fs0, fs)
    && (forall j | n <= j < |plan| :: PlacesWait(fs, plan[j], runs))
  }

  // ----- Copying

  /** A file system with the same pointers in an inode has the same walk over it. */
  lemma {:induction false} SamePresent(fs: Fs, fs': Fs, w: seq<Slot>)
    requires forall q <- w :: Ptr(fs, q) == Ptr(fs', q)
    ensures Present(fs, w) == Present(fs', w)
  {
    if w != [] {
      SamePresent(fs, fs', w[..|w| - 1]);
    }
  }

  lemma SameWalk(fs: Fs, fs': Fs, ino: nat)
    requires WellFormed(fs) && fs.apb == fs'.apb && fs.apb > 0 && ino in fs.inodes && InodeUntouched(fs, fs', ino)
    ensures Visited(fs', ino) == Visited(fs, ino) && MetIn(fs', ino) == MetIn(fs, ino)
  {
    hide Ptr, InodeWalk, Present, CodeAt;
    var w := InodeWalk(fs.apb, ino, 0);
    forall q | q in w ensures Ptr(fs', q) == Ptr(fs, q) {
      InodeWalkMembers(fs.apb, ino, 0, q);
    }
    SamePresent(fs, fs', w);
    VisitedIsVisit(fs, ino);
    assert forall q <- Visited(fs, ino) :: Ptr(fs', q) == Ptr(fs, q);
  }

  /** A code that is listed, the extent that lists it, and its place. */
  lemma PlaceOfCode(exts: seq<Extent>, runs: seq<FreeExtent>, met: seq<Met>, k: nat) returns (a: nat)
    requires Ascending(met) && Separated(exts) && Mapped(exts, met) && k < |met| && Listed(exts, met[k].code)
    ensures a < |exts| && Lists(exts[a], met[k].code) && Chunk(exts[a], met[k].code) >= 0
    ensures var o := Chunk(exts[a], met[k].code); NewPlace(exts, runs, met[k].code) == Target(runs, o)
    ensures met[k].block == exts[a].block + (met[k].code - exts[a].offset)
    ensures forall j | 0 <= j < |exts| :: Lists(exts[j], met[k].code) ==> j == a
  {
    hide Key, OffToDepth, OffToDataOff, Target, NewPlace, Ascending, MetAt;
    var code := met[k].code;
    var x :| x in exts && Lists(x, code);
    a :| 0 <= a < |exts| && exts[a] == x;
    var n := code - x.offset;
    KeysInside(x, met, 0, n);
    KeysInside(x, met, n, x.len - 1);
    ListedHere(exts, met, k, a);
    PlaceAt(exts, runs, code, a);
  }

  /** The blocks of an extent are blocks of the file. */
  lemma SourceUsed(fs: Fs, ino: nat, exts: seq<Extent>, x: Extent, n: nat)
    requires WellFormed(fs) && fs.apb > 0 && ino in fs.inodes && Mapped(exts, MetIn(fs, ino)) && x in exts && n < x.len
    ensures Referenced(fs, x.block + n) && 0 < x.block + n < |fs.disk|
  {
    hide Ptr, Visited, CodeAt, Referenced;
    assert MetAt(MetIn(fs, ino), x, n);
    VisitedIsVisit(fs, ino);
    var v, met := Visited(fs, ino), MetIn(fs, ino);
    var k :| 0 <= k < |met| && met[k] == Met(x.offset + n, x.block + n);
    assert v[k] in v;
    ReferencedBy(fs, v[k]);
  }

  lemma ReferencedBy(fs: Fs, q: Slot)
    requires ValidSlot(fs, q)
    ensures Referenced(fs, Ptr(fs, q))
  {}

  /** The extents of one inode, ready to be copied. */
  ghost predicate Copyable(disk: seq<Block>, runs: seq<FreeExtent>, total: nat, exts: seq<Extent>, bufBlocks: nat) {
    && PlacesApart(runs, total, |disk|) && ChunksApart(exts, total)
    && forall x <- exts :: 0 < x.len <= bufBlocks && x.block + x.len <= |disk|
  }

  /** No chunk offset has the block as its place. */
  ghost predicate NoPlace(runs: seq<FreeExtent>, total: nat, b: nat) {
    forall c: nat | c < total :: Target(runs, c) != b
  }

  /** The blocks of the extent that are not themselves places have been copied. */
  ghost predicate KeptCopied(disk: seq<Block>, d: seq<Block>, runs: seq<FreeExtent>, total: nat, x: Extent)
    requires x.block + x.len <= |disk|
  {
    forall c: nat | x.chunkOffset <= c < x.chunkOffset + x.len && NoPlace(runs, total, x.block + (c - x.chunkOffset)) ::
      Target(runs, c) < |d| && d[Target(runs, c)] == disk[x.block + (c - x.chunkOffset)]
  }

  /** All such blocks of all extents are in their places, and nothing else has changed. */
  ghost predicate ListCopied(disk: seq<Block>, d: seq<Block>, runs: seq<FreeExtent>, total: nat, exts: seq<Extent>) {
    && |d| == |disk|
    && (forall x <- exts :: x.block + x.len <= |disk| && KeptCopied(disk, d, runs, total, x))
    && forall b | 0 <= b < |disk| && (forall x <- exts :: !PlaceOf(runs, x.chunkOffset, x.len, b)) :: d[b] == disk[b]
  }

  lemma {:induction false} ListIsCopied(disk: seq<Block>, runs: seq<FreeExtent>, total: nat, exts: seq<Extent>,
                                        bufBlocks: nat)
    requires bufBlocks > 0 && Copyable(disk, runs, total, exts, bufBlocks)
    ensures ListCopied(disk, CopiedList(disk, runs, exts, bufBlocks), runs, total, exts)
  {
    hide Target, Copied, PlaceOf, ExtentCopied, KeptCopied, PlacesApart;
    if exts != [] {
      var n := |exts| - 1;
      var x := exts[n];
      assert x in exts && forall y <- exts[..n] :: y in exts;
      assert ChunksApart(exts[..n], total);
      ListIsCopied(disk, runs, total, exts[..n], bufBlocks);
      var d := CopiedList(disk, runs, exts[..n], bufBlocks);
      ShortCopied(d, runs, total, x, bufBlocks);
      CopiedMore(disk, d, Copied(d, runs, x, bufBlocks, 0), runs, total, exts, bufBlocks);
    }
  }

  lemma CopiedMore(disk: seq<Block>, d: seq<Block>, d': seq<Block>, runs: seq<FreeExtent>, total: nat,
                   exts: seq<Extent>, bufBlocks: nat)
    requires exts != [] && |d| == |disk| == |d'| && Copyable(disk, runs, total, exts, bufBlocks)
    requires ListCopied(disk, d, runs, total, exts[..|exts| - 1])
    requires var x := exts[|exts| - 1];
      && x.block + x.len <= |disk| && ExtentCopied(d, d', runs, x)
      && forall b | 0 <= b < |disk| && !PlaceOf(runs, x.chunkOffset, x.len, b) :: d'[b] == d[b]
    ensures ListCopied(disk, d', runs, total, exts)
  {
    hide Target, PlaceOf, ExtentCopied, KeptCopied, NoPlace;
    var n := |exts| - 1;
    var x := exts[n];
    assert x in exts;
    forall b: nat | b < |disk| && NoPlace(runs, total, b) ensures d[b] == disk[b] {
      forall y | y in exts[..n] ensures !PlaceOf(runs, y.chunkOffset, y.len, b) {
        assert y in exts;
        NoPlaceOf(runs, total, y, b);
      }
    }
    SameSource(disk, d, d', runs, total, x);
    forall y | y in exts ensures KeptCopied(disk, d', runs, total, y) {
      if y != x {
        var i :| 0 <= i < |exts| && exts[i] == y;
        assert i < n && exts[..n][i] == y;
        PlaceStays(disk, d, d', runs, total, x, y);
      }
    }
    forall b | 0 <= b < |disk| && (forall y <- exts :: !PlaceOf(runs, y.chunkOffset, y.len, b)) ensures d'[b] == disk[b] {
      assert forall y <- exts[..n] :: y in exts;
    }
  }

  lemma NoPlaceOf(runs: seq<FreeExtent>, total: nat, y: Extent, b: nat)
    requires NoPlace(runs, total, b) && y.chunkOffset + y.len <= total
    ensures !PlaceOf(runs, y.chunkOffset, y.len, b)
  {
    hide Target;
  }

  lemma SameSource(disk: seq<Block>, d: seq<Block>, d': seq<Block>, runs: seq<FreeExtent>, total: nat, x: Extent)
    requires |d| == |disk| && x.block + x.len <= |disk| && ExtentCopied(d, d', runs, x)
    requires forall b: nat | b < |disk| && NoPlace(runs, total, b) :: d[b] == disk[b]
    ensures KeptCopied(disk, d', runs, total, x)
  {
    hide Target, NoPlace;
  }

  lemma PlaceStays(disk: seq<Block>, d: seq<Block>, d': seq<Block>, runs: seq<FreeExtent>, total: nat, x: Extent,
                   y: Extent)
    requires |d| == |disk| == |d'| && y.block + y.len <= |disk| && KeptCopied(disk, d, runs, total, y)
    requires PlacesApart(runs, total, |disk|) && x.chunkOffset + x.len <= total && y.chunkOffset + y.len <= total
    requires x.chunkOffset + x.len <= y.chunkOffset || y.chunkOffset + y.len <= x.chunkOffset
    requires forall b | 0 <= b < |disk| && !PlaceOf(runs, x.chunkOffset, x.len, b) :: d'[b] == d[b]
    ensures KeptCopied(disk, d', runs, total, y)
  {
    hide Target, NoPlace;
    forall c: nat | y.chunkOffset <= c < y.chunkOffset + y.len ensures d'[Target(runs, c)] == d[Target(runs, c)] {
      assert !PlaceOf(runs, x.chunkOffset, x.len, Target(runs, c));
    }
  }

  /** The copy writes only to places of the inode's own chunk offsets. */
  lemma CopyUnused(fs: Fs, d: seq<Block>, runs: seq<FreeExtent>, total: nat, l: Listing)
    requires WellFormed(fs) && ListCopied(fs.disk, d, runs, total, l.exts) && PlacesWait(fs, l, runs)
    requires forall b | 0 <= b < |d| :: |d[b]| == fs.apb
    ensures SameUsedBlocks(fs, fs.(disk := d))
  {
    hide Target, WellFormed, Referenced, KeptCopied;
    forall b | 0 < b < |fs.disk| && Referenced(fs, b) ensures d[b] == fs.disk[b] {
      forall x | x in l.exts ensures !PlaceOf(runs, x.chunkOffset, x.len, b) {
        forall c: nat | x.chunkOffset <= c < x.chunkOffset + x.len ensures Target(runs, c) != b {
          ChunksOfIs(l.exts, c);
          assert UsesChunk(l.exts, c);
        }
      }
    }
  }

  lemma {:induction false} WrittenSizes(disk: seq<Block>, runs: seq<FreeExtent>, o: nat, src: seq<Block>, n: nat)
    requires (forall b <- disk :: |b| == n) && (forall b <- src :: |b| == n)
    ensures forall b <- Written(disk, runs, o, src) :: |b| == n
  {
    hide Target;
    if src != [] {
      WrittenSizes(disk, runs, o, src[..|src| - 1], n);
    }
  }

  lemma {:induction false} CopiedSizes(disk: seq<Block>, runs: seq<FreeExtent>, x: Extent, bufBlocks: nat, pos: nat,
                                       n: nat)
    requires bufBlocks > 0 && x.block + x.len <= |disk| && forall b <- disk :: |b| == n
    ensures forall b <- Copied(disk, runs, x, bufBlocks, pos) :: |b| == n
    decreases x.len - pos
  {
    hide Written;
    if pos < x.len {
      var m := Min(x.len - pos, bufBlocks);
      var src := disk[x.block + pos..x.block + pos + m];
      WrittenSizes(disk, runs, x.chunkOffset, src, n);
      CopiedSizes(Written(disk, runs, x.chunkOffset, src), runs, x, bufBlocks, pos + m, n);
    }
  }

  lemma {:induction false} ListSizes(disk: seq<Block>, runs: seq<FreeExtent>, exts: seq<Extent>, bufBlocks: nat, n: nat)
    requires bufBlocks > 0 && forall b <- disk :: |b| == n
    ensures forall b <- CopiedList(disk, runs, exts, bufBlocks) :: |b| == n
  {
    hide Copied;
    if exts != [] {
      var m := |exts| - 1;
      ListSizes(disk, runs, exts[..m], bufBlocks, n);
      var d := CopiedList(disk, runs, exts[..m], bufBlocks);
      if exts[m].len > 0 && exts[m].block + exts[m].len <= |d| {
        CopiedSizes(d, runs, exts[m], bufBlocks, 0, n);
      }
    }
  }

  /** What is known when the turn of an inode comes. */
  ghost predicate Turn(fs: Fs, l: Listing, runs: seq<FreeExtent>, total: nat, bufBlocks: nat) {
    && WellFormed(fs) && NoSharing(fs) && fs.apb > 0 && bufBlocks > 0 && l.exts != []
    && PlacesApart(runs, total, |fs.disk|) && PlacesWait(fs, l, runs)
    && ListingUsable(fs, l, total, bufBlocks)
    && TakenKept(fs, l, runs, total)
  }

  /** The blocks that the walk is right to change are not places. */
  ghost predicate TakenKept(fs: Fs, l: Listing, runs: seq<FreeExtent>, total: nat) {
    forall m <- MetIn(fs, l.ino) :: NoPlace(runs, total, m.block)
  }

  /** The copy stays on the device if the list does. */
  lemma TurnFits(fs: Fs, l: Listing, runs: seq<FreeExtent>, total: nat, bufBlocks: nat)
    requires Turn(fs, l, runs, total, bufBlocks)
    ensures (forall x <- l.exts :: Fits(runs, total, x, bufBlocks, |fs.disk|)) <==>
      forall x <- l.exts :: x.block + x.len <= |fs.disk|
    ensures (forall x <- l.exts :: x.block + x.len <= |fs.disk|) ==> Copyable(fs.disk, runs, total, l.exts, bufBlocks)
  {
    hide Target, WellFormed, NoSharing, PlacesWait, Ascending, MetIn, TakenKept;
  }

  /** After the copy the pointers of the inode can be rewritten. */
  lemma CopyMakesReady(fs: Fs, l: Listing, runs: seq<FreeExtent>, total: nat, bufBlocks: nat)
    requires Turn(fs, l, runs, total, bufBlocks) && Copyable(fs.disk, runs, total, l.exts, bufBlocks)
    ensures var fs' := fs.(disk := CopiedList(fs.disk, runs, l.exts, bufBlocks));
      && SameUsedBlocks(fs, fs') && Steady(fs', l.ino, l.exts, runs, total)
      && MetIn(fs', l.ino) == MetIn(fs, l.ino) && Visited(fs', l.ino) == Visited(fs, l.ino)
      && TakenIn(fs', l.ino, l.exts) == TakenIn(fs, l.ino, l.exts)
  {
    hide Target, Ptr, Copied, CopiedList, Visited, MetOf, PlacesApart, Ascending, ReadyCopy, TakenAll,
      Copyable, ListCopied, PlacesWait, NewPlace, GoodTargets, DistinctPlaces, Referenced, SameUsedBlocks, NoSharing, ChunksApart, Listed;
    var d := CopiedList(fs.disk, runs, l.exts, bufBlocks);
    var fs' := fs.(disk := d);
    ListIsCopied(fs.disk, runs, total, l.exts, bufBlocks);
    SizesIn(fs);
    ListSizes(fs.disk, runs, l.exts, bufBlocks, fs.apb);
    CopyUnused(fs, d, runs, total, l);
    UnusedWritesKeep(fs, fs');
    SameWalk(fs, fs', l.ino);
    var met := MetIn(fs, l.ino);
    var t := TakenAll(l.exts, met);
    TargetsGood(runs, total, |fs.disk|, l.exts);
    TakenTargets(l.exts, met, runs, total, |fs.disk|);
    TakenFit(l.exts, met, |met|);
    TakenApart(l.exts, met, total);
    TakenUnfolds(l.exts, met);
    PlacesDistinct(met, runs, total, |fs.disk|, t);
    VisitedIsVisit(fs, l.ino);
    forall m | m in met && Listed(t, m.code) ensures ReadyCopy(fs', m.block, NewPlace(t, runs, m.code)) {
      var k :| 0 <= k < |met| && met[k] == m;
      MetUsed(fs, l.ino, k);
      CopyIsReady(fs, d, l, runs, total, bufBlocks, k);
    }
  }

  lemma TakenUnfolds(exts: seq<Extent>, met: seq<Met>)
    ensures TakenAll(exts, met) == Taken(exts, met, |met|)
  {}

  /** The taken blocks have chunk offsets of their own. */
  lemma TakenApart(exts: seq<Extent>, met: seq<Met>, total: nat)
    requires Ascending(met) && ChunksApart(exts, total)
    ensures ChunksApart(TakenAll(exts, met), total)
  {
    hide Key, OffToDepth, ActAt, RightAt, TakenAll, Separated, Mapped, Ascending;
    var t := TakenAll(exts, met);
    forall y | y in t ensures y.chunkOffset + y.len <= total {
      var k, x := TakenFrom(exts, met, y);
    }
    TakenFit(exts, met, |met|);
    TakenUnfolds(exts, met);
    forall i, j | 0 <= i < j < |t|
      ensures t[i].chunkOffset + t[i].len <= t[j].chunkOffset || t[j].chunkOffset + t[j].len <= t[i].chunkOffset
    {
      var a, x := TakenFrom(exts, met, t[i]);
      var b, y := TakenFrom(exts, met, t[j]);
      DifferentOffsets(t, i, j);
      ChunksDiffer(exts, total, x, y, met[a].code, met[b].code);
    }
  }

  lemma DifferentOffsets(t: seq<Extent>, i: nat, j: nat)
    requires Separated(t) && i < j < |t| && t[i].len == 1
    ensures t[i].offset != t[j].offset
  {
    hide Key;
  }

  lemma ChunksDiffer(exts: seq<Extent>, total: nat, x: Extent, y: Extent, c: int, d: int)
    requires ChunksApart(exts, total) && x in exts && y in exts && Lists(x, c) && Lists(y, d) && c != d
    ensures Chunk(x, c) != Chunk(y, d)
  {
    var i :| 0 <= i < |exts| && exts[i] == x;
    var j :| 0 <= j < |exts| && exts[j] == y;
    if i < j {
    } else if j < i {
    }
  }

  lemma TakenChunks(exts: seq<Extent>, met: seq<Met>)
    ensures ChunksOf(TakenAll(exts, met)) <= ChunksOf(exts)
  {
    hide ChunksOf, TakenAll, ActAt, RightAt;
    forall c | c in ChunksOf(TakenAll(exts, met)) ensures c in ChunksOf(exts) {
      ChunksOfIs(TakenAll(exts, met), c);
      ChunksOfIs(exts, c);
      var t :| t in TakenAll(exts, met) && t.chunkOffset <= c < t.chunkOffset + t.len;
      var k, x := TakenFrom(exts, met, t);
    }
  }

  lemma SizesIn(fs: Fs)
    requires WellFormed(fs)
    ensures forall b <- fs.disk :: |b| == fs.apb
  {}

  lemma MetUsed(fs: Fs, ino: nat, k: nat)
    requires WellFormed(fs) && fs.apb > 0 && ino in fs.inodes && k < |MetIn(fs, ino)|
    ensures Referenced(fs, MetIn(fs, ino)[k].block) && 0 < MetIn(fs, ino)[k].block < |fs.disk|
  {
    hide Ptr, Visited, CodeAt, Referenced;
    VisitedIsVisit(fs, ino);
    assert Visited(fs, ino)[k] in Visited(fs, ino);
    ReferencedBy(fs, Visited(fs, ino)[k]);
  }

  lemma TargetsGood(runs: seq<FreeExtent>, total: nat, size: nat, exts: seq<Extent>)
    requires PlacesApart(runs, total, size) && ChunksApart(exts, total)
    ensures GoodTargets(exts, runs, total, size)
  {
    hide Target;
  }

  /** Different listed blocks have different places. */
  lemma PlacesDistinct(met: seq<Met>, runs: seq<FreeExtent>, total: nat, size: nat, exts: seq<Extent>)
    requires PlacesApart(runs, total, size) && ChunksApart(exts, total)
    requires Ascending(met) && Separated(exts) && Mapped(exts, met)
    ensures DistinctPlaces(met, exts, runs)
  {
    hide Target, Key, OffToDepth, NewPlace, Mapped, Separated, Listed;
    forall i, j | 0 <= i < j < |met| && Listed(exts, met[i].code) && Listed(exts, met[j].code)
      ensures NewPlace(exts, runs, met[i].code) != NewPlace(exts, runs, met[j].code)
    {
      var a := PlaceOfCode(exts, runs, met, i);
      var b := PlaceOfCode(exts, runs, met, j);
      assert met[i].code != met[j].code;
      assert exts[a] in exts && exts[b] in exts;
      assert Chunk(exts[a], met[i].code) != Chunk(exts[b], met[j].code);
    }
  }

  /** The chunk offset of a block that the walk is right to change, and its place. */
  lemma RightChunk(fs: Fs, l: Listing, runs: seq<FreeExtent>, total: nat, bufBlocks: nat, k: nat)
      returns (x: Extent, c: nat)
    requires Turn(fs, l, runs, total, bufBlocks)
    requires k < |MetIn(fs, l.ino)| && Listed(TakenAll(l.exts, MetIn(fs, l.ino)), MetIn(fs, l.ino)[k].code)
    ensures var m := MetIn(fs, l.ino)[k];
      && x in l.exts && x.chunkOffset <= c < x.chunkOffset + x.len && m.block == x.block + (c - x.chunkOffset)
      && NewPlace(TakenAll(l.exts, MetIn(fs, l.ino)), runs, m.code) == Target(runs, c)
      && 0 < Target(runs, c) < |fs.disk| && !Referenced(fs, Target(runs, c)) && NoPlace(runs, total, m.block)
  {
    hide Target, Ptr, MetIn, NewPlace, Ascending, Referenced, WellFormed, NoSharing, Listed, TakenAll, ActAt, NoPlace;
    var met := MetIn(fs, l.ino);
    TakenListed(l.exts, met, runs, k);
    x := l.exts[ActAt(l.exts, met, k + 1)];
    c := Chunk(x, met[k].code);
    assert x in l.exts && met[k] in met;
    ChunksOfIs(l.exts, c);
    assert UsesChunk(l.exts, c);
  }

  lemma CopyIsReady(fs: Fs, d: seq<Block>, l: Listing, runs: seq<FreeExtent>, total: nat, bufBlocks: nat, k: nat)
    requires Turn(fs, l, runs, total, bufBlocks) && ListCopied(fs.disk, d, runs, total, l.exts)
    requires SameUsedBlocks(fs, fs.(disk := d))
    requires forall b :: Referenced(fs.(disk := d), b) <==> Referenced(fs, b)
    requires k < |MetIn(fs, l.ino)| && Listed(TakenAll(l.exts, MetIn(fs, l.ino)), MetIn(fs, l.ino)[k].code)
    requires Referenced(fs, MetIn(fs, l.ino)[k].block) && 0 < MetIn(fs, l.ino)[k].block < |fs.disk|
    ensures var m := MetIn(fs, l.ino)[k];
      ReadyCopy(fs.(disk := d), m.block, NewPlace(TakenAll(l.exts, MetIn(fs, l.ino)), runs, m.code))
  {
    hide Target, MetIn, NewPlace, Referenced, WellFormed, Listed, TakenAll, NoPlace, Turn, PlaceOf;
    var m := MetIn(fs, l.ino)[k];
    var x, c := RightChunk(fs, l, runs, total, bufBlocks, k);
    assert KeptCopied(fs.disk, d, runs, total, x);
    assert d[Target(runs, c)] == fs.disk[m.block];
  }

  // ----- One inode after the other

  /** The first `n` inodes have been done, as far as their lists agree with them, and the places of the others wait. */
  ghost predicate Going(fs0: Fs, fs: Fs, plan: seq<Listing>, runs: seq<FreeExtent>, n: nat)
    requires n <= |plan|
  {
    && Progress(fs0, fs, TakenPlan(fs0, plan), runs, n)
    && forall j | n <= j < |plan| :: PlacesWait(fs, plan[j], runs)
  }

  /** The blocks that a plan takes are a plan that fits the files. */
  lemma TakenPlanGood(fs: Fs, plan: seq<Listing>, runs: seq<FreeExtent>, total: nat, bufBlocks: nat)
    requires PlanUsable(fs, plan, runs, total, bufBlocks) && bufBlocks > 0
    ensures PlanGood(fs, TakenPlan(fs, plan), runs, total, bufBlocks)
  {
    hide MetIn, Ascending, ListingGood, ListingUsable, ChunksShared, PlacesUnused, NoSharing, WellFormed, TakenListing;
    var t := TakenPlan(fs, plan);
    forall l | l in t ensures ListingGood(fs, l, total, bufBlocks) {
      var k :| 0 <= k < |t| && t[k] == l;
      assert plan[k] in plan;
      TakenListingGood(fs, plan[k], total, bufBlocks);
    }
    forall i, j | 0 <= i < j < |t| ensures t[i].ino != t[j].ino && ChunksShared(t[i].exts, t[j].exts) == {} {
      TakenListingIs(fs, plan[i]);
      TakenListingIs(fs, plan[j]);
      SharedLess(fs, plan[i], plan[j]);
    }
  }

  lemma TakenListingGood(fs: Fs, l: Listing, total: nat, bufBlocks: nat)
    requires ListingUsable(fs, l, total, bufBlocks) && bufBlocks > 0
    ensures ListingGood(fs, TakenListing(fs, l), total, bufBlocks)
  {
    hide MetIn, Ascending, Mapped, Separated, ChunksApart, TakenAll, Taken;
    var met := MetIn(fs, l.ino);
    TakenListingIs(fs, l);
    TakenFit(l.exts, met, |met|);
    TakenUnfolds(l.exts, met);
    TakenApart(l.exts, met, total);
  }

  lemma SharedLess(fs: Fs, a: Listing, b: Listing)
    requires ChunksShared(a.exts, b.exts) == {}
    ensures ChunksShared(TakenListing(fs, a).exts, TakenListing(fs, b).exts) == {}
  {
    hide MetIn, ChunksOf, TakenAll;
    TakenListingIs(fs, a);
    TakenListingIs(fs, b);
    TakenChunks(a.exts, MetIn(fs, a.ino));
    TakenChunks(b.exts, MetIn(fs, b.ino));
  }

  lemma TakenListingIs(fs: Fs, l: Listing)
    ensures TakenListing(fs, l) == Listing(l.ino, TakenAll(l.exts, MetIn(fs, l.ino)))
  {}

  /** The turn of an inode finds it as it was at the start. */
  lemma TurnComes(fs0: Fs, fs: Fs, plan: seq<Listing>, runs: seq<FreeExtent>, total: nat, bufBlocks: nat, n: nat)
    requires PlanUsable(fs0, plan, runs, total, bufBlocks) && bufBlocks > 0
    requires n < |plan| && Going(fs0, fs, plan, runs, n) && plan[n].exts != []
    ensures Turn(fs, plan[n], runs, total, bufBlocks) && |fs.disk| == |fs0.disk|
    ensures Visited(fs, plan[n].ino) == Visited(fs0, plan[n].ino) && MetIn(fs, plan[n].ino) == MetIn(fs0, plan[n].ino)
    ensures TakenIn(fs, plan[n].ino, plan[n].exts) == TakenIn(fs0, plan[n].ino, plan[n].exts)
  {
    hide Ptr, Visited, MetOf, Target, Ascending, ChunksApart, PlacesWait, PlacesApart, Referenced, TakenAll,
      InodeDone, InodeUntouched, HolesKept, NoSharing, ChunksShared, WellFormed, NoPlace;
    var l := plan[n];
    assert l in plan;
    forall j | 0 <= j < n ensures TakenPlan(fs0, plan)[j].ino != l.ino {
      assert plan[j].ino != l.ino;
    }
    assert Unlisted(TakenPlan(fs0, plan), n, l.ino);
    SameWalk(fs0, fs, l.ino);
    forall m | m in MetIn(fs, l.ino) ensures NoPlace(runs, total, m.block) {
      MetNoPlace(fs0, l.ino, runs, total, m);
    }
  }

  lemma MetNoPlace(fs: Fs, ino: nat, runs: seq<FreeExtent>, total: nat, m: Met)
    requires WellFormed(fs) && fs.apb > 0 && ino in fs.inodes && m in MetIn(fs, ino) && PlacesUnused(fs, runs, total)
    ensures NoPlace(runs, total, m.block)
  {
    hide Target, Referenced, MetIn, PlacesApart;
    var k :| 0 <= k < |MetIn(fs, ino)| && MetIn(fs, ino)[k] == m;
    MetUsed(fs, ino, k);
  }

  lemma ExtentsNonEmpty(exts: seq<Extent>, x: Extent)
    requires Separated(exts) && x in exts
    ensures x.len > 0
  {}

  lemma CopyProgress(fs0: Fs, fs: Fs, fs1: Fs, plan: seq<Listing>, runs: seq<FreeExtent>, n: nat)
    requires fs0.apb > 0 && (forall l <- plan :: l.ino in fs0.inodes)
    requires n <= |plan| && Progress(fs0, fs, plan, runs, n) && SameUsedBlocks(fs, fs1)
    ensures Progress(fs0, fs1, plan, runs, n)
  {
    hide Ptr, Visited, MetIn, Target, Referenced, NoSharing, SameUsedBlocks, SameFiles;
    SameFilesMeans(fs0, fs);
    UnusedWritesKeep(fs, fs1);
    SameFilesTransitive(fs0, fs, fs1);
    SameDisk(fs, fs1);
    forall j | 0 <= j < n ensures InodeDone(fs0, fs1, plan[j], runs) {
      DoneStays(fs0, fs, fs1, plan[j], runs);
    }
  }

  lemma SameDisk(fs: Fs, fs1: Fs)
    requires SameUsedBlocks(fs, fs1)
    ensures |fs1.disk| == |fs.disk|
  {}

  lemma SameFilesMeans(fs: Fs, fs': Fs)
    requires SameFiles(fs, fs')
    ensures WellFormed(fs) && WellFormed(fs') && fs.apb == fs'.apb && fs.inodes.Keys == fs'.inodes.Keys
    ensures forall q :: ValidSlot(fs, q) <==> ValidSlot(fs', q)
  {}

  lemma DoneStays(fs0: Fs, fs: Fs, fs1: Fs, l: Listing, runs: seq<FreeExtent>)
    requires WellFormed(fs0) && InodeDone(fs0, fs, l, runs)
    requires forall q :: ValidSlot(fs0, q) && q.ino == l.ino ==> Ptr(fs1, q) == Ptr(fs, q)
    requires l.ino in fs0.inodes && fs0.apb > 0
    ensures InodeDone(fs0, fs1, l, runs)
  {
    hide Ptr, Visited, MetIn;
    VisitedIsVisit(fs0, l.ino);
    var v := Visited(fs0, l.ino);
    assert forall i | 0 <= i < |v| :: v[i] in v;
  }

  lemma WantElsewhere(met: seq<Met>, exts: seq<Extent>, runs: seq<FreeExtent>, total: nat, size: nat, i: nat, c: nat)
    requires Ascending(met) && Separated(exts) && Mapped(exts, met) && ChunksApart(exts, total) && PlacesApart(runs, total, size)
    requires i < |met| && met[i].block != Target(runs, c) && c < total && c !in ChunksOf(exts)
    ensures Want(exts, runs, met[i]) != Target(runs, c)
  {
    hide Target, NewPlace, Ascending, Separated, Mapped, Listed, ChunksOf;
    if Listed(exts, met[i].code) {
      var a := PlaceOfCode(exts, runs, met, i);
      var o: nat := Chunk(exts[a], met[i].code);
      assert exts[a] in exts;
      ChunksOfIs(exts, o);
      assert UsesChunk(exts, o);
    }
  }

  lemma PointsElsewhere(fs1: Fs, fs2: Fs, l: Listing, runs: seq<FreeExtent>, total: nat, c: nat, q: Slot)
    requires WellFormed(fs1) && fs1.apb > 0 && l.ino in fs1.inodes
    requires Remapped(fs1, fs2, l.ino, l.exts, runs)
    requires Ascending(MetIn(fs1, l.ino)) && Separated(l.exts) && Mapped(l.exts, MetIn(fs1, l.ino)) && ChunksApart(l.exts, total)
    requires PlacesApart(runs, total, |fs1.disk|) && c < total && c !in ChunksOf(l.exts)
    requires !Referenced(fs1, Target(runs, c)) && ValidSlot(fs2, q)
    ensures Ptr(fs2, q) != Target(runs, c)
  {
    hide Ptr, Visited, MetOf, Target, Want, Ascending, Separated, Mapped, NoSharing, Listed, Referenced, WellFormed,
      PlacesApart, ChunksApart, ChunksOf;
    var v, met := Visited(fs1, l.ino), MetIn(fs1, l.ino);
    assert ValidSlot(fs1, q);
    NotReferenced(fs1, q, Target(runs, c));
    if q in v {
      var i :| 0 <= i < |v| && v[i] == q;
      MetOfLength(fs1, v);
      MetBlock(fs1, v, i);
      WantElsewhere(met, l.exts, runs, total, |fs1.disk|, i, c);
    }
  }

  lemma NotShared(a: seq<Extent>, b: seq<Extent>, c: nat)
    requires ChunksShared(a, b) == {} && c in ChunksOf(b)
    ensures c !in ChunksOf(a)
  {
    hide ChunksOf;
    assert c in ChunksOf(a) ==> c in ChunksShared(a, b);
  }

  lemma MetBlock(fs: Fs, v: seq<Slot>, i: nat)
    requires i < |v|
    ensures |MetOf(fs, v)| == |v| && MetOf(fs, v)[i].block == Ptr(fs, v[i])
  {}

  /** What the rewriting of one inode did to the places other inodes wait for. */
  lemma PlacesStayUnused(fs1: Fs, fs2: Fs, l: Listing, other: Listing, runs: seq<FreeExtent>, total: nat)
    requires WellFormed(fs1) && fs1.apb > 0 && l.ino in fs1.inodes
    requires Remapped(fs1, fs2, l.ino, l.exts, runs)
    requires Ascending(MetIn(fs1, l.ino)) && Separated(l.exts) && Mapped(l.exts, MetIn(fs1, l.ino)) && ChunksApart(l.exts, total)
    requires PlacesApart(runs, total, |fs1.disk|) && ChunksApart(other.exts, total) && ChunksShared(l.exts, other.exts) == {}
    requires PlacesWait(fs1, other, runs)
    ensures PlacesWait(fs2, other, runs)
  {
    hide Ptr, Remapped, MetIn, Target, Ascending, Separated, Mapped, Referenced, WellFormed, PlacesApart,
      ChunksApart, ChunksOf, ValidSlot;
    forall c | c in ChunksOf(other.exts) ensures !Referenced(fs2, Target(runs, c)) {
      ChunkBelow(other.exts, total, c);
      NotShared(l.exts, other.exts, c);
      forall q | ValidSlot(fs2, q) ensures Ptr(fs2, q) != Target(runs, c) {
        PointsElsewhere(fs1, fs2, l, runs, total, c, q);
      }
      NotReferencedIf(fs2, Target(runs, c));
    }
  }

  lemma ChunkBelow(exts: seq<Extent>, total: nat, c: nat)
    requires ChunksApart(exts, total) && c in ChunksOf(exts)
    ensures c < total
  {
    ChunksOfIs(exts, c);
  }

  lemma NotReferenced(fs: Fs, q: Slot, b: nat)
    requires ValidSlot(fs, q) && !Referenced(fs, b)
    ensures Ptr(fs, q) != b
  {}

  lemma NotReferencedIf(fs: Fs, b: nat)
    requires forall q :: ValidSlot(fs, q) ==> Ptr(fs, q) != b
    ensures !Referenced(fs, b)
  {}

  /** One more inode is done. */
  lemma RewriteProgress(fs0: Fs, fs1: Fs, fs2: Fs, plan: seq<Listing>, runs: seq<FreeExtent>, total: nat,
                        bufBlocks: nat, n: nat)
    requires PlanGood(fs0, plan, runs, total, bufBlocks) && n < |plan| && Progress(fs0, fs1, plan, runs, n)
    requires Remapped(fs1, fs2, plan[n].ino, plan[n].exts, runs)
    requires Visited(fs1, plan[n].ino) == Visited(fs0, plan[n].ino) && MetIn(fs1, plan[n].ino) == MetIn(fs0, plan[n].ino)
    ensures Progress(fs0, fs2, plan, runs, n + 1)
  {
    hide Ptr, Visited, MetOf, Target, NewPlace, Ascending, Separated, Mapped, NoSharing, ReadyCopy, Listed,
      Referenced, WellFormed,
      SameFiles, PlacesApart, ChunksApart, ChunksShared, PlacesWait;
    var l := plan[n];
    var v := Visited(fs1, l.ino);
    assert l in plan;
    SameFilesMeans(fs0, fs1);
    SameFilesTransitive(fs0, fs1, fs2);
    VisitedIsVisit(fs1, l.ino);
    MetOfLength(fs1, v);
    forall j | 0 <= j < n + 1 ensures InodeDone(fs0, fs2, plan[j], runs) {
      if j < n {
        assert plan[j] in plan && plan[j].ino != l.ino;
        DoneStays(fs0, fs1, fs2, plan[j], runs);
      }
    }
    forall ino: nat | Unlisted(plan, n + 1, ino) ensures InodeUntouched(fs0, fs2, ino) {
      assert Unlisted(plan, n, ino) && plan[n].ino != ino;
    }
    forall j | n + 1 <= j < |plan| ensures PlacesWait(fs2, plan[j], runs) {
      assert plan[j] in plan;
      PlacesStayUnused(fs1, fs2, l, plan[j], runs, total);
    }
  }

  /** One more inode is done, as far as its list agrees with it. */
  lemma GoesOn(fs0: Fs, fs1: Fs, fs2: Fs, plan: seq<Listing>, runs: seq<FreeExtent>, total: nat, bufBlocks: nat, n: nat)
    requires PlanUsable(fs0, plan, runs, total, bufBlocks) && bufBlocks > 0
    requires n < |plan| && Going(fs0, fs1, plan, runs, n)
    requires Visited(fs1, plan[n].ino) == Visited(fs0, plan[n].ino) && MetIn(fs1, plan[n].ino) == MetIn(fs0, plan[n].ino)
    requires Remapped(fs1, fs2, plan[n].ino, TakenIn(fs0, plan[n].ino, plan[n].exts), runs)
    ensures Going(fs0, fs2, plan, runs, n + 1)
  {
    hide Ptr, Visited, MetOf, Target, Ascending, Separated, Mapped, NoSharing, Remapped, Progress, ListingUsable,
      Referenced, WellFormed, PlacesApart, ChunksApart, ChunksShared, PlacesWait, TakenAll;
    var t := TakenPlan(fs0, plan);
    TakenPlanGood(fs0, plan, runs, total, bufBlocks);
    RewriteProgress(fs0, fs1, fs2, t, runs, total, bufBlocks, n);
    assert t[n] in t;
    GoingBasics(fs0, fs1, plan, runs, n);
    forall j | n + 1 <= j < |plan| ensures PlacesWait(fs2, plan[j], runs) {
      assert plan[j] in plan;
      OthersApart(fs0, plan, runs, total, bufBlocks, n, j);
      PlacesStayUnused(fs1, fs2, t[n], plan[j], runs, total);
    }
  }

  lemma GoingBasics(fs0: Fs, fs: Fs, plan: seq<Listing>, runs: seq<FreeExtent>, n: nat)
    requires n <= |plan| && Going(fs0, fs, plan, runs, n)
    ensures WellFormed(fs) && fs.apb == fs0.apb && fs.inodes.Keys == fs0.inodes.Keys && |fs.disk| == |fs0.disk|
  {
    hide InodeDone, InodeUntouched, HolesKept, PlacesWait, NoSharing, WellFormed, Ptr;
    SameFilesMeans(fs0, fs);
  }

  /** The chunk offsets that one inode takes are not those of another one. */
  lemma OthersApart(fs: Fs, plan: seq<Listing>, runs: seq<FreeExtent>, total: nat, bufBlocks: nat, n: nat, j: nat)
    requires PlanUsable(fs, plan, runs, total, bufBlocks) && n < j < |plan|
    ensures ChunksApart(plan[j].exts, total) && PlacesApart(runs, total, |fs.disk|)
    ensures ChunksShared(TakenListing(fs, plan[n]).exts, plan[j].exts) == {}
  {
    hide MetIn, Ascending, ChunksOf, ChunksApart, PlacesApart, NoSharing, WellFormed, TakenAll, Referenced, Target;
    assert plan[j] in plan;
    TakenListingIs(fs, plan[n]);
    TakenChunks(plan[n].exts, MetIn(fs, plan[n].ino));
    assert ChunksShared(plan[n].exts, plan[j].exts) == {};
  }

  lemma GoingStart(fs: Fs, plan: seq<Listing>, runs: seq<FreeExtent>, total: nat, bufBlocks: nat)
    requires PlanUsable(fs, plan, runs, total, bufBlocks) && bufBlocks > 0
    ensures Going(fs, fs, plan, runs, 0)
  {
    hide Ptr, Target, Ascending, NoSharing, Referenced, WellFormed, PlacesApart, ChunksApart, ChunksOf, TakenListing;
    WaitAtStart(fs, plan, runs, total, bufBlocks);
    TakenPlanGood(fs, plan, runs, total, bufBlocks);
    var t := TakenPlan(fs, plan);
    forall j | 0 <= j < |t| ensures PlacesWait(fs, t[j], runs) {
      assert t[j] in t;
      forall c | c in ChunksOf(t[j].exts) ensures !Referenced(fs, Target(runs, c)) {
        ChunkBelow(t[j].exts, total, c);
      }
    }
    assert SameFiles(fs, fs);
  }

  lemma WaitAtStart(fs: Fs, plan: seq<Listing>, runs: seq<FreeExtent>, total: nat, bufBlocks: nat)
    requires PlanUsable(fs, plan, runs, total, bufBlocks)
    ensures forall j | 0 <= j < |plan| :: PlacesWait(fs, plan[j], runs)
  {
    hide Ptr, Target, Ascending, NoSharing, Referenced, WellFormed, PlacesApart, ChunksApart, ChunksOf;
    forall j | 0 <= j < |plan| ensures PlacesWait(fs, plan[j], runs) {
      assert plan[j] in plan;
      forall c | c in ChunksOf(plan[j].exts) ensures !Referenced(fs, Target(runs, c)) {
        ChunkBelow(plan[j].exts, total, c);
      }
    }
  }

  /** A copy keeps all that has been done. */
  lemma CopyGoing(fs0: Fs, fs: Fs, fs1: Fs, plan: seq<Listing>, runs: seq<FreeExtent>, n: nat)
    requires fs0.apb > 0 && (forall l <- plan :: l.ino in fs0.inodes)
    requires n <= |plan| && Going(fs0, fs, plan, runs, n) && SameUsedBlocks(fs, fs1)
    ensures Going(fs0, fs1, plan, runs, n)
  {
    hide Ptr, Visited, MetIn, Target, Referenced, NoSharing, SameUsedBlocks, SameFiles, Progress, TakenListing;
    forall l | l in TakenPlan(fs0, plan) ensures l.ino in fs0.inodes {
      var k :| 0 <= k < |plan| && TakenPlan(fs0, plan)[k] == l;
      assert plan[k] in plan;
      TakenListingIs(fs0, plan[k]);
    }
    GoingBasics(fs0, fs, plan, runs, n);
    CopyProgress(fs0, fs, fs1, TakenPlan(fs0, plan), runs, n);
    UnusedWritesKeep(fs, fs1);
  }

  /** A plan that fits the files agrees with them, and takes all that is listed. */
  lemma GoodIsUsable(fs: Fs, plan: seq<Listing>, runs: seq<FreeExtent>, total: nat, bufBlocks: nat)
    requires PlanGood(fs, plan, runs, total, bufBlocks)
    ensures PlanUsable(fs, plan, runs, total, bufBlocks) && forall l <- plan :: ListingAgrees(fs, l)
  {
    hide MetIn, Ascending, Mapped, Separated, ChunksApart, ChunksShared, PlacesUnused, NoSharing, WellFormed, WrongAt;
    forall l | l in plan ensures ListingUsable(fs, l, total, bufBlocks) && ListingAgrees(fs, l) {
      assert ListingGood(fs, l, total, bufBlocks);
      forall k | 0 <= k < |MetIn(fs, l.ino)| ensures !WrongAt(l.exts, MetIn(fs, l.ino), k) {
        FittingTaken(l.exts, MetIn(fs, l.ino), [], k);
      }
      AgreesIf(fs, l);
      forall x | x in l.exts ensures 0 < x.len && x.block + x.len <= |fs.disk| {
        ExtentsNonEmpty(l.exts, x);
        SourceUsed(fs, l.ino, l.exts, x, x.len - 1);
      }
    }
  }

  lemma AgreesIf(fs: Fs, l: Listing)
    requires NoneWrong(l.exts, MetIn(fs, l.ino))
    ensures Agrees(fs, l.ino, l.exts)
  {
    hide NoneWrong, MetOf, Visited;
  }

  lemma GoingIsProgress(fs0: Fs, fs: Fs, plan: seq<Listing>, runs: seq<FreeExtent>, total: nat, bufBlocks: nat)
    requires PlanGood(fs0, plan, runs, total, bufBlocks) && Going(fs0, fs, plan, runs, |plan|)
    ensures Progress(fs0, fs, plan, runs, |plan|)
  {
    hide Ptr, Visited, MetOf, Target, Ascending, Mapped, Separated, ChunksApart, ChunksShared, PlacesUnused, NoSharing,
      WellFormed, TakenAll, SameFiles, HolesKept, InodeUntouched, NewPlace, Listed, PlacesWait;
    var t := TakenPlan(fs0, plan);
    forall j | 0 <= j < |plan| ensures InodeDone(fs0, fs, plan[j], runs) {
      assert plan[j] in plan && InodeDone(fs0, fs, t[j], runs);
      TakenListingIs(fs0, plan[j]);
      var met := MetIn(fs0, plan[j].ino);
      forall i | 0 <= i < |met| ensures Want(t[j].exts, runs, met[i]) == Want(plan[j].exts, runs, met[i]) {
        FittingTaken(plan[j].exts, met, runs, i);
      }
    }
    forall ino: nat | Unlisted(plan, |plan|, ino) ensures InodeUntouched(fs0, fs, ino) {
      assert forall j | 0 <= j < |t| :: t[j].ino == plan[j].ino;
      assert Unlisted(t, |t|, ino);
    }
  }

  // ----- The program

  /** One inode: its blocks are copied, then its pointers rewritten. */
  method RemapOne(vol: Volume, l: Listing, runs: seq<FreeExtent>, total: nat, bufBlocks: nat, ghost fs0: Fs,
                  ghost plan: seq<Listing>, ghost n: nat)
    returns (ok: bool)
    requires OffsetsTile(runs, 0, total) && bufBlocks > 0 && l.exts != []
    requires n < |plan| && l == plan[n]
    modifies vol`disk, vol`inodes
    ensures PlanUsable(fs0, plan, runs, total, bufBlocks) && Going(fs0, old(vol.Files()), plan, runs, n) ==>
      && (ok <==> ListingAgrees(fs0, l))
      && (ok ==> Going(fs0, vol.Files(), plan, runs, n + 1))
  {
    hide PlanUsable, Going, OffsetsTile, Turn, SameUsedBlocks, Steady, Remapped, Visited, MetIn, Fits, CopiedList, TakenIn,
      Copyable, NoneWrong;
    ghost var fs := vol.Files();
    ghost var good := PlanUsable(fs0, plan, runs, total, bufBlocks) && Going(fs0, fs, plan, runs, n);
    if good {
      TurnComes(fs0, fs, plan, runs, total, bufBlocks, n);
      TurnFits(fs, l, runs, total, bufBlocks);
      PlanInodes(fs0, plan, runs, total, bufBlocks);
    }
    ok := CopyInodeBlocks(vol, runs, total, l.exts, bufBlocks);
    if !ok {
      return;
    }
    ghost var fs1 := vol.Files();
    if good {
      assert fs1 == fs.(disk := CopiedList(fs.disk, runs, l.exts, bufBlocks));
      CopyMakesReady(fs, l, runs, total, bufBlocks);
      CopyGoing(fs0, fs, fs1, plan, runs, n);
      SameAgrees(fs0, fs1, l);
    }
    ok := RemapInodeBlocks(vol, l.ino, l.exts, runs, total);
    if good && ok {
      GoesOn(fs0, fs1, vol.Files(), plan, runs, total, bufBlocks, n);
    }
  }

  lemma SameAgrees(fs: Fs, fs': Fs, l: Listing)
    requires MetIn(fs', l.ino) == MetIn(fs, l.ino)
    ensures Agrees(fs', l.ino, l.exts) <==> Agrees(fs, l.ino, l.exts)
  {
    hide NoneWrong, Visited, MetOf;
  }

  lemma PlanInodes(fs: Fs, plan: seq<Listing>, runs: seq<FreeExtent>, total: nat, bufBlocks: nat)
    requires PlanUsable(fs, plan, runs, total, bufBlocks)
    ensures fs.apb > 0 && forall l <- plan :: l.ino in fs.inodes
  {}

  /**
    Copies and remaps the extents of all inodes. Whatever the lists are, this keeps all files; it fails exactly if a list
    names another block than the walk looks up, or one that is not on the device.
   */
  method CopyAndRemapExtents(vol: Volume, plan: seq<Listing>, runs: seq<FreeExtent>, total: nat,
                             bufBlocks: nat) returns (ok: bool)
    requires (plan == [] || OffsetsTile(runs, 0, total)) && bufBlocks > 0 && forall l <- plan :: l.exts != []
    modifies vol`disk, vol`inodes
    ensures PlanUsable(old(vol.Files()), plan, runs, total, bufBlocks) ==>
      && (ok <==> forall l <- plan :: ListingAgrees(old(vol.Files()), l))
      && (ok ==> Progress(old(vol.Files()), vol.Files(), TakenPlan(old(vol.Files()), plan), runs, |plan|))
    ensures PlanGood(old(vol.Files()), plan, runs, total, bufBlocks) ==>
      ok && Progress(old(vol.Files()), vol.Files(), plan, runs, |plan|)
    ensures plan == [] ==> ok && vol.Files() == old(vol.Files())
  {
    hide PlanGood, PlanUsable, Going, Progress, OffsetsTile, ListingAgrees;
    ghost var fs0 := vol.Files();
    ghost var good := PlanUsable(fs0, plan, runs, total, bufBlocks);
    if PlanGood(fs0, plan, runs, total, bufBlocks) {
      GoodIsUsable(fs0, plan, runs, total, bufBlocks);
    }
    if good {
      GoingStart(fs0, plan, runs, total, bufBlocks);
      PlanInodes(fs0, plan, runs, total, bufBlocks);
    }
    var i := 0;
    while i < |plan|
      invariant i <= |plan|
      invariant i == 0 ==> vol.Files() == fs0
      invariant good ==> Going(fs0, vol.Files(), plan, runs, i) && forall j | 0 <= j < i :: ListingAgrees(fs0, plan[j])
    {
      if plan[i].ino !in vol.inodes {
        if good {
          GoingBasics(fs0, vol.Files(), plan, runs, i);
        }
        return false;
      }
      var done := RemapOne(vol, plan[i], runs, total, bufBlocks, fs0, plan, i);
      if !done {
        return false;
      }
      i := i + 1;
    }
    ok := true;
    if good {
      GoingMeans(fs0, vol.Files(), plan, runs);
    }
    if PlanGood(fs0, plan, runs, total, bufBlocks) {
      GoingIsProgress(fs0, vol.Files(), plan, runs, total, bufBlocks);
    }
  }

  lemma GoingMeans(fs0: Fs, fs: Fs, plan: seq<Listing>, runs: seq<FreeExtent>)
    requires Going(fs0, fs, plan, runs, |plan|)
    ensures Progress(fs0, fs, TakenPlan(fs0, plan), runs, |plan|)
  {}
}
