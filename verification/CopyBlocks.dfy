/**
  Copying the blocks of an extent to their new places, a buffer at a time. The program derives the place of a block
  from its position in the buffer, not from its position in the extent, so every buffer of an extent goes to the
  places of the first one.
 */
module CopyBlocks {
  import opened Arithmetic
  import opened Ext2
  import opened FreeRuns
  import opened RemapBlocks
  import opened RemapInode

  // ----- What the copy does

  /** The disk after `src` has been written to the places of the chunk offsets from `o` on. */
  ghost function Written(disk: seq<Block>, runs: seq<FreeExtent>, o: nat, src: seq<Block>): (r: seq<Block>)
    ensures |r| == |disk|
  {
    if src == [] then disk
    else
      var n := |src| - 1;
      var d := Written(disk, runs, o, src[..n]);
      if Target(runs, o + n) < |d| then d[Target(runs, o + n) := src[n]] else d
  }

  /** The disk after the buffers of `x` from position `pos` on have been copied. */
  ghost function Copied(disk: seq<Block>, runs: seq<FreeExtent>, x: Extent, bufBlocks: nat, pos: nat): (r: seq<Block>)
    requires bufBlocks > 0 && x.block + x.len <= |disk|
    ensures |r| == |disk|
    decreases x.len - pos
  {
    if pos >= x.len then disk
    else
      var n := Min(x.len - pos, bufBlocks);
      Copied(Written(disk, runs, x.chunkOffset, disk[x.block + pos..x.block + pos + n]), runs, x, bufBlocks, pos + n)
  }

  ghost predicate TargetsFit(runs: seq<FreeExtent>, total: nat, o: nat, n: nat, size: nat) {
    o + n <= total && forall c: nat | o <= c < o + n :: Target(runs, c) < size
  }

  /** All reads and writes of the copy stay on the device. */
  ghost predicate Fits(runs: seq<FreeExtent>, total: nat, x: Extent, bufBlocks: nat, size: nat) {
    x.len > 0 ==> x.block + x.len <= size && TargetsFit(runs, total, x.chunkOffset, Min(x.len, bufBlocks), size)
  }

  // ----- The program

  /** Replaces `|data|` blocks from `start` on. */
  function Spliced(disk: seq<Block>, start: nat, data: seq<Block>): (r: seq<Block>)
    requires start + |data| <= |disk|
    ensures |r| == |disk|
  {
    disk[..start] + data + disk[start + |data|..]
  }

  /** The places of consecutive chunk offsets in one run are consecutive. */
  lemma RunTargets(runs: seq<FreeExtent>, total: nat, r: FreeExtent, o: nat, n: nat)
    requires OffsetsTile(runs, 0, total) && r in runs && r.offset <= o && o + n <= r.offset + r.len
    ensures forall c: nat | o <= c < o + n :: Target(runs, c) == r.block + (o - r.offset) + (c - o)
    ensures n > 0 ==> o + n <= total
  {
    var k :| 0 <= k < |runs| && runs[k] == r;
    TileBounds(runs, 0, total, k);
    forall c: nat | o <= c < o + n ensures Target(runs, c) == r.block + (o - r.offset) + (c - o) {
      TargetAt(runs, 0, total, c, k);
    }
  }

  lemma {:induction false} WrittenRun(disk: seq<Block>, runs: seq<FreeExtent>, o: nat, src: seq<Block>, w: nat,
                                      n: nat, t: nat)
    requires w + n <= |src| && t + n <= |disk|
    requires forall c: nat | o + w <= c < o + w + n :: Target(runs, c) == t + (c - (o + w))
    ensures Written(disk, runs, o, src[..w + n]) == Spliced(Written(disk, runs, o, src[..w]), t, src[w..w + n])
  {
    if n > 0 {
      WrittenRun(disk, runs, o, src, w, n - 1, t);
      assert src[..w + n][..w + n - 1] == src[..w + (n - 1)];
      assert Target(runs, o + (w + n - 1)) == t + (n - 1);
      var d := Written(disk, runs, o, src[..w]);
      SplicedMore(d, t, src[w..w + n]);
      assert src[w..w + n][..n - 1] == src[w..w + (n - 1)];
    } else {
      assert src[w..w] == [];
    }
  }

  lemma SplicedMore(disk: seq<Block>, t: nat, data: seq<Block>)
    requires data != [] && t + |data| <= |disk|
    ensures Spliced(disk, t, data) == Spliced(disk, t, data[..|data| - 1])[t + |data| - 1 := data[|data| - 1]]
  {}

  /** Writes one buffer to the free runs. */
  method WriteBuffer(vol: Volume, runs: seq<FreeExtent>, total: nat, x: Extent, buf: seq<Block>) returns (ok: bool)
    requires OffsetsTile(runs, 0, total)
    modifies vol`disk
    ensures |vol.disk| == |old(vol.disk)|
    ensures ok <==> buf == [] || TargetsFit(runs, total, x.chunkOffset, |buf|, |vol.disk|)
    ensures ok ==> vol.disk == Written(old(vol.disk), runs, x.chunkOffset, buf)
  {
    hide Target, OffsetsTile, Written, Holds;
    var writepos: nat := 0;
    ghost var disk0 := vol.disk;
    assert buf[..0] == [];
    NothingWritten(disk0, runs, x.chunkOffset);
    while writepos < |buf|
      invariant writepos <= |buf| && |vol.disk| == |disk0|
      invariant vol.disk == Written(disk0, runs, x.chunkOffset, buf[..writepos])
      invariant writepos > 0 ==> TargetsFit(runs, total, x.chunkOffset, writepos, |disk0|)
    {
      var o := x.chunkOffset + writepos;
      var found := FindRemappedOffset(runs, total, o);
      if found.None? {
        FitAt(runs, total, x.chunkOffset, |buf|, |vol.disk|, o);
        return false;
      }
      var freeext := found.value;
      RunHolds(freeext, o);
      var writelen := Min(freeext.len - (o - freeext.offset), |buf| - writepos);
      RunTargets(runs, total, freeext, o, writelen);
      var t := freeext.block + (o - freeext.offset);
      if t + writelen > |vol.disk| {
        FitAt(runs, total, x.chunkOffset, |buf|, |vol.disk|, o + writelen - 1);
        return false;
      }
      WrittenRun(disk0, runs, x.chunkOffset, buf, writepos, writelen, t);
      vol.disk := Spliced(vol.disk, t, buf[writepos..writepos + writelen]);
      FitMore(runs, total, x.chunkOffset, writepos, writelen, |disk0|, t);
      writepos := writepos + writelen;
    }
    assert buf[..writepos] == buf;
    ok := true;
  }

  lemma NothingWritten(disk: seq<Block>, runs: seq<FreeExtent>, o: nat)
    ensures Written(disk, runs, o, []) == disk
  {}

  lemma RunHolds(r: FreeExtent, o: nat)
    ensures Holds(r, o) <==> r.offset <= o < r.offset + r.len
  {}

  lemma FitMore(runs: seq<FreeExtent>, total: nat, o: nat, w: nat, n: nat, size: nat, t: nat)
    requires w > 0 ==> TargetsFit(runs, total, o, w, size)
    requires o + w + n <= total && t + n <= size
    requires forall c: nat | o + w <= c < o + w + n :: Target(runs, c) == t + (c - (o + w))
    ensures TargetsFit(runs, total, o, w + n, size)
  {
    hide Target;
  }

  lemma FitAt(runs: seq<FreeExtent>, total: nat, o: nat, n: nat, size: nat, c: nat)
    requires o <= c < o + n
    ensures TargetsFit(runs, total, o, n, size) ==> c < total && Target(runs, c) < size
  {}

  /** Copies the blocks of one extent. */
  method CopyExtent(vol: Volume, runs: seq<FreeExtent>, total: nat, x: Extent, bufBlocks: nat) returns (ok: bool)
    requires OffsetsTile(runs, 0, total) && bufBlocks > 0
    modifies vol`disk
    ensures |vol.disk| == |old(vol.disk)|
    ensures ok <==> Fits(runs, total, x, bufBlocks, |vol.disk|)
    ensures ok && x.len > 0 ==> vol.disk == Copied(old(vol.disk), runs, x, bufBlocks, 0)
    ensures x.len == 0 ==> vol.disk == old(vol.disk)
  {
    hide Target, OffsetsTile, Written, Copied, TargetsFit;
    var curpos: nat := 0;
    ghost var disk0 := vol.disk;
    while curpos < x.len
      invariant curpos <= x.len && |vol.disk| == |disk0|
      invariant curpos > 0 ==> TargetsFit(runs, total, x.chunkOffset, Min(x.len, bufBlocks), |disk0|)
      invariant curpos > 0 ==> x.block + curpos <= |disk0|
      invariant curpos == 0 ==> vol.disk == disk0
      invariant x.block + x.len <= |disk0| ==>
        Copied(vol.disk, runs, x, bufBlocks, curpos) == Copied(disk0, runs, x, bufBlocks, 0)
    {
      var curlen := Min(x.len - curpos, bufBlocks);
      if x.block + curpos + curlen > |vol.disk| {
        return false;
      }
      var buf := vol.disk[x.block + curpos..x.block + curpos + curlen];
      ghost var before := vol.disk;
      var written := WriteBuffer(vol, runs, total, x, buf);
      if !written {
        FitLess(runs, total, x.chunkOffset, Min(x.len, bufBlocks), curlen, |disk0|);
        return false;
      }
      if x.block + x.len <= |disk0| {
        CopiedNext(before, runs, x, bufBlocks, curpos);
      }
      curpos := curpos + curlen;
    }
    if x.block + x.len <= |disk0| {
      CopiedAll(vol.disk, runs, x, bufBlocks, curpos);
    }
    ok := true;
  }

  lemma FitLess(runs: seq<FreeExtent>, total: nat, o: nat, n: nat, m: nat, size: nat)
    requires m <= n
    ensures TargetsFit(runs, total, o, n, size) ==> TargetsFit(runs, total, o, m, size)
  {}

  lemma CopiedNext(disk: seq<Block>, runs: seq<FreeExtent>, x: Extent, bufBlocks: nat, pos: nat)
    requires bufBlocks > 0 && x.block + x.len <= |disk| && pos < x.len
    ensures var n := Min(x.len - pos, bufBlocks);
      Copied(disk, runs, x, bufBlocks, pos) ==
        Copied(Written(disk, runs, x.chunkOffset, disk[x.block + pos..x.block + pos + n]), runs, x, bufBlocks, pos + n)
  {}

  lemma CopiedAll(disk: seq<Block>, runs: seq<FreeExtent>, x: Extent, bufBlocks: nat, pos: nat)
    requires bufBlocks > 0 && x.block + x.len <= |disk| && pos >= x.len
    ensures Copied(disk, runs, x, bufBlocks, pos) == disk
  {}

  /** Copies the blocks of all extents of an inode. */
  method CopyInodeBlocks(vol: Volume, runs: seq<FreeExtent>, total: nat, exts: seq<Extent>,
                         bufBlocks: nat) returns (ok: bool)
    requires OffsetsTile(runs, 0, total) && bufBlocks > 0
    modifies vol`disk
    ensures |vol.disk| == |old(vol.disk)|
    ensures ok <==> forall x <- exts :: Fits(runs, total, x, bufBlocks, |vol.disk|)
    ensures ok ==> vol.disk == CopiedList(old(vol.disk), runs, exts, bufBlocks)
  {
    hide OffsetsTile, Fits, Copied;
    ghost var disk0 := vol.disk;
    var k := 0;
    assert exts[..0] == [];
    while k < |exts|
      invariant k <= |exts| && |vol.disk| == |disk0|
      invariant forall x <- exts[..k] :: Fits(runs, total, x, bufBlocks, |disk0|)
      invariant vol.disk == CopiedList(disk0, runs, exts[..k], bufBlocks)
    {
      var copied := CopyExtent(vol, runs, total, exts[k], bufBlocks);
      if !copied {
        assert exts[k] in exts;
        return false;
      }
      FitsSource(runs, total, exts[k], bufBlocks, |disk0|);
      assert exts[..k + 1][..k] == exts[..k];
      k := k + 1;
    }
    assert exts[..k] == exts;
    ok := true;
  }

  lemma FitsSource(runs: seq<FreeExtent>, total: nat, x: Extent, bufBlocks: nat, size: nat)
    requires Fits(runs, total, x, bufBlocks, size)
    ensures x.len > 0 ==> x.block + x.len <= size
  {}

  /** The disk after the extents have been copied one after the other. */
  ghost function CopiedList(disk: seq<Block>, runs: seq<FreeExtent>, exts: seq<Extent>, bufBlocks: nat): (r: seq<Block>)
    requires bufBlocks > 0
    ensures |r| == |disk|
  {
    if exts == [] then disk
    else
      var n := |exts| - 1;
      var d := CopiedList(disk, runs, exts[..n], bufBlocks);
      if exts[n].len > 0 && exts[n].block + exts[n].len <= |d| then Copied(d, runs, exts[n], bufBlocks, 0) else d
  }

  // ----- What that means

  /** The places of the chunk offsets are different blocks of the device. */
  ghost predicate PlacesApart(runs: seq<FreeExtent>, total: nat, size: nat) {
    && (forall c: nat | c < total :: 0 < Target(runs, c) < size)
    && forall c: nat, d: nat | c < d < total :: Target(runs, c) != Target(runs, d)
  }

  /** No block of the extent is the place of a chunk offset. */
  ghost predicate SourceKept(runs: seq<FreeExtent>, total: nat, x: Extent) {
    forall c: nat | c < total :: !(x.block <= Target(runs, c) < x.block + x.len)
  }

  /** Block `b` is a place for the chunk offsets `o` to `o + n`. */
  ghost predicate PlaceOf(runs: seq<FreeExtent>, o: nat, n: nat, b: nat) {
    exists c: nat :: o <= c < o + n && Target(runs, c) == b
  }

  lemma {:induction false} WrittenAt(disk: seq<Block>, runs: seq<FreeExtent>, total: nat, o: nat, src: seq<Block>)
    requires PlacesApart(runs, total, |disk|) && o + |src| <= total
    ensures forall c: nat | o <= c < o + |src| :: Written(disk, runs, o, src)[Target(runs, c)] == src[c - o]
    ensures forall b | 0 <= b < |disk| && !PlaceOf(runs, o, |src|, b) :: Written(disk, runs, o, src)[b] == disk[b]
  {
    hide Target;
    if src != [] {
      var n := |src| - 1;
      WrittenAt(disk, runs, total, o, src[..n]);
      forall b | 0 <= b < |disk| && !PlaceOf(runs, o, |src|, b) ensures Written(disk, runs, o, src)[b] == disk[b] {
        assert Target(runs, o + n) != b;
        assert !PlaceOf(runs, o, n, b);
      }
    }
  }

  /**
    The position whose block ends up in the place of position `w` of an extent of length `len`: that of the last buffer
    that reaches so far.
   */
  function LastFrom(len: nat, bufBlocks: nat, w: nat): (p: nat)
    requires bufBlocks > 0 && w < len
    ensures p < len <= p + bufBlocks
    decreases len
  {
    if len <= w + bufBlocks then w else bufBlocks + LastFrom(len - bufBlocks, bufBlocks, w)
  }

  /** What copying an extent does to the disk: the places of the first buffer are filled again with each buffer. */
  lemma {:induction false} CopiedAt(disk: seq<Block>, runs: seq<FreeExtent>, total: nat, x: Extent, bufBlocks: nat,
                                    pos: nat)
    requires bufBlocks > 0 && x.block + x.len <= |disk| && pos < x.len
    requires PlacesApart(runs, total, |disk|) && SourceKept(runs, total, x)
    requires x.chunkOffset + Min(x.len - pos, bufBlocks) <= total
    ensures forall w: nat | w < Min(x.len - pos, bufBlocks) :: FilledFrom(disk, Copied(disk, runs, x, bufBlocks, pos), runs, x, bufBlocks, pos, w)
    ensures forall b | 0 <= b < |disk| && !PlaceOf(runs, x.chunkOffset, Min(x.len - pos, bufBlocks), b) ::
      Copied(disk, runs, x, bufBlocks, pos)[b] == disk[b]
    decreases x.len - pos
  {
    hide Target, Written, Copied, PlacesApart, SourceKept, PlaceOf, FilledFrom;
    var n := Min(x.len - pos, bufBlocks);
    var src := disk[x.block + pos..x.block + pos + n];
    var d := Written(disk, runs, x.chunkOffset, src);
    WrittenAt(disk, runs, total, x.chunkOffset, src);
    CopiedNext(disk, runs, x, bufBlocks, pos);
    if pos + n < x.len {
      CopiedAt(d, runs, total, x, bufBlocks, pos + n);
    } else {
      CopiedAll(d, runs, x, bufBlocks, pos + n);
    }
    SourceUnwritten(disk, d, runs, total, x, n);
    var d' := Copied(d, runs, x, bufBlocks, pos + n);
    forall w: nat | w < n ensures FilledFrom(disk, d', runs, x, bufBlocks, pos, w) {
      FilledNext(disk, d, d', runs, total, x, bufBlocks, pos, n, w);
    }
    forall b | 0 <= b < |disk| && !PlaceOf(runs, x.chunkOffset, n, b) ensures d'[b] == disk[b] {
      if pos + n < x.len {
        PlaceLess(runs, x.chunkOffset, Min(x.len - (pos + n), bufBlocks), n, b);
      }
    }
  }

  lemma FilledNext(disk: seq<Block>, d: seq<Block>, d': seq<Block>, runs: seq<FreeExtent>, total: nat, x: Extent,
                   bufBlocks: nat,
                   pos: nat, n: nat, w: nat)
    requires |d| == |disk| == |d'| && bufBlocks > 0 && x.block + x.len <= |disk| && pos < x.len
    requires n == Min(x.len - pos, bufBlocks) && w < n && x.chunkOffset + n <= total && PlacesApart(runs, total, |disk|)
    requires d[Target(runs, x.chunkOffset + w)] == disk[x.block + pos + w]
    requires forall b: nat | x.block <= b < x.block + x.len :: d[b] == disk[b]
    requires pos + n == x.len ==> d' == d
    requires pos + n < x.len ==>
      var m := Min(x.len - (pos + n), bufBlocks);
      && (w < m ==> FilledFrom(d, d', runs, x, bufBlocks, pos + n, w))
      && forall b | 0 <= b < |d| && !PlaceOf(runs, x.chunkOffset, m, b) :: d'[b] == d[b]
    ensures FilledFrom(disk, d', runs, x, bufBlocks, pos, w)
  {
    hide Target, PlaceOf;
    assert Target(runs, x.chunkOffset + w) < |disk|;
    if pos + n < x.len && w >= Min(x.len - (pos + n), bufBlocks) {
      OtherPlace(runs, total, x, Min(x.len - (pos + n), bufBlocks), w, |disk|);
    }
  }

  ghost predicate FilledFrom(disk: seq<Block>, d: seq<Block>, runs: seq<FreeExtent>, x: Extent, bufBlocks: nat,
                             pos: nat, w: nat)
    requires bufBlocks > 0 && pos + w < x.len && x.block + x.len <= |disk|
  {
    Target(runs, x.chunkOffset + w) < |d| &&
    d[Target(runs, x.chunkOffset + w)] == disk[x.block + pos + LastFrom(x.len - pos, bufBlocks, w)]
  }

  lemma SourceUnwritten(disk: seq<Block>, d: seq<Block>, runs: seq<FreeExtent>, total: nat, x: Extent, n: nat)
    requires |d| == |disk| && SourceKept(runs, total, x) && x.chunkOffset + n <= total && x.block + x.len <= |disk|
    requires forall b | 0 <= b < |disk| && !PlaceOf(runs, x.chunkOffset, n, b) :: d[b] == disk[b]
    ensures forall b: nat | x.block <= b < x.block + x.len :: d[b] == disk[b]
  {
    hide Target;
  }

  lemma OtherPlace(runs: seq<FreeExtent>, total: nat, x: Extent, n: nat, w: nat, size: nat)
    requires PlacesApart(runs, total, size) && x.chunkOffset + w < total && n <= w
    ensures !PlaceOf(runs, x.chunkOffset, n, Target(runs, x.chunkOffset + w))
  {
    hide Target;
  }

  lemma PlaceLess(runs: seq<FreeExtent>, o: nat, n: nat, m: nat, b: nat)
    requires n <= m
    ensures PlaceOf(runs, o, n, b) ==> PlaceOf(runs, o, m, b)
  {}

  /** Every block of the extent has been copied to its place. */
  ghost predicate ExtentCopied(disk: seq<Block>, d: seq<Block>, runs: seq<FreeExtent>, x: Extent)
    requires x.block + x.len <= |disk|
  {
    forall c: nat | x.chunkOffset <= c < x.chunkOffset + x.len ::
      Target(runs, c) < |d| && d[Target(runs, c)] == disk[x.block + (c - x.chunkOffset)]
  }

  lemma OneBuffer(disk: seq<Block>, runs: seq<FreeExtent>, x: Extent, bufBlocks: nat)
    requires 0 < x.len <= bufBlocks && x.block + x.len <= |disk|
    ensures Copied(disk, runs, x, bufBlocks, 0) == Written(disk, runs, x.chunkOffset, disk[x.block..x.block + x.len])
  {
    hide Written;
    assert disk[x.block + 0..x.block + 0 + x.len] == disk[x.block..x.block + x.len];
  }

  /** An extent that fits into the buffer is read before it is written. */
  lemma ShortCopied(disk: seq<Block>, runs: seq<FreeExtent>, total: nat, x: Extent, bufBlocks: nat)
    requires 0 < x.len <= bufBlocks && x.block + x.len <= |disk| && x.chunkOffset + x.len <= total
    requires PlacesApart(runs, total, |disk|)
    ensures ExtentCopied(disk, Copied(disk, runs, x, bufBlocks, 0), runs, x)
    ensures forall b | 0 <= b < |disk| && !PlaceOf(runs, x.chunkOffset, x.len, b) :: Copied(disk, runs, x, bufBlocks, 0)[b] == disk[b]
  {
    hide Target, Copied, Written, PlaceOf;
    var src := disk[x.block..x.block + x.len];
    OneBuffer(disk, runs, x, bufBlocks);
    WrittenAt(disk, runs, total, x.chunkOffset, src);
  }

  /** An extent is copied right, whatever the disk holds, if and only if it fits into the buffer. */
  lemma CopiesRightIff(runs: seq<FreeExtent>, total: nat, x: Extent, bufBlocks: nat, size: nat)
    requires bufBlocks > 0 && x.len > 0 && x.block + x.len <= size && x.chunkOffset + x.len <= total
    requires PlacesApart(runs, total, size) && SourceKept(runs, total, x)
    ensures x.len <= bufBlocks <==>
      forall disk: seq<Block> | |disk| == size :: ExtentCopied(disk, Copied(disk, runs, x, bufBlocks, 0), runs, x)
  {
    hide Target, Copied;
    if x.len <= bufBlocks {
      forall disk: seq<Block> | |disk| == size ensures ExtentCopied(disk, Copied(disk, runs, x, bufBlocks, 0), runs, x) {
        ShortCopied(disk, runs, total, x, bufBlocks);
      }
    } else {
      var t := Target(runs, x.chunkOffset + bufBlocks);
      var disk: seq<Block> := seq(size, i => if i == t then [1] else [0]);
      CopiedAt(disk, runs, total, x, bufBlocks, 0);
      OtherPlace(runs, total, x, bufBlocks, bufBlocks, size);
      assert !ExtentCopied(disk, Copied(disk, runs, x, bufBlocks, 0), runs, x);
    }
  }
}
