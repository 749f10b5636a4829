/**
  From the blocks of the files to the list of extents: e2block2file walks over all files, and what it prints is what
  e2remapblocks needs.
 */
module StoreBlocks {
  import opened Ext2
  import opened BlockTree
  import opened Traverse
  import opened RemapBlocks
  import opened RemapInode
  import opened Remap
  import opened RemapPlan
  import opened RemapProgram
  import opened LoadExtents
  import opened Intervals
  import opened Sorting
  import BF = BlockToFile

  /** Of the first `k` blocks met in inode `ino`, one is `b` and has the code `o`. */
  ghost predicate MetUpto(fs: Fs, ino: nat, k: nat, b: nat, o: int) {
    exists j :: 0 <= j < k && j < |MetIn(fs, ino)| && MetIn(fs, ino)[j] == Met(o, b)
  }

  /** The map holds the traced blocks of the inodes in `inos`, and of the first `k` blocks of `now`. */
  ghost predicate StoredUpto(fs: Fs, traced: seq<Interval>, inos: seq<nat>, now: nat, k: nat, s: seq<BF.Entry>) {
    forall b: nat, i: nat, o: int ::
      BF.MapsTo(s, b, i, o) <==> Covers(traced, b) && ((i in inos && Met(o, b) in MetIn(fs, i)) || (i == now && MetUpto(fs, now, k, b, o)))
  }

  /** The map holds exactly the traced blocks of the inodes. */
  ghost predicate StoredAll(fs: Fs, traced: seq<Interval>, inos: seq<nat>, s: seq<BF.Entry>) {
    forall b: nat, i: nat, o: int :: BF.MapsTo(s, b, i, o) <==> Covers(traced, b) && i in inos && Met(o, b) in MetIn(fs, i)
  }

  lemma MetNext(fs: Fs, ino: nat, k: nat, b: nat, o: int)
    requires k < |MetIn(fs, ino)|
    ensures MetUpto(fs, ino, k + 1, b, o) <==> MetUpto(fs, ino, k, b, o) || MetIn(fs, ino)[k] == Met(o, b)
  {
    hide MetIn;
    if MetUpto(fs, ino, k + 1, b, o) {
      var j :| 0 <= j < k + 1 && j < |MetIn(fs, ino)| && MetIn(fs, ino)[j] == Met(o, b);
      assert j < k ==> MetUpto(fs, ino, k, b, o);
    }
  }

  /** One more block of the inode has been looked at. */
  lemma StoreNext(fs: Fs, traced: seq<Interval>, inos: seq<nat>, now: nat, k: nat, s: seq<BF.Entry>,
                  r: seq<BF.Entry>, m: Met)
    requires StoredUpto(fs, traced, inos, now, k, s) && k < |MetIn(fs, now)| && MetIn(fs, now)[k] == m
    requires if Covers(traced, m.block) then
        forall b: nat, i: nat, o: int ::
          BF.MapsTo(r, b, i, o) <==> BF.MapsTo(s, b, i, o) || (b == m.block && i == now && o == m.code)
      else r == s
    ensures StoredUpto(fs, traced, inos, now, k + 1, r)
  {
    hide MetIn, Covers, BF.MapsTo, MetUpto;
    forall b: nat, i: nat, o: int ensures BF.MapsTo(r, b, i, o) <==>
      Covers(traced, b) && ((i in inos && Met(o, b) in MetIn(fs, i)) || (i == now && MetUpto(fs, now, k + 1, b, o)))
    {
      MetNext(fs, now, k, b, o);
      assert BF.MapsTo(s, b, i, o) <==>
        Covers(traced, b) && ((i in inos && Met(o, b) in MetIn(fs, i)) || (i == now && MetUpto(fs, now, k, b, o)));
    }
  }

  lemma StoreBegin(fs: Fs, traced: seq<Interval>, inos: seq<nat>, now: nat, s: seq<BF.Entry>)
    requires StoredAll(fs, traced, inos, s)
    ensures StoredUpto(fs, traced, inos, now, 0, s)
  {
    hide MetIn, Covers, BF.MapsTo;
  }

  lemma StoreEnd(fs: Fs, traced: seq<Interval>, inos: seq<nat>, now: nat, k: nat, s: seq<BF.Entry>)
    requires StoredUpto(fs, traced, inos, now, k, s) && k == |MetIn(fs, now)|
    ensures StoredAll(fs, traced, inos + [now], s)
  {
    hide MetIn, Covers, BF.MapsTo;
    forall b: nat, i: nat, o: int ensures BF.MapsTo(s, b, i, o) <==>
      Covers(traced, b) && i in inos + [now] && Met(o, b) in MetIn(fs, i)
    {
      assert MetUpto(fs, now, k, b, o) <==> Met(o, b) in MetIn(fs, now);
      assert i in inos + [now] <==> i in inos || i == now;
    }
  }

  // ----- No block twice

  /** A block that is met next in an inode whose turn it is has not been stored before. */
  lemma NotYetKnown(fs: Fs, traced: seq<Interval>, inos: seq<nat>, now: nat, k: nat, s: seq<BF.Entry>)
    requires WellFormed(fs) && NoSharing(fs) && fs.apb > 0 && StoredUpto(fs, traced, inos, now, k, s)
    requires now in fs.inodes && now !in inos && (forall i <- inos :: i in fs.inodes) && k < |MetIn(fs, now)|
    ensures !BF.Known(s, MetIn(fs, now)[k].block)
  {
    hide MetIn, Covers, WellFormed, NoSharing;
    var block := MetIn(fs, now)[k].block;
    forall e | e in s ensures !BF.Holds(e, block) {
      if BF.Holds(e, block) {
        var o := e.offset + (block - e.block);
        assert BF.MapsTo(s, block, e.ino, o);
        if e.ino in inos {
          var j :| 0 <= j < |MetIn(fs, e.ino)| && MetIn(fs, e.ino)[j] == Met(o, block);
          MetTwice(fs, e.ino, j, now, k);
        } else {
          var j :| 0 <= j < k && j < |MetIn(fs, now)| && MetIn(fs, now)[j] == Met(o, block);
          MetTwice(fs, now, j, now, k);
        }
      }
    }
  }

  /** No block is met twice. */
  lemma MetTwice(fs: Fs, i: nat, j: nat, h: nat, k: nat)
    requires WellFormed(fs) && NoSharing(fs) && fs.apb > 0 && i in fs.inodes && h in fs.inodes
    requires j < |MetIn(fs, i)| && k < |MetIn(fs, h)| && MetIn(fs, i)[j].block == MetIn(fs, h)[k].block
    ensures i == h && j == k
  {
    hide Ptr, Visited, CodeAt, WellFormed;
    var v, w := Visited(fs, i), Visited(fs, h);
    VisitedIsVisit(fs, i);
    VisitedIsVisit(fs, h);
    assert v[j] in v && w[k] in w;
    MetBlock(fs, v, j);
    MetBlock(fs, w, k);
    assert v[j] == w[k];
    if j != k {
      DistinctSlots(fs.apb, i, v, j, k);
    }
  }

  // ----- No entry reaches over another traced block

  /** The walk meets the ends of the entry at the steps `a` and `z`, and from `a` to `z` no traced block of another one. */
  ghost predicate RunAt(met: seq<Met>, traced: seq<Interval>, e: BF.Entry, a: nat, z: nat) {
    && a <= z < |met| && e.len > 0
    && met[a] == Met(e.offset, e.block) && met[z] == Met(e.offset + e.len - 1, e.block + e.len - 1)
    && forall j | a <= j <= z && Covers(traced, met[j].block) :: e.offset <= met[j].code < e.offset + e.len
  }

  ghost predicate Unbroken(met: seq<Met>, traced: seq<Interval>, e: BF.Entry) {
    exists a: nat, z: nat :: RunAt(met, traced, e, a, z)
  }

  ghost predicate AllUnbroken(fs: Fs, traced: seq<Interval>, s: seq<BF.Entry>) {
    forall e <- s :: Unbroken(MetIn(fs, e.ino), traced, e)
  }

  ghost predicate NoneTraced(met: seq<Met>, traced: seq<Interval>, from: nat, upto: nat)
    requires upto <= |met|
  {
    forall j | from <= j < upto :: !Covers(traced, met[j].block)
  }

  /** The entry ends with the last traced block of the first `k` that are met. */
  ghost predicate EndsLast(met: seq<Met>, traced: seq<Interval>, e: BF.Entry, k: nat)
    requires k <= |met|
  {
    exists a: nat, z: nat :: z < k && RunAt(met, traced, e, a, z) && NoneTraced(met, traced, z + 1, k)
  }

  /** The entries after `k` steps in inode `now`. The one to be continued is that of the last traced block. */
  ghost predicate Tidy(fs: Fs, traced: seq<Interval>, inos: seq<nat>, now: nat, k: nat, s: seq<BF.Entry>,
                       last: map<nat, nat>) {
    && k <= |MetIn(fs, now)|
    && AllUnbroken(fs, traced, s)
    && (forall i <- last :: i in inos || i == now)
    && (now in last ==>
      last[now] < |s| && s[last[now]].ino == now && EndsLast(MetIn(fs, now), traced, s[last[now]], k))
  }

  lemma TidyBegin(fs: Fs, traced: seq<Interval>, inos: seq<nat>, now: nat, s: seq<BF.Entry>, last: map<nat, nat>)
    requires AllUnbroken(fs, traced, s) && now !in inos && forall i <- last :: i in inos
    ensures Tidy(fs, traced, inos, now, 0, s, last)
  {
    hide MetIn;
  }

  /** A block that is not traced. */
  lemma TidySkip(fs: Fs, traced: seq<Interval>, inos: seq<nat>, now: nat, k: nat, s: seq<BF.Entry>, last: map<nat, nat>)
    requires Tidy(fs, traced, inos, now, k, s, last) && k < |MetIn(fs, now)|
    requires !Covers(traced, MetIn(fs, now)[k].block)
    ensures Tidy(fs, traced, inos, now, k + 1, s, last)
  {
    hide MetIn, Covers, RunAt, AllUnbroken;
    if now in last {
      var met, e := MetIn(fs, now), s[last[now]];
      var a: nat, z: nat :| z < k && RunAt(met, traced, e, a, z) && NoneTraced(met, traced, z + 1, k);
      assert NoneTraced(met, traced, z + 1, k + 1);
    }
  }

  /** A block that begins an entry. */
  lemma TidyNew(fs: Fs, traced: seq<Interval>, inos: seq<nat>, now: nat, k: nat, s: seq<BF.Entry>, last: map<nat, nat>)
    requires Tidy(fs, traced, inos, now, k, s, last) && k < |MetIn(fs, now)|
    ensures var m := MetIn(fs, now)[k];
      Tidy(fs, traced, inos, now, k + 1, s + [BF.Entry(m.block, 1, m.code, now)], last[now := |s|])
  {
    hide MetIn, Covers;
    var met := MetIn(fs, now);
    var m := met[k];
    var e := BF.Entry(m.block, 1, m.code, now);
    assert RunAt(met, traced, e, k, k);
    assert NoneTraced(met, traced, k + 1, k + 1);
    assert forall x <- s + [e] :: x in s || x == e;
  }

  /** A block that continues the last entry of its inode. */
  lemma TidyMore(fs: Fs, traced: seq<Interval>, inos: seq<nat>, now: nat, k: nat, s: seq<BF.Entry>, last: map<nat, nat>)
    requires Tidy(fs, traced, inos, now, k, s, last) && k < |MetIn(fs, now)| && now in last
    requires var m := MetIn(fs, now)[k]; BF.Continues(s[last[now]], m.code, m.block)
    ensures var n := last[now];
      Tidy(fs, traced, inos, now, k + 1, s[n := s[n].(len := s[n].len + 1)], last)
  {
    hide MetIn, Covers, RunAt;
    var met, n := MetIn(fs, now), last[now];
    var e := s[n];
    var g := e.(len := e.len + 1);
    var a: nat, z: nat :| z < k && RunAt(met, traced, e, a, z) && NoneTraced(met, traced, z + 1, k);
    RunMore(met, traced, e, a, z, k);
    assert NoneTraced(met, traced, k + 1, k + 1);
    assert forall x <- s[n := g] :: x in s || x == g;
  }

  lemma RunMore(met: seq<Met>, traced: seq<Interval>, e: BF.Entry, a: nat, z: nat, k: nat)
    requires z < k < |met| && RunAt(met, traced, e, a, z) && NoneTraced(met, traced, z + 1, k)
    requires BF.Continues(e, met[k].code, met[k].block)
    ensures RunAt(met, traced, e.(len := e.len + 1), a, k)
  {
    hide Covers;
  }

  lemma TidyEnd(fs: Fs, traced: seq<Interval>, inos: seq<nat>, now: nat, k: nat, s: seq<BF.Entry>, last: map<nat, nat>)
    requires Tidy(fs, traced, inos, now, k, s, last)
    ensures AllUnbroken(fs, traced, s) && forall i <- last :: i in inos + [now]
  {
    hide AllUnbroken, MetIn;
  }

  // ----- The walk over all files

  /** The state of the walk of one inode. */
  ghost predicate Storing(fs: Fs, traced: seq<Interval>, inos: seq<nat>, now: nat, m: nat, k: nat, trav: Trav,
                          s: seq<BF.Entry>) {
    && AtSlot(fs, now, m, k)
    && k <= |Visited(fs, now)| && trav == TravAfter(Visited(fs, now)[..k])
    && StoredUpto(fs, traced, inos, now, k, s)
  }

  lemma StoringBegins(fs: Fs, traced: seq<Interval>, inos: seq<nat>, now: nat, s: seq<BF.Entry>)
    requires StoredAll(fs, traced, inos, s)
    ensures Storing(fs, traced, inos, now, 0, 0, TRAV_START, s)
  {
    hide StoredAll, StoredUpto;
    StoreBegin(fs, traced, inos, now, s);
    var w, v := InodeWalk(fs.apb, now, 0), Visited(fs, now);
    assert w[..0] == [] && v[..0] == [];
  }

  /** The next slot of the walk: a hole, or the block met next. */
  lemma StoringNext(fs: Fs, traced: seq<Interval>, inos: seq<nat>, now: nat, m: nat, k: nat, trav: Trav,
                    s: seq<BF.Entry>)
    requires fs.apb > 0 && now in fs.inodes && Storing(fs, traced, inos, now, m, k, trav, s)
    requires m < |InodeWalk(fs.apb, now, 0)|
    ensures var q := InodeWalk(fs.apb, now, 0)[m];
      var t := NextTrav(trav, q);
      if Ptr(fs, q) == 0 then Storing(fs, traced, inos, now, m + 1, k, trav, s)
      else
        && k < |MetIn(fs, now)| == |Visited(fs, now)| && MetIn(fs, now)[k] == Met(WalkCode(fs.apb, t, q), Ptr(fs, q))
        && AtSlot(fs, now, m + 1, k + 1) && t == TravAfter(Visited(fs, now)[..k + 1])
  {
    hide AtSlot, InodeWalk, Visited, Ptr, StoredUpto, NextTrav, WalkCode, TravAfter;
    SlotNext(fs, now, m, k);
    var v := Visited(fs, now);
    if Ptr(fs, InodeWalk(fs.apb, now, 0)[m]) != 0 {
      TravNext(v, k);
      MetAtStep(fs, v, k);
    }
  }

  lemma MetAtStep(fs: Fs, v: seq<Slot>, k: nat)
    requires k < |v|
    ensures |MetOf(fs, v)| == |v| && MetOf(fs, v)[k] == Met(WalkCode(fs.apb, TravAfter(v[..k + 1]), v[k]), Ptr(fs, v[k]))
  {}

  lemma StoringEnds(fs: Fs, traced: seq<Interval>, inos: seq<nat>, now: nat, m: nat, k: nat, trav: Trav,
                    s: seq<BF.Entry>)
    requires Storing(fs, traced, inos, now, m, k, trav, s) && m == |InodeWalk(fs.apb, now, 0)|
    ensures StoredAll(fs, traced, inos + [now], s)
  {
    hide StoredAll, StoredUpto, Present, InodeWalk, Ptr, TravAfter;
    var w, v := InodeWalk(fs.apb, now, 0), Visited(fs, now);
    assert w[..m] == w && |v[..k]| == k;
    MetOfLength(fs, v);
    StoreEnd(fs, traced, inos, now, k, s);
  }

  /** What makes sure that no block is stored twice. */
  ghost predicate Unshared(fs: Fs, inos: seq<nat>, now: nat) {
    WellFormed(fs) && NoSharing(fs) && now !in inos && forall i <- inos :: i in fs.inodes
  }

  /** Stores one block of an inode if it is among the traced ones. */
  method StoreBlock(fs: Fs, q: Slot, block: nat, traced: seq<Interval>, tdata: BlockTraverse, bm: BF.BlockMap,
                    ghost inos: seq<nat>, now: nat, ghost m: nat, ghost k: nat)
    requires bm.Valid() && Intervals.Separated(traced) && fs.apb > 0 && now in fs.inodes
    requires Storing(fs, traced, inos, now, m, k, tdata.State(), bm.bmap) && m < |InodeWalk(fs.apb, now, 0)|
    requires q == InodeWalk(fs.apb, now, 0)[m] && block == Ptr(fs, q) != 0
    requires Tidy(fs, traced, inos, now, k, bm.bmap, bm.lastBlock)
    modifies tdata, bm
    ensures Tidy(fs, traced, inos, now, k + 1, bm.bmap, bm.lastBlock)
    ensures bm.Valid() && Storing(fs, traced, inos, now, m + 1, k + 1, tdata.State(), bm.bmap)
    ensures Unshared(fs, inos, now) && BF.DisjointEntries(old(bm.bmap)) ==> BF.DisjointEntries(bm.bmap)
  {
    hide AtSlot, InodeWalk, Visited, Ptr, StoredUpto, NextTrav, WalkCode, TravAfter, BF.DisjointEntries, BF.Known,
      BF.MapsTo,
      Intervals.Separated, Covers, MetIn, WellFormed, NoSharing, Tidy;
    StoringNext(fs, traced, inos, now, m, k, tdata.State(), bm.bmap);
    ghost var before := bm.bmap;
    tdata.Descend(q);
    var found, x := BF.FindBlock(traced, block);
    var code := WalkCode(fs.apb, Trav(tdata.depth, tdata.treeInd0, tdata.treeInd1), q);
    if found {
      if Unshared(fs, inos, now) {
        NotYetKnown(fs, traced, inos, now, k, before);
      }
      ghost var last := bm.lastBlock;
      bm.InsertNewBlock(now, code, block);
      if now in last && BF.Continues(before[last[now]], code, block) {
        TidyMore(fs, traced, inos, now, k, before, last);
      } else {
        TidyNew(fs, traced, inos, now, k, before, last);
      }
    } else {
      TidySkip(fs, traced, inos, now, k, before, bm.lastBlock);
    }
    StoreNext(fs, traced, inos, now, k, before, bm.bmap, Met(code, block));
  }

  /** Walks over the blocks of one inode. */
  method StoreInode(fs: Fs, now: nat, traced: seq<Interval>, bm: BF.BlockMap, ghost inos: seq<nat>)
    requires bm.Valid() && Intervals.Separated(traced) && fs.apb > 0 && now in fs.inodes
    requires StoredAll(fs, traced, inos, bm.bmap) && AllUnbroken(fs, traced, bm.bmap)
    requires now !in inos && forall i <- bm.lastBlock :: i in inos
    modifies bm
    ensures bm.Valid() && StoredAll(fs, traced, inos + [now], bm.bmap) && AllUnbroken(fs, traced, bm.bmap)
    ensures forall i <- bm.lastBlock :: i in inos + [now]
    ensures Unshared(fs, inos, now) && BF.DisjointEntries(old(bm.bmap)) ==> BF.DisjointEntries(bm.bmap)
  {
    hide Storing, StoredAll, InodeWalk, Ptr, Unshared, BF.DisjointEntries, Intervals.Separated, Tidy, AllUnbroken;
    var w := InodeWalk(fs.apb, now, 0);
    var tdata := new BlockTraverse();
    StoringBegins(fs, traced, inos, now, bm.bmap);
    TidyBegin(fs, traced, inos, now, bm.bmap, bm.lastBlock);
    var m: nat := 0;
    ghost var k: nat := 0;
    while m < |w|
      invariant m <= |w| && bm.Valid()
      invariant Storing(fs, traced, inos, now, m, k, tdata.State(), bm.bmap)
      invariant Tidy(fs, traced, inos, now, k, bm.bmap, bm.lastBlock)
      invariant Unshared(fs, inos, now) && BF.DisjointEntries(old(bm.bmap)) ==> BF.DisjointEntries(bm.bmap)
    {
      var block := Ptr(fs, w[m]);
      if block != 0 {
        StoreBlock(fs, w[m], block, traced, tdata, bm, inos, now, m, k);
        k := k + 1;
      } else {
        StoringNext(fs, traced, inos, now, m, k, tdata.State(), bm.bmap);
      }
      m := m + 1;
    }
    StoringEnds(fs, traced, inos, now, m, k, tdata.State(), bm.bmap);
    TidyEnd(fs, traced, inos, now, k, bm.bmap, bm.lastBlock);
  }

  lemma NothingStored(fs: Fs, traced: seq<Interval>)
    ensures StoredAll(fs, traced, [], [])
  {}

  /**
    Maps the traced blocks to the inodes and offsets they belong to. The map holds exactly the traced blocks of the
    inodes, each at the code the walk meets it at; in a file system without shared blocks no block has two entries.
   */
  method MapBlocks(fs: Fs, inos: seq<nat>, traced: seq<Interval>) returns (bm: BF.BlockMap)
    requires Intervals.Separated(traced) && fs.apb > 0 && Distinct(inos) && forall i <- inos :: i in fs.inodes
    ensures fresh(bm) && bm.Valid() && StoredAll(fs, traced, inos, bm.bmap) && AllUnbroken(fs, traced, bm.bmap)
    ensures WellFormed(fs) && NoSharing(fs) ==> BF.DisjointEntries(bm.bmap)
  {
    hide StoredAll, WellFormed, NoSharing, Intervals.Separated;
    bm := new BF.BlockMap();
    NothingStored(fs, traced);
    var i: nat := 0;
    assert inos[..0] == [];
    while i < |inos|
      invariant i <= |inos| && fresh(bm) && bm.Valid() && StoredAll(fs, traced, inos[..i], bm.bmap)
      invariant AllUnbroken(fs, traced, bm.bmap) && forall j <- bm.lastBlock :: j in inos[..i]
      invariant WellFormed(fs) && NoSharing(fs) ==> BF.DisjointEntries(bm.bmap)
    {
      assert inos[i] in inos && forall j <- inos[..i] :: j in inos;
      assert forall j | 0 <= j < i :: inos[..i][j] != inos[i];
      StoreInode(fs, inos[i], traced, bm, inos[..i]);
      assert inos[..i + 1] == inos[..i] + [inos[i]];
      i := i + 1;
    }
    assert inos[..i] == inos;
  }

  // ----- The list that is printed is right for the remapper

  /** A printed line as it is read back. */
  function LineOf(p: BF.Piece): Line {
    match p
    case Unmapped(_, _) => Line.Unmapped
    case Mapped(block, len, offset, ino) => Line.Mapped(block, len, offset, ino)
  }

  /** All lines say what the map says. */
  ghost predicate LinesFrom(s: seq<BF.Entry>, ps: seq<BF.Piece>, lines: seq<Line>) {
    && |lines| == |ps| && (forall k | 0 <= k < |ps| :: lines[k] == LineOf(ps[k]))
    && forall p <- ps :: BF.RightPiece(s, p)
  }

  /**
    What e2block2file prints, in whatever order, is input that names blocks where the files have them: the condition
    under which e2remapblocks keeps the files.
   */
  lemma PrintedIsRight(fs: Fs, traced: seq<Interval>, inos: seq<nat>, s: seq<BF.Entry>, ps: seq<BF.Piece>,
                       lines: seq<Line>, firstIno: nat)
    requires StoredAll(fs, traced, inos, s) && LinesFrom(s, ps, lines) && forall i <- inos :: i in fs.inodes
    ensures forall b <- Owners(lines, firstIno) :: OwnerMet(fs, b, Owners(lines, firstIno)[b])
    ensures forall b <- Owners(lines, firstIno) :: Covers(traced, b)
  {
    hide Owners, MetIn, BF.MapsTo, Covers;
    forall b | b in Owners(lines, firstIno) ensures OwnerMet(fs, b, Owners(lines, firstIno)[b]) && Covers(traced, b) {
      var loc := Owners(lines, firstIno)[b];
      FirstLineWins(lines, firstIno, b, loc);
      var k: nat :| FirstNames(lines, firstIno, b, loc, k);
      assert ps[k] in ps && BF.RightAt(s, ps[k], b);
      assert BF.MapsTo(s, b, loc.ino, loc.offset);
    }
  }

  // ----- What is printed never interleaves

  /** A traced block met between the ends of an entry belongs to the entry. */
  lemma InsideEntry(met: seq<Met>, traced: seq<Interval>, e: BF.Entry, c: int, b: nat)
    requires Ascending(met) && Unbroken(met, traced, e) && Met(c, b) in met && Covers(traced, b)
    requires Key(e.offset) <= Key(c) <= Key(e.offset + e.len - 1)
    ensures e.offset <= c < e.offset + e.len
  {
    hide Key, Covers, OffToDepth;
    var a: nat, z: nat :| RunAt(met, traced, e, a, z);
    var j :| 0 <= j < |met| && met[j] == Met(c, b);
    assert a <= j <= z;
  }

  lemma EntryMet(fs: Fs, traced: seq<Interval>, inos: seq<nat>, s: seq<BF.Entry>, e: BF.Entry)
    requires StoredAll(fs, traced, inos, s) && e in s
    ensures forall n: nat | n < e.len :: MetAt(MetIn(fs, e.ino), Extent(e.block, e.len, e.offset, 0), n)
  {
    hide MetIn, Covers;
    forall n: nat | n < e.len ensures MetAt(MetIn(fs, e.ino), Extent(e.block, e.len, e.offset, 0), n) {
      assert BF.Holds(e, e.block + n);
      assert BF.MapsTo(s, e.block + n, e.ino, e.offset + n);
    }
  }

  /** The extent is a part of the entry. */
  ghost predicate Within(e: BF.Entry, x: Extent) {
    && x.len > 0 && e.block <= x.block && x.block + x.len <= e.block + e.len
    && x.offset == e.offset + (x.block - e.block)
  }

  /** A part of an entry, and a traced block past its start and outside of it: the whole part comes first. */
  lemma PartFirst(met: seq<Met>, traced: seq<Interval>, e: BF.Entry, x: Extent, c: int, b: nat)
    requires Ascending(met) && Unbroken(met, traced, e) && Within(e, x) && Met(c, b) in met && Covers(traced, b)
    requires forall n: nat | n < e.len :: MetAt(met, Extent(e.block, e.len, e.offset, 0), n)
    requires !(x.block <= b < x.block + x.len) && Key(x.offset) <= Key(c)
    ensures Key(LastCode(x)) < Key(c)
  {
    hide Key, Covers, OffToDepth, Unbroken, Ascending;
    if Key(c) <= Key(LastCode(x)) {
      var whole := Extent(e.block, e.len, e.offset, 0);
      var d := x.block - e.block;
      KeysInside(whole, met, 0, d);
      KeysInside(whole, met, d + x.len - 1, e.len - 1);
      InsideEntry(met, traced, e, c, b);
      var t := c - e.offset;
      assert MetAt(met, whole, t);
      SameCode(met, Met(c, b), Met(e.offset + t, e.block + t));
      if t < d {
        KeysInside(whole, met, t, d);
      } else {
        KeysInside(whole, met, d + x.len - 1, t);
      }
      assert false;
    }
  }

  lemma SameCode(met: seq<Met>, m: Met, n: Met)
    requires Ascending(met) && m in met && n in met && m.code == n.code
    ensures m == n
  {
    var i :| 0 <= i < |met| && met[i] == m;
    MetOnce(met, i, n);
  }

  /** An extent loaded from the list lies in one entry of the map. */
  lemma LoadedWithin(s: seq<BF.Entry>, ps: seq<BF.Piece>, lines: seq<Line>, p: Piece) returns (e: BF.Entry)
    requires LinesFrom(s, ps, lines) && p.ext.len > 0 && exists line <- lines :: CutFrom(line, p)
    ensures e in s && e.ino == p.ino && Within(e, Value(p.ext))
  {
    hide BF.RightAt;
    var line :| line in lines && CutFrom(line, p);
    var k :| 0 <= k < |lines| && lines[k] == line;
    assert ps[k] in ps && BF.RightPiece(s, ps[k]);
    e :| e in s && BF.PartOf(e, ps[k]);
  }

  /** The list of an inode in a plan: which extents it has, and in which order. */
  lemma ListFacts(log: seq<Piece>, total: nat, pinos: seq<nat>, plan: seq<Listing>, l: Listing)
    requires GoodLog(log, total) && PlanOf(log, pinos, plan) && l in plan
    ensures ChunksApart(l.exts, total) && forall y: Extent :: y in l.exts <==> InLog(log, l.ino, y)
    ensures forall i, j | 0 <= i < j < |l.exts| :: Key(l.exts[i].offset) <= Key(l.exts[j].offset)
  {
    hide Key, Tiling, InodeLists, SortExtents, ChunksApart, ListingsApart, Disjoint, InLog, Values;
    PlanApart(log, total, pinos, plan);
    SortListsAt(InodeLists(log), pinos);
    var k :| 0 <= k < |plan| && plan[k] == l;
    SortedExtents(Values(ListOf(InodeLists(log), pinos[k])));
  }

  /** Two different pieces of the log lie apart. */
  lemma PiecesApart(log: seq<Piece>, p: Piece, q: Piece)
    requires Disjoint(log) && p in log && q in log && p != q
    ensures p.ext.End() <= q.ext.block || q.ext.End() <= p.ext.block
  {
    var a :| 0 <= a < |log| && log[a] == p;
    var b :| 0 <= b < |log| && log[b] == q;
    assert a < b || b < a;
  }

  /** Two extents of the list of an inode, in its order. */
  lemma ListOrder(log: seq<Piece>, total: nat, pinos: seq<nat>, plan: seq<Listing>, l: Listing, i: nat, j: nat)
    returns (p: Piece, q: Piece)
    requires GoodLog(log, total) && PlanOf(log, pinos, plan) && l in plan && i < j < |l.exts|
    ensures p in log && q in log && p.ino == q.ino == l.ino && Value(p.ext) == l.exts[i] && Value(q.ext) == l.exts[j]
    ensures p.ext.End() <= q.ext.block || q.ext.End() <= p.ext.block
    ensures Key(l.exts[i].offset) <= Key(l.exts[j].offset)
  {
    hide Key, Tiling, PlanOf, Disjoint;
    ListFacts(log, total, pinos, plan, l);
    assert InLog(log, l.ino, l.exts[i]) && InLog(log, l.ino, l.exts[j]);
    p :| p in log && p.ino == l.ino && Value(p.ext) == l.exts[i];
    q :| q in log && q.ino == l.ino && Value(q.ext) == l.exts[j];
    assert p != q;
    PiecesApart(log, p, q);
  }

  /** The extents e2remapblocks loads from a printed list do not interleave in the order of an ascending walk. */
  lemma PrintedSeparated(fs: Fs, traced: seq<Interval>, inos: seq<nat>, s: seq<BF.Entry>, ps: seq<BF.Piece>,
                         lines: seq<Line>, firstIno: nat, log: seq<Piece>, total: nat, pinos: seq<nat>,
                         plan: seq<Listing>, l: Listing)
    requires StoredAll(fs, traced, inos, s) && AllUnbroken(fs, traced, s) && LinesFrom(s, ps, lines)
    requires (forall i <- inos :: i in fs.inodes) && FromInput(lines, firstIno, log, total, pinos, plan)
    requires l in plan && Ascending(MetIn(fs, l.ino))
    ensures RemapBlocks.Separated(l.exts)
  {
    hide Key, Covers, OffToDepth, MetIn, Owners, Blocks, LinesFrom, StoredAll, PlanOf, Unbroken, Ascending, Tiling;
    PrintedIsRight(fs, traced, inos, s, ps, lines, firstIno);
    PlanLengths(log, total, pinos, plan, l);
    forall i, j | 0 <= i < j < |l.exts| ensures Key(LastCode(l.exts[i])) < Key(l.exts[j].offset) {
      var p, q := ListOrder(log, total, pinos, plan, l, i, j);
      CutLine(lines, firstIno, log, p);
      var e := LoadedWithin(s, ps, lines, p);
      EntryMet(fs, traced, inos, s, e);
      BlocksAt(log, q, q.ext.block);
      assert OwnerMet(fs, q.ext.block, Owners(lines, firstIno)[q.ext.block]);
      PartFirst(MetIn(fs, l.ino), traced, e, l.exts[i], l.exts[j].offset, l.exts[j].block);
    }
  }

  /** A printed list can be walked exactly if the walks meet ascending codes and the extents fit into the buffer. */
  lemma PrintedIsWalkable(fs: Fs, traced: seq<Interval>, inos: seq<nat>, s: seq<BF.Entry>, ps: seq<BF.Piece>,
                          lines: seq<Line>, firstIno: nat, log: seq<Piece>, total: nat, pinos: seq<nat>,
                          plan: seq<Listing>, bufBlocks: nat)
    requires StoredAll(fs, traced, inos, s) && AllUnbroken(fs, traced, s) && LinesFrom(s, ps, lines)
    requires (forall i <- inos :: i in fs.inodes) && FromInput(lines, firstIno, log, total, pinos, plan)
    ensures Walkable(fs, plan, bufBlocks) <==>
      forall l <- plan :: Ascending(MetIn(fs, l.ino)) && forall x <- l.exts :: x.len <= bufBlocks
  {
    hide MetIn, LinesFrom, StoredAll, AllUnbroken, FromInput, Ascending, RemapBlocks.Separated;
    forall l | l in plan && Ascending(MetIn(fs, l.ino)) ensures RemapBlocks.Separated(l.exts) {
      PrintedSeparated(fs, traced, inos, s, ps, lines, firstIno, log, total, pinos, plan, l);
    }
  }

  function LinesOf(ps: seq<BF.Piece>): (r: seq<Line>)
    ensures |r| == |ps| && forall k | 0 <= k < |ps| :: r[k] == LineOf(ps[k])
  {
    if ps == [] then [] else LinesOf(ps[..|ps| - 1]) + [LineOf(ps[|ps| - 1])]
  }

  lemma SortedStored(fs: Fs, traced: seq<Interval>, inos: seq<nat>, s: seq<BF.Entry>, r: seq<BF.Entry>)
    requires StoredAll(fs, traced, inos, s) && AllUnbroken(fs, traced, s) && forall e :: e in r <==> e in s
    ensures StoredAll(fs, traced, inos, r) && AllUnbroken(fs, traced, r)
  {
    hide MetIn, Covers, Unbroken;
    assert forall b: nat, i: nat, o: int :: BF.MapsTo(r, b, i, o) <==> BF.MapsTo(s, b, i, o);
  }

  /** Read back, the list gives exactly the traced blocks that files have, at the codes the walks meet them at. */
  ghost predicate ListsExactly(fs: Fs, inos: seq<nat>, traced: seq<Interval>, lines: seq<Line>, firstIno: nat) {
    forall b: nat, i: nat, o: int ::
      b in Owners(lines, firstIno) && Owners(lines, firstIno)[b] == Loc(i, o) <==>
      Covers(traced, b) && i in inos && i >= firstIno && Met(o, b) in MetIn(fs, i)
  }

  /** A block that the list gives is mapped so. */
  lemma ListedIsMapped(s: seq<BF.Entry>, ps: seq<BF.Piece>, lines: seq<Line>, firstIno: nat, b: nat)
    requires LinesFrom(s, ps, lines) && b in Owners(lines, firstIno)
    ensures var loc := Owners(lines, firstIno)[b]; BF.MapsTo(s, b, loc.ino, loc.offset) && loc.ino >= firstIno
  {
    hide Owners, BF.MapsTo;
    var loc := Owners(lines, firstIno)[b];
    FirstLineWins(lines, firstIno, b, loc);
    var k: nat :| FirstNames(lines, firstIno, b, loc, k);
    assert ps[k] in ps && BF.RightAt(s, ps[k], b);
  }

  /** A block of a remappable inode that is mapped and in a printed line is given by the list. */
  lemma MappedIsListed(s: seq<BF.Entry>, ps: seq<BF.Piece>, lines: seq<Line>, firstIno: nat, b: nat, i: nat, o: int)
    requires LinesFrom(s, ps, lines) && BF.DisjointEntries(s) && BF.MapsTo(s, b, i, o) && i >= firstIno
    requires exists p <- ps :: BF.InPiece(p, b)
    ensures b in Owners(lines, firstIno)
  {
    hide Owners, BF.DisjointEntries;
    var p :| p in ps && BF.InPiece(p, b);
    var k :| 0 <= k < |ps| && ps[k] == p;
    assert BF.RightPiece(s, p) && BF.RightAt(s, p, b);
    MappedOnce(s, b, i, o, p.ino, p.offset + (b - p.block));
    assert LoadExtents.Names(lines[k], firstIno, b);
    OwnedIff(lines, firstIno, b);
  }

  /** In a map with disjoint entries a block has one place. */
  lemma MappedOnce(s: seq<BF.Entry>, b: nat, i: nat, o: int, i': nat, o': int)
    requires BF.DisjointEntries(s) && BF.MapsTo(s, b, i, o) && BF.MapsTo(s, b, i', o')
    ensures i == i' && o == o'
  {
    var x :| x in s && BF.Holds(x, b) && x.ino == i && o == x.offset + (b - x.block);
    var y :| y in s && BF.Holds(y, b) && y.ino == i' && o' == y.offset + (b - y.block);
    var j :| 0 <= j < |s| && s[j] == x;
    var k :| 0 <= k < |s| && s[k] == y;
    assert !(j < k) && !(k < j);
  }

  lemma ListIsExact(fs: Fs, traced: seq<Interval>, inos: seq<nat>, s: seq<BF.Entry>, ps: seq<BF.Piece>,
                    lines: seq<Line>, firstIno: nat)
    requires StoredAll(fs, traced, inos, s) && BF.DisjointEntries(s)
    requires LinesFrom(s, ps, lines) && forall b: nat | Covers(traced, b) :: exists p <- ps :: BF.InPiece(p, b)
    ensures ListsExactly(fs, inos, traced, lines, firstIno)
  {
    hide Owners, MetIn, Covers, LinesFrom, BF.MapsTo, BF.DisjointEntries, BF.InPiece;
    forall b: nat, i: nat, o: int
      ensures b in Owners(lines, firstIno) && Owners(lines, firstIno)[b] == Loc(i, o) <==>
        Covers(traced, b) && i in inos && i >= firstIno && Met(o, b) in MetIn(fs, i)
    {
      assert BF.MapsTo(s, b, i, o) <==> Covers(traced, b) && i in inos && Met(o, b) in MetIn(fs, i);
      if BF.MapsTo(s, b, i, o) && i >= firstIno {
        MappedIsListed(s, ps, lines, firstIno, b, i, o);
      }
      if b in Owners(lines, firstIno) {
        var loc := Owners(lines, firstIno)[b];
        ListedIsMapped(s, ps, lines, firstIno, b);
        if BF.MapsTo(s, b, i, o) {
          MappedOnce(s, b, i, o, loc.ino, loc.offset);
        }
      }
    }
  }

  lemma OrderedDisjoint(s: seq<BF.Entry>)
    requires BF.OrderedMap(s)
    ensures BF.DisjointEntries(s)
  {}

  /** Every traced block is in a printed line. */
  lemma TracedPrinted(s: seq<BF.Entry>, sectors: seq<BF.Traced>, partitionStart: int, perBlock: nat, which: seq<nat>,
                      ranges: seq<Interval>, pss: seq<seq<BF.Piece>>, b: nat)
    requires BF.PartitionRanges(sectors, partitionStart, which)
    requires BF.Aligned(sectors, partitionStart, perBlock, which, ranges) && BF.RangesSplit(s, ranges, pss)
    requires BF.IsTraced(sectors, partitionStart, perBlock, b)
    ensures exists p <- BF.AllLines(pss) :: BF.InPiece(p, b)
  {
    hide BF.PartitionRanges, BF.Aligned, BF.RangesSplit, BF.IsTraced, Covers, BF.InPiece;
    BF.AlignedCover(sectors, partitionStart, perBlock, which, ranges, b);
    BF.LinesCover(s, ranges, pss, b);
  }

  /**
    The whole of e2block2file: the list of the blocks that have been traced, with the files they belong to. Each traced
    range in the partition is split into consecutive lines that make up its blocks, and their order is that of the trace.
   */
  method ListTraced(fs: Fs, inos: seq<nat>, sectors: seq<BF.Traced>, partitionStart: int, perBlock: nat)
    returns (lines: seq<Line>, ghost traced: seq<Interval>, ghost s: seq<BF.Entry>, ghost which: seq<nat>,
      ghost pss: seq<seq<BF.Piece>>)
    requires WellFormed(fs) && NoSharing(fs) && fs.apb > 0 && Distinct(inos) && forall i <- inos :: i in fs.inodes
    requires perBlock > 0
    ensures forall b: nat :: Covers(traced, b) <==> BF.IsTraced(sectors, partitionStart, perBlock, b)
    ensures StoredAll(fs, traced, inos, s) && AllUnbroken(fs, traced, s)
    ensures BF.PartitionRanges(sectors, partitionStart, which)
    ensures BF.RangeGroups(s, sectors, partitionStart, perBlock, which, pss)
    ensures LinesFrom(s, BF.AllLines(pss), lines)
    ensures forall firstIno: nat :: ListsExactly(fs, inos, traced, lines, firstIno)
  {
    hide StoredAll, AllUnbroken, WellFormed, NoSharing, Intervals.Separated, BF.OrderedMap, BF.RightPiece, BF.ToBlocks,
      BF.MapsTo, BF.DisjointEntries, BF.RangesSplit, BF.InPiece, Covers, ListsExactly, BF.IsTraced,
      BF.PartitionRanges, BF.Aligned, BF.RangeGroups, BF.Inside;
    var blocks := BF.LoadBlocks(sectors, partitionStart, perBlock);
    var bm := MapBlocks(fs, inos, blocks);
    BF.SortedMap(bm.bmap);
    var sorted := Sort(bm.bmap, (e: BF.Entry) => e.block);
    SortedStored(fs, blocks, inos, bm.bmap, sorted);
    var ranges := BF.ToBlocks(sectors, partitionStart, perBlock);
    ghost var split;
    var pieces;
    pieces, split := BF.DumpTimes(sorted, ranges);
    lines, traced, s, pss := LinesOf(pieces), blocks, sorted, split;
    which := BF.Inside(sectors, partitionStart);
    BF.InsideRanges(sectors, partitionStart);
    BF.ToBlocksAligned(sectors, partitionStart, perBlock);
    BF.SplitGroups(s, sectors, partitionStart, perBlock, which, ranges, pss);
    OrderedDisjoint(sorted);
    forall b: nat | Covers(traced, b) ensures exists p <- pieces :: BF.InPiece(p, b) {
      TracedPrinted(s, sectors, partitionStart, perBlock, which, ranges, pss, b);
    }
    forall firstIno: nat ensures ListsExactly(fs, inos, traced, lines, firstIno) {
      ListIsExact(fs, traced, inos, s, pieces, lines, firstIno);
    }
  }
}
