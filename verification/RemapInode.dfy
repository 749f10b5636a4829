/** Rewriting the block pointers of one inode after its blocks have been copied. */
module RemapInode {
  import opened Ext2
  import opened BlockTree
  import opened Traverse
  import opened FreeRuns
  import opened RemapBlocks

  // ----- The walk of one inode

  /** The slots of a walk that hold a block. */
  ghost function Present(fs: Fs, w: seq<Slot>): seq<Slot> {
    if w == [] then []
    else Present(fs, w[..|w| - 1]) + if Ptr(fs, w[|w| - 1]) == 0 then [] else [w[|w| - 1]]
  }

  ghost function Visited(fs: Fs, ino: nat): seq<Slot> {
    Present(fs, InodeWalk(fs.apb, ino, 0))
  }

  ghost function MetOf(fs: Fs, v: seq<Slot>): seq<Met> {
    seq(|v|, (k: nat) requires k < |v| => Met(CodeAt(fs.apb, v, k), Ptr(fs, v[k])))
  }

  lemma {:induction false} PresentMembers(fs: Fs, w: seq<Slot>)
    ensures forall q :: q in Present(fs, w) <==> q in w && Ptr(fs, q) != 0
  {
    if w != [] {
      var n := |w| - 1;
      PresentMembers(fs, w[..n]);
      assert w == w[..n] + [w[n]];
    }
  }

  lemma {:induction false} PresentIncreasing(fs: Fs, w: seq<Slot>)
    requires Increasing(fs.apb, w)
    ensures Increasing(fs.apb, Present(fs, w))
  {
    hide First, SlotKey, Ptr;
    if w != [] {
      var n := |w| - 1;
      var p := Present(fs, w[..n]);
      assert Increasing(fs.apb, w[..n]) by {
        assert forall q <- w[..n] :: q in w;
      }
      PresentIncreasing(fs, w[..n]);
      PresentMembers(fs, w[..n]);
      forall q | q in p ensures SlotKey(fs.apb, q) < SlotKey(fs.apb, w[n]) {
        var i :| 0 <= i < n && w[i] == q;
      }
      assert w[n] in w;
    }
  }

  /** The walk visits the slots of the inode that hold a block, parents first. */
  lemma VisitedIsVisit(fs: Fs, ino: nat)
    requires WellFormed(fs) && fs.apb > 0 && ino in fs.inodes
    ensures Visit(fs.apb, ino, Visited(fs, ino))
    ensures forall q :: q in Visited(fs, ino) <==> ValidSlot(fs, q) && q.ino == ino && Ptr(fs, q) != 0
  {
    hide Present, InodeWalk, First, SlotKey;
    var w := InodeWalk(fs.apb, ino, 0);
    InodeWalkOrder(fs.apb, ino, 0);
    PresentIncreasing(fs, w);
    PresentMembers(fs, w);
    forall q ensures q in w <==> ValidSlot(fs, q) && q.ino == ino {
      InodeWalkMembers(fs.apb, ino, 0, q);
    }
    var v := Visited(fs, ino);
    forall q | q in v ensures InTree(fs.apb, q) && q.ino == ino && (q.path != [] ==> Parent(q) in v) {
      if q.path != [] {
        ParentValid(fs, q);
      }
    }
  }

  lemma WalkCodeDepth(fs: Fs, v: seq<Slot>, k: nat)
    requires k < |v| && ValidSlot(fs, v[k])
    ensures CodeAt(fs.apb, v, k) < 0 ==> OffToDepth(CodeAt(fs.apb, v, k)) < 3
  {
    hide First, TravAfter, IndexToOffset;
  }

  /**
    The walk of an inode meets ascending codes exactly if no left-over index overtakes the next block, and the
    documented ones exactly where no index is left over.
   */
  lemma MetAscends(fs: Fs, ino: nat)
    requires WellFormed(fs) && fs.apb > 0 && ino in fs.inodes
    ensures var v := Visited(fs, ino);
      && (Ascending(MetOf(fs, v)) <==> forall k | 0 <= k < |v| :: !OvertakenAt(v, k))
      && forall k | 0 <= k < |v| :: MetOf(fs, v)[k].code == Code(fs.apb, v[k]) <==> !StaleAt(v, k)
  {
    hide Visited, First, ZoneStart, Span, StaleAt, OvertakenAt, CmpCode, Key, Code, CodeAt, OffToDepth, Visit, Ptr;
    var v := Visited(fs, ino);
    var met := MetOf(fs, v);
    VisitedIsVisit(fs, ino);
    forall k | 0 <= k < |v|
      ensures (met[k].code == Code(fs.apb, v[k]) <==> !StaleAt(v, k)) && (met[k].code < 0 ==> OffToDepth(met[k].code) < 3)
    {
      assert v[k] in v;
      CodeRight(fs.apb, ino, v, k);
      WalkCodeDepth(fs, v, k);
    }
    CodesAscend(fs.apb, ino, v);
    forall i, j | 0 <= i < j < |met|
      ensures Key(met[i].code) < Key(met[j].code) <==> CmpCode(CodeAt(fs.apb, v, i), CodeAt(fs.apb, v, j)) < 0
    {
      CmpIsKeyOrder(met[i].code, met[j].code);
    }
  }

  /** The blocks that a walk meets are on the device. */
  lemma MetOnDevice(fs: Fs, ino: nat)
    requires WellFormed(fs) && fs.apb > 0 && ino in fs.inodes
    ensures forall m <- MetOf(fs, Visited(fs, ino)) :: m.block < |fs.disk|
  {
    hide Visited, CodeAt, Ptr;
    var v := Visited(fs, ino);
    VisitedIsVisit(fs, ino);
    forall m | m in MetOf(fs, v) ensures m.block < |fs.disk| {
      var k :| 0 <= k < |MetOf(fs, v)| && MetOf(fs, v)[k] == m;
      assert v[k] in v;
    }
  }

  /** Where a left-over index overtakes the next block, the walk meets a larger code first. */
  lemma OvertakenDescends(fs: Fs, ino: nat, k: nat)
    requires WellFormed(fs) && fs.apb > 0 && ino in fs.inodes
    requires k < |Visited(fs, ino)| && OvertakenAt(Visited(fs, ino), k)
    ensures var met := MetOf(fs, Visited(fs, ino)); k + 1 < |met| && Key(met[k + 1].code) < Key(met[k].code)
  {
    hide Visited, CodeAt, Ptr, Key, SlotKey, LastInd;
    var v := Visited(fs, ino);
    VisitedIsVisit(fs, ino);
    NextCode(fs.apb, ino, v, k);
    DifferentCodes(fs.apb, ino, v, k);
  }

  /** The keys of the two blocks differ in the level. */
  lemma DifferentCodes(apb: nat, ino: nat, v: seq<Slot>, k: nat)
    requires apb > 0 && Visit(apb, ino, v) && k < |v| && OvertakenAt(v, k)
    ensures Key(CodeAt(apb, v, k)) != Key(CodeAt(apb, v, k + 1))
  {
    hide CodeAt, Key, First, LastInd;
    CodeAtKey(apb, ino, v, k);
    CodeAtKey(apb, ino, v, k + 1);
    AfterDouble(apb, ino, v, k);
  }

  /**
    The walk of an inode changes every listed block of every list whose extents are mapped, sorted and do not interleave,
    if and only if the codes it meets ascend.
   */
  lemma ChangesEveryIff(fs: Fs, ino: nat, runs: seq<FreeExtent>, total: nat)
    requires WellFormed(fs) && fs.apb > 0 && ino in fs.inodes
    requires total > 0 && forall o: nat | o < total :: Target(runs, o) < |fs.disk|
    ensures ChangesEvery(runs, total, |fs.disk|, MetOf(fs, Visited(fs, ino))) <==> Ascending(MetOf(fs, Visited(fs, ino)))
  {
    hide Visited, MetOf, WellFormed, Ascending, Separated, SortedList, Mapped, GoodTargets, AllChanged, OvertakenAt, Key,
      Target;
    var v := Visited(fs, ino);
    var met := MetOf(fs, v);
    MetOnDevice(fs, ino);
    MetAscends(fs, ino);
    if Ascending(met) {
      forall exts: seq<Extent> | Mapped(exts, met) && SortedList(exts) && Separated(exts)
          && GoodTargets(exts, runs, total, |fs.disk|)
        ensures AllChanged(exts, runs, total, |fs.disk|, met)
      {
        SeparatedIff(exts, runs, total, |fs.disk|, met);
      }
    } else {
      var k :| 0 <= k < |v| && OvertakenAt(v, k);
      OvertakenDescends(fs, ino, k);
      DescentSkips(met, k, runs, total, |fs.disk|);
    }
  }

  lemma VisitedDistinct(apb: nat, ino: nat, v: seq<Slot>, i: nat, j: nat)
    requires Visit(apb, ino, v) && i < j < |v|
    ensures v[i] != v[j]
  {}

  lemma ParentEarlier(apb: nat, ino: nat, v: seq<Slot>, i: nat, k: nat)
    requires apb > 0 && Visit(apb, ino, v) && i < |v| && k < |v|
    requires v[k].path != [] && v[i] == Parent(v[k])
    ensures i < k
  {
    assert v[i] in v && v[k] in v;
    KeyStrict(apb, v[i], v[k]);
  }

  // ----- The state of the rewriting

  /** Where the block met at step `i` belongs after the walk. */
  ghost function Want(exts: seq<Extent>, runs: seq<FreeExtent>, m: Met): nat {
    if Listed(exts, m.code) then NewPlace(exts, runs, m.code) else m.block
  }

  /** The first `k` visited blocks have their new pointers; the copies of the others are still in place. */
  ghost predicate WalkedTo(fs1: Fs, fs: Fs, v: seq<Slot>, met: seq<Met>, exts: seq<Extent>, runs: seq<FreeExtent>,
                           k: nat)
    requires |met| == |v| && k <= |v|
  {
    && SameFiles(fs1, fs) && NoSharing(fs)
    && |fs.disk| == |fs1.disk|
    && (forall i | 0 <= i < |v| :: Ptr(fs, v[i]) == if i < k then Want(exts, runs, met[i]) else met[i].block)
    && (forall q :: ValidSlot(fs1, q) && q !in v ==> Ptr(fs, q) == Ptr(fs1, q))
    && (forall i | k <= i < |v| && Listed(exts, met[i].code) :: ReadyCopy(fs, met[i].block, NewPlace(exts, runs, met[i].code)))
  }

  ghost predicate ReadyCopy(fs: Fs, block: nat, t: nat) {
    0 < t < |fs.disk| && block < |fs.disk| && !Referenced(fs, t) && fs.disk[t] == fs.disk[block]
  }

  /** Listed blocks go to different places. */
  ghost predicate DistinctPlaces(met: seq<Met>, exts: seq<Extent>, runs: seq<FreeExtent>) {
    forall i, j | 0 <= i < j < |met| && Listed(exts, met[i].code) && Listed(exts, met[j].code) ::
      NewPlace(exts, runs, met[i].code) != NewPlace(exts, runs, met[j].code)
  }

  lemma StepMoves(fs1: Fs, fs: Fs, ino: nat, v: seq<Slot>, met: seq<Met>, exts: seq<Extent>, runs: seq<FreeExtent>,
                  k: nat)
    requires |met| == |v| && k < |v| && fs1.apb > 0 && Visit(fs1.apb, ino, v)
    requires forall q <- v :: ValidSlot(fs1, q)
    requires WalkedTo(fs1, fs, v, met, exts, runs, k) && DistinctPlaces(met, exts, runs)
    requires Listed(exts, met[k].code) && met[k].block != 0
    ensures CanMove(fs, v[k], NewPlace(exts, runs, met[k].code))
    ensures WalkedTo(fs1, RePoint(fs, v[k], NewPlace(exts, runs, met[k].code)), v, met, exts, runs, k + 1)
  {
    hide Ptr, NewPlace, Visit;
    var q, t := v[k], NewPlace(exts, runs, met[k].code);
    assert q in v && ValidSlot(fs, q);
    assert CanMove(fs, q, t);
    MoveKeeps(fs, q, t);
    var fs' := RePoint(fs, q, t);
    SameFilesTransitive(fs1, fs, fs');
    HomeInRange(fs, q);
    if q.path != [] {
      ParentValid(fs, q);
    }
    assert |fs'.disk| == |fs1.disk|;
    forall i | 0 <= i < |v| ensures Ptr(fs', v[i]) == if i < k + 1 then Want(exts, runs, met[i]) else met[i].block {
      assert v[i] in v;
      if i != k {
        DistinctSlots(fs1.apb, ino, v, i, k);
      }
    }
    forall i | k + 1 <= i < |v| && Listed(exts, met[i].code)
      ensures ReadyCopy(fs', met[i].block, NewPlace(exts, runs, met[i].code))
    {
      PendingCopy(fs1, fs, ino, v, met, exts, runs, k, i);
    }
  }

  lemma DistinctSlots(apb: nat, ino: nat, v: seq<Slot>, i: nat, k: nat)
    requires Visit(apb, ino, v) && i < |v| && k < |v| && i != k
    ensures v[i] != v[k]
  {
    if i < k {
      VisitedDistinct(apb, ino, v, i, k);
    } else {
      VisitedDistinct(apb, ino, v, k, i);
    }
  }

  lemma PendingCopy(fs1: Fs, fs: Fs, ino: nat, v: seq<Slot>, met: seq<Met>, exts: seq<Extent>, runs: seq<FreeExtent>,
                    k: nat, i: nat)
    requires |met| == |v| && k < i < |v| && fs1.apb > 0 && Visit(fs1.apb, ino, v)
    requires forall q <- v :: ValidSlot(fs1, q)
    requires WalkedTo(fs1, fs, v, met, exts, runs, k) && DistinctPlaces(met, exts, runs)
    requires Listed(exts, met[k].code) && met[k].block != 0 && Listed(exts, met[i].code)
    requires CanMove(fs, v[k], NewPlace(exts, runs, met[k].code))
    requires Moved(fs, RePoint(fs, v[k], NewPlace(exts, runs, met[k].code)), v[k], NewPlace(exts, runs, met[k].code))
    ensures ReadyCopy(RePoint(fs, v[k], NewPlace(exts, runs, met[k].code)), met[i].block, NewPlace(exts, runs, met[i].code))
  {
    hide Ptr, NewPlace, Visit, Listed;
    var q, t, u := v[k], NewPlace(exts, runs, met[k].code), NewPlace(exts, runs, met[i].code);
    var fs' := RePoint(fs, q, t);
    assert v[i] in v && q in v;
    HomeInRange(fs, q);
    if q.path != [] {
      ParentValid(fs, q);
      var p := Parent(q);
      assert Referenced(fs, Home(fs, q));
      if Home(fs, q) == met[i].block {
        assert Ptr(fs, v[i]) == Ptr(fs, p);
        assert v[i] == p;
        ParentEarlier(fs1.apb, ino, v, i, k);
      }
    }
    forall s | ValidSlot(fs', s) ensures Ptr(fs', s) != u {
      assert ValidSlot(fs, s);
      assert Referenced(fs, Ptr(fs, s));
    }
  }

  // ----- The walk as the program runs it

  /** The traversal data of the callback. */
  class BlockTraverse {
    var depth: int
    var treeInd0: nat
    var treeInd1: nat
    var actext: nat

    ghost function State(): Trav
      reads this
    {
      Trav(depth, treeInd0, treeInd1)
    }

    constructor ()
      ensures State() == TRAV_START && actext == 0
    {
      depth, treeInd0, treeInd1, actext := -1, 0, 0, 0;
    }

    /** Updates the tree indices for an indirect block. */
    method Descend(s: Slot)
      modifies `depth, `treeInd0, `treeInd1
      ensures State() == NextTrav(old(State()), s)
    {
      match Level(s)
      case 0 =>
      case 1 =>
        if depth < 0 {
          depth := 0;
        } else {
          treeInd0 := ParentIndex(s);
        }
      case 2 =>
        if depth < 1 {
          depth, treeInd0 := 1, 0;
        } else {
          treeInd1 := ParentIndex(s);
        }
      case _ =>
        if depth < 2 {
          depth, treeInd0, treeInd1 := 2, 0, 0;
        }
    }

    /** The callback of the block iterator. */
    method RemapBlock(apb: nat, s: Slot, block: nat, exts: seq<Extent>, runs: seq<FreeExtent>, total: nat,
                      blocksCount: nat)
      returns (v: Verdict)
      requires actext < |exts| && OffsetsTile(runs, 0, total)
      modifies this
      ensures State() == NextTrav(old(State()), s)
      ensures var code := WalkCode(apb, State(), s);
        && v == Decide(exts, runs, total, blocksCount, old(actext), code, block)
        && actext == if block >= blocksCount then old(actext) else Advance(exts, old(actext), code)
      ensures v == Keep || v.Change? ==> actext < |exts|
      ensures var code := WalkCode(apb, State(), s);
        && (v.Change? ==> v.to < blocksCount && exists x <- exts ::
            Names(x, code, block) && var o: nat := Chunk(x, code); o < total && v.to == Target(runs, o))
        && (v == BlockChanged ==> exists x <- exts :: Lists(x, code) && !Names(x, code, block))
        && (block >= blocksCount ==> v == IllegalBlock)
    {
      ghost var act0, s0 := actext, State();
      VerdictMeans(exts, runs, total, blocksCount, act0, WalkCode(apb, NextTrav(s0, s), s), block);
      Descend(s);
      var offset := WalkCode(apb, Trav(depth, treeInd0, treeInd1), s);
      if block >= blocksCount {
        return IllegalBlock;
      }
      if CmpCode(offset, exts[actext].offset + exts[actext].len - 1) > 0 {
        actext := actext + 1;
        if actext == |exts| {
          return Abort;
        }
      }
      var x := exts[actext];
      if offset >= x.offset && offset < x.offset + x.len {
        var freeext := FindRemappedOffset(runs, total, x.chunkOffset + (offset - x.offset));
        if block != x.block + (offset - x.offset) {
          return BlockChanged;
        }
        if freeext.None? {
          return NoRun;
        }
        var t := freeext.value.block + (x.chunkOffset + (offset - x.offset) - freeext.value.offset);
        v := if t >= blocksCount then IllegalBlock else Change(t);
      } else {
        v := Keep;
      }
    }
  }

  /** The open device and the inodes of its file system. */
  class Volume {
    const apb: nat
    var disk: seq<Block>
    var inodes: map<nat, seq<nat>>

    function Files(): Fs
      reads `disk, `inodes
    {
      Fs(apb, disk, inodes)
    }

    constructor (fs: Fs)
      ensures Files() == fs
    {
      apb, disk, inodes := fs.apb, fs.disk, fs.inodes;
    }

    /** Stores a new block number in a slot that holds one. */
    method SetPointer(s: Slot, t: nat)
      requires Ptr(Files(), s) != 0
      modifies `disk, `inodes
      ensures WellFormed(old(Files())) && ValidSlot(old(Files()), s) ==> Files() == RePoint(old(Files()), s, t)
    {
      if s.path == [] {
        inodes := inodes[s.ino := SetWord(inodes[s.ino], s.top, t)];
      } else {
        var p := Ptr(Files(), Parent(s));
        disk := disk[p := SetWord(disk[p], Last(s), t)];
      }
    }
  }

  /** The blocks of an inode that its walk is right to change, whatever the list is. */
  ghost function TakenIn(fs: Fs, ino: nat, exts: seq<Extent>): seq<Extent> {
    TakenAll(exts, MetOf(fs, Visited(fs, ino)))
  }

  /** No block that the walk looks up is named differently by the list. */
  ghost predicate Agrees(fs: Fs, ino: nat, exts: seq<Extent>) {
    NoneWrong(exts, MetOf(fs, Visited(fs, ino)))
  }

  /** Where the walk meets the codes of a list that does not interleave, it agrees exactly with lists that are mapped. */
  lemma AgreesIff(fs: Fs, ino: nat, exts: seq<Extent>)
    requires Ascending(MetOf(fs, Visited(fs, ino))) && Separated(exts) && CodesMet(exts, MetOf(fs, Visited(fs, ino)))
    ensures Agrees(fs, ino, exts) <==> Mapped(exts, MetOf(fs, Visited(fs, ino)))
  {
    hide Ascending, Separated, CodesMet, NoneWrong, Mapped, Visited, MetOf;
    NoneWrongIff(exts, MetOf(fs, Visited(fs, ino)));
  }

  /** What makes the rewriting of an inode safe: the copies of the blocks that are changed wait in their places. */
  ghost predicate Steady(fs: Fs, ino: nat, exts: seq<Extent>, runs: seq<FreeExtent>, total: nat) {
    var met, t := MetOf(fs, Visited(fs, ino)), TakenIn(fs, ino, exts);
    && WellFormed(fs) && NoSharing(fs) && fs.apb > 0 && ino in fs.inodes && exts != []
    && Ascending(met)
    && GoodTargets(t, runs, total, |fs.disk|)
    && DistinctPlaces(met, t, runs)
    && forall m <- met | Listed(t, m.code) :: ReadyCopy(fs, m.block, NewPlace(t, runs, m.code))
  }

  /** The same for a list that fits the walk: all its blocks are changed. */
  ghost predicate Ready(fs: Fs, ino: nat, exts: seq<Extent>, runs: seq<FreeExtent>, total: nat) {
    var met := MetOf(fs, Visited(fs, ino));
    && WellFormed(fs) && NoSharing(fs) && fs.apb > 0 && ino in fs.inodes && exts != []
    && Ascending(met) && Mapped(exts, met) && Separated(exts)
    && GoodTargets(exts, runs, total, |fs.disk|)
    && DistinctPlaces(met, exts, runs)
    && forall m <- met | Listed(exts, m.code) :: ReadyCopy(fs, m.block, NewPlace(exts, runs, m.code))
  }

  /** The rewriting did what it should: listed blocks are in their new place, everything else is where it was. */
  ghost predicate Remapped(fs: Fs, fs': Fs, ino: nat, exts: seq<Extent>, runs: seq<FreeExtent>) {
    var v := Visited(fs, ino);
    WalkedTo(fs, fs', v, MetOf(fs, v), exts, runs, |v|)
  }

  lemma WalkStart(fs: Fs, ino: nat, exts: seq<Extent>, runs: seq<FreeExtent>, total: nat)
    requires Steady(fs, ino, exts, runs, total)
    ensures var v := Visited(fs, ino);
      WalkedTo(fs, fs, v, MetOf(fs, v), TakenIn(fs, ino, exts), runs, 0)
  {
    hide TakenIn, Listed, NewPlace, GoodTargets, DistinctPlaces, Ascending, ReadyCopy, WellFormed, NoSharing, Visited,
      Ptr, CodeAt;
    var v, t := Visited(fs, ino), TakenIn(fs, ino, exts);
    SameFilesSelf(fs);
    CopiesWait(fs, MetOf(fs, v), t, runs);
  }

  lemma SameFilesSelf(fs: Fs)
    requires WellFormed(fs)
    ensures SameFiles(fs, fs)
  {
    hide WellFormed;
  }

  lemma CopiesWait(fs: Fs, met: seq<Met>, t: seq<Extent>, runs: seq<FreeExtent>)
    requires forall m <- met | Listed(t, m.code) :: ReadyCopy(fs, m.block, NewPlace(t, runs, m.code))
    ensures forall i | 0 <= i < |met| && Listed(t, met[i].code) :: ReadyCopy(fs, met[i].block, NewPlace(t, runs, met[i].code))
  {
    hide Listed, NewPlace, ReadyCopy;
  }

  /** A list that fits is changed in full. */
  lemma ReadyIsSteady(fs: Fs, ino: nat, exts: seq<Extent>, runs: seq<FreeExtent>, total: nat)
    requires Ready(fs, ino, exts, runs, total)
    ensures Steady(fs, ino, exts, runs, total) && Agrees(fs, ino, exts)
  {
    hide TakenIn, Listed, NewPlace, GoodTargets, Ascending, Mapped, Separated, WellFormed, NoSharing, Visited, MetOf,
      WrongAt, ReadyCopy;
    var met, t := MetOf(fs, Visited(fs, ino)), TakenIn(fs, ino, exts);
    forall k | 0 <= k < |met|
      ensures !WrongAt(exts, met, k) && (Listed(t, met[k].code) <==> Listed(exts, met[k].code))
      ensures Listed(exts, met[k].code) ==> NewPlace(t, runs, met[k].code) == NewPlace(exts, runs, met[k].code)
    {
      TakenInIs(fs, ino, exts);
      FittingTaken(exts, met, runs, k);
    }
    TakenInIs(fs, ino, exts);
    TakenTargets(exts, met, runs, total, |fs.disk|);
  }

  lemma TakenInIs(fs: Fs, ino: nat, exts: seq<Extent>)
    ensures TakenIn(fs, ino, exts) == TakenAll(exts, MetOf(fs, Visited(fs, ino)))
  {}

  lemma ReadyIsRemapped(fs: Fs, fs': Fs, ino: nat, exts: seq<Extent>, runs: seq<FreeExtent>, total: nat)
    requires Ready(fs, ino, exts, runs, total) && Remapped(fs, fs', ino, TakenIn(fs, ino, exts), runs)
    ensures Remapped(fs, fs', ino, exts, runs)
  {
    hide TakenIn, Listed, NewPlace, GoodTargets, Ascending, Mapped, Separated, WellFormed, NoSharing, Visited, CodeAt,
      ReadyCopy, Ptr, SameFiles, DistinctPlaces;
    var v := Visited(fs, ino);
    var met := MetOf(fs, v);
    TakenInIs(fs, ino, exts);
    forall k | 0 <= k < |met|
      ensures Want(TakenIn(fs, ino, exts), runs, met[k]) == Want(exts, runs, met[k])
    {
      FittingTaken(exts, met, runs, k);
    }
  }

  lemma WalkAborted(fs: Fs, fs': Fs, v: seq<Slot>, met: seq<Met>, exts: seq<Extent>, runs: seq<FreeExtent>, k: nat)
    requires |met| == |v| && k <= |v| && WalkedTo(fs, fs', v, met, exts, runs, k)
    requires forall j | k <= j < |v| :: !Listed(exts, met[j].code)
    ensures WalkedTo(fs, fs', v, met, exts, runs, |v|)
  {}

  lemma KeepStep(fs: Fs, fs': Fs, v: seq<Slot>, met: seq<Met>, exts: seq<Extent>, runs: seq<FreeExtent>, k: nat)
    requires |met| == |v| && k < |v| && WalkedTo(fs, fs', v, met, exts, runs, k)
    requires !Listed(exts, met[k].code)
    ensures WalkedTo(fs, fs', v, met, exts, runs, k + 1)
  {}

  lemma {:induction false} PresentPrefix(fs: Fs, w: seq<Slot>, m: nat)
    requires m <= |w|
    ensures Present(fs, w[..m]) <= Present(fs, w)
  {
    if m < |w| {
      var n := |w| - 1;
      assert w[..n][..m] == w[..m];
      PresentPrefix(fs, w[..n], m);
    } else {
      assert w[..m] == w;
    }
  }

  lemma PresentNext(fs: Fs, w: seq<Slot>, m: nat)
    requires m < |w|
    ensures Present(fs, w[..m + 1]) == Present(fs, w[..m]) + if Ptr(fs, w[m]) == 0 then [] else [w[m]]
  {
    assert w[..m + 1][..m] == w[..m];
  }

  /** Of the first `m` slots of the walk, `k` hold a block. */
  ghost predicate AtSlot(fs1: Fs, ino: nat, m: nat, k: nat) {
    var w, v := InodeWalk(fs1.apb, ino, 0), Visited(fs1, ino);
    m <= |w| && k <= |v| && Present(fs1, w[..m]) == v[..k]
  }

  lemma SlotInWalk(apb: nat, ino: nat, m: nat)
    requires apb > 0 && m < |InodeWalk(apb, ino, 0)|
    ensures var w := InodeWalk(apb, ino, 0);
      InTree(apb, w[m]) && w[m].ino == ino && w[m] !in w[..m]
  {
    var w := InodeWalk(apb, ino, 0);
    InodeWalkMembers(apb, ino, 0, w[m]);
    InodeWalkOrder(apb, ino, 0);
    forall i | 0 <= i < m ensures w[..m][i] != w[m] {
      assert SlotKey(apb, w[i]) < SlotKey(apb, w[m]);
    }
  }

  /** What comes next on the walk. */
  lemma SlotNext(fs1: Fs, ino: nat, m: nat, k: nat)
    requires fs1.apb > 0 && ino in fs1.inodes
    requires AtSlot(fs1, ino, m, k) && m < |InodeWalk(fs1.apb, ino, 0)|
    ensures var s, v := InodeWalk(fs1.apb, ino, 0)[m], Visited(fs1, ino);
      && ValidSlot(fs1, s) && s !in v[..k]
      && if Ptr(fs1, s) == 0 then AtSlot(fs1, ino, m + 1, k)
         else k < |v| && v[k] == s && AtSlot(fs1, ino, m + 1, k + 1)
  {
    hide Present, InodeWalk, Ptr;
    var w, v := InodeWalk(fs1.apb, ino, 0), Visited(fs1, ino);
    SlotInWalk(fs1.apb, ino, m);
    PresentMembers(fs1, w[..m]);
    PresentNext(fs1, w, m);
    PresentPrefix(fs1, w, m + 1);
    if Ptr(fs1, w[m]) != 0 {
      assert v[..k + 1] == v[..k] + [w[m]];
    }
  }

  /** The state of the rewriting before the `k`-th visited block. */
  ghost predicate Passing(fs1: Fs, fs: Fs, ino: nat, exts: seq<Extent>, runs: seq<FreeExtent>, k: nat, trav: Trav,
                          act: nat) {
    var v := Visited(fs1, ino);
    && k <= |v|
    && WalkedTo(fs1, fs, v, MetOf(fs1, v), TakenIn(fs1, ino, exts), runs, k)
    && trav == TravAfter(v[..k]) && act == ActAt(exts, MetOf(fs1, v), k) && act < |exts|
    && forall j | 0 <= j < k :: !WrongAt(exts, MetOf(fs1, v), j)
  }

  lemma WalkBegins(fs: Fs, ino: nat, exts: seq<Extent>, runs: seq<FreeExtent>, total: nat)
    requires Steady(fs, ino, exts, runs, total)
    ensures AtSlot(fs, ino, 0, 0) && Passing(fs, fs, ino, exts, runs, 0, TRAV_START, 0)
  {
    hide WalkedTo, TakenIn;
    WalkStart(fs, ino, exts, runs, total);
    var w, v := InodeWalk(fs.apb, ino, 0), Visited(fs, ino);
    assert w[..0] == [] && v[..0] == [];
  }

  lemma WalkEnds(fs1: Fs, fs: Fs, ino: nat, exts: seq<Extent>, runs: seq<FreeExtent>, m: nat, k: nat, trav: Trav,
                 act: nat)
    requires AtSlot(fs1, ino, m, k) && m == |InodeWalk(fs1.apb, ino, 0)|
    requires Passing(fs1, fs, ino, exts, runs, k, trav, act)
    ensures Remapped(fs1, fs, ino, TakenIn(fs1, ino, exts), runs) && Agrees(fs1, ino, exts)
  {
    hide Present, InodeWalk, Ptr, NewPlace, SameFiles, ReadyCopy, TravAfter, TakenIn, ActAt, WrongAt;
    var w, v := InodeWalk(fs1.apb, ino, 0), Visited(fs1, ino);
    assert w[..m] == w && |v[..k]| == k;
  }

  /** A slot that the walk has not passed yet still has its old pointer. */
  lemma UnpassedPtr(fs1: Fs, fs: Fs, ino: nat, exts: seq<Extent>, runs: seq<FreeExtent>, k: nat, trav: Trav,
                    act: nat, s: Slot)
    requires Passing(fs1, fs, ino, exts, runs, k, trav, act)
    requires ValidSlot(fs1, s) && s !in Visited(fs1, ino)[..k]
    ensures Ptr(fs, s) == Ptr(fs1, s) && ValidSlot(fs, s)
  {
    hide Ptr, Visited, TravAfter, ActAt, WrongAt, TakenIn, CodeAt;
    var v := Visited(fs1, ino);
    assert forall i | 0 <= i < k :: v[..k][i] == v[i];
    if s in v {
      var i :| 0 <= i < |v| && v[i] == s;
      assert i >= k;
    }
  }

  /** The verdict about the block in slot `s`, with the extent and traversal data after it. */
  ghost predicate PassOk(fs1: Fs, fs: Fs, ino: nat, exts: seq<Extent>, runs: seq<FreeExtent>, k: nat, s: Slot,
                         d: Verdict, t: Trav, a: nat)
  {
    && (d == Keep || d == Abort || d.Change? || d == BlockChanged)
    && (d == Keep ==> Passing(fs1, fs, ino, exts, runs, k + 1, t, a))
    && (d == Abort ==> Remapped(fs1, fs, ino, TakenIn(fs1, ino, exts), runs) && Agrees(fs1, ino, exts))
    && (d == BlockChanged ==> !Agrees(fs1, ino, exts))
    && (d.Change? ==> CanMove(fs, s, d.to) && Passing(fs1, RePoint(fs, s, d.to), ino, exts, runs, k + 1, t, a))
  }

  lemma MetNow(fs1: Fs, fs: Fs, ino: nat, exts: seq<Extent>, runs: seq<FreeExtent>, k: nat, trav: Trav, act: nat)
    requires WellFormed(fs1) && fs1.apb > 0 && ino in fs1.inodes
    requires Passing(fs1, fs, ino, exts, runs, k, trav, act) && k < |Visited(fs1, ino)|
    ensures var v, met := Visited(fs1, ino), MetOf(fs1, Visited(fs1, ino));
      && ValidSlot(fs1, v[k]) && Ptr(fs, v[k]) == met[k].block && 0 < met[k].block < |fs1.disk|
      && met[k].code == WalkCode(fs1.apb, NextTrav(trav, v[k]), v[k])
      && TravAfter(v[..k + 1]) == NextTrav(trav, v[k])
  {
    hide InodeWalk, Present, First, SlotKey, ActAt, WrongAt, TakenIn, SameFiles, NoSharing, Visit, WalkCode, NextTrav, Code, Ptr;
    var v := Visited(fs1, ino);
    VisitedIsVisit(fs1, ino);
    assert v[k] in v;
    assert v[..k + 1][..k] == v[..k] && v[..k + 1][k] == v[k];
  }

  /** What is known about the visited block met next. */
  lemma StepFacts(fs1: Fs, fs: Fs, ino: nat, exts: seq<Extent>, runs: seq<FreeExtent>, total: nat, k: nat,
                  trav: Trav, act: nat)
    requires Steady(fs1, ino, exts, runs, total) && Passing(fs1, fs, ino, exts, runs, k, trav, act)
    requires k < |Visited(fs1, ino)|
    ensures var v, met, t := Visited(fs1, ino), MetOf(fs1, Visited(fs1, ino)), TakenIn(fs1, ino, exts);
      && |met| == |v| && Visit(fs1.apb, ino, v) && (forall q <- v :: ValidSlot(fs1, q))
      && t == TakenAll(exts, met)
      && Ascending(met) && GoodTargets(t, runs, total, |fs1.disk|) && DistinctPlaces(met, t, runs)
      && WalkedTo(fs1, fs, v, met, t, runs, k) && act == ActAt(exts, met, k) && act < |exts|
      && forall j | 0 <= j < k :: !WrongAt(exts, met, j)
  {
    hide Visited, MetOf, InodeWalk, TravAfter, WalkedTo, Ptr, CodeAt, ActAt, WrongAt,
      NewPlace, Ascending, GoodTargets, DistinctPlaces, NoSharing, Visit, ReadyCopy, WellFormed, Listed;
    VisitedIsVisit(fs1, ino);
    MetOfLength(fs1, Visited(fs1, ino));
  }

  lemma MetOfLength(fs: Fs, v: seq<Slot>)
    ensures |MetOf(fs, v)| == |v|
  {}

  /** The walk stops at step `k`: there is nothing more that it would have changed. */
  lemma AbortEnds(fs1: Fs, fs: Fs, ino: nat, exts: seq<Extent>, runs: seq<FreeExtent>, v: seq<Slot>, met: seq<Met>,
                  k: nat)
    requires v == Visited(fs1, ino) && met == MetOf(fs1, v) && |met| == |v| && k < |v| && Ascending(met)
    requires WalkedTo(fs1, fs, v, met, TakenAll(exts, met), runs, k)
    requires (forall j | 0 <= j < k :: !WrongAt(exts, met, j)) && ActAt(exts, met, k + 1) == |exts|
    ensures Remapped(fs1, fs, ino, TakenIn(fs1, ino, exts), runs) && Agrees(fs1, ino, exts)
  {
    hide Visited, MetOf, ActAt, WalkedTo, TakenAll, Listed, Ascending, NewPlace, Ptr;
    forall j | k <= j < |v| ensures !WrongAt(exts, met, j) && !Listed(TakenAll(exts, met), met[j].code) {
      if j > k {
        StoppedReaches(exts, met, k + 1, j);
      }
      TakenListed(exts, met, runs, j);
    }
    WalkAborted(fs1, fs, v, met, TakenAll(exts, met), runs, k);
  }

  /** One visited block. */
  lemma PassNext(fs1: Fs, fs: Fs, ino: nat, exts: seq<Extent>, runs: seq<FreeExtent>, total: nat, k: nat, trav: Trav,
                 act: nat, s: Slot)
    requires Steady(fs1, ino, exts, runs, total) && Passing(fs1, fs, ino, exts, runs, k, trav, act)
    requires k < |Visited(fs1, ino)| && s == Visited(fs1, ino)[k] && act < |exts|
    ensures Ptr(fs, s) < |fs1.disk|
    ensures var t := NextTrav(trav, s);
      var code := WalkCode(fs1.apb, t, s);
      var d := Decide(exts, runs, total, |fs1.disk|, act, code, Ptr(fs, s));
      PassOk(fs1, fs, ino, exts, runs, k, s, d, t, Advance(exts, act, code))
  {
    hide Visited, MetOf, InodeWalk, WalkCode, TravAfter, NextTrav, Decide, WalkedTo, Ptr, CodeAt, Advance, ActAt,
      TakenAll, TakenIn, RightAt, WrongAt,
      NewPlace, Ascending, GoodTargets, DistinctPlaces, NoSharing, Visit, ReadyCopy, WellFormed, Listed;
    var v := Visited(fs1, ino);
    var met := MetOf(fs1, v);
    var taken := TakenIn(fs1, ino, exts);
    StepFacts(fs1, fs, ino, exts, runs, total, k, trav, act);
    MetNow(fs1, fs, ino, exts, runs, k, trav, act);
    AnyStep(exts, runs, total, |fs1.disk|, met, k);
    TakenListed(exts, met, runs, k);
    RightOrWrong(exts, met, k);
    var d := Decide(exts, runs, total, |fs1.disk|, act, met[k].code, met[k].block);
    if d.Change? {
      StepMoves(fs1, fs, ino, v, met, taken, runs, k);
    } else if d == Abort {
      AbortEnds(fs1, fs, ino, exts, runs, v, met, k);
    } else if d == Keep {
      KeepStep(fs1, fs, v, met, taken, runs, k);
    }
  }

  lemma RightOrWrong(exts: seq<Extent>, met: seq<Met>, k: nat)
    requires k < |met|
    ensures ActAt(exts, met, k + 1) <= |exts|
    ensures !(RightAt(exts, met, k) && WrongAt(exts, met, k))
  {}

  lemma PassUse(fs1: Fs, fs: Fs, ino: nat, exts: seq<Extent>, runs: seq<FreeExtent>, k: nat, s: Slot, d: Verdict,
                t: Trav, a: nat)
    requires WellFormed(fs) && ValidSlot(fs, s)
    ensures PassOk(fs1, fs, ino, exts, runs, k, s, d, t, a) ==>
      && (d == Keep || d == Abort || d.Change? || d == BlockChanged)
      && (d == Keep ==> Passing(fs1, fs, ino, exts, runs, k + 1, t, a))
      && (d == Abort ==> Remapped(fs1, fs, ino, TakenIn(fs1, ino, exts), runs) && Agrees(fs1, ino, exts))
      && (d == BlockChanged ==> !Agrees(fs1, ino, exts))
      && (d.Change? ==> Ptr(fs, s) != 0 && Passing(fs1, RePoint(fs, s, d.to), ino, exts, runs, k + 1, t, a))
  {
    hide Passing, Ptr, WellFormed, Remapped, Agrees, TakenIn;
  }

  /** One slot of the walk. */
  lemma WalkNext(fs1: Fs, fs: Fs, ino: nat, exts: seq<Extent>, runs: seq<FreeExtent>, total: nat, m: nat, k: nat,
                 trav: Trav, act: nat)
    requires Steady(fs1, ino, exts, runs, total) && Passing(fs1, fs, ino, exts, runs, k, trav, act)
    requires AtSlot(fs1, ino, m, k) && m < |InodeWalk(fs1.apb, ino, 0)| && act < |exts|
    ensures var s := InodeWalk(fs1.apb, ino, 0)[m];
      var block, t := Ptr(fs, s), NextTrav(trav, s);
      var code := WalkCode(fs1.apb, t, s);
      && ValidSlot(fs, s) && WellFormed(fs)
      && if block == 0 then AtSlot(fs1, ino, m + 1, k)
         else
           && AtSlot(fs1, ino, m + 1, k + 1) && block < |fs1.disk|
           && var d := Decide(exts, runs, total, |fs1.disk|, act, code, block);
              PassOk(fs1, fs, ino, exts, runs, k, s, d, t, Advance(exts, act, code))
  {
    hide Visited, MetOf, InodeWalk, WalkCode, TravAfter, NextTrav, Decide, NoSharing, Ptr, CodeAt, Advance, ActAt, TakenIn,
      NewPlace, Ascending, GoodTargets, DistinctPlaces, Visit, ReadyCopy, WellFormed, Listed, AtSlot, PassOk;
    var s := InodeWalk(fs1.apb, ino, 0)[m];
    SlotNext(fs1, ino, m, k);
    UnpassedPtr(fs1, fs, ino, exts, runs, k, trav, act, s);
    if Ptr(fs, s) != 0 {
      PassNext(fs1, fs, ino, exts, runs, total, k, trav, act, s);
    }
  }

  /** The rewriting has passed `m` slots of the walk. */
  ghost predicate AtWalk(fs1: Fs, fs: Fs, ino: nat, exts: seq<Extent>, runs: seq<FreeExtent>, total: nat, m: nat,
                         k: nat,
                         trav: Trav, act: nat)
  {
    && Steady(fs1, ino, exts, runs, total) && m <= |InodeWalk(fs1.apb, ino, 0)|
    && AtSlot(fs1, ino, m, k) && Passing(fs1, fs, ino, exts, runs, k, trav, act)
  }

  /** The callback for one block, and the pointer it changes. */
  method VisitBlock(vol: Volume, tdata: BlockTraverse, s: Slot, block: nat, exts: seq<Extent>, runs: seq<FreeExtent>,
                    total: nat,
                    blocksCount: nat)
    returns (v: Verdict)
    requires tdata.actext < |exts| && OffsetsTile(runs, 0, total) && block == Ptr(vol.Files(), s) != 0
    modifies vol`disk, vol`inodes, tdata
    ensures tdata.State() == NextTrav(old(tdata.State()), s)
    ensures var code := WalkCode(vol.apb, tdata.State(), s);
      && v == Decide(exts, runs, total, blocksCount, old(tdata.actext), code, block)
      && (block < blocksCount ==> tdata.actext == Advance(exts, old(tdata.actext), code))
    ensures v == Keep || v.Change? ==> tdata.actext < |exts|
    ensures !v.Change? ==> vol.Files() == old(vol.Files())
    ensures v.Change? && WellFormed(old(vol.Files())) && ValidSlot(old(vol.Files()), s) ==>
      vol.Files() == RePoint(old(vol.Files()), s, v.to)
  {
    hide *;
    v := tdata.RemapBlock(vol.apb, s, block, exts, runs, total, blocksCount);
    if v.Change? {
      vol.SetPointer(s, v.to);
    }
  }

  lemma NextSlot(fs1: Fs, fs: Fs, ino: nat, exts: seq<Extent>, runs: seq<FreeExtent>, total: nat, m: nat, k: nat,
                 trav: Trav, act: nat)
    requires AtWalk(fs1, fs, ino, exts, runs, total, m, k, trav, act)
    requires m < |InodeWalk(fs1.apb, ino, 0)| && act < |exts|
    ensures var s := InodeWalk(fs1.apb, ino, 0)[m];
      var block, t := Ptr(fs, s), NextTrav(trav, s);
      var code := WalkCode(fs1.apb, t, s);
      && ValidSlot(fs, s) && WellFormed(fs) && |fs.disk| == |fs1.disk|
      && if block == 0 then AtWalk(fs1, fs, ino, exts, runs, total, m + 1, k, trav, act)
         else
           var d, a := Decide(exts, runs, total, |fs1.disk|, act, code, block), Advance(exts, act, code);
           && block < |fs1.disk| && (d == Keep || d == Abort || d.Change? || d == BlockChanged)
           && (d == Keep ==> AtWalk(fs1, fs, ino, exts, runs, total, m + 1, k + 1, t, a))
           && (d == Abort ==> Remapped(fs1, fs, ino, TakenIn(fs1, ino, exts), runs) && Agrees(fs1, ino, exts))
           && (d == BlockChanged ==> !Agrees(fs1, ino, exts))
           && (d.Change? ==> Ptr(fs, s) != 0 && AtWalk(fs1, RePoint(fs, s, d.to), ino, exts, runs, total, m + 1, k + 1, t, a))
  {
    hide Steady, Passing, AtSlot, PassOk, InodeWalk, Decide, Advance, NextTrav, WalkCode, Ptr, WellFormed, ValidSlot,
      RePoint, Remapped, Agrees, TakenIn;
    WalkNext(fs1, fs, ino, exts, runs, total, m, k, trav, act);
    SameSize(fs1, fs, ino, exts, runs, k, trav, act);
    var s := InodeWalk(fs1.apb, ino, 0)[m];
    var block, t := Ptr(fs, s), NextTrav(trav, s);
    var code := WalkCode(fs1.apb, t, s);
    PassUse(fs1, fs, ino, exts, runs, k, s, Decide(exts, runs, total, |fs1.disk|, act, code, block), t, Advance(exts,
      act, code));
  }

  lemma SameSize(fs1: Fs, fs: Fs, ino: nat, exts: seq<Extent>, runs: seq<FreeExtent>, k: nat, trav: Trav, act: nat)
    requires Passing(fs1, fs, ino, exts, runs, k, trav, act)
    ensures |fs.disk| == |fs1.disk| && fs.apb == fs1.apb
  {
    hide Visited, TravAfter, ActAt, WrongAt, TakenIn, NewPlace, Ptr, NoSharing, ReadyCopy;
  }

  /** One slot of the walk. */
  method PassSlot(vol: Volume, tdata: BlockTraverse, ino: nat, s: Slot, exts: seq<Extent>, runs: seq<FreeExtent>,
                  total: nat,
                  blocksCount: nat, ghost fs1: Fs, ghost m: nat, ghost k: nat)
    returns (v: Verdict, ghost k': nat)
    requires tdata.actext < |exts| && OffsetsTile(runs, 0, total)
    requires vol.apb == fs1.apb && blocksCount == |fs1.disk|
    requires m < |InodeWalk(fs1.apb, ino, 0)| && s == InodeWalk(fs1.apb, ino, 0)[m]
    modifies vol`disk, vol`inodes, tdata
    ensures v == Keep || v.Change? ==> tdata.actext < |exts|
    ensures old(AtWalk(fs1, vol.Files(), ino, exts, runs, total, m, k, tdata.State(), tdata.actext)) ==>
      && (v == Keep || v == Abort || v.Change? || v == BlockChanged)
      && (v == Abort ==> Remapped(fs1, vol.Files(), ino, TakenIn(fs1, ino, exts), runs) && Agrees(fs1, ino, exts))
      && (v == BlockChanged ==> !Agrees(fs1, ino, exts))
      && (v == Keep || v.Change? ==> AtWalk(fs1, vol.Files(), ino, exts, runs, total, m + 1, k', tdata.State(), tdata.actext))
  {
    hide *;
    var block := Ptr(vol.Files(), s);
    if AtWalk(fs1, vol.Files(), ino, exts, runs, total, m, k, tdata.State(), tdata.actext) {
      NextSlot(fs1, vol.Files(), ino, exts, runs, total, m, k, tdata.State(), tdata.actext);
    }
    v, k' := Keep, k;
    if block != 0 {
      v := VisitBlock(vol, tdata, s, block, exts, runs, total, blocksCount);
      k' := k + 1;
    }
  }

  lemma WalkStarts(fs: Fs, ino: nat, exts: seq<Extent>, runs: seq<FreeExtent>, total: nat)
    requires Steady(fs, ino, exts, runs, total)
    ensures AtWalk(fs, fs, ino, exts, runs, total, 0, 0, TRAV_START, 0)
  {
    hide Steady, AtSlot, Passing;
    WalkBegins(fs, ino, exts, runs, total);
  }

  lemma WalkDone(fs1: Fs, fs: Fs, ino: nat, exts: seq<Extent>, runs: seq<FreeExtent>, total: nat, m: nat, k: nat,
                 trav: Trav, act: nat)
    requires AtWalk(fs1, fs, ino, exts, runs, total, m, k, trav, act) && m == |InodeWalk(fs1.apb, ino, 0)|
    ensures Remapped(fs1, fs, ino, TakenIn(fs1, ino, exts), runs) && Agrees(fs1, ino, exts)
  {
    hide Steady, AtSlot, Passing;
    WalkEnds(fs1, fs, ino, exts, runs, m, k, trav, act);
  }

  /**
    Walks over the blocks of an inode and rewrites the pointers of those that an extent lists. `ok` is false where the
    program exits with an error: in a walk that meets ascending codes, exactly if it looks up a block that the list names
    differently. Otherwise it changes the blocks it looks up, which are all listed ones if the list fits the walk.
   */
  method RemapInodeBlocks(vol: Volume, ino: nat, exts: seq<Extent>, runs: seq<FreeExtent>,
                          total: nat) returns (ok: bool)
    requires exts != [] && OffsetsTile(runs, 0, total)
    modifies vol`disk, vol`inodes
    ensures Steady(old(vol.Files()), ino, exts, runs, total) ==>
      && (ok <==> Agrees(old(vol.Files()), ino, exts))
      && (ok ==> Remapped(old(vol.Files()), vol.Files(), ino, TakenIn(old(vol.Files()), ino, exts), runs))
    ensures Ready(old(vol.Files()), ino, exts, runs, total) ==>
      ok && Remapped(old(vol.Files()), vol.Files(), ino, exts, runs)
  {
    hide Ready, Steady, Remapped, Agrees, TakenIn, AtWalk, InodeWalk, OffsetsTile, Visited, Present, WalkedTo;
    ghost var fs1 := vol.Files();
    if Ready(fs1, ino, exts, runs, total) {
      ReadyIsSteady(fs1, ino, exts, runs, total);
    }
    ok := WalkInode(vol, ino, exts, runs, total);
    if Ready(fs1, ino, exts, runs, total) {
      ReadyIsRemapped(fs1, vol.Files(), ino, exts, runs, total);
    }
  }

  /** The iteration over the blocks of an inode. */
  method WalkInode(vol: Volume, ino: nat, exts: seq<Extent>, runs: seq<FreeExtent>, total: nat) returns (ok: bool)
    requires exts != [] && OffsetsTile(runs, 0, total)
    modifies vol`disk, vol`inodes
    ensures Steady(old(vol.Files()), ino, exts, runs, total) ==>
      && (ok <==> Agrees(old(vol.Files()), ino, exts))
      && (ok ==> Remapped(old(vol.Files()), vol.Files(), ino, TakenIn(old(vol.Files()), ino, exts), runs))
  {
    hide Steady, Remapped, Agrees, TakenIn, AtWalk, InodeWalk, OffsetsTile, Visited, Present, WalkedTo;
    ghost var fs1 := vol.Files();
    ghost var steady := Steady(fs1, ino, exts, runs, total);
    var w := InodeWalk(vol.apb, ino, 0);
    var tdata := new BlockTraverse();
    var blocksCount := |vol.disk|;
    if steady {
      WalkStarts(fs1, ino, exts, runs, total);
    }
    var m: nat := 0;
    ghost var k: nat := 0;
    while m < |w|
      invariant m <= |w| && tdata.actext < |exts|
      invariant steady ==> AtWalk(fs1, vol.Files(), ino, exts, runs, total, m, k, tdata.State(), tdata.actext)
    {
      var v;
      v, k := PassSlot(vol, tdata, ino, w[m], exts, runs, total, blocksCount, fs1, m, k);
      if v == Abort {
        return true;
      }
      if v != Keep && !v.Change? {
        return false;
      }
      m := m + 1;
    }
    if steady {
      WalkDone(fs1, vol.Files(), ino, exts, runs, total, m, k, tdata.State(), tdata.actext);
    }
    ok := true;
  }
}
