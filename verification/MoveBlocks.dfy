/** e2moveblocks: moving the blocks of files one at a time into a free area, in the order of a layout. */
module MoveBlocks {
  import opened Arithmetic
  import opened Ext2
  import opened Estimate
  import GC = GroupCounts

  // ----- What a run starts from

  /** The area that blocks are moved to. */
  datatype Area = Area(start: nat, size: nat) {
    predicate In(b: nat) {
      start <= b < start + size
    }
  }

  /** The state at the start of the moves. */
  datatype Start = Start(fs: Fs, used: seq<bool>, free: seq<int>, lay: GC.Layout, area: Area)

  /** No block is shared, the bitmap and the counts are right, and the area is free. */
  ghost predicate GoodStart(st: Start) {
    && WellFormed(st.fs) && NoSharing(st.fs) && st.fs.apb >= NDIR
    && |st.used| == |st.fs.disk|
    && (forall b | 0 < b < |st.used| && Referenced(st.fs, b) :: st.used[b])
    && GC.Accounted(st.lay, st.used, st.free)
    && 0 < st.area.start && st.area.start + st.area.size <= |st.used|
    && forall b | st.area.start <= b < st.area.start + st.area.size :: !st.used[b]
  }

  /** The blocks behind `order` have been moved to the area one after the other; nothing else has changed. */
  ghost predicate Running(st: Start, v: Fs, used: seq<bool>, free: seq<int>, order: seq<Slot>) {
    && SameFiles(st.fs, v) && NoSharing(v) && |v.disk| == |st.fs.disk|
    && |order| <= st.area.size
    && (forall i | 0 <= i < |order| :: ValidSlot(st.fs, order[i]) && Ptr(st.fs, order[i]) != 0 && Ptr(v, order[i]) == st.area.start + i)
    && (forall q :: ValidSlot(st.fs, q) && q !in order ==> Ptr(v, q) == Ptr(st.fs, q))
    && BitmapFollows(st.fs, v, st.used, used)
    && GC.Accounted(st.lay, used, free) && GC.Sum(free) == GC.Sum(st.free)
  }

  lemma RunStarts(st: Start)
    requires GoodStart(st)
    ensures Running(st, st.fs, st.used, st.free, [])
  {
    hide Ptr, NoSharing, GC.Accounted;
  }

  /** Slots moved lie in the area, in order; all others outside. */
  lemma MovedIn(st: Start, v: Fs, used: seq<bool>, free: seq<int>, order: seq<Slot>, q: Slot)
    requires GoodStart(st) && Running(st, v, used, free, order) && ValidSlot(v, q)
    ensures q in order <==> st.area.In(Ptr(v, q))
    ensures Ptr(v, q) == 0 <==> Ptr(st.fs, q) == 0
    ensures Ptr(v, q) != 0 ==> Ptr(v, q) < |used| && used[Ptr(v, q)]
    ensures Ptr(v, q) < |v.disk| && ValidSlot(st.fs, q)
  {
    hide Ptr, NoSharing, GC.Accounted;
    assert ValidSlot(st.fs, q);
    assert Referenced(v, Ptr(v, q)) && Referenced(st.fs, Ptr(st.fs, q));
  }

  /** The used blocks of the area are a prefix of it. */
  lemma AreaPrefix(st: Start, v: Fs, used: seq<bool>, free: seq<int>, order: seq<Slot>, b: nat)
    requires GoodStart(st) && Running(st, v, used, free, order) && st.area.In(b)
    ensures used[b] <==> b < st.area.start + |order|
  {
    hide Ptr, NoSharing, GC.Accounted;
    if b < st.area.start + |order| {
      var q := order[b - st.area.start];
      assert ValidSlot(v, q) && Ptr(v, q) == b;
    } else {
      forall q | ValidSlot(v, q) ensures Ptr(v, q) != b {
        MovedIn(st, v, used, free, order, q);
        if q in order {
          var i :| 0 <= i < |order| && order[i] == q;
        }
      }
    }
  }

  // ----- One move

  /** The counts after a block of one group has been freed and one of another marked. */
  function FreeAfter(lay: GC.Layout, free: seq<int>, block: nat, t: nat): (r: seq<int>)
    requires lay.perGroup > 0 && lay.firstData <= block && lay.firstData <= t
    requires lay.GroupOf(block) < |free| && lay.GroupOf(t) < |free|
    ensures |r| == |free|
  {
    var f := free[lay.GroupOf(block) := free[lay.GroupOf(block)] + 1];
    f[lay.GroupOf(t) := f[lay.GroupOf(t)] - 1]
  }

  /** Setting or clearing one bit and adjusting its count keeps the counts right. */
  lemma OneBit(lay: GC.Layout, used: seq<bool>, free: seq<int>, b: nat, v: bool)
    requires GC.Accounted(lay, used, free) && lay.firstData <= b < |used| && used[b] != v
    ensures lay.GroupOf(b) < |free|
    ensures var g := lay.GroupOf(b);
      var free' := free[g := free[g] + GC.Signed(!v, 1)];
      GC.Accounted(lay, used[b := v], free') && GC.Sum(free') == GC.Sum(free) + GC.Signed(!v, 1)
  {
    hide GC.Sum, GC.Accounted, GC.Signed, GC.SetBits, GC.Adjusted;
    GroupKnown(lay, used, free, b);
    var g := lay.GroupOf(b);
    var r := GC.Range(b, 1);
    GC.GroupHolds(lay, b);
    GC.SumUpdate(free, g, free[g] + GC.Signed(!v, 1));
    GC.AdjustedNone(lay, |used|, free, !v, b);
    GC.AdjustedMore(lay, |used|, free, free, !v, b, b, b + 1);
    GC.AccountedStays(lay, used, free, free[g := free[g] + GC.Signed(!v, 1)], r, v);
    SetOne(used, b, v);
  }

  lemma GroupKnown(lay: GC.Layout, used: seq<bool>, free: seq<int>, b: nat)
    requires GC.Accounted(lay, used, free) && lay.firstData <= b < |used|
    ensures lay.Valid() && lay.GroupOf(b) < |free|
  {}

  lemma SetOne(used: seq<bool>, b: nat, v: bool)
    requires b < |used|
    ensures GC.SetBits(used, GC.Range(b, 1), v) == used[b := v]
  {}

  lemma FreeAfterIs(lay: GC.Layout, free: seq<int>, block: nat, t: nat, f1: seq<int>)
    requires lay.perGroup > 0 && lay.firstData <= block && lay.firstData <= t
    requires lay.GroupOf(block) < |free| && lay.GroupOf(t) < |free|
    requires f1 == free[lay.GroupOf(block) := free[lay.GroupOf(block)] + 1]
    ensures FreeAfter(lay, free, block, t) == f1[lay.GroupOf(t) := f1[lay.GroupOf(t)] + GC.Signed(false, 1)]
  {
    hide GC.Layout.GroupOf;
  }

  lemma SwapBits(used: seq<bool>, block: nat, t: nat)
    requires block < |used| && t < |used| && block != t
    ensures used[block := false][t := true] == used[t := true][block := false]
  {}

  lemma MoveCounts(lay: GC.Layout, used: seq<bool>, free: seq<int>, block: nat, t: nat)
    requires lay.Valid() && GC.Accounted(lay, used, free) && lay.firstData <= block < |used| && lay.firstData <= t < |used|
    requires used[block] && !used[t]
    ensures lay.GroupOf(block) < |free| && lay.GroupOf(t) < |free|
    ensures GC.Accounted(lay, used[t := true][block := false], FreeAfter(lay, free, block, t))
    ensures GC.Sum(FreeAfter(lay, free, block, t)) == GC.Sum(free)
  {
    hide GC.Sum, GC.Accounted, GC.Layout.GroupOf, FreeAfter;
    OneBit(lay, used, free, block, false);
    var f1 := free[lay.GroupOf(block) := free[lay.GroupOf(block)] + 1];
    var u1 := used[block := false];
    OneBit(lay, u1, f1, t, true);
    FreeAfterIs(lay, free, block, t, f1);
    SwapBits(used, block, t);
  }

  /** The file system after block `t` has received a copy and slot `s` has been pointed to it. */
  ghost function CopyOf(v: Fs, block: nat, t: nat): Fs
    requires block < |v.disk| && t < |v.disk|
  {
    v.(disk := v.disk[t := v.disk[block]])
  }

  lemma CopyFirst(st: Start, v: Fs, used: seq<bool>, free: seq<int>, order: seq<Slot>, s: Slot)
    requires GoodStart(st) && Running(st, v, used, free, order) && |order| < st.area.size
    requires ValidSlot(v, s) && Ptr(v, s) != 0 && Ptr(v, s) < |v.disk|
    ensures var t := st.area.start + |order|;
      && t < |v.disk| && !used[t] && !Referenced(v, t)
      && var v1 := CopyOf(v, Ptr(v, s), t);
      && SameFiles(v, v1) && NoSharing(v1) && CanMove(v1, s, t)
      && forall q :: ValidSlot(v, q) ==> Ptr(v1, q) == Ptr(v, q)
  {
    hide Ptr, NoSharing, GC.Accounted;
    var t := st.area.start + |order|;
    AreaPrefix(st, v, used, free, order, t);
    var v1 := CopyOf(v, Ptr(v, s), t);
    CopyUnused(v, Ptr(v, s), t);
    UnusedWritesKeep(v, v1);
    assert Ptr(v1, s) == Ptr(v, s) && t != Ptr(v, s);
  }

  lemma CopyUnused(v: Fs, block: nat, t: nat)
    requires WellFormed(v) && block < |v.disk| && 0 < t < |v.disk| && !Referenced(v, t)
    ensures SameUsedBlocks(v, CopyOf(v, block, t))
  {
    hide Ptr, Referenced;
  }

  /** One move keeps everything, and takes the next block of the area. */
  lemma MoveStep(st: Start, v: Fs, used: seq<bool>, free: seq<int>, order: seq<Slot>, s: Slot)
    requires GoodStart(st) && Running(st, v, used, free, order) && |order| < st.area.size
    requires ValidSlot(v, s) && Ptr(v, s) != 0 && s !in order
    ensures var block, t := Ptr(v, s), st.area.start + |order|;
      && block < |v.disk| && t < |v.disk| && used[block] && !used[t]
      && st.lay.perGroup > 0 && st.lay.firstData <= block && st.lay.firstData <= t
      && st.lay.GroupOf(block) < |free| && st.lay.GroupOf(t) < |free|
      && CanMove(CopyOf(v, block, t), s, t)
      && Running(st, RePoint(CopyOf(v, block, t), s, t), used[t := true][block := false], FreeAfter(st.lay, free, block, t), order + [s])
  {
    hide Ptr, NoSharing, GC.Accounted, GC.Sum, SameFiles, Referenced, WellFormed;
    var block, t := Ptr(v, s), st.area.start + |order|;
    MovedIn(st, v, used, free, order, s);
    CopyFirst(st, v, used, free, order, s);
    var v1 := CopyOf(v, block, t);
    MoveKeeps(v1, s, t);
    var v2 := RePoint(v1, s, t);
    LayoutValid(st);
    MoveCounts(st.lay, used, free, block, t);
    SameFilesTransitive(st.fs, v, v1);
    SameFilesTransitive(st.fs, v1, v2);
    SameDisk(v1, s, t);
    SlotsMove(st, v, v1, v2, used, free, order, s, t);
    BitmapMoves(st, v, v1, v2, used, free, order, s, t);
  }

  lemma LayoutValid(st: Start)
    requires GoodStart(st)
    ensures st.lay.Valid()
  {}

  lemma SameDisk(v: Fs, s: Slot, t: nat)
    requires CanMove(v, s, t)
    ensures |RePoint(v, s, t).disk| == |v.disk|
  {}

  lemma SlotsMove(st: Start, v: Fs, v1: Fs, v2: Fs, used: seq<bool>, free: seq<int>, order: seq<Slot>, s: Slot, t: nat)
    requires GoodStart(st) && Running(st, v, used, free, order) && t == st.area.start + |order|
    requires ValidSlot(v, s) && Ptr(v, s) != 0 && s !in order
    requires SameFiles(v, v1) && (forall q :: ValidSlot(v, q) ==> Ptr(v1, q) == Ptr(v, q)) && Moved(v1, v2, s, t)
    ensures forall i | 0 <= i < |order + [s]| ::
      var q := (order + [s])[i]; ValidSlot(st.fs, q) && Ptr(st.fs, q) != 0 && Ptr(v2, q) == st.area.start + i
    ensures forall q :: ValidSlot(st.fs, q) && q !in order + [s] ==> Ptr(v2, q) == Ptr(st.fs, q)
  {
    hide Ptr, NoSharing, GC.Accounted, GC.Sum, Referenced, WellFormed;
    var more := order + [s];
    MovedIn(st, v, used, free, order, s);
    forall i | 0 <= i < |more|
      ensures ValidSlot(st.fs, more[i]) && Ptr(st.fs, more[i]) != 0 && Ptr(v2, more[i]) == st.area.start + i
    {
      if i < |order| {
        assert more[i] == order[i] && order[i] in order;
        assert ValidSlot(v, order[i]);
      }
    }
    forall q | ValidSlot(st.fs, q) && q !in more ensures Ptr(v2, q) == Ptr(st.fs, q) {
      assert q !in order && q != s && ValidSlot(v, q);
    }
  }

  lemma BitmapMoves(st: Start, v: Fs, v1: Fs, v2: Fs, used: seq<bool>, free: seq<int>, order: seq<Slot>, s: Slot,
                    t: nat)
    requires GoodStart(st) && Running(st, v, used, free, order) && t < |used| && !Referenced(v, t)
    requires ValidSlot(v, s) && 0 < Ptr(v, s) < |used| && t > 0
    requires SameFiles(v, v1) && (forall q :: ValidSlot(v, q) ==> Ptr(v1, q) == Ptr(v, q)) && Moved(v1, v2, s, t)
    ensures BitmapFollows(st.fs, v2, st.used, used[t := true][Ptr(v, s) := false])
  {
  }

  // ----- The order in which blocks are moved

  /** A range of a file to move. */
  datatype Relocation = Relocation(ino: nat, offset: nat, count: nat)

  /** A slot that holds a block is moved when it is first met. */
  ghost function Append(fs: Fs, order: seq<Slot>, s: Slot): seq<Slot> {
    if Ptr(fs, s) != 0 && s !in order then order + [s] else order
  }

  ghost function AppendPath(fs: Fs, order: seq<Slot>, path: seq<Slot>): seq<Slot> {
    if path == [] then order else Append(fs, AppendPath(fs, order, path[..|path| - 1]), path[|path| - 1])
  }

  /** The slots that moving the block at an offset goes through; blocks below triple-indirect ones are not moved. */
  function MovePath(apb: nat, ino: nat, o: nat): seq<Slot>
    requires apb > 0
  {
    if Is3Indirect(apb, o) then [] else PathTo(apb, ino, o)
  }

  ghost function AppendRange(fs: Fs, order: seq<Slot>, ino: nat, o: nat, n: nat): seq<Slot>
    requires fs.apb > 0
  {
    if n == 0 then order else AppendPath(fs, AppendRange(fs, order, ino, o, n - 1), MovePath(fs.apb, ino, o + n - 1))
  }

  /** The slots of all blocks that a layout moves, in order. */
  ghost function MoveOrder(fs: Fs, layout: seq<Relocation>): seq<Slot>
    requires fs.apb > 0
  {
    if layout == [] then []
    else
      var r := layout[|layout| - 1];
      AppendRange(fs, MoveOrder(fs, layout[..|layout| - 1]), r.ino, r.offset, r.count)
  }

  lemma {:induction false} PathGrows(fs: Fs, order: seq<Slot>, path: seq<Slot>)
    ensures order <= AppendPath(fs, order, path)
  {
    hide Ptr;
    if path != [] {
      PathGrows(fs, order, path[..|path| - 1]);
    }
  }

  lemma {:induction false} RangeGrows(fs: Fs, order: seq<Slot>, ino: nat, o: nat, n: nat, k: nat)
    requires fs.apb > 0 && k <= n
    ensures AppendRange(fs, order, ino, o, k) <= AppendRange(fs, order, ino, o, n)
  {
    hide AppendPath;
    if k < n {
      RangeGrows(fs, order, ino, o, n - 1, k);
      PathGrows(fs, AppendRange(fs, order, ino, o, n - 1), MovePath(fs.apb, ino, o + n - 1));
    }
  }

  lemma {:induction false} OrderGrows(fs: Fs, layout: seq<Relocation>, k: nat)
    requires fs.apb > 0 && k <= |layout|
    ensures MoveOrder(fs, layout[..k]) <= MoveOrder(fs, layout)
  {
    hide AppendRange;
    if k < |layout| {
      var n := |layout| - 1;
      assert layout[..n][..k] == layout[..k];
      OrderGrows(fs, layout[..n], k);
      RangeGrows(fs, MoveOrder(fs, layout[..n]), layout[n].ino, layout[n].offset, layout[n].count, 0);
      RangeNone(fs, MoveOrder(fs, layout[..n]), layout[n].ino, layout[n].offset);
    } else {
      assert layout[..k] == layout;
    }
  }

  lemma RangeNone(fs: Fs, order: seq<Slot>, ino: nat, o: nat)
    requires fs.apb > 0
    ensures AppendRange(fs, order, ino, o, 0) == order
  {}

  // ----- The program

  /** The state between two moves. */
  ghost predicate At(st: Start, v: Fs, used: seq<bool>, free: seq<int>, order: seq<Slot>, target: nat) {
    GoodStart(st) && Running(st, v, used, free, order) && target == st.area.start + |order|
  }

  /** The file system, bitmap and counts after the block behind `s` has moved to `t`. */
  ghost predicate CanStep(st: Start, v: Fs, used: seq<bool>, free: seq<int>, order: seq<Slot>, s: Slot, t: nat) {
    var block := Ptr(v, s);
    && block < |v.disk| && t < |v.disk| && |used| == |v.disk| && used[block] && !used[t]
    && st.lay.perGroup > 0 && st.lay.firstData <= block && st.lay.firstData <= t
    && st.lay.GroupOf(block) < |free| && st.lay.GroupOf(t) < |free|
    && CanMove(CopyOf(v, block, t), s, t)
    && At(st, RePoint(CopyOf(v, block, t), s, t), used[t := true][block := false], FreeAfter(st.lay, free, block, t), order + [s], t + 1)
  }

  /** The program works in the area the state was set up for, and `more` blocks fit into it. */
  ghost predicate Fitting(st: Start, lay: GC.Layout, area: Area, more: seq<Slot>) {
    st.lay == lay && st.area == area && |more| <= area.size
  }

  lemma InodeSize(st: Start, v: Fs, used: seq<bool>, free: seq<int>, order: seq<Slot>, target: nat, ino: nat)
    requires At(st, v, used, free, order, target) && ino in v.inodes
    ensures |v.inodes[ino]| == N_BLOCKS
  {}

  /** What happens to one slot: a hole or a block already in the area is left alone, any other block is moved. */
  lemma Decision(st: Start, v: Fs, used: seq<bool>, free: seq<int>, order: seq<Slot>, s: Slot, target: nat)
    requires At(st, v, used, free, order, target) && ValidSlot(v, s)
    requires |Append(st.fs, order, s)| <= st.area.size
    ensures var block := Ptr(v, s);
      if block == 0 || st.area.In(block) then Append(st.fs, order, s) == order
      else Append(st.fs, order, s) == order + [s] && CanStep(st, v, used, free, order, s, target)
  {
    hide Ptr, GoodStart, Running, RePoint, CanMove, GC.Layout.GroupOf, FreeAfter;
    MovedIn(st, v, used, free, order, s);
    if Ptr(v, s) != 0 && s !in order {
      MoveStep(st, v, used, free, order, s);
      UsedSize(st, v, used, free, order);
    }
  }

  lemma UsedSize(st: Start, v: Fs, used: seq<bool>, free: seq<int>, order: seq<Slot>)
    requires GoodStart(st) && Running(st, v, used, free, order)
    ensures |used| == |v.disk|
  {}

  /** The open file system: the device, the inodes, the block bitmap and the group descriptors. */
  class FsInfo {
    const apb: nat
    const lay: GC.Layout
    var disk: seq<Block>
    var inodes: map<nat, seq<nat>>
    var used: seq<bool>
    var free: seq<int>

    constructor (fs: Fs, used: seq<bool>, free: seq<int>, lay: GC.Layout)
      ensures Files() == fs && this.used == used && this.free == free && this.lay == lay
    {
      apb, disk, inodes, this.used, this.free, this.lay := fs.apb, fs.disk, fs.inodes, used, free, lay;
    }

    ghost function Files(): Fs
      reads `disk, `inodes
    {
      Fs(apb, disk, inodes)
    }

    /** The files as they are once the inode in memory has been written back. */
    ghost function View(ino: nat, local: seq<nat>): Fs
      reads `disk, `inodes
    {
      Fs(apb, disk, inodes[ino := local])
    }

    /** The bitmap and the group descriptors cover the device. */
    ghost predicate Valid()
      reads `disk, `used, `free
    {
      && lay.Valid() && |used| == |disk|
      && forall b: nat | lay.firstData <= b < |used| :: lay.GroupOf(b) < |free|
    }

    predicate Marked(b: nat)
      reads `used
    {
      lay.firstData <= b < |used| && used[b]
    }

    /** Copies a block and updates the bitmap. */
    method RelocateRawBlock(source: nat, target: nat) returns (ok: bool)
      requires Valid() && lay.firstData <= target
      modifies `disk, `used, `free
      ensures Valid() && |disk| == |old(disk)|
      ensures ok <==> old(Marked(source)) && !old(Marked(target)) && target < |disk|
      ensures !ok ==> disk == old(disk) && used == old(used) && free == old(free)
      ensures ok ==> disk == old(disk)[target := old(disk)[source]] && used == old(used)[target := true][source := false]
      ensures ok ==> free == FreeAfter(lay, old(free), source, target)
    {
      if !Marked(source) {
        return false;
      }
      if Marked(target) {
        return false;
      }
      if target >= |disk| {
        return false;
      }
      var buf := disk[source];
      disk := disk[target := buf];
      used := used[target := true];
      used := used[source := false];
      var g := lay.GroupOf(source);
      free := free[g := free[g] + 1];
      var h := lay.GroupOf(target);
      free := free[h := free[h] - 1];
      ok := true;
    }

    /** The block behind an entry of the inode in memory. */
    method RelocateBlockInInode(local: seq<nat>, index: nat, target: nat, area: Area, ghost st: Start,
                                ghost ino: nat, ghost order: seq<Slot>)
      returns (ok: bool, local': seq<nat>, target': nat)
      requires Valid() && lay.firstData <= target && index < |local| && index < N_BLOCKS
      modifies `disk, `used, `free
      ensures Valid() && |local'| == |local| && lay.firstData <= target'
      ensures
        var s := Slot(ino, index, []);
        var more := Append(st.fs, order, s);
        Fitting(st, lay, area, more) && old(At(st, View(ino, local), used, free, order, target)) ==>
        && ok && At(st, View(ino, local'), used, free, more, target')
        && Ptr(View(ino, local'), s) == local'[index]
    {
      hide At, Append, RePoint, CanMove, CopyOf, FreeAfter, GC.Layout.GroupOf, ValidSlot;
      ghost var s := Slot(ino, index, []);
      ghost var v := View(ino, local);
      ghost var good := Fitting(st, lay, area, Append(st.fs, order, s)) && At(st, v, used, free, order, target);
      if good {
        InodeSize(st, v, used, free, order, target, ino);
        TopSlot(v, ino, index);
        Decision(st, v, used, free, order, s, target);
      }
      local', target' := local, target;
      var block := local[index];
      if block == 0 {
        return true, local, target;
      }
      if area.In(block) {
        return true, local, target;
      }
      ok := RelocateRawBlock(block, target);
      if !ok {
        return;
      }
      local' := SetWord(local, index, target);
      target' := target + 1;
      if good {
        TopRePoint(v, View(ino, local'), ino, index, block, target, local);
      }
    }

    /** The block behind an entry of an indirect block. `next` is where it is afterwards. */
    method RelocateBlockInIndirectBlock(ind: nat, index: nat, target: nat, area: Area,
                                        ghost st: Start, ghost ino: nat, ghost local: seq<nat>, ghost order: seq<Slot>, ghost parent: Slot)
      returns (ok: bool, next: nat, target': nat)
      requires Valid() && lay.firstData <= target
      modifies `disk, `used, `free
      ensures Valid() && lay.firstData <= target'
      ensures
        var s := Child(parent, index);
        var more := Append(st.fs, order, s);
        Fitting(st, lay, area, more) && old(At(st, View(ino, local), used, free, order, target))
        && old(ValidSlot(View(ino, local), s) && ind == Ptr(View(ino, local), parent)) && ind != 0 ==>
        && ok && At(st, View(ino, local), used, free, more, target')
        && next == Ptr(View(ino, local), s)
    {
      hide At, Append, RePoint, CanMove, CopyOf, FreeAfter, GC.Layout.GroupOf, ValidSlot, Ptr, GoodStart, Running,
        Child;
      ghost var s := Child(parent, index);
      ghost var v := View(ino, local);
      ghost var used0, free0 := used, free;
      ghost var good := Fitting(st, lay, area, Append(st.fs, order, s)) && At(st, v, used, free, order, target)
        && ValidSlot(v, s) && ind == Ptr(v, parent) && ind != 0;
      if good {
        Decision(st, v, used, free, order, s, target);
        ChildEntry(st, v, used, free, order, target, parent, index);
      }
      next, target' := 0, target;
      if ind == 0 {
        return false, next, target';
      }
      if ind >= |disk| || index >= |disk[ind]| {
        return false, next, target';
      }
      var buf := disk[ind];
      var block := buf[index];
      next := block;
      if block == 0 {
        return true, next, target';
      }
      if area.In(block) {
        return true, next, target';
      }
      ok := RelocateRawBlock(block, target);
      if !ok {
        return;
      }
      buf := SetWord(buf, index, target);
      next := buf[index];
      target' := target + 1;
      disk := disk[ind := buf];
      if good {
        ChildRePoint(st, v, used0, free0, order, target, View(ino, local), parent, index);
      }
    }

    /** A block behind the single-indirect block. */
    method RelocateSingle(local: seq<nat>, offset: nat, target: nat, area: Area, ghost st: Start, ghost ino: nat,
                          ghost order: seq<Slot>)
      returns (ok: bool, local': seq<nat>, target': nat)
      requires Valid() && lay.firstData <= target && |local| == N_BLOCKS && Is1Indirect(apb, offset)
      modifies `disk, `used, `free
      ensures Valid() && |local'| == |local| && lay.firstData <= target'
      ensures
        var more := AppendPath(st.fs, order, PathTo(apb, ino, offset));
        Fitting(st, lay, area, more) && old(At(st, View(ino, local), used, free, order, target)) ==>
        && ok && At(st, View(ino, local'), used, free, more, target')
    {
      hide At, Append, AppendPath, ValidSlot, Ptr, PathTo;
      ghost var p := PathTo(apb, ino, offset);
      ghost var good := Fitting(st, lay, area, AppendPath(st.fs, order, p)) && At(st, View(ino, local), used, free, order, target);
      SinglePath(apb, ino, offset);
      AppendTwo(st.fs, order, p[0], p[1]);
      ok, local', target' := RelocateBlockInInode(local, 12, target, area, st, ino, order);
      if !ok {
        return;
      }
      var ind := local'[12];
      ghost var order' := Append(st.fs, order, p[0]);
      if good {
        HoleBelow(st, View(ino, local'), used, free, order', target', p[1]);
      }
      if ind != 0 {
        var next;
        ok, next, target' := RelocateBlockInIndirectBlock(ind, offset - NDIR, target', area, st, ino, local', order', p[0]);
      }
    }

    /** A block behind the double-indirect block. */
    method RelocateDouble(local: seq<nat>, offset: nat, target: nat, area: Area, ghost st: Start, ghost ino: nat,
                          ghost order: seq<Slot>)
      returns (ok: bool, local': seq<nat>, target': nat)
      requires Valid() && lay.firstData <= target && |local| == N_BLOCKS && Is2Indirect(apb, offset) && apb > 0
      modifies `disk, `used, `free
      ensures Valid() && |local'| == |local| && lay.firstData <= target'
      ensures
        var more := AppendPath(st.fs, order, PathTo(apb, ino, offset));
        Fitting(st, lay, area, more) && old(At(st, View(ino, local), used, free, order, target)) ==>
        && ok && At(st, View(ino, local'), used, free, more, target')
    {
      hide At, Append, AppendPath, ValidSlot, Ptr, PathTo, Div, Mod;
      ghost var p := PathTo(apb, ino, offset);
      ghost var good := Fitting(st, lay, area, AppendPath(st.fs, order, p)) && At(st, View(ino, local), used, free, order, target);
      DoublePath(apb, ino, offset);
      AppendThree(st.fs, order, p[0], p[1], p[2]);
      ok, local', target' := RelocateBlockInInode(local, 13, target, area, st, ino, order);
      if !ok {
        return;
      }
      var ind := local'[13];
      var index1 := Div(offset - NDIR - apb, apb);
      var index2 := Mod(offset - NDIR - apb, apb);
      ghost var order1 := Append(st.fs, order, p[0]);
      ghost var order2 := Append(st.fs, order1, p[1]);
      if good {
        HoleBelow(st, View(ino, local'), used, free, order1, target', p[1]);
        HoleBelow2(st, View(ino, local'), used, free, order1, target', p[1], p[2]);
      }
      if ind != 0 {
        var next;
        ok, next, target' := RelocateBlockInIndirectBlock(ind, index1, target', area, st, ino, local', order1, p[0]);
        if !ok {
          return;
        }
        if good {
          HoleBelow(st, View(ino, local'), used, free, order2, target', p[2]);
        }
        if next != 0 {
          var last;
          ok, last, target' := RelocateBlockInIndirectBlock(next, index2, target', area, st, ino, local', order2, p[1]);
        }
      }
    }

    /** Moves the block at an offset of a file, with the indirect blocks on the way to it. */
    method RelocateBlock(ino: nat, offset: nat, target: nat, area: Area, ghost st: Start, ghost order: seq<Slot>)
      returns (ok: bool, target': nat)
      requires Valid() && lay.firstData <= target && apb > 0 && forall i <- inodes :: |inodes[i]| == N_BLOCKS
      modifies `disk, `inodes, `used, `free
      ensures Valid() && lay.firstData <= target' && forall i <- inodes :: |inodes[i]| == N_BLOCKS
      ensures
        var more := AppendPath(st.fs, order, MovePath(apb, ino, offset));
        Fitting(st, lay, area, more) && old(At(st, Files(), used, free, order, target)) ==>
        && ok && At(st, Files(), used, free, more, target')
    {
      hide At, Append, AppendPath, ValidSlot, Ptr, PathTo, Fitting;
      if ino !in inodes {
        if At(st, Files(), used, free, order, target) {
          NoInode(st, Files(), used, free, order, target, ino, offset);
        }
        return true, target;
      }
      var local := inodes[ino];
      assert inodes == inodes[ino := local];
      target' := target;
      AppendNone(st.fs, order);
      if IsDirect(offset) {
        DirectPath(st.fs, order, apb, ino, offset);
        ok, local, target' := RelocateBlockInInode(local, offset, target, area, st, ino, order);
      } else if Is1Indirect(apb, offset) {
        ok, local, target' := RelocateSingle(local, offset, target, area, st, ino, order);
      } else if Is2Indirect(apb, offset) {
        ok, local, target' := RelocateDouble(local, offset, target, area, st, ino, order);
      } else {
        ok := true;
      }
      if ok {
        inodes := inodes[ino := local];
      }
    }

    /** Moves a range of a file. */
    method RelocateBlocks(r: Relocation, target: nat, area: Area, ghost st: Start, ghost order: seq<Slot>)
      returns (ok: bool, target': nat)
      requires Valid() && lay.firstData <= target && apb > 0 && forall i <- inodes :: |inodes[i]| == N_BLOCKS
      requires apb == st.fs.apb
      modifies `disk, `inodes, `used, `free
      ensures Valid() && lay.firstData <= target' && forall i <- inodes :: |inodes[i]| == N_BLOCKS
      ensures
        var more := AppendRange(st.fs, order, r.ino, r.offset, r.count);
        Fitting(st, lay, area, more) && old(At(st, Files(), used, free, order, target)) ==>
        && ok && At(st, Files(), used, free, more, target')
    {
      hide At, AppendPath, AppendRange, MovePath;
      var i := 0;
      target' := target;
      ghost var good := Fitting(st, lay, area, AppendRange(st.fs, order, r.ino, r.offset, r.count))
        && At(st, Files(), used, free, order, target);
      RangeNone(st.fs, order, r.ino, r.offset);
      while i < r.count
        invariant i <= r.count
        invariant Valid() && lay.firstData <= target' && forall i <- inodes :: |inodes[i]| == N_BLOCKS
        invariant good ==> At(st, Files(), used, free, AppendRange(st.fs, order, r.ino, r.offset, i), target')
      {
        ghost var now := AppendRange(st.fs, order, r.ino, r.offset, i);
        RangeNext(st.fs, order, r.ino, r.offset, i);
        RangeGrows(st.fs, order, r.ino, r.offset, r.count, i + 1);
        ok, target' := RelocateBlock(r.ino, r.offset + i, target', area, st, now);
        if !ok {
          return;
        }
        i := i + 1;
      }
      ok := true;
    }

    /** Moves everything a layout names. */
    method RelocateLayout(layout: seq<Relocation>, area: Area, ghost st: Start) returns (ok: bool)
      requires Valid() && lay.firstData <= area.start && apb > 0 && forall i <- inodes :: |inodes[i]| == N_BLOCKS
      requires apb == st.fs.apb
      modifies `disk, `inodes, `used, `free
      ensures Fitting(st, lay, area, MoveOrder(st.fs, layout)) && old(At(st, Files(), used, free, [], area.start)) ==>
        ok && Running(st, Files(), used, free, MoveOrder(st.fs, layout))
    {
      hide Running, GoodStart, AppendRange, MoveOrder;
      var target := area.start;
      var i: nat := 0;
      ghost var good := Fitting(st, lay, area, MoveOrder(st.fs, layout)) && At(st, Files(), used, free, [], area.start);
      OrderNone(st.fs, layout);
      while i < |layout|
        invariant i <= |layout|
        invariant Valid() && lay.firstData <= target && forall i <- inodes :: |inodes[i]| == N_BLOCKS
        invariant good ==> At(st, Files(), used, free, MoveOrder(st.fs, layout[..i]), target)
      {
        OrderNext(st.fs, layout, i);
        OrderGrows(st.fs, layout, i + 1);
        ok, target := RelocateBlocks(layout[i], target, area, st, MoveOrder(st.fs, layout[..i]));
        if !ok {
          return;
        }
        i := i + 1;
      }
      assert layout[..i] == layout;
      ok := true;
    }
  }

  lemma RangeNext(fs: Fs, order: seq<Slot>, ino: nat, o: nat, i: nat)
    requires fs.apb > 0
    ensures AppendRange(fs, order, ino, o, i + 1) == AppendPath(fs, AppendRange(fs, order, ino, o, i), MovePath(fs.apb, ino, o + i))
  {}

  lemma OrderNone(fs: Fs, layout: seq<Relocation>)
    requires fs.apb > 0
    ensures MoveOrder(fs, layout[..0]) == []
  {}

  lemma OrderNext(fs: Fs, layout: seq<Relocation>, i: nat)
    requires fs.apb > 0 && i < |layout|
    ensures MoveOrder(fs, layout[..i + 1]) ==
      AppendRange(fs, MoveOrder(fs, layout[..i]), layout[i].ino, layout[i].offset, layout[i].count)
  {
    assert layout[..i + 1][..i] == layout[..i];
  }

  lemma SinglePath(apb: nat, ino: nat, o: nat)
    requires Is1Indirect(apb, o)
    ensures PathTo(apb, ino, o) == [Slot(ino, 12, []), Child(Slot(ino, 12, []), o - NDIR)]
    ensures TreeSlot(apb, Child(Slot(ino, 12, []), o - NDIR))
  {
    var path: seq<nat> := [];
    assert path + [o - NDIR] == [o - NDIR];
  }

  /** The slot is one of the inode's tree. */
  ghost predicate TreeSlot(apb: nat, s: Slot) {
    s.top < N_BLOCKS && 0 < |s.path| <= Height(s.top) && forall k | 0 <= k < |s.path| :: s.path[k] < apb
  }

  lemma DoublePath(apb: nat, ino: nat, o: nat)
    requires apb > 0 && Is2Indirect(apb, o)
    ensures var r := o - NDIR - apb;
      var a := Slot(ino, 13, []);
      var b := Child(a, Div(r, apb));
      && PathTo(apb, ino, o) == [a, b, Child(b, Mod(r, apb))]
      && TreeSlot(apb, b) && TreeSlot(apb, Child(b, Mod(r, apb)))
  {
    hide Div, Mod;
    var r := o - NDIR - apb;
    DivMod(r, apb);
    if Div(r, apb) >= apb {
      MulMono(apb, Div(r, apb), apb);
    }
    var path: seq<nat> := [];
    assert path + [Div(r, apb)] == [Div(r, apb)];
    assert [Div(r, apb)] + [Mod(r, apb)] == [Div(r, apb), Mod(r, apb)];
  }

  lemma AppendNone(fs: Fs, order: seq<Slot>)
    ensures AppendPath(fs, order, []) == order
  {}

  lemma DirectPath(fs: Fs, order: seq<Slot>, apb: nat, ino: nat, o: nat)
    requires apb > 0 && IsDirect(o)
    ensures AppendPath(fs, order, PathTo(apb, ino, o)) == Append(fs, order, Slot(ino, o, []))
  {
    AppendNone(fs, order);
    AppendOne(fs, order, [], Slot(ino, o, []));
    var none: seq<Slot> := [];
    assert none + [Slot(ino, o, [])] == PathTo(apb, ino, o);
  }

  lemma AppendTwo(fs: Fs, order: seq<Slot>, a: Slot, b: Slot)
    ensures AppendPath(fs, order, [a, b]) == Append(fs, Append(fs, order, a), b)
    ensures |Append(fs, order, a)| <= |AppendPath(fs, order, [a, b])|
  {
    hide Ptr;
    AppendOne(fs, order, [], a);
    AppendOne(fs, order, [a], b);
    AppendNone(fs, order);
    var none: seq<Slot> := [];
    assert none + [a] == [a] && [a] + [b] == [a, b];
  }

  lemma AppendOne(fs: Fs, order: seq<Slot>, path: seq<Slot>, s: Slot)
    ensures AppendPath(fs, order, path + [s]) == Append(fs, AppendPath(fs, order, path), s)
  {
    hide Ptr;
    assert (path + [s])[..|path|] == path;
  }

  lemma AppendThree(fs: Fs, order: seq<Slot>, a: Slot, b: Slot, c: Slot)
    ensures AppendPath(fs, order, [a, b, c]) == Append(fs, Append(fs, Append(fs, order, a), b), c)
    ensures |Append(fs, order, a)| <= |Append(fs, Append(fs, order, a), b)| <= |AppendPath(fs, order, [a, b, c])|
  {
    hide Ptr;
    AppendTwo(fs, order, a, b);
    AppendOne(fs, order, [a, b], c);
    assert [a, b] + [c] == [a, b, c];
  }

  /** Below a hole there are only holes, which are not moved; below a block there are slots. */
  lemma HoleBelow(st: Start, v: Fs, used: seq<bool>, free: seq<int>, order: seq<Slot>, target: nat, s: Slot)
    requires At(st, v, used, free, order, target) && s.ino in v.inodes && TreeSlot(v.apb, s)
    ensures ValidSlot(v, s) && ValidSlot(v, Parent(s))
    ensures Ptr(v, Parent(s)) == 0 ==> Ptr(v, s) == 0 && Append(st.fs, order, s) == order
  {
    ParentInTree(v, s);
    MovedIn(st, v, used, free, order, s);
  }

  lemma ParentInTree(v: Fs, s: Slot)
    requires s.ino in v.inodes && TreeSlot(v.apb, s)
    ensures ValidSlot(v, s) && ValidSlot(v, Parent(s))
  {}

  lemma HoleBelow2(st: Start, v: Fs, used: seq<bool>, free: seq<int>, order: seq<Slot>, target: nat, s: Slot, q: Slot)
    requires At(st, v, used, free, order, target) && s.ino in v.inodes && TreeSlot(v.apb, s) && TreeSlot(v.apb, q)
    requires q.path != [] && Parent(q) == s
    ensures Ptr(v, Parent(s)) == 0 ==> Append(st.fs, Append(st.fs, order, s), q) == order
  {
    hide Append;
    HoleBelow(st, v, used, free, order, target, s);
    HoleBelow(st, v, used, free, order, target, q);
  }

  lemma NoInode(st: Start, v: Fs, used: seq<bool>, free: seq<int>, order: seq<Slot>, target: nat, ino: nat, o: nat)
    requires At(st, v, used, free, order, target) && ino !in v.inodes && v.apb > 0
    ensures AppendPath(st.fs, order, MovePath(v.apb, ino, o)) == order
  {
    hide PathTo;
    PathInode(v.apb, ino, o);
    HolesOnly(st.fs, order, MovePath(v.apb, ino, o), ino);
  }

  lemma PathInode(apb: nat, ino: nat, o: nat)
    requires apb > 0
    ensures forall q <- PathTo(apb, ino, o) :: q.ino == ino
  {
    hide Div, Mod, Square;
  }

  lemma {:induction false} HolePtr(fs: Fs, q: Slot)
    requires q.ino !in fs.inodes
    ensures Ptr(fs, q) == 0
    decreases |q.path|
  {
    if q.path != [] {
      HolePtr(fs, Parent(q));
    }
  }

  lemma {:induction false} HolesOnly(fs: Fs, order: seq<Slot>, path: seq<Slot>, ino: nat)
    requires ino !in fs.inodes && forall q <- path :: q.ino == ino
    ensures AppendPath(fs, order, path) == order
  {
    if path != [] {
      HolesOnly(fs, order, path[..|path| - 1], ino);
      HolePtr(fs, path[|path| - 1]);
    }
  }

  lemma ChildEntry(st: Start, v: Fs, used: seq<bool>, free: seq<int>, order: seq<Slot>, target: nat, parent: Slot,
                   index: nat)
    requires At(st, v, used, free, order, target) && ValidSlot(v, Child(parent, index)) && Ptr(v, parent) != 0
    ensures Ptr(v, parent) < |v.disk| && index < |v.disk[Ptr(v, parent)]|
    ensures Ptr(v, Child(parent, index)) == v.disk[Ptr(v, parent)][index]
  {
    var s := Child(parent, index);
    ParentValid(v, s);
    assert Parent(s) == parent && Last(s) == index;
  }

  lemma ChildRePoint(st: Start, v: Fs, used: seq<bool>, free: seq<int>, order: seq<Slot>, t: nat, v': Fs,
                     parent: Slot, index: nat)
    requires At(st, v, used, free, order, t) && CanStep(st, v, used, free, order, Child(parent, index), t)
    requires ValidSlot(v, Child(parent, index)) && Ptr(v, Child(parent, index)) != 0
    requires var ind, block := Ptr(v, parent), Ptr(v, Child(parent, index));
      && 0 < ind < |v.disk| && index < |v.disk[ind]|
      && v'.apb == v.apb && v'.inodes == v.inodes
      && v'.disk == v.disk[t := v.disk[block]][ind := SetWord(v.disk[ind], index, t)]
    ensures var block := Ptr(v, Child(parent, index));
      && v' == RePoint(CopyOf(v, block, t), Child(parent, index), t)
      && Ptr(v', Child(parent, index)) == t
  {
    hide GC.Accounted, GC.Layout.GroupOf, FreeAfter, NoSharing, Ptr;
    var s := Child(parent, index);
    var block, ind := Ptr(v, s), Ptr(v, parent);
    var v1 := CopyOf(v, block, t);
    assert Parent(s) == parent && Last(s) == index && s.path != [];
    ParentValid(v, s);
    assert !Referenced(v, t);
    CopyUnused(v, block, t);
    SamePtr(v, v1, parent);
    assert Referenced(v, ind);
    MoveKeeps(v1, s, t);
    assert ValidSlot(v1, s);
  }

  lemma TopSlot(v: Fs, ino: nat, index: nat)
    requires ino in v.inodes && index < N_BLOCKS && |v.inodes[ino]| == N_BLOCKS
    ensures ValidSlot(v, Slot(ino, index, [])) && Ptr(v, Slot(ino, index, [])) == v.inodes[ino][index]
  {}

  lemma TopRePoint(v: Fs, v': Fs, ino: nat, index: nat, block: nat, t: nat, local: seq<nat>)
    requires index < |local| && block < |v.disk| && t < |v.disk|
    requires ino in v.inodes && v.inodes[ino] == local
    requires CanMove(CopyOf(v, block, t), Slot(ino, index, []), t)
    requires v'.apb == v.apb && v'.disk == v.disk[t := v.disk[block]] && v'.inodes == v.inodes[ino := SetWord(local, index, t)]
    ensures v' == RePoint(CopyOf(v, block, t), Slot(ino, index, []), t)
    ensures Ptr(v', Slot(ino, index, [])) == SetWord(local, index, t)[index]
  {}

  // ----- The estimate is enough

  ghost predicate AllDifferent(s: seq<Slot>) {
    forall i, j | 0 <= i < j < |s| :: s[i] != s[j]
  }

  /** What is added to the order is different from what is there, and comes from `from`. */
  ghost predicate AddedFrom(order: seq<Slot>, more: seq<Slot>, from: set<Slot>) {
    && order <= more
    && (AllDifferent(order) ==> AllDifferent(more))
    && forall i | |order| <= i < |more| :: more[i] in from
  }

  lemma {:induction false} PathAdds(fs: Fs, order: seq<Slot>, path: seq<Slot>)
    ensures AddedFrom(order, AppendPath(fs, order, path), (set q <- path))
  {
    hide Ptr;
    if path != [] {
      PathAdds(fs, order, path[..|path| - 1]);
    }
  }

  lemma AddsMore(a: seq<Slot>, b: seq<Slot>, c: seq<Slot>, x: set<Slot>, y: set<Slot>, z: set<Slot>)
    requires AddedFrom(a, b, x) && AddedFrom(b, c, y) && x <= z && y <= z
    ensures AddedFrom(a, c, z)
  {
    forall i | |a| <= i < |c| ensures c[i] in z {
      if i < |b| {
        assert c[i] == b[i];
      }
    }
  }

  lemma {:induction false} RangeAdds(fs: Fs, order: seq<Slot>, ino: nat, o: nat, n: nat)
    requires fs.apb > 0
    ensures AddedFrom(order, AppendRange(fs, order, ino, o, n), Paths(fs.apb, ino, o, n))
  {
    hide PathTo, AppendPath;
    if n > 0 {
      RangeAdds(fs, order, ino, o, n - 1);
      var path := MovePath(fs.apb, ino, o + n - 1);
      var now := AppendRange(fs, order, ino, o, n - 1);
      PathAdds(fs, now, path);
      AddsMore(order, now, AppendPath(fs, now, path), Paths(fs.apb, ino, o, n - 1), (set q <- path), Paths(fs.apb,
        ino, o, n));
    }
  }

  lemma {:induction false} DifferentCount(s: seq<Slot>, k: nat, from: set<Slot>)
    requires AllDifferent(s) && k <= |s| && forall i | k <= i < |s| :: s[i] in from
    ensures |s| - k <= |from|
    decreases |s| - k
  {
    if k < |s| {
      DifferentCount(s, k + 1, from - {s[k]});
    }
  }

  /** The number of blocks of all ranges, each range on its own. */
  ghost function PathTotal(apb: nat, layout: seq<Relocation>): nat
    requires apb > 0
  {
    if layout == [] then 0
    else
      var r := layout[|layout| - 1];
      PathTotal(apb, layout[..|layout| - 1]) + |Paths(apb, r.ino, r.offset, r.count)|
  }

  /** No more blocks are moved than the ranges have. */
  lemma {:induction false} OrderBounded(fs: Fs, layout: seq<Relocation>)
    requires fs.apb > 0
    ensures AllDifferent(MoveOrder(fs, layout)) && |MoveOrder(fs, layout)| <= PathTotal(fs.apb, layout)
  {
    hide AppendRange, Paths;
    if layout != [] {
      var n := |layout| - 1;
      var r := layout[n];
      OrderBounded(fs, layout[..n]);
      RangeAdds(fs, MoveOrder(fs, layout[..n]), r.ino, r.offset, r.count);
      DifferentCount(MoveOrder(fs, layout), |MoveOrder(fs, layout[..n])|, Paths(fs.apb, r.ino, r.offset, r.count));
    }
  }

  /** How many ranges are estimated one block too high. */
  ghost function OverCount(apb: nat, layout: seq<Relocation>): nat
    requires apb > 0
  {
    if layout == [] then 0
    else
      var r := layout[|layout| - 1];
      OverCount(apb, layout[..|layout| - 1]) + if OneTooMany(apb, r.offset, r.count) then 1 else 0
  }

  /** The estimates of all ranges summed up, as the layout is read. */
  method EstimateLayout(apb: nat, layout: seq<Relocation>) returns (blocks: nat)
    requires apb >= NDIR
    ensures blocks == PathTotal(apb, layout) + OverCount(apb, layout)
  {
    hide Paths, PathTotal, OverCount, OneTooMany;
    blocks := 0;
    var i := 0;
    NoTotal(apb, layout);
    while i < |layout|
      invariant i <= |layout|
      invariant blocks == PathTotal(apb, layout[..i]) + OverCount(apb, layout[..i])
    {
      var e := EstimateBlocksForRange(apb, layout[i].offset, layout[i].count, layout[i].ino);
      TotalNext(apb, layout, i);
      blocks := blocks + e;
      i := i + 1;
    }
    assert layout[..i] == layout;
  }

  lemma NoTotal(apb: nat, layout: seq<Relocation>)
    requires apb > 0
    ensures PathTotal(apb, layout[..0]) == 0 && OverCount(apb, layout[..0]) == 0
  {}

  lemma TotalNext(apb: nat, layout: seq<Relocation>, i: nat)
    requires apb > 0 && i < |layout|
    ensures PathTotal(apb, layout[..i + 1]) ==
      PathTotal(apb, layout[..i]) + |Paths(apb, layout[i].ino, layout[i].offset, layout[i].count)|
    ensures OverCount(apb, layout[..i + 1]) ==
      OverCount(apb, layout[..i]) + if OneTooMany(apb, layout[i].offset, layout[i].count) then 1 else 0
  {
    assert layout[..i + 1][..i] == layout[..i];
  }

  // ----- Finding the area

  ghost predicate FreeRun(used: seq<bool>, b: nat, n: nat) {
    b + n <= |used| && forall c | b <= c < b + n :: !used[c]
  }

  /** The first place, from `first` on, where `size` free blocks lie next to each other. */
  method FindContiguousFreeSpace(used: seq<bool>, first: nat, superFree: nat, size: nat) returns (ok: bool, found: nat)
    ensures ok ==> first <= found && FreeRun(used, found, size) && 0 < found + size
    ensures ok && size > 0 ==> forall b: nat | first <= b < found :: !FreeRun(used, b, size)
    ensures size > 0 ==> (ok <==> superFree >= size && exists b: nat :: first <= b && FreeRun(used, b, size))
  {
    ok, found := false, 0;
    if superFree < size {
      return;
    }
    var contiguous: nat, i: nat := 0, first;
    while i < |used|
      invariant first <= i && contiguous <= i - first && (size > 0 ==> contiguous < size)
      invariant i <= |used| || (i == first && contiguous == 0)
      invariant forall c | i - contiguous <= c < i :: !used[c]
      invariant i - contiguous == first || used[i - contiguous - 1]
      invariant size > 0 ==> forall b: nat | first <= b && b + size <= i :: !FreeRun(used, b, size)
    {
      if !used[i] {
        contiguous := contiguous + 1;
        if contiguous >= size {
          assert FreeRun(used, i + 1 - size, size);
          return true, i + 1 - size;
        }
        assert forall b: nat | first <= b && b + size == i + 1 :: !FreeRun(used, b, size);
      } else {
        contiguous := 0;
      }
      i := i + 1;
    }
  }

  // ----- The whole program

  datatype Ending = NoSpace | Failed | Done

  /** What the program needs the file system to be. */
  ghost predicate GoodFileSystem(fs: Fs, used: seq<bool>, free: seq<int>, lay: GC.Layout) {
    && WellFormed(fs) && NoSharing(fs) && fs.apb >= NDIR
    && |used| == |fs.disk| && (lay.firstData == 0 && |used| > 0 ==> used[0])
    && (forall b | 0 < b < |used| && Referenced(fs, b) :: used[b])
    && GC.Accounted(lay, used, free)
  }

  lemma AreaFound(fs: Fs, used: seq<bool>, free: seq<int>, lay: GC.Layout, area: Area)
    requires GoodFileSystem(fs, used, free, lay) && FreeRun(used, area.start, area.size) && 0 < area.start + area.size
    requires lay.firstData <= area.start
    ensures var st := Start(fs, used, free, lay, area); GoodStart(st) && At(st, fs, used, free, [], area.start)
  {
    hide Ptr, NoSharing, GC.Accounted, Running, Referenced;
    RunStarts(Start(fs, used, free, lay, area));
  }

  /**
    Moves the files of a layout. On a good file system it never fails once the area is found: the blocks of the layout
    fill a prefix of the area in order, and no file changes.
   */
  method Run(info: FsInfo, layout: seq<Relocation>, superFree: nat) returns (r: Ending, ghost st: Start)
    requires info.Valid() && info.apb >= NDIR && forall i <- info.inodes :: |info.inodes[i]| == N_BLOCKS
    modifies info`disk, info`inodes, info`used, info`free
    ensures st.fs == old(info.Files()) && st.used == old(info.used) && st.free == old(info.free) && st.lay == info.lay
    ensures st.area.size == PathTotal(info.apb, layout) + OverCount(info.apb, layout)
    ensures st.area.size > 0 ==> (r == NoSpace <==>
      superFree < st.area.size || !exists b: nat :: info.lay.firstData <= b && FreeRun(old(info.used), b, st.area.size))
    ensures r == NoSpace ==> unchanged(info)
    ensures r != NoSpace ==> info.lay.firstData <= st.area.start && FreeRun(old(info.used), st.area.start, st.area.size)
    ensures r != NoSpace && st.area.size > 0 ==>
      forall b: nat | info.lay.firstData <= b < st.area.start :: !FreeRun(old(info.used), b, st.area.size)
    ensures r != NoSpace && GoodFileSystem(old(info.Files()), old(info.used), old(info.free), info.lay) ==>
      r == Done && GoodStart(st) && Running(st, info.Files(), info.used, info.free, MoveOrder(st.fs, layout))
  {
    hide GoodFileSystem, GoodStart, Running, MoveOrder, PathTotal, OverCount, FreeRun;
    var size := EstimateLayout(info.apb, layout);
    st := Start(info.Files(), info.used, info.free, info.lay, Area(0, size));
    var ok, found := FindContiguousFreeSpace(info.used, info.lay.firstData, superFree, size);
    if !ok {
      return NoSpace, st;
    }
    var area := Area(found, size);
    st := Start(info.Files(), info.used, info.free, info.lay, area);
    OrderBounded(st.fs, layout);
    if GoodFileSystem(st.fs, st.used, st.free, st.lay) {
      AreaFound(st.fs, st.used, st.free, st.lay, area);
    }
    ok := info.RelocateLayout(layout, area, st);
    r := if ok then Done else Failed;
  }
}
