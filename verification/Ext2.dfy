/**
  The block pointers of an ext2 file system: where they are stored, what they point to, and what changing one of
  them does to all the others. Both relocation tools work on this model.
 */
module Ext2 {

  const NDIR := 12       // direct pointers of an inode
  const N_BLOCKS := 15   // all pointers of an inode: direct, single, double and triple indirect

  /** A block as its words; an indirect block holds block numbers, 0 standing for a hole. */
  type Block = seq<nat>

  /** The disk and the pointers of the inodes. `apb` is the number of block addresses in a block. */
  datatype Fs = Fs(apb: nat, disk: seq<Block>, inodes: map<nat, seq<nat>>)

  /** A place that stores a block pointer: an entry of an inode, or an entry of an indirect block below it. */
  datatype Slot = Slot(ino: nat, top: nat, path: seq<nat>)

  /** The levels of indirection below an entry of the inode. */
  function Height(top: nat): nat {
    if top < NDIR then 0 else top - (NDIR - 1)
  }

  /** 0 for a pointer to data, 1 for a pointer to an indirect block, 2 to a double and 3 to a triple one. */
  function Level(s: Slot): nat {
    if |s.path| <= Height(s.top) then Height(s.top) - |s.path| else 0
  }

  ghost predicate ValidSlot(fs: Fs, s: Slot) {
    && s.ino in fs.inodes && s.top < N_BLOCKS
    && |s.path| <= Height(s.top)
    && forall k | 0 <= k < |s.path| :: s.path[k] < fs.apb
  }

  ghost predicate WellFormed(fs: Fs) {
    && (forall i <- fs.inodes :: |fs.inodes[i]| == N_BLOCKS)
    && (forall b | 0 <= b < |fs.disk| :: |fs.disk[b]| == fs.apb)
    && (forall s :: ValidSlot(fs, s) ==> Ptr(fs, s) < |fs.disk|)
  }

  function Parent(s: Slot): Slot
    requires s.path != []
  {
    s.(path := s.path[..|s.path| - 1])
  }

  function Last(s: Slot): nat
    requires s.path != []
  {
    s.path[|s.path| - 1]
  }

  function Child(s: Slot, i: nat): Slot {
    s.(path := s.path + [i])
  }

  /** The block number stored in a slot; 0 where the file has a hole. */
  function Ptr(fs: Fs, s: Slot): nat
    decreases |s.path|
  {
    if s.path == [] then
      if s.ino in fs.inodes && s.top < |fs.inodes[s.ino]| then fs.inodes[s.ino][s.top] else 0
    else
      var p := Ptr(fs, Parent(s));
      if 0 < p < |fs.disk| && Last(s) < |fs.disk[p]| then fs.disk[p][Last(s)] else 0
  }

  /** No block is pointed to from two places. */
  ghost predicate NoSharing(fs: Fs) {
    forall s, t :: ValidSlot(fs, s) && ValidSlot(fs, t) && Ptr(fs, s) != 0 && Ptr(fs, s) == Ptr(fs, t) ==> s == t
  }

  ghost predicate Referenced(fs: Fs, b: nat) {
    exists s :: ValidSlot(fs, s) && Ptr(fs, s) == b
  }

  /** The file system after the pointer in slot `s` is set to `t`. */
  function SetPtr(fs: Fs, s: Slot, parentBlock: nat, t: nat): Fs
    requires if s.path == [] then s.ino in fs.inodes && s.top < |fs.inodes[s.ino]|
      else parentBlock < |fs.disk| && Last(s) < |fs.disk[parentBlock]|
  {
    if s.path == [] then fs.(inodes := fs.inodes[s.ino := SetWord(fs.inodes[s.ino], s.top, t)])
    else fs.(disk := fs.disk[parentBlock := SetWord(fs.disk[parentBlock], Last(s), t)])
  }

  function SetWord(words: seq<nat>, i: nat, t: nat): seq<nat>
    requires i < |words|
  {
    words[i := t]
  }

  /** The block that stores a slot; irrelevant for a slot of the inode itself. */
  ghost function Home(fs: Fs, s: Slot): nat {
    if s.path == [] then 0 else Ptr(fs, Parent(s))
  }

  ghost function RePoint(fs: Fs, s: Slot, t: nat): Fs
    requires WellFormed(fs) && ValidSlot(fs, s) && Ptr(fs, s) != 0
  {
    HomeInRange(fs, s);
    SetPtr(fs, s, Home(fs, s), t)
  }

  lemma ParentValid(fs: Fs, s: Slot)
    requires ValidSlot(fs, s) && s.path != []
    ensures ValidSlot(fs, Parent(s)) && s == Child(Parent(s), Last(s)) && Last(s) < fs.apb
  {
    assert s.path == s.path[..|s.path| - 1] + [Last(s)];
  }

  lemma HomeInRange(fs: Fs, s: Slot)
    requires WellFormed(fs) && ValidSlot(fs, s) && Ptr(fs, s) != 0
    ensures s.path != [] ==> 0 < Home(fs, s) < |fs.disk| && |fs.disk[Home(fs, s)]| == fs.apb && Last(s) < fs.apb
  {
    if s.path != [] {
      ParentValid(fs, s);
    }
  }

  /**
    What it takes to move the block behind slot `s` to block `t`: no file uses `t`, and `t` already holds a copy.
   */
  ghost predicate CanMove(fs: Fs, s: Slot, t: nat) {
    && WellFormed(fs) && NoSharing(fs)
    && ValidSlot(fs, s) && Ptr(fs, s) != 0
    && 0 < t < |fs.disk| && !Referenced(fs, t)
    && fs.disk[t] == fs.disk[Ptr(fs, s)]
  }

  /** Setting one pointer changes that pointer and no other one of any file. */
  lemma {:induction false} RePointPtr(fs: Fs, s: Slot, t: nat, q: Slot)
    requires CanMove(fs, s, t) && ValidSlot(fs, q)
    ensures Ptr(RePoint(fs, s, t), q) == if q == s then t else Ptr(fs, q)
    decreases |q.path|
  {
    var fs' := RePoint(fs, s, t);
    HomeInRange(fs, s);
    if q.path == [] {
    } else {
      ParentValid(fs, q);
      var pq := Parent(q);
      RePointPtr(fs, s, t, pq);
      if s.path != [] {
        ParentValid(fs, s);
      }
      if pq == s {
        assert fs'.disk[t] == fs.disk[t];
      } else {
        assert Ptr(fs', pq) == Ptr(fs, pq);
      }
    }
  }

  /** The content a file shows at a data slot; None for a hole. */
  datatype Content = Hole | Data(block: Block)

  ghost function Read(fs: Fs, q: Slot): Content
    requires WellFormed(fs) && ValidSlot(fs, q)
  {
    if Ptr(fs, q) == 0 then Hole else Data(fs.disk[Ptr(fs, q)])
  }

  /** Both file systems have the same files, with the same content everywhere. */
  ghost predicate SameFiles(fs: Fs, fs': Fs) {
    && WellFormed(fs) && WellFormed(fs')
    && fs.apb == fs'.apb && fs.inodes.Keys == fs'.inodes.Keys
    && (forall q :: ValidSlot(fs, q) <==> ValidSlot(fs', q))
    && forall q :: ValidSlot(fs, q) && Level(q) == 0 ==> Read(fs', q) == Read(fs, q)
  }

  /** The pointers after one move. */
  ghost predicate Moved(fs: Fs, fs': Fs, s: Slot, t: nat) {
    && (forall q :: ValidSlot(fs, q) <==> ValidSlot(fs', q))
    && forall q :: ValidSlot(fs, q) ==> Ptr(fs', q) == if q == s then t else Ptr(fs, q)
  }

  /** Moving a block keeps the files, and keeps every block in one place. */
  lemma MoveKeeps(fs: Fs, s: Slot, t: nat)
    requires CanMove(fs, s, t)
    ensures var fs' := RePoint(fs, s, t);
      Moved(fs, fs', s, t) && NoSharing(fs') && SameFiles(fs, fs')
  {
    hide Ptr;
    var fs' := RePoint(fs, s, t);
    HomeInRange(fs, s);
    if s.path != [] {
      ParentValid(fs, s);
      assert Referenced(fs, Home(fs, s));
    }
    assert fs'.inodes.Keys == fs.inodes.Keys;
    forall q | ValidSlot(fs, q) ensures Ptr(fs', q) == if q == s then t else Ptr(fs, q) {
      RePointPtr(fs, s, t, q);
    }
    assert Moved(fs, fs', s, t);
    forall q, r | ValidSlot(fs', q) && ValidSlot(fs', r) && Ptr(fs', q) != 0 && Ptr(fs', q) == Ptr(fs', r) ensures q == r {
      assert ValidSlot(fs, q) && ValidSlot(fs, r);
    }
    assert WellFormed(fs');
    forall q | ValidSlot(fs, q) && Level(q) == 0 ensures Read(fs', q) == Read(fs, q) {
      if Ptr(fs, q) != 0 {
        HomeUnread(fs, s, q);
      }
    }
  }

  /** The block that stores a slot holds no data of a file. */
  lemma HomeUnread(fs: Fs, s: Slot, q: Slot)
    requires WellFormed(fs) && NoSharing(fs) && ValidSlot(fs, s) && Ptr(fs, s) != 0
    requires ValidSlot(fs, q) && Level(q) == 0 && Ptr(fs, q) != 0
    ensures s.path != [] ==> Home(fs, s) != Ptr(fs, q)
  {
    if s.path != [] {
      ParentValid(fs, s);
      HomeInRange(fs, s);
      assert Level(Parent(s)) > 0;
    }
  }

  /** Writing to blocks that no file uses changes no file. */
  ghost predicate SameUsedBlocks(fs: Fs, fs': Fs) {
    && fs'.apb == fs.apb && fs'.inodes == fs.inodes && |fs'.disk| == |fs.disk|
    && (forall b | 0 <= b < |fs'.disk| :: |fs'.disk[b]| == fs'.apb)
    && forall b | 0 < b < |fs.disk| && Referenced(fs, b) :: fs'.disk[b] == fs.disk[b]
  }

  lemma {:induction false} SamePtr(fs: Fs, fs': Fs, q: Slot)
    requires WellFormed(fs) && SameUsedBlocks(fs, fs') && ValidSlot(fs, q)
    ensures Ptr(fs', q) == Ptr(fs, q)
    decreases |q.path|
  {
    if q.path != [] {
      ParentValid(fs, q);
      SamePtr(fs, fs', Parent(q));
      assert Referenced(fs, Ptr(fs, Parent(q)));
    }
  }

  lemma UnusedWritesKeep(fs: Fs, fs': Fs)
    requires WellFormed(fs) && SameUsedBlocks(fs, fs')
    ensures SameFiles(fs, fs') && (NoSharing(fs) ==> NoSharing(fs'))
    ensures forall q :: ValidSlot(fs, q) ==> Ptr(fs', q) == Ptr(fs, q)
    ensures forall b :: Referenced(fs', b) <==> Referenced(fs, b)
  {
    hide Ptr;
    assert forall q :: ValidSlot(fs, q) <==> ValidSlot(fs', q);
    forall q | ValidSlot(fs, q) ensures Ptr(fs', q) == Ptr(fs, q) && Referenced(fs, Ptr(fs, q)) {
      SamePtr(fs, fs', q);
    }
    assert WellFormed(fs');
    assert NoSharing(fs) ==> NoSharing(fs');
  }

  lemma SameFilesTransitive(a: Fs, b: Fs, c: Fs)
    requires SameFiles(a, b) && SameFiles(b, c)
    ensures SameFiles(a, c)
  {
    hide Ptr, WellFormed;
    forall q | ValidSlot(a, q) && Level(q) == 0 ensures Read(c, q) == Read(a, q) {
      assert ValidSlot(b, q);
    }
  }

  /** The bitmap marks what the files use now, and what was marked for other reasons before. */
  ghost predicate BitmapFollows(fs: Fs, fs': Fs, used: seq<bool>, used': seq<bool>) {
    |used'| == |used| && forall b | 0 < b < |used| :: used'[b] <==> Referenced(fs', b) || (used[b] && !Referenced(fs, b))
  }
}
