/** File systems on which the walk of e2remapblocks goes wrong. */
module WalkExamples {
  import opened Ext2
  import opened BlockTree
  import opened Traverse
  import opened FreeRuns
  import opened RemapBlocks
  import opened RemapInode
  import opened RemapProgram
  import GC = GroupCounts

  const INO := 12

  function Zeros(n: nat): Block {
    seq(n, _ => 0)
  }

  // ----- Finding out what a walk visits

  /** The last slot has the largest key. */
  lemma SameLast(apb: nat, v: seq<Slot>, w: seq<Slot>)
    requires Increasing(apb, v) && Increasing(apb, w) && v != [] && w != [] && forall q :: q in v <==> q in w
    ensures v[|v| - 1] == w[|w| - 1]
  {
    hide SlotKey;
    var m, n := |v| - 1, |w| - 1;
    assert v[m] in w && w[n] in v;
    var i :| 0 <= i <= m && v[i] == w[n];
    var j :| 0 <= j <= n && w[j] == v[m];
    if i != m {
      assert false;
    }
  }

  lemma InitMembers(apb: nat, v: seq<Slot>, q: Slot)
    requires Increasing(apb, v) && v != []
    ensures q in v[..|v| - 1] <==> q in v && q != v[|v| - 1]
  {
    hide SlotKey;
    var m := |v| - 1;
    if q in v[..m] {
      var k :| 0 <= k < m && v[k] == q;
    }
  }

  lemma {:induction false} IncreasingUnique(apb: nat, v: seq<Slot>, w: seq<Slot>)
    requires Increasing(apb, v) && Increasing(apb, w) && forall q :: q in v <==> q in w
    ensures v == w
  {
    hide SlotKey, Increasing;
    assert v != [] ==> v[0] in w;
    assert w != [] ==> w[0] in v;
    if v != [] {
      var m, n := |v| - 1, |w| - 1;
      SameLast(apb, v, w);
      forall q ensures q in v[..m] <==> q in w[..n] {
        InitMembers(apb, v, q);
        InitMembers(apb, w, q);
      }
      InitIncreasing(apb, v);
      InitIncreasing(apb, w);
      IncreasingUnique(apb, v[..m], w[..n]);
      assert v == v[..m] + [v[m]] && w == w[..n] + [w[n]];
    }
  }

  lemma InitIncreasing(apb: nat, v: seq<Slot>)
    requires Increasing(apb, v) && v != []
    ensures Increasing(apb, v[..|v| - 1])
  {
    assert forall q <- v[..|v| - 1] :: q in v;
  }

  /** The walk visits the slots that hold a block in the order of their keys. */
  lemma VisitedAre(fs: Fs, ino: nat, v: seq<Slot>)
    requires WellFormed(fs) && fs.apb > 0 && ino in fs.inodes && Increasing(fs.apb, v)
    requires forall q :: q in v <==> ValidSlot(fs, q) && q.ino == ino && Ptr(fs, q) != 0
    ensures Visited(fs, ino) == v
  {
    hide Visited, Ptr, SlotKey;
    VisitedIsVisit(fs, ino);
    IncreasingUnique(fs.apb, Visited(fs, ino), v);
  }

  lemma {:induction false} HoleBelow(fs: Fs, q: Slot)
    requires Ptr(fs, Slot(q.ino, q.top, [])) == 0
    ensures Ptr(fs, q) == 0
    decreases |q.path|
  {
    if q.path != [] {
      HoleBelow(fs, Parent(q));
    } else {
      assert q == Slot(q.ino, q.top, []);
    }
  }

  // ----- Two double-indirect blocks below the triple-indirect one

  /**
    Block 1 is the triple-indirect block of a file, 2 and 5 are double-indirect, 3 and 6 single-indirect blocks, 4 and
    7 hold data.
   */
  function TwoDoubles(apb: nat): Fs
    requires apb >= 2
  {
    var z := Zeros(apb);
    Fs(apb, [z, z[0 := 2][1 := 5], z[1 := 3], z[0 := 4], z, z[0 := 6], z[0 := 7], z], map[INO := Zeros(14) + [1]])
  }

  const TWO_DOUBLES_WALK := [
    Slot(INO, 14, []), Slot(INO, 14, [0]), Slot(INO, 14, [0, 1]), Slot(INO, 14, [0, 1, 0]),
    Slot(INO, 14, [1]), Slot(INO, 14, [1, 0]), Slot(INO, 14, [1, 0, 0])]

  function TwoDoublesPtr(path: seq<nat>): nat {
    if |path| == 0 then 1
    else if |path| == 1 then (if path[0] == 0 then 2 else if path[0] == 1 then 5 else 0)
    else if |path| == 2 then (if path[0] == 0 && path[1] == 1 then 3 else if path[0] == 1 && path[1] == 0 then 6 else 0)
    else if |path| == 3 && path[2] == 0 then
      (if path[0] == 0 && path[1] == 1 then 4 else if path[0] == 1 && path[1] == 0 then 7 else 0)
    else 0
  }

  lemma {:induction false} TwoDoublesPtrs(apb: nat, q: Slot)
    requires apb >= 2 && ValidSlot(TwoDoubles(apb), q)
    ensures Ptr(TwoDoubles(apb), q) == if q.top == 14 then TwoDoublesPtr(q.path) else 0
    decreases |q.path|
  {
    var fs := TwoDoubles(apb);
    if q.top < 14 {
      HoleBelow(fs, q);
    } else if q.path != [] {
      TwoDoublesPtrs(apb, Parent(q));
    }
  }

  lemma TwoDoublesPlaces(apb: nat)
    ensures var v, n := TWO_DOUBLES_WALK, apb * apb;
      && TriplePlace(apb, v[0]) == TriplePlace(apb, v[1]) == 12 + apb + n
      && TriplePlace(apb, v[2]) == 12 + apb + n + apb
      && TriplePlace(apb, v[4]) == TriplePlace(apb, v[5]) == 12 + apb + n + n
  {}

  lemma TwoDoublesKeys(apb: nat)
    requires apb >= 2
    ensures Increasing(apb, TWO_DOUBLES_WALK)
    ensures SlotKey(apb, TWO_DOUBLES_WALK[5]) == SlotKey(apb, TWO_DOUBLES_WALK[4]) + 1
  {
    hide First, ZoneStart, Span, TriplePlace;
    var v := TWO_DOUBLES_WALK;
    TwoDoublesPlaces(apb);
    FirstSpelled(apb, v[0]);
    FirstSpelled(apb, v[1]);
    FirstSpelled(apb, v[2]);
    FirstSpelled(apb, v[4]);
    FirstSpelled(apb, v[5]);
    DataBelow(apb, v[2], v[3]);
    DataBelow(apb, v[5], v[6]);
    MulOrder(2, apb, apb);
    Consecutive(apb, v);
  }

  lemma Consecutive(apb: nat, v: seq<Slot>)
    requires (forall k | 0 <= k < |v| :: Shaped(v[k]))
    requires forall k | 0 < k < |v| :: SlotKey(apb, v[k - 1]) < SlotKey(apb, v[k])
    ensures Increasing(apb, v)
  {
    hide SlotKey;
    forall i, j | 0 <= i < j < |v| ensures SlotKey(apb, v[i]) < SlotKey(apb, v[j]) {
      KeysRise(apb, v, i, j);
    }
  }

  lemma {:induction false} KeysRise(apb: nat, v: seq<Slot>, i: nat, j: nat)
    requires forall k | 0 < k < |v| :: SlotKey(apb, v[k - 1]) < SlotKey(apb, v[k])
    requires i < j < |v|
    ensures SlotKey(apb, v[i]) < SlotKey(apb, v[j])
  {
    hide SlotKey;
    if i < j - 1 {
      KeysRise(apb, v, i, j - 1);
    }
  }

  lemma DataBelow(apb: nat, p: Slot, s: Slot)
    requires Shaped(s) && Level(s) == 0 && s.path != [] && p == Parent(s) && Last(s) == 0
    ensures First(apb, s) == First(apb, p)
  {}

  lemma TwoDoublesInjective(p: seq<nat>, q: seq<nat>)
    requires TwoDoublesPtr(p) == TwoDoublesPtr(q) != 0
    ensures p == q
  {}

  lemma TwoDoublesSound(apb: nat)
    requires apb >= 2
    ensures WellFormed(TwoDoubles(apb)) && NoSharing(TwoDoubles(apb))
  {
    hide Ptr, TwoDoublesPtr;
    var fs := TwoDoubles(apb);
    forall q | ValidSlot(fs, q) ensures Ptr(fs, q) < |fs.disk| {
      TwoDoublesPtrs(apb, q);
      TwoDoublesSmall(q.path);
    }
    forall s, t | ValidSlot(fs, s) && ValidSlot(fs, t) && Ptr(fs, s) == Ptr(fs, t) != 0 ensures s == t {
      TwoDoublesPtrs(apb, s);
      TwoDoublesPtrs(apb, t);
      TwoDoublesInjective(s.path, t.path);
    }
  }

  lemma TwoDoublesSmall(p: seq<nat>)
    ensures TwoDoublesPtr(p) < 8
  {}

  lemma TwoDoublesPaths(path: seq<nat>)
    ensures Slot(INO, 14, path) in TWO_DOUBLES_WALK <==> TwoDoublesPtr(path) != 0
  {
    if |path| == 1 {
      assert path == [path[0]];
    } else if |path| == 2 {
      assert path == [path[0], path[1]];
    } else if |path| == 3 {
      assert path == [path[0], path[1], path[2]];
    }
  }

  lemma TwoDoublesVisited(apb: nat)
    requires apb >= 2
    ensures Visited(TwoDoubles(apb), INO) == TWO_DOUBLES_WALK
  {
    hide Visited, SlotKey;
    var fs := TwoDoubles(apb);
    TwoDoublesSound(apb);
    TwoDoublesKeys(apb);
    forall q ensures q in TWO_DOUBLES_WALK <==> ValidSlot(fs, q) && q.ino == INO && Ptr(fs, q) != 0 {
      if ValidSlot(fs, q) {
        TwoDoublesPtrs(apb, q);
      }
      if q.ino == INO && q.top == 14 {
        TwoDoublesPaths(q.path);
        assert q == Slot(INO, 14, q.path);
      }
    }
    VisitedAre(fs, INO, TWO_DOUBLES_WALK);
  }

  /**
    The left-over index matters: with two double-indirect blocks below the triple-indirect one, the code of the second
    comes out behind that of the single-indirect block visited after it.
   */
  lemma StaleDisorders(apb: nat)
    requires apb >= 2
    ensures var fs, v := TwoDoubles(apb), TWO_DOUBLES_WALK;
      && WellFormed(fs) && NoSharing(fs) && Visited(fs, INO) == v
      && StaleAt(v, 4) && CmpCode(CodeAt(apb, v, 4), CodeAt(apb, v, 5)) > 0 && !Ascending(MetOf(fs, v))
  {
    hide Visited, CodeAt, SlotKey, Key, CmpCode, WellFormed, NoSharing;
    var fs, v := TwoDoubles(apb), TWO_DOUBLES_WALK;
    TwoDoublesSound(apb);
    TwoDoublesVisited(apb);
    TwoDoublesKeys(apb);
    VisitedIsVisit(fs, INO);
    TwoDoublesLast(v);
    CodeAtKey(apb, INO, v, 4);
    CodeAtKey(apb, INO, v, 5);
    CmpIsKeyOrder(CodeAt(apb, v, 4), CodeAt(apb, v, 5));
    MetAscends(fs, INO);
    assert OvertakenAt(v, 4);
  }

  lemma TwoDoublesLast(v: seq<Slot>)
    requires v == TWO_DOUBLES_WALK
    ensures LastInd(v[..4]) == 1
  {
    assert v[..4][..3] == v[..3];
    assert v[..3][2] == Slot(INO, 14, [0, 1]);
  }

  // ----- An indirect block that comes between the data blocks of an extent

  /** Offsets 10 to 12 of a file are in the blocks 1 to 3, and block 4 is its single-indirect block. */
  function AroundIndirect(apb: nat): Fs
    requires apb >= 1
  {
    var z := Zeros(apb);
    Fs(apb, [z, z, z, z, z[0 := 3]], map[INO := Zeros(10) + [1, 2, 4, 0, 0]])
  }

  const AROUND_WALK := [Slot(INO, 10, []), Slot(INO, 11, []), Slot(INO, 12, []), Slot(INO, 12, [0])]
  const AROUND_MET := [Met(10, 1), Met(11, 2), Met(-48, 4), Met(12, 3)]
  const AROUND_LIST := [Extent(1, 3, 10, 0), Extent(4, 1, -48, 3)]

  function AroundPtr(s: Slot): nat {
    if s == Slot(INO, 10, []) then 1
    else if s == Slot(INO, 11, []) then 2
    else if s == Slot(INO, 12, []) then 4
    else if s == Slot(INO, 12, [0]) then 3
    else 0
  }

  lemma AroundPtrs(apb: nat, q: Slot)
    requires apb >= 1 && ValidSlot(AroundIndirect(apb), q)
    ensures Ptr(AroundIndirect(apb), q) == AroundPtr(q)
  {
    var fs := AroundIndirect(apb);
    if q.top == 12 && q.path != [] {
      assert q.path == [q.path[0]] && Parent(q).path == [];
    } else if q.top > 12 {
      HoleBelow(fs, q);
    }
  }

  lemma AroundSound(apb: nat)
    requires apb >= 1
    ensures WellFormed(AroundIndirect(apb)) && NoSharing(AroundIndirect(apb))
  {
    hide Ptr;
    var fs := AroundIndirect(apb);
    forall q | ValidSlot(fs, q) ensures Ptr(fs, q) == AroundPtr(q) {
      AroundPtrs(apb, q);
    }
  }

  lemma AroundKeys(apb: nat)
    requires apb >= 1
    ensures Increasing(apb, AROUND_WALK)
    ensures SlotKey(apb, AROUND_WALK[0]) == 54 && SlotKey(apb, AROUND_WALK[1]) == 59
    ensures SlotKey(apb, AROUND_WALK[2]) == 63 && SlotKey(apb, AROUND_WALK[3]) == 64
  {
    var v := AROUND_WALK;
    assert Parent(v[3]) == v[2];
    assert First(apb, v[3]) == First(apb, v[2]);
    assert ZoneStart(apb, 12) == 12;
  }

  lemma AroundVisited(apb: nat)
    requires apb >= 1
    ensures Visited(AroundIndirect(apb), INO) == AROUND_WALK
  {
    hide Visited, SlotKey;
    var fs := AroundIndirect(apb);
    AroundSound(apb);
    AroundKeys(apb);
    forall q ensures q in AROUND_WALK <==> ValidSlot(fs, q) && q.ino == INO && Ptr(fs, q) != 0 {
      if ValidSlot(fs, q) {
        AroundPtrs(apb, q);
      }
    }
    VisitedAre(fs, INO, AROUND_WALK);
  }

  lemma AroundMet(apb: nat)
    requires apb >= 1
    ensures MetOf(AroundIndirect(apb), AROUND_WALK) == AROUND_MET
  {
    hide Visited, CodeAt, SlotKey, CmpCode;
    var fs, v := AroundIndirect(apb), AROUND_WALK;
    AroundSound(apb);
    AroundVisited(apb);
    AroundKeys(apb);
    VisitedIsVisit(fs, INO);
    forall k: nat | k < 4 ensures CodeAt(apb, v, k) == AROUND_MET[k].code && Ptr(fs, v[k]) == AROUND_MET[k].block {
      assert v[k] in v;
      CodeAtKey(apb, INO, v, k);
      CmpIsKeyOrder(CodeAt(apb, v, k), AROUND_MET[k].code);
      AroundPtrs(apb, v[k]);
    }
  }

  lemma AroundSkipped(runs: seq<FreeExtent>, total: nat, blocksCount: nat)
    ensures ActAt(AROUND_LIST, AROUND_MET, 2) == 0 && Advance(AROUND_LIST, 0, AROUND_MET[2].code) == 0
    ensures !ChangedAt(AROUND_LIST, runs, total, blocksCount, AROUND_MET, 2)
  {
    var met, exts := AROUND_MET, AROUND_LIST;
    assert Advance(exts, 0, met[0].code) == 0 && Advance(exts, 0, met[1].code) == 0 && Advance(exts, 0, met[2].code) == 0;
    assert ActAt(exts, met, 1) == 0;
  }

  lemma AroundListed()
    ensures Ascending(AROUND_MET) && Mapped(AROUND_LIST, AROUND_MET)
    ensures SortedList(AROUND_LIST) && !Separated(AROUND_LIST) && Listed(AROUND_LIST, AROUND_MET[2].code)
    ensures GC.Covered(MovedRanges(AROUND_LIST), AROUND_MET[2].block)
  {
    hide MovedRanges;
    var met, exts := AROUND_MET, AROUND_LIST;
    assert MovedRanges(exts)[1] in MovedRanges(exts);
    assert Lists(exts[1], met[2].code);
    assert Key(LastCode(exts[0])) > Key(exts[1].offset);
    assert met[0] in met && met[1] in met && met[2] in met && met[3] in met;
  }

  /**
    The extents that a list can give this file interleave in its walk, and the walk leaves the pointer to the indirect
    block alone although it is listed, whatever the places are; but the block is one that the bitmap update frees.
   */
  lemma ListedIsSkipped(apb: nat, runs: seq<FreeExtent>, total: nat, blocksCount: nat)
    requires apb >= 1
    ensures var fs, met, exts := AroundIndirect(apb), AROUND_MET, AROUND_LIST;
      && WellFormed(fs) && NoSharing(fs) && MetOf(fs, Visited(fs, INO)) == met
      && Ascending(met) && Mapped(exts, met) && SortedList(exts) && !Separated(exts)
      && Listed(exts, met[2].code) && !ChangedAt(exts, runs, total, blocksCount, met, 2)
      && GC.Covered(MovedRanges(exts), met[2].block)
  {
    hide *;
    AroundSound(apb);
    AroundVisited(apb);
    AroundMet(apb);
    AroundListed();
    AroundSkipped(runs, total, blocksCount);
  }
}
