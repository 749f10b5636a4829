/**
  How e2remapblocks recomputes the offset code of each block it visits, from the depth of the tree it is in and two
  indices it keeps up to date, and when that code is the documented one.
 */
module Traverse {
  import opened Ext2
  import opened BlockTree

  /** The part of the traversal data that the codes depend on. */
  datatype Trav = Trav(depth: int, ind0: nat, ind1: nat)

  const TRAV_START := Trav(-1, 0, 0)

  /** The index of a pointer in its block, as derived from the offset the iterator passes. */
  function ParentIndex(s: Slot): nat {
    if s.path == [] then s.top / 4 else Last(s)
  }

  function NextTrav(t: Trav, s: Slot): Trav {
    match Level(s)
    case 0 => t
    case 1 => if t.depth < 0 then t.(depth := 0) else t.(ind0 := ParentIndex(s))
    case 2 => if t.depth < 1 then t.(depth := 1, ind0 := 0) else t.(ind1 := ParentIndex(s))
    case _ => if t.depth < 2 then Trav(2, 0, 0) else t
  }

  function IndexToOffset(apb: nat, t: Trav): nat {
    if t.depth == 0 then NDIR
    else if t.depth == 1 then NDIR + apb + t.ind0 * apb
    else if t.depth == 2 then NDIR + apb + apb * apb + t.ind0 * apb + t.ind1 * apb * apb
    else 0
  }

  /** The code of a visited block, with the traversal data already updated for it. */
  function WalkCode(apb: nat, t: Trav, s: Slot): int {
    if Level(s) == 0 then First(apb, s) else IndirectToOff(IndexToOffset(apb, t), Level(s) - 1)
  }

  ghost function TravAfter(v: seq<Slot>): Trav {
    if v == [] then TRAV_START else NextTrav(TravAfter(v[..|v| - 1]), v[|v| - 1])
  }

  /** The code computed for the last slot of a walk. */
  ghost function CodeAt(apb: nat, v: seq<Slot>, k: nat): int
    requires k < |v|
  {
    WalkCode(apb, TravAfter(v[..k + 1]), v[k])
  }

  /** The slots a walk over one inode visits: in order, and each after its parent. */
  ghost predicate Visit(apb: nat, ino: nat, v: seq<Slot>) {
    && Increasing(apb, v)
    && (forall q <- v :: InTree(apb, q) && q.ino == ino)
    && (forall q <- v :: q.path != [] ==> Parent(q) in v)
  }

  /** The index of the last single-indirect block visited below the triple-indirect one; 0 before the first. */
  ghost function LastInd(v: seq<Slot>): nat {
    if v == [] then 0
    else
      var s := v[|v| - 1];
      if s.top == 14 && |s.path| == 2 then s.path[1] else LastInd(v[..|v| - 1])
  }

  /** The index kept for single-indirect blocks is left over from another double-indirect block. */
  ghost predicate StaleAt(v: seq<Slot>, k: nat)
    requires k < |v|
  {
    v[k].top == 14 && |v[k].path| == 1 && LastInd(v[..k]) != 0
  }

  // ----- First offsets, spelled out

  lemma Zones(apb: nat)
    ensures ZoneStart(apb, 12) == 12
    ensures ZoneStart(apb, 13) == 12 + apb
    ensures ZoneStart(apb, 14) == 12 + apb + apb * apb
    ensures Span(apb, 1) == apb && Span(apb, 2) == apb * apb && Span(apb, 3) == apb * (apb * apb)
  {
    assert ZoneStart(apb, 13) == ZoneStart(apb, 12) + Span(apb, 1);
    assert ZoneStart(apb, 14) == ZoneStart(apb, 13) + Span(apb, 2);
    assert Span(apb, 2) == apb * Span(apb, 1) && Span(apb, 3) == apb * Span(apb, 2);
  }

  lemma FirstShort(apb: nat, s: Slot)
    requires Shaped(s)
    ensures s.path == [] ==> First(apb, s) == ZoneStart(apb, s.top)
    ensures |s.path| == 1 ==> First(apb, s) == ZoneStart(apb, s.top) + s.path[0] * Span(apb, Level(s))
    ensures |s.path| == 2 ==>
      First(apb, s) == ZoneStart(apb, s.top) + s.path[0] * Span(apb, Level(s) + 1) + s.path[1] * Span(apb, Level(s))
  {
    hide ZoneStart, Span;
    if |s.path| == 2 {
      var p := Parent(s);
      assert p.path == [s.path[0]] && Parent(p).path == [];
      assert First(apb, s) == First(apb, p) + Last(s) * Span(apb, Level(s));
      assert First(apb, p) == First(apb, Parent(p)) + Last(p) * Span(apb, Level(p));
    } else if |s.path| == 1 {
      assert Parent(s).path == [];
    }
  }

  ghost function TriplePlace(apb: nat, s: Slot): nat {
    12 + apb + apb * apb
    + (if s.path == [] then 0 else s.path[0] * (apb * apb))
    + (if |s.path| < 2 then 0 else s.path[1] * apb)
  }

  lemma FirstSpelled(apb: nat, s: Slot)
    requires Shaped(s) && Level(s) > 0
    ensures s.top == 12 ==> First(apb, s) == 12
    ensures s.top == 13 ==> First(apb, s) == 12 + apb + if s.path == [] then 0 else s.path[0] * apb
    ensures s.top == 14 ==> First(apb, s) == TriplePlace(apb, s)
  {
    Zones(apb);
    FirstShort(apb, s);
    hide First, ZoneStart, Span;
  }

  /** Slots further along have entries of the inode further along. */
  lemma TopOrder(apb: nat, a: Slot, b: Slot)
    requires apb > 0 && InTree(apb, a) && InTree(apb, b) && a.top < b.top
    ensures SlotKey(apb, a) < SlotKey(apb, b)
  {
    SubKey(apb, a.(path := []), a);
    SubKey(apb, b.(path := []), b);
    ZoneOrder(apb, a.top, b.top);
  }

  lemma {:induction false} ZoneOrder(apb: nat, a: nat, b: nat)
    requires apb > 0 && a < b
    ensures ZoneStart(apb, a) + Span(apb, Height(a)) <= ZoneStart(apb, b)
  {
    if a + 1 < b {
      ZoneOrder(apb, a, b - 1);
      SpanPositive(apb, Height(b - 1));
    }
  }

  /** The keys below a slot. */
  lemma SubKey(apb: nat, s: Slot, q: Slot)
    requires apb > 0 && InTree(apb, s) && InTree(apb, q) && Below(s, q)
    ensures SlotKey(apb, s) <= SlotKey(apb, q) < 5 * (First(apb, s) + Span(apb, Level(s)))
  {
    SubWalkOrder(apb, s);
    SubWalkMembers(apb, s, q);
  }

  lemma KeyStrict(apb: nat, s: Slot, q: Slot)
    requires apb > 0 && InTree(apb, s) && InTree(apb, q) && Below(s, q) && |q.path| > |s.path|
    ensures SlotKey(apb, s) < SlotKey(apb, q)
  {
    SubWalkOrder(apb, s);
    SubWalkMembers(apb, s, q);
    var w := SubWalk(apb, s);
    assert w[0] == s;
    var i :| 0 <= i < |w| && w[i] == q;
  }

  /** A slot between a block and something below it is itself below that block. */
  lemma BetweenBelow(apb: nat, s: Slot, q: Slot, r: Slot)
    requires apb > 0 && InTree(apb, s) && InTree(apb, q) && InTree(apb, r) && Below(s, q)
    requires r.ino == s.ino && s.top == 14 && |s.path| == 1
    requires SlotKey(apb, s) <= SlotKey(apb, r) < SlotKey(apb, q)
    ensures Below(s, r)
  {
    SubKey(apb, s, q);
    if r.top < 14 {
      TopOrder(apb, r, s);
    }
    FirstSpelled(apb, s);
    Zones(apb);
    if r.path == [] {
      FirstSpelled(apb, r);
    } else {
      var r0 := Slot(r.ino, 14, r.path[..1]);
      SubKey(apb, r0, r);
      FirstSpelled(apb, r0);
      var n := apb * apb;
      assert SlotKey(apb, r) < 5 * (First(apb, r0) + n);
      if r.path[0] < s.path[0] {
        MulStep(r.path[0], s.path[0], n);
      } else if s.path[0] < r.path[0] {
        MulStep(s.path[0], r.path[0], n);
      }
    }
  }

  // ----- The traversal data after each visited block

  lemma Neighbours(apb: nat, ino: nat, v: seq<Slot>, k: nat)
    requires apb > 0 && Visit(apb, ino, v) && 0 < k < |v|
    ensures v[k - 1].top <= v[k].top
    ensures v[k].path != [] ==> v[k - 1].top == v[k].top
    ensures v[k].path == [] && v[k].top >= 12 ==> v[k - 1].top < v[k].top
  {
    var a, b := v[k - 1], v[k];
    assert a in v && b in v;
    if b.top < a.top {
      TopOrder(apb, b, a);
    }
    if b.path != [] {
      var j :| 0 <= j < |v| && v[j] == Parent(b);
      SubKey(apb, Parent(b), b);
      assert j <= k - 1;
      if a.top < b.top {
        TopOrder(apb, a, Parent(b));
      }
    } else if b.top >= 12 && a.top == b.top {
      SubKey(apb, b, a);
    }
  }

  /** Between a double-indirect block and what lies below it, everything lies below it. */
  lemma SameDouble(apb: nat, ino: nat, v: seq<Slot>, k: nat)
    requires apb > 0 && Visit(apb, ino, v) && 0 < k < |v|
    requires v[k].top == 14 && |v[k].path| >= 2
    ensures v[k - 1].path != [] && v[k - 1].path[0] == v[k].path[0]
  {
    hide First, SlotKey;
    var a, b := v[k - 1], v[k];
    var g := Slot(b.ino, 14, b.path[..1]);
    assert a in v && b in v;
    assert g in v by {
      assert Parent(b) in v;
      if |b.path| == 3 {
        assert Parent(Parent(b)) in v;
        assert Parent(Parent(b)) == g;
      } else {
        assert Parent(b) == g;
      }
    }
    KeyStrict(apb, g, b);
    var i :| 0 <= i < |v| && v[i] == g;
    assert i <= k - 1;
    BetweenBelow(apb, g, b, a);
  }

  lemma NoParentFirst(apb: nat, ino: nat, v: seq<Slot>)
    requires apb > 0 && Visit(apb, ino, v) && v != []
    ensures v[0].path == []
  {
    var s := v[0];
    if s.path != [] {
      var j :| 0 <= j < |v| && v[j] == Parent(s);
      SubKey(apb, Parent(s), s);
    }
  }

  /** What the traversal data says about the last visited slot. */
  ghost predicate TravSays(t: Trav, s: Slot, lastInd: nat) {
    && t.depth == (if s.top < 12 then -1 else s.top - 12)
    && (s.top == 14 ==> t.ind0 == lastInd && t.ind1 == if s.path == [] then 0 else s.path[0])
    && (s.top < 14 ==> lastInd == 0)
    && (s.top == 13 && s.path == [] ==> t.ind0 == 0)
    && (s.top == 13 && |s.path| == 1 ==> t.ind0 == s.path[0])
  }

  /** One visited block, after `prev` of the same inode. */
  lemma TravStep(t: Trav, prev: Slot, s: Slot, lastInd: nat)
    requires Shaped(prev) && Shaped(s) && TravSays(t, prev, lastInd) && prev.top <= s.top
    requires s.path != [] ==> prev.top == s.top
    requires s.path == [] && s.top >= 12 ==> prev.top < s.top
    requires s.top == 14 && |s.path| >= 2 ==> prev.path != [] && prev.path[0] == s.path[0]
    ensures TravSays(NextTrav(t, s), s, if s.top == 14 && |s.path| == 2 then s.path[1] else lastInd)
  {}

  /** The first visited block. */
  lemma FirstStep(s: Slot)
    requires Shaped(s) && s.path == []
    ensures TravSays(NextTrav(TRAV_START, s), s, 0)
  {}

  lemma {:induction false} TravState(apb: nat, ino: nat, v: seq<Slot>, k: nat)
    requires apb > 0 && Visit(apb, ino, v) && 0 < k <= |v|
    ensures TravSays(TravAfter(v[..k]), v[k - 1], LastInd(v[..k]))
  {
    hide SlotKey, First, TravAfter, LastInd, NextTrav, TravSays;
    var s := v[k - 1];
    assert s in v && Shaped(s);
    TravNext(v, k - 1);
    if k == 1 {
      NoParentFirst(apb, ino, v);
      assert v[..0] == [];
      NoneVisited();
      FirstStep(s);
    } else {
      TravState(apb, ino, v, k - 1);
      Neighbours(apb, ino, v, k - 1);
      if s.top == 14 && |s.path| >= 2 {
        SameDouble(apb, ino, v, k - 1);
      }
      assert v[k - 2] in v && Shaped(v[k - 2]);
      TravStep(TravAfter(v[..k - 1]), v[k - 2], s, LastInd(v[..k - 1]));
    }
  }

  lemma Associate(a: nat, b: nat, c: nat)
    ensures a * b * c == a * (b * c)
  {}

  /** The code of an indirect block from the traversal data after it. */
  lemma CodeOf(apb: nat, t: Trav, s: Slot, lastInd: nat)
    requires apb > 0 && Shaped(s) && Level(s) > 0 && TravSays(t, s, lastInd)
    requires s.top == 14 && |s.path| == 2 ==> lastInd == s.path[1]
    ensures IndexToOffset(apb, t) == First(apb, s) + (if s.top == 14 && |s.path| < 2 then lastInd * apb else 0)
  {
    hide First;
    FirstSpelled(apb, s);
    Associate(t.ind1, apb, apb);
    if s.path == [] {
      assert 0 * apb == 0 && 0 * (apb * apb) == 0;
    }
  }

  /** How far the first offset used for a visited block is behind the right one. */
  ghost function Excess(apb: nat, v: seq<Slot>, k: nat): nat
    requires k < |v|
  {
    if StaleAt(v, k) then LastInd(v[..k]) * apb else 0
  }

  lemma VisitedShaped(apb: nat, ino: nat, v: seq<Slot>, k: nat)
    requires Visit(apb, ino, v) && k < |v|
    ensures Shaped(v[k])
  {
    assert v[k] in v;
  }

  lemma DataKey(first: nat)
    ensures Key(first) == 5 * first + 4
  {}

  lemma IndirectKey(first: nat, depth: nat)
    requires first > 0 && depth < 3
    ensures Key(IndirectToOff(first, depth)) == 5 * first + 3 - depth
  {}

  /** A left-over index moves the computed code behind the documented one, within the same double-indirect block. */
  lemma CodeAtKey(apb: nat, ino: nat, v: seq<Slot>, k: nat)
    requires apb > 0 && Visit(apb, ino, v) && k < |v|
    ensures Key(CodeAt(apb, v, k)) == SlotKey(apb, v[k]) + 5 * Excess(apb, v, k)
  {
    hide First, TravAfter, IndexToOffset, IndirectToOff, Key, Visit, TravSays, LastInd;
    var s := v[k];
    var t, lastInd := TravAfter(v[..k + 1]), LastInd(v[..k + 1]);
    VisitedShaped(apb, ino, v, k);
    TravState(apb, ino, v, k + 1);
    TravNext(v, k);
    if Level(s) == 0 {
      DataKey(First(apb, s));
    } else {
      assert v[k + 1 - 1] == s;
      CodeOf(apb, t, s, lastInd);
      if s.top == 14 && s.path == [] {
        FirstTop(apb, ino, v, k);
        assert 0 * apb == 0;
      }
      FirstPositive(apb, s);
      IndirectKey(IndexToOffset(apb, t), Level(s) - 1);
    }
  }

  lemma StaleMul(lastInd: nat, apb: nat)
    requires apb > 0
    ensures lastInd * apb == 0 <==> lastInd == 0
  {}

  /** The code computed for a visited block is the documented one, unless it uses a left-over index. */
  lemma CodeRight(apb: nat, ino: nat, v: seq<Slot>, k: nat)
    requires apb > 0 && Visit(apb, ino, v) && k < |v|
    ensures CodeAt(apb, v, k) == Code(apb, v[k]) <==> !StaleAt(v, k)
  {
    hide First, CodeAt, SlotKey, Code, Key, CmpCode;
    assert v[k] in v;
    CodeAtKey(apb, ino, v, k);
    CodeKey(apb, v[k]);
    CmpIsKeyOrder(CodeAt(apb, v, k), Code(apb, v[k]));
    StaleMul(LastInd(v[..k]), apb);
  }

  lemma FirstTop(apb: nat, ino: nat, v: seq<Slot>, k: nat)
    requires apb > 0 && Visit(apb, ino, v) && k < |v| && v[k].top == 14 && v[k].path == []
    ensures LastInd(v[..k + 1]) == 0
  {
    assert v[..k + 1][..k] == v[..k] && v[..k + 1][k] == v[k];
    if k > 0 {
      TravState(apb, ino, v, k);
      Neighbours(apb, ino, v, k);
    } else {
      assert v[..0] == [];
    }
  }

  // ----- When the computed codes ascend

  /**
    A double-indirect block whose left-over index is larger than the index of the single-indirect block visited next:
    the code of the former comes out behind that of the latter.
   */
  ghost predicate OvertakenAt(v: seq<Slot>, k: nat)
    requires k < |v|
  {
    StaleAt(v, k) && k + 1 < |v| && |v[k + 1].path| == 2 && v[k + 1].path[1] < LastInd(v[..k])
  }

  lemma {:induction false} LastIndSmall(apb: nat, v: seq<Slot>)
    requires apb > 0 && forall q <- v :: InTree(apb, q)
    ensures LastInd(v) < apb
  {
    if v != [] {
      assert v[|v| - 1] in v;
      LastIndSmall(apb, v[..|v| - 1]);
    }
  }

  /** What is visited right after a double-indirect block below the triple-indirect one. */
  lemma AfterDouble(apb: nat, ino: nat, v: seq<Slot>, k: nat)
    requires apb > 0 && Visit(apb, ino, v) && k + 1 < |v| && v[k].top == 14 && |v[k].path| == 1
    ensures v[k + 1].top == 14 && 1 <= |v[k + 1].path| <= 2
    ensures |v[k + 1].path| == 2 ==> v[k + 1].path[0] == v[k].path[0]
  {
    hide First, SlotKey;
    var a, b := v[k], v[k + 1];
    assert a in v && b in v && Shaped(b);
    Neighbours(apb, ino, v, k + 1);
    if |b.path| >= 2 {
      SameDouble(apb, ino, v, k + 1);
      if |b.path| == 3 {
        var j :| 0 <= j < |v| && v[j] == Parent(b);
        KeyStrict(apb, a, Parent(b));
        KeyStrict(apb, Parent(b), b);
        assert false;
      }
    }
  }

  lemma MulOrder(a: nat, b: nat, n: nat)
    requires n > 0
    ensures a * n <= b * n <==> a <= b
    ensures a < b ==> a * n + n <= b * n
  {
    if a < b {
      MulStep(a, b, n);
    } else if b < a {
      MulStep(b, a, n);
    }
  }

  /** The next code, for a double-indirect block with a left-over index. */
  lemma AfterStale(apb: nat, ino: nat, v: seq<Slot>, k: nat)
    requires apb > 0 && Visit(apb, ino, v) && k + 1 < |v| && StaleAt(v, k)
    ensures SlotKey(apb, v[k]) + 5 * Excess(apb, v, k) < SlotKey(apb, v[k + 1]) + 5 * Excess(apb, v, k + 1) <==>
      !OvertakenAt(v, k)
  {
    hide First, Visit, LastInd;
    var a, b, last := v[k], v[k + 1], LastInd(v[..k]);
    AfterDouble(apb, ino, v, k);
    VisitedPair(apb, ino, v, k);
    FirstSpelled(apb, a);
    FirstSpelled(apb, b);
    MulOrder(last, apb, apb);
    if |b.path| == 1 {
      MulOrder(a.path[0], b.path[0], apb * apb);
    } else {
      MulOrder(last, b.path[1], apb);
    }
  }

  lemma VisitedPair(apb: nat, ino: nat, v: seq<Slot>, k: nat)
    requires apb > 0 && Visit(apb, ino, v) && k + 1 < |v|
    ensures Shaped(v[k]) && Shaped(v[k + 1]) && SlotKey(apb, v[k]) < SlotKey(apb, v[k + 1])
    ensures LastInd(v[..k]) < apb
  {
    assert v[k] in v && v[k + 1] in v;
    assert forall q <- v[..k] :: q in v;
    LastIndSmall(apb, v[..k]);
  }

  lemma NextCode(apb: nat, ino: nat, v: seq<Slot>, k: nat)
    requires apb > 0 && Visit(apb, ino, v) && k + 1 < |v|
    ensures Key(CodeAt(apb, v, k)) < Key(CodeAt(apb, v, k + 1)) <==> !OvertakenAt(v, k)
  {
    hide CodeAt, Key, SlotKey, StaleAt, Visit;
    CodeAtKey(apb, ino, v, k);
    CodeAtKey(apb, ino, v, k + 1);
    if StaleAt(v, k) {
      AfterStale(apb, ino, v, k);
    } else {
      VisitedPair(apb, ino, v, k);
    }
  }

  lemma {:induction false} CodesRise(apb: nat, ino: nat, v: seq<Slot>, j: nat, k: nat)
    requires apb > 0 && Visit(apb, ino, v) && j < k < |v|
    requires forall i | 0 <= i < |v| :: !OvertakenAt(v, i)
    ensures Key(CodeAt(apb, v, j)) < Key(CodeAt(apb, v, k))
  {
    hide CodeAt, Key, Visit, OvertakenAt;
    NextCode(apb, ino, v, k - 1);
    if j < k - 1 {
      CodesRise(apb, ino, v, j, k - 1);
    }
  }

  ghost predicate CodesAscending(apb: nat, v: seq<Slot>) {
    forall j, k | 0 <= j < k < |v| :: CmpCode(CodeAt(apb, v, j), CodeAt(apb, v, k)) < 0
  }

  /** The walk computes ascending codes exactly if no left-over index overtakes the block visited next. */
  lemma CodesAscend(apb: nat, ino: nat, v: seq<Slot>)
    requires apb > 0 && Visit(apb, ino, v)
    ensures CodesAscending(apb, v) <==> forall k | 0 <= k < |v| :: !OvertakenAt(v, k)
  {
    hide CodeAt, Key, CmpCode, Visit, OvertakenAt;
    if CodesAscending(apb, v) {
      forall k | 0 <= k < |v| ensures !OvertakenAt(v, k) {
        if k + 1 < |v| {
          NextCode(apb, ino, v, k);
          CmpIsKeyOrder(CodeAt(apb, v, k), CodeAt(apb, v, k + 1));
        } else {
          LastNotOvertaken(v);
        }
      }
    }
    if forall k | 0 <= k < |v| :: !OvertakenAt(v, k) {
      forall j, k | 0 <= j < k < |v| ensures CmpCode(CodeAt(apb, v, j), CodeAt(apb, v, k)) < 0 {
        CodesRise(apb, ino, v, j, k);
        CmpIsKeyOrder(CodeAt(apb, v, j), CodeAt(apb, v, k));
      }
    }
  }

  lemma LastNotOvertaken(v: seq<Slot>)
    requires v != []
    ensures !OvertakenAt(v, |v| - 1)
  {}

  lemma TravNext(v: seq<Slot>, k: nat)
    requires k < |v|
    ensures TravAfter(v[..k + 1]) == NextTrav(TravAfter(v[..k]), v[k])
    ensures LastInd(v[..k + 1]) == if v[k].top == 14 && |v[k].path| == 2 then v[k].path[1] else LastInd(v[..k])
  {
    assert v[..k + 1][..k] == v[..k];
  }

  lemma NoneVisited()
    ensures TravAfter([]) == TRAV_START && LastInd([]) == 0
  {}
}
