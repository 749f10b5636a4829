/**
  The order in which the blocks of a file are visited, and the signed offset code that names them: a data block is
  named by its offset, an indirect block by a negative number made of the first offset below it and its depth.
 */
module BlockTree {
  import opened Arithmetic
  import opened Ext2

  // ----- First offsets

  /** The number of data blocks below a pointer of the given level. */
  function Span(apb: nat, level: nat): nat {
    if level == 0 then 1 else apb * Span(apb, level - 1)
  }

  /** The first offset below an entry of the inode. */
  function ZoneStart(apb: nat, top: nat): nat {
    if top <= NDIR then top
    else ZoneStart(apb, top - 1) + Span(apb, Height(top - 1))
  }

  /** The first data offset below a slot. */
  function First(apb: nat, s: Slot): nat
    decreases |s.path|
  {
    if s.path == [] then ZoneStart(apb, s.top)
    else First(apb, Parent(s)) + Last(s) * Span(apb, Level(s))
  }

  // ----- Offset codes

  /** The code of a block at a depth of indirection: 0 for single, 1 for double, 2 for triple. */
  function IndirectToOff(first: nat, depth: nat): int {
    -(4 * first + depth)
  }

  function OffToDepth(code: int): int
    requires code < 0
  {
    -code % 4
  }

  function OffToDataOff(code: int): int
    requires code < 0
  {
    -code / 4
  }

  function Code(apb: nat, s: Slot): int {
    if Level(s) == 0 then First(apb, s) else IndirectToOff(First(apb, s), Level(s) - 1)
  }

  /** The comparison of the source: by first offset, and deeper blocks first. */
  function CmpCode(a: int, b: int): int {
    var da := if a < 0 then OffToDepth(a) else -1;
    var oa := if a < 0 then OffToDataOff(a) else a;
    var db := if b < 0 then OffToDepth(b) else -1;
    var ob := if b < 0 then OffToDataOff(b) else b;
    if oa < ob then -1 else if oa > ob then 1 else db - da
  }

  /** The position of a code in that order. */
  function Key(code: int): int {
    if code < 0 then 5 * OffToDataOff(code) + 3 - OffToDepth(code) else 5 * code + 4
  }

  lemma CmpIsKeyOrder(a: int, b: int)
    ensures CmpCode(a, b) > 0 <==> Key(a) > Key(b)
    ensures CmpCode(a, b) < 0 <==> Key(a) < Key(b)
    ensures CmpCode(a, b) == 0 <==> a == b
  {}

  /** The code of an indirect block tells its level and first offset, and no data block shares it. */
  lemma CodeRoundTrip(apb: nat, s: Slot)
    requires |s.path| <= Height(s.top) && s.top < N_BLOCKS && (s.top >= NDIR ==> First(apb, s) > 0)
    ensures if Level(s) == 0 then Code(apb, s) == First(apb, s) else
        Code(apb, s) < 0 && OffToDepth(Code(apb, s)) == Level(s) - 1 && OffToDataOff(Code(apb, s)) == First(apb, s)
  {}

  /** The position of a slot in the order of codes. */
  function SlotKey(apb: nat, s: Slot): int {
    5 * First(apb, s) + 4 - Level(s)
  }

  lemma {:induction false} ZonePositive(apb: nat, top: nat)
    requires top >= NDIR
    ensures ZoneStart(apb, top) >= NDIR
  {
    if top > NDIR {
      ZonePositive(apb, top - 1);
    }
  }

  lemma {:induction false} FirstPositive(apb: nat, s: Slot)
    requires |s.path| <= Height(s.top) && s.top >= NDIR
    ensures First(apb, s) >= NDIR
    decreases |s.path|
  {
    if s.path == [] {
      ZonePositive(apb, s.top);
    } else {
      FirstPositive(apb, Parent(s));
    }
  }

  lemma CodeKey(apb: nat, s: Slot)
    requires |s.path| <= Height(s.top) && s.top < N_BLOCKS
    ensures Key(Code(apb, s)) == SlotKey(apb, s)
  {
    if s.top >= NDIR {
      FirstPositive(apb, s);
    }
    CodeRoundTrip(apb, s);
  }

  // ----- The walk

  /** The slots below and including `s`, a parent before its children, in the order the block iterator visits them. */
  function SubWalk(apb: nat, s: Slot): seq<Slot>
    requires |s.path| <= Height(s.top)
    decreases Level(s), apb + 1
  {
    [s] + if Level(s) == 0 then [] else ChildWalk(apb, s, 0)
  }

  function ChildWalk(apb: nat, s: Slot, i: nat): seq<Slot>
    requires |s.path| < Height(s.top)
    decreases Level(s), apb - i
  {
    if i >= apb then [] else SubWalk(apb, Child(s, i)) + ChildWalk(apb, s, i + 1)
  }

  /** All slots of an inode from entry `top` on. */
  function InodeWalk(apb: nat, ino: nat, top: nat): seq<Slot>
    decreases N_BLOCKS - top
  {
    if top >= N_BLOCKS then [] else SubWalk(apb, Slot(ino, top, [])) + InodeWalk(apb, ino, top + 1)
  }

  ghost predicate Shaped(s: Slot) {
    s.top < N_BLOCKS && |s.path| <= Height(s.top)
  }

  ghost predicate Increasing(apb: nat, w: seq<Slot>) {
    && (forall q <- w :: Shaped(q))
    && forall i, j | 0 <= i < j < |w| :: SlotKey(apb, w[i]) < SlotKey(apb, w[j])
  }

  /** The keys of a walk all lie in an interval. */
  ghost predicate Between(apb: nat, w: seq<Slot>, lo: int, hi: int) {
    forall q <- w :: Shaped(q) && lo <= SlotKey(apb, q) < hi
  }

  lemma IncreasingConcat(apb: nat, a: seq<Slot>, b: seq<Slot>, lo: int, mid: int, hi: int)
    requires Increasing(apb, a) && Increasing(apb, b)
    requires Between(apb, a, lo, mid) && Between(apb, b, mid, hi) && lo <= mid <= hi
    ensures Increasing(apb, a + b) && Between(apb, a + b, lo, hi)
  {
    var w := a + b;
    forall i, j | 0 <= i < j < |w| ensures SlotKey(apb, w[i]) < SlotKey(apb, w[j]) {
      if i < |a| <= j {
        assert w[i] in a && w[j] in b;
      }
    }
  }

  lemma ChildFirst(apb: nat, s: Slot, i: nat)
    requires |s.path| < Height(s.top)
    ensures First(apb, Child(s, i)) == First(apb, s) + i * Span(apb, Level(s) - 1)
    ensures Level(Child(s, i)) == Level(s) - 1
  {
    assert Parent(Child(s, i)) == s;
  }

  lemma MulStep(i: nat, apb: nat, n: nat)
    requires i < apb
    ensures i * n + n == (i + 1) * n <= apb * n
  {
    MulMono(i + 1, apb, n);
  }

  /** Below each slot the walk visits ascending keys, all between the key of the slot and that of its next sibling. */
  lemma {:induction false} SubWalkOrder(apb: nat, s: Slot)
    requires apb > 0 && Shaped(s)
    ensures Increasing(apb, SubWalk(apb, s))
    ensures Between(apb, SubWalk(apb, s), SlotKey(apb, s), 5 * (First(apb, s) + Span(apb, Level(s))))
    decreases Level(s), apb + 1
  {
    if Level(s) > 0 {
      var n := Span(apb, Level(s) - 1);
      var w := ChildWalk(apb, s, 0);
      ChildWalkOrder(apb, s, 0);
      var lo, hi := SlotKey(apb, s), 5 * (First(apb, s) + apb * n);
      SpanPositive(apb, Level(s));
      assert 0 * n == 0;
      assert Between(apb, w, lo + 1, hi);
      IncreasingConcat(apb, [s], w, lo, lo + 1, hi);
    }
  }

  lemma {:induction false} SpanPositive(apb: nat, level: nat)
    requires apb > 0
    ensures Span(apb, level) >= 1
  {
    if level > 0 {
      SpanPositive(apb, level - 1);
    }
  }

  lemma {:induction false} ChildWalkOrder(apb: nat, s: Slot, i: nat)
    requires apb > 0 && Shaped(s) && Level(s) > 0 && i <= apb
    ensures var n := Span(apb, Level(s) - 1);
      && Increasing(apb, ChildWalk(apb, s, i))
      && Between(apb, ChildWalk(apb, s, i), 5 * (First(apb, s) + i * n) + 5 - Level(s), 5 * (First(apb, s) + apb * n))
    decreases Level(s), apb - i
  {
    if i < apb {
      var n := Span(apb, Level(s) - 1);
      var f := First(apb, s);
      ChildFirst(apb, s, i);
      SubWalkOrder(apb, Child(s, i));
      ChildWalkOrder(apb, s, i + 1);
      MulStep(i, apb, n);
      var a, b := SubWalk(apb, Child(s, i)), ChildWalk(apb, s, i + 1);
      var lo, mid, hi := 5 * (f + i * n) + 5 - Level(s), 5 * (f + (i + 1) * n), 5 * (f + apb * n);
      assert Between(apb, a, lo, mid);
      assert Between(apb, b, mid, hi);
      IncreasingConcat(apb, a, b, lo, mid, hi);
    }
  }

  lemma {:induction false} InodeWalkOrder(apb: nat, ino: nat, top: nat)
    requires apb > 0
    ensures Increasing(apb, InodeWalk(apb, ino, top))
    ensures top < N_BLOCKS ==>
      Between(apb, InodeWalk(apb, ino, top), 5 * ZoneStart(apb, top), 5 * ZoneStart(apb, N_BLOCKS))
    decreases N_BLOCKS - top
  {
    if top < N_BLOCKS {
      var s := Slot(ino, top, []);
      SubWalkOrder(apb, s);
      InodeWalkOrder(apb, ino, top + 1);
      var a, b := SubWalk(apb, s), InodeWalk(apb, ino, top + 1);
      var lo, mid, hi := 5 * ZoneStart(apb, top), 5 * ZoneStart(apb, top + 1), 5 * ZoneStart(apb, N_BLOCKS);
      assert mid == 5 * (First(apb, s) + Span(apb, Level(s)));
      ZoneGrows(apb, top + 1);
      assert Between(apb, a, lo, mid);
      assert Between(apb, b, mid, hi);
      IncreasingConcat(apb, a, b, lo, mid, hi);
    }
  }

  lemma {:induction false} ZoneGrows(apb: nat, top: nat)
    requires apb > 0 && top <= N_BLOCKS
    ensures ZoneStart(apb, top) <= ZoneStart(apb, N_BLOCKS)
    decreases N_BLOCKS - top
  {
    if top < N_BLOCKS {
      ZoneGrows(apb, top + 1);
      SpanPositive(apb, Height(top));
    }
  }

  // ----- What is visited

  ghost predicate InTree(apb: nat, s: Slot) {
    Shaped(s) && forall k | 0 <= k < |s.path| :: s.path[k] < apb
  }

  /** `q` is `s` or lies below it. */
  ghost predicate Below(s: Slot, q: Slot) {
    q.ino == s.ino && q.top == s.top && s.path <= q.path
  }

  lemma {:induction false} SubWalkMembers(apb: nat, s: Slot, q: Slot)
    requires InTree(apb, s)
    ensures q in SubWalk(apb, s) <==> InTree(apb, q) && Below(s, q)
    decreases Level(s), apb + 1
  {
    if Level(s) > 0 {
      ChildWalkMembers(apb, s, 0, q);
    }
    if InTree(apb, q) && Below(s, q) && |q.path| == |s.path| {
      assert q.path == s.path;
    }
  }

  lemma {:induction false} ChildWalkMembers(apb: nat, s: Slot, i: nat, q: Slot)
    requires InTree(apb, s) && Level(s) > 0 && i <= apb
    ensures q in ChildWalk(apb, s, i) <==>
      InTree(apb, q) && Below(s, q) && |q.path| > |s.path| && q.path[|s.path|] >= i
    decreases Level(s), apb - i
  {
    if i < apb {
      SubWalkMembers(apb, Child(s, i), q);
      ChildWalkMembers(apb, s, i + 1, q);
      assert Below(Child(s, i), q) <==> Below(s, q) && |q.path| > |s.path| && q.path[|s.path|] == i;
    }
  }

  /** The walk over an inode visits exactly its slots. */
  lemma {:induction false} InodeWalkMembers(apb: nat, ino: nat, top: nat, q: Slot)
    ensures q in InodeWalk(apb, ino, top) <==> InTree(apb, q) && q.ino == ino && q.top >= top
    decreases N_BLOCKS - top
  {
    if top < N_BLOCKS {
      SubWalkMembers(apb, Slot(ino, top, []), q);
      InodeWalkMembers(apb, ino, top + 1, q);
    }
  }
}
