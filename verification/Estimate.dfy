/** How many blocks a range of a file takes, indirect blocks included, and how e2moveblocks estimates that number. */
module Estimate {
  import opened Arithmetic
  import opened Ext2

  // ----- The blocks on the way to an offset

  function Square(apb: nat): nat {
    apb * apb
  }

  function Div(a: nat, d: nat): nat
    requires d > 0
  {
    a / d
  }

  function Mod(a: nat, d: nat): nat
    requires d > 0
  {
    a % d
  }

  function DindStart(apb: nat): nat {
    NDIR + apb
  }

  function TindStart(apb: nat): nat {
    NDIR + apb + Square(apb)
  }

  predicate IsDirect(o: nat) {
    o < NDIR
  }

  predicate Is1Indirect(apb: nat, o: nat) {
    NDIR <= o && o - NDIR < apb
  }

  predicate Is2Indirect(apb: nat, o: nat) {
    NDIR + apb <= o && o - NDIR - apb < Square(apb)
  }

  predicate Is3Indirect(apb: nat, o: nat) {
    NDIR + apb <= o && o - NDIR - apb >= Square(apb)
  }

  /** The slots from the inode down to the data block at an offset. */
  function PathTo(apb: nat, ino: nat, o: nat): seq<Slot>
    requires apb > 0
  {
    if IsDirect(o) then [Slot(ino, o, [])]
    else if Is1Indirect(apb, o) then [Slot(ino, 12, []), Slot(ino, 12, [o - NDIR])]
    else if Is2Indirect(apb, o) then
      var r := o - DindStart(apb);
      [Slot(ino, 13, []), Slot(ino, 13, [Div(r, apb)]), Slot(ino, 13, [Div(r, apb), Mod(r, apb)])]
    else
      var r := o - TindStart(apb);
      var a := Div(r, apb);
      [Slot(ino, 14, []), Slot(ino, 14, [Div(a, apb)]), Slot(ino, 14, [Div(a, apb), Mod(a, apb)]),
       Slot(ino, 14, [Div(a, apb), Mod(a, apb), Mod(r, apb)])]
  }

  ghost function SlotsTo(apb: nat, ino: nat, o: nat): set<Slot>
    requires apb > 0
  {
    set q <- PathTo(apb, ino, o)
  }

  /** All slots on the way to `n` offsets from `s` on. */
  ghost function Paths(apb: nat, ino: nat, s: nat, n: nat): set<Slot>
    requires apb > 0
  {
    if n == 0 then {} else Paths(apb, ino, s, n - 1) + SlotsTo(apb, ino, s + n - 1)
  }

  // ----- Counting them

  lemma DivNext(x: nat, d: nat)
    requires d > 1
    ensures Mod(x + 1, d) == 0 ==> Div(x + 1, d) == Div(x, d) + 1 && Mod(x, d) == d - 1
    ensures Mod(x + 1, d) != 0 ==> Div(x + 1, d) == Div(x, d) && Mod(x + 1, d) == Mod(x, d) + 1
  {
    var q, r := x / d, x % d;
    assert x == q * d + r;
    if r == d - 1 {
      assert x + 1 == (q + 1) * d;
      DivUnique(x + 1, q + 1, 0, d);
    } else {
      DivUnique(x + 1, q, r + 1, d);
    }
  }

  lemma DivUnique(x: nat, q: nat, r: nat, d: nat)
    requires d > 0 && r < d && x == q * d + r
    ensures Div(x, d) == q && Mod(x, d) == r
  {
    var p, t := x / d, x % d;
    assert x == p * d + t;
    if p < q {
      MulMono(p + 1, q, d);
    } else if q < p {
      MulMono(q + 1, p, d);
    }
  }

  lemma DivZero(d: nat)
    requires d > 0
    ensures Div(0, d) == 0 && Mod(0, d) == 0
  {}

  /** The blocks that come before and including the path to `o`, counting each once, in a file without holes. */
  function Upto(apb: nat, o: nat): nat
    requires apb > 0
  {
    if IsDirect(o) then o + 1
    else if Is1Indirect(apb, o) then o + 2
    else if Is2Indirect(apb, o) then o + 4 + Div(o - DindStart(apb), apb)
    else
      var r := o - TindStart(apb);
      o + 6 + apb + Div(r, apb) + Div(Div(r, apb), apb)
  }

  /** A path goes down one level at a time. */
  ghost predicate Descending(p: seq<Slot>) {
    forall i | 0 <= i < |p| :: |p[i].path| == i
  }

  lemma PathDescends(apb: nat, ino: nat, o: nat)
    requires apb > 0
    ensures Descending(PathTo(apb, ino, o))
  {
    hide Div, Mod, Square;
  }

  ghost function Members(p: seq<Slot>): set<Slot> {
    set q <- p
  }

  lemma {:induction false} MembersCount(p: seq<Slot>, k: nat)
    requires Descending(p) && k <= |p|
    ensures |Members(p[k..])| == |p| - k
    decreases |p| - k
  {
    hide Descending;
    if k < |p| {
      MembersCount(p, k + 1);
      FreshMember(p, k);
    }
  }

  lemma FreshMember(p: seq<Slot>, k: nat)
    requires Descending(p) && k < |p|
    ensures p[k] !in Members(p[k + 1..]) && Members(p[k..]) == {p[k]} + Members(p[k + 1..])
  {
    assert p[k..] == [p[k]] + p[k + 1..];
  }

  /** Two paths that part at level `k`. */
  lemma PartAt(p: seq<Slot>, q: seq<Slot>, k: nat)
    requires Descending(p) && Descending(q) && k <= |q| && k <= |p|
    requires forall i | 0 <= i < k :: p[i] == q[i]
    requires forall i | k <= i < |q| && i < |p| :: p[i] != q[i]
    ensures |Members(q) - Members(p)| == |q| - k
  {
    MembersCount(q, k);
    forall x ensures x in Members(q) - Members(p) <==> x in Members(q[k..]) {
      if x in q[k..] {
        var i :| 0 <= i < |q[k..]| && q[k..][i] == x;
        assert q[k + i] == x;
      }
      if x in q && x !in p {
        var i :| 0 <= i < |q| && q[i] == x;
        assert i >= k && q[k..][i - k] == x;
      }
    }
    assert Members(q) - Members(p) == Members(q[k..]);
  }

  /** How much of the path to the offset before `o` the path to `o` shares. */
  ghost function Shared(apb: nat, o: nat): nat
    requires apb > 0 && o > 0
  {
    if IsDirect(o) || o == NDIR || o == DindStart(apb) || o == TindStart(apb) then 0
    else if Is1Indirect(apb, o) then 1
    else if Is2Indirect(apb, o) then (if Mod(o - DindStart(apb), apb) == 0 then 1 else 2)
    else
      var r := o - TindStart(apb);
      if Mod(r, apb) != 0 then 3 else if Mod(Div(r, apb), apb) != 0 then 2 else 1
  }

  lemma SharedRight(apb: nat, o: nat)
    requires apb > 1 && o > 0
    ensures |PathTo(apb, 0, o)| == Shared(apb, o) + Upto(apb, o) - Upto(apb, o - 1)
  {
    hide Div, Mod, Square;
    LastDouble(apb);
    DivZero(apb);
    if Is2Indirect(apb, o) && o > DindStart(apb) {
      DivNext(o - DindStart(apb) - 1, apb);
    } else if Is3Indirect(apb, o) && o > TindStart(apb) {
      var r := o - TindStart(apb);
      DivNext(r - 1, apb);
      if Mod(r, apb) == 0 {
        DivNext(Div(r - 1, apb), apb);
      }
    }
  }

  lemma SharedPart(apb: nat, ino: nat, o: nat)
    requires apb > 1 && o > 0
    ensures var p, q, k := PathTo(apb, ino, o - 1), PathTo(apb, ino, o), Shared(apb, o);
      && k <= |p| && k <= |q|
      && (forall i | 0 <= i < k :: p[i] == q[i])
      && (forall i | k <= i < |q| && i < |p| :: p[i] != q[i])
  {
    hide Div, Mod, Square;
    LastDouble(apb);
    if Is2Indirect(apb, o) && o > DindStart(apb) {
      SharedDouble(apb, ino, o);
    } else if Is3Indirect(apb, o) && o > TindStart(apb) {
      SharedTriple(apb, ino, o);
    }
  }

  lemma SharedDouble(apb: nat, ino: nat, o: nat)
    requires apb > 1 && Is2Indirect(apb, o) && o > DindStart(apb)
    ensures var p, q, k := PathTo(apb, ino, o - 1), PathTo(apb, ino, o), Shared(apb, o);
      && k <= |p| && k <= |q|
      && (forall i | 0 <= i < k :: p[i] == q[i])
      && (forall i | k <= i < |q| && i < |p| :: p[i] != q[i])
  {
    hide Div, Mod, Square;
    var p, q := PathTo(apb, ino, o - 1), PathTo(apb, ino, o);
    var r := o - DindStart(apb);
    DivNext(r - 1, apb);
    assert p[1].path[0] == Div(r - 1, apb) && q[1].path[0] == Div(r, apb);
    assert p[2].path[1] == Mod(r - 1, apb) && q[2].path[1] == Mod(r, apb);
    assert p[2].path[0] == Div(r - 1, apb) && q[2].path[0] == Div(r, apb);
  }

  lemma SharedTriple(apb: nat, ino: nat, o: nat)
    requires apb > 1 && Is3Indirect(apb, o) && o > TindStart(apb)
    ensures var p, q, k := PathTo(apb, ino, o - 1), PathTo(apb, ino, o), Shared(apb, o);
      && k <= |p| && k <= |q|
      && (forall i | 0 <= i < k :: p[i] == q[i])
      && (forall i | k <= i < |q| && i < |p| :: p[i] != q[i])
  {
    hide Div, Mod, Square;
    var p, q := PathTo(apb, ino, o - 1), PathTo(apb, ino, o);
    var r := o - TindStart(apb);
    DivNext(r - 1, apb);
    var a, b := Div(r - 1, apb), Div(r, apb);
    if Mod(r, apb) == 0 {
      DivNext(a, apb);
    }
    assert p[1].path[0] == Div(a, apb) && q[1].path[0] == Div(b, apb);
    assert p[2].path[1] == Mod(a, apb) && q[2].path[1] == Mod(b, apb);
    assert p[2].path[0] == Div(a, apb) && q[2].path[0] == Div(b, apb);
    assert p[3].path[2] == Mod(r - 1, apb) && q[3].path[2] == Mod(r, apb);
    assert p[3].path[1] == Mod(a, apb) && q[3].path[1] == Mod(b, apb);
  }

  lemma LastDouble(apb: nat)
    requires apb > 0
    ensures Square(apb) > 0 && Div(Square(apb) - 1, apb) == apb - 1
  {
    DivUnique(apb * apb - 1, apb - 1, apb - 1, apb);
  }

  /** The slots of the path to `o` that are not on the path to the offset before. */
  lemma NewSlots(apb: nat, ino: nat, o: nat)
    requires apb > 1 && o > 0
    ensures |SlotsTo(apb, ino, o) - SlotsTo(apb, ino, o - 1)| == Upto(apb, o) - Upto(apb, o - 1)
  {
    hide PathTo, Upto, Shared;
    PathDescends(apb, ino, o - 1);
    PathDescends(apb, ino, o);
    SharedPart(apb, ino, o);
    SharedRight(apb, o);
    SameLength(apb, ino, o);
    PartAt(PathTo(apb, ino, o - 1), PathTo(apb, ino, o), Shared(apb, o));
  }

  lemma SameLength(apb: nat, ino: nat, o: nat)
    requires apb > 0
    ensures |PathTo(apb, ino, o)| == |PathTo(apb, 0, o)|
  {
    hide Div, Mod, Square;
  }

  lemma DivMono(a: nat, b: nat, d: nat)
    requires a <= b && d > 0
    ensures Div(a, d) <= Div(b, d)
  {
    assert a == a / d * d + a % d && b == b / d * d + b % d;
    if b / d < a / d {
      MulMono(b / d + 1, a / d, d);
    }
  }

  lemma DivModEqual(a: nat, b: nat, d: nat)
    requires d > 0 && Div(a, d) == Div(b, d) && Mod(a, d) == Mod(b, d)
    ensures a == b
  {
    assert a == a / d * d + a % d && b == b / d * d + b % d;
  }

  /** A slot on the way to two offsets is on the way to every offset between. */
  lemma PathStays(apb: nat, ino: nat, a: nat, o: nat, i: nat)
    requires apb > 1 && a < o && i < |PathTo(apb, ino, a)| && i < |PathTo(apb, ino, o)|
    requires PathTo(apb, ino, a)[i] == PathTo(apb, ino, o)[i]
    ensures i < |PathTo(apb, ino, o - 1)| && PathTo(apb, ino, o - 1)[i] == PathTo(apb, ino, o)[i]
  {
    hide Div, Mod, Square;
    var p, q := PathTo(apb, ino, a), PathTo(apb, ino, o);
    if Is2Indirect(apb, o) && i > 0 {
      var x, y := a - DindStart(apb), o - DindStart(apb);
      assert p[i].path[0] == Div(x, apb) && q[i].path[0] == Div(y, apb);
      DivMono(x, y - 1, apb);
      DivMono(y - 1, y, apb);
      if i == 2 {
        assert p[i].path[1] == Mod(x, apb) && q[i].path[1] == Mod(y, apb);
        DivModEqual(x, y, apb);
      }
    } else if Is3Indirect(apb, o) && i > 0 {
      PathStaysTriple(apb, ino, a, o, i);
    }
  }

  lemma PathStaysTriple(apb: nat, ino: nat, a: nat, o: nat, i: nat)
    requires apb > 1 && a < o && 0 < i < 4 && Is3Indirect(apb, a)
    requires PathTo(apb, ino, a)[i] == PathTo(apb, ino, o)[i]
    ensures PathTo(apb, ino, o - 1)[i] == PathTo(apb, ino, o)[i]
  {
    hide Div, Mod, Square;
    var p, q := PathTo(apb, ino, a), PathTo(apb, ino, o);
    var x, y := a - TindStart(apb), o - TindStart(apb);
    var dx, dy, dm := Div(x, apb), Div(y, apb), Div(y - 1, apb);
    DivMono(x, y - 1, apb);
    DivMono(y - 1, y, apb);
    DivMono(dx, dm, apb);
    DivMono(dm, dy, apb);
    assert p[i].path[0] == Div(dx, apb) && q[i].path[0] == Div(dy, apb);
    if i >= 2 {
      assert p[i].path[1] == Mod(dx, apb) && q[i].path[1] == Mod(dy, apb);
      DivModEqual(dx, dy, apb);
    }
    if i == 3 {
      assert p[i].path[2] == Mod(x, apb) && q[i].path[2] == Mod(y, apb);
      DivModEqual(x, y, apb);
    }
  }

  lemma {:induction false} PathsMembers(apb: nat, ino: nat, s: nat, n: nat, q: Slot)
    requires apb > 0
    ensures q in Paths(apb, ino, s, n) <==> exists o: nat :: s <= o < s + n && q in SlotsTo(apb, ino, o)
  {
    hide SlotsTo;
    if n > 0 {
      PathsMembers(apb, ino, s, n - 1, q);
    }
  }

  /** Of the slots on the way to `o`, only those on the way to the offset before have occurred before. */
  lemma Recurring(apb: nat, ino: nat, s: nat, n: nat)
    requires apb > 1 && n > 0
    ensures SlotsTo(apb, ino, s + n) - Paths(apb, ino, s, n) == SlotsTo(apb, ino, s + n) - SlotsTo(apb, ino, s + n - 1)
  {
    hide PathTo, Paths;
    var o := s + n;
    forall q | q in SlotsTo(apb, ino, o) ensures q in Paths(apb, ino, s, n) <==> q in SlotsTo(apb, ino, o - 1) {
      PathsMembers(apb, ino, s, n, q);
      if q in Paths(apb, ino, s, n) {
        var a: nat :| s <= a < o && q in SlotsTo(apb, ino, a);
        var i :| 0 <= i < |PathTo(apb, ino, o)| && PathTo(apb, ino, o)[i] == q;
        var j :| 0 <= j < |PathTo(apb, ino, a)| && PathTo(apb, ino, a)[j] == q;
        PathDescends(apb, ino, a);
        PathDescends(apb, ino, o);
        PathStays(apb, ino, a, o, i);
      }
    }
  }

  /** The exact number of blocks of a range. */
  lemma {:induction false} PathsCount(apb: nat, ino: nat, s: nat, n: nat)
    requires apb > 1 && n > 0
    ensures |Paths(apb, ino, s, n)| == Upto(apb, s + n - 1) - Upto(apb, s) + |PathTo(apb, ino, s)|
  {
    hide PathTo, Upto, SlotsTo;
    if n == 1 {
      assert Paths(apb, ino, s, 0) == {};
      PathSlots(apb, ino, s);
      assert Paths(apb, ino, s, 1) == SlotsTo(apb, ino, s);
    } else {
      var o := s + n - 1;
      PathsCount(apb, ino, s, n - 1);
      Recurring(apb, ino, s, n - 1);
      NewSlots(apb, ino, o);
      var before, now := Paths(apb, ino, s, n - 1), SlotsTo(apb, ino, o);
      assert before + now == before + (now - before);
    }
  }

  lemma PathSlots(apb: nat, ino: nat, s: nat)
    requires apb > 0
    ensures |SlotsTo(apb, ino, s)| == |PathTo(apb, ino, s)|
  {
    hide PathTo;
    PathDescends(apb, ino, s);
    var p := PathTo(apb, ino, s);
    MembersCount(p, 0);
    assert p[0..] == p && SlotsTo(apb, ino, s) == Members(p);
  }

  // ----- The estimate

  lemma Distribute(b: nat, t: nat, d: nat)
    ensures (b * d + t) * d == b * (d * d) + t * d
  {}

  lemma SmallRest(t: nat, r: nat, d: nat)
    requires t < d && r < d
    ensures t * d + r < d * d
  {
    MulMono(t + 1, d, d);
  }

  lemma DivMod(x: nat, d: nat)
    requires d > 0
    ensures x == Div(x, d) * d + Mod(x, d) && Mod(x, d) < d
  {}

  lemma DivDiv(x: nat, d: nat)
    requires d > 0
    ensures Square(d) > 0 && Div(x, Square(d)) == Div(Div(x, d), d)
  {
    hide Div, Mod;
    var a, r := Div(x, d), Mod(x, d);
    var b, t := Div(a, d), Mod(a, d);
    DivMod(x, d);
    DivMod(a, d);
    Distribute(b, t, d);
    SmallRest(t, r, d);
    DivUnique(x, b, t * d + r, d * d);
  }

  /** The start of the range inside the double-indirect zone. */
  function DoublePart(apb: nat, s: nat): nat {
    if s < DindStart(apb) then 0 else s - DindStart(apb)
  }

  /** The range runs from before the triple-indirect zone into it, and its double-indirect part starts early in a block. */
  ghost predicate OneTooMany(apb: nat, s: nat, n: nat)
    requires apb > 0
  {
    n > 0 && !Is3Indirect(apb, s) && Is3Indirect(apb, s + n - 1) && Mod(DoublePart(apb, s), apb) + NDIR < apb
  }

  /** How the estimate for the double-indirect part of a longer range compares to the number of blocks there. */
  lemma DoubleShare(apb: nat, t: nat)
    requires apb >= NDIR && t < Square(apb)
    ensures Div(TindStart(apb) - 1, apb) == apb + 1
    ensures Div(DindStart(apb) + t, apb) == 1 + Div(t, apb) + (if Mod(t, apb) + NDIR < apb then 0 else 1)
    ensures Div(t, apb) < apb
  {
    hide Div, Mod;
    DivUnique(NDIR + apb + apb * apb - 1, apb + 1, 11, apb);
    var q, r := Div(t, apb), Mod(t, apb);
    DivMod(t, apb);
    if r + NDIR < apb {
      DivUnique(DindStart(apb) + t, q + 1, r + NDIR, apb);
    } else {
      assert DindStart(apb) + t == (q + 2) * apb + (r + NDIR - apb);
      DivUnique(DindStart(apb) + t, q + 2, r + NDIR - apb, apb);
    }
    if q >= apb {
      MulMono(apb, q, apb);
    }
  }

  method EstimateBlocksForRange(apb: nat, start: nat, count: nat, ghost ino: nat) returns (blocks: nat)
    requires apb >= NDIR
    ensures blocks == |Paths(apb, ino, start, count)| + if OneTooMany(apb, start, count) then 1 else 0
  {
    hide Div, Mod, Square, Paths, PathTo, SlotsTo;
    if count == 0 {
      NoPaths(apb, ino, start);
      return 0;
    }
    var s, end := start, start + count - 1;
    blocks := 0;
    ghost var t := DoublePart(apb, start);
    LastDouble(apb);
    DivZero(apb);
    if start < TindStart(apb) {
      DoubleShare(apb, t);
    }
    PathsCount(apb, ino, start, count);
    PathLength(apb, ino, start);
    if IsDirect(s) {
      if IsDirect(end) {
        blocks := blocks + (end - s + 1);
      } else {
        blocks := blocks + (NDIR - 1 - s + 1);
        s := NDIR;
      }
    }
    if Is1Indirect(apb, s) {
      if Is1Indirect(apb, end) {
        blocks := blocks + (end - s + 1) + 1;
      } else {
        var last := NDIR + apb - 1;
        blocks := blocks + (last - s + 1) + 1;
        s := last + 1;
      }
    }
    if Is2Indirect(apb, s) {
      if Is2Indirect(apb, end) {
        var first := DindStart(apb);
        DivMono(s - first, end - first, apb);
        blocks := blocks + (end - s + 1) + 1 + (Div(end - first, apb) - Div(s - first, apb) + 1);
      } else {
        var last := TindStart(apb) - 1;
        DivMono(s, last, apb);
        blocks := blocks + (last - s + 1) + 1 + (Div(last, apb) - Div(s, apb) + 1);
        s := last + 1;
      }
    }
    if Is3Indirect(apb, s) {
      var first := TindStart(apb);
      DivDiv(end - first, apb);
      DivDiv(s - first, apb);
      DivMono(s - first, end - first, apb);
      DivMono(s - first, end - first, Square(apb));
      blocks := blocks + (end - s + 1) + (Div(end - first, apb) - Div(s - first, apb) + 1)
        + (Div(end - first, Square(apb)) - Div(s - first, Square(apb)) + 1) + 1;
    }
  }

  lemma NoPaths(apb: nat, ino: nat, s: nat)
    requires apb > 0
    ensures Paths(apb, ino, s, 0) == {}
  {}

  lemma PathLength(apb: nat, ino: nat, o: nat)
    requires apb > 0
    ensures |PathTo(apb, ino, o)| ==
      if IsDirect(o) then 1 else if Is1Indirect(apb, o) then 2 else if Is2Indirect(apb, o) then 3 else 4
  {
    hide Div, Mod, Square;
  }
}
