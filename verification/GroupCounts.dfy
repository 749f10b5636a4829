/** The block bitmap and the free-block counts of the block groups, and how e2remapblocks updates them at the end. */
module GroupCounts {
  import opened Arithmetic

  /** A range of blocks. */
  datatype Range = Range(block: nat, len: nat)

  // ----- Counting

  /** The clear bits from `lo` up to `hi`. */
  ghost function ClearBits(used: seq<bool>, lo: nat, hi: nat): nat
    requires hi <= |used|
  {
    if hi <= lo then 0 else ClearBits(used, lo, hi - 1) + if used[hi - 1] then 0 else 1
  }

  /** The bitmap after the bits of a range have been set or cleared. */
  function SetBits(used: seq<bool>, r: Range, v: bool): (s: seq<bool>)
    requires r.block + r.len <= |used|
    ensures |s| == |used|
    ensures forall b | 0 <= b < |s| :: s[b] == if InRange(r, b) then v else used[b]
  {
    used[..r.block] + seq(r.len, _ => v) + used[r.block + r.len..]
  }

  predicate InRange(r: Range, b: int) {
    r.block <= b < r.block + r.len
  }

  /** How many blocks two intervals share. */
  function Overlap(lo: int, hi: int, a: int, b: int): int {
    var x, y := if lo < a then a else lo, if hi < b then hi else b;
    if x < y then y - x else 0
  }

  function Signed(up: bool, x: int): int {
    if up then x else -x
  }

  lemma {:induction false} ClearBitsSet(used: seq<bool>, r: Range, v: bool, lo: nat, hi: nat)
    requires r.block + r.len <= |used| && hi <= |used|
    requires forall b | r.block <= b < r.block + r.len :: used[b] != v
    ensures ClearBits(SetBits(used, r, v), lo, hi) ==
      ClearBits(used, lo, hi) + Signed(!v, Overlap(lo, hi, r.block, r.block + r.len))
  {
    if lo < hi {
      ClearBitsSet(used, r, v, lo, hi - 1);
    }
  }

  function Sum(s: seq<int>): int {
    if s == [] then 0 else Sum(s[..|s| - 1]) + s[|s| - 1]
  }

  lemma {:induction false} SumUpdate(s: seq<int>, i: nat, x: int)
    requires i < |s|
    ensures Sum(s[i := x]) == Sum(s) - s[i] + x
  {
    var n := |s| - 1;
    if i < n {
      SumUpdate(s[..n], i, x);
      assert s[i := x][..n] == s[..n][i := x];
    } else {
      assert s[i := x][..n] == s[..n];
    }
  }

  // ----- Groups

  /** A file system of `n` blocks divided into groups; the first data block is 0, or 1 for the smallest block size. */
  datatype Layout = Layout(perGroup: nat, firstData: nat) {
    ghost predicate Valid() {
      perGroup > 0 && firstData <= 1
    }

    function GroupStart(g: nat): nat {
      firstData + g * perGroup
    }

    function GroupOf(b: nat): nat
      requires perGroup > 0 && b >= firstData
    {
      (b - firstData) / perGroup
    }

    /** The end of group `g` on a device of `n` blocks. */
    function GroupEnd(g: nat, n: nat): nat {
      if GroupStart(g + 1) < n then GroupStart(g + 1) else n
    }
  }

  lemma GroupHolds(lay: Layout, b: nat)
    requires lay.Valid() && b >= lay.firstData
    ensures lay.GroupStart(lay.GroupOf(b)) <= b < lay.GroupStart(lay.GroupOf(b) + 1)
  {
    DivMul(b - lay.firstData, lay.perGroup);
  }

  lemma DivMul(a: nat, n: nat)
    requires n > 0
    ensures a / n * n <= a < (a / n + 1) * n
  {
    assert (a / n + 1) * n == a / n * n + n;
  }

  lemma GroupsApart(lay: Layout, g: nat, h: nat)
    requires g < h
    ensures lay.GroupStart(g + 1) <= lay.GroupStart(h)
  {
    MulMono(g + 1, h, lay.perGroup);
  }

  /** Each count is the number of clear bits in its group, and each block is in a counted group. */
  ghost predicate Accounted(lay: Layout, used: seq<bool>, free: seq<int>) {
    && lay.Valid()
    && (forall b: nat | lay.firstData <= b < |used| :: lay.GroupOf(b) < |free|)
    && forall g: nat | g < |free| :: CountRight(lay, used, free, g)
  }

  ghost predicate CountRight(lay: Layout, used: seq<bool>, free: seq<int>, g: nat)
    requires g < |free|
  {
    free[g] == ClearBits(used, lay.GroupStart(g), lay.GroupEnd(g, |used|))
  }

  // ----- The loop over the groups of a range

  /** The range contains a block at which the loop makes no progress. */
  ghost predicate Hangs(lay: Layout, r: Range)
    requires lay.perGroup > 0
  {
    lay.firstData == 1 && exists b: nat :: r.block <= b < r.block + r.len && b % lay.perGroup == 0
  }

  /** The counts differ by the blocks from `a` up to `b` in each group. */
  ghost predicate Adjusted(lay: Layout, n: nat, free0: seq<int>, free: seq<int>, up: bool, a: nat, b: nat) {
    && |free| == |free0|
    && forall g: nat | g < |free| ::
        free[g] == free0[g] + Signed(up, Overlap(lay.GroupStart(g), lay.GroupEnd(g, n), a, b))
  }

  lemma AdjustedNone(lay: Layout, n: nat, free: seq<int>, up: bool, a: nat)
    ensures Adjusted(lay, n, free, free, up, a, a)
  {}

  lemma AdjustedMore(lay: Layout, n: nat, free0: seq<int>, free: seq<int>, up: bool, a: nat, b: nat, c: nat)
    requires lay.Valid() && lay.firstData <= a <= b < c <= n && c <= lay.GroupStart(lay.GroupOf(b) + 1)
    requires Adjusted(lay, n, free0, free, up, a, b) && lay.GroupOf(b) < |free|
    ensures var grp := lay.GroupOf(b);
      Adjusted(lay, n, free0, free[grp := free[grp] + Signed(up, c - b)], up, a, c)
  {
    StepOverlap(lay, |free|, n, a, b, c);
  }

  class Groups {
    const lay: Layout
    var used: seq<bool>
    var free: seq<int>

    constructor (lay: Layout, used: seq<bool>, free: seq<int>)
      ensures this.lay == lay && this.used == used && this.free == free
    {
      this.lay, this.used, this.free := lay, used, free;
    }

    /** Adjusts the counts of the groups that a range crosses. `hung` is true where the loop would run forever. */
    method Adjust(r: Range, up: bool) returns (hung: bool)
      requires lay.Valid() && lay.firstData <= r.block && r.block + r.len <= |used|
      requires forall b: nat | lay.firstData <= b < |used| :: lay.GroupOf(b) < |free|
      modifies `free
      ensures |free| == |old(free)|
      ensures hung <==> Hangs(lay, r)
      ensures !hung ==> Sum(free) == Sum(old(free)) + Signed(up, r.len)
      ensures !hung ==> Adjusted(lay, |used|, old(free), free, up, r.block, r.block + r.len)
    {
      hide Sum, Adjusted;
      AdjustedNone(lay, |used|, free, up, r.block);
      var start, len := r.block, r.len;
      ghost var free0 := free;
      while len > 0
        invariant start + len == r.block + r.len && r.block <= start && len >= 0 && |free| == |free0|
        invariant Sum(free) == Sum(free0) + Signed(up, start - r.block)
        invariant Adjusted(lay, |used|, free0, free, up, r.block, start)
        invariant lay.firstData == 1 ==> forall b: nat | r.block <= b < start :: b % lay.perGroup != 0
      {
        var grp := lay.GroupOf(start);
        var end := if lay.perGroup * (grp + 1) < start + len then lay.perGroup * (grp + 1) else start + len;
        StepBounds(lay, start, len);
        if end == start {
          return true;
        }
        var delta := end - start;
        SumUpdate(free, grp, free[grp] + Signed(up, delta));
        AdjustedMore(lay, |used|, free0, free, up, r.block, start, end);
        free := free[grp := free[grp] + Signed(up, delta)];
        len := len - delta;
        start := end;
      }
      hung := false;
    }

    /** Sets or clears the bits of a range and adjusts the counts. */
    method MarkRange(r: Range, v: bool) returns (hung: bool)
      requires lay.Valid() && lay.firstData <= r.block && r.block + r.len <= |used|
      requires forall b: nat | lay.firstData <= b < |used| :: lay.GroupOf(b) < |free|
      modifies `used, `free
      ensures |free| == |old(free)| && used == SetBits(old(used), r, v)
      ensures hung <==> Hangs(lay, r)
      ensures !hung ==> Sum(free) == Sum(old(free)) + Signed(!v, r.len)
      ensures !hung && Flips(old(used), r, v) && Accounted(lay, old(used), old(free)) ==> Accounted(lay, used, free)
    {
      hide Sum, Adjusted, Accounted, Flips, SetBits;
      ghost var used0, free0 := used, free;
      used := SetBits(used, r, v);
      hung := Adjust(r, !v);
      if !hung && Flips(used0, r, v) && Accounted(lay, used0, free0) {
        AccountedStays(lay, used0, free0, free, r, v);
      }
    }

    /** Marks the new places as used and the old ones as free. */
    method UpdateBitmap(runs: seq<Range>, moved: seq<Range>) returns (hung: bool)
      requires lay.Valid() && forall r <- runs + moved :: lay.firstData <= r.block && r.block + r.len <= |used|
      requires forall b: nat | lay.firstData <= b < |used| :: lay.GroupOf(b) < |free|
      modifies `used, `free
      ensures |used| == |old(used)|
      ensures hung <==> exists r <- runs + moved :: Hangs(lay, r)
      ensures !hung ==> forall b | 0 <= b < |used| ::
        used[b] <==> !Covered(moved, b) && (Covered(runs, b) || old(used)[b])
      ensures !hung ==> Sum(free) == Sum(old(free)) - Total(runs) + Total(moved)
      ensures !hung && CleanUpdate(old(used), runs, moved) && Accounted(lay, old(used), old(free)) ==> Accounted(lay, used, free)
    {
      hide Sum, Accounted, Hangs, SetBits, Total, Covered, CleanUpdate, Layout.GroupOf;
      ghost var used0, free0 := used, free;
      var i: nat := 0;
      UpdatedNone(lay, used, free, runs, moved);
      while i < |runs|
        invariant i <= |runs| && |used| == |used0| && |free| == |free0|
        invariant forall r <- runs[..i] :: !Hangs(lay, r)
        invariant Updated(lay, used0, free0, used, free, runs, moved, i, 0)
      {
        assert runs[i] in runs + moved;
        ghost var used1, free1 := used, free;
        hung := MarkRange(runs[i], true);
        if hung {
          return;
        }
        UpdatedMark(lay, used0, free0, used1, free1, used, free, runs, moved, i);
        i := i + 1;
      }
      var j: nat := 0;
      while j < |moved|
        invariant j <= |moved| && |used| == |used0| && |free| == |free0|
        invariant forall r <- moved[..j] :: !Hangs(lay, r)
        invariant Updated(lay, used0, free0, used, free, runs, moved, |runs|, j)
      {
        assert moved[j] in runs + moved;
        ghost var used1, free1 := used, free;
        hung := MarkRange(moved[j], false);
        if hung {
          return;
        }
        UpdatedClear(lay, used0, free0, used1, free1, used, free, runs, moved, j);
        j := j + 1;
      }
      assert runs[..i] == runs && moved[..j] == moved;
      UpdatedAll(lay, used0, free0, used, free, runs, moved);
      hung := false;
    }
  }

  ghost predicate Flips(used: seq<bool>, r: Range, v: bool)
    requires r.block + r.len <= |used|
  {
    forall b | r.block <= b < r.block + r.len :: used[b] != v
  }

  lemma AccountedStays(lay: Layout, used: seq<bool>, free: seq<int>, free': seq<int>, r: Range, v: bool)
    requires lay.Valid() && r.block + r.len <= |used| && Flips(used, r, v)
    requires Accounted(lay, used, free) && Adjusted(lay, |used|, free, free', !v, r.block, r.block + r.len)
    ensures Accounted(lay, SetBits(used, r, v), free')
  {
    hide SetBits;
    var used' := SetBits(used, r, v);
    forall g: nat | g < |free'| ensures CountRight(lay, used', free', g) {
      assert CountRight(lay, used, free, g);
      ClearBitsSet(used, r, v, lay.GroupStart(g), lay.GroupEnd(g, |used|));
    }
  }

  // ----- All ranges

  ghost predicate Covered(rs: seq<Range>, b: int) {
    exists r <- rs :: InRange(r, b)
  }

  function Total(rs: seq<Range>): nat {
    if rs == [] then 0 else Total(rs[..|rs| - 1]) + rs[|rs| - 1].len
  }

  ghost predicate RangesApart(rs: seq<Range>) {
    forall i, j, b: int | 0 <= i < j < |rs| && InRange(rs[i], b) :: !InRange(rs[j], b)
  }

  /** The new places are free and the old ones used, and no block is named twice. */
  ghost predicate CleanUpdate(used: seq<bool>, runs: seq<Range>, moved: seq<Range>) {
    && RangesApart(runs) && RangesApart(moved)
    && (forall b | 0 <= b < |used| && Covered(runs, b) :: !used[b])
    && (forall b | 0 <= b < |used| && Covered(moved, b) :: used[b])
  }

  /** The state after the first `i` runs have been marked and the first `j` old ranges cleared. */
  ghost predicate Updated(lay: Layout, used0: seq<bool>, free0: seq<int>, used: seq<bool>, free: seq<int>,
                          runs: seq<Range>, moved: seq<Range>, i: nat, j: nat)
  {
    && i <= |runs| && j <= |moved| && |used| == |used0|
    && (forall b | 0 <= b < |used| :: used[b] <==> !Covered(moved[..j], b) && (Covered(runs[..i], b) || used0[b]))
    && Sum(free) == Sum(free0) - Total(runs[..i]) + Total(moved[..j])
    && (CleanUpdate(used0, runs, moved) && Accounted(lay, used0, free0) ==> Accounted(lay, used, free))
  }

  lemma UpdatedNone(lay: Layout, used: seq<bool>, free: seq<int>, runs: seq<Range>, moved: seq<Range>)
    ensures Updated(lay, used, free, used, free, runs, moved, 0, 0)
  {
    assert runs[..0] == [] && moved[..0] == [];
  }

  lemma CoveredNext(rs: seq<Range>, i: nat, b: int)
    requires i < |rs|
    ensures Covered(rs[..i + 1], b) <==> Covered(rs[..i], b) || InRange(rs[i], b)
    ensures Covered(rs[..i], b) ==> Covered(rs, b)
    ensures InRange(rs[i], b) ==> Covered(rs, b) && (RangesApart(rs) ==> !Covered(rs[..i], b))
    ensures Total(rs[..i + 1]) == Total(rs[..i]) + rs[i].len
  {
    assert rs[..i + 1] == rs[..i] + [rs[i]] && rs[..i + 1][..i] == rs[..i];
    assert rs[i] in rs && forall r <- rs[..i] :: r in rs;
  }

  lemma UpdatedMark(lay: Layout, used0: seq<bool>, free0: seq<int>, used1: seq<bool>, free1: seq<int>,
                    used: seq<bool>, free: seq<int>,
                    runs: seq<Range>, moved: seq<Range>, i: nat)
    requires i < |runs| && Updated(lay, used0, free0, used1, free1, runs, moved, i, 0)
    requires runs[i].block + runs[i].len <= |used1| && used == SetBits(used1, runs[i], true)
    requires Sum(free) == Sum(free1) + Signed(false, runs[i].len)
    requires Flips(used1, runs[i], true) && Accounted(lay, used1, free1) ==> Accounted(lay, used, free)
    ensures Updated(lay, used0, free0, used, free, runs, moved, i + 1, 0)
  {
    hide Accounted, Covered, Total, Sum, RangesApart, SetBits;
    forall b ensures !Covered(moved[..0], b) {
      NoneCovered(moved, b);
    }
    CoveredNext(runs, i, 0);
    forall b | 0 <= b < |used| ensures
        && (Covered(runs[..i + 1], b) <==> Covered(runs[..i], b) || InRange(runs[i], b))
        && (InRange(runs[i], b) ==> Covered(runs, b) && (RangesApart(runs) ==> !Covered(runs[..i], b)))
    {
      CoveredNext(runs, i, b);
    }
  }

  lemma NoneCovered(rs: seq<Range>, b: int)
    ensures !Covered(rs[..0], b)
  {
    assert rs[..0] == [];
  }

  lemma UpdatedClear(lay: Layout, used0: seq<bool>, free0: seq<int>, used1: seq<bool>, free1: seq<int>,
                     used: seq<bool>, free: seq<int>,
                     runs: seq<Range>, moved: seq<Range>, j: nat)
    requires j < |moved| && Updated(lay, used0, free0, used1, free1, runs, moved, |runs|, j)
    requires moved[j].block + moved[j].len <= |used1| && used == SetBits(used1, moved[j], false)
    requires Sum(free) == Sum(free1) + Signed(true, moved[j].len)
    requires Flips(used1, moved[j], false) && Accounted(lay, used1, free1) ==> Accounted(lay, used, free)
    ensures Updated(lay, used0, free0, used, free, runs, moved, |runs|, j + 1)
  {
    hide Accounted, Covered, Total, Sum, RangesApart, SetBits;
    CoveredNext(moved, j, 0);
    forall b | 0 <= b < |used| ensures
        && (Covered(moved[..j + 1], b) <==> Covered(moved[..j], b) || InRange(moved[j], b))
        && (InRange(moved[j], b) ==> Covered(moved, b) && (RangesApart(moved) ==> !Covered(moved[..j], b)))
    {
      CoveredNext(moved, j, b);
    }
  }

  lemma UpdatedAll(lay: Layout, used0: seq<bool>, free0: seq<int>, used: seq<bool>, free: seq<int>, runs: seq<Range>,
                   moved: seq<Range>)
    requires Updated(lay, used0, free0, used, free, runs, moved, |runs|, |moved|)
    ensures |used| == |used0| && forall b | 0 <= b < |used| :: used[b] <==> !Covered(moved, b) && (Covered(runs, b) || used0[b])
    ensures Sum(free) == Sum(free0) - Total(runs) + Total(moved)
    ensures CleanUpdate(used0, runs, moved) && Accounted(lay, used0, free0) ==> Accounted(lay, used, free)
  {
    assert runs[..|runs|] == runs && moved[..|moved|] == moved;
  }

  /** One turn of the loop stays in the group of `start`. */
  lemma StepBounds(lay: Layout, start: nat, len: nat)
    requires lay.Valid() && lay.firstData <= start && len > 0
    ensures var grp := lay.GroupOf(start);
      var end := if lay.perGroup * (grp + 1) < start + len then lay.perGroup * (grp + 1) else start + len;
      && lay.GroupStart(grp) <= start <= end <= lay.GroupStart(grp + 1) && end <= start + len
      && (end == start <==> lay.firstData == 1 && start % lay.perGroup == 0)
      && (lay.firstData == 1 && end > start ==> forall b: nat | start <= b < end :: b % lay.perGroup != 0)
  {
    var grp := lay.GroupOf(start);
    var n := lay.perGroup;
    GroupHolds(lay, start);
    assert n * (grp + 1) == (grp + 1) * n;
    forall b: nat | start <= b < n * (grp + 1) && lay.firstData == 1 ensures b % n != 0 {
      BetweenMultiples(b, grp, n);
    }
    if start == n * (grp + 1) {
      MultipleMod(grp + 1, n);
    }
  }

  lemma BetweenMultiples(b: nat, g: nat, n: nat)
    requires n > 0 && g * n < b < (g + 1) * n
    ensures b % n != 0
  {
    var q := b / n;
    DivMul(b, n);
    if q < g {
      MulMono(q + 1, g, n);
    } else if q > g {
      MulMono(g + 1, q, n);
    }
    assert b == q * n + b % n;
  }

  lemma MultipleMod(k: nat, n: nat)
    requires n > 0
    ensures (n * k) % n == 0
  {
    var b := n * k;
    DivMul(b, n);
    var q := b / n;
    if q < k {
      MulMono(q + 1, k, n);
    }
    assert b == q * n + b % n;
  }

  lemma StepOverlap(lay: Layout, groups: nat, n: nat, from: nat, start: nat, end: nat)
    requires lay.Valid() && lay.firstData <= from <= start < end <= n
    requires end <= lay.GroupStart(lay.GroupOf(start) + 1)
    ensures forall g: nat | g < groups ::
      Overlap(lay.GroupStart(g), lay.GroupEnd(g, n), from, end) ==
        Overlap(lay.GroupStart(g), lay.GroupEnd(g, n), from, start) + if g == lay.GroupOf(start) then end - start else 0
  {
    var grp := lay.GroupOf(start);
    GroupHolds(lay, start);
    forall g: nat | g < groups
      ensures Overlap(lay.GroupStart(g), lay.GroupEnd(g, n), from, end) ==
        Overlap(lay.GroupStart(g), lay.GroupEnd(g, n), from, start) + if g == grp then end - start else 0
    {
      if g < grp {
        GroupsApart(lay, g, grp);
      } else if grp < g {
        GroupsApart(lay, grp, g);
      }
    }
  }
}
