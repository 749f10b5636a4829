/** The order of the blocks on the disk after e2moveblocks has followed a layout. */
module LayoutOrder {
  import opened Arithmetic
  import opened Ext2
  import opened BlockTree
  import opened Estimate
  import opened MoveBlocks
  import opened Traverse

  /** One block named by a layout. */
  datatype Item = Item(ino: nat, o: nat)

  function RangeItems(ino: nat, o: nat, n: nat): seq<Item> {
    if n == 0 then [] else RangeItems(ino, o, n - 1) + [Item(ino, o + n - 1)]
  }

  /** All blocks that a layout names, in order. */
  function Items(layout: seq<Relocation>): seq<Item> {
    if layout == [] then []
    else
      var r := layout[|layout| - 1];
      Items(layout[..|layout| - 1]) + RangeItems(r.ino, r.offset, r.count)
  }

  ghost function ItemsOrder(fs: Fs, items: seq<Item>): seq<Slot>
    requires fs.apb > 0
  {
    if items == [] then []
    else
      var x := items[|items| - 1];
      AppendPath(fs, ItemsOrder(fs, items[..|items| - 1]), MovePath(fs.apb, x.ino, x.o))
  }

  lemma {:induction false} RangeItemsOrder(fs: Fs, items: seq<Item>, ino: nat, o: nat, n: nat)
    requires fs.apb > 0
    ensures ItemsOrder(fs, items + RangeItems(ino, o, n)) == AppendRange(fs, ItemsOrder(fs, items), ino, o, n)
  {
    hide AppendPath, MovePath;
    if n > 0 {
      RangeItemsOrder(fs, items, ino, o, n - 1);
      var all := items + RangeItems(ino, o, n);
      assert all[..|all| - 1] == items + RangeItems(ino, o, n - 1);
    } else {
      assert items + [] == items;
    }
  }

  /** The order of the moves is that of the named blocks. */
  lemma {:induction false} OrderOfItems(fs: Fs, layout: seq<Relocation>)
    requires fs.apb > 0
    ensures MoveOrder(fs, layout) == ItemsOrder(fs, Items(layout))
  {
    hide AppendPath, MovePath, AppendRange;
    if layout != [] {
      var n := |layout| - 1;
      OrderOfItems(fs, layout[..n]);
      RangeItemsOrder(fs, Items(layout[..n]), layout[n].ino, layout[n].offset, layout[n].count);
    }
  }

  /** The slot of the named block itself. */
  function DataSlot(apb: nat, x: Item): Slot
    requires apb > 0
  {
    PathLength(apb, x.ino, x.o);
    PathTo(apb, x.ino, x.o)[|PathTo(apb, x.ino, x.o)| - 1]
  }

  /** The block is there, and in a zone of the file that the program moves. */
  ghost predicate Movable(fs: Fs, x: Item)
    requires fs.apb > 0
  {
    !Is3Indirect(fs.apb, x.o) && Ptr(fs, DataSlot(fs.apb, x)) != 0
  }

  /** The data slot of a block is on the way to no other block. */
  lemma DataOnOnePath(apb: nat, x: Item, y: Item)
    requires apb > 0 && DataSlot(apb, x) in PathTo(apb, y.ino, y.o)
    ensures x == y
  {
    hide Div, Mod, Square;
    var p, q := PathTo(apb, x.ino, x.o), PathTo(apb, y.ino, y.o);
    PathDescends(apb, x.ino, x.o);
    PathDescends(apb, y.ino, y.o);
    var i :| 0 <= i < |q| && q[i] == p[|p| - 1];
    assert i == |p| - 1;
    if Is2Indirect(apb, x.o) {
      assert p[2].path[0] == q[2].path[0] && p[2].path[1] == q[2].path[1];
      DivModEqual(x.o - DindStart(apb), y.o - DindStart(apb), apb);
    } else if Is3Indirect(apb, x.o) {
      DataTriple(apb, x, y);
    } else if Is1Indirect(apb, x.o) {
      assert p[1].path[0] == q[1].path[0];
    }
  }

  lemma DataTriple(apb: nat, x: Item, y: Item)
    requires apb > 0 && Is3Indirect(apb, x.o) && |PathTo(apb, y.ino, y.o)| >= 4
    requires DataSlot(apb, x) == PathTo(apb, y.ino, y.o)[3]
    ensures x == y
  {
    hide Div, Mod, Square;
    var p, q := PathTo(apb, x.ino, x.o), PathTo(apb, y.ino, y.o);
    var a, b := x.o - TindStart(apb), y.o - TindStart(apb);
    assert p[3].path[0] == q[3].path[0] && p[3].path[1] == q[3].path[1] && p[3].path[2] == q[3].path[2];
    DivModEqual(Div(a, apb), Div(b, apb), apb);
    DivModEqual(a, b, apb);
  }

  lemma {:induction false} AppendMembers(fs: Fs, order: seq<Slot>, path: seq<Slot>, q: Slot)
    ensures q in AppendPath(fs, order, path) <==> q in order || (q in path && Ptr(fs, q) != 0)
  {
    hide Ptr;
    if path != [] {
      var n := |path| - 1;
      AppendMembers(fs, order, path[..n], q);
      assert path == path[..n] + [path[n]];
    }
  }

  lemma {:induction false} OrderMembers(fs: Fs, items: seq<Item>, q: Slot)
    requires fs.apb > 0
    ensures q in ItemsOrder(fs, items) <==> exists x <- items :: q in MovePath(fs.apb, x.ino, x.o) && Ptr(fs, q) != 0
  {
    hide Ptr, MovePath, AppendPath;
    if items != [] {
      var n := |items| - 1;
      var x := items[n];
      OrderMembers(fs, items[..n], q);
      AppendMembers(fs, ItemsOrder(fs, items[..n]), MovePath(fs.apb, x.ino, x.o), q);
      assert items == items[..n] + [x];
    }
  }

  /** The data slot of a movable block is moved exactly when the block has been named. */
  lemma DataMoved(fs: Fs, items: seq<Item>, x: Item)
    requires fs.apb > 0 && Movable(fs, x)
    ensures DataSlot(fs.apb, x) in ItemsOrder(fs, items) <==> x in items
  {
    hide Ptr, PathTo;
    var q := DataSlot(fs.apb, x);
    OrderMembers(fs, items, q);
    forall y | y in items && q in MovePath(fs.apb, y.ino, y.o) ensures x == y {
      DataOnOnePath(fs.apb, x, y);
    }
    PathLength(fs.apb, x.ino, x.o);
  }

  lemma {:induction false} ItemsPrefix(fs: Fs, items: seq<Item>, k: nat)
    requires fs.apb > 0 && k <= |items|
    ensures ItemsOrder(fs, items[..k]) <= ItemsOrder(fs, items)
  {
    hide AppendPath, MovePath;
    if k < |items| {
      var n := |items| - 1;
      assert items[..n][..k] == items[..k];
      ItemsPrefix(fs, items[..n], k);
      PathGrows(fs, ItemsOrder(fs, items[..n]), MovePath(fs.apb, items[n].ino, items[n].o));
    } else {
      assert items[..k] == items;
    }
  }

  /** The place of a named block in the order of the moves. */
  lemma PlaceInOrder(fs: Fs, items: seq<Item>, k: nat) returns (i: nat)
    requires fs.apb > 0 && k < |items| && Movable(fs, items[k]) && items[k] !in items[..k]
    ensures |ItemsOrder(fs, items[..k])| <= i < |ItemsOrder(fs, items[..k + 1])| <= |ItemsOrder(fs, items)|
    ensures ItemsOrder(fs, items)[i] == DataSlot(fs.apb, items[k])
  {
    hide Ptr, ItemsOrder, DataSlot;
    DataMoved(fs, items[..k], items[k]);
    DataMoved(fs, items[..k + 1], items[k]);
    assert items[..k + 1][k] == items[k];
    ItemsPrefix(fs, items, k + 1);
    ItemsPrefix(fs, items[..k + 1], k);
    assert items[..k + 1][..k] == items[..k];
    var o := ItemsOrder(fs, items[..k + 1]);
    var before := ItemsOrder(fs, items[..k]);
    assert forall j | 0 <= j < |before| :: o[j] == before[j] != DataSlot(fs.apb, items[k]);
    i :| 0 <= i < |o| && o[i] == DataSlot(fs.apb, items[k]);
  }

  /**
    After a run the blocks that a layout names, each at its first occurrence, lie on the disk in the order of the
    layout.
   */
  lemma NamedBlocksAscend(st: Start, v: Fs, used: seq<bool>, free: seq<int>, layout: seq<Relocation>, j: nat, k: nat)
    requires GoodStart(st) && Running(st, v, used, free, MoveOrder(st.fs, layout))
    requires j < k < |Items(layout)|
    requires Movable(st.fs, Items(layout)[j]) && Items(layout)[j] !in Items(layout)[..j]
    requires Movable(st.fs, Items(layout)[k]) && Items(layout)[k] !in Items(layout)[..k]
    ensures Ptr(v, DataSlot(st.fs.apb, Items(layout)[j])) < Ptr(v, DataSlot(st.fs.apb, Items(layout)[k]))
  {
    hide Ptr, ItemsOrder, DataSlot, MoveOrder, Items, Movable;
    var items := Items(layout);
    OrderOfItems(st.fs, layout);
    var a := PlaceInOrder(st.fs, items, j);
    var b := PlaceInOrder(st.fs, items, k);
    ItemsPrefix(st.fs, items[..k], j + 1);
    assert items[..k][..j + 1] == items[..j + 1];
  }

  // ----- How far neighbours are apart

  ghost predicate AllMovable(fs: Fs, items: seq<Item>)
    requires fs.apb > 0
  {
    forall x <- items :: Movable(fs, x)
  }

  lemma {:induction false} AppendLength(fs: Fs, order: seq<Slot>, path: seq<Slot>)
    ensures |order| <= |AppendPath(fs, order, path)| <= |order| + |path|
    ensures (forall q <- path :: q in order) ==> AppendPath(fs, order, path) == order
  {
    hide Ptr;
    if path != [] {
      AppendLength(fs, order, path[..|path| - 1]);
    }
  }

  /** A block that is named again moves nothing. */
  lemma NamedAgain(fs: Fs, items: seq<Item>, x: Item)
    requires fs.apb > 0 && x in items && Movable(fs, x) && WellFormed(fs)
    ensures AppendPath(fs, ItemsOrder(fs, items), MovePath(fs.apb, x.ino, x.o)) == ItemsOrder(fs, items)
  {
    hide Ptr, PathTo, AppendPath, ItemsOrder;
    var order := ItemsOrder(fs, items);
    forall q | q in MovePath(fs.apb, x.ino, x.o) ensures q in order {
      AboveMovable(fs, x, q);
      OrderMembers(fs, items, q);
    }
    AppendLength(fs, order, MovePath(fs.apb, x.ino, x.o));
  }

  lemma {:induction false} AboveBlock(fs: Fs, q: Slot, k: nat)
    requires Ptr(fs, q) != 0 && k <= |q.path|
    ensures Ptr(fs, q.(path := q.path[..k])) != 0
    decreases |q.path|
  {
    if k == |q.path| {
      assert q.path[..k] == q.path;
    } else {
      AboveBlock(fs, Parent(q), k);
      assert Parent(q).path[..k] == q.path[..k];
    }
  }

  /** Nothing on the way to a block is a hole. */
  lemma AboveMovable(fs: Fs, x: Item, q: Slot)
    requires fs.apb > 0 && Movable(fs, x) && q in PathTo(fs.apb, x.ino, x.o)
    ensures Ptr(fs, q) != 0
  {
    hide Ptr, Div, Mod, Square;
    var p := PathTo(fs.apb, x.ino, x.o);
    var d := DataSlot(fs.apb, x);
    PathDescends(fs.apb, x.ino, x.o);
    var i :| 0 <= i < |p| && p[i] == q;
    AboveBlock(fs, d, i);
    assert d.path[..i] == q.path;
    assert d.(path := d.path[..i]) == q;
  }

  /** `j` is the last first occurrence among the first `k` named blocks. */
  ghost predicate NamedLast(items: seq<Item>, j: nat, k: nat) {
    && j < k <= |items| && items[j] !in items[..j]
    && forall m | j < m < k :: items[m] in items[..m]
  }

  /** The last block moved is the one that has last been named for the first time. */
  lemma {:induction false} EndsWithNamed(fs: Fs, items: seq<Item>, j: nat, k: nat)
    requires fs.apb > 0 && WellFormed(fs) && AllMovable(fs, items) && NamedLast(items, j, k)
    ensures var order := ItemsOrder(fs, items[..k]); order != [] && order[|order| - 1] == DataSlot(fs.apb, items[j])
  {
    hide Ptr, PathTo, AppendPath, WellFormed, Movable;
    var n := k - 1;
    assert items[..k][..n] == items[..n];
    assert items[n] in items && Movable(fs, items[n]);
    if n == j {
      AppendsLast(fs, items[..n], items[n]);
    } else {
      EndsWithNamed(fs, items, j, n);
      NamedAgain(fs, items[..n], items[n]);
    }
  }

  /** A block named for the first time is the last one its own step moves. */
  lemma AppendsLast(fs: Fs, items: seq<Item>, x: Item)
    requires fs.apb > 0 && Movable(fs, x) && x !in items
    ensures var more := AppendPath(fs, ItemsOrder(fs, items), MovePath(fs.apb, x.ino, x.o));
      more != [] && more[|more| - 1] == DataSlot(fs.apb, x)
  {
    hide Ptr, PathTo, ItemsOrder;
    var p := PathTo(fs.apb, x.ino, x.o);
    var n := |p| - 1;
    PathLength(fs.apb, x.ino, x.o);
    var before := AppendPath(fs, ItemsOrder(fs, items), p[..n]);
    DataMoved(fs, items, x);
    AppendMembers(fs, ItemsOrder(fs, items), p[..n], p[n]);
    PathDescends(fs.apb, x.ino, x.o);
    assert forall i | 0 <= i < n :: p[..n][i] != p[n];
  }

  /**
    When a layout names no holes, a block named for the first time lies at most two blocks behind the one named for the
    first time before it: only the indirect blocks on its own way lie between.
   */
  lemma NeighboursClose(st: Start, v: Fs, used: seq<bool>, free: seq<int>, layout: seq<Relocation>, j: nat, k: nat)
    requires GoodStart(st) && Running(st, v, used, free, MoveOrder(st.fs, layout)) && AllMovable(st.fs, Items(layout))
    requires k < |Items(layout)| && Items(layout)[k] !in Items(layout)[..k]
    requires NamedLast(Items(layout), j, k)
    ensures var a := Ptr(v, DataSlot(st.fs.apb, Items(layout)[j]));
      a < Ptr(v, DataSlot(st.fs.apb, Items(layout)[k])) <= a + 3
  {
    hide Ptr, ItemsOrder, DataSlot, MoveOrder, Items, Movable, AppendPath;
    var items := Items(layout);
    OrderOfItems(st.fs, layout);
    assert items[k] in items;
    var b := PlaceInOrder(st.fs, items, k);
    var before := ItemsOrder(st.fs, items[..k]);
    StepLength(st.fs, items, k);
    ItemsPrefix(st.fs, items, k);
    EndsWithNamed(st.fs, items, j, k);
    assert MoveOrder(st.fs, layout)[|before| - 1] == DataSlot(st.fs.apb, items[j]);
  }

  /** The first block of the layout has at most the indirect blocks on its way before it in the area. */
  lemma FirstClose(st: Start, v: Fs, used: seq<bool>, free: seq<int>, layout: seq<Relocation>)
    requires GoodStart(st) && Running(st, v, used, free, MoveOrder(st.fs, layout))
    requires Items(layout) != [] && Movable(st.fs, Items(layout)[0])
    ensures st.area.start <= Ptr(v, DataSlot(st.fs.apb, Items(layout)[0])) <= st.area.start + 2
  {
    hide Ptr, ItemsOrder, DataSlot, MoveOrder, Items, Movable, AppendPath;
    var items := Items(layout);
    OrderOfItems(st.fs, layout);
    assert items[..0] == [];
    var b := PlaceInOrder(st.fs, items, 0);
    StepLength(st.fs, items, 0);
    NoneOrdered(st.fs);
  }

  lemma NoneOrdered(fs: Fs)
    requires fs.apb > 0
    ensures ItemsOrder(fs, []) == []
  {}

  lemma StepLength(fs: Fs, items: seq<Item>, k: nat)
    requires fs.apb > 0 && k < |items|
    ensures |ItemsOrder(fs, items[..k + 1])| <= |ItemsOrder(fs, items[..k])| + 3
  {
    hide Ptr, PathTo, AppendPath;
    assert items[..k + 1][..k] == items[..k];
    PathLength(fs.apb, items[k].ino, items[k].o);
    AppendLength(fs, ItemsOrder(fs, items[..k]), MovePath(fs.apb, items[k].ino, items[k].o));
  }

  // ----- The ways to the named blocks

  /** A named offset in the zones that the program moves has the slot on its way. */
  ghost predicate OnTheWay(apb: nat, items: seq<Item>, q: Slot)
    requires apb > 0
  {
    exists x <- items :: !Is3Indirect(apb, x.o) && q in PathTo(apb, x.ino, x.o)
  }

  /** A way starts in the inode, and each of its slots is an entry of the block behind the one before. */
  ghost predicate Chained(path: seq<Slot>) {
    forall i | 0 <= i < |path| :: Linked(path, i)
  }

  ghost predicate Linked(path: seq<Slot>, i: nat)
    requires i < |path|
  {
    if i == 0 then path[i].path == [] else path[i].path != [] && Parent(path[i]) == path[i - 1]
  }

  lemma PathChained(apb: nat, ino: nat, o: nat)
    requires apb > 0
    ensures Chained(PathTo(apb, ino, o))
  {
    hide Div, Mod, Square;
  }

  /** Each way ends at the data block of its own offset. */
  lemma PathEnds(apb: nat, x: Item)
    requires apb > 0
    ensures var q := DataSlot(apb, x); q.ino == x.ino && Level(q) == 0 && First(apb, q) == x.o
  {
    hide Div, Mod, First, Span, ZoneStart;
    var q := DataSlot(apb, x);
    if IsDirect(x.o) {
      DirectFirst(apb, q);
    } else {
      var p := Parent(q);
      assert q.path == p.path + [Last(q)];
      ChildFirst(apb, p, Last(q));
      FirstSpelled(apb, p);
      OneSpan(apb);
      if Is2Indirect(apb, x.o) {
        DivMod(x.o - DindStart(apb), apb);
      } else if Is3Indirect(apb, x.o) {
        var r := x.o - TindStart(apb);
        DivMod(r, apb);
        DivMod(Div(r, apb), apb);
        Regroup(Div(Div(r, apb), apb), apb, Mod(Div(r, apb), apb));
      }
    }
  }

  lemma DirectFirst(apb: nat, q: Slot)
    requires q.path == [] && q.top < NDIR
    ensures First(apb, q) == q.top
  {}

  lemma OneSpan(apb: nat)
    ensures Span(apb, 0) == 1
  {}

  lemma Regroup(a: nat, n: nat, b: nat)
    ensures (a * n + b) * n == a * (n * n) + b * n
  {}

  /** Each slot with a parent comes after it. */
  ghost predicate ParentsFirst(order: seq<Slot>) {
    forall k | 0 <= k < |order| && order[k].path != [] :: Parent(order[k]) in order[..k]
  }

  lemma ParentsNext(order: seq<Slot>, s: Slot)
    requires ParentsFirst(order) && (s.path == [] || Parent(s) in order)
    ensures ParentsFirst(order + [s])
  {
    var more := order + [s];
    forall k | 0 <= k < |more| && more[k].path != [] ensures Parent(more[k]) in more[..k] {
      assert more[..k] == order[..k];
    }
  }

  lemma ChainedPrefix(path: seq<Slot>, n: nat)
    requires Chained(path) && n <= |path|
    ensures Chained(path[..n])
  {
    var part := path[..n];
    forall i | 0 <= i < n ensures Linked(part, i) {
      assert Linked(path, i) && part[i] == path[i] && (i > 0 ==> part[i - 1] == path[i - 1]);
    }
  }

  lemma {:induction false} PathParents(fs: Fs, order: seq<Slot>, path: seq<Slot>)
    requires ParentsFirst(order) && Chained(path)
    ensures ParentsFirst(AppendPath(fs, order, path))
  {
    hide ParentsFirst, Chained;
    if path != [] {
      var n := |path| - 1;
      ChainedPrefix(path, n);
      PathParents(fs, order, path[..n]);
      var before := AppendPath(fs, order, path[..n]);
      if Ptr(fs, path[n]) != 0 {
        ChainedLast(fs, path);
        if n > 0 {
          assert path[..n][n - 1] == path[n - 1];
          AppendMembers(fs, order, path[..n], path[n - 1]);
        }
        ParentsNext(before, path[n]);
      }
    }
  }

  lemma ChainedLast(fs: Fs, path: seq<Slot>)
    requires Chained(path) && path != [] && Ptr(fs, path[|path| - 1]) != 0
    ensures var n := |path| - 1;
      if n == 0 then path[n].path == []
      else path[n].path != [] && Parent(path[n]) == path[n - 1] && Ptr(fs, path[n - 1]) != 0
  {
    assert Linked(path, |path| - 1);
  }

  lemma {:induction false} OrderParents(fs: Fs, items: seq<Item>)
    requires fs.apb > 0
    ensures ParentsFirst(ItemsOrder(fs, items))
  {
    hide AppendPath, PathTo, Chained;
    if items != [] {
      var n := |items| - 1;
      OrderParents(fs, items[..n]);
      PathChained(fs.apb, items[n].ino, items[n].o);
      ChainedNone();
      PathParents(fs, ItemsOrder(fs, items[..n]), MovePath(fs.apb, items[n].ino, items[n].o));
    }
  }

  lemma ChainedNone()
    ensures Chained([])
  {}

  /**
    After a run a slot points into the area exactly if it held a block and is on the way to a named offset; the block
    that stores it lies in the area too, before the block it points to. All other slots are as they were.
   */
  lemma MovedExactly(st: Start, v: Fs, used: seq<bool>, free: seq<int>, layout: seq<Relocation>, q: Slot)
    requires GoodStart(st) && Running(st, v, used, free, MoveOrder(st.fs, layout)) && ValidSlot(v, q)
    ensures st.area.In(Ptr(v, q)) <==> Ptr(st.fs, q) != 0 && OnTheWay(st.fs.apb, Items(layout), q)
    ensures st.area.In(Ptr(v, q)) && q.path != [] ==> st.area.In(Ptr(v, Parent(q))) && Ptr(v, Parent(q)) < Ptr(v, q)
    ensures !st.area.In(Ptr(v, q)) ==> Ptr(v, q) == Ptr(st.fs, q)
  {
    hide Ptr, ItemsOrder, MoveOrder, Items, ValidSlot, NoSharing, WellFormed, PathTo;
    var items := Items(layout);
    OrderOfItems(st.fs, layout);
    var order := ItemsOrder(st.fs, items);
    MovedIn(st, v, used, free, order, q);
    OrderMembers(st.fs, items, q);
    if q in order {
      var k :| 0 <= k < |order| && order[k] == q;
      if q.path != [] {
        OrderParents(st.fs, items);
        var j :| 0 <= j < k && order[j] == Parent(q);
      }
    }
  }

  /**
    After a run the whole way to a named block lies in the area, each indirect block before the next one and before the
    named block.
   */
  lemma WayMoved(st: Start, v: Fs, used: seq<bool>, free: seq<int>, layout: seq<Relocation>, x: Item, i: nat)
    requires GoodStart(st) && Running(st, v, used, free, MoveOrder(st.fs, layout))
    requires x in Items(layout) && Movable(st.fs, x) && i < |PathTo(st.fs.apb, x.ino, x.o)|
    ensures var p := PathTo(st.fs.apb, x.ino, x.o);
      st.area.In(Ptr(v, p[i])) && (i > 0 ==> Ptr(v, p[i - 1]) < Ptr(v, p[i]))
  {
    hide Ptr, ItemsOrder, MoveOrder, Items, ValidSlot, NoSharing, WellFormed, PathTo;
    var p := PathTo(st.fs.apb, x.ino, x.o);
    AboveMovable(st.fs, x, p[i]);
    OrderOfItems(st.fs, layout);
    OrderMembers(st.fs, Items(layout), p[i]);
    SlotKept(st, v, used, free, MoveOrder(st.fs, layout), p[i]);
    MovedExactly(st, v, used, free, layout, p[i]);
    PathChained(st.fs.apb, x.ino, x.o);
    assert Linked(p, i);
  }

  lemma SlotKept(st: Start, v: Fs, used: seq<bool>, free: seq<int>, order: seq<Slot>, q: Slot)
    requires Running(st, v, used, free, order) && q in order
    ensures ValidSlot(v, q)
  {}
}
