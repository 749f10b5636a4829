/** The splay tree of disjoint block extents that e2remapblocks loads its input into. */
module ExtentTree {

  /** An extent of blocks to remap; only the tree pointers change after creation. */
  class RemapExtent {
    const block: nat
    const len: nat
    const offset: int
    const chunkOffset: nat
    var l: RemapExtent?
    var r: RemapExtent?

    constructor (block: nat, len: nat, offset: int, chunkOffset: nat)
      ensures this.block == block && this.len == len
      ensures this.offset == offset && this.chunkOffset == chunkOffset
      ensures l == null && r == null
    {
      this.block, this.len, this.offset, this.chunkOffset := block, len, offset, chunkOffset;
      l, r := null, null;
    }

    ghost function End(): nat { block + len }

    ghost predicate Holds(b: nat) { block <= b < block + len }
  }

  /** The shape of a tree of extents at one moment; `Linked` ties the heap to it. */
  datatype Tree = Leaf | Node(left: Tree, ext: RemapExtent, right: Tree)

  ghost function Root(t: Tree): RemapExtent? {
    if t.Leaf? then null else t.ext
  }

  ghost function Refs(t: Tree): set<RemapExtent> {
    if t.Leaf? then {} else Refs(t.left) + {t.ext} + Refs(t.right)
  }

  ghost function InOrder(t: Tree): seq<RemapExtent> {
    if t.Leaf? then [] else InOrder(t.left) + [t.ext] + InOrder(t.right)
  }

  /** No extent occurs twice. */
  ghost predicate Proper(t: Tree) {
    t.Leaf? || (
      && t.ext !in Refs(t.left) && t.ext !in Refs(t.right)
      && Refs(t.left) !! Refs(t.right)
      && Proper(t.left) && Proper(t.right))
  }

  /** The pointers stored in the heap are those of the shape. */
  ghost predicate Linked(t: Tree)
    reads Refs(t)`l, Refs(t)`r
  {
    t.Leaf? || (t.ext.l == Root(t.left) && t.ext.r == Root(t.right) && Linked(t.left) && Linked(t.right))
  }

  ghost predicate Before(t: Tree, key: nat) {
    forall x <- Refs(t) :: x.End() <= key
  }

  ghost predicate After(t: Tree, key: nat) {
    forall x <- Refs(t) :: key < x.block
  }

  /** Non-empty, pairwise disjoint extents in ascending order. */
  ghost predicate Ordered(s: seq<RemapExtent>) {
    && (forall i | 0 <= i < |s| :: s[i].len > 0)
    && (forall i, j | 0 <= i < j < |s| :: s[i].End() <= s[j].block)
  }

  /** The same order, node by node. */
  ghost predicate Search(t: Tree) {
    t.Leaf? || (
      && t.ext.len > 0
      && Before(t.left, t.ext.block)
      && (forall x <- Refs(t.right) :: t.ext.End() <= x.block)
      && Search(t.left) && Search(t.right))
  }

  /** The root is where a search for `key` ends: all of the left subtree lies before it and all of the right one after it. */
  ghost predicate SplitsAt(t: Tree, key: nat) {
    t.Node? && Before(t.left, key) && After(t.right, key)
  }

  /** The root is the successor of a key that lies in no extent, and the key has a predecessor. */
  ghost predicate HasPred(t: Tree, key: nat) {
    SplitsAt(t, key) && key < t.ext.block && t.left.Node?
  }

  ghost predicate HasSucc(t: Tree, key: nat) {
    SplitsAt(t, key) && t.ext.End() <= key && t.right.Node?
  }

  /** Splaying `t` twice for a key in no extent alternates between its two neighbours: `x` is the other one. */
  ghost predicate Neighbour(t: Tree, key: nat, x: RemapExtent) {
    && (HasPred(t, key) ==> x.End() <= key)
    && (HasSucc(t, key) ==> key < x.block)
  }

  /** Where the descent for `key` ends: it takes two levels at a time while the key stays on the same side. */
  ghost function DescentEnd(t: Tree, key: nat): RemapExtent
    requires t.Node?
  {
    if key < t.ext.block then
      if t.left.Leaf? then t.ext
      else if key < t.left.ext.block then
        if t.left.left.Leaf? then t.left.ext else DescentEnd(t.left.left, key)
      else DescentEnd(t.left, key)
    else if t.ext.End() <= key then
      if t.right.Leaf? then t.ext
      else if t.right.ext.End() <= key then
        if t.right.right.Leaf? then t.right.ext else DescentEnd(t.right.right, key)
      else DescentEnd(t.right, key)
    else t.ext
  }

  // ----- The order of the in-order sequence

  lemma {:induction false} InOrderRef(t: Tree, x: RemapExtent)
    ensures x in InOrder(t) <==> x in Refs(t)
  {
    if t.Node? {
      InOrderRef(t.left, x);
      InOrderRef(t.right, x);
    }
  }

  lemma AroundOrdered(a: seq<RemapExtent>, x: RemapExtent, b: seq<RemapExtent>)
    requires Ordered(a) && Ordered(b) && x.len > 0
    requires forall y <- a :: y.End() <= x.block
    requires forall y <- b :: x.End() <= y.block
    ensures Ordered(a + [x] + b)
  {
    var s, k := a + [x] + b, |a|;
    forall i, j | 0 <= i < j < |s| ensures s[i].End() <= s[j].block {
      if i < k && k < j {
        assert s[i] in a && s[j] in b;
      }
    }
  }

  lemma OrderedAround(a: seq<RemapExtent>, x: RemapExtent, b: seq<RemapExtent>)
    requires Ordered(a + [x] + b)
    ensures Ordered(a) && Ordered(b) && x.len > 0
    ensures forall y <- a :: y.End() <= x.block
    ensures forall y <- b :: x.End() <= y.block
  {
    var s, k := a + [x] + b, |a|;
    assert s[k] == x;
    assert forall i | 0 <= i < k :: s[i] == a[i];
    assert forall i | 0 <= i < |b| :: s[k + 1 + i] == b[i];
    forall y | y in b ensures x.End() <= y.block {
      var i :| 0 <= i < |b| && b[i] == y;
      assert s[k + 1 + i] == y;
    }
  }

  lemma {:induction false} SearchInOrder(t: Tree)
    ensures Search(t) <==> Ordered(InOrder(t))
  {
    if t.Node? {
      var a, b := InOrder(t.left), InOrder(t.right);
      SearchInOrder(t.left);
      SearchInOrder(t.right);
      if Ordered(InOrder(t)) {
        OrderedAround(a, t.ext, b);
        forall x | x in Refs(t.left) ensures x.End() <= t.ext.block {
          InOrderRef(t.left, x);
        }
        forall x | x in Refs(t.right) ensures t.ext.End() <= x.block {
          InOrderRef(t.right, x);
        }
      }
      if Search(t) {
        forall x | x in a ensures x.End() <= t.ext.block {
          InOrderRef(t.left, x);
        }
        forall x | x in b ensures t.ext.End() <= x.block {
          InOrderRef(t.right, x);
        }
        AroundOrdered(a, t.ext, b);
      }
    }
  }

  lemma SameInOrder(t: Tree, u: Tree)
    requires InOrder(t) == InOrder(u)
    ensures Search(t) <==> Search(u)
  {
    SearchInOrder(t);
    SearchInOrder(u);
  }

  // ----- Partial trees
  // The loop of the top-down splay keeps two of them. The left one waits for the right child of its
  // rightmost extent, the right one for the left child of its leftmost extent.

  ghost function RightMost(t: Tree): RemapExtent
    requires t.Node?
  {
    if t.right.Leaf? then t.ext else RightMost(t.right)
  }

  ghost function LeftMost(t: Tree): RemapExtent
    requires t.Node?
  {
    if t.left.Leaf? then t.ext else LeftMost(t.left)
  }

  /** The extent of a partial tree whose pointer is still open. */
  ghost function OpenRight(t: Tree): set<RemapExtent> {
    if t.Leaf? then {} else {RightMost(t)}
  }

  ghost function OpenLeft(t: Tree): set<RemapExtent> {
    if t.Leaf? then {} else {LeftMost(t)}
  }

  lemma RightMostRef(t: Tree)
    requires t.Node?
    ensures RightMost(t) in Refs(t)
    ensures if t.right.Leaf? then RightMost(t) == t.ext else RightMost(t) == RightMost(t.right) && RightMost(t) in Refs(t.right)
  {}

  lemma LeftMostRef(t: Tree)
    requires t.Node?
    ensures LeftMost(t) in Refs(t)
    ensures if t.left.Leaf? then LeftMost(t) == t.ext else LeftMost(t) == LeftMost(t.left) && LeftMost(t) in Refs(t.left)
  {}

  ghost predicate LinkedOpenRight(t: Tree)
    requires Proper(t)
    reads Refs(t)`l, (Refs(t) - OpenRight(t))`r
  {
    t.Leaf? || (
      RightMostRef(t);
      && t.ext.l == Root(t.left) && Linked(t.left)
      && LinkedOpenRight(t.right) && (t.right.Node? ==> t.ext.r == Root(t.right)))
  }

  ghost predicate LinkedOpenLeft(t: Tree)
    requires Proper(t)
    reads Refs(t)`r, (Refs(t) - OpenLeft(t))`l
  {
    t.Leaf? || (
      LeftMostRef(t);
      && t.ext.r == Root(t.right) && Linked(t.right)
      && LinkedOpenLeft(t.left) && (t.left.Node? ==> t.ext.l == Root(t.left)))
  }

  ghost function PlugRight(t: Tree, sub: Tree): Tree {
    if t.Leaf? then sub else Node(t.left, t.ext, PlugRight(t.right, sub))
  }

  ghost function PlugLeft(t: Tree, sub: Tree): Tree {
    if t.Leaf? then sub else Node(PlugLeft(t.left, sub), t.ext, t.right)
  }

  lemma {:induction false} PlugRightShape(t: Tree, sub: Tree)
    requires Proper(t) && Proper(sub) && Refs(t) !! Refs(sub)
    ensures Refs(PlugRight(t, sub)) == Refs(t) + Refs(sub)
    ensures Proper(PlugRight(t, sub))
    ensures Root(PlugRight(t, sub)) == if t.Leaf? then Root(sub) else Root(t)
    ensures sub.Node? ==> PlugRight(t, sub).Node? && RightMost(PlugRight(t, sub)) == RightMost(sub)
  {
    if t.Node? {
      PlugRightShape(t.right, sub);
    }
  }

  lemma {:induction false} PlugLeftShape(t: Tree, sub: Tree)
    requires Proper(t) && Proper(sub) && Refs(t) !! Refs(sub)
    ensures Refs(PlugLeft(t, sub)) == Refs(t) + Refs(sub)
    ensures Proper(PlugLeft(t, sub))
    ensures Root(PlugLeft(t, sub)) == if t.Leaf? then Root(sub) else Root(t)
    ensures sub.Node? ==> PlugLeft(t, sub).Node? && LeftMost(PlugLeft(t, sub)) == LeftMost(sub)
  {
    if t.Node? {
      PlugLeftShape(t.left, sub);
    }
  }

  lemma {:induction false} PlugRightInOrder(t: Tree, sub: Tree)
    ensures InOrder(PlugRight(t, sub)) == InOrder(t) + InOrder(sub)
  {
    if t.Node? {
      PlugRightInOrder(t.right, sub);
    }
  }

  lemma {:induction false} PlugLeftInOrder(t: Tree, sub: Tree)
    ensures InOrder(PlugLeft(t, sub)) == InOrder(sub) + InOrder(t)
  {
    if t.Node? {
      PlugLeftInOrder(t.left, sub);
    }
  }

  lemma {:induction false} AttachRight(t: Tree, sub: Tree)
    requires Proper(t) && Proper(sub) && Refs(t) !! Refs(sub)
    requires LinkedOpenRight(t) && (t.Node? ==> RightMost(t).r == Root(sub))
    ensures Proper(PlugRight(t, sub))
    ensures LinkedOpenRight(sub) ==> LinkedOpenRight(PlugRight(t, sub))
    ensures Linked(sub) ==> Linked(PlugRight(t, sub))
  {
    PlugRightShape(t, sub);
    if t.Node? {
      PlugRightShape(t.right, sub);
      AttachRight(t.right, sub);
    }
  }

  lemma {:induction false} AttachLeft(t: Tree, sub: Tree)
    requires Proper(t) && Proper(sub) && Refs(t) !! Refs(sub)
    requires LinkedOpenLeft(t) && (t.Node? ==> LeftMost(t).l == Root(sub))
    ensures Proper(PlugLeft(t, sub))
    ensures LinkedOpenLeft(sub) ==> LinkedOpenLeft(PlugLeft(t, sub))
    ensures Linked(sub) ==> Linked(PlugLeft(t, sub))
  {
    PlugLeftShape(t, sub);
    if t.Node? {
      PlugLeftShape(t.left, sub);
      AttachLeft(t.left, sub);
    }
  }

  /** The three trees of the splay loop share out the extents. */
  ghost predicate Parts(all: set<RemapExtent>, lt: Tree, cur: Tree, rt: Tree) {
    && cur.Node?
    && Proper(cur) && Proper(lt) && Proper(rt)
    && Refs(cur) !! Refs(lt) && Refs(cur) !! Refs(rt) && Refs(lt) !! Refs(rt)
    && all == Refs(lt) + Refs(cur) + Refs(rt)
    && Search(cur)
  }

  /** "link right" on shapes: the root and its right subtree complete the right partial tree. */
  ghost function HangRight(cur: Tree, rt: Tree): Tree
    requires cur.Node?
  {
    PlugLeft(rt, Node(Leaf, cur.ext, cur.right))
  }

  ghost function HangLeft(lt: Tree, cur: Tree): Tree
    requires cur.Node?
  {
    PlugRight(lt, Node(cur.left, cur.ext, Leaf))
  }

  lemma HangRightShape(all: set<RemapExtent>, lt: Tree, cur: Tree, rt: Tree)
    requires Parts(all, lt, cur, rt)
    ensures var h := HangRight(cur, rt);
      && h.Node? && Proper(h) && Refs(h) == Refs(cur.right) + {cur.ext} + Refs(rt)
      && LeftMost(h) == cur.ext && Root(h) == if rt.Leaf? then cur.ext else Root(rt)
    ensures cur.left.Node? ==> Parts(all, lt, cur.left, HangRight(cur, rt))
  {
    PlugLeftShape(rt, Node(Leaf, cur.ext, cur.right));
  }

  lemma HangLeftShape(all: set<RemapExtent>, lt: Tree, cur: Tree, rt: Tree)
    requires Parts(all, lt, cur, rt)
    ensures var h := HangLeft(lt, cur);
      && h.Node? && Proper(h) && Refs(h) == Refs(lt) + Refs(cur.left) + {cur.ext}
      && RightMost(h) == cur.ext && Root(h) == if lt.Leaf? then cur.ext else Root(lt)
    ensures cur.right.Node? ==> Parts(all, HangLeft(lt, cur), cur.right, rt)
  {
    PlugRightShape(lt, Node(cur.left, cur.ext, Leaf));
  }

  lemma RotateShape(all: set<RemapExtent>, lt: Tree, a: Tree, x: RemapExtent, b: Tree, y: RemapExtent, c: Tree,
                    rt: Tree)
    ensures Parts(all, lt, Node(Node(a, x, b), y, c), rt) <==> Parts(all, lt, Node(a, x, Node(b, y, c)), rt)
    ensures Whole(lt, Node(Node(a, x, b), y, c), rt) == Whole(lt, Node(a, x, Node(b, y, c)), rt)
  {
    var ab, bc := Node(a, x, b), Node(b, y, c);
    var t, u := Node(ab, y, c), Node(a, x, bc);
    SameInOrder(t, u);
    assert Refs(ab) == Refs(a) + {x} + Refs(b) && Refs(bc) == Refs(b) + {y} + Refs(c);
    assert Refs(t) == Refs(u);
    assert Proper(t) <==> Proper(u) by {
      assert Proper(t) <==> Proper(ab) && Proper(c) && y !in Refs(ab) && y !in Refs(c) && Refs(ab) !! Refs(c);
      assert Proper(u) <==> Proper(a) && Proper(bc) && x !in Refs(a) && x !in Refs(bc) && Refs(a) !! Refs(bc);
    }
  }

  lemma AssembleShape(all: set<RemapExtent>, lt: Tree, cur: Tree, rt: Tree)
    requires Parts(all, lt, cur, rt)
    ensures Refs(PlugRight(lt, cur.left)) == Refs(lt) + Refs(cur.left)
    ensures Refs(PlugLeft(rt, cur.right)) == Refs(cur.right) + Refs(rt)
    ensures Root(PlugRight(lt, cur.left)) == if lt.Leaf? then Root(cur.left) else Root(lt)
    ensures Root(PlugLeft(rt, cur.right)) == if rt.Leaf? then Root(cur.right) else Root(rt)
    ensures var w := Node(PlugRight(lt, cur.left), cur.ext, PlugLeft(rt, cur.right));
      Proper(w) && Refs(w) == all
    ensures Proper(cur.right) && Refs(cur.right) !! Refs(rt) && Refs(rt) <= all && Refs(cur.right) <= all && cur.ext in all
    ensures Refs(PlugRight(lt, cur.left)) !! Refs(rt) && Refs(PlugRight(lt, cur.left)) <= all
  {
    var a, b := PlugRight(lt, cur.left), PlugLeft(rt, cur.right);
    PlugRightShape(lt, cur.left);
    PlugLeftShape(rt, cur.right);
    assert Refs(a) !! Refs(b) && cur.ext !in Refs(a) && cur.ext !in Refs(b);
    assert Proper(Node(a, cur.ext, b));
    assert Refs(a) + {cur.ext} + Refs(b) == all;
  }

  /** The extents of the three trees of the splay loop, in order. */
  ghost function Whole(lt: Tree, cur: Tree, rt: Tree): seq<RemapExtent> {
    InOrder(lt) + InOrder(cur) + InOrder(rt)
  }

  lemma AssembleInOrder(lt: Tree, cur: Tree, rt: Tree)
    requires cur.Node?
    ensures var w := Node(PlugRight(lt, cur.left), cur.ext, PlugLeft(rt, cur.right));
      InOrder(w) == Whole(lt, cur, rt)
  {
    PlugRightInOrder(lt, cur.left);
    PlugLeftInOrder(rt, cur.right);
  }

  lemma HangRightInOrder(lt: Tree, cur: Tree, rt: Tree)
    requires cur.Node?
    ensures Whole(lt, cur.left, HangRight(cur, rt)) == Whole(lt, cur, rt)
  {
    var sub := Node(Leaf, cur.ext, cur.right);
    PlugLeftInOrder(rt, sub);
    calc {
      InOrder(lt) + InOrder(cur.left) + (InOrder(sub) + InOrder(rt));
      { assert InOrder(sub) == [cur.ext] + InOrder(cur.right); }
      InOrder(lt) + (InOrder(cur.left) + [cur.ext] + InOrder(cur.right)) + InOrder(rt);
      Whole(lt, cur, rt);
    }
  }

  lemma HangLeftInOrder(lt: Tree, cur: Tree, rt: Tree)
    requires cur.Node?
    ensures Whole(HangLeft(lt, cur), cur.right, rt) == Whole(lt, cur, rt)
  {
    var sub := Node(cur.left, cur.ext, Leaf);
    PlugRightInOrder(lt, sub);
    assert InOrder(sub) == InOrder(cur.left) + [cur.ext];
  }

  lemma HangRightLinks(cur: Tree, rt: Tree)
    requires cur.Node? && Proper(cur) && Proper(rt) && Refs(cur) !! Refs(rt)
    requires Linked(cur.right) && cur.ext.r == Root(cur.right)
    requires LinkedOpenLeft(rt) && (rt.Node? ==> LeftMost(rt).l == cur.ext)
    ensures Proper(HangRight(cur, rt)) && LinkedOpenLeft(HangRight(cur, rt))
  {
    var sub := Node(Leaf, cur.ext, cur.right);
    assert Proper(sub);
    assert Refs(rt) !! Refs(sub);
    assert LinkedOpenLeft(sub);
    AttachLeft(rt, sub);
  }

  lemma HangLeftLinks(lt: Tree, cur: Tree)
    requires cur.Node? && Proper(cur) && Proper(lt) && Refs(cur) !! Refs(lt)
    requires Linked(cur.left) && cur.ext.l == Root(cur.left)
    requires LinkedOpenRight(lt) && (lt.Node? ==> RightMost(lt).r == cur.ext)
    ensures Proper(HangLeft(lt, cur)) && LinkedOpenRight(HangLeft(lt, cur))
  {
    var sub := Node(cur.left, cur.ext, Leaf);
    assert Proper(sub);
    assert Refs(lt) !! Refs(sub);
    assert LinkedOpenRight(sub);
    AttachRight(lt, sub);
  }

  /** Inserting an extent between two trees on either side of it. */
  lemma InsertOrder(a: Tree, x: RemapExtent, b: Tree)
    requires Search(a) && Search(b) && x.len > 0
    requires Before(a, x.block) && forall y <- Refs(b) :: x.End() <= y.block
    ensures Search(Node(a, x, b))
  {}

  /** The shape with `x` as the root, put between the left subtree and the old root. */
  lemma BeforeShape(t: Tree, x: RemapExtent)
    requires t.Node? && Proper(t) && Search(t) && x !in Refs(t) && x.len > 0
    requires Before(t.left, x.block) && x.End() <= t.ext.block
    ensures var u := Node(t.left, x, Node(Leaf, t.ext, t.right));
      Proper(u) && Search(u) && Refs(u) == Refs(t) + {x}
    ensures t.ext !in Refs(t.left) + Refs(t.right) && Refs(t.left) !! Refs(t.right)
  {
    var c := Node(Leaf, t.ext, t.right);
    assert Refs(c) == {t.ext} + Refs(t.right);
    InsertOrder(t.left, x, c);
  }

  /** The shape with `x` as the root, put between the old root and the right subtree. */
  lemma AfterShape(t: Tree, x: RemapExtent)
    requires t.Node? && Proper(t) && Search(t) && x !in Refs(t) && x.len > 0
    requires t.ext.End() <= x.block && forall y <- Refs(t.right) :: x.End() <= y.block
    ensures var u := Node(Node(t.left, t.ext, Leaf), x, t.right);
      Proper(u) && Search(u) && Refs(u) == Refs(t) + {x}
    ensures t.ext !in Refs(t.left) + Refs(t.right) && Refs(t.left) !! Refs(t.right)
  {
    var c := Node(t.left, t.ext, Leaf);
    assert Refs(c) == Refs(t.left) + {t.ext};
    InsertOrder(c, x, t.right);
  }

  /** Which neighbour of a clear extent `x` a second splay brings up, and so whether touching it counts as overlap. */
  lemma InsertTouches(t: Tree, u: Tree, x: RemapExtent)
    requires Search(t) && Search(u) && t.Node? && Refs(t) == Refs(u) && x.len > 0
    requires forall y <- Refs(t) :: x.End() <= y.block || y.End() <= x.block
    requires SplitsAt(u, x.block) && Neighbour(t, x.block, u.ext)
    ensures SplitsAt(t, x.block) && !HasSucc(t, x.block) ==>
      ((x.End() < u.ext.block || u.ext.End() <= x.block) <==> !(x.End() == t.ext.block && t.left.Leaf?))
  {
    var key := x.block;
    assert u.ext in Refs(u) && t.ext in Refs(t);
    SearchLens(t);
    if SplitsAt(t, key) && key < t.ext.block && t.left.Leaf? {
      assert After(t, key);
      assert Refs(u.left) == {};
      assert u.ext == t.ext;
    }
  }

  lemma LinkedRoot(t: Tree)
    requires t.Node? && Linked(t)
    ensures t.ext.l == Root(t.left) && t.ext.r == Root(t.right)
  {}

  /** What is known of the sides of the key passes on to where a step to the left goes. */
  lemma LeftSides(t: Tree, key: nat)
    requires t.Node?
    ensures t.left.Node? && Before(t.left, key) ==> t.left.ext.End() <= key
    ensures After(t, key) ==> After(t.left, key)
    ensures After(t, key) && t.left.Node? ==>
      After(t.left.left, key) && After(Node(t.left.left, t.left.ext, Node(t.left.right, t.ext, t.right)), key)
  {}

  lemma RightSides(t: Tree, key: nat)
    requires t.Node?
    ensures t.right.Node? && After(t.right, key) ==> key < t.right.ext.block
    ensures Before(t, key) ==> Before(t.right, key)
    ensures Before(t, key) && t.right.Node? ==>
      Before(t.right.right, key) && Before(Node(Node(t.left, t.ext, t.right.left), t.right.ext, t.right.right), key)
  {}

  /** What is hung on the right partial tree lies past the key. */
  lemma HungRightSide(t: Tree, rt: Tree, key: nat)
    requires t.Node? && Search(t) && key < t.ext.block && After(rt, key)
    requires Refs(HangRight(t, rt)) == Refs(t.right) + {t.ext} + Refs(rt)
    ensures After(HangRight(t, rt), key)
  {}

  lemma HungLeftSide(lt: Tree, t: Tree, key: nat)
    requires t.Node? && Search(t) && t.ext.End() <= key && Before(lt, key)
    requires Refs(HangLeft(lt, t)) == Refs(lt) + Refs(t.left) + {t.ext}
    ensures Before(HangLeft(lt, t), key)
  {
    assert forall x <- Refs(t.left) :: x.End() <= t.ext.block <= key;
  }

  lemma NothingHung(key: nat)
    ensures Before(Leaf, key) && After(Leaf, key)
  {}

  /** On which sides of the key the subtrees of a tree lie that is split at the key. */
  lemma SidesKnown(t: Tree, key: nat)
    requires t.Node?
    ensures HasPred(t, key) ==> Before(t.left, key) && t.left.Node? && key < t.ext.block
    ensures HasSucc(t, key) ==> After(t.right, key) && t.right.Node? && t.ext.End() <= key
    ensures (Before(t, key) ==> t.ext.End() <= key) && (After(t, key) ==> key < t.ext.block)
  {
    assert t.ext in Refs(t);
  }

  /** Where the descent stops, the remaining tree is split at the key. */
  lemma EndSplits(t: Tree, cur: Tree, key: nat, stop: bool)
    requires t.Node? && cur.Node? && Search(cur)
    requires stop || cur.ext.Holds(key)
    requires stop ==> if key < cur.ext.block then cur.left.Leaf? else cur.right.Leaf? && cur.ext.End() <= key
    requires HasPred(t, key) ==> (cur == t && !stop) || Before(cur, key)
    requires HasSucc(t, key) ==> (cur == t && !stop) || After(cur, key)
    ensures Before(cur.left, key) && After(cur.right, key) && Neighbour(t, key, cur.ext)
  {
    assert cur.ext in Refs(cur);
  }

  lemma {:induction false} SearchLens(t: Tree)
    requires Search(t)
    ensures forall y <- Refs(t) :: y.len > 0
  {
    if t.Node? {
      SearchLens(t.left);
      SearchLens(t.right);
    }
  }

  lemma {:induction false} SearchDisjoint(t: Tree, x: RemapExtent, y: RemapExtent)
    requires Search(t) && x in Refs(t) && y in Refs(t) && x != y
    ensures x.End() <= y.block || y.End() <= x.block
  {
    if x in Refs(t.left) && y in Refs(t.left) {
      SearchDisjoint(t.left, x, y);
    } else if x in Refs(t.right) && y in Refs(t.right) {
      SearchDisjoint(t.right, x, y);
    }
  }

  /** The tree of extents, kept as the program keeps it: a root pointer into linked nodes. */
  class SplayTree {
    var root: RemapExtent?
    ghost var shape: Tree
    ghost var repr: set<RemapExtent>

    ghost predicate Valid()
      reads `root, `shape, `repr, repr`l, repr`r
    {
      && root == Root(shape) && repr == Refs(shape)
      && Proper(shape) && Linked(shape) && Search(shape)
    }

    constructor ()
      ensures Valid() && shape == Leaf
    {
      root, shape, repr := null, Leaf, {};
    }

    /** `l` ends the left partial tree, or is the stack node `n` while that is empty. */
    static ghost predicate LeftEnd(n: RemapExtent, l: RemapExtent, lt: Tree)
      reads n`r
    {
      if lt.Leaf? then l == n else l == RightMost(lt) && n.r == Root(lt)
    }

    static ghost predicate RightEnd(n: RemapExtent, r: RemapExtent, rt: Tree)
      reads n`l
    {
      if rt.Leaf? then r == n else r == LeftMost(rt) && n.l == Root(rt)
    }

    /** What holds at each iteration of the splay loop: the two partial trees and the remaining one make up the tree. */
    ghost predicate Splaying(n: RemapExtent, l: RemapExtent, r: RemapExtent, lt: Tree, cur: Tree, rt: Tree)
      reads `root, `repr, n`l, n`r, repr`l, repr`r
    {
      && Parts(repr, lt, cur, rt) && n !in repr
      && root == cur.ext
      && Linked(cur) && LinkedOpenRight(lt) && LinkedOpenLeft(rt)
      && LeftEnd(n, l, lt) && RightEnd(n, r, rt)
    }

    /** The pointers of "rotate right". */
    method TurnRight(ghost a: Tree, ghost b: Tree, ghost c: Tree) returns (y: RemapExtent)
      requires root != null && root.l != null && Linked(Node(Node(a, root.l, b), root, c))
      requires Proper(Node(Node(a, root.l, b), root, c))
      modifies root`l, root.l`r
      ensures y == old(root.l) && Linked(Node(a, y, Node(b, root, c)))
    {
      y := root.l;
      assert Linked(Node(a, y, b));
      root.l := y.r;
      y.r := root;
      assert Linked(a) && Linked(b) && Linked(c);
      assert Linked(Node(b, root, c));
    }

    /** The pointers of "rotate left". */
    method TurnLeft(ghost a: Tree, ghost b: Tree, ghost c: Tree) returns (y: RemapExtent)
      requires root != null && root.r != null && Linked(Node(a, root, Node(b, root.r, c)))
      requires Proper(Node(a, root, Node(b, root.r, c)))
      modifies root`r, root.r`l
      ensures y == old(root.r) && Linked(Node(Node(a, root, b), y, c))
    {
      y := root.r;
      assert Linked(Node(b, y, c));
      root.r := y.l;
      y.l := root;
      assert Linked(a) && Linked(b) && Linked(c);
      assert Linked(Node(a, root, b));
    }

    /** "rotate right" of the splay loop. */
    method RotateRight(n: RemapExtent, ghost l: RemapExtent, ghost r: RemapExtent, ghost lt: Tree, ghost cur: Tree,
                       ghost rt: Tree)
      returns (ghost cur': Tree)
      requires Splaying(n, l, r, lt, cur, rt) && cur.left.Node?
      modifies `root, repr`l, repr`r
      ensures cur' == Node(cur.left.left, cur.left.ext, Node(cur.left.right, cur.ext, cur.right))
      ensures Splaying(n, l, r, lt, cur', rt)
      ensures Whole(lt, cur', rt) == Whole(lt, cur, rt)
    {
      hide InOrder, Whole, Search, Linked, LinkedOpenLeft, LinkedOpenRight, LeftMost, RightMost, OpenLeft, OpenRight;
      ghost var a, b, c := cur.left.left, cur.left.right, cur.right;
      cur' := Node(a, cur.left.ext, Node(b, cur.ext, c));
      RotateShape(repr, lt, a, cur.left.ext, b, cur.ext, c, rt);
      LinkedRoot(cur);
      assert cur == Node(Node(a, root.l, b), root, c);
      root := TurnRight(a, b, c);
      assert LinkedOpenRight(lt);
      assert LinkedOpenLeft(rt);
    }

    /** "rotate left" of the splay loop. */
    method RotateLeft(n: RemapExtent, ghost l: RemapExtent, ghost r: RemapExtent, ghost lt: Tree, ghost cur: Tree,
                      ghost rt: Tree)
      returns (ghost cur': Tree)
      requires Splaying(n, l, r, lt, cur, rt) && cur.right.Node?
      modifies `root, repr`l, repr`r
      ensures cur' == Node(Node(cur.left, cur.ext, cur.right.left), cur.right.ext, cur.right.right)
      ensures Splaying(n, l, r, lt, cur', rt)
      ensures Whole(lt, cur', rt) == Whole(lt, cur, rt)
    {
      hide InOrder, Whole, Search, Linked, LinkedOpenLeft, LinkedOpenRight, LeftMost, RightMost, OpenLeft, OpenRight;
      ghost var a, b, c := cur.left, cur.right.left, cur.right.right;
      cur' := Node(Node(a, cur.ext, b), cur.right.ext, c);
      RotateShape(repr, lt, a, cur.ext, b, cur.right.ext, c, rt);
      LinkedRoot(cur);
      assert cur == Node(a, root, Node(b, root.r, c));
      root := TurnLeft(a, b, c);
      assert LinkedOpenRight(lt);
      assert LinkedOpenLeft(rt);
    }

    /** The pointer write of "link right". */
    method SetLeft(n: RemapExtent, r: RemapExtent, ghost cur: Tree, ghost rt: Tree)
      requires cur.Node? && Proper(cur) && Linked(cur) && root == cur.ext
      requires Proper(rt) && LinkedOpenLeft(rt) && Refs(cur) !! Refs(rt)
      requires Refs(cur) + Refs(rt) <= repr && n !in repr && RightEnd(n, r, rt)
      modifies r`l
      ensures Linked(cur) && Proper(HangRight(cur, rt)) && LinkedOpenLeft(HangRight(cur, rt))
      ensures rt.Leaf? ==> n.l == root
    {
      if rt.Node? {
        LeftMostRef(rt);
      }
      assert Linked(cur.right);
      r.l := root;
      assert Linked(cur.left) && Linked(cur.right);
      assert r !in Refs(rt) - OpenLeft(rt);
      assert LinkedOpenLeft(rt);
      HangRightLinks(cur, rt);
    }

    /** The pointer write of "link left". */
    method SetRight(n: RemapExtent, l: RemapExtent, ghost lt: Tree, ghost cur: Tree)
      requires cur.Node? && Proper(cur) && Linked(cur) && root == cur.ext
      requires Proper(lt) && LinkedOpenRight(lt) && Refs(cur) !! Refs(lt)
      requires Refs(cur) + Refs(lt) <= repr && n !in repr && LeftEnd(n, l, lt)
      modifies l`r
      ensures Linked(cur) && Proper(HangLeft(lt, cur)) && LinkedOpenRight(HangLeft(lt, cur))
      ensures lt.Leaf? ==> n.r == root
    {
      if lt.Node? {
        RightMostRef(lt);
      }
      assert Linked(cur.left);
      l.r := root;
      assert Linked(cur.left) && Linked(cur.right);
      assert l !in Refs(lt) - OpenRight(lt);
      assert LinkedOpenRight(lt);
      HangLeftLinks(lt, cur);
    }

    /** "link right": hangs the root and its right subtree on the right partial tree, whose end is `r`. */
    method LinkRight(n: RemapExtent, ghost l: RemapExtent, r: RemapExtent, ghost lt: Tree, ghost cur: Tree,
                     ghost rt: Tree)
      returns (r': RemapExtent, ghost rt': Tree)
      requires Splaying(n, l, r, lt, cur, rt) && cur.left.Node?
      modifies `root, n`l, repr`l, repr`r
      ensures Splaying(n, l, r', lt, cur.left, rt') && rt' == HangRight(cur, rt)
    {
      hide InOrder, Whole, Search, PlugLeft, PlugRight, HangLeft, HangRight, Proper, LinkedOpenLeft, LinkedOpenRight;
      if rt.Node? {
        LeftMostRef(rt);
      }
      HangRightShape(repr, lt, cur, rt);
      rt' := HangRight(cur, rt);
      SetLeft(n, r, cur, rt);
      assert LinkedOpenRight(lt);
      r' := root;
      root := root.l;
    }

    /** "link left": hangs the root and its left subtree on the left partial tree, whose end is `l`. */
    method LinkLeft(n: RemapExtent, l: RemapExtent, ghost r: RemapExtent, ghost lt: Tree, ghost cur: Tree,
                    ghost rt: Tree)
      returns (l': RemapExtent, ghost lt': Tree)
      requires Splaying(n, l, r, lt, cur, rt) && cur.right.Node?
      modifies `root, n`r, repr`l, repr`r
      ensures Splaying(n, l', r, lt', cur.right, rt) && lt' == HangLeft(lt, cur)
    {
      hide InOrder, Whole, Search, PlugLeft, PlugRight, HangLeft, HangRight, Proper, LinkedOpenLeft, LinkedOpenRight;
      if lt.Node? {
        RightMostRef(lt);
      }
      HangLeftShape(repr, lt, cur, rt);
      lt' := HangLeft(lt, cur);
      SetRight(n, l, lt, cur);
      assert LinkedOpenLeft(rt);
      l' := root;
      root := root.r;
    }

    /** The branch of the loop for a key before the root. */
    method StepLeft(key: nat, n: RemapExtent, ghost l: RemapExtent, r: RemapExtent, ghost lt: Tree, ghost cur: Tree,
                    ghost rt: Tree)
      returns (stop: bool, r': RemapExtent, ghost cur': Tree, ghost rt': Tree)
      requires Splaying(n, l, r, lt, cur, rt) && After(rt, key) && key < root.block
      modifies `root, n`l, repr`l, repr`r
      ensures Splaying(n, l, r', lt, cur', rt') && After(rt', key)
      ensures Whole(lt, cur', rt') == Whole(lt, cur, rt)
      ensures stop ==> cur'.left.Leaf? && key < cur'.ext.block
      ensures Before(cur.left, key) ==> if cur.left.Node? then !stop && Before(cur', key) else cur' == cur
      ensures After(cur, key) ==> After(cur', key)
      ensures !stop ==> cur' == cur.left || (cur.left.Node? && cur' == cur.left.left)
      ensures DescentEnd(cur, key) == if stop then cur'.ext else DescentEnd(cur', key)
    {
      hide InOrder, Whole, Linked, LinkedOpenLeft, LinkedOpenRight, LeftMost, RightMost, OpenLeft, OpenRight, PlugLeft,
        PlugRight, SplayTree.LeftEnd, SplayTree.RightEnd, Before, After, Search, HangRight, Proper;
      stop, r', cur', rt' := false, r, cur, rt;
      LinkedRoot(cur);
      LeftSides(cur, key);
      if root.l == null {
        stop := true;
        return;
      }
      if key < root.l.block {
        cur' := RotateRight(n, l, r, lt, cur, rt);
        LinkedRoot(cur');
        if root.l == null {
          stop := true;
          return;
        }
      }
      HangRightShape(repr, lt, cur', rt);
      HangRightInOrder(lt, cur', rt);
      HungRightSide(cur', rt, key);
      r', rt' := LinkRight(n, l, r, lt, cur', rt);
      cur' := cur'.left;
    }

    /** The branch of the loop for a key past the root. */
    method StepRight(key: nat, n: RemapExtent, l: RemapExtent, ghost r: RemapExtent, ghost lt: Tree, ghost cur: Tree,
                     ghost rt: Tree)
      returns (stop: bool, l': RemapExtent, ghost lt': Tree, ghost cur': Tree)
      requires Splaying(n, l, r, lt, cur, rt) && Before(lt, key) && root.End() <= key
      modifies `root, n`r, repr`l, repr`r
      ensures Splaying(n, l', r, lt', cur', rt) && Before(lt', key)
      ensures Whole(lt', cur', rt) == Whole(lt, cur, rt)
      ensures stop ==> cur'.right.Leaf? && cur'.ext.End() <= key
      ensures After(cur.right, key) ==> if cur.right.Node? then !stop && After(cur', key) else cur' == cur
      ensures Before(cur, key) ==> Before(cur', key)
      ensures !stop ==> cur' == cur.right || (cur.right.Node? && cur' == cur.right.right)
      ensures DescentEnd(cur, key) == if stop then cur'.ext else DescentEnd(cur', key)
    {
      hide InOrder, Whole, Linked, LinkedOpenLeft, LinkedOpenRight, LeftMost, RightMost, OpenLeft, OpenRight, PlugLeft,
        PlugRight, SplayTree.LeftEnd, SplayTree.RightEnd, Before, After, Search, HangLeft, Proper;
      stop, l', lt', cur' := false, l, lt, cur;
      LinkedRoot(cur);
      RightSides(cur, key);
      if root.r == null {
        stop := true;
        return;
      }
      if key >= root.r.block + root.r.len {
        cur' := RotateLeft(n, l, r, lt, cur, rt);
        LinkedRoot(cur');
        if root.r == null {
          stop := true;
          return;
        }
      }
      HangLeftShape(repr, lt, cur', rt);
      HangLeftInOrder(lt, cur', rt);
      HungLeftSide(lt, cur', key);
      l', lt' := LinkLeft(n, l, r, lt, cur', rt);
      cur' := cur'.right;
    }

    /** "assemble", first step: the left subtree of the root completes the left partial tree. */
    method CompleteLeft(n: RemapExtent, l: RemapExtent, ghost r: RemapExtent, ghost lt: Tree, ghost cur: Tree,
                        ghost rt: Tree)
      requires Splaying(n, l, r, lt, cur, rt)
      modifies n`r, repr`r
      ensures Linked(PlugRight(lt, cur.left)) && n.r == Root(PlugRight(lt, cur.left))
      ensures LinkedOpenLeft(rt) && RightEnd(n, r, rt) && Linked(cur.right) && root.r == Root(cur.right)
    {
      if lt.Node? {
        RightMostRef(lt);
      }
      AssembleShape(repr, lt, cur, rt);
      hide InOrder, Whole, Search;
      l.r := root.l;
      assert LinkedOpenLeft(rt);
      assert Linked(cur.right);
      assert l !in Refs(lt) - OpenRight(lt);
      assert LinkedOpenRight(lt);
      assert Linked(cur.left);
      AttachRight(lt, cur.left);
    }

    /** Second step: the right subtree completes the right partial tree. */
    method CompleteRight(n: RemapExtent, r: RemapExtent, ghost rt: Tree, ghost sub: Tree)
      requires Proper(rt) && Proper(sub) && Refs(rt) !! Refs(sub) && Refs(rt) <= repr && n !in repr
      requires LinkedOpenLeft(rt) && Linked(sub) && RightEnd(n, r, rt)
      requires root != null && root.r == Root(sub) && n !in Refs(sub)
      modifies r`l
      ensures Linked(PlugLeft(rt, sub)) && n.l == Root(PlugLeft(rt, sub))
    {
      if rt.Node? {
        LeftMostRef(rt);
      }
      r.l := root.r;
      assert r !in Refs(rt) - OpenLeft(rt);
      assert LinkedOpenLeft(rt);
      assert Linked(sub);
      AttachLeft(rt, sub);
      PlugLeftShape(rt, sub);
    }

    /** Third step: the completed trees become the subtrees of the root. */
    method HangSides(n: RemapExtent, ghost a: Tree, ghost b: Tree)
      requires root != null && n != root && Proper(Node(a, root, b)) && n !in Refs(a) + Refs(b)
      requires Linked(a) && Linked(b) && n.r == Root(a) && n.l == Root(b)
      modifies root`l, root`r
      ensures Linked(Node(a, root, b))
    {
      root.l := n.r;
      root.r := n.l;
    }

    /** "assemble": the two partial trees become the subtrees of the root. */
    method Assemble(n: RemapExtent, l: RemapExtent, r: RemapExtent, ghost lt: Tree, ghost cur: Tree, ghost rt: Tree,
                    ghost first: Tree)
      requires Splaying(n, l, r, lt, cur, rt)
      requires Whole(lt, cur, rt) == InOrder(first) && Search(first)
      modifies `shape, n`l, n`r, repr`l, repr`r
      ensures shape == Node(PlugRight(lt, cur.left), root, PlugLeft(rt, cur.right))
      ensures Valid() && InOrder(shape) == InOrder(first)
    {
      hide LinkedOpenLeft, LinkedOpenRight, LeftMost, RightMost, OpenLeft, OpenRight, PlugLeft, PlugRight, InOrder,
        Whole, Search, Ordered, Proper, Refs;
      ghost var a, b := PlugRight(lt, cur.left), PlugLeft(rt, cur.right);
      shape := Node(a, root, b);
      if lt.Node? {
        RightMostRef(lt);
      }
      if rt.Node? {
        LeftMostRef(rt);
      }
      AssembleShape(repr, lt, cur, rt);
      AssembleInOrder(lt, cur, rt);
      SameInOrder(first, shape);
      CompleteLeft(n, l, r, lt, cur, rt);
      CompleteRight(n, r, rt, cur.right);
      assert Linked(a);
      HangSides(n, a, b);
    }

    /** The loop of the top-down splay. It stops at the extent that holds the key or where the search falls off the tree. */
    method DescendFrom(key: nat, n: RemapExtent)
      returns (l: RemapExtent, r: RemapExtent, ghost lt: Tree, ghost cur: Tree, ghost rt: Tree)
      requires Splaying(n, n, n, Leaf, shape, Leaf)
      modifies `root, n`l, n`r, repr`l, repr`r
      ensures Splaying(n, l, r, lt, cur, rt)
      ensures Whole(lt, cur, rt) == Whole(Leaf, shape, Leaf)
      ensures Before(lt, key) && After(rt, key) && Before(cur.left, key) && After(cur.right, key)
      ensures Neighbour(shape, key, cur.ext) && cur.ext == DescentEnd(shape, key)
    {
      hide Linked, LinkedOpenLeft, LinkedOpenRight, LeftMost, RightMost, OpenLeft, OpenRight, PlugLeft, PlugRight,
        SplayTree.LeftEnd, SplayTree.RightEnd, Proper, InOrder, Whole, Neighbour, HasPred, HasSucc, Before, After;
      l, r := n, n;
      cur, lt, rt := shape, Leaf, Leaf;
      var stop := false;
      NothingHung(key);
      while !stop && !(root.block <= key < root.block + root.len)
        invariant Splaying(n, l, r, lt, cur, rt)
        invariant Whole(lt, cur, rt) == Whole(Leaf, shape, Leaf)
        invariant Before(lt, key) && After(rt, key)
        invariant stop ==> if key < cur.ext.block then cur.left.Leaf? else cur.right.Leaf? && cur.ext.End() <= key
        invariant DescentEnd(shape, key) == if stop then cur.ext else DescentEnd(cur, key)
        invariant HasPred(shape, key) ==> (cur == shape && !stop) || Before(cur, key)
        invariant HasSucc(shape, key) ==> (cur == shape && !stop) || After(cur, key)
        modifies `root, n`l, n`r, repr`l, repr`r
        decreases !stop, cur
      {
        SidesKnown(cur, key);
        if key < root.block {
          stop, r, cur, rt := StepLeft(key, n, l, r, lt, cur, rt);
        } else {
          stop, l, lt, cur := StepRight(key, n, l, r, lt, cur, rt);
        }
      }
      EndSplits(shape, cur, key, stop);
    }

    method Descend(key: nat)
      returns (n: RemapExtent, l: RemapExtent, r: RemapExtent, ghost lt: Tree, ghost cur: Tree, ghost rt: Tree)
      requires Valid() && root != null
      modifies `root, repr`l, repr`r
      ensures fresh(n) && Splaying(n, l, r, lt, cur, rt)
      ensures Whole(lt, cur, rt) == InOrder(shape)
      ensures Before(lt, key) && After(rt, key) && Before(cur.left, key) && After(cur.right, key)
      ensures Neighbour(shape, key, cur.ext) && cur.ext == DescentEnd(shape, key)
    {
      n := new RemapExtent(0, 0, 0, 0);
      assert Splaying(n, n, n, Leaf, shape, Leaf) && Whole(Leaf, shape, Leaf) == InOrder(shape);
      l, r, lt, cur, rt := DescendFrom(key, n);
    }

    /** Top-down splaying: moves to the root the extent where a search for `key` ends. */
    method Splay(key: nat) returns (ext: RemapExtent?)
      requires Valid()
      modifies `root, `shape, repr`l, repr`r
      ensures Valid() && ext == root
      ensures InOrder(shape) == old(InOrder(shape)) && repr == old(repr)
      ensures shape.Leaf? <==> old(shape).Leaf?
      ensures shape.Node? ==> SplitsAt(shape, key) && shape.ext == DescentEnd(old(shape), key)
      ensures shape.Node? ==> Neighbour(old(shape), key, shape.ext)
    {
      if root == null {
        return null;
      }
      ghost var first := shape;
      ghost var lt, cur, rt;
      var n, l, r;
      n, l, r, lt, cur, rt := Descend(key);
      AssembleShape(repr, lt, cur, rt);
      Assemble(n, l, r, lt, cur, rt, first);
      ext := root;
    }

    /** `x` overlaps no extent of the tree. */
    ghost predicate Clear(x: RemapExtent)
      reads `repr
    {
      forall y <- repr :: x.End() <= y.block || y.End() <= x.block
    }

    /** The pointers for `x` between the left subtree `a` and the root. */
    method LinkBefore(x: RemapExtent, ghost a: Tree, ghost b: Tree)
      requires root != null && Linked(Node(a, root, b)) && x != root
      requires x !in Refs(a) + Refs(b) && root !in Refs(a) + Refs(b)
      modifies x`l, x`r, root`l
      ensures Linked(Node(a, x, Node(Leaf, root, b)))
    {
      x.l := root.l;
      x.r := root;
      root.l := null;
      assert Linked(a) && Linked(b);
      assert Linked(Node(Leaf, root, b));
    }

    /** The pointers for `x` between the root and the right subtree `b`. */
    method LinkAfter(x: RemapExtent, ghost a: Tree, ghost b: Tree)
      requires root != null && Linked(Node(a, root, b)) && x != root
      requires x !in Refs(a) + Refs(b) && root !in Refs(a) + Refs(b)
      modifies x`l, x`r, root`r
      ensures Linked(Node(Node(a, root, Leaf), x, b))
    {
      x.r := root.r;
      x.l := root;
      root.r := null;
      assert Linked(a) && Linked(b);
      assert Linked(Node(a, root, Leaf));
    }

    /** `x` becomes the root, with the old root and its right subtree on its right. */
    method PutBefore(x: RemapExtent)
      requires Valid() && root != null && x !in repr && x.len > 0
      requires Before(shape.left, x.block) && x.End() <= root.block
      modifies `root, `shape, `repr, x`l, x`r, root`l
      ensures Valid() && repr == old(repr) + {x}
    {
      hide Search, Proper, InOrder, Before, Linked;
      ghost var a, b := shape.left, shape.right;
      BeforeShape(shape, x);
      assert shape == Node(a, root, b);
      LinkBefore(x, a, b);
      root, shape, repr := x, Node(a, x, Node(Leaf, root, b)), repr + {x};
    }

    /** `x` becomes the root, with the old root and its left subtree on its left. */
    method PutAfter(x: RemapExtent)
      requires Valid() && root != null && x !in repr && x.len > 0
      requires root.End() <= x.block && forall y <- Refs(shape.right) :: x.End() <= y.block
      modifies `root, `shape, `repr, x`l, x`r, root`r
      ensures Valid() && repr == old(repr) + {x}
    {
      hide Search, Proper, InOrder, Before, Linked;
      ghost var a, b := shape.left, shape.right;
      AfterShape(shape, x);
      assert shape == Node(a, root, b);
      LinkAfter(x, a, b);
      root, shape, repr := x, Node(Node(a, root, Leaf), x, b), repr + {x};
    }

    /**
      Inserts an extent at the root. `ok` is false where the program reports an overlap and exits. It tests with
      `<` whether the extent ends before the root, so it also exits for an extent that ends where its successor
      begins, if the splay has brought that successor up.
     */
    method Insert(x: RemapExtent) returns (ok: bool)
      requires Valid() && x !in repr && x.len > 0 && Clear(x)
      modifies `root, `shape, `repr, x`l, x`r, repr`l, repr`r
      ensures Valid()
      ensures repr == if ok then old(repr) + {x} else old(repr)
      ensures !ok <==> old(shape).Node? && x.End() == DescentEnd(old(shape), x.block).block
      ensures SplitsAt(old(shape), x.block) && !HasSucc(old(shape), x.block) ==>
        (!ok <==> x.End() == old(shape).ext.block && old(shape).left.Leaf?)
    {
      if root == null {
        x.l, x.r := null, null;
        root, shape, repr := x, Node(Leaf, x, Leaf), {x};
        return true;
      }
      var top := Splay(x.block);
      InsertTouches(old(shape), shape, x);
      assert top == shape.ext && top in repr;
      hide InOrder, Linked, Proper, Search;
      if x.block + x.len < top.block {
        PutBefore(x);
        ok := true;
      } else if x.block >= top.block + top.len {
        PutAfter(x);
        ok := true;
      } else {
        ok := false;
      }
    }
  }
}
