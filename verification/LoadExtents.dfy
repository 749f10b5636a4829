/** Loading the list of extents to remap: overlaps are cut so that the first line naming a block wins. */
module LoadExtents {
  import opened ExtentTree

  /** A line of the input file. */
  datatype Line = Malformed | Unmapped | Mapped(block: nat, len: nat, offset: int, ino: nat)

  datatype Outcome = Loaded | ParseError(line: nat) | OverlapExit(line: nat)

  /** The place of a block: its inode and its logical offset there. */
  datatype Loc = Loc(ino: nat, offset: int)

  /** An extent of the tree together with the inode it is listed under. */
  datatype Piece = Piece(ext: RemapExtent, ino: nat)

  ghost function Range(lo: nat, hi: nat): (r: set<nat>)
    ensures forall b :: b in r <==> lo <= b < hi
    decreases hi - lo
  {
    if lo >= hi then {} else {lo} + Range(lo + 1, hi)
  }

  // ----- What the input means

  /** The blocks of a line from its start up to `upto`, with their places. */
  ghost function LinePart(line: Line, firstIno: nat, upto: nat): map<nat, Loc> {
    if line.Mapped? && line.ino >= firstIno then
      map b | b in Range(line.block, upto) :: Loc(line.ino, line.offset + (b - line.block))
    else map[]
  }

  ghost function LineBlocks(line: Line, firstIno: nat): map<nat, Loc> {
    LinePart(line, firstIno, if line.Mapped? then line.block + line.len else 0)
  }

  /** Every block named by a line, with the place given by the first line naming it. */
  ghost function Owners(lines: seq<Line>, firstIno: nat): map<nat, Loc> {
    if lines == [] then map[]
    else LineBlocks(lines[|lines| - 1], firstIno) + Owners(lines[..|lines| - 1], firstIno)
  }

  /** A line of a remappable inode that names at least one block. */
  ghost predicate Good(line: Line, firstIno: nat) {
    line.Mapped? && line.ino >= firstIno && line.len > 0
  }

  /** The program exits for an overlap: the line starts below every loaded block and reaches the lowest one. */
  ghost predicate Trips(owners: map<nat, Loc>, line: Line, firstIno: nat) {
    Good(line, firstIno) && ReachesLowest(owners, line.block, line.block + line.len)
  }

  ghost predicate ReachesLowest(owners: map<nat, Loc>, lo: nat, hi: nat) {
    && (forall b <- owners :: lo < b)
    && exists b <- owners :: b <= hi
  }

  /** How far loading gets. */
  ghost function LoadOutcome(lines: seq<Line>, firstIno: nat): Outcome {
    if lines == [] then Loaded
    else
      var k := |lines| - 1;
      var r := LoadOutcome(lines[..k], firstIno);
      if r != Loaded then r
      else if lines[k].Malformed? then ParseError(k)
      else if Trips(Owners(lines[..k], firstIno), lines[k], firstIno) then OverlapExit(k)
      else Loaded
  }

  // ----- What has been loaded

  ghost function PieceBlocks(p: Piece): map<nat, Loc> {
    map b | b in Range(p.ext.block, p.ext.End()) :: Loc(p.ino, p.ext.offset + (b - p.ext.block))
  }

  ghost function Blocks(log: seq<Piece>): map<nat, Loc> {
    if log == [] then map[] else Blocks(log[..|log| - 1]) + PieceBlocks(log[|log| - 1])
  }

  /** The lists of extents per inode. */
  ghost function InodeLists(log: seq<Piece>): map<nat, seq<RemapExtent>> {
    if log == [] then map[]
    else
      var m, p := InodeLists(log[..|log| - 1]), log[|log| - 1];
      m[p.ino := (if p.ino in m then m[p.ino] else []) + [p.ext]]
  }

  /** The extents take consecutive slices of the chunk offsets, in order of creation. */
  ghost predicate Tiling(log: seq<Piece>, total: nat) {
    if log == [] then total == 0
    else
      var x := log[|log| - 1].ext;
      x.chunkOffset + x.len == total && Tiling(log[..|log| - 1], x.chunkOffset)
  }

  ghost predicate Logged(log: seq<Piece>, repr: set<RemapExtent>) {
    && (forall p <- log :: p.ext in repr)
    && (forall x <- repr :: exists p <- log :: p.ext == x)
  }

  lemma {:induction false} BlocksHeld(log: seq<Piece>, b: nat)
    ensures b in Blocks(log) <==> exists p <- log :: p.ext.Holds(b)
  {
    if log != [] {
      var n := |log| - 1;
      BlocksHeld(log[..n], b);
      assert log == log[..n] + [log[n]];
    }
  }

  lemma ReprHeld(log: seq<Piece>, repr: set<RemapExtent>, b: nat)
    requires Logged(log, repr)
    ensures b in Blocks(log) <==> exists x <- repr :: x.Holds(b)
  {
    BlocksHeld(log, b);
  }

  /** Blocks that no extent of the tree reaches are not loaded. */
  lemma NotHeld(log: seq<Piece>, repr: set<RemapExtent>, lo: nat, hi: nat)
    requires Logged(log, repr) && forall y <- repr :: hi <= y.block || y.End() <= lo
    ensures forall c <- Blocks(log) :: !(lo <= c < hi)
  {
    forall c | c in Blocks(log) ensures !(lo <= c < hi) {
      ReprHeld(log, repr, c);
    }
  }

  lemma LoggedAdd(log: seq<Piece>, repr: set<RemapExtent>, p: Piece)
    requires Logged(log, repr) && p.ext !in repr
    ensures Logged(log + [p], repr + {p.ext})
  {
    forall x | x in repr + {p.ext} ensures exists q <- log + [p] :: q.ext == x {
      if x == p.ext {
        assert (log + [p])[|log|].ext == x;
      } else {
        var q :| q in log && q.ext == x;
        assert q in log + [p];
      }
    }
  }

  /** The blocks of `line` below `b` are accounted for on top of the blocks loaded `before`. */
  ghost predicate Upto(log: seq<Piece>, line: Line, firstIno: nat, b: nat, before: map<nat, Loc>) {
    Blocks(log) == LinePart(line, firstIno, b) + before
  }

  /** The piece is cut from the line. */
  ghost predicate CutFrom(line: Line, p: Piece) {
    && line.Mapped? && line.ino == p.ino
    && line.block <= p.ext.block && p.ext.End() <= line.block + line.len
    && p.ext.offset == line.offset + (p.ext.block - line.block)
  }

  /**
    Piece `i` is cut from the line of a remappable inode, and as long as it can be: it ends with the line or at a block
    that has been loaded before.
   */
  ghost predicate CutWell(line: Line, firstIno: nat, log: seq<Piece>, i: nat)
    requires i < |log|
  {
    && CutFrom(line, log[i]) && line.ino >= firstIno
    && (log[i].ext.End() == line.block + line.len || log[i].ext.End() in Blocks(log[..i]))
  }

  ghost predicate AllCut(lines: seq<Line>, firstIno: nat, log: seq<Piece>) {
    forall i | 0 <= i < |log| :: CutFromSome(lines, firstIno, log, i)
  }

  ghost predicate CutFromSome(lines: seq<Line>, firstIno: nat, log: seq<Piece>, i: nat)
    requires i < |log|
  {
    exists line <- lines :: CutWell(line, firstIno, log, i)
  }

  /** What a line adds to the list: pieces of it between `lo` and `hi`, in ascending order. */
  ghost predicate Adds(line: Line, firstIno: nat, log0: seq<Piece>, log: seq<Piece>, lo: nat, hi: nat) {
    && log0 <= log
    && (forall i | |log0| <= i < |log| ::
      CutWell(line, firstIno, log, i) && lo <= log[i].ext.block && log[i].ext.End() <= hi)
    && forall i, j | |log0| <= i < j < |log| :: log[i].ext.End() <= log[j].ext.block
  }

  lemma AddsNone(line: Line, firstIno: nat, log: seq<Piece>, lo: nat, hi: nat)
    ensures Adds(line, firstIno, log, log, lo, hi)
  {}

  lemma AddsOne(line: Line, firstIno: nat, log: seq<Piece>, p: Piece)
    requires line.Mapped? && p.ino == line.ino >= firstIno && line.block <= p.ext.block
    requires p.ext.offset == line.offset + (p.ext.block - line.block) && p.ext.End() <= line.block + line.len
    requires p.ext.End() == line.block + line.len || p.ext.End() in Blocks(log)
    ensures Adds(line, firstIno, log, log + [p], p.ext.block, p.ext.End())
  {
    assert (log + [p])[..|log|] == log;
  }

  lemma CutWellStays(line: Line, firstIno: nat, log: seq<Piece>, more: seq<Piece>, i: nat)
    requires i < |log| && log <= more
    ensures CutWell(line, firstIno, log, i) <==> CutWell(line, firstIno, more, i)
  {
    assert more[..i] == log[..i];
  }

  lemma AddsThen(line: Line, firstIno: nat, a: seq<Piece>, b: seq<Piece>, c: seq<Piece>, lo: nat, mid: nat, mid': nat,
                 hi: nat)
    requires Adds(line, firstIno, a, b, lo, mid) && Adds(line, firstIno, b, c, mid', hi) && lo <= mid <= mid' <= hi
    ensures Adds(line, firstIno, a, c, lo, hi)
  {
    hide CutWell;
    forall i | |a| <= i < |c| ensures CutWell(line, firstIno, c, i) && lo <= c[i].ext.block && c[i].ext.End() <= hi {
      if i < |b| {
        CutWellStays(line, firstIno, b, c, i);
      }
    }
  }

  lemma MoreCut(lines: seq<Line>, firstIno: nat, k: nat, log0: seq<Piece>, log: seq<Piece>, lo: nat, hi: nat)
    requires k < |lines| && AllCut(lines[..k], firstIno, log0) && Adds(lines[k], firstIno, log0, log, lo, hi)
    ensures AllCut(lines[..k + 1], firstIno, log)
  {
    hide CutWell;
    var more := lines[..k + 1];
    assert more[k] == lines[k] && more[k] in more;
    forall i | 0 <= i < |log| ensures CutFromSome(more, firstIno, log, i) {
      if i < |log0| {
        assert CutFromSome(lines[..k], firstIno, log0, i);
        var line :| line in lines[..k] && CutWell(line, firstIno, log0, i);
        CutWellStays(line, firstIno, log0, log, i);
        assert line in more;
      } else {
        assert CutWell(more[k], firstIno, log, i);
      }
    }
  }

  lemma CutLine(lines: seq<Line>, firstIno: nat, log: seq<Piece>, p: Piece)
    requires AllCut(lines, firstIno, log) && p in log
    ensures exists line <- lines :: CutFrom(line, p)
  {
    var i :| 0 <= i < |log| && log[i] == p;
    assert CutFromSome(lines, firstIno, log, i);
    var line :| line in lines && CutWell(line, firstIno, log, i);
  }

  // ----- The order of the list

  /** Line `k` is the first one that names the block. */
  ghost predicate FirstLine(lines: seq<Line>, firstIno: nat, b: nat, k: nat) {
    k < |lines| && Names(lines[k], firstIno, b) && forall j | 0 <= j < k :: !Names(lines[j], firstIno, b)
  }

  /** Block `b` is listed before block `c`: in an earlier line, or further to the front of the same line. */
  ghost predicate Earlier(lines: seq<Line>, firstIno: nat, b: nat, c: nat) {
    exists k: nat :: EarlierAt(lines, firstIno, b, c, k)
  }

  ghost predicate EarlierAt(lines: seq<Line>, firstIno: nat, b: nat, c: nat, k: nat) {
    && FirstLine(lines, firstIno, b, k)
    && (forall j | 0 <= j < k :: !Names(lines[j], firstIno, c))
    && (Names(lines[k], firstIno, c) ==> b < c)
  }

  /** The blocks of the pieces follow one another as they are listed. */
  ghost predicate InListOrder(lines: seq<Line>, firstIno: nat, log: seq<Piece>) {
    forall i, j, b: nat, c: nat | 0 <= i <= j < |log| && log[i].ext.Holds(b) && log[j].ext.Holds(c) && (i < j || b < c) ::
      Earlier(lines, firstIno, b, c)
  }

  lemma EarlierStays(lines: seq<Line>, firstIno: nat, k: nat, b: nat, c: nat)
    requires k < |lines| && Earlier(lines[..k], firstIno, b, c)
    ensures Earlier(lines[..k + 1], firstIno, b, c)
  {
    var n: nat :| EarlierAt(lines[..k], firstIno, b, c, n);
    assert forall j | 0 <= j <= n :: lines[..k + 1][j] == lines[..k][j];
    assert EarlierAt(lines[..k + 1], firstIno, b, c, n);
  }

  /** Of two listed blocks exactly one is listed before the other. */
  lemma EarlierOnce(lines: seq<Line>, firstIno: nat, b: nat, c: nat)
    requires Earlier(lines, firstIno, b, c)
    ensures !Earlier(lines, firstIno, c, b)
  {
    var k: nat :| EarlierAt(lines, firstIno, b, c, k);
    forall n: nat ensures !EarlierAt(lines, firstIno, c, b, n) {
      assert n < k ==> !Names(lines[n], firstIno, c);
    }
  }

  /** A block that the next line adds comes after all blocks loaded before. */
  lemma ComesNext(lines: seq<Line>, firstIno: nat, k: nat, b: nat, c: nat)
    requires k < |lines| && b in Owners(lines[..k], firstIno) && c !in Owners(lines[..k], firstIno)
    ensures Earlier(lines[..k + 1], firstIno, b, c)
  {
    hide Owners;
    var before := lines[..k];
    FirstLineWins(before, firstIno, b, Owners(before, firstIno)[b]);
    var n: nat :| FirstNames(before, firstIno, b, Owners(before, firstIno)[b], n);
    OwnedIff(before, firstIno, c);
    assert EarlierAt(before, firstIno, b, c, n);
    EarlierStays(lines, firstIno, k, b, c);
  }

  lemma ComeTogether(lines: seq<Line>, firstIno: nat, k: nat, b: nat, c: nat)
    requires k < |lines| && b !in Owners(lines[..k], firstIno) && c !in Owners(lines[..k], firstIno) && b < c
    requires Names(lines[k], firstIno, b)
    ensures Earlier(lines[..k + 1], firstIno, b, c)
  {
    hide Owners;
    OwnedIff(lines[..k], firstIno, b);
    OwnedIff(lines[..k], firstIno, c);
    assert forall j | 0 <= j < k :: lines[..k + 1][j] == lines[..k][j];
    assert EarlierAt(lines[..k + 1], firstIno, b, c, k);
  }

  /** What a line adds is not yet loaded. */
  lemma AddedNew(log0: seq<Piece>, log: seq<Piece>, j: nat, c: nat)
    requires log0 <= log && |log0| <= j < |log| && Disjoint(log) && log[j].ext.Holds(c)
    ensures c !in Blocks(log0)
  {
    BlocksHeld(log0, c);
    forall p | p in log0 ensures !p.ext.Holds(c) {
      var i :| 0 <= i < |log0| && log0[i] == p;
      assert log[i] == p;
    }
  }

  lemma HeldThere(log: seq<Piece>, i: nat, b: nat)
    requires i < |log| && log[i].ext.Holds(b)
    ensures b in Blocks(log)
  {
    BlocksHeld(log, b);
    assert log[i] in log;
  }

  lemma NextInOrder(lines: seq<Line>, firstIno: nat, k: nat, log0: seq<Piece>, log: seq<Piece>, lo: nat, hi: nat)
    requires k < |lines| && InListOrder(lines[..k], firstIno, log0) && Blocks(log0) == Owners(lines[..k], firstIno)
    requires Adds(lines[k], firstIno, log0, log, lo, hi) && Disjoint(log)
    ensures InListOrder(lines[..k + 1], firstIno, log)
  {
    hide Owners, Blocks, Earlier;
    forall i, j, b: nat, c: nat | 0 <= i <= j < |log| && log[i].ext.Holds(b) && log[j].ext.Holds(c) && (i < j || b < c)
      ensures Earlier(lines[..k + 1], firstIno, b, c)
    {
      if j < |log0| {
        assert log0[i] == log[i] && log0[j] == log[j];
        EarlierStays(lines, firstIno, k, b, c);
      } else {
        AddedNew(log0, log, j, c);
        if i < |log0| {
          HeldThere(log0, i, b);
          ComesNext(lines, firstIno, k, b, c);
        } else {
          AddedNew(log0, log, i, b);
          assert CutWell(lines[k], firstIno, log, i);
          ComeTogether(lines, firstIno, k, b, c);
        }
      }
    }
  }

  lemma UptoStart(log: seq<Piece>, line: Line, firstIno: nat)
    requires line.Mapped?
    ensures Upto(log, line, firstIno, line.block, Blocks(log))
  {
    assert LinePart(line, firstIno, line.block) == map[];
  }

  lemma UptoGrows(log: seq<Piece>, line: Line, firstIno: nat, b: nat, before: map<nat, Loc>, p: Piece)
    requires line.Mapped? && line.ino >= firstIno && line.block <= b && Upto(log, line, firstIno, b, before)
    requires p.ino == line.ino && p.ext.block == b && p.ext.offset == line.offset + (b - line.block)
    requires forall c <- Blocks(log) :: !p.ext.Holds(c)
    ensures Upto(log + [p], line, firstIno, b + p.ext.len, before)
  {
    var a, c := LinePart(line, firstIno, b), PieceBlocks(p);
    assert (log + [p])[..|log|] == log;
    assert LinePart(line, firstIno, b + p.ext.len) == a + c;
    assert before.Keys !! c.Keys by {
      assert forall k <- c :: p.ext.Holds(k);
    }
    MapSwap(a, before, c);
  }

  lemma MapSwap(a: map<nat, Loc>, b: map<nat, Loc>, c: map<nat, Loc>)
    requires b.Keys !! c.Keys
    ensures (a + b) + c == (a + c) + b
  {}

  lemma UptoSkips(log: seq<Piece>, line: Line, firstIno: nat, b: nat, b': nat, before: map<nat, Loc>)
    requires line.Mapped? && line.block <= b <= b' && Upto(log, line, firstIno, b, before)
    requires line.ino < firstIno || forall c | b <= c < b' :: c in Blocks(log)
    ensures Upto(log, line, firstIno, b', before)
  {}

  /** In a tree splayed at the start of a line, the program's exit can be read off the root. */
  lemma TripsAtRoot(t: Tree, log: seq<Piece>, lo: nat, hi: nat)
    requires Search(t) && Logged(log, Refs(t)) && SplitsAt(t, lo)
    ensures ReachesLowest(Blocks(log), lo, hi) <==> (lo < t.ext.block <= hi && t.left.Leaf?)
  {
    SearchLens(t);
    assert t.ext in Refs(t);
    ReprHeld(log, Refs(t), t.ext.block);
    assert t.ext.Holds(t.ext.block);
    if ReachesLowest(Blocks(log), lo, hi) {
      if t.left.Node? {
        var y := t.left.ext;
        assert y in Refs(t.left) && y in Refs(t) && y.Holds(y.block);
        ReprHeld(log, Refs(t), y.block);
      }
      var c :| c in Blocks(log) && c <= hi;
      ReprHeld(log, Refs(t), c);
      assert t.ext.block <= c;
    }
    if lo < t.ext.block <= hi && t.left.Leaf? {
      forall c | c in Blocks(log) ensures lo < c {
        ReprHeld(log, Refs(t), c);
      }
    }
  }

  /** The same for the rest of a line whose blocks below `b` are accounted for. */
  lemma TripsAt(t: Tree, log: seq<Piece>, line: Line, firstIno: nat, b: nat, before: map<nat, Loc>)
    requires Search(t) && Logged(log, Refs(t)) && SplitsAt(t, b)
    requires line.Mapped? && line.block <= b < line.block + line.len && Upto(log, line, firstIno, b, before)
    ensures (Trips(before, line, firstIno) && b == line.block)
      <==> (line.ino >= firstIno && b < t.ext.block <= line.block + line.len && t.left.Leaf?)
  {
    hide Search, Logged, SplitsAt, Blocks;
    TripsAtRoot(t, log, b, line.block + line.len);
    if line.ino >= firstIno {
      if b > line.block {
        assert line.block in LinePart(line, firstIno, b);
        assert line.block in Blocks(log);
      } else {
        assert LinePart(line, firstIno, b) == map[];
        assert Blocks(log) == before;
      }
    }
  }

  lemma Untripped(log: seq<Piece>, line: Line, firstIno: nat, b: nat, before: map<nat, Loc>, repr: set<RemapExtent>)
    requires Logged(log, repr) && repr == {} && Upto(log, line, firstIno, b, before)
    ensures !Trips(before, line, firstIno)
  {
    forall c ensures c !in before {
      ReprHeld(log, repr, c);
      assert c in before ==> c in Blocks(log);
    }
  }

  /** The state of the loader: the tree, the list of extents of each inode, and the number of blocks to remap. */
  class Loader {
    const tree: SplayTree
    const firstIno: nat
    var inodes: map<nat, seq<RemapExtent>>
    var remapBlocks: nat
    ghost var log: seq<Piece>

    ghost predicate Valid()
      reads `inodes, `remapBlocks, `log, tree`root, tree`shape, tree`repr, tree.repr`l, tree.repr`r
    {
      && tree.Valid()
      && Logged(log, tree.repr)
      && inodes == InodeLists(log)
      && Tiling(log, remapBlocks)
    }

    constructor (firstIno: nat)
      ensures Valid() && log == [] && this.firstIno == firstIno && fresh(tree) && tree.repr == {}
    {
      this.firstIno := firstIno;
      tree := new SplayTree();
      inodes, remapBlocks, log := map[], 0, [];
    }

    /** Lists an extent that has just been put into the tree. */
    method Record(x: RemapExtent, ino: nat)
      requires tree.Valid() && Logged(log + [Piece(x, ino)], tree.repr)
      requires inodes == InodeLists(log) && Tiling(log, remapBlocks) && x.chunkOffset == remapBlocks
      modifies `inodes, `remapBlocks, `log
      ensures Valid() && log == old(log) + [Piece(x, ino)]
    {
      inodes := inodes[ino := (if ino in inodes then inodes[ino] else []) + [x]];
      remapBlocks := remapBlocks + x.len;
      log := log + [Piece(x, ino)];
      assert log[..|log| - 1] == old(log);
    }

    /** Records a piece of a line. False where the program exits. */
    method InsertNewExtent(block: nat, len: nat, offset: int, ino: nat) returns (ok: bool)
      requires Valid() && len > 0
      requires forall y <- tree.repr :: block + len <= y.block || y.End() <= block
      modifies `inodes, `remapBlocks, `log, tree`root, tree`shape, tree`repr, tree.repr`l, tree.repr`r
      ensures Valid() && old(tree.repr) <= tree.repr && fresh(tree.repr - old(tree.repr))
      ensures ino < firstIno ==> ok && log == old(log) && tree.shape == old(tree.shape) && tree.repr == old(tree.repr)
      ensures ino >= firstIno && ok ==>
        |log| == old(|log|) + 1 && log[..old(|log|)] == old(log) && var p := log[old(|log|)];
        p.ino == ino && p.ext.block == block && p.ext.len == len && p.ext.offset == offset
      ensures !ok ==> log == old(log)
      ensures old(tree.shape).Leaf? ==> ok
      ensures ino >= firstIno && SplitsAt(old(tree.shape), block) && !HasSucc(old(tree.shape), block) ==>
        (!ok <==> block + len == old(tree.shape).ext.block && old(tree.shape).left.Leaf?)
    {
      if ino < firstIno {
        return true;
      }
      var x := new RemapExtent(block, len, offset, remapBlocks);
      ok := tree.Insert(x);
      if ok {
        LoggedAdd(log, old(tree.repr), Piece(x, ino));
        Record(x, ino);
      }
    }

    /** Records the piece of a line from `b` on, once the blocks before it are accounted for. */
    method AddPiece(line: Line, b: nat, len: nat, offset: int, ghost before: map<nat, Loc>) returns (ok: bool)
      requires Valid() && line.Mapped? && line.block <= b && len > 0 && b + len <= line.block + line.len
      requires offset == line.offset + (b - line.block)
      requires forall y <- tree.repr :: b + len <= y.block || y.End() <= b
      requires tree.shape.Node? ==> SplitsAt(tree.shape, b) && !HasSucc(tree.shape, b)
      requires Upto(log, line, firstIno, b, before)
      requires b + len == line.block + line.len || b + len in Blocks(log)
      modifies `inodes, `remapBlocks, `log, tree`root, tree`shape, tree`repr, tree.repr`l, tree.repr`r
      ensures Valid() && old(tree.repr) <= tree.repr && fresh(tree.repr - old(tree.repr))
      ensures ok ==> Upto(log, line, firstIno, b + len, before)
      ensures Adds(line, firstIno, old(log), log, b, b + len)
      ensures !ok <==> line.ino >= firstIno && old(tree.shape).Node? && b + len == old(tree.shape).ext.block && old(tree.shape).left.Leaf?
    {
      hide Blocks, LinePart, Upto, Logged, Search, Proper, Linked, InOrder, Tiling, InodeLists, Adds;
      AddsNone(line, firstIno, log, b, b + len);
      NotHeld(log, tree.repr, b, b + len);
      if line.ino < firstIno {
        UptoSkips(log, line, firstIno, b, b + len, before);
      }
      ok := InsertNewExtent(b, len, offset, line.ino);
      if ok && line.ino >= firstIno {
        ghost var p := log[old(|log|)];
        assert log == old(log) + [p];
        UptoGrows(old(log), line, firstIno, b, before, p);
        AddsOne(line, firstIno, old(log), p);
      }
    }

    lemma Held(x: RemapExtent, lo: nat, hi: nat)
      requires Valid() && x in tree.repr && x.block <= lo && hi <= x.End()
      ensures forall c | lo <= c < hi :: c in Blocks(log)
    {
      forall c | lo <= c < hi ensures c in Blocks(log) {
        assert x.Holds(c);
        ReprHeld(log, tree.repr, c);
      }
    }

    /** Splays at `b` and says what the extent that comes up means for the rest of the line. */
    method SplayFor(line: Line, b: nat, ghost before: map<nat, Loc>) returns (ext: RemapExtent?)
      requires Valid() && line.Mapped? && line.block <= b < line.block + line.len && Upto(log, line, firstIno, b, before)
      modifies tree`root, tree`shape, tree.repr`l, tree.repr`r
      ensures Valid() && tree.repr == old(tree.repr)
      ensures ext == null ==> tree.shape.Leaf? && tree.repr == {} && !Trips(before, line, firstIno)
      ensures ext != null ==> ext.len > 0 && ext in tree.repr && tree.shape.Node? && ext == tree.shape.ext && SplitsAt(tree.shape, b)
      ensures ext != null ==> (ext.r == null <==> tree.shape.right.Leaf?)
      ensures ext != null && b < ext.block ==> forall y <- tree.repr :: ext.block <= y.block || y.End() <= b
      ensures ext != null && ext.End() <= b && ext.r == null ==> forall y <- tree.repr :: y.End() <= b
      ensures ext != null ==> ((Trips(before, line, firstIno) && b == line.block)
        <==> (line.ino >= firstIno && b < ext.block <= line.block + line.len && tree.shape.left.Leaf?))
      ensures ext != null && (b < ext.block || ext.r == null) ==> !HasSucc(tree.shape, b)
      ensures ext != null && ext.End() <= b && ext.r != null ==> HasSucc(tree.shape, b)
      ensures HasSucc(old(tree.shape), b) ==> ext != null && b < ext.block
    {
      ext := tree.Splay(b);
      if ext == null {
        Untripped(log, line, firstIno, b, before, tree.repr);
      } else {
        TripsAt(tree.shape, log, line, firstIno, b, before);
      }
    }

    /**
      One pass of the loop over a line, with `b` and `len` the blocks still to be placed. `again` tells that the pass
      before fell through only to splay once more.
     */
    method LinePass(line: Line, b: nat, len: nat, offset: int, ghost before: map<nat, Loc>, ghost again: bool)
      returns (done: bool, ok: bool, b': nat, len': nat, offset': int, ghost again': bool)
      requires len > 0 && Placing(line, b, len, offset, before, again)
      modifies `inodes, `remapBlocks, `log, tree`root, tree`shape, tree`repr, tree.repr`l, tree.repr`r
      ensures Valid() && fresh(tree.repr - old(tree.repr))
      ensures ok <==> !Trips(before, line, firstIno)
      ensures if done then ok ==> Placed(line, before) else ok && Placing(line, b', len', offset', before, again')
      ensures !done ==> len' < len || (len' == len && again' && !again)
      ensures !done ==> b <= b' && b' + len' == line.block + line.len
      ensures Adds(line, firstIno, old(log), log, b, if done then line.block + line.len else b')
    {
      hide Blocks, Upto, Trips, SplitsAt, HasSucc, Loader.Valid, CutWell;
      done, ok, b', len', offset', again' := true, true, b, len, offset, false;
      var ext := SplayFor(line, b, before);
      if ext == null {
        ok := AddPiece(line, b, len, offset, before);
        return;
      }
      if b < ext.block {
        if b + len < ext.block {
          ok := AddPiece(line, b, len, offset, before);
          return;
        }
        Held(ext, ext.block, ext.block + 1);
        ok := AddPiece(line, b, ext.block - b, offset, before);
        if !ok {
          return;
        }
        offset' := offset + (ext.block - b);
        len' := len - (ext.block - b);
        b' := ext.block;
      }
      if ext.block <= b' && ext.block + ext.len > b' {
        if ext.block + ext.len >= b' + len' {
          Held(ext, b', b' + len');
          UptoSkips(log, line, firstIno, b', b' + len', before);
          return;
        }
        Held(ext, b', ext.block + ext.len);
        UptoSkips(log, line, firstIno, b', ext.block + ext.len, before);
        len' := len' - (ext.block + ext.len - b');
        offset' := offset' + (ext.block + ext.len - b');
        b' := ext.block + ext.len;
      } else {
        if ext.r == null {
          ok := AddPiece(line, b, len, offset, before);
          return;
        }
        again' := true;
      }
      done := false;
    }

    /** Loading of a line has reached block `b`. */
    ghost predicate Placing(line: Line, b: nat, len: nat, offset: int, before: map<nat, Loc>, again: bool)
      reads `inodes, `remapBlocks, `log, tree`root, tree`shape, tree`repr, tree.repr`l, tree.repr`r
    {
      && Valid() && line.Mapped?
      && line.block <= b && b + len == line.block + line.len && offset == line.offset + (b - line.block)
      && Upto(log, line, firstIno, b, before)
      && (again ==> HasSucc(tree.shape, b))
      && (Trips(before, line, firstIno) ==> b == line.block && len > 0 && !again)
    }

    ghost predicate Placed(line: Line, before: map<nat, Loc>)
      reads `log
    {
      line.Mapped? && Upto(log, line, firstIno, line.block + line.len, before)
    }

    lemma LineBegins(line: Line)
      requires Valid() && line.Mapped?
      ensures Placing(line, line.block, line.len, line.offset, Blocks(log), false)
      ensures Adds(line, firstIno, log, log, line.block, line.block)
    {
      hide Loader.Valid;
      UptoStart(log, line, firstIno);
      AddsNone(line, firstIno, log, line.block, line.block);
    }

    lemma LineEnd(line: Line, b: nat, offset: int, before: map<nat, Loc>, again: bool)
      requires Placing(line, b, 0, offset, before, again)
      ensures Placed(line, before) && !Trips(before, line, firstIno)
    {}

    /** Cuts one line into the pieces that no loaded extent covers and records them. False where the program exits. */
    method LoadLine(line: Line) returns (ok: bool)
      requires Valid() && line.Mapped?
      modifies `inodes, `remapBlocks, `log, tree`root, tree`shape, tree`repr, tree.repr`l, tree.repr`r
      ensures Valid() && fresh(tree.repr - old(tree.repr))
      ensures ok <==> !Trips(Blocks(old(log)), line, firstIno)
      ensures ok ==> Placed(line, Blocks(old(log)))
      ensures Adds(line, firstIno, old(log), log, line.block, line.block + line.len)
    {
      hide *;
      var b: nat, len: nat, offset := line.block, line.len, line.offset;
      ghost var log0, before := log, Blocks(log);
      ghost var again := false;
      ok := true;
      LineBegins(line);
      var done := false;
      while len > 0 && !done
        invariant Valid() && fresh(tree.repr - old(tree.repr))
        invariant done ==> (ok <==> !Trips(before, line, firstIno)) && (ok ==> Placed(line, before))
        invariant !done ==> ok && Placing(line, b, len, offset, before, again)
        invariant !done ==> line.block <= b && b + len == line.block + line.len
        invariant Adds(line, firstIno, log0, log, line.block, if done then line.block + line.len else b)
        decreases !done, len, !again
      {
        ghost var log1, b1 := log, b;
        done, ok, b, len, offset, again := LinePass(line, b, len, offset, before, again);
        AddsThen(line, firstIno, log0, log1, log, line.block, b1, b1, if done then line.block + line.len else b);
      }
      if !done {
        LineEnd(line, b, offset, before, again);
      }
    }

    /** The list of extents is that of the first `k` lines, in their order. */
    ghost predicate ListedUpto(lines: seq<Line>, k: nat)
      requires k <= |lines|
      reads `log
    {
      && Blocks(log) == Owners(lines[..k], firstIno) && AllCut(lines[..k], firstIno, log)
      && InListOrder(lines[..k], firstIno, log)
    }

    /** Reads line `k`. */
    method LoadNext(lines: seq<Line>, k: nat) returns (r: Outcome)
      requires Valid() && k < |lines|
      requires LoadOutcome(lines[..k], firstIno) == Loaded && ListedUpto(lines, k)
      modifies `inodes, `remapBlocks, `log, tree`root, tree`shape, tree`repr, tree.repr`l, tree.repr`r
      ensures Valid() && fresh(tree.repr - old(tree.repr))
      ensures r == LoadOutcome(lines[..k + 1], firstIno)
      ensures r.Loaded? ==> ListedUpto(lines, k + 1)
    {
      hide Blocks, Owners, LoadOutcome, LineBlocks, Trips, Upto, AllCut, Adds, InListOrder, Search, Disjoint, Tiling,
        InodeLists, Logged, Proper, Linked, InOrder;
      LinesStep(lines, firstIno, k);
      if lines[k].Malformed? {
        return ParseError(k);
      }
      r := Loaded;
      ghost var before := log;
      if lines[k].Mapped? {
        var ok := LoadLine(lines[k]);
        if !ok {
          return OverlapExit(k);
        }
        LineDone(lines, firstIno, k, log);
      }
      ghost var lo := if lines[k].Mapped? then lines[k].block else 0;
      ghost var hi := if lines[k].Mapped? then lines[k].block + lines[k].len else 0;
      AddsNone(lines[k], firstIno, before, lo, hi);
      MoreCut(lines, firstIno, k, before, log, lo, hi);
      LoggedDisjoint(tree.shape, log, remapBlocks);
      NextInOrder(lines, firstIno, k, before, log, lo, hi);
    }

    /** Loads the whole input. */
    method Load(lines: seq<Line>) returns (r: Outcome)
      requires Valid() && log == []
      modifies `inodes, `remapBlocks, `log, tree`root, tree`shape, tree`repr, tree.repr`l, tree.repr`r
      ensures r == LoadOutcome(lines, firstIno)
      ensures Valid() && fresh(tree.repr - old(tree.repr))
      ensures r.Loaded? ==>
        Blocks(log) == Owners(lines, firstIno) && AllCut(lines, firstIno, log) && InListOrder(lines, firstIno, log)
      ensures r.Loaded? ==> Disjoint(log) && (forall p <- log :: p.ext.len > 0) && |Blocks(log)| == remapBlocks
    {
      hide Blocks, Owners, LoadOutcome, AllCut, InListOrder;
      r := Loaded;
      var k := 0;
      NothingLoaded(log, lines, firstIno);
      assert lines[..0] == [] && lines[..|lines|] == lines;
      while k < |lines| && r.Loaded?
        invariant k <= |lines|
        invariant Valid() && fresh(tree.repr - old(tree.repr))
        invariant r == LoadOutcome(lines[..k], firstIno)
        invariant r.Loaded? ==> ListedUpto(lines, k)
      {
        r := LoadNext(lines, k);
        k := k + 1;
      }
      if !r.Loaded? {
        OutcomeStays(lines, firstIno, k);
      }
      LoggedDisjoint(tree.shape, log, remapBlocks);
      ChunkCount(log, remapBlocks);
    }
  }

  lemma NothingLoaded(log: seq<Piece>, lines: seq<Line>, firstIno: nat)
    requires log == []
    ensures LoadOutcome(lines[..0], firstIno) == Loaded && Blocks(log) == Owners(lines[..0], firstIno)
    ensures AllCut(lines[..0], firstIno, log) && InListOrder(lines[..0], firstIno, log)
  {
    assert lines[..0] == [];
  }

  /** What one more line adds. */
  lemma LinesStep(lines: seq<Line>, firstIno: nat, k: nat)
    requires k < |lines| && LoadOutcome(lines[..k], firstIno) == Loaded
    ensures LoadOutcome(lines[..k + 1], firstIno) ==
      if lines[k].Malformed? then ParseError(k)
      else if Trips(Owners(lines[..k], firstIno), lines[k], firstIno) then OverlapExit(k)
      else Loaded
    ensures lines[k].Unmapped? ==> LoadOutcome(lines[..k + 1], firstIno) == Loaded
    ensures !lines[k].Mapped? ==> Owners(lines[..k + 1], firstIno) == Owners(lines[..k], firstIno)
  {
    assert lines[..k + 1][..k] == lines[..k];
  }

  lemma LineDone(lines: seq<Line>, firstIno: nat, k: nat, log: seq<Piece>)
    requires k < |lines| && lines[k].Mapped?
    requires Upto(log, lines[k], firstIno, lines[k].block + lines[k].len, Owners(lines[..k], firstIno))
    ensures Blocks(log) == Owners(lines[..k + 1], firstIno)
  {
    assert lines[..k + 1][..k] == lines[..k];
  }

  // ----- What loading promises

  lemma {:induction false} OutcomeStays(lines: seq<Line>, firstIno: nat, k: nat)
    requires k <= |lines| && LoadOutcome(lines[..k], firstIno) != Loaded
    ensures LoadOutcome(lines, firstIno) == LoadOutcome(lines[..k], firstIno)
  {
    if k < |lines| {
      var n := |lines| - 1;
      assert lines[..n][..k] == lines[..k];
      OutcomeStays(lines[..n], firstIno, k);
    } else {
      assert lines[..k] == lines;
    }
  }

  ghost predicate Names(line: Line, firstIno: nat, b: nat) {
    line.Mapped? && line.ino >= firstIno && line.block <= b < line.block + line.len
  }

  ghost predicate FirstNames(lines: seq<Line>, firstIno: nat, b: nat, loc: Loc, k: nat) {
    && k < |lines| && Names(lines[k], firstIno, b)
    && loc == Loc(lines[k].ino, lines[k].offset + (b - lines[k].block))
    && forall j | 0 <= j < k :: !Names(lines[j], firstIno, b)
  }

  /** A block gets the inode and offset of the first line that names it, and every named block gets one. */
  lemma {:induction false} FirstLineWins(lines: seq<Line>, firstIno: nat, b: nat, loc: Loc)
    ensures (b in Owners(lines, firstIno) && Owners(lines, firstIno)[b] == loc) <==>
      exists k: nat :: FirstNames(lines, firstIno, b, loc, k)
  {
    if lines != [] {
      var n := |lines| - 1;
      var prior := lines[..n];
      FirstLineWins(prior, firstIno, b, loc);
      OwnedIff(prior, firstIno, b);
      forall k: nat | k < n ensures FirstNames(lines, firstIno, b, loc, k) <==> FirstNames(prior, firstIno, b, loc, k) {
      }
      assert LineBlocks(lines[n], firstIno).Keys == set c | c in LineBlocks(lines[n], firstIno) && Names(lines[n], firstIno, c);
      if b in Owners(prior, firstIno) {
        var j :| 0 <= j < n && Names(prior[j], firstIno, b);
        assert Names(lines[j], firstIno, b);
      } else {
        assert forall j | 0 <= j < n :: !Names(prior[j], firstIno, b);
        assert FirstNames(lines, firstIno, b, loc, n) <==> b in LineBlocks(lines[n], firstIno) && LineBlocks(lines[n], firstIno)[b] == loc;
      }
    }
  }

  /** Where the program exits for an overlap, said of the lines alone. */
  ghost predicate TripsLines(lines: seq<Line>, firstIno: nat, k: nat)
    requires k < |lines|
  {
    && Good(lines[k], firstIno)
    && (forall j | 0 <= j < k && Good(lines[j], firstIno) :: lines[k].block < lines[j].block)
    && exists j :: 0 <= j < k && Good(lines[j], firstIno) && lines[j].block <= lines[k].block + lines[k].len
  }

  lemma {:induction false} OwnedIff(lines: seq<Line>, firstIno: nat, b: nat)
    ensures b in Owners(lines, firstIno) <==> exists j :: 0 <= j < |lines| && Names(lines[j], firstIno, b)
  {
    if lines != [] {
      var n := |lines| - 1;
      OwnedIff(lines[..n], firstIno, b);
      assert b in LineBlocks(lines[n], firstIno) <==> Names(lines[n], firstIno, b);
      assert forall j | 0 <= j < n :: lines[..n][j] == lines[j];
    }
  }

  lemma TripsIffLines(lines: seq<Line>, firstIno: nat, k: nat)
    requires k < |lines|
    ensures Trips(Owners(lines[..k], firstIno), lines[k], firstIno) <==> TripsLines(lines, firstIno, k)
  {
    var owners := Owners(lines[..k], firstIno);
    hide Owners;
    forall j | 0 <= j < k && Good(lines[j], firstIno) ensures lines[j].block in owners {
      assert Names(lines[..k][j], firstIno, lines[j].block);
      OwnedIff(lines[..k], firstIno, lines[j].block);
    }
    forall b | b in owners ensures exists j :: 0 <= j < k && Good(lines[j], firstIno) && lines[j].block <= b {
      OwnedIff(lines[..k], firstIno, b);
      var j :| 0 <= j < k && Names(lines[..k][j], firstIno, b);
      assert Good(lines[j], firstIno) && lines[j].block <= b;
    }
  }

  /**
    Loading succeeds exactly when every line parses and none starts below all earlier ones and reaches the lowest.
    Otherwise it ends at the first line that does not parse or does this, with the error for what is wrong there.
   */
  lemma {:induction false} LoadsIff(lines: seq<Line>, firstIno: nat)
    ensures LoadOutcome(lines, firstIno).Loaded? <==>
      forall k | 0 <= k < |lines| :: !lines[k].Malformed? && !TripsLines(lines, firstIno, k)
    ensures !LoadOutcome(lines, firstIno).Loaded? ==>
      var r := LoadOutcome(lines, firstIno);
      && r.line < |lines| && (if r.ParseError? then lines[r.line].Malformed? else TripsLines(lines, firstIno, r.line))
      && forall k | 0 <= k < r.line :: !lines[k].Malformed? && !TripsLines(lines, firstIno, k)
  {
    hide Trips, TripsLines, Owners;
    if lines != [] {
      var n := |lines| - 1;
      var prior := lines[..n];
      LoadsIff(prior, firstIno);
      TripsIffLines(lines, firstIno, n);
      forall k | 0 <= k < n
        ensures prior[k] == lines[k] && (TripsLines(prior, firstIno, k) <==> TripsLines(lines, firstIno, k))
      {
        TripsPrefix(lines, firstIno, n, k);
      }
    }
  }

  lemma TripsPrefix(lines: seq<Line>, firstIno: nat, n: nat, k: nat)
    requires k < n <= |lines|
    ensures TripsLines(lines[..n], firstIno, k) <==> TripsLines(lines, firstIno, k)
  {
    assert forall j | 0 <= j <= k :: lines[..n][j] == lines[j];
  }

  // ----- Chunk offsets

  /** Every chunk offset below the total lies in exactly one extent. */
  lemma {:induction false} ChunkUnique(log: seq<Piece>, total: nat, o: nat)
    requires Tiling(log, total)
    ensures forall p <- log :: p.ext.chunkOffset + p.ext.len <= total
    ensures o < total ==> exists k :: 0 <= k < |log| && InChunk(log[k].ext, o)
    ensures forall j, k | 0 <= j < k < |log| :: !(InChunk(log[j].ext, o) && InChunk(log[k].ext, o))
  {
    if log != [] {
      var n := |log| - 1;
      ChunkUnique(log[..n], log[n].ext.chunkOffset, o);
      if o < total && o < log[n].ext.chunkOffset {
        var k :| 0 <= k < n && InChunk(log[..n][k].ext, o);
        assert InChunk(log[k].ext, o);
      } else if o < total {
        assert InChunk(log[n].ext, o);
      }
      forall j, k | 0 <= j < k < |log| ensures !(InChunk(log[j].ext, o) && InChunk(log[k].ext, o)) {
        assert log[j] == log[..n][j];
        if k < n {
          assert log[k] == log[..n][k];
        }
      }
    }
  }

  ghost predicate InChunk(x: RemapExtent, o: nat) {
    x.chunkOffset <= o < x.chunkOffset + x.len
  }

  lemma {:induction false} RangeSize(lo: nat, hi: nat)
    requires lo <= hi
    ensures |Range(lo, hi)| == hi - lo
    decreases hi - lo
  {
    if lo < hi {
      RangeSize(lo + 1, hi);
      assert Range(lo, hi) == {lo} + Range(lo + 1, hi);
    }
  }

  ghost predicate Disjoint(log: seq<Piece>) {
    forall j, k | 0 <= j < k < |log| :: log[j].ext.End() <= log[k].ext.block || log[k].ext.End() <= log[j].ext.block
  }

  /** There are as many chunk offsets as loaded blocks. */
  lemma {:induction false} ChunkCount(log: seq<Piece>, total: nat)
    requires Tiling(log, total) && Disjoint(log)
    ensures |Blocks(log)| == total
  {
    if log != [] {
      var n := |log| - 1;
      var x := log[n].ext;
      ChunkCount(log[..n], x.chunkOffset);
      RangeSize(x.block, x.End());
      assert PieceBlocks(log[n]).Keys == Range(x.block, x.End());
      forall b | b in Blocks(log[..n]) ensures b !in PieceBlocks(log[n]) {
        BlocksHeld(log[..n], b);
      }
      assert Blocks(log).Keys == Blocks(log[..n]).Keys + PieceBlocks(log[n]).Keys;
      assert |Blocks(log).Keys| == |Blocks(log[..n]).Keys| + |PieceBlocks(log[n]).Keys|;
    }
  }

  /** The listed extents are not empty and pairwise disjoint. */
  lemma LoggedDisjoint(t: Tree, log: seq<Piece>, total: nat)
    requires Search(t) && Logged(log, Refs(t)) && Tiling(log, total)
    ensures Disjoint(log) && forall p <- log :: p.ext.len > 0
  {
    SearchLens(t);
    forall j, k | 0 <= j < k < |log|
      ensures log[j].ext.End() <= log[k].ext.block || log[k].ext.End() <= log[j].ext.block
    {
      assert log[j] in log && log[k] in log;
      ChunkUnique(log, total, log[j].ext.chunkOffset);
      assert InChunk(log[j].ext, log[j].ext.chunkOffset);
      SearchDisjoint(t, log[j].ext, log[k].ext);
    }
  }

  lemma {:induction false} ChunksAscend(log: seq<Piece>, total: nat, i: nat, j: nat)
    requires Tiling(log, total) && i < j < |log|
    ensures log[i].ext.chunkOffset + log[i].ext.len <= log[j].ext.chunkOffset
  {
    var n := |log| - 1;
    if j < n {
      ChunksAscend(log[..n], log[n].ext.chunkOffset, i, j);
    } else {
      ChunkUnique(log[..n], log[n].ext.chunkOffset, 0);
      assert log[i] == log[..n][i];
    }
  }

  /** The block has the chunk offset. */
  ghost predicate HasChunk(log: seq<Piece>, b: nat, o: nat) {
    exists p <- log :: p.ext.Holds(b) && o == p.ext.chunkOffset + (b - p.ext.block)
  }

  /** Blocks get ascending chunk offsets in the order in which the list names them. */
  lemma ChunksInListOrder(lines: seq<Line>, firstIno: nat, log: seq<Piece>, total: nat, b: nat, c: nat, o: nat, u: nat)
    requires InListOrder(lines, firstIno, log) && Tiling(log, total) && HasChunk(log, b, o) && HasChunk(log, c, u)
    ensures Earlier(lines, firstIno, b, c) <==> o < u
  {
    hide Earlier, Tiling;
    var p :| p in log && p.ext.Holds(b) && o == p.ext.chunkOffset + (b - p.ext.block);
    var q :| q in log && q.ext.Holds(c) && u == q.ext.chunkOffset + (c - q.ext.block);
    var i :| 0 <= i < |log| && log[i] == p;
    var j :| 0 <= j < |log| && log[j] == q;
    if i < j || (i == j && b < c) {
      assert log[i].ext.Holds(b) && log[j].ext.Holds(c);
      assert Earlier(lines, firstIno, b, c);
    }
    if j < i || (i == j && c < b) {
      assert log[j].ext.Holds(c) && log[i].ext.Holds(b);
      assert Earlier(lines, firstIno, c, b);
      EarlierOnce(lines, firstIno, c, b);
    }
    if i < j {
      ChunksAscend(log, total, i, j);
    } else if j < i {
      ChunksAscend(log, total, j, i);
    } else if b == c {
      NotBeforeItself(lines, firstIno, b);
    }
  }

  lemma NotBeforeItself(lines: seq<Line>, firstIno: nat, b: nat)
    ensures !Earlier(lines, firstIno, b, b)
  {
    forall k: nat ensures !EarlierAt(lines, firstIno, b, b, k) {
    }
  }
}
