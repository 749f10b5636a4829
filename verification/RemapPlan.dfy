/** From the loaded extents to the sorted list of extents per inode that the remapping works on. */
module RemapPlan {
  import opened BlockTree
  import opened RemapBlocks
  import opened LoadExtents
  import opened ExtentTree
  import opened Remap
  import opened Sorting

  // ----- The sorted lists

  /** An extent of the tree as a value. */
  function Value(x: RemapExtent): Extent {
    Extent(x.block, x.len, x.offset, x.chunkOffset)
  }

  function Values(xs: seq<RemapExtent>): (r: seq<Extent>)
    ensures |r| == |xs| && forall i | 0 <= i < |xs| :: r[i] == Value(xs[i])
  {
    if xs == [] then [] else Values(xs[..|xs| - 1]) + [Value(xs[|xs| - 1])]
  }

  /** The extents of an inode in the order of the walk. */
  function SortExtents(xs: seq<Extent>): seq<Extent> {
    Sort(xs, (x: Extent) => Key(x.offset))
  }

  function SortLists(lists: map<nat, seq<RemapExtent>>, inos: seq<nat>): seq<Listing> {
    if inos == [] then []
    else
      var ino := inos[|inos| - 1];
      SortLists(lists, inos[..|inos| - 1]) + [Listing(ino, SortExtents(Values(ListOf(lists, ino))))]
  }

  function ListOf(lists: map<nat, seq<RemapExtent>>, ino: nat): seq<RemapExtent> {
    if ino in lists then lists[ino] else []
  }

  ghost predicate Distinct(inos: seq<nat>) {
    forall i, j | 0 <= i < j < |inos| :: inos[i] != inos[j]
  }

  lemma {:induction false} SortListsAt(lists: map<nat, seq<RemapExtent>>, inos: seq<nat>)
    ensures |SortLists(lists, inos)| == |inos|
    ensures forall k | 0 <= k < |inos| :: SortLists(lists, inos)[k] == Listing(inos[k], SortExtents(Values(ListOf(lists, inos[k]))))
  {
    if inos != [] {
      SortListsAt(lists, inos[..|inos| - 1]);
    }
  }

  lemma SortedExtents(xs: seq<Extent>)
    ensures multiset(SortExtents(xs)) == multiset(xs)
    ensures forall x :: x in SortExtents(xs) <==> x in xs
    ensures forall i, j | 0 <= i < j < |SortExtents(xs)| :: Key(SortExtents(xs)[i].offset) <= Key(SortExtents(xs)[j].offset)
  {
    SortIsSorted(xs, (x: Extent) => Key(x.offset));
    Permuted(xs, SortExtents(xs));
  }

  // ----- What the log says about the lists

  /** The extents of the log that belong to an inode. */
  ghost function OwnPieces(log: seq<Piece>, ino: nat): seq<RemapExtent> {
    if log == [] then []
    else OwnPieces(log[..|log| - 1], ino) + if log[|log| - 1].ino == ino then [log[|log| - 1].ext] else []
  }

  lemma {:induction false} ListsAre(log: seq<Piece>, ino: nat)
    ensures ListOf(InodeLists(log), ino) == OwnPieces(log, ino)
    ensures ino in InodeLists(log) <==> OwnPieces(log, ino) != []
  {
    if log != [] {
      ListsAre(log[..|log| - 1], ino);
    }
  }

  lemma {:induction false} OwnMembers(log: seq<Piece>, ino: nat, x: RemapExtent)
    ensures x in OwnPieces(log, ino) <==> Piece(x, ino) in log
  {
    if log != [] {
      var n := |log| - 1;
      OwnMembers(log[..n], ino, x);
      assert log == log[..n] + [log[n]];
    }
  }

  ghost predicate ApartChunks(x: Extent, y: Extent) {
    x.chunkOffset + x.len <= y.chunkOffset || y.chunkOffset + y.len <= x.chunkOffset
  }

  lemma {:induction false} OwnApart(log: seq<Piece>, total: nat, ino: nat)
    requires Tiling(log, total)
    ensures forall x <- OwnPieces(log, ino) :: x.chunkOffset + x.len <= total
    ensures forall i, j | 0 <= i < j < |OwnPieces(log, ino)| :: ApartChunks(Value(OwnPieces(log, ino)[i]), Value(OwnPieces(log, ino)[j]))
  {
    if log != [] {
      var n := |log| - 1;
      OwnApart(log[..n], log[n].ext.chunkOffset, ino);
      var o := OwnPieces(log[..n], ino);
      assert forall i | 0 <= i < |o| :: o[i] in o;
    }
  }

  lemma TwiceMember(r: seq<Extent>, s: seq<Extent>, i: nat, j: nat)
    requires multiset(s) == multiset(r) && i < j < |s| && s[i] == s[j]
    ensures exists a, b :: 0 <= a < b < |r| && r[a] == s[i] && r[b] == s[i]
  {
    var v := s[i];
    assert s == s[..i] + [v] + s[i + 1..j] + [v] + s[j + 1..];
    assert multiset(s)[v] >= 2;
    TwoPlaces(r, v);
  }

  lemma {:induction false} TwoPlaces(r: seq<Extent>, v: Extent)
    requires multiset(r)[v] >= 2
    ensures exists a, b :: 0 <= a < b < |r| && r[a] == v && r[b] == v
  {
    var n := |r| - 1;
    assert r == r[..n] + [r[n]];
    if r[n] == v {
      assert v in multiset(r[..n]);
      var a :| 0 <= a < n && r[..n][a] == v;
      assert r[a] == v && r[n] == v;
    } else {
      TwoPlaces(r[..n], v);
      var a, b :| 0 <= a < b < n && r[..n][a] == v && r[..n][b] == v;
      assert r[a] == v && r[b] == v;
    }
  }

  /** A permutation of extents apart from each other. */
  lemma ApartPermuted(r: seq<Extent>, s: seq<Extent>, total: nat)
    requires multiset(s) == multiset(r) && forall x <- r :: x.len > 0 && x.chunkOffset + x.len <= total
    requires forall i, j | 0 <= i < j < |r| :: ApartChunks(r[i], r[j])
    ensures ChunksApart(s, total)
  {
    forall x | x in s ensures x in r {
      assert x in multiset(s);
    }
    forall i, j | 0 <= i < j < |s| ensures ApartChunks(s[i], s[j]) {
      if s[i] == s[j] {
        TwiceMember(r, s, i, j);
      } else {
        var a :| 0 <= a < |r| && r[a] == s[i];
        var b :| 0 <= b < |r| && r[b] == s[j];
        assert a < b || b < a;
      }
    }
    assert forall i, j | 0 <= i < j < |s| :: ApartChunks(s[i], s[j]);
  }

  ghost predicate GoodLog(log: seq<Piece>, total: nat) {
    Tiling(log, total) && Disjoint(log) && forall p <- log :: p.ext.len > 0
  }

  lemma ListingApart(log: seq<Piece>, total: nat, ino: nat)
    requires GoodLog(log, total)
    ensures var exts := SortExtents(Values(ListOf(InodeLists(log), ino)));
      && ChunksApart(exts, total)
      && (exts != [] <==> ino in InodeLists(log))
      && forall y: Extent :: y in exts <==> InLog(log, ino, y)
  {
    hide Key, SortExtents, Tiling, Disjoint, ChunksApart, InodeLists;
    var own := OwnPieces(log, ino);
    ListsAre(log, ino);
    OwnApart(log, total, ino);
    SortedExtents(Values(own));
    forall x | x in own ensures x.len > 0 && Piece(x, ino) in log {
      OwnMembers(log, ino, x);
    }
    forall y | y in Values(own) ensures y.len > 0 && y.chunkOffset + y.len <= total {
      var i :| 0 <= i < |own| && Values(own)[i] == y;
      assert own[i] in own;
    }
    ApartPermuted(Values(own), SortExtents(Values(own)), total);
    forall y: Extent ensures y in Values(own) <==> InLog(log, ino, y) {
      ValuesInLog(log, ino, y);
    }
    Permuted(Values(own), SortExtents(Values(own)));
  }

  ghost predicate InLog(log: seq<Piece>, ino: nat, y: Extent) {
    exists p <- log :: p.ino == ino && Value(p.ext) == y
  }

  lemma ValuesInLog(log: seq<Piece>, ino: nat, y: Extent)
    ensures y in Values(OwnPieces(log, ino)) <==> InLog(log, ino, y)
  {
    var own := OwnPieces(log, ino);
    if y in Values(own) {
      var i :| 0 <= i < |own| && Values(own)[i] == y;
      OwnMembers(log, ino, own[i]);
    }
    if InLog(log, ino, y) {
      var p :| p in log && p.ino == ino && Value(p.ext) == y;
      assert p == Piece(p.ext, ino);
      OwnMembers(log, ino, p.ext);
      var i :| 0 <= i < |own| && own[i] == p.ext;
      assert Values(own)[i] == y;
    }
  }

  /** The lists of all inodes, sorted. */
  ghost predicate PlanOf(log: seq<Piece>, inos: seq<nat>, plan: seq<Listing>) {
    Distinct(inos) && (forall i :: i in inos <==> i in InodeLists(log)) && plan == SortLists(InodeLists(log), inos)
  }

  /** The chunk offsets below the total are shared out among the extents of the plan. */
  lemma PlanApart(log: seq<Piece>, total: nat, inos: seq<nat>, plan: seq<Listing>)
    requires GoodLog(log, total) && PlanOf(log, inos, plan)
    ensures |plan| == |inos| && ListingsApart(plan)
    ensures forall l <- plan :: l.exts != [] && ChunksApart(l.exts, total)
    ensures forall k, y: Extent | 0 <= k < |plan| :: y in plan[k].exts <==> InLog(log, plan[k].ino, y)
    ensures forall k | 0 <= k < |plan| :: plan[k].ino == inos[k]
  {
    hide Tiling, Disjoint, InodeLists, SortExtents, ChunksOf, ChunksApart;
    SortListsAt(InodeLists(log), inos);
    forall k | 0 <= k < |plan|
      ensures plan[k].exts != [] && ChunksApart(plan[k].exts, total)
      ensures forall y: Extent :: y in plan[k].exts <==> InLog(log, plan[k].ino, y)
    {
      ListingApart(log, total, inos[k]);
      assert inos[k] in inos;
    }
    forall i, j | 0 <= i < j < |plan| ensures plan[i].ino != plan[j].ino && ChunksShared(plan[i].exts, plan[j].exts) == {} {
      SharedNone(log, total, plan[i], plan[j]);
    }
  }

  lemma SharedNone(log: seq<Piece>, total: nat, a: Listing, b: Listing)
    requires Tiling(log, total) && a.ino != b.ino
    requires forall y: Extent :: y in a.exts <==> InLog(log, a.ino, y)
    requires forall y: Extent :: y in b.exts <==> InLog(log, b.ino, y)
    ensures ChunksShared(a.exts, b.exts) == {}
  {
    hide Tiling, ChunksOf;
    forall c: nat | c in ChunksOf(a.exts) ensures c !in ChunksOf(b.exts) {
      ChunksOfIs(a.exts, c);
      ChunksOfIs(b.exts, c);
      ChunkUnique(log, total, c);
      var x :| x in a.exts && x.chunkOffset <= c < x.chunkOffset + x.len;
      var p :| p in log && p.ino == a.ino && Value(p.ext) == x;
      var j :| 0 <= j < |log| && log[j] == p;
      forall y | y in b.exts ensures !(y.chunkOffset <= c < y.chunkOffset + y.len) {
        var q :| q in log && q.ino == b.ino && Value(q.ext) == y;
        var k :| 0 <= k < |log| && log[k] == q;
        assert InChunk(log[j].ext, c) && j != k;
        assert !InChunk(log[k].ext, c);
      }
    }
  }
}
