/** prefetch-process-trace: sorting traces and merging their records into runs of pages. */
module TraceMerge {

  /** A traced range of pages of a file; `index` is its place in the input. */
  datatype Record = Record(index: nat, device: nat, inode: nat, start: nat, len: nat) {
    function End(): nat {
      start + len
    }
  }

  predicate SameFile(x: Record, y: Record) {
    x.device == y.device && x.inode == y.inode
  }

  predicate FileBefore(x: Record, y: Record) {
    x.device < y.device || (x.device == y.device && x.inode < y.inode)
  }

  /** The comparison of the source: by file, then by start, longer ranges first. */
  function TraceCmp(x: Record, y: Record): int {
    if x.device < y.device then -1
    else if x.device > y.device then 1
    else if x.inode < y.inode then -1
    else if x.inode > y.inode then 1
    else if x.start < y.start then -1
    else if x.start > y.start then 1
    else if x.len < y.len then 1
    else if x.len > y.len then -1
    else 0
  }

  /** Ranges that overlap or follow one another. */
  predicate RangesOverlap(start1: nat, len1: nat, start2: nat, len2: nat) {
    !(start1 + len1 < start2) && !(start2 + len2 < start1)
  }

  // ----- Sorting

  ghost predicate InOrder(s: seq<Record>) {
    forall i, j | 0 <= i < j < |s| :: TraceCmp(s[i], s[j]) <= 0
  }

  function Insert(x: Record, s: seq<Record>): seq<Record> {
    if s == [] || TraceCmp(x, s[0]) < 0 then [x] + s else [s[0]] + Insert(x, s[1..])
  }

  function Sort(s: seq<Record>): seq<Record> {
    if s == [] then [] else Insert(s[0], Sort(s[1..]))
  }

  lemma {:induction false} InsertMembers(x: Record, s: seq<Record>)
    ensures multiset(Insert(x, s)) == multiset(s) + multiset{x}
  {
    if s != [] && TraceCmp(x, s[0]) >= 0 {
      InsertMembers(x, s[1..]);
      assert s == [s[0]] + s[1..];
    }
  }

  lemma InFront(x: Record, s: seq<Record>)
    requires InOrder(s) && forall y <- s :: TraceCmp(x, y) <= 0
    ensures InOrder([x] + s)
  {
    var r := [x] + s;
    forall i, j | 0 <= i < j < |r| ensures TraceCmp(r[i], r[j]) <= 0 {
      assert r[j] == s[j - 1] && s[j - 1] in s;
      if i > 0 {
        assert r[i] == s[i - 1];
      }
    }
  }

  lemma CmpTransitive(x: Record, y: Record, z: Record)
    ensures TraceCmp(x, y) < 0 && TraceCmp(y, z) <= 0 ==> TraceCmp(x, z) < 0
  {}

  lemma CmpTotal(x: Record, y: Record)
    ensures TraceCmp(x, y) == -TraceCmp(y, x)
  {}

  lemma {:induction false} InsertInOrder(x: Record, s: seq<Record>)
    requires InOrder(s)
    ensures InOrder(Insert(x, s))
  {
    hide TraceCmp;
    if s != [] {
      if TraceCmp(x, s[0]) < 0 {
        forall y | y in s ensures TraceCmp(x, y) <= 0 {
          var i :| 0 <= i < |s| && s[i] == y;
          assert i > 0 ==> TraceCmp(s[0], s[i]) <= 0;
          CmpTransitive(x, s[0], y);
        }
        InFront(x, s);
      } else {
        var t := s[1..];
        InsertInOrder(x, t);
        InsertMembers(x, t);
        CmpTotal(x, s[0]);
        forall y | y in Insert(x, t) ensures TraceCmp(s[0], y) <= 0 {
          assert y in multiset(Insert(x, t));
          if y != x {
            assert y in multiset(t);
            var i :| 0 <= i < |t| && t[i] == y;
            assert s[i + 1] == y;
          }
        }
        InFront(s[0], Insert(x, t));
      }
    }
  }

  lemma {:induction false} SortInOrder(s: seq<Record>)
    ensures InOrder(Sort(s)) && multiset(Sort(s)) == multiset(s)
  {
    if s != [] {
      SortInOrder(s[1..]);
      InsertInOrder(s[0], Sort(s[1..]));
      InsertMembers(s[0], Sort(s[1..]));
      assert s == [s[0]] + s[1..];
    }
  }

  // ----- What a trace covers

  datatype Page = Page(device: nat, inode: nat, page: nat)

  predicate Has(x: Record, p: Page) {
    x.device == p.device && x.inode == p.inode && x.start <= p.page < x.End()
  }

  ghost predicate Covers(s: seq<Record>, p: Page) {
    exists x <- s :: Has(x, p)
  }

  ghost predicate SamePages(s: seq<Record>, r: seq<Record>) {
    forall p :: Covers(s, p) <==> Covers(r, p)
  }

  /** `y` is of a later file, or of the same file with a gap before it. */
  predicate Apart(x: Record, y: Record) {
    FileBefore(x, y) || (SameFile(x, y) && x.End() < y.start)
  }

  /** Sorted maximal runs: neighbours of the same file have a page between them that belongs to neither. */
  ghost predicate Canonical(s: seq<Record>) {
    forall i, j | 0 <= i < j < |s| :: Apart(s[i], s[j])
  }

  /** The range of `y` lies in that of `x`. */
  predicate Within(y: Record, x: Record) {
    SameFile(x, y) && x.start <= y.start && y.End() <= x.End()
  }

  /** Every input record lies in a run, whose index is the smallest of those of its records. */
  ghost predicate Indexed(s: seq<Record>, r: seq<Record>) {
    && (forall y <- s :: InSome(y, r))
    && forall x <- r :: LowestIndex(s, x)
  }

  ghost predicate InSome(y: Record, r: seq<Record>) {
    exists x <- r :: Within(y, x)
  }

  ghost predicate LowestIndex(s: seq<Record>, x: Record) {
    (exists y <- s :: Within(y, x) && y.index == x.index) && forall y <- s :: Within(y, x) ==> x.index <= y.index
  }

  lemma CoversConcat(s: seq<Record>, r: seq<Record>, p: Page)
    ensures Covers(s + r, p) <==> Covers(s, p) || Covers(r, p)
  {
    assert forall x :: x in s + r <==> x in s || x in r;
  }

  lemma CoversOne(x: Record, p: Page)
    ensures Covers([x], p) <==> Has(x, p)
  {
    assert x in [x];
  }

  // ----- Merging

  /** The records up to `i` are merged into `done` and `x`, and nothing that follows comes before `x`. */
  ghost predicate Growing(s: seq<Record>, done: seq<Record>, x: Record, i: nat) {
    && i <= |s| && Canonical(done + [x]) && SamePages(done + [x], s[..i]) && Indexed(s[..i], done + [x])
    && forall k | i <= k < |s| :: NotBefore(x, s[k])
  }

  predicate NotBefore(x: Record, y: Record) {
    FileBefore(x, y) || (SameFile(x, y) && x.start <= y.start)
  }

  function Joined(x: Record, y: Record): Record {
    var start := if x.start < y.start then x.start else y.start;
    var end := if x.End() > y.End() then x.End() else y.End();
    Record(if y.index < x.index then y.index else x.index, x.device, x.inode, start, end - start)
  }

  predicate Merges(x: Record, y: Record) {
    x.device == y.device && x.inode == y.inode && RangesOverlap(x.start, x.len, y.start, y.len)
  }

  lemma GrowStart(s: seq<Record>)
    requires InOrder(s) && s != []
    ensures Growing(s, [], s[0], 1)
  {
    assert [] + [s[0]] == [s[0]] && s[..1] == [s[0]];
    assert Within(s[0], s[0]);
    forall k | 1 <= k < |s| ensures NotBefore(s[0], s[k]) {
      assert TraceCmp(s[0], s[k]) <= 0;
    }
  }

  lemma BeforeLast(done: seq<Record>, x: Record, z: Record)
    requires Canonical(done + [x]) && z in done
    ensures Apart(z, x)
  {
    var j :| 0 <= j < |done| && done[j] == z;
    assert (done + [x])[j] == z && (done + [x])[|done|] == x;
  }

  lemma LowestKept(s: seq<Record>, y: Record, v: Record)
    requires LowestIndex(s, v) && (Within(y, v) ==> v.index <= y.index)
    ensures LowestIndex(s + [y], v)
  {
    var u :| u in s && Within(u, v) && u.index == v.index;
    assert u in s + [y];
    assert forall w <- s + [y] :: w in s || w == y;
  }

  lemma WithinMore(w: Record, done: seq<Record>, x: Record, z: Record)
    requires InSome(w, done + [x]) && Within(x, z)
    ensures InSome(w, done + [z])
  {
    var v :| v in done + [x] && Within(w, v);
    assert z in done + [z] && (v in done ==> v in done + [z]);
  }

  /** A record in `x` or a run before it does not lie in what `x` and `y` are joined to, unless it lies in `x`. */
  lemma InJoined(done: seq<Record>, x: Record, y: Record, w: Record)
    requires Canonical(done + [x]) && InSome(w, done + [x]) && Merges(x, y) && NotBefore(x, y) && Within(w, Joined(x, y))
    ensures Within(w, x)
  {
    hide Canonical;
    var v :| v in done + [x] && Within(w, v);
    if v in done {
      BeforeLast(done, x, v);
    }
  }

  lemma JoinLowest(s: seq<Record>, done: seq<Record>, x: Record, y: Record)
    requires Canonical(done + [x]) && (forall w <- s :: InSome(w, done + [x])) && LowestIndex(s, x)
    requires Merges(x, y) && NotBefore(x, y)
    ensures LowestIndex(s + [y], Joined(x, y))
  {
    hide Canonical, InSome, Merges, RangesOverlap;
    var z := Joined(x, y);
    JoinHolds(x, y);
    var u :| u in s && Within(u, x) && u.index == x.index;
    assert u in s + [y] && y in s + [y] && Within(u, z);
    forall w | w in s + [y] && Within(w, z) ensures z.index <= w.index {
      if w in s {
        InJoined(done, x, y, w);
      }
    }
  }

  lemma JoinHolds(x: Record, y: Record)
    requires Merges(x, y)
    ensures Within(x, Joined(x, y)) && Within(y, Joined(x, y))
  {}

  lemma IndexJoin(s: seq<Record>, done: seq<Record>, x: Record, y: Record)
    requires Canonical(done + [x]) && Indexed(s, done + [x]) && Merges(x, y) && NotBefore(x, y)
    ensures Indexed(s + [y], done + [Joined(x, y)])
  {
    hide Canonical, InSome, LowestIndex, Merges, Joined, Within;
    var z := Joined(x, y);
    var r := done + [z];
    JoinHolds(x, y);
    forall w | w in s + [y] ensures InSome(w, r) {
      if w in s {
        WithinMore(w, done, x, z);
      } else {
        InOwn(w, z, r);
      }
    }
    forall v | v in r ensures LowestIndex(s + [y], v) {
      if v in done {
        assert v in done + [x];
        NotWithinBefore(done, x, y, v);
        LowestKept(s, y, v);
      } else {
        assert x in done + [x];
        JoinLowest(s, done, x, y);
      }
    }
  }

  lemma InOwn(w: Record, z: Record, r: seq<Record>)
    requires Within(w, z) && z in r
    ensures InSome(w, r)
  {}

  lemma NotWithinBefore(done: seq<Record>, x: Record, y: Record, v: Record)
    requires Canonical(done + [x]) && v in done && NotBefore(x, y)
    ensures !Within(y, v)
  {
    hide Canonical;
    BeforeLast(done, x, v);
  }

  lemma IndexNext(s: seq<Record>, r: seq<Record>, y: Record)
    requires Indexed(s, r) && forall x <- r :: Apart(x, y)
    ensures Indexed(s + [y], r + [y])
  {
    hide LowestIndex, InSome;
    forall w | w in s + [y] ensures InSome(w, r + [y]) {
      if w in s {
        InLonger(w, r, y);
      } else {
        InOwn(w, y, r + [y]);
      }
    }
    forall v | v in r + [y] ensures LowestIndex(s + [y], v) {
      if v in r {
        assert Apart(v, y);
        LowestKept(s, y, v);
      } else {
        NewLowest(s, r, y);
      }
    }
  }

  lemma InLonger(w: Record, r: seq<Record>, y: Record)
    requires InSome(w, r)
    ensures InSome(w, r + [y])
  {
    var v :| v in r && Within(w, v);
    assert v in r + [y];
  }

  lemma NewLowest(s: seq<Record>, r: seq<Record>, y: Record)
    requires (forall w <- s :: InSome(w, r)) && forall x <- r :: Apart(x, y)
    ensures LowestIndex(s + [y], y)
  {
    assert y in s + [y] && Within(y, y);
    forall w | w in s + [y] ensures Within(w, y) ==> y.index <= w.index {
      if w in s {
        var x :| x in r && Within(w, x);
        assert Apart(x, y);
      }
    }
  }

  lemma GrowJoin(s: seq<Record>, done: seq<Record>, x: Record, i: nat)
    requires Growing(s, done, x, i) && i < |s| && Merges(x, s[i])
    ensures Growing(s, done, Joined(x, s[i]), i + 1)
  {
    var y := Joined(x, s[i]);
    var all := done + [y];
    assert NotBefore(x, s[i]);
    forall j, k | 0 <= j < k < |all| ensures Apart(all[j], all[k]) {
      assert (done + [x])[j] == done[j];
      assert Apart((done + [x])[j], (done + [x])[k]);
    }
    assert s[..i + 1] == s[..i] + [s[i]];
    forall p ensures Covers(all, p) <==> Covers(s[..i + 1], p) {
      CoversConcat(done, [y], p);
      CoversConcat(done, [x], p);
      CoversConcat(s[..i], [s[i]], p);
      assert Covers(done + [x], p) <==> Covers(s[..i], p);
      CoversOne(x, p);
      CoversOne(y, p);
      CoversOne(s[i], p);
    }
    IndexJoin(s[..i], done, x, s[i]);
    forall k | i + 1 <= k < |s| ensures NotBefore(y, s[k]) {
      assert NotBefore(x, s[k]);
    }
  }

  lemma GrowNext(s: seq<Record>, done: seq<Record>, x: Record, i: nat)
    requires InOrder(s) && Growing(s, done, x, i) && i < |s| && !Merges(x, s[i])
    ensures Growing(s, done + [x], s[i], i + 1)
  {
    var y := s[i];
    var all := done + [x] + [y];
    assert NotBefore(x, y);
    forall j, k | 0 <= j < k < |all| ensures Apart(all[j], all[k]) {
      if k == |done| + 1 {
        assert all[j] == (done + [x])[j];
        if j < |done| {
          assert Apart((done + [x])[j], (done + [x])[|done|]);
        }
      } else {
        assert Apart((done + [x])[j], (done + [x])[k]);
      }
    }
    assert s[..i + 1] == s[..i] + [y];
    forall p ensures Covers(all, p) <==> Covers(s[..i + 1], p) {
      CoversConcat(done + [x], [y], p);
      CoversConcat(s[..i], [y], p);
      assert Covers(done + [x], p) <==> Covers(s[..i], p);
    }
    forall z | z in done + [x] ensures Apart(z, y) {
      var j :| 0 <= j < |done + [x]| && (done + [x])[j] == z;
      assert all[j] == z && all[|all| - 1] == y;
    }
    IndexNext(s[..i], done + [x], y);
    forall k | i + 1 <= k < |s| ensures NotBefore(y, s[k]) {
      assert TraceCmp(s[i], s[k]) <= 0;
    }
  }

  /** Merges consecutive records that overlap or follow one another. `current` stays at the end before the first record. */
  method MergeTrace(container: seq<Record>) returns (output: seq<Record>)
    requires InOrder(container)
    ensures Canonical(output) && SamePages(output, container) && Indexed(container, output)
  {
    hide Growing, InOrder, Canonical, SamePages, Indexed, Merges, Joined;
    output := [];
    var c := container;
    var end := |c|;
    var current := end;
    var it := 0;
    while it != end
      invariant 0 <= it <= end == |c| && |c| == |container|
      invariant c[it..] == container[it..]
      invariant current == end <==> it == 0
      invariant it > 0 ==> 0 <= current < it && Growing(container, output, c[current], it)
      invariant it == 0 ==> output == []
      decreases end - it
    {
      assert c[it] == container[it];
      if current == end {
        GrowStart(container);
        current := it;
      } else {
        var r1, r2 := c[current], c[it];
        if !MergesTest(r1, r2) {
          GrowNext(container, output, r1, it);
          output := output + [r1];
          current := it;
        } else {
          GrowJoin(container, output, r1, it);
          c := c[current := Joined(r1, r2)];
        }
      }
      it := it + 1;
    }
    if current != end {
      GrowDone(container, output, c[current]);
      output := output + [c[current]];
    } else {
      NothingMerged(container);
    }
  }

  /** The test of the loop, as the source writes it. */
  predicate MergesTest(r1: Record, r2: Record): (r: bool)
    ensures r <==> Merges(r1, r2)
  {
    !(r1.device != r2.device || r1.inode != r2.inode || !RangesOverlap(r1.start, r1.len, r2.start, r2.len))
  }

  lemma GrowDone(s: seq<Record>, done: seq<Record>, x: Record)
    requires Growing(s, done, x, |s|)
    ensures Canonical(done + [x]) && SamePages(done + [x], s) && Indexed(s, done + [x])
  {
    assert s[..|s|] == s;
  }

  lemma NothingMerged(s: seq<Record>)
    requires s == []
    ensures Canonical(s) && SamePages([], s) && Indexed(s, [])
  {}

  // ----- The sum of traces

  /** `r` is the sum of the records `s`. */
  ghost predicate SumOf(s: seq<Record>, r: seq<Record>) {
    Canonical(r) && SamePages(r, s) && Indexed(s, r)
  }

  ghost predicate NonEmpty(s: seq<Record>) {
    forall x <- s :: x.len > 0
  }

  class TraceFileData {
    var records: seq<Record>

    constructor (records: seq<Record>)
      ensures this.records == records
    {
      this.records := records;
    }

    /** Sorts the records and merges them. */
    method SortedSum()
      modifies this
      ensures SumOf(old(records), records)
    {
      hide Canonical, InOrder;
      var sorted := Sort(records);
      SortInOrder(records);
      var merged := MergeTrace(sorted);
      SumOfPermutation(sorted, records, merged);
      records := merged;
    }
  }

  /** The order of the input does not matter. */
  lemma SumOfPermutation(s: seq<Record>, t: seq<Record>, r: seq<Record>)
    requires multiset(s) == multiset(t) && SumOf(s, r)
    ensures SumOf(t, r)
  {
    hide Canonical, InOrder;
    forall x ensures x in s <==> x in t {
      assert x in multiset(s) <==> x in multiset(t);
    }
    forall p ensures Covers(s, p) <==> Covers(t, p) {}
    forall y | y in t ensures InSome(y, r) {
      assert y in s;
    }
    forall x | x in r ensures LowestIndex(t, x) {
      assert LowestIndex(s, x);
    }
  }

  lemma PieceNonEmpty(s: seq<Record>, r: seq<Record>)
    requires SumOf(s, r) && NonEmpty(s)
    ensures NonEmpty(r)
  {
    hide Canonical, SamePages;
    forall x | x in r ensures x.len > 0 {
      assert LowestIndex(s, x);
    }
  }

  predicate SameRange(x: Record, y: Record) {
    SameFile(x, y) && x.start == y.start && x.len == y.len
  }

  lemma FirstNotAfter(s: seq<Record>, r: seq<Record>)
    requires Canonical(s) && SamePages(s, r) && s != [] && r != [] && r[0].len > 0
    ensures NotBefore(s[0], r[0])
  {
    var p := Page(r[0].device, r[0].inode, r[0].start);
    assert Has(r[0], p) && r[0] in r && Covers(r, p);
    var x :| x in s && Has(x, p);
    var i :| 0 <= i < |s| && s[i] == x;
    assert i > 0 ==> Apart(s[0], s[i]);
  }

  lemma NotAtEnd(r: seq<Record>)
    requires Canonical(r) && r != []
    ensures !Covers(r, Page(r[0].device, r[0].inode, r[0].End()))
  {
    forall x | x in r ensures !Has(x, Page(r[0].device, r[0].inode, r[0].End())) {
      var i :| 0 <= i < |r| && r[i] == x;
      assert i > 0 ==> Apart(r[0], r[i]);
    }
  }

  lemma FirstSame(s: seq<Record>, r: seq<Record>)
    requires Canonical(s) && Canonical(r) && SamePages(s, r) && s != [] && r != [] && s[0].len > 0 && r[0].len > 0
    ensures SameRange(s[0], r[0])
  {
    hide Canonical;
    FirstNotAfter(s, r);
    FirstNotAfter(r, s);
    NotAtEnd(s);
    NotAtEnd(r);
    var p, q := Page(r[0].device, r[0].inode, r[0].End()), Page(s[0].device, s[0].inode, s[0].End());
    assert s[0] in s && r[0] in r;
    assert !Covers(s, p) && !Covers(r, q);
    assert !Has(s[0], p) && !Has(r[0], q);
  }

  lemma RestPages(s: seq<Record>, r: seq<Record>)
    requires Canonical(s) && Canonical(r) && SamePages(s, r) && s != [] && r != [] && SameRange(s[0], r[0])
    ensures SamePages(s[1..], r[1..]) && Canonical(s[1..]) && Canonical(r[1..])
  {
    forall p ensures Covers(s[1..], p) <==> Covers(r[1..], p) {
      CoversConcat([s[0]], s[1..], p);
      CoversConcat([r[0]], r[1..], p);
      assert s == [s[0]] + s[1..] && r == [r[0]] + r[1..];
      CoversOne(s[0], p);
      CoversOne(r[0], p);
      RestElsewhere(s, p);
      RestElsewhere(r, p);
    }
  }

  lemma RestElsewhere(s: seq<Record>, p: Page)
    requires Canonical(s) && s != []
    ensures Covers(s[1..], p) ==> !Has(s[0], p)
  {
    if Covers(s[1..], p) {
      var x :| x in s[1..] && Has(x, p);
      var i :| 0 <= i < |s[1..]| && s[1..][i] == x;
      assert Apart(s[0], s[i + 1]);
    }
  }

  lemma NoPages(s: seq<Record>)
    requires NonEmpty(s) && s != []
    ensures Covers(s, Page(s[0].device, s[0].inode, s[0].start))
  {
    assert s[0] in s && Has(s[0], Page(s[0].device, s[0].inode, s[0].start));
  }

  /** There is only one list of sorted maximal runs for a set of pages. */
  lemma {:induction false} CanonicalUnique(s: seq<Record>, r: seq<Record>)
    requires Canonical(s) && Canonical(r) && SamePages(s, r) && NonEmpty(s) && NonEmpty(r)
    ensures |s| == |r| && forall i | 0 <= i < |s| :: SameRange(s[i], r[i])
  {
    hide Canonical, SameRange;
    if s != [] {
      NoPages(s);
    }
    if r != [] {
      NoPages(r);
    }
    if s != [] && r != [] {
      assert s[0] in s && r[0] in r;
      FirstSame(s, r);
      RestPages(s, r);
      assert (forall x <- s[1..] :: x in s) && forall x <- r[1..] :: x in r;
      CanonicalUnique(s[1..], r[1..]);
      forall i | 0 <= i < |s| ensures SameRange(s[i], r[i]) {
        if i > 0 {
          assert s[i] == s[1..][i - 1] && r[i] == r[1..][i - 1];
        }
      }
    }
  }

  lemma SameLowest(s: seq<Record>, x: Record, y: Record)
    requires LowestIndex(s, x) && LowestIndex(s, y) && SameRange(x, y)
    ensures x == y
  {}

  /** The sum of records of positive length is determined: it depends neither on their order nor on the way of merging. */
  lemma SumUnique(s: seq<Record>, t: seq<Record>, a: seq<Record>, b: seq<Record>)
    requires NonEmpty(s) && multiset(s) == multiset(t) && SumOf(s, a) && SumOf(t, b)
    ensures a == b
  {
    hide Canonical, SameRange, LowestIndex;
    SumOfPermutation(t, s, b);
    PieceNonEmpty(s, a);
    PieceNonEmpty(s, b);
    CanonicalUnique(a, b);
    forall i | 0 <= i < |a| ensures a[i] == b[i] {
      assert a[i] in a && b[i] in b;
      SameLowest(s, a[i], b[i]);
    }
  }

  /** Summing a sum changes nothing. */
  lemma SumIdempotent(s: seq<Record>, a: seq<Record>, b: seq<Record>)
    requires NonEmpty(s) && SumOf(s, a) && SumOf(a, b)
    ensures a == b
  {
    PieceNonEmpty(s, a);
    OwnSum(a);
    SumUnique(a, a, a, b);
  }

  lemma OwnSum(a: seq<Record>)
    requires Canonical(a)
    ensures SumOf(a, a)
  {
    forall x | x in a ensures InSome(x, a) && LowestIndex(a, x) {
      assert Within(x, x);
      var i :| 0 <= i < |a| && a[i] == x;
      forall y | y in a ensures Within(y, x) ==> x.index <= y.index {
        var j :| 0 <= j < |a| && a[j] == y;
        if i < j {
          assert Apart(a[i], a[j]);
        } else if j < i {
          assert Apart(a[j], a[i]);
        }
      }
    }
  }
}
