/** The decision e2remapblocks takes for each visited block: does an extent list it, and where does it go. */
module RemapBlocks {
  import opened BlockTree
  import opened FreeRuns

  /** An extent to remap, as listed for its inode. */
  datatype Extent = Extent(block: nat, len: nat, offset: int, chunkOffset: nat)

  /** Keep the pointer, change it, stop the walk, or exit with an error. */
  datatype Verdict = Keep | Change(to: nat) | Abort | IllegalBlock | BlockChanged | NoRun

  predicate Lists(x: Extent, code: int) {
    x.offset <= code < x.offset + x.len
  }

  /** The chunk offset of a listed code. */
  function Chunk(x: Extent, code: int): int {
    x.chunkOffset + (code - x.offset)
  }

  /** The extent the traversal looks at for a code, given the one it looked at last. */
  function Advance(exts: seq<Extent>, act: nat, code: int): nat
    requires act < |exts|
  {
    if CmpCode(code, exts[act].offset + exts[act].len - 1) > 0 then act + 1 else act
  }

  /** What the callback decides for a block with the given code. */
  ghost function Decide(exts: seq<Extent>, runs: seq<FreeExtent>, total: nat, blocksCount: nat, act: nat, code: int,
                        block: nat): Verdict
    requires act < |exts|
  {
    if block >= blocksCount then IllegalBlock
    else
      var a := Advance(exts, act, code);
      if a == |exts| then Abort
      else if !Lists(exts[a], code) then Keep
      else if block != exts[a].block + (code - exts[a].offset) then BlockChanged
      else if Chunk(exts[a], code) >= total then NoRun
      else
        var t := Target(runs, Chunk(exts[a], code));
        if t >= blocksCount then IllegalBlock else Change(t)
  }

  /** The code names a block of some extent. */
  ghost predicate Listed(exts: seq<Extent>, code: int) {
    exists x <- exts :: Lists(x, code)
  }

  /** Where the block with a listed code goes. */
  ghost function NewPlace(exts: seq<Extent>, runs: seq<FreeExtent>, code: int): nat
    requires Listed(exts, code)
  {
    if Lists(exts[0], code) then
      var o := Chunk(exts[0], code);
      Target(runs, o)
    else
      ListedRest(exts, code);
      NewPlace(exts[1..], runs, code)
  }

  lemma ListedRest(exts: seq<Extent>, code: int)
    requires Listed(exts, code) && !Lists(exts[0], code)
    ensures Listed(exts[1..], code)
  {
    var x :| x in exts && Lists(x, code);
    var i :| 0 <= i < |exts| && exts[i] == x;
    assert exts[1..][i - 1] == x;
  }

  // ----- When the walk meets every listed block

  function LastCode(x: Extent): int {
    x.offset + x.len - 1
  }

  /** The extents do not interleave in the order of the walk. */
  ghost predicate Separated(exts: seq<Extent>) {
    && (forall x <- exts :: x.len > 0)
    && forall i, j | 0 <= i < j < |exts| :: Key(LastCode(exts[i])) < Key(exts[j].offset)
  }

  /** The codes met by the walk, with the blocks found there. */
  datatype Met = Met(code: int, block: nat)

  /** The walk meets ascending codes, none of which is that of a block deeper than triple indirect. */
  ghost predicate Ascending(met: seq<Met>) {
    && (forall m <- met :: m.code < 0 ==> OffToDepth(m.code) < 3)
    && forall i, j | 0 <= i < j < |met| :: Key(met[i].code) < Key(met[j].code)
  }

  ghost predicate MetAt(met: seq<Met>, x: Extent, n: nat) {
    Met(x.offset + n, x.block + n) in met
  }

  /** Each code of each extent is met, at the block the extent says. */
  ghost predicate Mapped(exts: seq<Extent>, met: seq<Met>) {
    forall x <- exts, n: nat | n < x.len :: MetAt(met, x, n)
  }

  ghost predicate CodeMet(met: seq<Met>, x: Extent, n: nat) {
    exists m <- met :: m.code == x.offset + n
  }

  /** Each code of each extent is met, whatever block is found there. */
  ghost predicate CodesMet(exts: seq<Extent>, met: seq<Met>) {
    forall x <- exts, n: nat | n < x.len :: CodeMet(met, x, n)
  }

  lemma MappedCodes(exts: seq<Extent>, met: seq<Met>)
    requires Mapped(exts, met)
    ensures CodesMet(exts, met)
  {
    forall x, n: nat | x in exts && n < x.len ensures CodeMet(met, x, n) {
      assert MetAt(met, x, n);
    }
  }

  /** Consecutive codes of blocks of a file ascend. */
  lemma KeyStep(code: int)
    requires code + 1 < 0 ==> OffToDepth(code + 1) < 3
    ensures Key(code) < Key(code + 1)
  {}

  /** Inside an extent whose codes are met, they ascend. */
  lemma {:induction false} CodesInside(x: Extent, met: seq<Met>, i: nat, j: nat)
    requires Ascending(met) && i <= j < x.len
    requires forall n: nat | n < x.len :: CodeMet(met, x, n)
    ensures Key(x.offset + i) <= Key(x.offset + j)
    ensures i < j ==> Key(x.offset + i) < Key(x.offset + j)
    decreases j
  {
    if i < j {
      CodesInside(x, met, i, j - 1);
      assert CodeMet(met, x, j);
      KeyStep(x.offset + j - 1);
    }
  }

  lemma KeysInside(x: Extent, met: seq<Met>, i: nat, j: nat)
    requires Ascending(met) && i <= j < x.len
    requires forall n: nat | n < x.len :: MetAt(met, x, n)
    ensures Key(x.offset + i) <= Key(x.offset + j)
    ensures i < j ==> Key(x.offset + i) < Key(x.offset + j)
  {
    hide Key, Ascending;
    forall n: nat | n < x.len ensures CodeMet(met, x, n) {
      assert MetAt(met, x, n);
    }
    CodesInside(x, met, i, j);
  }

  lemma MetOnce(met: seq<Met>, i: nat, m: Met)
    requires Ascending(met) && i < |met| && m in met && m.code == met[i].code
    ensures m == met[i]
  {
    var j :| 0 <= j < |met| && met[j] == m;
    if j < i {
    } else if i < j {
    }
  }

  /** The extent looked at before block `k` is met: the first one that does not end before the block met last. */
  ghost predicate Following(exts: seq<Extent>, met: seq<Met>, k: nat, act: nat)
    requires k <= |met|
  {
    && act < |exts|
    && (k == 0 ==> act == 0)
    && (k > 0 ==>
      && (forall j | 0 <= j < act :: Key(LastCode(exts[j])) < Key(met[k - 1].code))
      && Key(met[k - 1].code) <= Key(LastCode(exts[act])))
  }

  /** The extent the traversal moves to is the first that does not end before the block met now. */
  lemma AdvanceFollows(exts: seq<Extent>, met: seq<Met>, k: nat, act: nat)
    requires Ascending(met) && Separated(exts) && CodesMet(exts, met)
    requires k < |met| && Following(exts, met, k, act)
    ensures var a := Advance(exts, act, met[k].code);
      && a <= |exts|
      && (forall j | 0 <= j < a :: Key(LastCode(exts[j])) < Key(met[k].code))
      && (a < |exts| ==> Key(met[k].code) <= Key(LastCode(exts[a])) && Following(exts, met, k + 1, a))
  {
    var code := met[k].code;
    var a := Advance(exts, act, code);
    CmpIsKeyOrder(code, LastCode(exts[act]));
    hide Key, CmpCode, OffToDepth, OffToDataOff;
    if a == act + 1 && a < |exts| {
      var x := exts[a];
      assert x in exts && CodeMet(met, x, 0);
      var m :| 0 <= m < |met| && met[m].code == x.offset + 0;
      assert m >= k;
      assert Key(code) <= Key(x.offset);
      CodesInside(x, met, 0, x.len - 1);
    }
  }

  /** A listed code is listed by the extent the traversal has moved to. */
  lemma ListedOnce(exts: seq<Extent>, met: seq<Met>, k: nat, a: nat)
    requires Ascending(met) && Separated(exts) && CodesMet(exts, met) && k < |met|
    requires a <= |exts| && forall j | 0 <= j < a :: Key(LastCode(exts[j])) < Key(met[k].code)
    requires a < |exts| ==> Key(met[k].code) <= Key(LastCode(exts[a]))
    ensures forall j | 0 <= j < |exts| :: Lists(exts[j], met[k].code) ==> j == a
  {
    hide Key, CmpCode, OffToDepth, OffToDataOff;
    var code := met[k].code;
    forall j | 0 <= j < |exts| && Lists(exts[j], code) ensures j == a {
      var x := exts[j];
      var n := code - x.offset;
      assert x in exts;
      CodesInside(x, met, 0, n);
      CodesInside(x, met, n, x.len - 1);
      assert Key(x.offset) <= Key(code) <= Key(LastCode(x));
    }
  }

  lemma ListedHere(exts: seq<Extent>, met: seq<Met>, k: nat, a: nat)
    requires Ascending(met) && Separated(exts) && Mapped(exts, met) && k < |met|
    requires a <= |exts| && forall j | 0 <= j < a :: Key(LastCode(exts[j])) < Key(met[k].code)
    requires a < |exts| ==> Key(met[k].code) <= Key(LastCode(exts[a]))
    ensures forall j | 0 <= j < |exts| :: Lists(exts[j], met[k].code) ==> j == a
    ensures a < |exts| && Lists(exts[a], met[k].code) ==> met[k].block == exts[a].block + (met[k].code - exts[a].offset)
  {
    hide Key, CmpCode, OffToDepth, OffToDataOff, Separated;
    MappedCodes(exts, met);
    ListedOnce(exts, met, k, a);
    if a < |exts| && Lists(exts[a], met[k].code) {
      var x := exts[a];
      var n := met[k].code - x.offset;
      assert x in exts && MetAt(met, x, n);
      MetOnce(met, k, Met(x.offset + n, x.block + n));
    }
  }

  lemma {:induction false} PlaceAt(exts: seq<Extent>, runs: seq<FreeExtent>, code: int, a: nat)
    requires a < |exts| && Lists(exts[a], code) && forall j | 0 <= j < |exts| :: Lists(exts[j], code) ==> j == a
    ensures Listed(exts, code) && Chunk(exts[a], code) >= 0
    ensures var o := Chunk(exts[a], code); NewPlace(exts, runs, code) == Target(runs, o)
  {
    assert exts[a] in exts;
    if a > 0 {
      assert !Lists(exts[0], code);
      assert exts[1..][a - 1] == exts[a];
      forall j | 0 <= j < |exts[1..]| && Lists(exts[1..][j], code) ensures j == a - 1 {
        assert exts[1..][j] == exts[j + 1];
      }
      PlaceAt(exts[1..], runs, code, a - 1);
    }
  }

  /** The decisions over a whole walk are right: listed blocks are changed to their new place, others are kept. */
  ghost predicate GoodTargets(exts: seq<Extent>, runs: seq<FreeExtent>, total: nat, blocksCount: nat) {
    forall x <- exts, o: nat | x.chunkOffset <= o < x.chunkOffset + x.len :: Target(runs, o) < blocksCount && o < total
  }

  lemma DecideRight(exts: seq<Extent>, runs: seq<FreeExtent>, total: nat, blocksCount: nat, met: seq<Met>, k: nat,
                    act: nat)
    requires Ascending(met) && Separated(exts) && Mapped(exts, met) && GoodTargets(exts, runs, total, blocksCount)
    requires k < |met| && met[k].block < blocksCount && Following(exts, met, k, act)
    ensures var v := Decide(exts, runs, total, blocksCount, act, met[k].code, met[k].block);
      var a := Advance(exts, act, met[k].code);
      && (Listed(exts, met[k].code) ==> v == Change(NewPlace(exts, runs, met[k].code)))
      && (!Listed(exts, met[k].code) ==> v == Keep || v == Abort)
      && (v == Abort ==> forall j | k <= j < |met| :: !Listed(exts, met[j].code))
      && (v != Abort ==> Following(exts, met, k + 1, a))
  {
    hide Key, CmpCode, OffToDepth, OffToDataOff, Mapped, CodesMet, Target, NewPlace;
    var code := met[k].code;
    var a := Advance(exts, act, code);
    MappedCodes(exts, met);
    AdvanceFollows(exts, met, k, act);
    ListedHere(exts, met, k, a);
    if Listed(exts, code) {
      var x :| x in exts && Lists(x, code);
      var j :| 0 <= j < |exts| && exts[j] == x;
      PlaceAt(exts, runs, code, a);
      var o := Chunk(x, code);
      assert o < total && Target(runs, o) < blocksCount;
    }
    if a == |exts| {
      forall j | k <= j < |met| ensures !Listed(exts, met[j].code) {
        assert forall i | 0 <= i < |exts| :: Key(LastCode(exts[i])) < Key(met[j].code);
        ListedHere(exts, met, j, a);
      }
    } else if !Listed(exts, code) {
      assert exts[a] in exts;
    }
  }

  // ----- When every listed block is changed

  /** The extent looked at before step `k` of a walk; the number of extents once the walk has stopped. */
  ghost function ActAt(exts: seq<Extent>, met: seq<Met>, k: nat): nat
    requires k <= |met|
    ensures ActAt(exts, met, k) <= |exts|
  {
    if k == 0 then 0
    else
      var act := ActAt(exts, met, k - 1);
      if act == |exts| then act else Advance(exts, act, met[k - 1].code)
  }

  lemma {:induction false} ActGrows(exts: seq<Extent>, met: seq<Met>, j: nat, k: nat)
    requires j <= k <= |met|
    ensures ActAt(exts, met, j) <= ActAt(exts, met, k)
  {
    if j < k {
      ActGrows(exts, met, j, k - 1);
    }
  }

  ghost predicate ChangedAt(exts: seq<Extent>, runs: seq<FreeExtent>, total: nat, blocksCount: nat, met: seq<Met>,
                            k: nat)
    requires k < |met|
  {
    var act := ActAt(exts, met, k);
    act < |exts| && Decide(exts, runs, total, blocksCount, act, met[k].code, met[k].block).Change?
  }

  ghost predicate AllChanged(exts: seq<Extent>, runs: seq<FreeExtent>, total: nat, blocksCount: nat, met: seq<Met>) {
    forall k | 0 <= k < |met| :: Listed(exts, met[k].code) ==> ChangedAt(exts, runs, total, blocksCount, met, k)
  }

  /** The extents of an inode as the sort leaves them: by first code, and no code in two of them. */
  ghost predicate SortedList(exts: seq<Extent>) {
    && (forall x <- exts :: x.len > 0)
    && (forall i, j | 0 <= i < j < |exts| :: Key(exts[i].offset) <= Key(exts[j].offset))
    && forall i, j, c: int | 0 <= i < j < |exts| :: !(Lists(exts[i], c) && Lists(exts[j], c))
  }

  lemma {:induction false} ActFollows(exts: seq<Extent>, met: seq<Met>, k: nat)
    requires Ascending(met) && Separated(exts) && CodesMet(exts, met) && k <= |met|
    ensures ActAt(exts, met, k) < |exts| ==> Following(exts, met, k, ActAt(exts, met, k))
    ensures ActAt(exts, met, k) == |exts| ==> forall j | k <= j < |met| :: !Listed(exts, met[j].code)
  {
    hide Key, CmpCode, OffToDepth, OffToDataOff, CodesMet, Separated;
    if k > 0 {
      ActFollows(exts, met, k - 1);
      var act := ActAt(exts, met, k - 1);
      if act < |exts| {
        AdvanceFollows(exts, met, k - 1, act);
        if Advance(exts, act, met[k - 1].code) == |exts| {
          forall j | k - 1 <= j < |met| ensures !Listed(exts, met[j].code) {
            assert forall i | 0 <= i < |exts| :: Key(LastCode(exts[i])) < Key(met[j].code);
            ListedOnce(exts, met, j, |exts|);
          }
        }
      }
    } else if |exts| == 0 {
      assert forall j | k <= j < |met| :: !Listed(exts, met[j].code);
    }
  }

  /** The step of the walk that meets a code of an extent, and what it needs to change the block there. */
  lemma ChangedByOwn(exts: seq<Extent>, runs: seq<FreeExtent>, total: nat, blocksCount: nat, met: seq<Met>, i: nat,
                     n: nat)
      returns (k: nat)
    requires Mapped(exts, met) && AllChanged(exts, runs, total, blocksCount, met) && SortedList(exts)
    requires i < |exts| && n < exts[i].len
    ensures k < |met| && met[k].code == exts[i].offset + n && ActAt(exts, met, k + 1) == i
  {
    var x := exts[i];
    assert x in exts && MetAt(met, x, n);
    k :| 0 <= k < |met| && met[k] == Met(x.offset + n, x.block + n);
    assert Lists(x, met[k].code) && Listed(exts, met[k].code);
    assert ChangedAt(exts, runs, total, blocksCount, met, k);
    var a := Advance(exts, ActAt(exts, met, k), met[k].code);
    assert Lists(exts[a], met[k].code);
    assert !(a < i) && !(i < a);
  }

  lemma ChangedMeansSeparated(exts: seq<Extent>, runs: seq<FreeExtent>, total: nat, blocksCount: nat, met: seq<Met>)
    requires Ascending(met) && Mapped(exts, met) && SortedList(exts)
    requires AllChanged(exts, runs, total, blocksCount, met)
    ensures Separated(exts)
  {
    hide Key, CmpCode, OffToDepth, OffToDataOff, Decide, NewPlace, Mapped, Lists, ActAt;
    forall i, j | 0 <= i < j < |exts| ensures Key(LastCode(exts[i])) < Key(exts[j].offset) {
      var ki := ChangedByOwn(exts, runs, total, blocksCount, met, i, exts[i].len - 1);
      var kj := ChangedByOwn(exts, runs, total, blocksCount, met, j, 0);
      if kj <= ki {
        ActGrows(exts, met, kj + 1, ki + 1);
      }
      assert ki < kj;
    }
  }

  /**
    The walk changes every listed block if and only if no extent of the inode ends behind the start of the next one
    in the order of the walk.
   */
  lemma SeparatedIff(exts: seq<Extent>, runs: seq<FreeExtent>, total: nat, blocksCount: nat, met: seq<Met>)
    requires Ascending(met) && Mapped(exts, met) && SortedList(exts)
    requires GoodTargets(exts, runs, total, blocksCount) && forall m <- met :: m.block < blocksCount
    ensures AllChanged(exts, runs, total, blocksCount, met) <==> Separated(exts)
  {
    hide Key, CmpCode, OffToDepth, OffToDataOff, Decide, NewPlace, Mapped, CodesMet, GoodTargets, Separated, SortedList,
      Ascending;
    if AllChanged(exts, runs, total, blocksCount, met) {
      ChangedMeansSeparated(exts, runs, total, blocksCount, met);
    }
    MappedCodes(exts, met);
    if Separated(exts) {
      forall k | 0 <= k < |met| && Listed(exts, met[k].code)
        ensures ChangedAt(exts, runs, total, blocksCount, met, k)
      {
        ActFollows(exts, met, k);
        assert met[k] in met;
        DecideRight(exts, runs, total, blocksCount, met, k, ActAt(exts, met, k));
      }
    }
  }

  // ----- When the codes of the walk do not ascend

  /** A list of one block only, the one met at step `k`. */
  ghost function OnlyBlock(met: seq<Met>, k: nat): seq<Extent>
    requires k < |met|
  {
    [Extent(met[k].block, 1, met[k].code, 0)]
  }

  lemma OnlyBlockList(met: seq<Met>, k: nat)
    requires k < |met|
    ensures var exts := OnlyBlock(met, k);
      Mapped(exts, met) && SortedList(exts) && Separated(exts) && Listed(exts, met[k].code)
  {
    hide Key;
    var exts := OnlyBlock(met, k);
    assert met[k] in met && Lists(exts[0], met[k].code);
  }

  /** A block that is met right after a larger code is skipped: the walk has stopped by then. */
  lemma OnlyBlockSkipped(met: seq<Met>, k: nat, runs: seq<FreeExtent>, total: nat, blocksCount: nat)
    requires k + 1 < |met| && Key(met[k + 1].code) < Key(met[k].code)
    ensures !ChangedAt(OnlyBlock(met, k + 1), runs, total, blocksCount, met, k + 1)
  {
    hide Key, CmpCode;
    CmpIsKeyOrder(met[k].code, met[k + 1].code);
    assert ActAt(OnlyBlock(met, k + 1), met, k + 1) == 1;
  }

  /** The walk changes all listed blocks of every list that it can be given. */
  ghost predicate ChangesEvery(runs: seq<FreeExtent>, total: nat, blocksCount: nat, met: seq<Met>) {
    forall exts: seq<Extent> | Mapped(exts, met) && SortedList(exts) && Separated(exts)
        && GoodTargets(exts, runs, total, blocksCount) ::
      AllChanged(exts, runs, total, blocksCount, met)
  }

  /**
    A walk that meets a code before a smaller one skips the block with the smaller one, even when nothing else is
    listed.
   */
  lemma DescentSkips(met: seq<Met>, k: nat, runs: seq<FreeExtent>, total: nat, blocksCount: nat)
    requires k + 1 < |met| && Key(met[k + 1].code) < Key(met[k].code)
    requires total > 0 && forall o: nat | o < total :: Target(runs, o) < blocksCount
    ensures !ChangesEvery(runs, total, blocksCount, met)
  {
    hide Key, Mapped, SortedList, Separated, ChangedAt, Target;
    var exts := OnlyBlock(met, k + 1);
    OnlyBlockList(met, k + 1);
    OnlyBlockSkipped(met, k, runs, total, blocksCount);
    assert GoodTargets(exts, runs, total, blocksCount);
    assert !AllChanged(exts, runs, total, blocksCount, met);
  }

  // ----- What each verdict says

  /** The extent names this block for the code. */
  predicate Names(x: Extent, code: int, block: nat) {
    Lists(x, code) && block == x.block + (code - x.offset)
  }

  /**
    A pointer is changed only if an extent lists the code and names this very block, to the place of its chunk offset;
    a block that the extent names differently is an error, and so is one that is not on the device.
   */
  lemma VerdictMeans(exts: seq<Extent>, runs: seq<FreeExtent>, total: nat, blocksCount: nat, act: nat, code: int,
                     block: nat)
    requires act < |exts|
    ensures var v := Decide(exts, runs, total, blocksCount, act, code, block);
      && (v.Change? ==> block < blocksCount && v.to < blocksCount && exists x <- exts ::
          Names(x, code, block) && var o: nat := Chunk(x, code); o < total && v.to == Target(runs, o))
      && (v == BlockChanged ==> block < blocksCount && exists x <- exts :: Lists(x, code) && !Names(x, code, block))
      && (v == IllegalBlock ==> block >= blocksCount || exists x <- exts ::
          Names(x, code, block) && var o: nat := Chunk(x, code); o < total && Target(runs, o) >= blocksCount)
      && (block >= blocksCount ==> v == IllegalBlock)
      && (v == NoRun ==> exists x <- exts :: Names(x, code, block) && Chunk(x, code) >= total)
      && (v == Abort ==> act == |exts| - 1 && CmpCode(code, LastCode(exts[act])) > 0)
      && (v == Keep ==> act + 1 == |exts| ==> CmpCode(code, LastCode(exts[act])) <= 0)
  {
    hide CmpCode, Target;
    var a := Advance(exts, act, code);
    if a < |exts| {
      assert exts[a] in exts;
    }
  }

  // ----- Any list, whether it fits the walk or not

  /** At step `k` the walk looks at an extent that lists the code it meets. */
  ghost predicate Reached(exts: seq<Extent>, met: seq<Met>, k: nat)
    requires k < |met|
  {
    var a := ActAt(exts, met, k + 1);
    a < |exts| && Lists(exts[a], met[k].code)
  }

  /** The extent looked at names the block met there. */
  ghost predicate RightAt(exts: seq<Extent>, met: seq<Met>, k: nat)
    requires k < |met|
  {
    Reached(exts, met, k) && Names(exts[ActAt(exts, met, k + 1)], met[k].code, met[k].block)
  }

  /** The extent looked at names another block. */
  ghost predicate WrongAt(exts: seq<Extent>, met: seq<Met>, k: nat)
    requires k < |met|
  {
    Reached(exts, met, k) && !Names(exts[ActAt(exts, met, k + 1)], met[k].code, met[k].block)
  }

  ghost predicate NoneWrong(exts: seq<Extent>, met: seq<Met>) {
    forall k | 0 <= k < |met| :: !WrongAt(exts, met, k)
  }

  /** The block met at step `k`, with its own chunk offset. */
  ghost function TakenAt(exts: seq<Extent>, met: seq<Met>, k: nat): Extent
    requires k < |met| && RightAt(exts, met, k)
  {
    var x := exts[ActAt(exts, met, k + 1)];
    Extent(met[k].block, 1, met[k].code, Chunk(x, met[k].code))
  }

  /** The blocks among the first `k` met that the walk is right to change, each as an extent of its own. */
  ghost function Taken(exts: seq<Extent>, met: seq<Met>, k: nat): seq<Extent>
    requires k <= |met|
  {
    if k == 0 then []
    else Taken(exts, met, k - 1) + if RightAt(exts, met, k - 1) then [TakenAt(exts, met, k - 1)] else []
  }

  ghost function TakenAll(exts: seq<Extent>, met: seq<Met>): seq<Extent> {
    Taken(exts, met, |met|)
  }

  lemma {:induction false} TakenMembers(exts: seq<Extent>, met: seq<Met>, k: nat, x: Extent)
    requires k <= |met|
    ensures x in Taken(exts, met, k) <==> exists j: nat :: j < k && RightAt(exts, met, j) && x == TakenAt(exts, met, j)
  {
    hide RightAt, TakenAt;
    if k > 0 {
      TakenMembers(exts, met, k - 1, x);
    }
  }

  lemma TakenIs(exts: seq<Extent>, met: seq<Met>, k: nat, j: nat)
    requires j < k <= |met| && RightAt(exts, met, j)
    ensures TakenAt(exts, met, j) in Taken(exts, met, k)
  {
    TakenMembers(exts, met, k, TakenAt(exts, met, j));
  }

  /** The taken blocks are mapped, and separated by the order of the walk. */
  lemma {:induction false} TakenFit(exts: seq<Extent>, met: seq<Met>, k: nat)
    requires Ascending(met) && k <= |met|
    ensures Mapped(Taken(exts, met, k), met) && Separated(Taken(exts, met, k))
    ensures forall x <- Taken(exts, met, k), j | k <= j < |met| :: Key(LastCode(x)) < Key(met[j].code)
    ensures forall x <- Taken(exts, met, k) :: x.len == 1
  {
    hide Key, RightAt, OffToDepth;
    if k > 0 {
      TakenFit(exts, met, k - 1);
      var t := Taken(exts, met, k - 1);
      if RightAt(exts, met, k - 1) {
        var x := TakenAt(exts, met, k - 1);
        assert x.offset == met[k - 1].code == LastCode(x) && x.block == met[k - 1].block;
        assert met[k - 1] in met && MetAt(met, x, 0);
        forall i, j | 0 <= i < j < |t + [x]| ensures Key(LastCode((t + [x])[i])) < Key((t + [x])[j].offset) {
          assert t[i] in t;
        }
      }
    }
  }

  /** Which codes the taken blocks list, and where they go. */
  lemma TakenListed(exts: seq<Extent>, met: seq<Met>, runs: seq<FreeExtent>, k: nat)
    requires Ascending(met) && k < |met|
    ensures Listed(TakenAll(exts, met), met[k].code) <==> RightAt(exts, met, k)
    ensures RightAt(exts, met, k) ==>
      var o: nat := Chunk(exts[ActAt(exts, met, k + 1)], met[k].code);
      NewPlace(TakenAll(exts, met), runs, met[k].code) == Target(runs, o)
  {
    hide Key, RightAt, OffToDepth, Target, NewPlace, Separated, Mapped, ActAt;
    var t := TakenAll(exts, met);
    TakenFit(exts, met, |met|);
    if Listed(t, met[k].code) {
      var x :| x in t && Lists(x, met[k].code);
      TakenMembers(exts, met, |met|, x);
      var j: nat :| j < |met| && RightAt(exts, met, j) && x == TakenAt(exts, met, j);
      MetSame(met, j, k);
    }
    if RightAt(exts, met, k) {
      var x := TakenAt(exts, met, k);
      TakenIs(exts, met, |met|, k);
      assert Lists(x, met[k].code);
      var a :| 0 <= a < |t| && t[a] == x;
      forall j | 0 <= j < |t| && Lists(t[j], met[k].code) ensures j == a {
        OnlyOne(t, met, a, j, met[k].code);
      }
      PlaceAt(t, runs, met[k].code, a);
    }
  }

  lemma MetSame(met: seq<Met>, j: nat, k: nat)
    requires Ascending(met) && j < |met| && k < |met| && met[j].code == met[k].code
    ensures j == k
  {}

  lemma OnlyOne(t: seq<Extent>, met: seq<Met>, a: nat, j: nat, code: int)
    requires Separated(t) && a < |t| && j < |t| && Lists(t[a], code) && Lists(t[j], code)
    requires t[a].len == 1 && t[j].len == 1
    ensures j == a
  {
    hide Key;
  }

  /** What is decided at a step of the walk, for any list. */
  lemma AnyStep(exts: seq<Extent>, runs: seq<FreeExtent>, total: nat, blocksCount: nat, met: seq<Met>, k: nat)
    requires Ascending(met) && k < |met| && ActAt(exts, met, k) < |exts| && met[k].block < blocksCount
    requires GoodTargets(TakenAll(exts, met), runs, total, blocksCount)
    ensures var v := Decide(exts, runs, total, blocksCount, ActAt(exts, met, k), met[k].code, met[k].block);
      && (WrongAt(exts, met, k) <==> v == BlockChanged)
      && (RightAt(exts, met, k) <==> v.Change?)
      && (v.Change? ==> Listed(TakenAll(exts, met), met[k].code) && v.to == NewPlace(TakenAll(exts, met), runs, met[k].code))
      && (v == Abort <==> ActAt(exts, met, k + 1) == |exts|)
      && (v == BlockChanged || v.Change? || v == Keep || v == Abort)
      && ActAt(exts, met, k + 1) == Advance(exts, ActAt(exts, met, k), met[k].code)
  {
    hide CmpCode, Key, OffToDepth, Target, NewPlace, Ascending;
    TakenListed(exts, met, runs, k);
    if RightAt(exts, met, k) {
      TakenIs(exts, met, |met|, k);
      var o: nat := Chunk(exts[ActAt(exts, met, k + 1)], met[k].code);
      assert TakenAt(exts, met, k).chunkOffset == o;
      assert o < total && Target(runs, o) < blocksCount;
    }
  }

  /** After the walk has stopped it reaches nothing more. */
  lemma {:induction false} StoppedReaches(exts: seq<Extent>, met: seq<Met>, k: nat, j: nat)
    requires k <= j < |met| && ActAt(exts, met, k) == |exts|
    ensures ActAt(exts, met, j) == |exts| && !Reached(exts, met, j)
  {
    if k < j {
      StoppedReaches(exts, met, k, j - 1);
    }
  }

  /** For a list that fits the walk, all listed codes are reached and right. */
  lemma FittingTaken(exts: seq<Extent>, met: seq<Met>, runs: seq<FreeExtent>, k: nat)
    requires Ascending(met) && Separated(exts) && Mapped(exts, met) && k < |met|
    ensures !WrongAt(exts, met, k)
    ensures Listed(TakenAll(exts, met), met[k].code) <==> Listed(exts, met[k].code)
    ensures Listed(exts, met[k].code) ==>
      NewPlace(TakenAll(exts, met), runs, met[k].code) == NewPlace(exts, runs, met[k].code)
  {
    hide Key, CmpCode, OffToDepth, OffToDataOff, Mapped, CodesMet, Separated, Target, NewPlace, Ascending;
    TakenListed(exts, met, runs, k);
    MappedCodes(exts, met);
    ActFollows(exts, met, k);
    ActFollows(exts, met, k + 1);
    var act := ActAt(exts, met, k);
    if act < |exts| {
      AdvanceFollows(exts, met, k, act);
      var a := Advance(exts, act, met[k].code);
      ListedHere(exts, met, k, a);
      if Listed(exts, met[k].code) {
        var x :| x in exts && Lists(x, met[k].code);
        var j :| 0 <= j < |exts| && exts[j] == x;
        PlaceAt(exts, runs, met[k].code, a);
      }
      if a < |exts| && Lists(exts[a], met[k].code) {
        assert exts[a] in exts;
      }
    }
  }

  /**
    Where the codes of the list are met, and its extents do not interleave, every listed code is reached, and it is wrong
    exactly if another block is met there.
   */
  lemma WrongMeans(exts: seq<Extent>, met: seq<Met>, k: nat)
    requires Ascending(met) && Separated(exts) && CodesMet(exts, met) && k < |met|
    ensures Reached(exts, met, k) <==> Listed(exts, met[k].code)
    ensures WrongAt(exts, met, k) <==> exists x <- exts :: Lists(x, met[k].code) && !Names(x, met[k].code, met[k].block)
  {
    hide Key, CmpCode, OffToDepth, OffToDataOff, CodesMet, Separated, Ascending;
    var act := ActAt(exts, met, k);
    ActFollows(exts, met, k);
    if act < |exts| {
      AdvanceFollows(exts, met, k, act);
      ListedOnce(exts, met, k, Advance(exts, act, met[k].code));
    }
    var a := ActAt(exts, met, k + 1);
    assert a < |exts| ==> exts[a] in exts;
    forall x | x in exts && Lists(x, met[k].code) ensures a < |exts| && x == exts[a] {
      assert Listed(exts, met[k].code);
      var j :| 0 <= j < |exts| && exts[j] == x;
    }
  }

  /** In such a walk nothing is wrong exactly if the list names the blocks that are met. */
  lemma NoneWrongIff(exts: seq<Extent>, met: seq<Met>)
    requires Ascending(met) && Separated(exts) && CodesMet(exts, met)
    ensures NoneWrong(exts, met) <==> Mapped(exts, met)
  {
    hide Key, WrongAt, Ascending, Separated;
    if Mapped(exts, met) {
      forall k | 0 <= k < |met| ensures !WrongAt(exts, met, k) {
        WrongMeans(exts, met, k);
        forall x | x in exts && Lists(x, met[k].code) ensures Names(x, met[k].code, met[k].block) {
          var n := met[k].code - x.offset;
          assert MetAt(met, x, n);
          MetOnce(met, k, Met(x.offset + n, x.block + n));
        }
      }
    }
    if NoneWrong(exts, met) {
      forall x, n: nat | x in exts && n < x.len ensures MetAt(met, x, n) {
        assert CodeMet(met, x, n);
        var k :| 0 <= k < |met| && met[k].code == x.offset + n;
        WrongMeans(exts, met, k);
        assert Lists(x, met[k].code) && Names(x, met[k].code, met[k].block);
      }
    }
  }

  /** The extent that a taken block comes from, and its chunk offset there. */
  lemma TakenFrom(exts: seq<Extent>, met: seq<Met>, t: Extent) returns (k: nat, x: Extent)
    requires t in TakenAll(exts, met)
    ensures k < |met| && RightAt(exts, met, k) && t == TakenAt(exts, met, k)
    ensures x in exts && x == exts[ActAt(exts, met, k + 1)] && Names(x, met[k].code, met[k].block)
    ensures t == Extent(met[k].block, 1, met[k].code, Chunk(x, met[k].code))
  {
    hide ActAt;
    TakenMembers(exts, met, |met|, t);
    k :| k < |met| && RightAt(exts, met, k) && t == TakenAt(exts, met, k);
    x := exts[ActAt(exts, met, k + 1)];
  }

  lemma TakenTarget(exts: seq<Extent>, met: seq<Met>, runs: seq<FreeExtent>, total: nat, blocksCount: nat, t: Extent,
                    o: nat)
    requires GoodTargets(exts, runs, total, blocksCount)
    requires t in TakenAll(exts, met) && t.chunkOffset <= o < t.chunkOffset + t.len
    ensures Target(runs, o) < blocksCount && o < total
  {
    hide ActAt, TakenAll, RightAt;
    var k, x := TakenFrom(exts, met, t);
    assert o == Chunk(x, met[k].code);
    assert x in exts && x.chunkOffset <= o < x.chunkOffset + x.len;
  }

  lemma TargetsIf(exts: seq<Extent>, runs: seq<FreeExtent>, total: nat, blocksCount: nat)
    requires forall x: Extent, o: nat | x in exts && x.chunkOffset <= o < x.chunkOffset + x.len ::
      Target(runs, o) < blocksCount && o < total
    ensures GoodTargets(exts, runs, total, blocksCount)
  {}

  lemma TakenTargets(exts: seq<Extent>, met: seq<Met>, runs: seq<FreeExtent>, total: nat, blocksCount: nat)
    requires GoodTargets(exts, runs, total, blocksCount)
    ensures GoodTargets(TakenAll(exts, met), runs, total, blocksCount)
  {
    hide TakenAll;
    forall x: Extent, o: nat | x in TakenAll(exts, met) && x.chunkOffset <= o < x.chunkOffset + x.len
      ensures Target(runs, o) < blocksCount && o < total
    {
      TakenTarget(exts, met, runs, total, blocksCount, x, o);
    }
    TargetsIf(TakenAll(exts, met), runs, total, blocksCount);
  }
}
