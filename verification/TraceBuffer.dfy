/** The lock-protected trace buffer of the kernel: appending, clearing, markers, and fetching between markers. */
module TraceBuffer {
  import opened Arithmetic

  /** A traced range of pages of a file. */
  datatype Record = Record(device: nat, inode: nat, rangeStart: nat, rangeLength: nat)

  /** A place in the trace: a byte position and the generation of the buffer. */
  datatype Marker = Marker(position: nat, generation: nat)

  /**
    The trace as its lock protects it. `content` holds the records in the used part of the buffer; `size` is 0 while
    there is no buffer. A record takes `recordSize` bytes.
   */
  datatype Trace = Trace(recordSize: nat, size: nat, content: seq<Record>, overflow: bool, reported: bool, generation: nat) {
    function Used(): nat {
      |content| * recordSize
    }

    function Here(): Marker {
      Marker(Used(), generation)
    }
  }

  /** What a locked section does to the trace. A clearing that had to allocate the buffer brings its size along. */
  datatype Event = Add(record: Record) | Clear(newSize: nat) | Report

  /** A record is dropped when it would reach the end of the buffer. */
  predicate Fits(t: Trace) {
    t.Used() + t.recordSize < t.size
  }

  function Step(t: Trace, e: Event): Trace {
    match e
    case Add(r) => if Fits(t) then t.(content := t.content + [r]) else t.(overflow := true)
    case Clear(n) =>
      if t.size == 0 && n == 0 then t
      else Trace(t.recordSize, if t.size == 0 then n else t.size, [], false, false, t.generation + 1)
    case Report => if t.overflow then t.(reported := true) else t
  }

  /** Errors as the program returns them. */
  datatype Fetched = Fragment(records: seq<Record>) | Invalid | OutOfRange | NotFound | Bug

  function PositionInBuffer(t: Trace, m: Marker): int {
    if m.generation != t.generation then -22 else if t.Used() < m.position then -28 else m.position
  }

  /** What fetching the trace between two markers gives. */
  function Fetch(t: Trace, a: Marker, b: Marker): Fetched
    requires t.recordSize > 0
  {
    if a.generation != b.generation then Invalid
    else if b.position < a.position then OutOfRange
    else if b.position == a.position then Fragment([])
    else
      var s, e := PositionInBuffer(t, a), PositionInBuffer(t, b);
      if s < 0 || e < 0 then NotFound
      else if e - s <= 0 || e - s != b.position - a.position then Bug
      else Fragment(Between(t, s, e))
  }

  /** The records at the byte positions from `s` up to `e`. */
  function Between(t: Trace, s: nat, e: nat): seq<Record>
    requires t.recordSize > 0 && s <= e <= t.Used()
  {
    DivBounds(s, e, |t.content|, t.recordSize);
    t.content[s / t.recordSize..e / t.recordSize]
  }

  lemma DivBounds(s: nat, e: nat, n: nat, d: nat)
    requires d > 0 && s <= e <= n * d
    ensures s / d <= e / d <= n
  {
    var q, r := s / d, e / d;
    assert s == q * d + s % d && e == r * d + e % d;
    if r < q {
      MulMono(r + 1, q, d);
    }
    if n < r {
      MulMono(n + 1, r, d);
    }
  }

  lemma MulDiv(n: nat, d: nat)
    requires d > 0
    ensures n * d / d == n
  {
    var q := n * d / d;
    assert n * d == q * d + n * d % d;
    if q < n {
      MulMono(q + 1, n, d);
    } else if n < q {
      MulMono(n + 1, q, d);
    }
  }

  // ----- Every interleaving of the locked sections

  function After(t: Trace, es: seq<Event>): Trace {
    if es == [] then t else Step(After(t, es[..|es| - 1]), es[|es| - 1])
  }

  /** The state after the first `i` events. */
  function At(t: Trace, es: seq<Event>, i: nat): Trace
    requires i <= |es|
  {
    After(t, es[..i])
  }

  /** The records stored by the events from `i` up to `j`. */
  function Stored(t: Trace, es: seq<Event>, i: nat, j: nat): seq<Record>
    requires i <= j <= |es|
  {
    if i == j then []
    else Stored(t, es, i, j - 1) + if es[j - 1].Add? && Fits(At(t, es, j - 1)) then [es[j - 1].record] else []
  }

  /** The clearings among the events from `i` up to `j` that took effect. */
  function Clearings(t: Trace, es: seq<Event>, i: nat, j: nat): nat
    requires i <= j <= |es|
  {
    if i == j then 0
    else
      Clearings(t, es, i, j - 1) +
      if es[j - 1].Clear? && !(At(t, es, j - 1).size == 0 && es[j - 1].newSize == 0) then 1 else 0
  }

  lemma AtNext(t: Trace, es: seq<Event>, i: nat)
    requires i < |es|
    ensures At(t, es, i + 1) == Step(At(t, es, i), es[i])
  {
    assert es[..i + 1][..i] == es[..i];
  }

  lemma {:induction false} SameRecordSize(t: Trace, es: seq<Event>, i: nat)
    requires i <= |es|
    ensures At(t, es, i).recordSize == t.recordSize
  {
    if i > 0 {
      SameRecordSize(t, es, i - 1);
      AtNext(t, es, i - 1);
    } else {
      assert es[..0] == [];
    }
  }

  /** The generation counts the clearings, and between clearings the buffer only grows by what is stored. */
  lemma {:induction false} Grows(t: Trace, es: seq<Event>, i: nat, j: nat)
    requires i <= j <= |es|
    ensures At(t, es, j).generation == At(t, es, i).generation + Clearings(t, es, i, j)
    ensures Clearings(t, es, i, j) == 0 ==> At(t, es, j).content == At(t, es, i).content + Stored(t, es, i, j)
  {
    hide At, Stored, Clearings, Fits;
    if i < j {
      Grows(t, es, i, j - 1);
      AtNext(t, es, j - 1);
      CountNext(t, es, i, j - 1);
      var a, b := At(t, es, i).content, Stored(t, es, i, j - 1);
      assert a + (b + []) == a + b;
      if es[j - 1].Add? {
        assert a + (b + [es[j - 1].record]) == a + b + [es[j - 1].record];
      }
    } else {
      CountNone(t, es, i);
      assert At(t, es, i).content == At(t, es, i).content + [];
    }
  }

  lemma CountNone(t: Trace, es: seq<Event>, i: nat)
    requires i <= |es|
    ensures Stored(t, es, i, i) == [] && Clearings(t, es, i, i) == 0
  {}

  lemma CountNext(t: Trace, es: seq<Event>, i: nat, j: nat)
    requires i <= j < |es|
    ensures Stored(t, es, i, j + 1) ==
      Stored(t, es, i, j) + if es[j].Add? && Fits(At(t, es, j)) then [es[j].record] else []
    ensures Clearings(t, es, i, j + 1) ==
      Clearings(t, es, i, j) + if es[j].Clear? && !(At(t, es, j).size == 0 && es[j].newSize == 0) then 1 else 0
  {}

  lemma {:induction false} SplitClearings(t: Trace, es: seq<Event>, i: nat, j: nat, k: nat)
    requires i <= j <= k <= |es|
    ensures Clearings(t, es, i, k) == Clearings(t, es, i, j) + Clearings(t, es, j, k)
  {
    if j < k {
      SplitClearings(t, es, i, j, k - 1);
    }
  }

  lemma LengthMul(a: seq<Record>, b: seq<Record>, d: nat)
    ensures |a + b| * d == |a| * d + |b| * d
  {}

  lemma FetchSlice(t: Trace, a: seq<Record>, b: seq<Record>, c: seq<Record>)
    requires t.recordSize > 0 && t.content == a + b + c && b != []
    ensures Fetch(t, Marker(|a| * t.recordSize, t.generation), Marker(|a + b| * t.recordSize, t.generation)) == Fragment(b)
  {
    var d := t.recordSize;
    LengthMul(a, b, d);
    LengthMul(a + b, c, d);
    MulMono(1, |b|, d);
    MulDiv(|a|, d);
    MulDiv(|a + b|, d);
    assert (a + b + c)[|a|..|a + b|] == b;
  }

  /**
    A fetch with two markers taken at `i` and later at `j`, done later still at `k`: it gives exactly what was stored
    between the markers, unless the buffer was cleared. Then it fails, except that it never fails for an empty fragment
    whose markers have no clearing between them.
   */
  lemma FetchBetween(t: Trace, es: seq<Event>, i: nat, j: nat, k: nat)
    requires t.recordSize > 0 && i <= j <= k <= |es|
    ensures At(t, es, k).recordSize > 0
    ensures Fetch(At(t, es, k), At(t, es, i).Here(), At(t, es, j).Here()) ==
      if Clearings(t, es, i, j) > 0 then Invalid
      else if Stored(t, es, i, j) == [] then Fragment([])
      else if Clearings(t, es, j, k) > 0 then NotFound
      else Fragment(Stored(t, es, i, j))
  {
    hide At, Step, Between;
    SameRecordSize(t, es, i);
    SameRecordSize(t, es, j);
    SameRecordSize(t, es, k);
    Grows(t, es, i, j);
    Grows(t, es, j, k);
    var d := t.recordSize;
    var a, b, c := At(t, es, i).content, Stored(t, es, i, j), Stored(t, es, j, k);
    if Clearings(t, es, i, j) == 0 {
      LengthMul(a, b, d);
      if b != [] {
        MulMono(1, |b|, d);
        if Clearings(t, es, j, k) == 0 {
          FetchSlice(At(t, es, k), a, b, c);
        }
      }
    }
  }

  /** The consistency check of the fetch never fails, whatever the markers are. */
  lemma NoBug(t: Trace, a: Marker, b: Marker)
    requires t.recordSize > 0
    ensures Fetch(t, a, b) != Bug
  {}

  /** A marker taken earlier in the same generation is within the buffer, and one of an older generation is not found. */
  lemma MarkerStays(t: Trace, es: seq<Event>, i: nat, k: nat)
    requires t.recordSize > 0 && i <= k <= |es|
    ensures var m := At(t, es, i).Here();
      if Clearings(t, es, i, k) == 0 then PositionInBuffer(At(t, es, k), m) == m.position <= At(t, es, k).Used()
      else PositionInBuffer(At(t, es, k), m) < 0
  {
    hide At;
    SameRecordSize(t, es, i);
    SameRecordSize(t, es, k);
    Grows(t, es, i, k);
    if Clearings(t, es, i, k) == 0 {
      LengthMul(At(t, es, i).content, Stored(t, es, i, k), t.recordSize);
    }
  }

  // ----- Old markers

  /** The marker stands before the `q`-th record of the buffer. */
  ghost predicate StandsAt(t: Trace, m: Marker, q: nat) {
    m.generation == t.generation && q <= |t.content| && m.position == q * t.recordSize
  }

  /** The marker has been taken earlier, in this generation or in an older one. */
  ghost predicate PastMarker(t: Trace, m: Marker) {
    m.generation < t.generation || exists q: nat :: StandsAt(t, m, q)
  }

  lemma HereStands(t: Trace)
    ensures StandsAt(t, t.Here(), |t.content|) && PastMarker(t, t.Here())
  {
    assert StandsAt(t, t.Here(), |t.content|);
  }

  /** The marker that a client has before it ever starts. */
  lemma ZeroIsPast(t: Trace)
    ensures PastMarker(t, Marker(0, 0))
  {
    assert t.generation == 0 ==> StandsAt(t, Marker(0, 0), 0);
  }

  lemma PastStays(t: Trace, e: Event, m: Marker)
    requires PastMarker(t, m)
    ensures PastMarker(Step(t, e), m)
  {
    if m.generation == t.generation {
      var q: nat :| StandsAt(t, m, q);
      assert e.Clear? || StandsAt(Step(t, e), m, q);
      assert Step(t, e) == t || Step(t, e).generation > t.generation || StandsAt(Step(t, e), m, q);
    }
  }

  lemma {:induction false} PastAfter(t: Trace, es: seq<Event>, m: Marker)
    requires PastMarker(t, m)
    ensures PastMarker(After(t, es), m)
  {
    hide PastMarker, Step;
    if es != [] {
      PastAfter(t, es[..|es| - 1], m);
      PastStays(After(t, es[..|es| - 1]), es[|es| - 1], m);
    }
  }

  /** The records behind a marker of the current generation. */
  function Behind(t: Trace, m: Marker): seq<Record>
    requires t.recordSize > 0
  {
    if m.position / t.recordSize <= |t.content| then t.content[m.position / t.recordSize..] else []
  }

  lemma BehindAt(t: Trace, m: Marker, q: nat)
    requires t.recordSize > 0 && StandsAt(t, m, q)
    ensures Behind(t, m) == t.content[q..]
  {
    MulDiv(q, t.recordSize);
  }

  /** Nothing is behind a marker exactly if it is the current place. */
  lemma BehindNone(t: Trace, m: Marker)
    requires t.recordSize > 0 && PastMarker(t, m) && m.generation == t.generation
    ensures Behind(t, m) == [] <==> m == t.Here()
  {
    var q: nat :| StandsAt(t, m, q);
    BehindAt(t, m, q);
    assert |t.content[q..]| == |t.content| - q;
    if m == t.Here() {
      MulDiv(|t.content|, t.recordSize);
      MulDiv(q, t.recordSize);
    }
  }

  /** What is fetched from an old marker up to now: everything behind it, or an error if it is of an older generation. */
  lemma FetchFromPast(t: Trace, m: Marker)
    requires t.recordSize > 0 && PastMarker(t, m)
    ensures Fetch(t, m, t.Here()) == if m.generation != t.generation then Invalid else Fragment(Behind(t, m))
  {
    hide Fetch;
    if m.generation == t.generation {
      var q: nat :| StandsAt(t, m, q);
      BehindAt(t, m, q);
      var a, b := t.content[..q], t.content[q..];
      assert t.content == a + b + [] && t.content == a + b;
      if b == [] {
        EmptyFetch(t, m);
      } else {
        FetchSlice(t, a, b, []);
      }
    } else {
      OtherGeneration(t, m);
    }
  }

  lemma EmptyFetch(t: Trace, m: Marker)
    requires t.recordSize > 0
    ensures Fetch(t, m, m) == Fragment([])
  {}

  lemma OtherGeneration(t: Trace, m: Marker)
    requires t.recordSize > 0 && m.generation != t.generation
    ensures Fetch(t, m, t.Here()) == Invalid
  {}

  // ----- What fits

  /** The records that a buffer takes before it overflows: the last place always stays empty. */
  function Capacity(t: Trace): nat
    requires t.recordSize > 0
  {
    if t.size == 0 then 0 else (t.size - 1) / t.recordSize
  }

  lemma FitsIff(t: Trace)
    requires t.recordSize > 0
    ensures Fits(t) <==> |t.content| < Capacity(t)
  {
    hide Capacity;
    var d, n, c := t.recordSize, |t.content|, Capacity(t);
    CapacityBounds(t);
    MulNext(n, d);
    if t.size > 0 {
      if n < c {
        MulMono(n + 1, c, d);
      } else {
        MulMono(c + 1, n + 1, d);
      }
    }
  }

  lemma CapacityBounds(t: Trace)
    requires t.recordSize > 0
    ensures if t.size == 0 then Capacity(t) == 0
      else Capacity(t) * t.recordSize < t.size <= (Capacity(t) + 1) * t.recordSize
  {
    if t.size > 0 {
      DivStep(t.size - 1, t.recordSize);
    }
  }

  lemma DivStep(a: nat, d: nat)
    requires d > 0
    ensures a / d * d <= a < (a / d + 1) * d
  {
    assert (a / d + 1) * d == a / d * d + d;
  }

  lemma MulNext(n: nat, d: nat)
    ensures (n + 1) * d == n * d + d
  {}

  function Adds(rs: seq<Record>): seq<Event> {
    if rs == [] then [] else Adds(rs[..|rs| - 1]) + [Add(rs[|rs| - 1])]
  }

  /** An empty buffer takes the first records up to its capacity; it has overflowed if and only if there were more. */
  lemma {:induction false} FirstRecordsKept(t: Trace, rs: seq<Record>)
    requires t.recordSize > 0 && t.content == [] && !t.overflow
    ensures var u := After(t, Adds(rs));
      && u.size == t.size && u.recordSize == t.recordSize
      && u.content == rs[..if |rs| <= Capacity(t) then |rs| else Capacity(t)]
      && (u.overflow <==> |rs| > Capacity(t))
  {
    hide Capacity, Fits;
    if rs != [] {
      var n := |rs| - 1;
      FirstRecordsKept(t, rs[..n]);
      var u := After(t, Adds(rs[..n]));
      assert Adds(rs)[..|Adds(rs)| - 1] == Adds(rs[..n]);
      FitsIff(u);
      SameCapacity(t, u);
      if n < Capacity(t) {
        assert rs[..n] + [rs[n]] == rs;
      }
    }
  }

  lemma SameCapacity(t: Trace, u: Trace)
    requires t.recordSize > 0 && u.recordSize == t.recordSize && u.size == t.size
    ensures Capacity(u) == Capacity(t)
  {}

  // ----- What is remembered of an overflow

  /** The record of event `m` did not fit, and nothing has been cleared since. */
  ghost predicate DroppedSince(t: Trace, es: seq<Event>, m: nat, k: nat) {
    m < k <= |es| && es[m].Add? && !Fits(At(t, es, m)) && Clearings(t, es, m, k) == 0
  }

  /** Event `m` asked whether an overflow has to be reported when there was one, and nothing has been cleared since. */
  ghost predicate ReportedSince(t: Trace, es: seq<Event>, m: nat, k: nat) {
    m < k <= |es| && es[m].Report? && At(t, es, m).overflow && Clearings(t, es, m, k) == 0
  }

  /** The clearing takes effect. */
  predicate Clears(t: Trace, e: Event) {
    e.Clear? && !(t.size == 0 && e.newSize == 0)
  }

  lemma OneClearing(t: Trace, es: seq<Event>, m: nat, k: nat)
    requires m <= k < |es|
    ensures Clearings(t, es, m, k + 1) == Clearings(t, es, m, k) + if Clears(At(t, es, k), es[k]) then 1 else 0
    ensures Clearings(t, es, k, k) == 0
  {
    hide At;
  }

  lemma DroppedNext(t: Trace, es: seq<Event>, j: nat, k: nat)
    requires k == j + 1 <= |es|
    ensures (exists m: nat :: DroppedSince(t, es, m, k)) <==>
      (es[j].Add? && !Fits(At(t, es, j))) || ((exists m: nat :: DroppedSince(t, es, m, j)) && !Clears(At(t, es, j), es[j]))
  {
    hide At, Clearings, Fits;
    OneClearing(t, es, j, j);
    forall m: nat
      ensures DroppedSince(t, es, m, k) <==>
        if m == j then es[j].Add? && !Fits(At(t, es, j)) else DroppedSince(t, es, m, j) && !Clears(At(t, es, j), es[j])
    {
      if m < j {
        OneClearing(t, es, m, j);
      }
    }
    assert DroppedSince(t, es, j, k) <==> es[j].Add? && !Fits(At(t, es, j));
  }

  lemma ReportedNext(t: Trace, es: seq<Event>, j: nat, k: nat)
    requires k == j + 1 <= |es|
    ensures (exists m: nat :: ReportedSince(t, es, m, k)) <==>
      (es[j].Report? && At(t, es, j).overflow) || ((exists m: nat :: ReportedSince(t, es, m, j)) && !Clears(At(t, es, j), es[j]))
  {
    hide At, Clearings;
    OneClearing(t, es, j, j);
    forall m: nat
      ensures ReportedSince(t, es, m, k) <==>
        if m == j then es[j].Report? && At(t, es, j).overflow else ReportedSince(t, es, m, j) && !Clears(At(t, es, j), es[j])
    {
      if m < j {
        OneClearing(t, es, m, j);
      }
    }
    assert ReportedSince(t, es, j, k) <==> es[j].Report? && At(t, es, j).overflow;
  }

  /**
    The buffer is marked as overflowed exactly if a record has been dropped since the last clearing, and this is marked
    as reported exactly if it has been asked for since then.
   */
  lemma {:induction false} FlagsMean(t: Trace, es: seq<Event>, k: nat)
    requires k <= |es| && !t.overflow && !t.reported
    ensures At(t, es, k).overflow <==> exists m: nat :: DroppedSince(t, es, m, k)
    ensures At(t, es, k).reported <==> exists m: nat :: ReportedSince(t, es, m, k)
  {
    AtNone(t, es);
    if k > 0 {
      FlagsMean(t, es, k - 1);
      AtNext(t, es, k - 1);
      DroppedNext(t, es, k - 1, k);
      ReportedNext(t, es, k - 1, k);
    }
  }

  lemma AtNone(t: Trace, es: seq<Event>)
    ensures At(t, es, 0) == t
  {
    assert es[..0] == [];
  }

  /** An overflow is reported once: between two reports there is a clearing. */
  lemma ReportedOnce(t: Trace, es: seq<Event>, i: nat, j: nat)
    requires i < j < |es| && !t.overflow && !t.reported && es[i].Report? && es[j].Report?
    requires At(t, es, i).overflow && At(t, es, j).overflow && !At(t, es, j).reported
    ensures Clearings(t, es, i, j) > 0
  {
    hide At, Clearings;
    FlagsMean(t, es, j);
    assert ReportedSince(t, es, i, j) <==> Clearings(t, es, i, j) == 0;
  }

  /** The first clearing that brings memory along makes the buffer. */
  ghost predicate MakesBuffer(es: seq<Event>, m: nat) {
    m < |es| && es[m].Clear? && es[m].newSize > 0 && forall i: nat | i < m :: !(es[i].Clear? && es[i].newSize > 0)
  }

  /** The buffer is made once, and then keeps its size. */
  lemma {:induction false} SizeMeans(t: Trace, es: seq<Event>, k: nat)
    requires k <= |es|
    ensures t.size > 0 ==> At(t, es, k).size == t.size
    ensures t.size == 0 ==> forall m: nat | MakesBuffer(es, m) :: At(t, es, k).size == if m < k then es[m].newSize else 0
    ensures t.size == 0 && (forall m | 0 <= m < k :: !(es[m].Clear? && es[m].newSize > 0)) ==> At(t, es, k).size == 0
  {
    AtNone(t, es);
    if k > 0 {
      SizeMeans(t, es, k - 1);
      AtNext(t, es, k - 1);
    }
  }

  // ----- The program

  class PrefetchTrace {
    const recordSize: nat
    var buffer: array?<Record>
    var bufferSize: nat
    var bufferUsed: nat
    var overflow: bool
    var overflowReported: bool
    var generation: nat
    ghost var count: nat

    constructor (recordSize: nat)
      requires recordSize > 0
      ensures Valid() && State() == Trace(recordSize, 0, [], false, false, 0)
    {
      this.recordSize := recordSize;
      buffer, bufferSize, bufferUsed, overflow, overflowReported, generation, count := null, 0, 0, false, false, 0, 0;
    }

    ghost predicate Valid()
      reads this
    {
      && recordSize > 0 && bufferUsed == count * recordSize
      && (buffer == null ==> bufferSize == 0 && count == 0)
      && (buffer != null ==> bufferSize > 0 && count <= buffer.Length == bufferSize / recordSize)
    }

    ghost function State(): Trace
      requires Valid()
      reads this, buffer
    {
      Trace(recordSize, bufferSize, if buffer == null then [] else buffer[..count], overflow, overflowReported, generation)
    }

    /** Adds a record. */
    method Add(r: Record)
      requires Valid()
      modifies `overflow, `bufferUsed, `count, buffer
      ensures Valid() && buffer == old(buffer) && State() == Step(old(State()), Event.Add(r))
    {
      if bufferUsed + recordSize >= bufferSize {
        overflow := true;
        return;
      }
      PlaceFor(count, recordSize, bufferSize);
      buffer[bufferUsed / recordSize] := r;
      bufferUsed := bufferUsed + recordSize;
      count := count + 1;
    }

    /** The current place in the trace. */
    method GetTraceMarker() returns (m: Marker)
      requires Valid()
      ensures m == State().Here()
    {
      m := Marker(bufferUsed, generation);
    }

    /** The locked part of clearing the trace; `newSize` is the size of a buffer allocated for it, 0 if there is none. */
    method ClearLocked(newSize: nat)
      requires Valid()
      modifies this
      ensures Valid() && (buffer == old(buffer) || fresh(buffer)) && State() == Step(old(State()), Clear(newSize))
    {
      if buffer == null {
        if newSize == 0 {
          return;
        }
        buffer := new Record[newSize / recordSize];
        bufferSize := newSize;
      }
      bufferUsed, count := 0, 0;
      overflow, overflowReported := false, false;
      generation := generation + 1;
    }

    /** What other threads do to the trace while this one does not hold the lock. */
    method Interfere(es: seq<Event>)
      requires Valid()
      modifies this, buffer
      ensures Valid() && (buffer == old(buffer) || fresh(buffer)) && State() == After(old(State()), es)
    {
      var i := 0;
      ghost var t := State();
      assert es[..0] == [];
      while i < |es|
        invariant i <= |es| && Valid() && (buffer == old(buffer) || fresh(buffer))
        invariant State() == After(t, es[..i])
      {
        assert es[..i + 1][..i] == es[..i];
        match es[i] {
          case Add(r) => Add(r);
          case Clear(n) => ClearLocked(n);
          case Report => var reported := ReportOverflow();
        }
        i := i + 1;
      }
      assert es[..i] == es;
    }

    /** Clears the trace. A missing buffer is allocated without the lock, while `between` may happen. */
    method ClearTrace(size: nat, gotMemory: bool, between: seq<Event>)
      requires Valid() && size > 0
      modifies this, buffer
      ensures Valid() && (buffer == old(buffer) || fresh(buffer))
      ensures var t := old(State());
        State() ==
          if t.size > 0 then Step(t, Clear(0))
          else if gotMemory then Step(After(t, between), Clear(size))
          else After(t, between)
    {
      if buffer == null {
        Interfere(between);
        if !gotMemory {
          return;
        }
        ClearLocked(size);
      } else {
        ClearLocked(0);
      }
    }

    /** Whether an overflow has to be reported now. */
    method ReportOverflow() returns (report: bool)
      requires Valid()
      modifies `overflowReported
      ensures Valid() && State() == Step(old(State()), Report)
      ensures report <==> old(overflow && !overflowReported)
    {
      report := false;
      if overflow && !overflowReported {
        overflowReported := true;
        report := true;
      }
    }

    /** Fetches the trace between two markers. */
    method GetPrefetchTraceFragment(start: Marker, end: Marker) returns (r: Fetched)
      requires Valid()
      ensures r == Fetch(State(), start, end)
    {
      if start.generation != end.generation {
        return Invalid;
      }
      if end.position < start.position {
        return OutOfRange;
      }
      var fragmentSize := end.position - start.position;
      if fragmentSize == 0 {
        return Fragment([]);
      }
      var startPosition := TraceMarkerPositionInBuffer(start);
      var endPosition := TraceMarkerPositionInBuffer(end);
      if startPosition < 0 || endPosition < 0 {
        return NotFound;
      }
      var len := endPosition - startPosition;
      if len <= 0 || len != fragmentSize {
        return Bug;
      }
      DivBounds(startPosition, endPosition, count, recordSize);
      assert buffer != null;
      var i, n := startPosition / recordSize, endPosition / recordSize;
      r := Fragment(buffer[i..n]);
      assert buffer[i..n] == buffer[..count][i..n];
    }

    method TraceMarkerPositionInBuffer(m: Marker) returns (p: int)
      requires Valid()
      ensures p == PositionInBuffer(State(), m)
    {
      if m.generation != generation {
        return -22;
      }
      if bufferUsed < m.position {
        return -28;
      }
      p := m.position;
    }
  }

  /** There is a place in the buffer for one more record that does not reach its end. */
  lemma PlaceFor(count: nat, d: nat, size: nat)
    requires d > 0 && count * d + d < size
    ensures count * d / d == count < size / d
  {
    MulDiv(count, d);
    var q := size / d;
    assert size == q * d + size % d;
    if q <= count {
      MulMono(q, count, d);
    }
  }
}
