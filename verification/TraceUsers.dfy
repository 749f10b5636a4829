/** Who may still use the trace, and whose start marker is where its client started. */
module TraceUsers {
  import opened TraceBuffer

  /** A client is a tracer until it stops, and a user from being counted until it releases the trace. */
  datatype Phase = Idle | Starting | Using | Stopped

  datatype Client = Client(phase: Phase, marker: Marker)

  datatype Kind = Tracer | User

  predicate Is(c: Client, kind: Kind) {
    match kind
    case Tracer => c.phase == Starting || c.phase == Using
    case User => c.phase == Using || c.phase == Stopped
  }

  /** The clients, the counters of tracers and users, and the trace. */
  datatype Sys = Sys(clients: seq<Client>, tracers: int, users: int, trace: Trace)

  /**
    A step of one of the clients, or of anyone who adds to the trace or reports its overflow. A release may find that
    there is no buffer and allocate one; its size is 0 if that fails.
   */
  datatype Act = Begin(c: nat) | Count(c: nat) | End(c: nat) | Release(c: nat, newSize: nat) | Other(event: Event)

  /** Each client starts, is counted, stops and releases, in this order. */
  predicate Legal(s: Sys, a: Act) {
    match a
    case Begin(c) => c < |s.clients| && s.clients[c].phase == Idle
    case Count(c) => c < |s.clients| && s.clients[c].phase == Starting
    case End(c) => c < |s.clients| && s.clients[c].phase == Using
    case Release(c, _) => c < |s.clients| && s.clients[c].phase == Stopped
    case Other(e) => !e.Clear?
  }

  function SetPhase(s: Sys, c: nat, phase: Phase): Sys
    requires c < |s.clients|
  {
    s.(clients := s.clients[c := s.clients[c].(phase := phase)])
  }

  /** Only the first tracer gets a start marker; any other keeps what its marker was. */
  function Next(s: Sys, a: Act): Sys
    requires Legal(s, a)
  {
    match a
    case Begin(c) =>
      var t := s.(tracers := s.tracers + 1);
      var m := if t.tracers == 1 then s.trace.Here() else s.clients[c].marker;
      t.(clients := s.clients[c := Client(Starting, m)])
    case Count(c) => SetPhase(s, c, Using).(users := s.users + 1)
    case End(c) => SetPhase(s, c, Stopped).(tracers := s.tracers - 1)
    case Release(c, newSize) =>
      var t := SetPhase(s, c, Idle).(users := s.users - 1);
      if t.users == 0 then t.(trace := Step(t.trace, Clear(newSize))) else t
    case Other(e) => s.(trace := Step(s.trace, e))
  }

  /** A run: the states it goes through. */
  ghost predicate Run(states: seq<Sys>, acts: seq<Act>) {
    && |states| == |acts| + 1
    && forall k | 0 <= k < |acts| :: Legal(states[k], acts[k]) && states[k + 1] == Next(states[k], acts[k])
  }

  function Tally(clients: seq<Client>, kind: Kind): nat {
    if clients == [] then 0
    else Tally(clients[..|clients| - 1], kind) + if Is(clients[|clients| - 1], kind) then 1 else 0
  }

  ghost predicate Counted(s: Sys) {
    s.tracers == Tally(s.clients, Tracer) && s.users == Tally(s.clients, User)
  }

  lemma {:induction false} TallyChange(clients: seq<Client>, c: nat, x: Client, kind: Kind)
    requires c < |clients|
    ensures Tally(clients[c := x], kind) ==
      Tally(clients, kind) + (if Is(x, kind) then 1 else 0) - (if Is(clients[c], kind) then 1 else 0)
  {
    var n := |clients| - 1;
    if c < n {
      TallyChange(clients[..n], c, x, kind);
      assert clients[c := x][..n] == clients[..n][c := x];
    } else {
      assert clients[c := x][..n] == clients[..n];
    }
  }

  /** Nobody is counted exactly if there is nobody to be counted. */
  lemma {:induction false} TallyNone(clients: seq<Client>, kind: Kind)
    ensures Tally(clients, kind) == 0 <==> forall d | 0 <= d < |clients| :: !Is(clients[d], kind)
  {
    if clients != [] {
      TallyNone(clients[..|clients| - 1], kind);
    }
  }

  lemma CountKept(s: Sys, a: Act)
    requires Legal(s, a) && Counted(s)
    ensures Counted(Next(s, a)) && |Next(s, a).clients| == |s.clients|
  {
    if !a.Other? {
      var x := Next(s, a).clients[a.c];
      TallyChange(s.clients, a.c, x, Tracer);
      TallyChange(s.clients, a.c, x, User);
    }
  }

  lemma {:induction false} AlwaysCounted(states: seq<Sys>, acts: seq<Act>, k: nat)
    requires Run(states, acts) && Counted(states[0]) && k < |states|
    ensures Counted(states[k]) && |states[k].clients| == |states[0].clients|
  {
    hide Next, Legal;
    if k > 0 {
      AlwaysCounted(states, acts, k - 1);
      CountKept(states[k - 1], acts[k - 1]);
    }
  }

  /** The trace of the later state continues that of the earlier one. */
  ghost predicate Extends(t: Trace, u: Trace) {
    u.generation == t.generation && u.recordSize == t.recordSize && t.content <= u.content
  }

  // ----- When the trace behind a place survives

  /** The last user releases the trace, and there is a buffer that is cleared or a new one. */
  predicate LastReleases(s: Sys, a: Act) {
    a.Release? && Tally(s.clients, User) == 1 && (s.trace.size > 0 || a.newSize > 0)
  }

  ghost predicate NoLastRelease(states: seq<Sys>, acts: seq<Act>, i: nat, j: nat)
    requires Run(states, acts) && j < |states|
  {
    forall m | i <= m < j :: !LastReleases(states[m], acts[m])
  }

  lemma OneAct(s: Sys, a: Act)
    requires Legal(s, a) && Counted(s)
    ensures var t := Next(s, a).trace;
      if LastReleases(s, a) then t.generation == s.trace.generation + 1 else Extends(s.trace, t)
  {}

  /** Either the trace only grows from one state to a later one, or it is of a later generation there. */
  lemma {:induction false} GrowsOrRestarts(states: seq<Sys>, acts: seq<Act>, i: nat, j: nat)
    requires Run(states, acts) && Counted(states[0]) && i <= j < |states|
    ensures if NoLastRelease(states, acts, i, j) then Extends(states[i].trace, states[j].trace)
      else states[j].trace.generation > states[i].trace.generation
  {
    hide Next, Legal, Counted, LastReleases;
    if i < j {
      GrowsOrRestarts(states, acts, i, j - 1);
      AlwaysCounted(states, acts, j - 1);
      OneAct(states[j - 1], acts[j - 1]);
    }
  }

  /** A place in the trace survives, and what is behind it, exactly as long as no last user releases. */
  lemma MarkerSurvives(states: seq<Sys>, acts: seq<Act>, i: nat, j: nat)
    requires Run(states, acts) && Counted(states[0]) && i <= j < |states|
    ensures Extends(states[i].trace, states[j].trace) <==> forall m | i <= m < j :: !LastReleases(states[m], acts[m])
  {
    hide LastReleases;
    GrowsOrRestarts(states, acts, i, j);
    assert NoLastRelease(states, acts, i, j) <==> forall m | i <= m < j :: !LastReleases(states[m], acts[m]);
  }

  /** Client `c` uses the trace from state `i` up to state `k`. */
  ghost predicate Holds(states: seq<Sys>, c: nat, i: nat, k: nat)
    requires i <= k < |states|
  {
    forall j | i <= j <= k :: c < |states[j].clients| && Is(states[j].clients[c], User)
  }

  /** The release of one user is not the last one while another one stays. */
  lemma NotTheLast(s: Sys, a: Act, c: nat)
    requires Legal(s, a) && Counted(s) && c < |s.clients| && Is(Next(s, a).clients[c], User)
    ensures !LastReleases(s, a)
  {
    if a.Release? {
      var t := Next(s, a);
      CountKept(s, a);
      TallyNone(t.clients, User);
    }
  }

  /** While a client uses the trace, whatever the others do, nothing is cleared. */
  lemma HolderKeeps(states: seq<Sys>, acts: seq<Act>, c: nat, i: nat, k: nat)
    requires Run(states, acts) && Counted(states[0]) && i <= k < |states| && Holds(states, c, i, k)
    ensures NoLastRelease(states, acts, i, k) && Extends(states[i].trace, states[k].trace)
  {
    hide Next, Legal, Counted, LastReleases;
    forall m | i <= m < k ensures !LastReleases(states[m], acts[m]) {
      AlwaysCounted(states, acts, m);
      AlwaysCounted(states, acts, m + 1);
      NotTheLast(states[m], acts[m], c);
    }
    GrowsOrRestarts(states, acts, i, k);
  }

  /**
    Every fragment between two markers taken while a client uses the trace can be fetched as long as it does, and is
    what was stored between them.
   */
  lemma HolderFetches(states: seq<Sys>, acts: seq<Act>, c: nat, a: nat, b: nat, k: nat)
    requires Run(states, acts) && Counted(states[0]) && a <= b <= k < |states| && Holds(states, c, a, k)
    requires states[k].trace.recordSize > 0
    ensures |states[a].trace.content| <= |states[b].trace.content|
    ensures Fetch(states[k].trace, states[a].trace.Here(), states[b].trace.Here()) ==
      Fragment(states[b].trace.content[|states[a].trace.content|..])
  {
    hide Fetch, Step, Run;
    HolderKeeps(states, acts, c, a, b);
    HolderKeeps(states, acts, c, b, k);
    var t, u, w := states[a].trace, states[b].trace, states[k].trace;
    var x, y := u.content[|t.content|..], w.content[|u.content|..];
    assert w.content == t.content + x + y && t.content + x == u.content;
    if x == [] {
      EmptyFetch(w, t.Here());
    } else {
      FetchSlice(w, t.content, x, y);
    }
  }

  // ----- Start markers

  ghost predicate NobodyTraces(s: Sys) {
    forall d | 0 <= d < |s.clients| :: !Is(s.clients[d], Tracer)
  }

  /** Client `c` starts at step `i` and does not start again before state `k`. */
  ghost predicate StartsAt(acts: seq<Act>, c: nat, i: nat, k: nat)
    requires i < k <= |acts|
  {
    acts[i] == Begin(c) && forall m | i < m < k :: acts[m] != Begin(c)
  }

  /**
    The marker a client has after its start: the place where it started if nobody was tracing then, and otherwise
    what the marker was before.
   */
  lemma {:induction false} OwnMarker(states: seq<Sys>, acts: seq<Act>, c: nat, i: nat, k: nat)
    requires Run(states, acts) && Counted(states[0]) && i < k < |states| && StartsAt(acts, c, i, k)
    ensures c < |states[i].clients| == |states[k].clients|
    ensures states[k].clients[c].marker ==
      if NobodyTraces(states[i]) then states[i].trace.Here() else states[i].clients[c].marker
  {
    hide Step, Tally;
    AlwaysCounted(states, acts, i);
    AlwaysCounted(states, acts, k);
    TallyNone(states[i].clients, Tracer);
    if i < k - 1 {
      OwnMarker(states, acts, c, i, k - 1);
    }
  }

  /** All markers have been taken earlier, as the initial ones may pretend. */
  ghost predicate PastMarkers(s: Sys) {
    forall d | 0 <= d < |s.clients| :: PastMarker(s.trace, s.clients[d].marker)
  }

  lemma PastKept(s: Sys, a: Act)
    requires Legal(s, a) && PastMarkers(s)
    ensures PastMarkers(Next(s, a))
  {
    hide Step, PastMarker;
    HereStands(s.trace);
    var t := Next(s, a);
    forall d | 0 <= d < |t.clients| ensures PastMarker(t.trace, t.clients[d].marker) {
      if a.Other? {
        PastStays(s.trace, a.event, s.clients[d].marker);
      } else if a.Release? {
        PastStays(s.trace, Clear(a.newSize), s.clients[d].marker);
      }
    }
  }

  lemma {:induction false} AlwaysPast(states: seq<Sys>, acts: seq<Act>, k: nat)
    requires Run(states, acts) && PastMarkers(states[0]) && k < |states|
    ensures PastMarkers(states[k])
  {
    hide Next, Legal, PastMarkers;
    if k > 0 {
      AlwaysPast(states, acts, k - 1);
      PastKept(states[k - 1], acts[k - 1]);
    }
  }

  /** A fetch from the marker up to now gives exactly what has been stored since `start`. */
  ghost predicate FetchesSince(start: Trace, now: Trace, m: Marker)
    requires now.recordSize > 0
  {
    |start.content| <= |now.content| && Fetch(now, m, now.Here()) == Fragment(now.content[|start.content|..])
  }

  /** A marker taken at `start` or earlier, in a trace that has only grown since. */
  lemma FetchesIff(start: Trace, now: Trace, m: Marker)
    requires Extends(start, now) && now.recordSize > 0 && PastMarker(start, m)
    ensures FetchesSince(start, now, m) <==> m == start.Here()
  {
    hide Fetch;
    if m.generation == start.generation {
      var q: nat :| StandsAt(start, m, q);
      assert StandsAt(now, m, q);
      FetchFromPast(now, m);
      MulDiv(q, now.recordSize);
      BehindAt(now, m, q);
      assert |now.content[q..]| == |now.content| - q;
    } else {
      OtherGeneration(now, m);
    }
  }

  /**
    What a client can fetch from its own marker while it uses the trace: everything behind the marker, or nothing if the
    marker is of an older generation. That is exactly what has been stored since its start if and only if no last user
    released the trace before the client was counted, and nobody else was tracing at its start, or its marker stood
    there already.
   */
  lemma StartMarkerFetches(states: seq<Sys>, acts: seq<Act>, c: nat, i: nat, n: nat, k: nat)
    requires Run(states, acts) && Counted(states[0]) && PastMarkers(states[0]) && i < n < k < |states|
    requires StartsAt(acts, c, i, k) && acts[n] == Count(c) && Holds(states, c, n + 1, k)
    requires states[k].trace.recordSize > 0
    ensures c < |states[i].clients| == |states[k].clients|
    ensures var now, own := states[k].trace, states[k].clients[c].marker;
      Fetch(now, own, now.Here()) ==
        if own.generation != now.generation then Invalid else Fragment(Behind(now, own))
    ensures var start, before := states[i].trace, states[i].clients[c].marker;
      FetchesSince(start, states[k].trace, states[k].clients[c].marker) <==>
        && (forall m | i <= m < n :: !LastReleases(states[m], acts[m]))
        && (NobodyTraces(states[i]) || before == start.Here())
  {
    hide Fetch, Step, Next, Legal, Counted, PastMarker, NobodyTraces;
    OwnMarker(states, acts, c, i, k);
    AlwaysPast(states, acts, i);
    AlwaysPast(states, acts, k);
    var start, now, own := states[i].trace, states[k].trace, states[k].clients[c].marker;
    FetchFromPast(now, own);
    HolderKeeps(states, acts, c, n + 1, k);
    assert !LastReleases(states[n], acts[n]);
    GrowsOrRestarts(states, acts, i, k);
    HereStands(start);
    if NoLastRelease(states, acts, i, k) {
      assert forall m | i <= m < n :: !LastReleases(states[m], acts[m]);
      FetchesIff(start, now, own);
    } else {
      var m :| i <= m < k && LastReleases(states[m], acts[m]);
      assert m < n;
      OlderMarker(start, own);
    }
  }

  lemma OlderMarker(t: Trace, m: Marker)
    requires PastMarker(t, m)
    ensures m.generation <= t.generation
  {}

  // ----- Start markers that do not do what they are for

  /**
    A start marker is not protected until its client is counted as a user: the last other user may release the trace
    in between, and everything after the marker is lost.
   */
  lemma StartMarkerCanBeLost(r: Record)
    ensures var s0 :=
        Sys([Client(Idle, Marker(0, 0)), Client(Stopped, Marker(0, 1))], 0, 1, Trace(8, 80, [], false, false, 1));
      var acts := [Begin(0), Other(Add(r)), Release(1, 0), Count(0)];
      Counted(s0) && PastMarkers(s0) && Legal(s0, acts[0]) &&
      var s1 := Next(s0, acts[0]);
      Legal(s1, acts[1]) &&
      var s2 := Next(s1, acts[1]);
      Legal(s2, acts[2]) &&
      var s3 := Next(s2, acts[2]);
      Legal(s3, acts[3]) &&
      var s4 := Next(s3, acts[3]);
      s4.clients[0] == Client(Using, s0.trace.Here())
      && Fetch(s4.trace, s0.trace.Here(), s2.trace.Here()) == NotFound
      && Fetch(s4.trace, s0.trace.Here(), s4.trace.Here()) == Invalid
  {
    var clients := [Client(Idle, Marker(0, 0)), Client(Stopped, Marker(0, 1))];
    assert clients[..1] == [clients[0]] && [clients[0]][..0] == [];
    assert Tally([clients[0]], Tracer) == 0 && Tally([clients[0]], User) == 0;
    var s0 := Sys(clients, 0, 1, Trace(8, 80, [], false, false, 1));
    HereStands(s0.trace);
    assert s0.trace.content + [r] == [r];
  }

  /**
    A second tracer gets no start marker: with nobody releasing the trace, it can fetch nothing from the marker it has,
    while the first one gets everything.
   */
  lemma SecondTracerLoses(r: Record)
    ensures var s0 :=
        Sys([Client(Idle, Marker(0, 0)), Client(Idle, Marker(0, 0))], 0, 0, Trace(8, 80, [], false, false, 1));
      var acts := [Begin(0), Count(0), Begin(1), Count(1), Other(Add(r))];
      Counted(s0) && PastMarkers(s0) && Legal(s0, acts[0]) &&
      var s1 := Next(s0, acts[0]);
      Legal(s1, acts[1]) &&
      var s2 := Next(s1, acts[1]);
      Legal(s2, acts[2]) &&
      var s3 := Next(s2, acts[2]);
      Legal(s3, acts[3]) &&
      var s4 := Next(s3, acts[3]);
      Legal(s4, acts[4]) &&
      var s5 := Next(s4, acts[4]);
      Fetch(s5.trace, s5.clients[0].marker, s5.trace.Here()) == Fragment([r])
      && Fetch(s5.trace, s5.clients[1].marker, s5.trace.Here()) == Invalid
  {
    var clients := [Client(Idle, Marker(0, 0)), Client(Idle, Marker(0, 0))];
    assert clients[..1] == [clients[0]] && [clients[0]][..0] == [];
    assert Tally([clients[0]], Tracer) == 0 && Tally([clients[0]], User) == 0;
    var t := Trace(8, 80, [], false, false, 1);
    assert t.content + [r] == [r];
  }
}
