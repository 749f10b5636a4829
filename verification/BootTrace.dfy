/** Tracing sessions of the kernel, and the tracing of the boot phases built on them. */
module BootTrace {
  import opened TraceBuffer

  // ----- Sessions

  datatype Command = Start | Continue | Stop

  /** What goes wrong in a walk over the pages: nothing, creating the session, or the walk itself. */
  datatype Fault = NoFault | NoSession | WalkFailed

  /** The trace, the number of tracers and the number of users of the trace. */
  datatype Core = Core(trace: Trace, tracers: int, users: int)

  /** What other threads, and the walk itself, do to the trace and the counters between two steps of a thread. */
  datatype Meanwhile = Meanwhile(events: seq<Event>, tracers: int, users: int)

  const ENOSPC := -28
  const EIO := -5
  const EINVAL := -22

  function Pass(c: Core, m: Meanwhile): Core {
    Core(After(c.trace, m.events), c.tracers + m.tracers, c.users + m.users)
  }

  predicate ReportDue(t: Trace) {
    t.overflow && !t.reported
  }

  datatype Walked = Walked(core: Core, code: int, marker: Marker)

  /**
    The walk over the pages. The marker is an out-parameter that the caller passes in: a start sets it only for the
    first tracer, and errors leave it alone.
   */
  function Walk(c0: Core, cmd: Command, m: Marker, before: Meanwhile, during: Meanwhile, fault: Fault): Walked {
    var c := c0.(trace := Step(c0.trace, Report));
    if ReportDue(c0.trace) then Walked(if cmd.Stop? then c.(tracers := c.tracers - 1) else c, ENOSPC, m)
    else if fault.NoSession? then Walked(c, EIO, m)
    else
      var c1 := Pass(c, before);
      var c2 := if cmd.Start? then c1.(tracers := c1.tracers + 1) else c1;
      var m2 := if cmd.Start? && c2.tracers == 1 then c2.trace.Here() else m;
      var c3 := Pass(c2, during);
      if fault.WalkFailed? then Walked(c3, EIO, m2)
      else if cmd.Stop? then Walked(c3.(tracers := c3.tracers - 1), 0, c3.trace.Here())
      else if cmd.Continue? then Walked(c3, 0, c3.trace.Here())
      else Walked(c3, 0, m2)
  }

  /** The tracing core of the kernel. */
  class Tracing {
    const trace: PrefetchTrace
    var tracersCount: int
    var traceUsers: int

    ghost predicate Valid()
      reads trace
    {
      trace.Valid()
    }

    ghost function State(): Core
      requires Valid()
      reads this, trace, trace.buffer
    {
      Core(trace.State(), tracersCount, traceUsers)
    }

    constructor (recordSize: nat)
      requires recordSize > 0
      ensures Valid() && fresh(trace) && trace.buffer == null
      ensures State() == Core(Trace(recordSize, 0, [], false, false, 0), 0, 0)
    {
      trace := new PrefetchTrace(recordSize);
      tracersCount, traceUsers := 0, 0;
    }

    method Interfere(m: Meanwhile)
      requires Valid()
      modifies this, trace, trace.buffer
      ensures Valid() && (trace.buffer == old(trace.buffer) || fresh(trace.buffer)) && State() == Pass(old(State()), m)
    {
      trace.Interfere(m.events);
      tracersCount, traceUsers := tracersCount + m.tracers, traceUsers + m.users;
    }

    method WalkPages(cmd: Command, m: Marker, before: Meanwhile, during: Meanwhile, fault: Fault) returns (code: int,
                     m': Marker)
      requires Valid()
      modifies this, trace, trace.buffer
      ensures Valid() && (trace.buffer == old(trace.buffer) || fresh(trace.buffer))
      ensures Walked(State(), code, m') == Walk(old(State()), cmd, m, before, during, fault)
    {
      hide After, Step;
      m' := m;
      var report := trace.ReportOverflow();
      if report {
        if cmd == Stop {
          tracersCount := tracersCount - 1;
        }
        return ENOSPC, m';
      }
      if fault == NoSession {
        return EIO, m';
      }
      Interfere(before);
      m' := Enter(cmd, m);
      Interfere(during);
      if fault == WalkFailed {
        return EIO, m';
      }
      m' := Leave(cmd, m');
      code := 0;
    }

    /** Before the pages are walked: a new tracer is counted, and the first one gets its marker. */
    method Enter(cmd: Command, m: Marker) returns (m': Marker)
      requires Valid()
      modifies `tracersCount
      ensures State() == old(State()).(tracers := old(tracersCount) + if cmd.Start? then 1 else 0)
      ensures m' == if cmd.Start? && tracersCount == 1 then State().trace.Here() else m
    {
      m' := m;
      if cmd == Start {
        tracersCount := tracersCount + 1;
        if tracersCount == 1 {
          m' := trace.GetTraceMarker();
        }
      }
    }

    /** After the pages have been walked. */
    method Leave(cmd: Command, m: Marker) returns (m': Marker)
      requires Valid()
      modifies `tracersCount
      ensures State() == old(State()).(tracers := old(tracersCount) - if cmd.Stop? then 1 else 0)
      ensures m' == if cmd.Start? then m else State().trace.Here()
    {
      m' := m;
      if cmd == Stop {
        tracersCount := tracersCount - 1;
        m' := trace.GetTraceMarker();
      } else if cmd == Continue {
        m' := trace.GetTraceMarker();
      }
    }
  }

  // ----- Boot phases

  /** A trace file that has been written, or the error that kept it from being written. */
  datatype Saved = Saved(phase: string, fragment: Fetched)

  datatype Boot = Boot(running: bool, start: Marker, phase: string, saved: seq<Saved>)

  /**
    One command to the boot tracer, with everything that happens to the trace around it. `newSize` is the size of a
    buffer allocated by the clearing at the end, 0 if that fails.
   */
  datatype Op =
    | Phase(name: string, before: Meanwhile, during: Meanwhile, fault: Fault, between: Meanwhile, garbage: Marker)
    | StopBoot(before: Meanwhile, during: Meanwhile, fault: Fault, between: Meanwhile, garbage: Marker, newSize: nat)
    | Outside(others: Meanwhile)

  datatype System = System(core: Core, boot: Boot, code: int)

  const PHASE_NAME_MAX := 10

  /** The part of the name of a phase for which there is room. */
  function PhaseName(name: string): string {
    if |name| <= PHASE_NAME_MAX then name else name[..PHASE_NAME_MAX]
  }

  /** Starting a phase. `garbage` is what the uninitialised marker on the stack holds. */
  function StartPhase(s: System, op: Op): System
    requires op.Phase? && s.core.trace.recordSize > 0
  {
    var b := s.boot;
    if b.running then
      var w := Walk(s.core, Continue, op.garbage, op.before, op.during, op.fault);
      if w.code < 0 then System(w.core, b, w.code)
      else
        var c := Pass(w.core, op.between);
        WalkRecordSize(s.core, Continue, op.garbage, op.before, op.during, op.fault);
        AfterRecordSize(w.core.trace, op.between.events);
        System(c, Boot(true, w.marker, PhaseName(op.name), b.saved + [Saved(b.phase, Fetch(c.trace, b.start, w.marker))]), 0)
    else
      var w := Walk(s.core, Start, b.start, op.before, op.during, op.fault);
      if w.code < 0 then System(w.core, b.(start := w.marker), w.code)
      else
        var c := Pass(w.core, op.between);
        System(c.(users := c.users + 1), Boot(true, w.marker, PhaseName(op.name), b.saved), 0)
  }

  /** Stopping the boot tracing: the last phase is saved, and the trace is cleared when nobody else uses it. */
  function StopTracing(s: System, op: Op): System
    requires op.StopBoot? && s.core.trace.recordSize > 0
  {
    var b := s.boot;
    if !b.running then s.(code := EINVAL)
    else
      var w := Walk(s.core, Stop, op.garbage, op.before, op.during, op.fault);
      var c := Pass(w.core, op.between);
      WalkRecordSize(s.core, Stop, op.garbage, op.before, op.during, op.fault);
      AfterRecordSize(w.core.trace, op.between.events);
      var saved := b.saved + [Saved(b.phase, Fetch(c.trace, b.start, w.marker))];
      var c' := c.(users := c.users - 1);
      System(if c'.users == 0 then c'.(trace := Step(c'.trace, Clear(op.newSize))) else c', b.(running := false, saved := saved), 0)
  }

  lemma {:induction false} AfterRecordSize(t: Trace, es: seq<Event>)
    ensures After(t, es).recordSize == t.recordSize
  {
    if es != [] {
      AfterRecordSize(t, es[..|es| - 1]);
    }
  }

  lemma WalkRecordSize(c: Core, cmd: Command, m: Marker, before: Meanwhile, during: Meanwhile, fault: Fault)
    ensures Walk(c, cmd, m, before, during, fault).core.trace.recordSize == c.trace.recordSize
  {
    var t := Step(c.trace, Report);
    AfterRecordSize(t, before.events);
    AfterRecordSize(After(t, before.events), during.events);
  }

  // ----- The program

  /** The boot tracer. */
  class BootTracing {
    const core: Tracing
    var running: bool
    var startMarker: Marker
    var phase: string
    var saved: seq<Saved>

    ghost predicate Valid()
      reads core, core.trace
    {
      core.Valid()
    }

    ghost function State(code: int): System
      requires Valid()
      reads this, core, core.trace, core.trace.buffer
    {
      System(core.State(), Boot(running, startMarker, phase, saved), code)
    }

    constructor (core: Tracing)
      ensures this.core == core && !running && startMarker == Marker(0, 0) && phase == "init" && saved == []
    {
      this.core := core;
      running, startMarker, phase, saved := false, Marker(0, 0), "init", [];
    }

    method StartBootTracingPhase(op: Op) returns (code: int)
      requires Valid() && op.Phase?
      modifies this, core, core.trace, core.trace.buffer
      ensures Valid() && State(code) == StartPhase(old(State(0)), op)
    {
      hide After, Step, Walk, Fetch;
      if running {
        var marker;
        code, marker := core.WalkPages(Continue, op.garbage, op.before, op.during, op.fault);
        if code < 0 {
          return;
        }
        core.Interfere(op.between);
        WalkCode(old(core.State()), Continue, op.garbage, op.before, op.during, op.fault);
        var fragment := core.trace.GetPrefetchTraceFragment(startMarker, marker);
        saved := saved + [Saved(phase, fragment)];
        startMarker := marker;
      } else {
        code, startMarker := core.WalkPages(Start, startMarker, op.before, op.during, op.fault);
        if code < 0 {
          return;
        }
        WalkCode(old(core.State()), Start, old(startMarker), op.before, op.during, op.fault);
        core.Interfere(op.between);
        core.traceUsers := core.traceUsers + 1;
      }
      phase := PhaseName(op.name);
      running := true;
    }

    method StopBootTracing(op: Op) returns (code: int)
      requires Valid() && op.StopBoot?
      modifies this, core, core.trace, core.trace.buffer
      ensures Valid() && State(code) == StopTracing(old(State(0)), op)
    {
      hide After, Step, Walk, Fetch;
      if !running {
        return EINVAL;
      }
      var marker;
      code, marker := core.WalkPages(Stop, op.garbage, op.before, op.during, op.fault);
      running := false;
      core.Interfere(op.between);
      var fragment := core.trace.GetPrefetchTraceFragment(startMarker, marker);
      saved := saved + [Saved(phase, fragment)];
      core.traceUsers := core.traceUsers - 1;
      if core.traceUsers == 0 {
        core.trace.ClearLocked(op.newSize);
      }
      code := 0;
    }
  }

  lemma WalkCode(c: Core, cmd: Command, m: Marker, before: Meanwhile, during: Meanwhile, fault: Fault)
    ensures Walk(c, cmd, m, before, during, fault).code <= 0
  {}

  // ----- The phases tile the trace

  predicate NoClear(es: seq<Event>) {
    forall e <- es :: !e.Clear?
  }

  /** What another thread does in a locked section: it adds or reports, becomes a user of the trace, or releases it. */
  datatype Turn = Traces(event: Event) | Enters | Releases(newSize: nat)

  /** Others release the trace only after they have become its users; `others` of them are users now. */
  predicate LegalTurns(others: int, turns: seq<Turn>)
    decreases |turns|
  {
    turns == [] ||
      match turns[0]
      case Traces(e) => !e.Clear? && LegalTurns(others, turns[1..])
      case Enters => LegalTurns(others + 1, turns[1..])
      case Releases(_) => others > 0 && LegalTurns(others - 1, turns[1..])
  }

  /** What the turns do to the trace: a release clears it when it leaves no user. */
  function TraceTurns(users: int, turns: seq<Turn>): seq<Event>
    decreases |turns|
  {
    if turns == [] then []
    else
      match turns[0]
      case Traces(e) => [e] + TraceTurns(users, turns[1..])
      case Enters => TraceTurns(users + 1, turns[1..])
      case Releases(n) => (if users == 1 then [Clear(n)] else []) + TraceTurns(users - 1, turns[1..])
  }

  function UserTurns(turns: seq<Turn>): int {
    if turns == [] then 0
    else (if turns[0].Enters? then 1 else if turns[0].Releases? then -1 else 0) + UserTurns(turns[1..])
  }

  /** What others do while the boot tracer is one of the `users` of the trace. */
  ghost predicate Orderly(users: int, m: Meanwhile) {
    exists turns :: LegalTurns(users - 1, turns) && m.events == TraceTurns(users, turns) && m.users == UserTurns(turns)
  }

  /** While the boot tracer is counted as a user, no release of others clears the trace. */
  lemma {:induction false} CountedKeeps(users: int, turns: seq<Turn>)
    requires LegalTurns(users - 1, turns)
    ensures NoClear(TraceTurns(users, turns))
    decreases |turns|
  {
    if turns != [] {
      match turns[0]
      case Traces(e) => CountedKeeps(users, turns[1..]);
      case Enters => CountedKeeps(users + 1, turns[1..]);
      case Releases(_) => CountedKeeps(users - 1, turns[1..]);
    }
  }

  lemma OrderlyKeeps(users: int, m: Meanwhile)
    requires Orderly(users, m)
    ensures NoClear(m.events)
  {
    var turns :| LegalTurns(users - 1, turns) && m.events == TraceTurns(users, turns) && m.users == UserTurns(turns);
    CountedKeeps(users, turns);
  }

  /** A step that does not fail, while others keep to the rules once the boot tracer is a user. */
  ghost predicate Fine(s: System, op: Op) {
    var u := s.core.users;
    match op
    case Outside(m) => Orderly(u, m)
    case Phase(_, before, during, fault, between, _) =>
      && !ReportDue(s.core.trace) && fault == NoFault
      && (s.boot.running ==>
        Orderly(u, before) && Orderly(u + before.users, during) && Orderly(u + before.users + during.users, between))
    case StopBoot(before, during, fault, between, _, _) =>
      && !ReportDue(s.core.trace) && fault == NoFault && s.boot.running
      && Orderly(u, before) && Orderly(u + before.users, during) && Orderly(u + before.users + during.users, between)
  }

  /** While the boot tracer runs, nothing is cleared before it releases the trace. */
  lemma NothingCleared(s: System, op: Op)
    requires Fine(s, op) && s.boot.running
    ensures op.Outside? ==> NoClear(op.others.events)
    ensures !op.Outside? ==> NoClear(op.before.events) && NoClear(op.during.events) && NoClear(op.between.events)
  {
    hide Orderly, NoClear;
    var u := s.core.users;
    if op.Outside? {
      OrderlyKeeps(u, op.others);
    } else {
      OrderlyKeeps(u, op.before);
      OrderlyKeeps(u + op.before.users, op.during);
      OrderlyKeeps(u + op.before.users + op.during.users, op.between);
    }
  }

  function Do(s: System, op: Op): System
    requires s.core.trace.recordSize > 0
  {
    match op
    case Phase(_, _, _, _, _, _) => StartPhase(s, op)
    case StopBoot(_, _, _, _, _, _) => StopTracing(s, op)
    case Outside(m) => s.(core := Pass(s.core, m))
  }

  /** What happens to the trace during a step, up to the marker a stop takes. */
  function Happens(op: Op): seq<Event> {
    match op
    case Outside(m) => m.events
    case Phase(_, before, during, _, between, _) => [Report] + before.events + during.events + between.events
    case StopBoot(before, during, _, _, _, _) => [Report] + before.events + during.events
  }

  /** The fragments one after the other; None if one of the files could not be written. */
  datatype Joined = Failed | Joined(records: seq<Record>)

  function Join(saved: seq<Saved>): Joined {
    if saved == [] then Joined([])
    else
      var r, f := Join(saved[..|saved| - 1]), saved[|saved| - 1].fragment;
      if r.Joined? && f.Fragment? then Joined(r.records + f.records) else Failed
  }

  lemma {:induction false} AfterConcat(t: Trace, a: seq<Event>, b: seq<Event>)
    ensures After(t, a + b) == After(After(t, a), b)
  {
    if b == [] {
      assert a + b == a;
    } else {
      var n := |b| - 1;
      AfterConcat(t, a, b[..n]);
      assert (a + b)[..|a + b| - 1] == a + b[..n];
    }
  }

  lemma {:induction false} StoredSame(t: Trace, a: seq<Event>, b: seq<Event>, i: nat, j: nat)
    requires i <= j <= |a|
    ensures Stored(t, a + b, i, j) == Stored(t, a, i, j)
  {
    if i < j {
      StoredSame(t, a, b, i, j - 1);
      assert (a + b)[..j - 1] == a[..j - 1];
    }
  }

  lemma {:induction false} StoredSplit(t: Trace, es: seq<Event>, i: nat, j: nat, k: nat)
    requires i <= j <= k <= |es|
    ensures Stored(t, es, i, k) == Stored(t, es, i, j) + Stored(t, es, j, k)
  {
    if j < k {
      StoredSplit(t, es, i, j, k - 1);
    }
  }

  lemma {:induction false} NoneCleared(t: Trace, es: seq<Event>, i: nat, j: nat)
    requires NoClear(es) && i <= j <= |es|
    ensures Clearings(t, es, i, j) == 0
  {
    if i < j {
      NoneCleared(t, es, i, j - 1);
      assert es[j - 1] in es;
    }
  }

  /** The records behind an old marker in `t`, and then `rs`; nothing if the marker is of an older generation. */
  function Lead(t: Trace, own: Marker, rs: seq<Record>): Joined
    requires t.recordSize > 0
  {
    if own.generation != t.generation then Failed else Joined(Behind(t, own) + rs)
  }

  /**
    What the boot tracer has saved, and where its marker stands. `first` is the trace when the boot tracer was counted
    as a user, with its marker `own`; `h` is what has happened since.
   */
  ghost predicate SavedUpto(first: Trace, h: seq<Event>, base: nat, b: Boot, n: nat, own: Marker)
    requires first.recordSize > 0
  {
    && n <= |h| && base <= |b.saved|
    && if |b.saved| == base then b.start == own
       else b.start == At(first, h, n).Here() && Join(b.saved[base..]) == Lead(first, own, Stored(first, h, 0, n))
  }

  ghost predicate Tiled(first: Trace, h: seq<Event>, base: nat, s: System, n: nat, own: Marker) {
    && first.recordSize > 0 && PastMarker(first, own) && NoClear(h) && s.core.trace == After(first, h)
    && s.boot.running && SavedUpto(first, h, base, s.boot, n, own)
  }

  lemma JoinMore(saved: seq<Saved>, base: nat, x: Saved)
    requires base <= |saved|
    ensures Join((saved + [x])[base..]) ==
      if Join(saved[base..]).Joined? && x.fragment.Fragment?
      then Joined(Join(saved[base..]).records + x.fragment.records) else Failed
  {
    assert (saved + [x])[base..] == saved[base..] + [x];
    assert (saved[base..] + [x])[..|saved[base..]|] == saved[base..];
  }

  lemma NoClearConcat(a: seq<Event>, b: seq<Event>)
    requires NoClear(a) && NoClear(b)
    ensures NoClear(a + b)
  {}

  /** The fragment from the current start marker to a marker taken after `more`, fetched after `rest` has happened too. */
  lemma NextFragment(first: Trace, h: seq<Event>, more: seq<Event>, rest: seq<Event>, n: nat)
    requires first.recordSize > 0 && NoClear(h) && NoClear(more) && NoClear(rest) && n <= |h|
    ensures var all := h + more + rest;
      var j := |h + more|;
      && After(first, all).recordSize > 0
      && At(first, h, n) == At(first, all, n) && After(first, h + more) == At(first, all, j)
      && Fetch(After(first, all), At(first, h, n).Here(), After(first, h + more).Here()) == Fragment(Stored(first, all, n, j))
      && Stored(first, all, 0, n) == Stored(first, h, 0, n)
      && Stored(first, all, 0, j) == Stored(first, all, 0, n) + Stored(first, all, n, j)
  {
    hide Fetch, Step, After, Stored, Clearings, NoClear;
    var all := h + more + rest;
    var j, k := |h + more|, |all|;
    Slices(h, more, rest, n);
    NoClearConcat(h, more);
    NoClearConcat(h + more, rest);
    NoneCleared(first, all, n, j);
    NoneCleared(first, all, j, k);
    AfterRecordSize(first, all);
    FetchBetween(first, all, n, j, k);
    StoredSame(first, h, more + rest, 0, n);
    StoredSplit(first, all, 0, n, j);
    if Stored(first, all, n, j) == [] {
      assert Stored(first, all, 0, j) == Stored(first, all, 0, n) + [];
    }
  }

  /** The fragment of the first phase, from the marker the boot tracer has when it is counted as a user. */
  lemma OwnFragment(first: Trace, h: seq<Event>, more: seq<Event>, rest: seq<Event>, own: Marker)
    requires first.recordSize > 0 && NoClear(h) && NoClear(more) && NoClear(rest) && PastMarker(first, own)
    ensures var all := h + more + rest;
      var j := |h + more|;
      && After(first, all).recordSize > 0
      && Fetch(After(first, all), own, After(first, h + more).Here()) ==
        if own.generation != first.generation then Invalid
        else Fragment(Behind(first, own) + Stored(first, all, 0, j))
  {
    hide Fetch, Step, After, Stored, Clearings, NoClear;
    var all := h + more + rest;
    var j, k := |h + more|, |all|;
    Slices(h, more, rest, 0);
    NoClearConcat(h, more);
    NoClearConcat(h + more, rest);
    NoneCleared(first, all, 0, j);
    NoneCleared(first, all, j, k);
    AfterRecordSize(first, all);
    AfterRecordSize(first, h + more);
    Grows(first, all, 0, j);
    Grows(first, all, j, k);
    assert all[..0] == [];
    AfterNothing(first);
    var u, w, x, y := After(first, h + more), After(first, all), Stored(first, all, 0, j), Stored(first, all, j, k);
    assert At(first, all, 0) == first && At(first, all, j) == u && At(first, all, k) == w;
    if own.generation == first.generation {
      FetchFromOwn(first, own, u, x, w, y);
    } else {
      OtherPlace(w, own, u.Here());
    }
  }

  /** A fetch from an old marker to a later place. */
  lemma FetchFromOwn(t: Trace, own: Marker, u: Trace, x: seq<Record>, w: Trace, y: seq<Record>)
    requires PastMarker(t, own) && own.generation == t.generation == u.generation == w.generation
    requires t.recordSize == u.recordSize == w.recordSize > 0
    requires u.content == t.content + x && w.content == u.content + y
    ensures Fetch(w, own, u.Here()) == Fragment(Behind(t, own) + x)
  {
    hide Fetch;
    var q: nat :| StandsAt(t, own, q);
    BehindAt(t, own, q);
    var a, b := t.content[..q], t.content[q..] + x;
    assert w.content == a + b + y && u.content == a + b;
    if b == [] {
      EmptyFetch(w, own);
    } else {
      FetchSlice(w, a, b, y);
    }
  }

  lemma AfterNothing(t: Trace)
    ensures After(t, []) == t
  {}

  lemma OtherPlace(t: Trace, a: Marker, b: Marker)
    requires t.recordSize > 0 && a.generation != b.generation
    ensures Fetch(t, a, b) == Invalid
  {}

  /** One more fragment, up to a marker taken after `more` and fetched after `rest` has happened too. */
  lemma SavedMore(first: Trace, h: seq<Event>, more: seq<Event>, rest: seq<Event>, base: nat, b: Boot, n: nat,
                  own: Marker, b': Boot)
    requires first.recordSize > 0 && NoClear(h) && NoClear(more) && NoClear(rest) && PastMarker(first, own)
    requires SavedUpto(first, h, base, b, n, own) && After(first, h + more + rest).recordSize > 0
    requires b'.start == After(first, h + more).Here()
    requires b'.saved == b.saved + [Saved(b.phase, Fetch(After(first, h + more + rest), b.start, b'.start))]
    ensures SavedUpto(first, h + more + rest, base, b', |h + more|, own)
  {
    hide Fetch, Step, After, Stored, Clearings, NoClear, Join, PastMarker;
    var all := h + more + rest;
    var j := |h + more|;
    Slices(h, more, rest, 0);
    JoinMore(b.saved, base, b'.saved[|b.saved|]);
    assert At(first, all, j) == After(first, h + more);
    if |b.saved| == base {
      OwnFragment(first, h, more, rest, own);
      assert b.saved[base..] == [];
      JoinNothing();
    } else {
      NextFragment(first, h, more, rest, n);
      LeadMore(first, own, Stored(first, h, 0, n), Stored(first, all, n, j));
    }
  }

  lemma JoinNothing()
    ensures Join([]) == Joined([])
  {}

  lemma LeadMore(t: Trace, own: Marker, a: seq<Record>, b: seq<Record>)
    requires t.recordSize > 0
    ensures Lead(t, own, a + b) ==
      if Lead(t, own, a).Joined? then Joined(Lead(t, own, a).records + b) else Failed
  {
    assert Behind(t, own) + a + b == Behind(t, own) + (a + b);
  }

  lemma Slices(h: seq<Event>, more: seq<Event>, rest: seq<Event>, n: nat)
    requires n <= |h|
    ensures var all := h + more + rest;
      && all[..n] == h[..n] && all[..|h + more|] == h + more && all[..|all|] == all && h + (more + rest) == all
  {}

  /** The trace at the marker of a step that does not fail. */
  lemma WalkTrace(s: System, cmd: Command, m: Marker, before: Meanwhile, during: Meanwhile)
    requires !ReportDue(s.core.trace)
    ensures var w := Walk(s.core, cmd, m, before, during, NoFault);
      && w.code == 0 && w.core.trace == After(s.core.trace, [Report] + before.events + during.events)
      && (!cmd.Start? ==> w.marker == w.core.trace.Here())
      && (cmd.Start? && s.core.tracers + before.tracers == 0 ==> w.marker == After(s.core.trace, [Report] + before.events).Here())
  {
    var t := s.core.trace;
    AfterConcat(t, [Report], before.events);
    AfterConcat(t, [Report] + before.events, during.events);
    var none: seq<Event> := [];
    assert After(t, [Report]) == Step(t, Report) by {
      assert [Report][..0] == none;
    }
  }

  /** A phase that follows another one. */
  lemma PhaseTiles(first: Trace, h: seq<Event>, base: nat, s: System, op: Op, n: nat, own: Marker) returns (n': nat)
    requires Tiled(first, h, base, s, n, own) && op.Phase? && Fine(s, op) && s.core.trace.recordSize > 0
    ensures Tiled(first, h + Happens(op), base, Do(s, op), n', own) && Do(s, op).code == 0
  {
    hide Walk, Fetch, Step, After, SavedUpto, PastMarker, Fine;
    FineStep(s, op);
    NothingCleared(s, op);
    var more := [Report] + op.before.events + op.during.events;
    var rest := op.between.events;
    NoClearConcat([Report], op.before.events);
    NoClearConcat([Report] + op.before.events, op.during.events);
    NoClearConcat(h, more);
    NoClearConcat(h + more, rest);
    WalkTrace(s, Continue, op.garbage, op.before, op.during);
    AfterConcat(first, h, more);
    AfterConcat(first, h + more, rest);
    AfterRecordSize(first, h + more + rest);
    n' := |h + more|;
    SavedMore(first, h, more, rest, base, s.boot, n, own, Do(s, op).boot);
    assert h + Happens(op) == h + more + rest;
  }

  lemma FineStep(s: System, op: Op)
    requires Fine(s, op) && !op.Outside?
    ensures !ReportDue(s.core.trace) && op.fault == NoFault
  {
    hide Orderly;
  }

  lemma OutsideTiles(first: Trace, h: seq<Event>, base: nat, s: System, op: Op, n: nat, own: Marker)
    requires Tiled(first, h, base, s, n, own) && op.Outside? && Fine(s, op) && s.core.trace.recordSize > 0
    ensures Tiled(first, h + Happens(op), base, Do(s, op), n, own)
  {
    hide Step, Fetch, PastMarker, Join, Fine;
    NothingCleared(s, op);
    AfterConcat(first, h, op.others.events);
    NoClearConcat(h, op.others.events);
    StoredSame(first, h, op.others.events, 0, n);
    assert (h + op.others.events)[..n] == h[..n];
  }

  /** The stop completes the tiling. */
  lemma StopTiles(first: Trace, h: seq<Event>, base: nat, s: System, op: Op, n: nat, own: Marker)
    requires Tiled(first, h, base, s, n, own) && op.StopBoot? && Fine(s, op) && s.core.trace.recordSize > 0
    ensures base <= |Do(s, op).boot.saved|
    ensures var all := h + Happens(op);
      Join(Do(s, op).boot.saved[base..]) == Lead(first, own, Stored(first, all, 0, |all|))
  {
    hide Walk, Fetch, Step, After, Stored, Join, PastMarker, Fine;
    FineStep(s, op);
    NothingCleared(s, op);
    var more := Happens(op);
    var rest := op.between.events;
    NoClearConcat([Report], op.before.events);
    NoClearConcat([Report] + op.before.events, op.during.events);
    WalkTrace(s, Stop, op.garbage, op.before, op.during);
    AfterConcat(first, h, more);
    AfterConcat(first, h + more, rest);
    AfterRecordSize(first, h + more + rest);
    var b := Do(s, op).boot;
    SavedMore(first, h, more, rest, base, s.boot, n, own, b.(start := After(first, h + more).Here()));
    StoredSame(first, h + more, rest, 0, |h + more|);
  }

  /** The marker of the boot tracer has been taken earlier, whatever the steps are and whether they fail. */
  lemma BootMarkerPast(s: System, op: Op)
    requires s.core.trace.recordSize > 0 && PastMarker(s.core.trace, s.boot.start)
    ensures PastMarker(Do(s, op).core.trace, Do(s, op).boot.start)
  {
    hide After, Step, Fetch, PastMarker;
    var m := s.boot.start;
    match op
    case Outside(others) =>
      PastAfter(s.core.trace, others.events, m);
    case Phase(_, before, during, fault, between, garbage) =>
      var cmd := if s.boot.running then Continue else Start;
      var x := if s.boot.running then garbage else m;
      var w := Walk(s.core, cmd, x, before, during, fault);
      WalkPast(s.core, cmd, x, before, during, fault, m);
      PastAfter(w.core.trace, between.events, m);
      if PastMarker(w.core.trace, w.marker) {
        PastAfter(w.core.trace, between.events, w.marker);
      }
    case StopBoot(before, during, fault, between, garbage, newSize) =>
      var w := Walk(s.core, Stop, garbage, before, during, fault);
      WalkPast(s.core, Stop, garbage, before, during, fault, m);
      PastAfter(w.core.trace, between.events, m);
      PastStays(After(w.core.trace, between.events), Clear(newSize), m);
  }

  /** A walk keeps old markers old, and hands out one that is old, unless it leaves alone what it was given. */
  lemma WalkPast(c: Core, cmd: Command, x: Marker, before: Meanwhile, during: Meanwhile, fault: Fault, m: Marker)
    requires PastMarker(c.trace, m)
    ensures var w := Walk(c, cmd, x, before, during, fault);
      PastMarker(w.core.trace, m) && ((w.code == 0 && !cmd.Start?) || x == m ==> PastMarker(w.core.trace, w.marker))
  {
    hide After, Step, PastMarker;
    var t := Step(c.trace, Report);
    PastStays(c.trace, Report, m);
    PastAfter(t, before.events, m);
    var u := After(t, before.events);
    HereStands(u);
    PastAfter(u, during.events, m);
    PastAfter(u, during.events, u.Here());
    HereStands(After(u, during.events));
  }

  // ----- Whole runs

  function DoAll(s: System, ops: seq<Op>): (r: System)
    requires s.core.trace.recordSize > 0
    ensures r.core.trace.recordSize > 0
  {
    if ops == [] then s
    else
      var before := DoAll(s, ops[..|ops| - 1]);
      DoRecordSize(before, ops[|ops| - 1]);
      Do(before, ops[|ops| - 1])
  }

  lemma DoRecordSize(s: System, op: Op)
    requires s.core.trace.recordSize > 0
    ensures Do(s, op).core.trace.recordSize > 0
  {
    match op
    case Outside(m) =>
      AfterRecordSize(s.core.trace, m.events);
    case Phase(_, before, during, fault, between, garbage) =>
      WalkRecordSize(s.core, Continue, garbage, before, during, fault);
      WalkRecordSize(s.core, Start, s.boot.start, before, during, fault);
      AfterRecordSize(Walk(s.core, Continue, garbage, before, during, fault).core.trace, between.events);
      AfterRecordSize(Walk(s.core, Start, s.boot.start, before, during, fault).core.trace, between.events);
    case StopBoot(before, during, fault, between, garbage, _) =>
      WalkRecordSize(s.core, Stop, garbage, before, during, fault);
      AfterRecordSize(Walk(s.core, Stop, garbage, before, during, fault).core.trace, between.events);
  }

  /** No step of the run fails, others keep to the rules, and none before the last stops the boot tracing. */
  ghost predicate FineRun(s: System, ops: seq<Op>)
    requires s.core.trace.recordSize > 0
  {
    forall k | 0 <= k < |ops| :: Fine(DoAll(s, ops[..k]), ops[k]) && (k < |ops| - 1 ==> !ops[k].StopBoot?)
  }

  /** What happens to the trace after the first step, up to the marker of the last one. */
  function Later(ops: seq<Op>): seq<Event>
    requires ops != []
  {
    if |ops| == 1 then [] else Later(ops[..|ops| - 1]) + Happens(ops[|ops| - 1])
  }

  lemma {:induction false} PrefixTiles(s: System, ops: seq<Op>, k: nat) returns (n: nat)
    requires s.core.trace.recordSize > 0 && !s.boot.running && 0 < k < |ops|
    requires ops[0].Phase? && FineRun(s, ops) && PastMarker(s.core.trace, s.boot.start)
    ensures var one := Do(s, ops[0]);
      Tiled(one.core.trace, Later(ops[..k]), |s.boot.saved|, DoAll(s, ops[..k]), n, one.boot.start)
  {
    hide Fine, Tiled, Do, Happens, PastMarker;
    assert ops[..k][..k - 1] == ops[..k - 1];
    assert ops[..0] == [];
    assert Fine(DoAll(s, ops[..k - 1]), ops[k - 1]) && !ops[k - 1].StopBoot?;
    if k == 1 {
      FirstTiles(s, ops[0]);
      n := 0;
    } else {
      n := PrefixTiles(s, ops, k - 1);
      var one, now, op := Do(s, ops[0]), DoAll(s, ops[..k - 1]), ops[k - 1];
      if op.Phase? {
        n := PhaseTiles(one.core.trace, Later(ops[..k - 1]), |s.boot.saved|, now, op, n, one.boot.start);
      } else {
        OutsideTiles(one.core.trace, Later(ops[..k - 1]), |s.boot.saved|, now, op, n, one.boot.start);
      }
    }
  }

  /** The first phase saves nothing yet. */
  lemma FirstTiles(s: System, op: Op)
    requires s.core.trace.recordSize > 0 && !s.boot.running && op.Phase? && Fine(s, op)
    requires PastMarker(s.core.trace, s.boot.start)
    ensures Tiled(Do(s, op).core.trace, [], |s.boot.saved|, Do(s, op), 0, Do(s, op).boot.start)
  {
    hide Fetch, Step, After, PastMarker, Stored, Fine;
    FineStep(s, op);
    BootMarkerPast(s, op);
    DoRecordSize(s, op);
    AfterNothing(Do(s, op).core.trace);
  }

  /** All saved phases joined, in terms of the trace and the marker when the boot tracer has been counted as a user. */
  lemma SavedInAll(s: System, ops: seq<Op>)
    requires s.core.trace.recordSize > 0 && !s.boot.running && |ops| > 1
    requires ops[0].Phase? && ops[|ops| - 1].StopBoot? && FineRun(s, ops) && PastMarker(s.core.trace, s.boot.start)
    ensures |s.boot.saved| <= |DoAll(s, ops).boot.saved|
    ensures var one, h := Do(s, ops[0]), Later(ops);
      && one.core.trace.recordSize > 0
      && Join(DoAll(s, ops).boot.saved[|s.boot.saved|..]) ==
        Lead(one.core.trace, one.boot.start, Stored(one.core.trace, h, 0, |h|))
  {
    hide Fine, Tiled, Do, Happens, Join, Stored, PastMarker, Lead;
    var k := |ops| - 1;
    var n := PrefixTiles(s, ops, k);
    assert Fine(DoAll(s, ops[..k]), ops[k]);
    DoRecordSize(s, ops[0]);
    var one := Do(s, ops[0]);
    StopTiles(one.core.trace, Later(ops[..k]), |s.boot.saved|, DoAll(s, ops[..k]), ops[k], n, one.boot.start);
  }

  // ----- From the first start marker on

  /** The trace when the first phase looks at its start marker. */
  function FirstTrace(s: System, op: Op): Trace
    requires op.Phase?
  {
    After(s.core.trace, [Report] + op.before.events)
  }

  /** What happens between that and the count of the boot tracer as a user. */
  function Window(op: Op): seq<Event>
    requires op.Phase?
  {
    op.during.events + op.between.events
  }

  /** The first tracer gets a marker, any other keeps what its marker was. */
  function FirstMarker(s: System, op: Op): Marker
    requires op.Phase?
  {
    if s.core.tracers + op.before.tracers == 0 then FirstTrace(s, op).Here() else s.boot.start
  }

  lemma FirstStep(s: System, op: Op)
    requires s.core.trace.recordSize > 0 && !s.boot.running && op.Phase? && Fine(s, op)
    requires PastMarker(s.core.trace, s.boot.start)
    ensures FirstTrace(s, op).recordSize > 0 && PastMarker(FirstTrace(s, op), FirstMarker(s, op))
    ensures Do(s, op).core.trace == After(FirstTrace(s, op), Window(op)) && Do(s, op).boot.start == FirstMarker(s, op)
  {
    hide Fetch, Step, PastMarker, Fine;
    FineStep(s, op);
    var first := FirstTrace(s, op);
    AfterRecordSize(s.core.trace, [Report] + op.before.events);
    PastAfter(s.core.trace, [Report] + op.before.events, s.boot.start);
    HereStands(first);
    WalkTrace(s, Start, s.boot.start, op.before, op.during);
    AfterConcat(s.core.trace, [Report] + op.before.events, op.during.events);
    AfterConcat(first, op.during.events, op.between.events);
  }

  lemma {:induction false} StoredShift(t: Trace, a: seq<Event>, b: seq<Event>, j: nat)
    requires j <= |b|
    ensures Stored(t, a + b, |a|, |a| + j) == Stored(After(t, a), b, 0, j)
  {
    if j > 0 {
      StoredShift(t, a, b, j - 1);
      AfterConcat(t, a, b[..j - 1]);
      assert (a + b)[..|a| + j - 1] == a + b[..j - 1];
    }
  }

  /** What is behind an old marker after some more has happened. */
  lemma BehindLater(t: Trace, es: seq<Event>, m: Marker)
    requires t.recordSize > 0 && PastMarker(t, m)
    ensures var u := After(t, es);
      && u.recordSize > 0
      && (Clearings(t, es, 0, |es|) > 0 ==> m.generation != u.generation)
      && (Clearings(t, es, 0, |es|) == 0 ==> u.generation == t.generation)
      && (Clearings(t, es, 0, |es|) == 0 && m.generation == t.generation ==>
        Behind(u, m) == Behind(t, m) + Stored(t, es, 0, |es|))
  {
    hide Step, Stored, Clearings;
    assert es[..0] == [] && es[..|es|] == es;
    AfterNothing(t);
    AfterRecordSize(t, es);
    Grows(t, es, 0, |es|);
    if Clearings(t, es, 0, |es|) == 0 && m.generation == t.generation {
      var q: nat :| StandsAt(t, m, q);
      assert StandsAt(After(t, es), m, q);
      BehindAt(t, m, q);
      BehindAt(After(t, es), m, q);
    }
  }

  /** The window of the first phase and what follows it, together. */
  lemma LeadFrom(t: Trace, ev: seq<Event>, h: seq<Event>, m: Marker)
    requires t.recordSize > 0 && PastMarker(t, m)
    ensures var u := After(t, ev);
      && u.recordSize > 0
      && Lead(u, m, Stored(u, h, 0, |h|)) ==
        if Clearings(t, ev, 0, |ev|) > 0 then Failed else Lead(t, m, Stored(t, ev + h, 0, |ev + h|))
  {
    hide After, Stored, Clearings, PastMarker, Behind;
    BehindLater(t, ev, m);
    StoredShift(t, ev, h, |h|);
    StoredSame(t, ev, h, 0, |ev|);
    StoredSplit(t, ev + h, 0, |ev|, |ev + h|);
    var x, y := Stored(t, ev, 0, |ev|), Stored(After(t, ev), h, 0, |h|);
    assert Behind(t, m) + x + y == Behind(t, m) + (x + y);
  }

  /**
    The saved phases joined, over any run that starts a first phase, goes on with phases and anything others do, and
    stops: everything stored since the first phase looked at its start marker, after what is behind the marker it has;
    nothing if the trace was cleared before the boot tracer was counted as a user, or the marker is older.
   */
  lemma PhasesSaved(s: System, ops: seq<Op>)
    requires s.core.trace.recordSize > 0 && !s.boot.running && |ops| > 1
    requires ops[0].Phase? && ops[|ops| - 1].StopBoot? && FineRun(s, ops) && PastMarker(s.core.trace, s.boot.start)
    ensures |s.boot.saved| <= |DoAll(s, ops).boot.saved|
    ensures var first, ev, h := FirstTrace(s, ops[0]), Window(ops[0]), Window(ops[0]) + Later(ops);
      && first.recordSize > 0
      && Join(DoAll(s, ops).boot.saved[|s.boot.saved|..]) ==
        if Clearings(first, ev, 0, |ev|) > 0 then Failed
        else Lead(first, FirstMarker(s, ops[0]), Stored(first, h, 0, |h|))
  {
    hide Fine, Do, Join, Stored, PastMarker, Lead, FirstTrace, FirstMarker, Window, Later, Clearings, After;
    SavedInAll(s, ops);
    var one: seq<Op> := ops[..0];
    assert one == [] && ops[..1] == [ops[0]] && Fine(DoAll(s, ops[..0]), ops[0]);
    FirstStep(s, ops[0]);
    LeadFrom(FirstTrace(s, ops[0]), Window(ops[0]), Later(ops), FirstMarker(s, ops[0]));
  }

  /**
    The saved phases tile the trace, so that joined they are exactly the records stored from the start of the first
    phase to the stop marker, if and only if nothing was cleared before the boot tracer was counted as a user, and it
    was the first tracer or its old marker stood at the place of its start.
   */
  lemma PhasesTile(s: System, ops: seq<Op>)
    requires s.core.trace.recordSize > 0 && !s.boot.running && |ops| > 1
    requires ops[0].Phase? && ops[|ops| - 1].StopBoot? && FineRun(s, ops) && PastMarker(s.core.trace, s.boot.start)
    ensures |s.boot.saved| <= |DoAll(s, ops).boot.saved|
    ensures var first, ev, h := FirstTrace(s, ops[0]), Window(ops[0]), Window(ops[0]) + Later(ops);
      Join(DoAll(s, ops).boot.saved[|s.boot.saved|..]) == Joined(Stored(first, h, 0, |h|)) <==>
        && Clearings(first, ev, 0, |ev|) == 0
        && (s.core.tracers + ops[0].before.tracers == 0 || s.boot.start == first.Here())
  {
    hide Fine, Do, Join, Stored, PastMarker, FirstTrace, Window, Later, Clearings, After;
    PhasesSaved(s, ops);
    assert ops[..0] == [] && Fine(DoAll(s, ops[..0]), ops[0]);
    FirstStep(s, ops[0]);
    var first, h := FirstTrace(s, ops[0]), Window(ops[0]) + Later(ops);
    LeadIsAll(first, FirstMarker(s, ops[0]), Stored(first, h, 0, |h|));
  }

  lemma LeadIsAll(t: Trace, m: Marker, rs: seq<Record>)
    requires t.recordSize > 0 && PastMarker(t, m)
    ensures Lead(t, m, rs) == Joined(rs) <==> m == t.Here()
  {
    if m.generation == t.generation {
      BehindNone(t, m);
      assert |Behind(t, m) + rs| == |Behind(t, m)| + |rs|;
    }
  }

  // ----- Names and counters

  function Names(saved: seq<Saved>): seq<string> {
    if saved == [] then [] else Names(saved[..|saved| - 1]) + [saved[|saved| - 1].phase]
  }

  /** The phases that have been started, in order. */
  function PhaseNames(ops: seq<Op>): seq<string> {
    if ops == [] then []
    else
      var op := ops[|ops| - 1];
      PhaseNames(ops[..|ops| - 1]) + if op.Phase? then [PhaseName(op.name)] else []
  }

  /** What others do to the number of tracers. */
  function OtherTracers(ops: seq<Op>): int {
    if ops == [] then 0 else OtherTracers(ops[..|ops| - 1]) + TracersIn(ops[|ops| - 1])
  }

  function TracersIn(op: Op): int {
    match op
    case Outside(m) => m.tracers
    case Phase(_, before, during, _, between, _) => before.tracers + during.tracers + between.tracers
    case StopBoot(before, during, _, between, _, _) => before.tracers + during.tracers + between.tracers
  }

  /** What others do to the number of users. */
  function OtherUsers(ops: seq<Op>): int {
    if ops == [] then 0 else OtherUsers(ops[..|ops| - 1]) + UsersIn(ops[|ops| - 1])
  }

  function UsersIn(op: Op): int {
    match op
    case Outside(m) => m.users
    case Phase(_, before, during, _, between, _) => before.users + during.users + between.users
    case StopBoot(before, during, _, between, _, _) => before.users + during.users + between.users
  }

  /** A running boot tracer has saved the phases before the current one, and counts once as tracer and as user. */
  ghost predicate InStep(s0: System, base: nat, s: System, names: seq<string>, tracers: int, users: int) {
    && s.boot.running && base <= |s.boot.saved|
    && Names(s.boot.saved[base..]) + [s.boot.phase] == names
    && s.core.tracers == s0.core.tracers + tracers + 1 && s.core.users == s0.core.users + users + 1
  }

  lemma NamesMore(saved: seq<Saved>, base: nat, x: Saved)
    requires base <= |saved|
    ensures Names((saved + [x])[base..]) == Names(saved[base..]) + [x.phase]
  {
    assert (saved + [x])[base..] == saved[base..] + [x];
    assert (saved[base..] + [x])[..|saved[base..]|] == saved[base..];
  }

  lemma StepCounts(s0: System, base: nat, s: System, op: Op, names: seq<string>, tracers: int, users: int)
    requires s.core.trace.recordSize > 0 && InStep(s0, base, s, names, tracers, users) && Fine(s, op)
    ensures !op.StopBoot? ==>
      InStep(s0, base, Do(s, op), names + (if op.Phase? then [PhaseName(op.name)] else []), tracers + TracersIn(op),
        users + UsersIn(op))
    ensures op.StopBoot? ==>
      var r := Do(s, op);
      && !r.boot.running && base <= |r.boot.saved| && Names(r.boot.saved[base..]) == names
      && r.core.tracers == s0.core.tracers + tracers + TracersIn(op) && r.core.users == s0.core.users + users + UsersIn(op)
  {
    hide Fetch, Step, After, Names;
    if op.Phase? {
      NamesMore(s.boot.saved, base, Do(s, op).boot.saved[|s.boot.saved|]);
    } else if op.StopBoot? {
      NamesMore(s.boot.saved, base, Do(s, op).boot.saved[|s.boot.saved|]);
    } else {
      assert names + [] == names;
    }
  }

  lemma FirstCounts(s: System, op: Op)
    requires s.core.trace.recordSize > 0 && !s.boot.running && op.Phase? && Fine(s, op)
    ensures InStep(s, |s.boot.saved|, Do(s, op), [PhaseName(op.name)], TracersIn(op), UsersIn(op))
  {
    hide Fetch, Step, After;
    assert s.boot.saved[|s.boot.saved|..] == [];
  }

  lemma {:induction false} PrefixCounts(s: System, ops: seq<Op>, k: nat)
    requires s.core.trace.recordSize > 0 && !s.boot.running && 0 < k < |ops|
    requires ops[0].Phase? && FineRun(s, ops)
    ensures InStep(s, |s.boot.saved|, DoAll(s, ops[..k]), PhaseNames(ops[..k]), OtherTracers(ops[..k]), OtherUsers(ops[..k]))
  {
    hide Fine, InStep, Do, TracersIn, UsersIn;
    assert ops[..k][..k - 1] == ops[..k - 1];
    assert ops[..0] == [];
    assert Fine(DoAll(s, ops[..k - 1]), ops[k - 1]) && !ops[k - 1].StopBoot?;
    if k == 1 {
      FirstCounts(s, ops[0]);
      calc {
        PhaseNames(ops[..1]);
        PhaseNames(ops[..0]) + [PhaseName(ops[0].name)];
        [PhaseName(ops[0].name)];
      }
    } else {
      PrefixCounts(s, ops, k - 1);
      StepCounts(s, |s.boot.saved|, DoAll(s, ops[..k - 1]), ops[k - 1], PhaseNames(ops[..k - 1]), OtherTracers(ops[..k - 1]),
        OtherUsers(ops[..k - 1]));
    }
  }

  /**
    After such a run each phase has been saved once, under its own name and in order, and the boot tracer has given back
    its places among the tracers and the users.
   */
  lemma RunBalances(s: System, ops: seq<Op>)
    requires s.core.trace.recordSize > 0 && !s.boot.running && |ops| > 1
    requires ops[0].Phase? && ops[|ops| - 1].StopBoot? && FineRun(s, ops)
    ensures var r := DoAll(s, ops);
      && !r.boot.running && |s.boot.saved| <= |r.boot.saved|
      && Names(r.boot.saved[|s.boot.saved|..]) == PhaseNames(ops)
      && r.core.tracers == s.core.tracers + OtherTracers(ops) && r.core.users == s.core.users + OtherUsers(ops)
  {
    hide Fine, InStep, Do, TracersIn, UsersIn, Names;
    var k := |ops| - 1;
    PrefixCounts(s, ops, k);
    assert Fine(DoAll(s, ops[..k]), ops[k]);
    StepCounts(s, |s.boot.saved|, DoAll(s, ops[..k]), ops[k], PhaseNames(ops[..k]), OtherTracers(ops[..k]), OtherUsers(ops[..k]));
  }

  // ----- When walks fail

  function OwnPlaces(s: System): int {
    if s.boot.running then 1 else 0
  }

  /** What others get to do during a step: an error cuts it short. */
  function Met(s: System, op: Op): seq<Meanwhile> {
    var entered := !ReportDue(s.core.trace) && !op.Outside? && !op.fault.NoSession?;
    match op
    case Outside(m) => [m]
    case Phase(_, before, during, fault, between, _) =>
      if !entered then [] else if fault.WalkFailed? then [before, during] else [before, during, between]
    case StopBoot(before, during, _, between, _, _) =>
      if !s.boot.running then [] else if entered then [before, during, between] else [between]
  }

  function TracersOf(ms: seq<Meanwhile>): int {
    if ms == [] then 0 else TracersOf(ms[..|ms| - 1]) + ms[|ms| - 1].tracers
  }

  function UsersOf(ms: seq<Meanwhile>): int {
    if ms == [] then 0 else UsersOf(ms[..|ms| - 1]) + ms[|ms| - 1].users
  }

  /**
    The step leaves a place among the tracers taken: a first phase whose walk fails, or a stop that fails for any other
    reason than an overflow.
   */
  predicate KeepsPlace(s: System, op: Op) {
    && !ReportDue(s.core.trace)
    && ((op.Phase? && !s.boot.running && op.fault.WalkFailed?) || (op.StopBoot? && s.boot.running && !op.fault.NoFault?))
  }

  function PlacesKept(s: System, ops: seq<Op>): nat
    requires s.core.trace.recordSize > 0
  {
    if ops == [] then 0
    else
      var n := |ops| - 1;
      PlacesKept(s, ops[..n]) + if KeepsPlace(DoAll(s, ops[..n]), ops[n]) then 1 else 0
  }

  /** What others get to do during a run. */
  function MetInAll(s: System, ops: seq<Op>): seq<Meanwhile>
    requires s.core.trace.recordSize > 0
  {
    if ops == [] then [] else MetInAll(s, ops[..|ops| - 1]) + Met(DoAll(s, ops[..|ops| - 1]), ops[|ops| - 1])
  }

  lemma {:induction false} MetConcat(a: seq<Meanwhile>, b: seq<Meanwhile>)
    ensures TracersOf(a + b) == TracersOf(a) + TracersOf(b) && UsersOf(a + b) == UsersOf(a) + UsersOf(b)
  {
    if b == [] {
      assert a + b == a;
    } else {
      var n := |b| - 1;
      MetConcat(a, b[..n]);
      assert (a + b)[..|a + b| - 1] == a + b[..n];
    }
  }

  lemma MetFew(a: Meanwhile, b: Meanwhile, c: Meanwhile)
    ensures TracersOf([a]) == a.tracers && UsersOf([a]) == a.users
    ensures TracersOf([a, b]) == a.tracers + b.tracers && UsersOf([a, b]) == a.users + b.users
    ensures TracersOf([a, b, c]) == a.tracers + b.tracers + c.tracers && UsersOf([a, b, c]) == a.users + b.users + c.users
  {
    assert [a, b] == [a] + [b] && [a, b, c] == [a, b] + [c];
    MetConcat([a], [b]);
    MetConcat([a, b], [c]);
  }

  lemma StepPlaces(s: System, op: Op)
    requires s.core.trace.recordSize > 0
    ensures var r := Do(s, op);
      && r.core.users - OwnPlaces(r) == s.core.users - OwnPlaces(s) + UsersOf(Met(s, op))
      && r.core.tracers - OwnPlaces(r) ==
        s.core.tracers - OwnPlaces(s) + TracersOf(Met(s, op)) + if KeepsPlace(s, op) then 1 else 0
    ensures s.boot.saved <= Do(s, op).boot.saved
  {
    hide Fetch, Step, After, UsersOf, TracersOf;
    match op
    case Outside(m) => MetFew(m, m, m);
    case Phase(_, before, during, _, between, _) =>
      MetFew(before, during, between);
      MetNone();
    case StopBoot(before, during, _, between, _, _) =>
      MetFew(before, during, between);
      MetFew(between, between, between);
      MetNone();
  }

  lemma MetNone()
    ensures TracersOf([]) == 0 && UsersOf([]) == 0
  {}

  /**
    Over any run, whatever fails, the boot tracer counts as a user exactly while it runs. It also counts as a tracer
    then, and once more for ever for each failure that leaves a place taken; an overflow is none of these. Nothing that
    has been saved is lost.
   */
  lemma {:induction false} PlacesBalance(s: System, ops: seq<Op>)
    requires s.core.trace.recordSize > 0
    ensures var r := DoAll(s, ops);
      && r.core.users - OwnPlaces(r) == s.core.users - OwnPlaces(s) + UsersOf(MetInAll(s, ops))
      && r.core.tracers - OwnPlaces(r) ==
        s.core.tracers - OwnPlaces(s) + TracersOf(MetInAll(s, ops)) + PlacesKept(s, ops)
    ensures s.boot.saved <= DoAll(s, ops).boot.saved
  {
    hide Do, Met, UsersOf, TracersOf, OwnPlaces, KeepsPlace;
    if ops == [] {
      MetNone();
    } else {
      var n := |ops| - 1;
      PlacesBalance(s, ops[..n]);
      StepPlaces(DoAll(s, ops[..n]), ops[n]);
      MetConcat(MetInAll(s, ops[..n]), Met(DoAll(s, ops[..n]), ops[n]));
    }
  }
}
