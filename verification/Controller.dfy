/** Adapter, engine and queue together: what the controller keeps over any run of events and pops. */
module Controller {
  import opened Base
  import opened Rules
  import opened Ordered
  import opened Transition
  import opened Executor
  import opened Niri

  datatype Ctl = Ctl(adapter: Adapter, queue: Queue)

  function Blank(config: Config): Ctl { Ctl(Niri.Fresh(config), EMPTY) }

  /** The queue just before a transition is ingested: emptied by a snapshot, rid of a closed window. */
  function Cleared(q: Queue, event: NiriEvent): (r: Queue)
    ensures Filed(q.pending) ==> Filed(r.pending)
  {
    match event
    case WindowsChanged(_) => EMPTY
    case WindowClosed(id) => Forgotten(q, id)
    case _ => q
  }

  function Ingest(q: Queue, t: Option<FocusTransition>): (r: Queue)
    ensures Filed(q.pending) ==> Filed(r.pending)
  {
    match t case None => q case Some(t) => Ingested(q, t)
  }

  /** One compositor event, as far as focus is concerned. */
  function Fed(c: Ctl, event: NiriEvent): Result<(Ctl, Option<FocusTransition>), AdapterError> {
    match Applied(c.adapter, event)
    case Err(e) => Err(e)
    case Ok((a, t)) => Ok((Ctl(a, Ingest(Cleared(c.queue, event), t)), t))
  }

  // ---------------------------------------------------------------- the joint invariant

  /** Every pending action is filed under a live window with its latest generation, is an expansion exactly
      if its window has the focus, and no window was decided about after the one in focus. */
  ghost predicate QueueSound(q: Queue, focus: Option<U64>, live: set<U64>, generation: U64) {
    && (forall id | id in q.pending ::
          && id in live && id in q.latest
          && q.pending[id].windowId == id
          && q.pending[id].generation == q.latest[id]
          && (q.pending[id].state.Focused? <==> focus == Some(id)))
    && (forall id | id in q.latest :: q.latest[id] <= generation)
    && (focus.Some? && focus.value in q.latest ==> forall id | id in q.latest :: q.latest[id] <= q.latest[focus.value])
  }

  ghost predicate Sound(c: Ctl) {
    var e := c.adapter.engine;
    Mirrors(c.adapter) && QueueSound(c.queue, e.focused, e.windows.Keys, e.generation)
  }

  lemma IngestKeepsSound(q: Queue, before: Option<U64>, e: Engine, t: FocusTransition)
    requires QueueSound(q, before, e.windows.Keys, e.generation) && Coherent(before, e, t)
    ensures QueueSound(Ingested(q, t), e.focused, e.windows.Keys, e.generation)
  {
    var q' := Ingested(q, t);
    forall id: U64
      ensures match LastDecision(t.decisions, id)
              case None => PendingAt(q', id) == PendingAt(q, id) && LatestAt(q', id) == LatestAt(q, id)
              case Some(d) => PendingAt(q', id) == ActionOf(t.generation, d) && LatestAt(q', id) == Some(t.generation)
    {
      IngestLookup(q, t.generation, t.decisions, id);
    }
    forall id | id in q'.pending
      ensures id in e.windows && id in q'.latest && q'.pending[id].windowId == id
              && q'.pending[id].generation == q'.latest[id]
              && (q'.pending[id].state.Focused? <==> e.focused == Some(id))
    {
      assert PendingAt(q', id) == Some(q'.pending[id]);
      if LastDecision(t.decisions, id).None? { assert LatestAt(q', id) == LatestAt(q, id); }
    }
    forall id | id in q'.latest ensures q'.latest[id] <= e.generation {
      if LastDecision(t.decisions, id).None? { assert LatestAt(q', id) == LatestAt(q, id); }
    }
    if e.focused.Some? && e.focused.value in q'.latest {
      FocusHasLatest(q, q', before, e, t);
    }
  }

  lemma FocusHasLatest(q: Queue, q': Queue, before: Option<U64>, e: Engine, t: FocusTransition)
    requires QueueSound(q, before, e.windows.Keys, e.generation) && Coherent(before, e, t)
    requires e.focused.Some? && e.focused.value in q'.latest
    requires forall id | id in q'.latest :: q'.latest[id] <= e.generation
    requires forall id: U64 :: LatestAt(q', id) == if LastDecision(t.decisions, id).Some? then Some(t.generation) else LatestAt(q, id)
    ensures forall id | id in q'.latest :: q'.latest[id] <= q'.latest[e.focused.value]
  {
    var f := e.focused.value;
    if t.decisions == [] {
      assert before == Some(f) by { assert LastDecision(t.decisions, f).None?; }
      assert LatestAt(q', f) == LatestAt(q, f);
      forall id | id in q'.latest ensures q'.latest[id] <= q'.latest[f] { assert LatestAt(q', id) == LatestAt(q, id); }
    } else {
      assert LatestAt(q', f) == Some(t.generation);
    }
  }

  /** Every accepted event keeps the joint invariant; the only rejected one is a snapshot with more than
      one focused window. */
  lemma FedKeepsSound(c: Ctl, event: NiriEvent)
    requires Sound(c)
    ensures Fed(c, event).Err? <==> event.WindowsChanged? && TwoFocused(event.windows)
    ensures Fed(c, event).Ok? ==> Sound(Fed(c, event).value.0)
                                  && Fed(c, event).value.0.adapter.engine.config == c.adapter.engine.config
  {
    if event.WindowsChanged? {
      var ws := event.windows;
      TwoFocusedExactly(ws);
      if !TwoFocused(ws) {
        ReplacedIsSnapshot(c.adapter, ws);
        var (a, t) := Replaced(c.adapter, ws);
        IngestKeepsSound(EMPTY, None, a.engine, t);
      }
    } else {
      AppliedIsCoherent(c.adapter, event);
      var (a, t) := Applied(c.adapter, event).value;
      if t.Some? { IngestKeepsSound(c.queue, c.adapter.engine.focused, a.engine, t.value); }
    }
  }

  // ---------------------------------------------------------------- runs, next to an executor that never coalesces

  /** A controller together with the latest decision about each window since the window or the connection
      appeared, the widths left by an executor that applies every decision at once, and those left by the
      actions really popped. */
  datatype Exec = Exec(ctl: Ctl, decided: map<U64, FocusDecision>,
                       naive: map<U64, Proportion>, applied: map<U64, Proportion>)

  /** A compositor event, one round of the apply loop, or a rebuilt connection. A width that niri refuses
      ends the connection. */
  datatype Step = Event(event: NiriEvent) | Pop(accepted: bool) | Reconnect(config: Config)

  function Start(config: Config): Exec { Exec(Blank(config), map[], map[], map[]) }

  function Rebuilt(x: Exec, config: Config): Exec { x.(ctl := Blank(config), decided := map[]) }

  function Decided(decided: map<U64, FocusDecision>, ds: seq<FocusDecision>): map<U64, FocusDecision> {
    if ds == [] then decided else Decided(decided, ds[..|ds| - 1])[ds[|ds| - 1].windowId := ds[|ds| - 1]]
  }

  function ExecuteAll(widths: map<U64, Proportion>, ds: seq<FocusDecision>): map<U64, Proportion> {
    if ds == [] then widths
    else
      var earlier, d := ExecuteAll(widths, ds[..|ds| - 1]), ds[|ds| - 1];
      if d.outcome.Resize? then earlier[d.windowId := d.outcome.width] else earlier
  }

  function Remembered(decided: map<U64, FocusDecision>, event: NiriEvent): map<U64, FocusDecision> {
    match event
    case WindowsChanged(_) => map[]
    case WindowClosed(id) => decided - {id}
    case _ => decided
  }

  function Next(x: Exec, step: Step): (r: Exec)
    requires Filed(x.ctl.queue.pending)
    ensures Filed(r.ctl.queue.pending)
  {
    match step
    case Event(event) =>
      (match Fed(x.ctl, event)
       case Err(_) => Rebuilt(x, x.ctl.adapter.engine.config)
       case Ok((c, t)) =>
         var ds := match t case None => [] case Some(t) => t.decisions;
         Exec(c, Decided(Remembered(x.decided, event), ds), ExecuteAll(x.naive, ds), x.applied))
    case Pop(accepted) =>
      var pending := x.ctl.queue.pending;
      if pending == map[] then x
      else if !accepted then Rebuilt(x, x.ctl.adapter.engine.config)
      else
        var id := NextId(pending);
        x.(ctl := x.ctl.(queue := x.ctl.queue.(pending := pending - {id})), applied := x.applied[id := pending[id].width])
    case Reconnect(config) => Rebuilt(x, config)
  }

  function Run(x: Exec, steps: seq<Step>): (r: Exec)
    requires Filed(x.ctl.queue.pending)
    ensures Filed(r.ctl.queue.pending)
  {
    if steps == [] then x else Next(Run(x, steps[..|steps| - 1]), steps[|steps| - 1])
  }

  /** The latest decision about a window is done, or is exactly what is pending for it. */
  ghost predicate Accounted(x: Exec, id: U64) {
    var q := x.ctl.queue;
    && (id in x.decided <==> id in q.latest)
    && (id in q.pending ==> id in x.decided)
    && (id in x.decided ==>
          && x.decided[id].windowId == id
          && (id in q.pending ==> x.decided[id].outcome.Resize? && q.pending[id].state == x.decided[id].state
                                  && q.pending[id].width == x.decided[id].outcome.width)
          && (x.decided[id].outcome.Resize? ==>
                && id in x.ctl.adapter.engine.windows
                && id in x.naive && x.naive[id] == x.decided[id].outcome.width
                && (id !in q.pending ==> id in x.applied && x.applied[id] == x.decided[id].outcome.width)))
  }

  ghost predicate TraceSound(x: Exec) {
    Sound(x.ctl) && forall id: U64 :: Accounted(x, id)
  }

  lemma {:induction false} DecidedLookup(decided: map<U64, FocusDecision>, ds: seq<FocusDecision>, id: U64)
    ensures match LastDecision(ds, id)
            case None => (id in Decided(decided, ds) <==> id in decided) && (id in decided ==> Decided(decided, ds)[id] == decided[id])
            case Some(d) => id in Decided(decided, ds) && Decided(decided, ds)[id] == d
  {
    if ds != [] { DecidedLookup(decided, ds[..|ds| - 1], id); }
  }

  lemma {:induction false} ExecuteLookup(widths: map<U64, Proportion>, ds: seq<FocusDecision>, id: U64)
    ensures match LastDecision(ds, id)
            case None => id in widths ==> id in ExecuteAll(widths, ds) && ExecuteAll(widths, ds)[id] == widths[id]
            case Some(d) => d.outcome.Resize? ==> id in ExecuteAll(widths, ds) && ExecuteAll(widths, ds)[id] == d.outcome.width
  {
    if ds != [] { ExecuteLookup(widths, ds[..|ds| - 1], id); }
  }

  /** One transition, window by window: a new decision replaces the old one everywhere. */
  lemma IngestAccounts(x: Exec, c: Ctl, t: FocusTransition, id: U64)
    requires Accounted(x, id) && c.queue == Ingested(x.ctl.queue, t)
    requires LatestOrZero(x.ctl.queue, id) <= t.generation
    requires forall d | d in t.decisions :: d == Decide(c.adapter.engine, d.windowId, d.state)
    requires id in x.ctl.adapter.engine.windows ==> id in c.adapter.engine.windows
    ensures Accounted(Exec(c, Decided(x.decided, t.decisions), ExecuteAll(x.naive, t.decisions), x.applied), id)
  {
    IngestLookup(x.ctl.queue, t.generation, t.decisions, id);
    DecidedLookup(x.decided, t.decisions, id);
    ExecuteLookup(x.naive, t.decisions, id);
    assert LatestAt(c.queue, id).Some? <==> id in c.queue.latest;
    assert PendingAt(c.queue, id).Some? <==> id in c.queue.pending;
    assert LatestAt(x.ctl.queue, id).Some? <==> id in x.ctl.queue.latest;
    assert PendingAt(x.ctl.queue, id).Some? <==> id in x.ctl.queue.pending;
  }

  /** A run as the queue meets it: what is decided and pending once snapshot or close has cleared it. */
  function Prepared(x: Exec, event: NiriEvent, adapter: Adapter): Exec {
    Exec(Ctl(adapter, Cleared(x.ctl.queue, event)), Remembered(x.decided, event), x.naive, x.applied)
  }

  lemma PreparedAccounts(x: Exec, event: NiriEvent, adapter: Adapter, id: U64)
    requires Accounted(x, id)
    requires var live := x.ctl.adapter.engine.windows.Keys;
             event.WindowsChanged? || (if event.WindowClosed? then live - {event.id} else live) <= adapter.engine.windows.Keys
    ensures Accounted(Prepared(x, event, adapter), id)
  {
  }

  lemma EventKeepsAccounts(x: Exec, event: NiriEvent, id: U64)
    requires TraceSound(x) && Fed(x.ctl, event).Ok?
    ensures Accounted(Next(x, Event(event)), id)
  {
    var (c, t) := Fed(x.ctl, event).value;
    if event.WindowsChanged? {
      ReplacedIsSnapshot(x.ctl.adapter, event.windows);
      assert t == Some(Replaced(x.ctl.adapter, event.windows).1);
    } else {
      AppliedIsCoherent(x.ctl.adapter, event);
    }
    PreparedAccounts(x, event, c.adapter, id);
    if t.Some? {
      IngestAccounts(Prepared(x, event, c.adapter), c, t.value, id);
    }
  }

  lemma StepKeepsTraceSound(x: Exec, step: Step)
    requires TraceSound(x) && Filed(x.ctl.queue.pending)
    ensures TraceSound(Next(x, step))
  {
    match step
    case Event(event) =>
      FedKeepsSound(x.ctl, event);
      if Fed(x.ctl, event).Ok? {
        forall id: U64 ensures Accounted(Next(x, step), id) { EventKeepsAccounts(x, event, id); }
      }
    case Pop(_) =>
      forall id: U64 ensures Accounted(Next(x, step), id) { assert Accounted(x, id); }
    case Reconnect(_) =>
  }

  lemma {:induction false} RunKeepsTraceSound(config: Config, steps: seq<Step>)
    ensures TraceSound(Run(Start(config), steps))
  {
    if steps != [] {
      RunKeepsTraceSound(config, steps[..|steps| - 1]);
      StepKeepsTraceSound(Run(Start(config), steps[..|steps| - 1]), steps[|steps| - 1]);
    }
  }

  // ---------------------------------------------------------------- what every run keeps

  /** In every reachable state a pending action belongs to a live window, carries its latest generation,
      which the engine's never falls behind, and is an expansion exactly if its window has the focus; the
      signatures mirror the engine's windows. */
  lemma PendingMatchesFocus(config: Config, steps: seq<Step>)
    ensures var c := Run(Start(config), steps).ctl;
            var e := c.adapter.engine;
            && Mirrors(c.adapter)
            && (forall id | id in c.queue.pending ::
                  && id in e.windows && id in c.queue.latest
                  && c.queue.pending[id].generation == c.queue.latest[id]
                  && (c.queue.pending[id].state.Focused? <==> e.focused == Some(id)))
            && forall id | id in c.queue.latest :: c.queue.latest[id] <= e.generation
  {
    RunKeepsTraceSound(config, steps);
  }

  /** In every reachable state, saturated or not, a pending action of the focused window runs next. */
  lemma FocusedRunsFirst(config: Config, steps: seq<Step>, f: U64)
    requires var c := Run(Start(config), steps).ctl;
             c.adapter.engine.focused == Some(f) && f in c.queue.pending
    ensures IsNext(Run(Start(config), steps).ctl.queue.pending, f)
  {
    RunKeepsTraceSound(config, steps);
  }

  /** A popped action always carries out the latest decision about its window: nothing stale is applied. */
  lemma PopAppliesLatestDecision(config: Config, steps: seq<Step>, id: U64)
    requires IsNext(Run(Start(config), steps).ctl.queue.pending, id)
    ensures var x := Run(Start(config), steps);
            var a := x.ctl.queue.pending[id];
            && id in x.decided && x.decided[id].outcome.Resize?
            && a.windowId == id && a.width == x.decided[id].outcome.width && a.state == x.decided[id].state
            && (a.state.Focused? <==> x.ctl.adapter.engine.focused == Some(id))
  {
    RunKeepsTraceSound(config, steps);
    assert Accounted(Run(Start(config), steps), id);
  }

  /** Newer news cancels older work: if the latest decision about a window asks for no width, nothing is
      pending for it. */
  lemma NoOpCancelsOlderWork(config: Config, steps: seq<Step>, id: U64)
    requires var x := Run(Start(config), steps); id in x.decided && !x.decided[id].outcome.Resize?
    ensures id !in Run(Start(config), steps).ctl.queue.pending
  {
    RunKeepsTraceSound(config, steps);
    assert Accounted(Run(Start(config), steps), id);
  }

  /** Coalescing refines the executor that applies every decision in order: once the queue is drained, each
      window whose latest decision asks for a width has the same width in both, and it is that one. */
  lemma CoalescingRefinesNaive(config: Config, steps: seq<Step>, id: U64)
    requires var x := Run(Start(config), steps);
             x.ctl.queue.pending == map[] && id in x.decided && x.decided[id].outcome.Resize?
    ensures var x := Run(Start(config), steps);
            && id in x.ctl.adapter.engine.windows && id in x.applied && id in x.naive
            && x.applied[id] == x.naive[id] == x.decided[id].outcome.width
  {
    RunKeepsTraceSound(config, steps);
    assert Accounted(Run(Start(config), steps), id);
  }

  /** Short of draining, the two executors differ on such a window only while its action is pending. */
  lemma CoalescingLagsOnlyWhilePending(config: Config, steps: seq<Step>, id: U64)
    requires var x := Run(Start(config), steps); id in x.decided && x.decided[id].outcome.Resize?
    ensures var x := Run(Start(config), steps);
            id in x.naive && if id in x.ctl.queue.pending then x.ctl.queue.pending[id].width == x.naive[id]
                             else id in x.applied && x.applied[id] == x.naive[id]
  {
    RunKeepsTraceSound(config, steps);
    assert Accounted(Run(Start(config), steps), id);
  }

  // ---------------------------------------------------------------- what an event makes the queue ask for

  /** The queue asks exactly for what the rules prescribe for the window in the focus state it now has. */
  ghost predicate AsksAsPrescribed(c: Ctl, id: U64) {
    var e := c.adapter.engine;
    var focused := e.focused == Some(id);
    && (id in c.queue.pending ==>
          c.queue.pending[id] == ResizeAction(e.generation, id, StateUnder(e.focused, id), c.queue.pending[id].width))
    && (focused <==> StateUnder(e.focused, id).Focused?)
    && forall width: Proportion ::
         (id in c.queue.pending && c.queue.pending[id].width == width)
         <==> exists index: nat :: Prescribes(e, id, focused, index, Width(width))
  }

  lemma DecisionIsPrescribed(c: Ctl, id: U64)
    requires LastAsked(c, id)
    ensures AsksAsPrescribed(c, id)
  {
    var e := c.adapter.engine;
    var state, focused := StateUnder(e.focused, id), e.focused == Some(id);
    forall width: Proportion
      ensures (id in c.queue.pending && c.queue.pending[id].width == width)
              <==> exists index: nat :: Prescribes(e, id, focused, index, Width(width))
    {
      forall index: nat ensures Decide(e, id, state).outcome == Resize(index, width)
                                <==> Prescribes(e, id, focused, index, Width(width)) {
        OutcomesExactly(e, id, state, index, width);
      }
      if id in c.queue.pending && c.queue.pending[id].width == width {
        assert Decide(e, id, state).outcome == Resize(Decide(e, id, state).outcome.ruleIndex, width);
      }
    }
  }

  ghost predicate LastAsked(c: Ctl, id: U64) {
    var e := c.adapter.engine;
    PendingAt(c.queue, id) == ActionOf(e.generation, Decide(e, id, StateUnder(e.focused, id)))
  }

  /** Whatever event has the adapter decide about a window, the queue asks for what the rules prescribe;
      about any other window it asks for what it asked before, if the window is still there. */
  lemma DecisionActs(c: Ctl, event: NiriEvent, id: U64)
    requires Sound(c) && Fed(c, event).Ok?
    ensures var (c', t) := Fed(c, event).value;
            if t.Some? && LastDecision(t.value.decisions, id).Some? then AsksAsPrescribed(c', id)
            else PendingAt(c'.queue, id) == PendingAt(Cleared(c.queue, event), id)
  {
    var (c', t) := Fed(c, event).value;
    if t.Some? {
      if event.WindowsChanged? {
        ReplacedIsSnapshot(c.adapter, event.windows);
      } else {
        AppliedIsCoherent(c.adapter, event);
      }
      IngestLookup(Cleared(c.queue, event), t.value.generation, t.value.decisions, id);
      if LastDecision(t.value.decisions, id).Some? {
        assert LastAsked(c', id);
        DecisionIsPrescribed(c', id);
      }
    }
  }

  lemma RunSnoc(x: Exec, steps: seq<Step>, step: Step)
    requires Filed(x.ctl.queue.pending)
    ensures Run(x, steps + [step]) == Next(Run(x, steps), step)
  {
    assert (steps + [step])[..|steps|] == steps;
  }

  /** After a focus report, in every reachable state: the focus is where the report says, windows and rules are
      as before, the queue asks for the focused width of the window that has it and the unfocused width of the
      one that lost it, and all other pending work stays. */
  lemma FocusReportActs(config: Config, steps: seq<Step>, focus: Option<U64>, id: U64)
    ensures var c := Run(Start(config), steps).ctl;
            var c' := Run(Start(config), steps + [Event(WindowFocusChanged(focus))]).ctl;
            && c'.adapter.engine.focused == focus && c'.adapter.known == c.adapter.known
            && c'.adapter.engine.windows == c.adapter.engine.windows && c'.adapter.engine.config == c.adapter.engine.config
            && if focus == Some(id) || c.adapter.engine.focused == Some(id) then AsksAsPrescribed(c', id)
               else PendingAt(c'.queue, id) == PendingAt(c.queue, id)
  {
    var x := Run(Start(config), steps);
    RunKeepsTraceSound(config, steps);
    RunSnoc(Start(config), steps, Event(WindowFocusChanged(focus)));
    FocusReportIsDecided(x.ctl.adapter, focus);
    DecisionActs(x.ctl, WindowFocusChanged(focus), id);
  }

  /** After an accepted snapshot the queue asks for what the rules prescribe for each window it lists, in the
      focus state the snapshot gives it, and for nothing else. */
  lemma SnapshotActs(config: Config, steps: seq<Step>, ws: seq<NiriWindow>, id: U64)
    requires !TwoFocused(ws)
    ensures var c := Run(Start(config), steps + [Event(WindowsChanged(ws))]).ctl;
            && c.adapter.engine.focused == SnapshotFocus(ws)
            && if exists w :: w in ws && w.id == id then AsksAsPrescribed(c, id) else id !in c.queue.pending
  {
    var x := Run(Start(config), steps);
    RunKeepsTraceSound(config, steps);
    RunSnoc(Start(config), steps, Event(WindowsChanged(ws)));
    FedKeepsSound(x.ctl, WindowsChanged(ws));
    DecisionActs(x.ctl, WindowsChanged(ws), id);
    SnapshotIsReported(x.ctl.adapter, ws, id);
    ReplacedIsSnapshot(x.ctl.adapter, ws);
    ListedExactly(ws, id);
  }

  /** And it is carried out next: one round after the report the focused window has the width its rule
      prescribes for a focused window, whatever else is pending. */
  lemma FocusReportIsApplied(config: Config, steps: seq<Step>, f: U64, index: nat, width: Proportion)
    requires Prescribes(Run(Start(config), steps).ctl.adapter.engine, f, true, index, Width(width))
    ensures var x := Run(Start(config), steps + [Event(WindowFocusChanged(Some(f)))] + [Pop(true)]);
            f in x.applied && x.applied[f] == width && f !in x.ctl.queue.pending
  {
    var reported := steps + [Event(WindowFocusChanged(Some(f)))];
    var x := Run(Start(config), reported);
    FocusReportActs(config, steps, Some(f), f);
    assert Prescribes(x.ctl.adapter.engine, f, true, index, Width(width));
    FocusedRunsFirst(config, reported, f);
    RunSnoc(Start(config), reported, Pop(true));
    NextUnique(x.ctl.queue.pending, f, NextId(x.ctl.queue.pending));
  }

  // ---------------------------------------------------------------- the mirror over runs

  /** The rules in force and the events taken since the connection was last rebuilt. */
  ghost function Connection(config: Config, steps: seq<Step>): (Config, seq<NiriEvent>) {
    if steps == [] then (config, [])
    else
      var front := steps[..|steps| - 1];
      var (rules, events) := Connection(config, front);
      match steps[|steps| - 1]
      case Event(event) => if event.WindowsChanged? && TwoFocused(event.windows) then (rules, []) else (rules, events + [event])
      case Pop(accepted) =>
        if accepted || Run(Start(config), front).ctl.queue.pending == map[] then (rules, events) else (rules, [])
      case Reconnect(loaded) => (loaded, [])
  }

  /** In every reachable state the controller works by the rules loaded last, knows exactly the windows that
      the events of its connection leave open, each by the latest news about it, and has the focus those
      events name last. */
  lemma MirrorFollowsConnection(config: Config, steps: seq<Step>, id: U64)
    ensures var a := Run(Start(config), steps).ctl.adapter;
            var (rules, events) := Connection(config, steps);
            && a.engine.config == rules && a.engine.focused == ReportedFocus(events) && Knows(a, id, LastNews(events, id))
  {
    AdapterFollowsConnection(config, steps);
    MirrorIsTheReport(Connection(config, steps).0, Connection(config, steps).1, id);
  }

  lemma {:induction false} AdapterFollowsConnection(config: Config, steps: seq<Step>)
    ensures var (rules, events) := Connection(config, steps); Run(Start(config), steps).ctl.adapter == AfterAll(rules, events)
  {
    if steps != [] {
      var front, step := steps[..|steps| - 1], steps[|steps| - 1];
      AdapterFollowsConnection(config, front);
      var (rules, events) := Connection(config, front);
      MirrorIsTheReport(rules, events, 0);
      if step.Event? {
        if step.event.WindowsChanged? {
          TwoFocusedExactly(step.event.windows);
        } else {
          AppliedIsCoherent(AfterAll(rules, events), step.event);
        }
        AfterSnoc(rules, events, step.event);
      }
    }
  }

  lemma AfterSnoc(config: Config, events: seq<NiriEvent>, event: NiriEvent)
    ensures AfterAll(config, events + [event]) == After(AfterAll(config, events), event)
  {
    assert (events + [event])[..|events|] == events;
  }

  // ---------------------------------------------------------------- when queued work is dropped

  function WidthAt(widths: map<U64, Proportion>, id: U64): Option<Proportion> {
    if id in widths then Some(widths[id]) else None
  }

  /** Both executors have left this window alike. */
  predicate Agree(x: Exec, id: U64) {
    WidthAt(x.applied, id) == WidthAt(x.naive, id)
  }

  /** The latest decision about the window asks for a width. */
  predicate Stands(x: Exec, id: U64) {
    id in x.decided && x.decided[id].outcome.Resize?
  }

  /** Any action still pending for the window would change nothing. */
  predicate NothingOwed(x: Exec, id: U64) {
    id in x.ctl.queue.pending ==> WidthAt(x.applied, id) == Some(x.ctl.queue.pending[id].width)
  }

  /** A decision is forgotten exactly by a new connection, be it for a reload, a refused width or a rejected
      snapshot, by the close of its window, and by a snapshot that omits its window. */
  lemma ForgottenExactly(x: Exec, step: Step, id: U64)
    requires TraceSound(x) && Filed(x.ctl.queue.pending) && id in x.decided
    ensures id !in Next(x, step).decided
       <==> match step
            case Reconnect(_) => true
            case Pop(accepted) => !accepted && x.ctl.queue.pending != map[]
            case Event(WindowClosed(closed)) => closed == id
            case Event(WindowsChanged(ws)) => TwoFocused(ws) || forall w | w in ws :: w.id != id
            case Event(_) => false
  {
    if step.Event? {
      FedKeepsSound(x.ctl, step.event);
      if Fed(x.ctl, step.event).Ok? {
        var (c, t) := Fed(x.ctl, step.event).value;
        if step.event.WindowsChanged? {
          ReplacedIsSnapshot(x.ctl.adapter, step.event.windows);
          ListedExactly(step.event.windows, id);
        }
        var ds := match t case None => [] case Some(t) => t.decisions;
        DecidedLookup(Remembered(x.decided, step.event), ds, id);
      }
    }
  }

  lemma {:induction false} NoResizeNoWidth(widths: map<U64, Proportion>, ds: seq<FocusDecision>, id: U64)
    requires forall d | d in ds && d.windowId == id :: !d.outcome.Resize?
    ensures (id in ExecuteAll(widths, ds) <==> id in widths)
            && (id in widths ==> ExecuteAll(widths, ds)[id] == widths[id])
  {
    if ds != [] {
      assert ds[|ds| - 1] in ds;
      NoResizeNoWidth(widths, ds[..|ds| - 1], id);
    }
  }

  /** An event after which no resize stands for a window leaves its width alone in both executors. */
  lemma EventLeavesWidths(x: Exec, event: NiriEvent, id: U64)
    requires TraceSound(x) && Filed(x.ctl.queue.pending) && !Stands(Next(x, Event(event)), id)
    ensures var y := Next(x, Event(event)); y.applied == x.applied && WidthAt(y.naive, id) == WidthAt(x.naive, id)
  {
    if Fed(x.ctl, event).Ok? {
      var (c, t) := Fed(x.ctl, event).value;
      if t.Some? {
        if event.WindowsChanged? {
          ReplacedIsSnapshot(x.ctl.adapter, event.windows);
        } else {
          AppliedIsCoherent(x.ctl.adapter, event);
        }
        var ds := t.value.decisions;
        DecidedLookup(Remembered(x.decided, event), ds, id);
        assert forall d | d in ds && d.windowId == id :: d == LastDecision(ds, id).value;
        NoResizeNoWidth(x.naive, ds, id);
      }
    }
  }

  lemma StandingIsExact(x: Exec, id: U64)
    requires Accounted(x, id) && Stands(x, id)
    ensures Agree(x, id) <==> NothingOwed(x, id)
  {
  }

  /** What one step does to the agreement of the two executors on one window, exactly. While a resize stands
      they agree if and only if nothing is owed. A step that leaves the window without the resize that stood for
      it drops what was owed: a close, a snapshot that omits it, a rejected snapshot, a refused width, a reload,
      or a newer decision that asks for no width. Every other step leaves the window as it was. */
  lemma StepAgreesExactly(x: Exec, step: Step, id: U64)
    requires TraceSound(x) && Filed(x.ctl.queue.pending)
    ensures var y := Next(x, step);
            Agree(y, id) <==> if Stands(y, id) then NothingOwed(y, id)
                              else if Stands(x, id) then NothingOwed(x, id)
                              else Agree(x, id)
  {
    assert Accounted(x, id);
    if Stands(Next(x, step), id) {
      StepKeepsTraceSound(x, step);
      assert Accounted(Next(x, step), id);
      StandingIsExact(Next(x, step), id);
    } else {
      if Stands(x, id) { StandingIsExact(x, id); }
      if step.Event? { EventLeavesWidths(x, step.event, id); }
    }
  }

  /** Exactly when coalescing leaves a window as the executor that applies everything does, over any run: if
      and only if nothing was owed the last time a resize stood for it. Before the first one they agree. */
  lemma {:induction false} CoalescingAgreesExactly(config: Config, steps: seq<Step>, id: U64, k: nat)
    requires k <= |steps| && forall j | k < j <= |steps| :: !Stands(Run(Start(config), steps[..j]), id)
    ensures Stands(Run(Start(config), steps[..k]), id) ==>
              (Agree(Run(Start(config), steps), id) <==> NothingOwed(Run(Start(config), steps[..k]), id))
    ensures k == 0 ==> Agree(Run(Start(config), steps), id)
    decreases |steps|
  {
    assert steps[..|steps|] == steps;
    RunKeepsTraceSound(config, steps[..k]);
    if k == |steps| {
      assert Accounted(Run(Start(config), steps), id);
      if Stands(Run(Start(config), steps), id) { StandingIsExact(Run(Start(config), steps), id); }
    } else {
      var front := steps[..|steps| - 1];
      assert forall j | 0 <= j <= |front| :: front[..j] == steps[..j];
      CoalescingAgreesExactly(config, front, id, k);
      RunKeepsTraceSound(config, front);
      assert !Stands(Run(Start(config), steps[..|steps|]), id);
      StepAgreesExactly(Run(Start(config), front), steps[|steps| - 1], id);
      if k < |front| { assert !Stands(Run(Start(config), steps[..|front|]), id); }
      if k == |front| {
        assert Accounted(Run(Start(config), front), id);
        if Stands(Run(Start(config), front), id) { StandingIsExact(Run(Start(config), front), id); }
      }
    }
  }

  /** Why the latest decision is forgotten with its window: when a window is closed before its action ran and
      its id is used again, the new window is live, nothing is pending for it and nothing more was applied to it,
      while the executor that never coalesces had resized its predecessor. */
  lemma ReusedIdStartsOver(x: Exec, w: NiriWindow)
    requires TraceSound(x) && Filed(x.ctl.queue.pending) && w.id in x.ctl.queue.pending && !w.isFocused
    ensures var y := Next(Next(x, Event(WindowClosed(w.id))), Event(WindowOpenedOrChanged(w)));
            && w.id in y.ctl.adapter.engine.windows && w.id !in y.decided && w.id !in y.ctl.queue.pending
            && y.applied == x.applied
            && w.id in y.naive && y.naive[w.id] == x.ctl.queue.pending[w.id].width
  {
    assert Accounted(x, w.id);
  }

  /** A rule for every window that has an application id. */
  const ANY_APP := AttentionRule(Some(_ => true), None, AttentionPolicy(Width(0.5), Width(0.1)))

  const TERMINAL := NiriWindow(1, None, Some("kitty"), true, false)

  lemma TerminalIsDecided()
    ensures var (a, t) := Replaced(Niri.Fresh([ANY_APP]), [TERMINAL]);
            && |FocusedIds([TERMINAL])| == 1
            && LastDecision(t.decisions, 1) == Some(FocusDecision(1, Focused, Resize(0, 0.5)))
  {
    var ws := [TERMINAL];
    var a := Niri.Fresh([ANY_APP]);
    assert ws[..0] == [] && FocusedIds(ws) == [1];
    assert UpsertAll(BLANK, ws[..0]) == BLANK;
    assert 1 in RecordsOf(ws) && RecordsOf(ws)[1] == RecordOf(TERMINAL);
    ReplacedIsSnapshot(a, ws);
    assert Matches(ANY_APP, IdentityOf(RecordOf(TERMINAL)));
    OutcomesExactly(Replaced(a, ws).0.engine, 1, Focused, 0, 0.5);
  }

  lemma TerminalIsQueued()
    ensures var x := Next(Start([ANY_APP]), Event(WindowsChanged([TERMINAL])));
            1 in x.ctl.queue.pending && x.applied == map[]
  {
    TerminalIsDecided();
    var (_, t) := Replaced(Niri.Fresh([ANY_APP]), [TERMINAL]);
    IngestLookup(EMPTY, t.generation, t.decisions, 1);
  }

  /** Such a state is reached: a snapshot with one focused window that is closed before the first pop. */
  lemma ReusedIdIsReached()
    ensures var steps := [Event(WindowsChanged([TERMINAL])), Event(WindowClosed(1)),
                          Event(WindowOpenedOrChanged(TERMINAL.(isFocused := false)))];
            var y := Run(Start([ANY_APP]), steps);
            && 1 in y.ctl.adapter.engine.windows && 1 !in y.ctl.queue.pending && !Agree(y, 1)
  {
    var a, b, c := Event(WindowsChanged([TERMINAL])), Event(WindowClosed(1)),
                   Event(WindowOpenedOrChanged(TERMINAL.(isFocused := false)));
    var x := Next(Start([ANY_APP]), a);
    TerminalIsQueued();
    BlankIsSound([ANY_APP]);
    StepKeepsTraceSound(Start([ANY_APP]), a);
    ReusedIdStartsOver(x, TERMINAL.(isFocused := false));
    RunThree(Start([ANY_APP]), a, b, c);
  }

  lemma RunThree(x: Exec, a: Step, b: Step, c: Step)
    requires Filed(x.ctl.queue.pending)
    ensures Run(x, [a, b, c]) == Next(Next(Next(x, a), b), c)
  {
    assert [a, b, c][..2] == [a, b] && [a, b][..1] == [a] && [a][..0] == [];
    assert Run(x, [a]) == Next(x, a);
    assert Run(x, [a, b]) == Next(Next(x, a), b);
  }

  function Backlog(x: Exec): nat { |x.ctl.queue.pending.Keys| }

  /** Without new events, as many rounds as there are pending actions drain the queue. */
  lemma {:induction false} PopsDrain(x: Exec, rounds: seq<Step>)
    requires Filed(x.ctl.queue.pending) && forall i | 0 <= i < |rounds| :: rounds[i] == Pop(true)
    ensures Backlog(Run(x, rounds)) == if |rounds| < Backlog(x) then Backlog(x) - |rounds| else 0
  {
    if rounds != [] {
      var front := rounds[..|rounds| - 1];
      PopsDrain(x, front);
      PopShrinks(Run(x, front));
    }
  }

  lemma PopShrinks(x: Exec)
    requires Filed(x.ctl.queue.pending)
    ensures Backlog(Next(x, Pop(true))) == if Backlog(x) == 0 then 0 else Backlog(x) - 1
  {
  }

  // ---------------------------------------------------------------- snapshots

  /** An action with its generation left out. */
  function Ageless(a: Option<ResizeAction>): Option<ResizeAction> {
    match a case None => None case Some(action) => Some(action.(generation := 0))
  }

  lemma {:induction false} DecideAllSame(a: Engine, b: Engine, ids: seq<U64>)
    requires a.(generation := 0) == b.(generation := 0)
    ensures DecideAll(a, ids) == DecideAll(b, ids)
  {
    if ids != [] { DecideAllSame(a, b, ids[..|ids| - 1]); }
  }

  /** A full snapshot erases history: from any two sound states with the same rules it leaves the same
      windows, focus and signatures, makes the same decisions, and leaves the same actions pending,
      generations aside. A fresh controller is one such state. */
  lemma SnapshotErasesHistory(c1: Ctl, c2: Ctl, ws: seq<NiriWindow>)
    requires Sound(c1) && Sound(c2) && c1.adapter.engine.config == c2.adapter.engine.config && !TwoFocused(ws)
    ensures Fed(c1, WindowsChanged(ws)).Ok? && Fed(c2, WindowsChanged(ws)).Ok?
    ensures var (r1, t1) := Fed(c1, WindowsChanged(ws)).value;
            var (r2, t2) := Fed(c2, WindowsChanged(ws)).value;
            && r1.adapter.known == r2.adapter.known
            && r1.adapter.engine.(generation := 0) == r2.adapter.engine.(generation := 0)
            && t1.Some? && t2.Some? && t1.value.decisions == t2.value.decisions
            && r1.queue.latest.Keys == r2.queue.latest.Keys
            && forall id: U64 :: Ageless(PendingAt(r1.queue, id)) == Ageless(PendingAt(r2.queue, id))
  {
    TwoFocusedExactly(ws);
    ReplacedIsSnapshot(c1.adapter, ws);
    ReplacedIsSnapshot(c2.adapter, ws);
    var (a1, t1) := Replaced(c1.adapter, ws);
    var (a2, t2) := Replaced(c2.adapter, ws);
    DecideAllSame(a1.engine, a2.engine, Ascending(RecordsOf(ws).Keys));
    SameDecisionsQueueAlike(t1, t2);
  }

  lemma SameDecisionsQueueAlike(t1: FocusTransition, t2: FocusTransition)
    requires t1.decisions == t2.decisions
    ensures var q1, q2 := Ingested(EMPTY, t1), Ingested(EMPTY, t2);
            q1.latest.Keys == q2.latest.Keys && forall id: U64 :: Ageless(PendingAt(q1, id)) == Ageless(PendingAt(q2, id))
  {
    var q1, q2 := Ingested(EMPTY, t1), Ingested(EMPTY, t2);
    forall id: U64 ensures Ageless(PendingAt(q1, id)) == Ageless(PendingAt(q2, id))
                           && (LatestAt(q1, id).Some? <==> LatestAt(q2, id).Some?) {
      IngestLookup(EMPTY, t1.generation, t1.decisions, id);
      IngestLookup(EMPTY, t2.generation, t2.decisions, id);
    }
    forall id: U64 ensures id in q1.latest <==> id in q2.latest {
      assert LatestAt(q1, id).Some? <==> LatestAt(q2, id).Some?;
    }
  }

  lemma BlankIsSound(config: Config)
    ensures Sound(Blank(config))
  {
  }
}
