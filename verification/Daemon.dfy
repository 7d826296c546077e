/** The whole daemon: compositor stream, focus controller, registry and broker in one state machine. */
module Daemon {
  import opened Base
  import opened Rules
  import opened Niri
  import Protocol
  import DiffProperties
  import Minimization
  import Replica
  import Service
  import Transition
  import Executor
  import Controller

  /** What the event reader hands over: an event, the end of the stream, or a read error. */
  datatype StreamMessage = Received(event: NiriEvent) | StreamClosed | StreamFailed(reason: string)

  datatype Failure = StreamEnded | ReadError(reason: string) | MinimizedRejected | SnapshotRejected | WidthRefused

  /** A message with the subscribers (by position) that a broadcast it causes will fail to reach. */
  datatype Arrival = Arrival(message: StreamMessage, lost: set<nat>)

  /** One connection's mutable state together with the broker, which outlives connections. */
  datatype World = World(ctl: Controller.Ctl, registry: Minimization.Registry, broker: Service.Broker)

  // ---------------------------------------------------------------- specification of one message

  function RegistryReplaced(r: Minimization.Registry, ws: seq<Minimization.MinimizedWindow>): Minimization.Registry {
    if r.windows == ws then r else Minimization.Registry(ws, SaturatingSucc(r.revision))
  }

  ghost function Mirrored(w: World, event: NiriEvent, lost: set<nat>): World
    requires Protocol.DistinctIds(w.broker.windows)
    requires event.MinimizedWindowsChanged? ==> Minimization.Distinct(event.minimized)
  {
    if event.MinimizedWindowsChanged? then
      Minimization.ImageFaithful(event.minimized, event.minimized);
      var registry := RegistryReplaced(w.registry, event.minimized);
      w.(registry := registry, broker := Service.Published(w.broker, Minimization.Image(registry.windows), lost))
    else w
  }

  /** Registry and broker first, then the focus side. */
  ghost function Ingested(w: World, arrival: Arrival): Result<(World, Option<Transition.FocusTransition>), Failure>
    requires Protocol.DistinctIds(w.broker.windows)
  {
    match arrival.message
    case StreamClosed => Err(StreamEnded)
    case StreamFailed(reason) => Err(ReadError(reason))
    case Received(event) =>
      if event.MinimizedWindowsChanged? && !Minimization.Distinct(event.minimized) then Err(MinimizedRejected)
      else
        var mirrored := Mirrored(w, event, arrival.lost);
        match Controller.Fed(w.ctl, event)
        case Err(_) => Err(SnapshotRejected)
        case Ok((ctl, t)) => Ok((mirrored.(ctl := ctl), t))
  }

  // ---------------------------------------------------------------- runs

  /** The daemon with the bookkeeping of `Controller.Exec` about decided and applied widths. */
  datatype State = State(exec: Controller.Exec, registry: Minimization.Registry, broker: Service.Broker)

  /** A stream message, one round of the apply loop, a reloaded configuration, or a client request. When the
      connection is lost for whatever reason, `reason` is what subscribers are told. */
  datatype Step =
    | Stream(arrival: Arrival, reason: string)
    | Pop(accepted: bool, reason: string, lost: set<nat>)
    | Reload(config: Config, lost: set<nat>)
    | Client(request: Service.Step)

  function WorldOf(s: State): World { World(s.exec.ctl, s.registry, s.broker) }

  function Boot(config: Config): State { State(Controller.Start(config), Minimization.EMPTY, Service.INITIAL) }

  /** The broker is told, and everything else starts over. */
  function Lost(s: State, config: Config, reason: string, lost: set<nat>): State {
    State(Controller.Rebuilt(s.exec, config), Minimization.EMPTY, Service.MadeUnavailable(s.broker, reason, lost))
  }

  ghost predicate Runnable(s: State) {
    Protocol.DistinctIds(s.broker.windows) && Executor.Filed(s.exec.ctl.queue.pending)
  }

  ghost predicate Legal(step: Step) {
    step.Client? ==> step.request.FromClient?
  }

  ghost function Next(s: State, step: Step): (r: State)
    requires Runnable(s) && Legal(step)
    ensures Runnable(r)
  {
    match step
    case Stream(arrival, reason) =>
      (match Ingested(WorldOf(s), arrival)
       case Err(_) => Lost(s, s.exec.ctl.adapter.engine.config, reason, arrival.lost)
       case Ok((w, _)) => State(Controller.Next(s.exec, Controller.Event(arrival.message.event)), w.registry, w.broker))
    case Pop(accepted, reason, lost) =>
      if s.exec.ctl.queue.pending == map[] then s
      else if !accepted then Lost(s, s.exec.ctl.adapter.engine.config, reason, lost)
      else s.(exec := Controller.Next(s.exec, Controller.Pop(true)))
    case Reload(config, lost) => Lost(s, config, "reloading configuration and rebuilding niri state", lost)
    case Client(request) => s.(broker := Service.Served(s.broker, request))
  }

  ghost predicate AllLegal(steps: seq<Step>) {
    forall i | 0 <= i < |steps| :: Legal(steps[i])
  }

  ghost function Run(s: State, steps: seq<Step>): (r: State)
    requires Runnable(s) && AllLegal(steps)
    ensures Runnable(r)
  {
    if steps == [] then s else Next(Run(s, steps[..|steps| - 1]), steps[|steps| - 1])
  }

  /** Focus side sound, subscribers faithful, registry ids distinct, and whenever the broker is ready it shows
      exactly the image of the registry. */
  ghost predicate Invariant(s: State) {
    && Controller.TraceSound(s.exec)
    && Service.Faithful(s.broker)
    && Minimization.Distinct(s.registry.windows)
    && (s.broker.ready ==> s.broker.windows == Minimization.Image(s.registry.windows))
  }

  lemma MirroredKeeps(s: State, event: NiriEvent, lost: set<nat>)
    requires Invariant(s)
    requires event.MinimizedWindowsChanged? ==> Minimization.Distinct(event.minimized)
    ensures var w := Mirrored(WorldOf(s), event, lost);
            && Service.Faithful(w.broker) && Minimization.Distinct(w.registry.windows)
            && (w.broker.ready ==> w.broker.windows == Minimization.Image(w.registry.windows))
            && (event.MinimizedWindowsChanged? ==> w.broker.ready && w.registry.windows == event.minimized)
  {
    if event.MinimizedWindowsChanged? {
      Minimization.ImageFaithful(event.minimized, event.minimized);
      Service.StepKeepsFaithful(s.broker, Service.Publish(Minimization.Image(event.minimized), lost));
    }
  }

  lemma LostKeeps(s: State, config: Config, reason: string, lost: set<nat>)
    requires Invariant(s)
    ensures Invariant(Lost(s, config, reason, lost)) && !Lost(s, config, reason, lost).broker.ready
  {
    Service.StepKeepsFaithful(s.broker, Service.SetUnavailable(reason, lost));
  }

  lemma StepKeepsInvariant(s: State, step: Step)
    requires Invariant(s) && Runnable(s) && Legal(step)
    ensures Invariant(Next(s, step))
  {
    match step
    case Stream(arrival, reason) =>
      if Ingested(WorldOf(s), arrival).Ok? {
        MirroredKeeps(s, arrival.message.event, arrival.lost);
        Controller.StepKeepsTraceSound(s.exec, Controller.Event(arrival.message.event));
      } else {
        LostKeeps(s, s.exec.ctl.adapter.engine.config, reason, arrival.lost);
      }
    case Pop(accepted, reason, lost) =>
      if accepted {
        Controller.StepKeepsTraceSound(s.exec, Controller.Pop(true));
      } else {
        LostKeeps(s, s.exec.ctl.adapter.engine.config, reason, lost);
      }
    case Reload(config, lost) =>
      LostKeeps(s, config, "reloading configuration and rebuilding niri state", lost);
    case Client(request) =>
      Service.StepKeepsFaithful(s.broker, request);
  }

  /** Over any run of the daemon, across lost connections, refused widths and reloads. */
  lemma {:induction false} RunKeepsInvariant(config: Config, steps: seq<Step>)
    requires AllLegal(steps)
    ensures Invariant(Run(Boot(config), steps))
  {
    Controller.BlankIsSound(config);
    if steps != [] {
      var front := steps[..|steps| - 1];
      RunKeepsInvariant(config, front);
      assert Legal(steps[|steps| - 1]);
      StepKeepsInvariant(Run(Boot(config), front), steps[|steps| - 1]);
    }
  }

  /** After each accepted minimized snapshot the broker is ready with exactly its image, and the diff it had
      to take met its closing assertion. */
  lemma AcceptedSnapshotIsVisible(config: Config, steps: seq<Step>, ws: seq<Minimization.MinimizedWindow>,
                                  lost: set<nat>, reason: string)
    requires AllLegal(steps) && Minimization.Distinct(ws)
    ensures var s := Run(Boot(config), steps);
            var s' := Next(s, Stream(Arrival(Received(MinimizedWindowsChanged(ws)), lost), reason));
            && s'.registry.windows == ws && s'.broker.ready && s'.broker.windows == Minimization.Image(ws)
            && Minimization.Shows(s'.broker.windows, ws)
            && DiffProperties.ClosingAssertionHolds(s.broker.windows, Minimization.Image(ws))
  {
    var s := Run(Boot(config), steps);
    RunKeepsInvariant(config, steps);
    MirroredKeeps(s, MinimizedWindowsChanged(ws), lost);
    Minimization.ImageFaithful(ws, ws);
    DiffProperties.DiffReproducesNext(s.broker.windows, Minimization.Image(ws));
  }

  /** What a message must be to be taken, read off the message alone. */
  ghost predicate Acceptable(m: StreamMessage) {
    match m
    case Received(MinimizedWindowsChanged(ws)) => Minimization.Distinct(ws)
    case Received(WindowsChanged(ws)) => !TwoFocused(ws)
    case Received(_) => true
    case _ => false
  }

  /** What is said of a message that is not taken. */
  function ErrorOf(m: StreamMessage): Failure {
    match m
    case StreamClosed => StreamEnded
    case StreamFailed(reason) => ReadError(reason)
    case Received(event) => if event.MinimizedWindowsChanged? then MinimizedRejected else SnapshotRejected
  }

  lemma TakenExactlyIfAcceptable(s: State, arrival: Arrival)
    requires Invariant(s)
    ensures Ingested(WorldOf(s), arrival).Ok? <==> Acceptable(arrival.message)
    ensures !Acceptable(arrival.message) ==> Ingested(WorldOf(s), arrival) == Err(ErrorOf(arrival.message))
  {
    if arrival.message.Received? { Controller.FedKeepsSound(s.exec.ctl, arrival.message.event); }
  }

  /** A message is rejected exactly when the stream ended or failed, a minimized snapshot repeats an id, or a
      window snapshot names two focused windows; the state it meets plays no part. */
  lemma RejectedExactly(config: Config, steps: seq<Step>, arrival: Arrival)
    requires AllLegal(steps)
    ensures var taken := Ingested(WorldOf(Run(Boot(config), steps)), arrival);
            && (taken.Err? <==> !Acceptable(arrival.message))
            && (taken.Err? ==> taken.error == ErrorOf(arrival.message))
  {
    RunKeepsInvariant(config, steps);
    TakenExactlyIfAcceptable(Run(Boot(config), steps), arrival);
  }

  // ---------------------------------------------------------------- lost connections and reloads

  /** The step ends the connection: a message that is not taken, a refused width, or a reload. */
  ghost predicate EndsConnection(s: State, step: Step) {
    match step
    case Stream(arrival, _) => !Acceptable(arrival.message)
    case Pop(accepted, _, _) => !accepted && s.exec.ctl.queue.pending != map[]
    case Reload(_, _) => true
    case Client(_) => false
  }

  /** What subscribers are told then. */
  function Told(step: Step): string {
    match step
    case Stream(_, reason) => reason
    case Pop(_, reason, _) => reason
    case _ => "reloading configuration and rebuilding niri state"
  }

  /** When the connection ends, nothing of it survives: no window, focus, registry entry or pending action; the
      broker is unavailable for the reason given, still at its revision, and the widths already set stay set.
      Only a reload changes the rules, and no step but these does. */
  lemma ConnectionEndsCleanly(s: State, step: Step)
    requires Invariant(s) && Runnable(s) && Legal(step)
    ensures var s' := Next(s, step);
            var e := s'.exec.ctl.adapter.engine;
            && (EndsConnection(s, step) ==>
                  && e.windows == map[] && e.focused == None && e.generation == 0 && s'.exec.ctl.adapter.known == map[]
                  && s'.exec.ctl.queue.pending == map[] && s'.exec.ctl.queue.latest == map[] && s'.registry.windows == []
                  && !s'.broker.ready && s'.broker.unavailableReason == Told(step) && s'.broker.revision == s.broker.revision
                  && s'.exec.applied == s.exec.applied)
            && e.config == if step.Reload? then step.config else s.exec.ctl.adapter.engine.config
  {
    match step
    case Stream(arrival, _) =>
      TakenExactlyIfAcceptable(s, arrival);
      if Acceptable(arrival.message) { Controller.FedKeepsSound(s.exec.ctl, arrival.message.event); }
    case _ =>
  }

  /** The configuration loaded last. */
  function RulesLoaded(config: Config, steps: seq<Step>): Config {
    if steps == [] then config
    else match steps[|steps| - 1]
      case Reload(loaded, _) => loaded
      case _ => RulesLoaded(config, steps[..|steps| - 1])
  }

  /** In every reachable state the rules in force are those loaded last, across lost connections too. */
  lemma {:induction false} RulesInForce(config: Config, steps: seq<Step>)
    requires AllLegal(steps)
    ensures Run(Boot(config), steps).exec.ctl.adapter.engine.config == RulesLoaded(config, steps)
  {
    if steps != [] {
      var front := steps[..|steps| - 1];
      RulesInForce(config, front);
      RunKeepsInvariant(config, front);
      assert Legal(steps[|steps| - 1]);
      ConnectionEndsCleanly(Run(Boot(config), front), steps[|steps| - 1]);
    }
  }

  // ---------------------------------------------------------------- the feed, end to end

  /** What one step of the daemon puts into the broker's queue. */
  ghost function BrokerSteps(s: State, step: Step): (r: seq<Service.Step>)
    requires Runnable(s) && Legal(step)
    ensures Service.AllLegal(r)
  {
    match step
    case Stream(arrival, reason) =>
      if Ingested(WorldOf(s), arrival).Err? then [Service.SetUnavailable(reason, arrival.lost)]
      else if arrival.message.event.MinimizedWindowsChanged? then
        Minimization.ImageFaithful(arrival.message.event.minimized, arrival.message.event.minimized);
        [Service.Publish(Minimization.Image(arrival.message.event.minimized), arrival.lost)]
      else []
    case Pop(accepted, reason, lost) =>
      if s.exec.ctl.queue.pending == map[] || accepted then [] else [Service.SetUnavailable(reason, lost)]
    case Reload(_, lost) => [Service.SetUnavailable("reloading configuration and rebuilding niri state", lost)]
    case Client(request) => [request]
  }

  ghost function BrokerTrace(s: State, steps: seq<Step>): (r: seq<Service.Step>)
    requires Runnable(s) && AllLegal(steps)
    ensures Service.AllLegal(r)
  {
    if steps == [] then []
    else
      var front := steps[..|steps| - 1];
      BrokerTrace(s, front) + BrokerSteps(Run(s, front), steps[|steps| - 1])
  }

  lemma BrokerTakesStep(s: State, step: Step)
    requires Runnable(s) && Legal(step)
    ensures var more := BrokerSteps(s, step);
            if more == [] then Next(s, step).broker == s.broker
            else |more| == 1 && Service.Legal(more[0]) && Next(s, step).broker == Service.Next(s.broker, more[0])
  {
  }

  /** Inside the daemon the broker goes through a run of its own. */
  lemma {:induction false} BrokerFollowsTrace(config: Config, steps: seq<Step>)
    requires AllLegal(steps)
    ensures Service.Run(Service.INITIAL, BrokerTrace(Boot(config), steps)) == Run(Boot(config), steps).broker
  {
    if steps != [] {
      var front := steps[..|steps| - 1];
      BrokerFollowsTrace(config, front);
      assert Legal(steps[|steps| - 1]);
      var s, step, trace := Run(Boot(config), front), steps[|steps| - 1], BrokerTrace(Boot(config), front);
      BrokerTakesStep(s, step);
      var more := BrokerSteps(s, step);
      if more == [] {
        assert trace + more == trace;
      } else {
        assert more == [more[0]];
        Service.RunSnoc(Service.INITIAL, trace, more[0]);
      }
    }
  }

  /** From compositor to client: in every run of the daemon each retained subscriber's replayed view is the
      broker's, a replayed list shows exactly the registry's windows, field by field, and the subscriber has gone through
      every view since it joined, once and in order. */
  lemma SubscribersMirrorRegistry(config: Config, steps: seq<Step>, s: Service.Subscriber)
    requires AllLegal(steps) && s in Run(Boot(config), steps).broker.subscribers
    ensures var d := Run(Boot(config), steps);
            var log := Service.Messages(s.sent);
            && Replica.Replay(log) == Replica.Following(Service.ViewOf(d.broker))
            && (Replica.Replay(log).view.Ready? ==>
                  && Replica.Replay(log).view.windows == Minimization.Image(d.registry.windows)
                  && Minimization.Shows(Replica.Replay(log).view.windows, d.registry.windows))
            && Service.IsSuffix(Replica.Views(log), Service.History(Service.INITIAL, BrokerTrace(Boot(config), steps)))
  {
    RunKeepsInvariant(config, steps);
    BrokerFollowsTrace(config, steps);
    Service.NoSubscriberMissesAnUpdate(BrokerTrace(Boot(config), steps));
    Minimization.ImageFaithful(Run(Boot(config), steps).registry.windows, []);
    assert Service.Follows(s, Service.ViewOf(Run(Boot(config), steps).broker));
  }
}
