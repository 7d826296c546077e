/** The imperative control loop: ingesting stream messages and applying pending widths. */
module ControlLoop {
  import opened Base
  import opened Rules
  import opened Niri
  import opened Daemon
  import Protocol
  import Minimization
  import Service
  import Executor
  import Controller

  /** The widths niri holds, as set through its action socket. */
  class ActionClient {
    var widths: map<U64, Proportion>

    constructor ()
      ensures widths == map[]
    {
      widths := map[];
    }

    method SetWindowWidth(id: U64, width: Proportion, refused: bool) returns (result: Result<(), Failure>)
      modifies this
      ensures if refused then result == Err(WidthRefused) && widths == old(widths)
              else result == Ok(()) && widths == old(widths)[id := width]
    {
      if refused {
        return Err(WidthRefused);
      }
      widths := widths[id := width];
      result := Ok(());
    }
  }

  ghost function WorldNow(adapter: NiriAdapter, pending: Executor.PendingResizes,
                          minimized: Minimization.MinimizedRegistry, service: Service.BrokerState): World
    reads adapter, adapter.engine, pending, minimized, service
  {
    World(Controller.Ctl(adapter.State(), pending.State()), minimized.State(), service.State())
  }

  ghost predicate Ready(pending: Executor.PendingResizes, minimized: Minimization.MinimizedRegistry,
                        service: Service.BrokerState)
    reads pending, minimized, service
  {
    pending.Valid() && minimized.Valid() && service.Valid()
  }

  method MirrorMinimized(ws: seq<Minimization.MinimizedWindow>, lost: set<nat>,
                         minimized: Minimization.MinimizedRegistry, service: Service.BrokerState)
    returns (result: Result<(), Failure>)
    requires minimized.Valid() && service.Valid()
    modifies minimized, service
    ensures minimized.Valid() && service.Valid()
    ensures result.Ok? <==> Minimization.Distinct(ws)
    ensures result.Err? ==> result == Err(MinimizedRejected) && minimized.State() == old(minimized.State())
                            && service.State() == old(service.State())
    ensures result.Ok? ==> minimized.State() == RegistryReplaced(old(minimized.State()), ws)
                           && Protocol.DistinctIds(Minimization.Image(ws))
                           && service.State() == Service.Published(old(service.State()), Minimization.Image(ws), lost)
  {
    var change := minimized.Apply(Minimization.Snapshot(ws));
    match change {
      case Err(error) =>
        Minimization.RejectedSnapshot(old(minimized.State()), Minimization.Snapshot(ws), minimized.State(), error);
        result := Err(MinimizedRejected);
      case Ok(_) =>
        Minimization.ImageFaithful(ws, ws);
        service.PublishWindows(Minimization.Image(minimized.windows), lost);
        result := Ok(());
    }
  }

  /** One message of the event stream. A rejected message leaves all four parts as they were. */
  method IngestStreamMessage(arrival: Arrival, adapter: NiriAdapter, pending: Executor.PendingResizes,
                             minimized: Minimization.MinimizedRegistry, service: Service.BrokerState)
    returns (result: Result<(), Failure>)
    requires Ready(pending, minimized, service)
    modifies adapter, adapter.engine, pending, minimized, service
    ensures Ready(pending, minimized, service)
    ensures match Ingested(old(WorldNow(adapter, pending, minimized, service)), arrival)
            case Err(e) => result == Err(e)
                           && WorldNow(adapter, pending, minimized, service) == old(WorldNow(adapter, pending, minimized, service))
            case Ok((w, _)) => result == Ok(()) && WorldNow(adapter, pending, minimized, service) == w
  {
    if arrival.message.StreamClosed? {
      return Err(StreamEnded);
    }
    if arrival.message.StreamFailed? {
      return Err(ReadError(arrival.message.reason));
    }
    var event := arrival.message.event;
    if event.MinimizedWindowsChanged? {
      var mirrored := MirrorMinimized(event.minimized, arrival.lost, minimized, service);
      if mirrored.Err? {
        return mirrored;
      }
    }
    var applied := adapter.Apply(event);
    if applied.Err? {
      return Err(SnapshotRejected);
    }
    if event.WindowsChanged? {
      pending.Reset();
    }
    if event.WindowClosed? {
      pending.ForgetWindow(event.id);
    }
    if applied.value.Some? {
      pending.Ingest(applied.value.value);
    }
    result := Ok(());
  }

  // ---------------------------------------------------------------- the loops, followed by the run they perform

  /** What happens while the controller looks into its channel: it takes a stream message, or the broker
      thread serves a client. */
  type Incoming = s: Step | s.Stream? || (s.Client? && s.request.FromClient?)
    witness Stream(Arrival(StreamClosed, {}), "")

  function Steps(batch: seq<Incoming>): (r: seq<Step>)
    ensures r == batch && AllLegal(r)
  {
    batch
  }

  /** What has come by the time of the i-th look into the channel; nothing once everything has. */
  function Batch(batches: seq<seq<Incoming>>, i: nat): seq<Incoming> {
    if i < |batches| then batches[i] else []
  }

  const POPPED := Pop(true, "", {})

  /** The first `n` rounds of the apply loop: take what has come, then pop and apply one action. */
  function Rounds(batches: seq<seq<Incoming>>, n: nat): (r: seq<Step>)
    ensures AllLegal(r)
  {
    if n == 0 then [] else Rounds(batches, n - 1) + Steps(Batch(batches, n - 1)) + [POPPED]
  }

  /** How an undisturbed loop ends: after so many full rounds the queue was empty, or one more look into the
      channel cancelled everything that was left. */
  datatype Ending = Ending(rounds: nat, cancelled: bool)

  /** The run such a loop performs. */
  function Performed(batches: seq<seq<Incoming>>, e: Ending): (r: seq<Step>)
    ensures AllLegal(r)
  {
    Rounds(batches, e.rounds) + if e.cancelled then Steps(Batch(batches, e.rounds)) else []
  }

  /** How many steps the first `n` rounds take: everything that has come, and one pop each. */
  function StepsBefore(batches: seq<seq<Incoming>>, n: nat): nat {
    if n == 0 then 0 else StepsBefore(batches, n - 1) + (if n <= |batches| then |batches[n - 1]| else 0) + 1
  }

  lemma {:induction false} RoundsLayout(batches: seq<seq<Incoming>>, n: nat, i: nat)
    requires i < n
    ensures |Rounds(batches, n)| == StepsBefore(batches, n)
    ensures StepsBefore(batches, i) < StepsBefore(batches, i + 1) <= StepsBefore(batches, n)
    ensures Rounds(batches, n)[StepsBefore(batches, i + 1) - 1] == POPPED
    ensures i < |batches| ==> Rounds(batches, n)[StepsBefore(batches, i)..StepsBefore(batches, i + 1) - 1] == batches[i]
  {
    var earlier, last := Rounds(batches, n - 1), Steps(Batch(batches, n - 1)) + [POPPED];
    assert Rounds(batches, n) == earlier + last;
    if i < n - 1 {
      RoundsLayout(batches, n - 1, i);
    } else if n > 1 {
      RoundsLayout(batches, n - 1, n - 2);
    }
  }

  /** Nothing that has come is passed over and nothing else is taken: the run consists, round by round, of all
      messages and requests of that round's batch in order, followed by one pop, and of the last batch if the
      loop was cancelled. */
  lemma PerformedTakesAll(batches: seq<seq<Incoming>>, e: Ending, i: nat)
    ensures var run := Performed(batches, e);
            && |run| == StepsBefore(batches, e.rounds) + (if e.cancelled && e.rounds < |batches| then |batches[e.rounds]| else 0)
            && (i < e.rounds ==>
                  && StepsBefore(batches, i) < StepsBefore(batches, i + 1) <= |run|
                  && run[StepsBefore(batches, i + 1) - 1] == Pop(true, "", {})
                  && (i < |batches| ==> run[StepsBefore(batches, i)..StepsBefore(batches, i + 1) - 1] == batches[i]))
            && (e.cancelled && e.rounds < |batches| ==> run[StepsBefore(batches, e.rounds)..] == batches[e.rounds])
  {
    if i < e.rounds {
      RoundsLayout(batches, e.rounds, i);
    } else if e.rounds > 0 {
      RoundsLayout(batches, e.rounds, 0);
    }
  }

  /** The state in which a round begins, and the one in which it pops. */
  ghost function Begun(s: State, batches: seq<seq<Incoming>>, n: nat): (r: State)
    requires Runnable(s)
    ensures Runnable(r)
  {
    Run(s, Performed(batches, Ending(n, false)))
  }

  ghost function Drained(s: State, batches: seq<seq<Incoming>>, n: nat): (r: State)
    requires Runnable(s)
    ensures Runnable(r)
  {
    Run(Begun(s, batches, n), Steps(Batch(batches, n)))
  }

  /** There is an action left to apply. */
  ghost predicate Busy(s: State) {
    s.exec.ctl.queue.pending != map[]
  }

  ghost predicate Accepts(s: State, item: Incoming)
    requires Runnable(s)
  {
    item.Stream? ==> Ingested(WorldOf(s), item.arrival).Ok?
  }

  /** None of the first `n` items is a message that is rejected. */
  ghost predicate AcceptedUpTo(s: State, batch: seq<Incoming>, n: nat)
    requires Runnable(s) && n <= |batch|
  {
    forall k | 0 <= k < n :: Accepts(Run(s, Steps(batch[..k])), batch[k])
  }

  ghost predicate AllAccepted(s: State, batch: seq<Incoming>)
    requires Runnable(s)
  {
    AcceptedUpTo(s, batch, |batch|)
  }

  /** All messages of a round are accepted. */
  ghost predicate RoundTaken(s: State, batches: seq<seq<Incoming>>, n: nat)
    requires Runnable(s)
  {
    AllAccepted(Begun(s, batches, n), Batch(batches, n))
  }

  /** The k-th item is the first message to be rejected, with this error and in this world. */
  ghost predicate RejectedAt(s: State, batch: seq<Incoming>, k: nat, error: Failure, w: World)
    requires Runnable(s) && k < |batch|
  {
    && AcceptedUpTo(s, batch, k)
    && WorldOf(Run(s, Steps(batch[..k]))) == w
    && batch[k].Stream? && Ingested(WorldOf(Run(s, Steps(batch[..k]))), batch[k].arrival) == Err(error)
  }

  ghost predicate Rejected(s: State, batch: seq<Incoming>, error: Failure, w: World)
    requires Runnable(s)
  {
    exists k: nat :: k < |batch| && RejectedAt(s, batch, k, error, w)
  }

  lemma RunSnoc(s: State, steps: seq<Step>, step: Step)
    requires Runnable(s) && AllLegal(steps) && Legal(step)
    ensures AllLegal(steps + [step]) && Run(s, steps + [step]) == Next(Run(s, steps), step)
  {
    assert (steps + [step])[..|steps|] == steps;
  }

  lemma {:induction false} RunConcat(s: State, a: seq<Step>, b: seq<Step>)
    requires Runnable(s) && AllLegal(a) && AllLegal(b)
    ensures AllLegal(a + b) && Run(s, a + b) == Run(Run(s, a), b)
    decreases |b|
  {
    assert AllLegal(a + b);
    if b == [] {
      assert a + b == a;
    } else {
      var front, last := b[..|b| - 1], b[|b| - 1];
      assert Legal(last) && a + b == (a + front) + [last] && b == front + [last];
      RunConcat(s, a, front);
      RunSnoc(s, a + front, last);
      RunSnoc(Run(s, a), front, last);
    }
  }

  lemma {:induction false} RunKeeps(s: State, steps: seq<Step>)
    requires Runnable(s) && Invariant(s) && AllLegal(steps)
    ensures Invariant(Run(s, steps))
  {
    if steps != [] {
      assert Legal(steps[|steps| - 1]);
      RunKeeps(s, steps[..|steps| - 1]);
      StepKeepsInvariant(Run(s, steps[..|steps| - 1]), steps[|steps| - 1]);
    }
  }

  /** The world one accepted item leaves. */
  ghost function Took(w: World, item: Incoming): World
    requires Protocol.DistinctIds(w.broker.windows)
    requires item.Stream? ==> Ingested(w, item.arrival).Ok?
  {
    match item
    case Stream(arrival, _) => Ingested(w, arrival).value.0
    case Client(request) => w.(broker := Service.Served(w.broker, request))
  }

  lemma IncomingStep(s: State, item: Incoming)
    requires Runnable(s) && Accepts(s, item)
    ensures WorldOf(Next(s, item)) == Took(WorldOf(s), item) && Next(s, item).exec.applied == s.exec.applied
  {
  }

  lemma PopStep(s: State, id: U64)
    requires Runnable(s) && Executor.IsNext(s.exec.ctl.queue.pending, id)
    ensures var q := s.exec.ctl.queue;
            var s' := Next(s, POPPED);
            WorldOf(s') == WorldOf(s).(ctl := s.exec.ctl.(queue := q.(pending := q.pending - {id})))
            && s'.exec.applied == s.exec.applied[id := q.pending[id].width]
  {
  }

  /** One item of a batch. */
  method TakeItem(item: Incoming, adapter: NiriAdapter, pending: Executor.PendingResizes,
                  minimized: Minimization.MinimizedRegistry, service: Service.BrokerState)
    returns (result: Result<(), Failure>)
    requires Ready(pending, minimized, service)
    modifies adapter, adapter.engine, pending, minimized, service
    ensures Ready(pending, minimized, service)
    ensures var w := old(WorldNow(adapter, pending, minimized, service));
            if item.Stream? && Ingested(w, item.arrival).Err?
            then result == Err(Ingested(w, item.arrival).error) && WorldNow(adapter, pending, minimized, service) == w
            else result == Ok(()) && WorldNow(adapter, pending, minimized, service) == Took(w, item)
  {
    match item {
      case Stream(arrival, _) =>
        result := IngestStreamMessage(arrival, adapter, pending, minimized, service);
      case Client(request) =>
        service.Serve(request);
        result := Ok(());
    }
  }

  lemma RunItem(s: State, batch: seq<Incoming>, i: nat)
    requires Runnable(s) && i < |batch|
    ensures Run(s, Steps(batch[..i + 1])) == Next(Run(s, Steps(batch[..i])), batch[i])
  {
    assert Steps(batch[..i + 1]) == Steps(batch[..i]) + [batch[i]];
    RunSnoc(s, Steps(batch[..i]), batch[i]);
  }

  lemma ItemTaken(s: State, batch: seq<Incoming>, i: nat)
    requires Runnable(s) && i < |batch| && Accepts(Run(s, Steps(batch[..i])), batch[i])
    ensures var now, next := Run(s, Steps(batch[..i])), Run(s, Steps(batch[..i + 1]));
            WorldOf(next) == Took(WorldOf(now), batch[i]) && next.exec.applied == now.exec.applied
  {
    RunItem(s, batch, i);
    IncomingStep(Run(s, Steps(batch[..i])), batch[i]);
  }

  lemma RejectedHere(s: State, batch: seq<Incoming>, i: nat, error: Failure, w: World)
    requires Runnable(s) && i < |batch| && RejectedAt(s, batch, i, error, w)
    ensures Rejected(s, batch, error, w) && !AllAccepted(s, batch)
  {
    assert !Accepts(Run(s, Steps(batch[..i])), batch[i]);
  }

  /** Takes everything that has come, in order. It succeeds exactly if no message is rejected, and otherwise
      stops at the first rejected one, in the world that those before it leave. */
  method DrainStreamMessages(batch: seq<Incoming>, adapter: NiriAdapter, pending: Executor.PendingResizes,
                             minimized: Minimization.MinimizedRegistry, service: Service.BrokerState, ghost s: State)
    returns (result: Result<(), Failure>)
    requires Ready(pending, minimized, service) && Runnable(s)
    requires WorldOf(s) == WorldNow(adapter, pending, minimized, service)
    modifies adapter, adapter.engine, pending, minimized, service
    ensures Ready(pending, minimized, service)
    ensures result.Ok? <==> AllAccepted(s, batch)
    ensures result.Ok? ==> WorldOf(Run(s, Steps(batch))) == WorldNow(adapter, pending, minimized, service)
                           && Run(s, Steps(batch)).exec.applied == s.exec.applied
    ensures result.Err? ==> Rejected(s, batch, result.error, WorldNow(adapter, pending, minimized, service))
  {
    for i := 0 to |batch|
      invariant Ready(pending, minimized, service) && AcceptedUpTo(s, batch, i)
      invariant WorldOf(Run(s, Steps(batch[..i]))) == WorldNow(adapter, pending, minimized, service)
      invariant Run(s, Steps(batch[..i])).exec.applied == s.exec.applied
    {
      var taken := TakeItem(batch[i], adapter, pending, minimized, service);
      if taken.Err? {
        RejectedHere(s, batch, i, taken.error, WorldNow(adapter, pending, minimized, service));
        return taken;
      }
      ItemTaken(s, batch, i);
    }
    assert batch[..|batch|] == batch;
    result := Ok(());
  }

  /** The part of the state a round of the loop may rely on. */
  ghost predicate Tracks(s: State, adapter: NiriAdapter, pending: Executor.PendingResizes,
                         minimized: Minimization.MinimizedRegistry, service: Service.BrokerState, actions: ActionClient)
    reads adapter, adapter.engine, pending, minimized, service, actions
  {
    WorldOf(s) == WorldNow(adapter, pending, minimized, service) && s.exec.applied == actions.widths
  }

  lemma RoundDrains(s: State, batches: seq<seq<Incoming>>, n: nat)
    requires Runnable(s)
    ensures Run(s, Performed(batches, Ending(n, true))) == Drained(s, batches, n)
    ensures n >= |batches| ==> Drained(s, batches, n) == Begun(s, batches, n)
  {
    assert Performed(batches, Ending(n, false)) == Rounds(batches, n);
    RunConcat(s, Rounds(batches, n), Steps(Batch(batches, n)));
  }

  lemma RoundPops(s: State, batches: seq<seq<Incoming>>, n: nat, id: U64)
    requires Runnable(s) && Executor.IsNext(Drained(s, batches, n).exec.ctl.queue.pending, id)
    ensures var before, after := Drained(s, batches, n), Begun(s, batches, n + 1);
            var q := before.exec.ctl.queue;
            && WorldOf(after) == WorldOf(before).(ctl := before.exec.ctl.(queue := q.(pending := q.pending - {id})))
            && after.exec.applied == before.exec.applied[id := q.pending[id].width]
  {
    RoundIsPop(s, batches, n);
    PopStep(Drained(s, batches, n), id);
  }

  lemma RoundIsPop(s: State, batches: seq<seq<Incoming>>, n: nat)
    requires Runnable(s)
    ensures Begun(s, batches, n + 1) == Next(Drained(s, batches, n), POPPED)
  {
    RoundDrains(s, batches, n);
    RunSnoc(s, Performed(batches, Ending(n, true)), POPPED);
    assert Performed(batches, Ending(n + 1, false)) == Performed(batches, Ending(n, true)) + [POPPED];
  }

  /** Pop the most urgent action, if any, and apply it; the popped window is returned. It fails exactly if
      there is one and niri refuses its width. */
  method ApplyNext(refused: bool, pending: Executor.PendingResizes, actions: ActionClient)
    returns (result: Result<Option<U64>, Failure>)
    requires pending.Valid()
    modifies pending, actions
    ensures pending.Valid() && pending.latestGeneration == old(pending.latestGeneration)
    ensures result == Ok(None) <==> old(pending.pending) == map[]
    ensures result.Err? <==> refused && old(pending.pending) != map[]
    ensures result.Err? ==> result.error == WidthRefused && actions.widths == old(actions.widths)
    ensures result == Ok(None) ==> pending.pending == map[] && actions.widths == old(actions.widths)
    ensures result.Ok? && result.value.Some? ==>
              var id := result.value.value;
              Executor.IsNext(old(pending.pending), id) && pending.pending == old(pending.pending) - {id}
              && pending.pending.Keys == old(pending.pending).Keys - {id}
              && actions.widths == old(actions.widths)[id := old(pending.pending)[id].width]
  {
    var popped := pending.PopNext();
    if popped.None? {
      return Ok(None);
    }
    var applied := actions.SetWindowWidth(popped.value.windowId, popped.value.width, refused);
    if applied.Err? {
      return Err(applied.error);
    }
    result := Ok(Some(popped.value.windowId));
  }

  /** Why a round fails, and where it leaves the broker, the one part that outlives the connection: a message
      is rejected, or niri refuses the width of the action that is next once all messages are taken. */
  ghost predicate RoundFails(s: State, batches: seq<seq<Incoming>>, n: nat, refused: bool, error: Failure,
                             broker: Service.Broker)
    requires Runnable(s)
  {
    || RejectedLeaving(Begun(s, batches, n), Batch(batches, n), error, broker)
    || (refused && RoundTaken(s, batches, n)
        && RefusedLeaving(Drained(s, batches, n), error, broker))
  }

  ghost predicate RejectedLeaving(s: State, batch: seq<Incoming>, error: Failure, broker: Service.Broker)
    requires Runnable(s)
  {
    exists w: World :: w.broker == broker && Rejected(s, batch, error, w)
  }

  ghost predicate RefusedLeaving(s: State, error: Failure, broker: Service.Broker) {
    error == WidthRefused && Busy(s) && broker == s.broker
  }

  /** The second half of a round, once everything that has come is taken. */
  method PopRound(batches: seq<seq<Incoming>>, round: nat, refused: bool, adapter: NiriAdapter,
                  pending: Executor.PendingResizes, minimized: Minimization.MinimizedRegistry,
                  service: Service.BrokerState, actions: ActionClient, ghost s: State)
    returns (result: Result<Ending, Failure>)
    requires Ready(pending, minimized, service) && Runnable(s)
    requires Tracks(Drained(s, batches, round), adapter, pending, minimized, service, actions)
    modifies pending, actions
    ensures pending.Valid()
    ensures result.Err? <==> refused && old(pending.pending) != map[]
    ensures result.Err? ==> result.error == WidthRefused
    ensures result.Ok? ==>
              Tracks(Run(s, Performed(batches, result.value)), adapter, pending, minimized, service, actions)
    ensures result.Ok? ==>
              if result.value.cancelled then result.value == Ending(round, true) && pending.pending == map[]
              else result.value == Ending(round + 1, false) && !refused && Busy(Drained(s, batches, round))
                   && |pending.pending.Keys| < |old(pending.pending.Keys)|
  {
    RoundDrains(s, batches, round);
    var applied := ApplyNext(refused, pending, actions);
    match applied {
      case Err(error) => return Err(error);
      case Ok(None) => return Ok(Ending(round, true));
      case Ok(Some(id)) =>
        RoundPops(s, batches, round, id);
        return Ok(Ending(round + 1, false));
    }
  }

  /** One round: coalesce what has come, then pop the most urgent action and apply it. Nothing is popped when
      the messages have cancelled everything. */
  method ApplyRound(batches: seq<seq<Incoming>>, round: nat, refused: bool, adapter: NiriAdapter,
                    pending: Executor.PendingResizes, minimized: Minimization.MinimizedRegistry,
                    service: Service.BrokerState, actions: ActionClient, ghost s: State)
    returns (result: Result<Ending, Failure>)
    requires Ready(pending, minimized, service) && Runnable(s)
    requires Tracks(Begun(s, batches, round), adapter, pending, minimized, service, actions)
    modifies adapter, adapter.engine, pending, minimized, service, actions
    ensures Ready(pending, minimized, service)
    ensures result.Ok? ==>
              Tracks(Run(s, Performed(batches, result.value)), adapter, pending, minimized, service, actions)
              && RoundTaken(s, batches, round)
    ensures result.Ok? ==>
              if result.value.cancelled then result.value == Ending(round, true) && pending.pending == map[]
              else result.value == Ending(round + 1, false) && !refused && Busy(Drained(s, batches, round))
                   && (round >= |batches| ==> |pending.pending.Keys| < |old(pending.pending.Keys)|)
    ensures result.Err? ==> RoundFails(s, batches, round, refused, result.error, service.State())
  {
    RoundDrains(s, batches, round);
    var drained := DrainStreamMessages(Batch(batches, round), adapter, pending, minimized, service,
                                       Begun(s, batches, round));
    if drained.Err? {
      return Err(drained.error);
    }
    result := PopRound(batches, round, refused, adapter, pending, minimized, service, actions, s);
  }

  /** The round begins with work to do and accepts all its messages. */
  ghost predicate RoundRuns(s: State, batches: seq<seq<Incoming>>, n: nat)
    requires Runnable(s)
  {
    Busy(Begun(s, batches, n)) && RoundTaken(s, batches, n)
  }

  /** And its width, should anything be left to apply, is not refused. */
  ghost predicate RoundCompletes(s: State, batches: seq<seq<Incoming>>, refused: set<nat>, n: nat)
    requires Runnable(s)
  {
    RoundRuns(s, batches, n) && n !in refused
  }

  /** The first `n` rounds all complete. */
  ghost predicate RoundsUndisturbed(s: State, batches: seq<seq<Incoming>>, refused: set<nat>, n: nat)
    requires Runnable(s)
  {
    n == 0 || (RoundsUndisturbed(s, batches, refused, n - 1) && RoundCompletes(s, batches, refused, n - 1))
  }

  /** A loop with this ending completed its rounds; a cancelled one also ran the first part of the next. */
  ghost predicate Undisturbed(s: State, batches: seq<seq<Incoming>>, refused: set<nat>, e: Ending)
    requires Runnable(s)
  {
    RoundsUndisturbed(s, batches, refused, e.rounds) && (e.cancelled ==> RoundRuns(s, batches, e.rounds))
  }

  /** Every round, should the loop get to it, takes all its messages, and niri refuses nothing. */
  ghost predicate Smooth(s: State, batches: seq<seq<Incoming>>, refused: set<nat>)
    requires Runnable(s)
  {
    refused == {} && forall n: nat :: RoundTaken(s, batches, n)
  }

  /** The loop fails in the first round that is disturbed. */
  ghost predicate LoopFails(s: State, batches: seq<seq<Incoming>>, refused: set<nat>, error: Failure,
                            broker: Service.Broker)
    requires Runnable(s)
  {
    exists n: nat :: LoopFailsIn(s, batches, refused, n, error, broker)
  }

  ghost predicate LoopFailsIn(s: State, batches: seq<seq<Incoming>>, refused: set<nat>, n: nat, error: Failure,
                              broker: Service.Broker)
    requires Runnable(s)
  {
    RoundsUndisturbed(s, batches, refused, n) && Busy(Begun(s, batches, n))
    && RoundFails(s, batches, n, n in refused, error, broker)
  }

  lemma RoundCancelled(s: State, batches: seq<seq<Incoming>>, refused: set<nat>, n: nat, e: Ending)
    requires Runnable(s) && RoundsUndisturbed(s, batches, refused, n) && RoundRuns(s, batches, n)
    requires e == Ending(n, true)
    ensures Undisturbed(s, batches, refused, e)
  {
  }

  lemma RoundsGoOn(s: State, batches: seq<seq<Incoming>>, refused: set<nat>, n: nat)
    requires Runnable(s) && RoundsUndisturbed(s, batches, refused, n) && RoundCompletes(s, batches, refused, n)
    ensures RoundsUndisturbed(s, batches, refused, n + 1)
  {
  }

  lemma RoundCompleted(s: State, batches: seq<seq<Incoming>>, refused: set<nat>, n: nat, e: Ending)
    requires Runnable(s) && RoundsUndisturbed(s, batches, refused, n) && RoundCompletes(s, batches, refused, n)
    requires e == Ending(n + 1, false)
    ensures Undisturbed(s, batches, refused, e)
  {
    RoundsGoOn(s, batches, refused, n);
    assert RoundsUndisturbed(s, batches, refused, e.rounds);
  }

  /** A loop that fails was disturbed: not all its messages and widths were acceptable. */
  lemma FailureIsDisturbance(s: State, batches: seq<seq<Incoming>>, refused: set<nat>, n: nat, error: Failure,
                             broker: Service.Broker)
    requires Runnable(s) && Undisturbed(s, batches, refused, Ending(n, false))
    requires Busy(Begun(s, batches, n)) && RoundFails(s, batches, n, n in refused, error, broker)
    ensures LoopFails(s, batches, refused, error, broker) && !Smooth(s, batches, refused)
  {
    assert LoopFailsIn(s, batches, refused, n, error, broker);
    assert n !in refused ==> !RoundTaken(s, batches, n);
  }

  /** The apply loop, with what comes during each look into the channel and the rounds whose width niri
      refuses. It terminates. It fails only in a round that fails, and then leaves the broker where that round
      does. Otherwise it ends the first time the queue is empty, in the state of the run that takes the batches in
      order with a pop after each. */
  method ApplyLoop(batches: seq<seq<Incoming>>, refused: set<nat>, adapter: NiriAdapter,
                   pending: Executor.PendingResizes, minimized: Minimization.MinimizedRegistry,
                   service: Service.BrokerState, actions: ActionClient, ghost s: State)
    returns (result: Result<Ending, Failure>)
    requires Ready(pending, minimized, service) && Runnable(s)
    requires Tracks(s, adapter, pending, minimized, service, actions)
    modifies adapter, adapter.engine, pending, minimized, service, actions
    ensures Ready(pending, minimized, service)
    ensures Smooth(s, batches, refused) ==> result.Ok?
    ensures result.Ok? ==>
              pending.pending == map[] && Undisturbed(s, batches, refused, result.value)
              && Tracks(Run(s, Performed(batches, result.value)), adapter, pending, minimized, service, actions)
    ensures result.Err? ==> LoopFails(s, batches, refused, result.error, service.State())
  {
    var end := Ending(0, false);
    while pending.pending != map[] && !end.cancelled
      invariant Ready(pending, minimized, service)
      invariant Tracks(Run(s, Performed(batches, end)), adapter, pending, minimized, service, actions)
      invariant Undisturbed(s, batches, refused, end)
      invariant end.cancelled ==> pending.pending == map[]
      decreases !end.cancelled, if end.rounds < |batches| then |batches| - end.rounds else 0, |pending.pending.Keys|
    {
      var next := ApplyRound(batches, end.rounds, end.rounds in refused,
                             adapter, pending, minimized, service, actions, s);
      if next.Err? {
        FailureIsDisturbance(s, batches, refused, end.rounds, next.error, service.State());
        return next;
      }
      if next.value.cancelled {
        RoundCancelled(s, batches, refused, end.rounds, next.value);
      } else {
        RoundCompleted(s, batches, refused, end.rounds, next.value);
      }
      end := next.value;
    }
    result := Ok(end);
  }

  /** A caller can tell beforehand: if every message that may come is acceptable by itself and niri refuses
      nothing, the loop meets no failure, whatever clients ask meanwhile. */
  lemma AcceptableMessagesAreSmooth(s: State, batches: seq<seq<Incoming>>)
    requires Runnable(s) && Invariant(s)
    requires forall b, item | b in batches && item in b && item.Stream? :: Acceptable(item.arrival.message)
    ensures Smooth(s, batches, {})
  {
    forall n: nat ensures RoundTaken(s, batches, n) {
      var now, batch := Begun(s, batches, n), Batch(batches, n);
      RunKeeps(s, Performed(batches, Ending(n, false)));
      forall k | 0 <= k < |batch| ensures Accepts(Run(now, Steps(batch[..k])), batch[k]) {
        RunKeeps(now, Steps(batch[..k]));
        assert batch in batches && batch[k] in batch;
        if batch[k].Stream? { TakenExactlyIfAcceptable(Run(now, Steps(batch[..k])), batch[k].arrival); }
      }
    }
  }

  /** What the loop is for: when it has ended, the widths niri holds are settled and the daemon's invariant
      still stands. */
  lemma ApplyLoopSettles(s: State, trace: seq<Step>)
    requires Runnable(s) && Invariant(s) && AllLegal(trace) && Run(s, trace).exec.ctl.queue.pending == map[]
    ensures Invariant(Run(s, trace)) && Settled(Run(s, trace).exec, Run(s, trace).exec.applied)
  {
    RunKeeps(s, trace);
    DrainedIsSettled(Run(s, trace));
  }

  /** Each window whose latest decision asks for a width has it, as it would have had without coalescing. */
  ghost predicate Settled(x: Controller.Exec, widths: map<U64, Proportion>) {
    forall id | id in x.decided && x.decided[id].outcome.Resize? ::
      id in x.ctl.adapter.engine.windows && id in widths && id in x.naive
      && widths[id] == x.naive[id] == x.decided[id].outcome.width
  }

  lemma DrainedIsSettled(s: State)
    requires Invariant(s) && s.exec.ctl.queue.pending == map[]
    ensures Settled(s.exec, s.exec.applied)
  {
    forall id | id in s.exec.decided && s.exec.decided[id].outcome.Resize?
      ensures id in s.exec.ctl.adapter.engine.windows && id in s.exec.applied && id in s.exec.naive
              && s.exec.applied[id] == s.exec.naive[id] == s.exec.decided[id].outcome.width
    {
      assert Controller.Accounted(s.exec, id);
    }
  }
}
