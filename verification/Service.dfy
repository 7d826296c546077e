/** The broker: one ordered state machine that turns published lists into a revisioned stream. */
module Service {
  import opened Base
  import opened Protocol
  import opened Replica
  import WindowDiff
  import DiffProperties

  /** One subscription: its protocol version and everything written to its stream so far. */
  datatype Subscriber = Subscriber(version: nat, sent: seq<ServerMessage>)

  datatype Broker = Broker(revision: U64, ready: bool, unavailableReason: string,
                           windows: seq<Window>, subscribers: seq<Subscriber>)

  const INITIAL := Broker(0, false, "awaiting authoritative niri snapshot", [], [])

  /** What the broker takes from its queue. Writes may fail: `lost` and `departed` are the positions, in the
      subscriber list of that moment, whose stream fails or has been closed by its peer. For a client,
      `accepted` says whether its reply could be written and its stream kept, and `executed` is what niri
      answered if the request is an action. */
  datatype Step =
    | Publish(windows: seq<Window>, lost: set<nat>)
    | SetUnavailable(reason: string, lost: set<nat>)
    | FromClient(version: nat, request: Request, accepted: bool, departed: set<nat>, executed: Result<ActionResult, string>)

  // ---------------------------------------------------------------- specification

  function ViewOf(b: Broker): View {
    if b.ready then Ready(b.revision, b.windows) else Unready(b.revision, b.unavailableReason)
  }

  function Send(s: Subscriber, m: Message): Subscriber {
    s.(sent := s.sent + [ServerMessage(s.version, m)])
  }

  /** Write to every subscriber and keep those whose write succeeded. */
  function Deliver(subs: seq<Subscriber>, m: Message, lost: set<nat>): seq<Subscriber> {
    if subs == [] then []
    else
      var last := |subs| - 1;
      Deliver(subs[..last], m, lost) + (if last in lost then [] else [Send(subs[last], m)])
  }

  function Sweep(subs: seq<Subscriber>, departed: set<nat>): seq<Subscriber> {
    if subs == [] then []
    else
      var last := |subs| - 1;
      Sweep(subs[..last], departed) + (if last in departed then [] else [subs[last]])
  }

  function Published(b: Broker, ws: seq<Window>, lost: set<nat>): Broker
    requires DistinctIds(b.windows) && DistinctIds(ws)
  {
    if b.ready && b.windows == ws then b
    else
      var revision := SaturatingSucc(b.revision);
      var m := if b.ready then Changes(revision, DiffProperties.DiffScript(b.windows, ws)) else Snapshot(revision, ws);
      Broker(revision, true, "", ws, Deliver(b.subscribers, m, lost))
  }

  function MadeUnavailable(b: Broker, reason: string, lost: set<nat>): Broker {
    if !b.ready && b.unavailableReason == reason then b
    else b.(ready := false, unavailableReason := reason,
            subscribers := Deliver(b.subscribers, Unavailable(b.revision, reason), lost))
  }

  function Reply(b: Broker, version: nat, request: Request, executed: Result<ActionResult, string>): ServerMessage {
    ServerMessage(version,
      match request
      case List => if b.ready then Snapshot(b.revision, b.windows) else Error(UnavailableError(b.unavailableReason))
      case Subscribe => if b.ready then Snapshot(b.revision, b.windows) else Unavailable(b.revision, b.unavailableReason)
      case _ => match executed { case Ok(result) => ActionReply(result) case Err(error) => Error(ActionFailed(error)) })
  }

  function Served(b: Broker, step: Step): Broker
    requires step.FromClient?
  {
    if step.request.Subscribe? && step.accepted then
      var reply := Reply(b, step.version, step.request, step.executed);
      b.(subscribers := Sweep(b.subscribers, step.departed) + [Subscriber(step.version, [reply])])
    else b
  }

  /** The controller only publishes lists of distinct ids (the registry sees to it). */
  ghost predicate Legal(step: Step) {
    step.Publish? ==> DistinctIds(step.windows)
  }

  function Next(b: Broker, step: Step): (r: Broker)
    requires DistinctIds(b.windows) && Legal(step)
    ensures DistinctIds(r.windows)
  {
    match step
    case Publish(ws, lost) => Published(b, ws, lost)
    case SetUnavailable(reason, lost) => MadeUnavailable(b, reason, lost)
    case FromClient(_, _, _, _, _) => Served(b, step)
  }

  ghost predicate AllLegal(steps: seq<Step>) {
    forall i | 0 <= i < |steps| :: Legal(steps[i])
  }

  function Run(b: Broker, steps: seq<Step>): (r: Broker)
    requires DistinctIds(b.windows) && AllLegal(steps)
    ensures DistinctIds(r.windows)
  {
    if steps == [] then b else Next(Run(b, steps[..|steps| - 1]), steps[|steps| - 1])
  }

  lemma RunSnoc(b: Broker, steps: seq<Step>, step: Step)
    requires DistinctIds(b.windows) && AllLegal(steps) && Legal(step)
    ensures AllLegal(steps + [step]) && Run(b, steps + [step]) == Next(Run(b, steps), step)
  {
  }

  // ---------------------------------------------------------------- the imperative broker

  class BrokerState {
    var revision: U64
    var ready: bool
    var unavailableReason: string
    var windows: seq<Window>
    var subscribers: seq<Subscriber>

    ghost function State(): Broker reads this {
      Broker(revision, ready, unavailableReason, windows, subscribers)
    }

    /** Every retained subscriber holds exactly the current view. */
    ghost predicate Valid() reads this { Faithful(State()) }

    constructor ()
      ensures State() == INITIAL && Valid()
      ensures !ready && revision == 0 && windows == [] && subscribers == []
    {
      revision, ready, windows, subscribers := 0, false, [], [];
      unavailableReason := "awaiting authoritative niri snapshot";
    }

    method PublishWindows(ws: seq<Window>, lost: set<nat>)
      requires Valid() && DistinctIds(ws)
      modifies this
      ensures Valid() && State() == Published(old(State()), ws, lost)
      ensures ready && windows == ws
    {
      StepKeepsFaithful(State(), Publish(ws, lost));
      if ready && windows == ws {
        return;
      }
      var wasReady := ready;
      var outcome := WindowDiff.Diffed([], []);
      if wasReady {
        DiffProperties.DiffReproducesNext(windows, ws);
        outcome := WindowDiff.DiffWindows(windows, ws);
      }
      revision := SaturatingSucc(revision);
      ready := true;
      unavailableReason := "";
      windows := ws;
      var message := if wasReady then Changes(revision, outcome.changes) else Snapshot(revision, windows);
      Broadcast(message, lost);
    }

    method MarkUnavailable(reason: string, lost: set<nat>)
      requires Valid()
      modifies this
      ensures Valid() && State() == MadeUnavailable(old(State()), reason, lost)
    {
      StepKeepsFaithful(State(), SetUnavailable(reason, lost));
      if !ready && unavailableReason == reason {
        return;
      }
      ready := false;
      unavailableReason := reason;
      Broadcast(Unavailable(revision, reason), lost);
    }

    method HandleClient(version: nat, request: Request, accepted: bool, departed: set<nat>,
                        executed: Result<ActionResult, string>) returns (reply: ServerMessage)
      requires Valid()
      modifies this`subscribers
      ensures Valid() && reply == Reply(old(State()), version, request, executed)
      ensures State() == Served(old(State()), FromClient(version, request, accepted, departed, executed))
    {
      StepKeepsFaithful(State(), FromClient(version, request, accepted, departed, executed));
      match request {
        case List =>
          var message := if ready then Snapshot(revision, windows) else Error(UnavailableError(unavailableReason));
          reply := ServerMessage(version, message);
        case Subscribe =>
          var message := if ready then Snapshot(revision, windows) else Unavailable(revision, unavailableReason);
          reply := ServerMessage(version, message);
          if accepted {
            SweepDeparted(departed);
            subscribers := subscribers + [Subscriber(version, [reply])];
          }
        case _ =>
          var message := match executed { case Ok(result) => ActionReply(result) case Err(error) => Error(ActionFailed(error)) };
          reply := ServerMessage(version, message);
      }
    }

    /** One round of the receive loop. */
    method Serve(step: Step)
      requires Valid() && Legal(step)
      modifies this
      ensures Valid() && State() == Next(old(State()), step)
    {
      match step {
        case Publish(ws, lost) => PublishWindows(ws, lost);
        case SetUnavailable(reason, lost) => MarkUnavailable(reason, lost);
        case FromClient(version, request, accepted, departed, executed) =>
          var _ := HandleClient(version, request, accepted, departed, executed);
      }
    }

    method Broadcast(m: Message, lost: set<nat>)
      modifies this`subscribers
      ensures subscribers == Deliver(old(subscribers), m, lost)
    {
      var all, kept := subscribers, [];
      for i := 0 to |all|
        invariant kept == Deliver(all[..i], m, lost)
      {
        assert all[..i + 1][..i] == all[..i];
        if i !in lost {
          kept := kept + [Send(all[i], m)];
        }
      }
      assert all[..|all|] == all;
      subscribers := kept;
    }

    method SweepDeparted(departed: set<nat>)
      modifies this`subscribers
      ensures subscribers == Sweep(old(subscribers), departed)
    {
      var all, kept := subscribers, [];
      for i := 0 to |all|
        invariant kept == Sweep(all[..i], departed)
      {
        assert all[..i + 1][..i] == all[..i];
        if i !in departed {
          kept := kept + [all[i]];
        }
      }
      assert all[..|all|] == all;
      subscribers := kept;
    }
  }

  datatype BrokerMessage = Handle(step: Step) | Shutdown

  function UntilShutdown(messages: seq<BrokerMessage>): seq<Step> {
    if messages == [] || messages[0].Shutdown? then [] else [messages[0].step] + UntilShutdown(messages[1..])
  }

  /** The receive loop: the queue is served in order until shutdown, and at its end the state is that of
      the run and every retained subscriber is faithful. */
  method BrokerLoop(messages: seq<BrokerMessage>) returns (state: BrokerState)
    requires AllLegal(UntilShutdown(messages))
    ensures fresh(state) && state.Valid() && state.State() == Run(INITIAL, UntilShutdown(messages))
  {
    state := new BrokerState();
    ghost var steps := UntilShutdown(messages);
    var i := 0;
    while i < |messages|
      invariant i <= |messages| && i <= |steps| && fresh(state) && state.Valid()
      invariant state.State() == Run(INITIAL, steps[..i])
    {
      ServedUntilShutdown(messages, i);
      if messages[i].Shutdown? {
        break;
      }
      assert Legal(steps[i]) && steps[..i + 1][..i] == steps[..i];
      state.Serve(messages[i].step);
      i := i + 1;
    }
    if i == |messages| { ServedUntilShutdown(messages, i); }
    assert steps[..i] == steps;
  }

  lemma {:induction false} ServedUntilShutdown(messages: seq<BrokerMessage>, i: nat)
    requires i <= |messages| && i <= |UntilShutdown(messages)|
    ensures var steps := UntilShutdown(messages);
            if i == |messages| || messages[i].Shutdown? then |steps| == i
            else i < |steps| && steps[i] == messages[i].step
  {
    if i > 0 { ServedUntilShutdown(messages[1..], i - 1); }
  }

  // ---------------------------------------------------------------- every step keeps every subscriber faithful

  function Messages(sent: seq<ServerMessage>): (r: seq<Message>)
    ensures |r| == |sent|
  {
    if sent == [] then [] else Messages(sent[..|sent| - 1]) + [sent[|sent| - 1].message]
  }

  /** The subscriber's stream replays to exactly this view, all of it in the version it asked for. */
  ghost predicate Follows(s: Subscriber, v: View) {
    && Replay(Messages(s.sent)) == Following(v)
    && forall i | 0 <= i < |s.sent| :: s.sent[i].version == s.version
  }

  ghost predicate Faithful(b: Broker) {
    DistinctIds(b.windows) && forall s | s in b.subscribers :: Follows(s, ViewOf(b))
  }

  /** Exactly the positions below `n` that are not gone, in order. */
  function Survivors(n: nat, gone: set<nat>): (r: seq<nat>)
    ensures forall k | 0 <= k < |r| :: r[k] < n && r[k] !in gone
    ensures forall j, k | 0 <= j < k < |r| :: r[j] < r[k]
  {
    if n == 0 then [] else Survivors(n - 1, gone) + if n - 1 in gone then [] else [n - 1]
  }

  lemma {:induction false} SurvivorsComplete(n: nat, gone: set<nat>)
    ensures forall i: nat | i < n && i !in gone :: i in Survivors(n, gone)
  {
    if n > 0 { SurvivorsComplete(n - 1, gone); }
  }

  lemma {:induction false} DeliveredInOrder(subs: seq<Subscriber>, m: Message, lost: set<nat>)
    ensures var kept, at := Deliver(subs, m, lost), Survivors(|subs|, lost);
            |kept| == |at| && forall k | 0 <= k < |at| :: kept[k] == Send(subs[at[k]], m)
  {
    if subs != [] { DeliveredInOrder(subs[..|subs| - 1], m, lost); }
  }

  lemma {:induction false} SweptInOrder(subs: seq<Subscriber>, departed: set<nat>)
    ensures var kept, at := Sweep(subs, departed), Survivors(|subs|, departed);
            |kept| == |at| && forall k | 0 <= k < |at| :: kept[k] == subs[at[k]]
  {
    if subs != [] { SweptInOrder(subs[..|subs| - 1], departed); }
  }

  /** A broadcast keeps exactly the subscribers whose write succeeded, in order, each with the message added. */
  lemma DeliveredExactly(subs: seq<Subscriber>, m: Message, lost: set<nat>)
    ensures var kept, at := Deliver(subs, m, lost), Survivors(|subs|, lost);
            |kept| == |at| && forall k | 0 <= k < |at| :: kept[k] == Send(subs[at[k]], m)
    ensures forall i: nat | i < |subs| && i !in lost :: i in Survivors(|subs|, lost)
  {
    DeliveredInOrder(subs, m, lost);
    SurvivorsComplete(|subs|, lost);
  }

  /** A sweep keeps exactly the subscribers whose peer is still there, untouched and in order. */
  lemma SweptExactly(subs: seq<Subscriber>, departed: set<nat>)
    ensures var kept, at := Sweep(subs, departed), Survivors(|subs|, departed);
            |kept| == |at| && forall k | 0 <= k < |at| :: kept[k] == subs[at[k]]
    ensures forall i: nat | i < |subs| && i !in departed :: i in Survivors(|subs|, departed)
  {
    SweptInOrder(subs, departed);
    SurvivorsComplete(|subs|, departed);
  }

  lemma DeliveredFrom(subs: seq<Subscriber>, m: Message, lost: set<nat>, s': Subscriber)
    requires s' in Deliver(subs, m, lost)
    ensures exists s :: s in subs && s' == Send(s, m)
  {
  }

  lemma SweptFrom(subs: seq<Subscriber>, departed: set<nat>, s: Subscriber)
    requires s in Sweep(subs, departed)
    ensures s in subs
  {
  }

  /** The message a step broadcasts, if any. */
  function Broadcasts(b: Broker, step: Step): Option<Message>
    requires DistinctIds(b.windows) && Legal(step)
  {
    match step
    case Publish(ws, _) =>
      if b.ready && b.windows == ws then None
      else if b.ready then Some(Changes(SaturatingSucc(b.revision), DiffProperties.DiffScript(b.windows, ws)))
      else Some(Snapshot(SaturatingSucc(b.revision), ws))
    case SetUnavailable(reason, _) =>
      if !b.ready && b.unavailableReason == reason then None else Some(Unavailable(b.revision, reason))
    case FromClient(_, _, _, _, _) => None
  }

  /** A client that held the old view holds the new one after the broadcast; without one nothing changed.
      In other words a message goes out exactly when the view changes. */
  lemma BroadcastCarriesView(b: Broker, step: Step)
    requires DistinctIds(b.windows) && Legal(step)
    ensures match Broadcasts(b, step)
            case None => ViewOf(Next(b, step)) == ViewOf(b)
            case Some(m) => ViewOf(Next(b, step)) != ViewOf(b)
                            && Advance(Following(ViewOf(b)), m) == Following(ViewOf(Next(b, step)))
  {
  }

  lemma SendCarries(s: Subscriber, m: Message, before: View, after: View)
    requires Follows(s, before) && Advance(Following(before), m) == Following(after)
    ensures Follows(Send(s, m), after)
    ensures Views(Messages(Send(s, m).sent)) == Views(Messages(s.sent)) + [after]
  {
  }

  /** A subscription is atomic: its first message is already the view current at that moment. */
  lemma SubscribeStartsFaithful(b: Broker, version: nat, executed: Result<ActionResult, string>)
    ensures var s := Subscriber(version, [Reply(b, version, Subscribe, executed)]);
            Follows(s, ViewOf(b)) && Views(Messages(s.sent)) == [ViewOf(b)]
  {
  }

  /** Where a retained subscriber comes from: it was there and got the broadcast, if one went out, or it
      has just subscribed. */
  ghost predicate Origin(b: Broker, broadcast: Option<Message>, s': Subscriber) {
    match broadcast
    case Some(m) => exists s :: s in b.subscribers && s' == Send(s, m)
    case None =>
      s' in b.subscribers || exists executed :: s' == Subscriber(s'.version, [Reply(b, s'.version, Subscribe, executed)])
  }

  lemma SubscriberOrigin(b: Broker, step: Step, s': Subscriber)
    requires DistinctIds(b.windows) && Legal(step) && s' in Next(b, step).subscribers
    ensures Origin(b, Broadcasts(b, step), s')
  {
    if Broadcasts(b, step).Some? {
      DeliveredFrom(b.subscribers, Broadcasts(b, step).value, step.lost, s');
    } else if step.FromClient? && s' !in b.subscribers {
      if s' in Sweep(b.subscribers, step.departed) { SweptFrom(b.subscribers, step.departed, s'); }
      assert s' == Subscriber(step.version, [Reply(b, step.version, Subscribe, step.executed)]);
    }
  }

  /** A subscriber of the new state follows the new view, and its views extend the history. */
  lemma OriginFollows(b: Broker, broadcast: Option<Message>, v: View, s': Subscriber, h: seq<View>)
    requires Origin(b, broadcast, s') && forall s | s in b.subscribers :: Follows(s, ViewOf(b))
    requires if broadcast.Some? then Advance(Following(ViewOf(b)), broadcast.value) == Following(v) else v == ViewOf(b)
    ensures Follows(s', v)
    ensures h != [] && h[|h| - 1] == ViewOf(b) && (forall s | s in b.subscribers :: IsSuffix(Views(Messages(s.sent)), h))
            ==> IsSuffix(Views(Messages(s'.sent)), if broadcast.Some? then h + [v] else h)
  {
    match broadcast
    case Some(m) =>
      var s :| s in b.subscribers && s' == Send(s, m);
      SendCarries(s, m, ViewOf(b), v);
      if IsSuffix(Views(Messages(s.sent)), h) { SuffixSnoc(Views(Messages(s.sent)), h, v); }
    case None =>
      if s' !in b.subscribers {
        var executed :| s' == Subscriber(s'.version, [Reply(b, s'.version, Subscribe, executed)]);
        SubscribeStartsFaithful(b, s'.version, executed);
      }
  }

  lemma StepKeepsFaithful(b: Broker, step: Step)
    requires Faithful(b) && Legal(step)
    ensures Faithful(Next(b, step))
  {
    BroadcastCarriesView(b, step);
    forall s' | s' in Next(b, step).subscribers ensures Follows(s', ViewOf(Next(b, step))) {
      SubscriberOrigin(b, step, s');
      OriginFollows(b, Broadcasts(b, step), ViewOf(Next(b, step)), s', []);
    }
  }

  // ---------------------------------------------------------------- every run

  lemma {:induction false} RunKeepsFaithful(steps: seq<Step>)
    requires AllLegal(steps)
    ensures Faithful(Run(INITIAL, steps))
  {
    if steps != [] {
      var front := steps[..|steps| - 1];
      RunKeepsFaithful(front);
      assert Legal(steps[|steps| - 1]);
      StepKeepsFaithful(Run(INITIAL, front), steps[|steps| - 1]);
    }
  }

  /** In every reachable state each retained subscriber, whenever it joined, replays to the broker's own
      readiness, revision and windows in the version it asked for, and its stream has the shape of the
      protocol; so any two agree. */
  lemma RetainedSubscribersAreFaithful(steps: seq<Step>, s: Subscriber)
    requires AllLegal(steps) && s in Run(INITIAL, steps).subscribers
    ensures Replay(Messages(s.sent)) == Following(ViewOf(Run(INITIAL, steps)))
    ensures FitsGrammar(Messages(s.sent))
    ensures forall i | 0 <= i < |s.sent| :: s.sent[i].version == s.version
  {
    RunKeepsFaithful(steps);
    assert Follows(s, ViewOf(Run(INITIAL, steps)));
    FollowedLogsFitGrammar(Messages(s.sent));
  }

  /** The distinct views the broker goes through, told without mentioning any subscriber. */
  function History(b: Broker, steps: seq<Step>): seq<View>
    requires DistinctIds(b.windows) && AllLegal(steps)
  {
    if steps == [] then [ViewOf(b)]
    else
      var front := steps[..|steps| - 1];
      var v := ViewOf(Run(b, steps));
      History(b, front) + if v == ViewOf(Run(b, front)) then [] else [v]
  }

  ghost predicate IsSuffix<T>(a: seq<T>, b: seq<T>) {
    0 < |a| <= |b| && a == b[|b| - |a|..]
  }

  /** No subscriber misses, repeats or reorders an update: the views it has gone through are exactly the
      last ones of the broker's history, starting with the view at the moment it subscribed. */
  lemma {:induction false} NoSubscriberMissesAnUpdate(steps: seq<Step>)
    requires AllLegal(steps)
    ensures var h := History(INITIAL, steps);
            && h != [] && h[|h| - 1] == ViewOf(Run(INITIAL, steps))
            && forall s | s in Run(INITIAL, steps).subscribers :: IsSuffix(Views(Messages(s.sent)), h)
  {
    if steps != [] {
      var front, step := steps[..|steps| - 1], steps[|steps| - 1];
      assert Legal(step);
      NoSubscriberMissesAnUpdate(front);
      RunKeepsFaithful(front);
      StepExtendsHistory(Run(INITIAL, front), step, History(INITIAL, front));
    }
  }

  lemma StepExtendsHistory(b: Broker, step: Step, h: seq<View>)
    requires Faithful(b) && Legal(step) && h != [] && h[|h| - 1] == ViewOf(b)
    requires forall s | s in b.subscribers :: IsSuffix(Views(Messages(s.sent)), h)
    ensures var v := ViewOf(Next(b, step));
            var h' := h + if v == ViewOf(b) then [] else [v];
            forall s | s in Next(b, step).subscribers :: IsSuffix(Views(Messages(s.sent)), h')
  {
    var v := ViewOf(Next(b, step));
    BroadcastCarriesView(b, step);
    forall s' | s' in Next(b, step).subscribers
      ensures IsSuffix(Views(Messages(s'.sent)), h + if v == ViewOf(b) then [] else [v])
    {
      SubscriberOrigin(b, step, s');
      OriginFollows(b, Broadcasts(b, step), v, s', h);
      assert h + [] == h;
    }
  }

  lemma SuffixSnoc<T>(a: seq<T>, b: seq<T>, x: T)
    requires IsSuffix(a, b)
    ensures IsSuffix(a + [x], b + [x])
  {
  }

  /** The revision advances by one with every list that becomes visible, be it changed or only
      resynchronized, and at no other step; it stops at its maximum. */
  lemma RevisionAdvancesWithEachList(b: Broker, step: Step)
    requires DistinctIds(b.windows) && Legal(step)
    ensures var b' := Next(b, step);
            b'.revision == if b'.ready && ViewOf(b') != ViewOf(b) then SaturatingSucc(b.revision) else b.revision
  {
  }

  /** The fields one by one. A call leaves exactly what it says: a published list makes the broker ready with it and
      clears the reason, an unavailable call sets the reason and keeps list and revision; a request leaves
      them all. */
  lemma FieldsAfterStep(b: Broker, step: Step)
    requires DistinctIds(b.windows) && Legal(step)
    ensures var b' := Next(b, step);
            match step
            case Publish(ws, _) => b'.ready && b'.windows == ws && (ViewOf(b') != ViewOf(b) ==> b'.unavailableReason == "")
            case SetUnavailable(reason, _) => !b'.ready && b'.unavailableReason == reason && b'.windows == b.windows
                                              && b'.revision == b.revision
            case FromClient(_, _, _, _, _) => b' == b.(subscribers := b'.subscribers)
  {
  }

  /** Only a failed write or a departed peer costs a subscription: after a step the subscribers are exactly
      the others, in order, each with the broadcast added if one went out, followed by an accepted newcomer. */
  lemma SubscribersAfterStep(b: Broker, step: Step)
    requires DistinctIds(b.windows) && Legal(step)
    ensures var was, now := b.subscribers, Next(b, step).subscribers;
            match Broadcasts(b, step)
            case Some(m) =>
              var at := Survivors(|was|, step.lost);
              && |now| == |at| && (forall k | 0 <= k < |at| :: now[k] == Send(was[at[k]], m))
              && forall i: nat | i < |was| && i !in step.lost :: i in at
            case None =>
              if step.FromClient? && step.request.Subscribe? && step.accepted then
                var at := Survivors(|was|, step.departed);
                && |now| == |at| + 1 && (forall k | 0 <= k < |at| :: now[k] == was[at[k]])
                && (forall i: nat | i < |was| && i !in step.departed :: i in at)
                && now[|at|].version == step.version && |now[|at|].sent| == 1
              else now == was
  {
    if Broadcasts(b, step).Some? {
      DeliveredExactly(b.subscribers, Broadcasts(b, step).value, step.lost);
    } else if step.FromClient? {
      SweptExactly(b.subscribers, step.departed);
    }
  }

  /** A read request is answered with the current view, or for a list that is not available with the reason;
      an action with niri's own answer; always in the version of the request. */
  lemma RepliesAreAuthoritative(b: Broker, version: nat, request: Request, executed: Result<ActionResult, string>)
    ensures var reply := Reply(b, version, request, executed);
            && reply.version == version
            && (request.Subscribe? || (request.List? && b.ready) ==> Advance(Awaiting, reply.message) == Following(ViewOf(b)))
            && (request.List? && !b.ready ==> reply.message == Error(UnavailableError(b.unavailableReason)))
            && (!request.List? && !request.Subscribe? ==>
                  match executed
                  case Ok(result) => reply.message == ActionReply(result)
                  case Err(why) => reply.message == Error(ActionFailed(why)))
  {
  }

  lemma AcceptedSubscriberJoins(b: Broker, step: Step)
    requires step.FromClient? && step.request.Subscribe? && step.accepted && Faithful(b)
    ensures exists s :: s in Next(b, step).subscribers && s.version == step.version && Follows(s, ViewOf(b))
  {
    var reply := Reply(b, step.version, Subscribe, step.executed);
    var s := Subscriber(step.version, [reply]);
    SubscribeStartsFaithful(b, step.version, step.executed);
    assert s in Next(b, step).subscribers;
  }

  /** Clients only read: no request changes revision, readiness, reason or windows. */
  lemma ClientsOnlyRead(b: Broker, step: Step)
    requires step.FromClient? && DistinctIds(b.windows)
    ensures Next(b, step).(subscribers := []) == b.(subscribers := [])
    ensures !step.request.Subscribe? ==> Next(b, step) == b
  {
  }
}
