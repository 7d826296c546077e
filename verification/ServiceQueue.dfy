/** The queue in front of the broker: one controller that waits for each of its calls, and any number of
    client threads that enqueue requests at any time. */
module ServiceQueue {
  import opened Base
  import opened Protocol
  import opened Replica
  import Service

  /** A queued message, with the number of controller calls issued before it was queued. */
  datatype Entry = Entry(step: Service.Step, callsBefore: nat)

  /** An answered client request. */
  datatype Answer = Answer(entry: Entry, reply: ServerMessage)

  /** `waiting` while the controller is blocked in `send_synchronized`; `calls` and `answers` record what has
      been issued and replied so far. */
  datatype System = System(broker: Service.Broker, queue: seq<Entry>, waiting: bool,
                           calls: seq<Service.Step>, answers: seq<Answer>)

  const START := System(Service.INITIAL, [], false, [], [])

  datatype Event =
    | ClientSends(step: Service.Step)
    | ControllerCalls(step: Service.Step)
    | BrokerTakes

  ghost predicate Enabled(s: System, e: Event) {
    match e
    case ClientSends(step) => step.FromClient?
    case ControllerCalls(step) => !s.waiting && !step.FromClient? && Service.Legal(step)
    case BrokerTakes => s.queue != []
  }

  /** Rendezvous: taking a controller message also releases the controller. */
  ghost function Take(s: System): System
    requires s.queue != [] && DistinctIds(s.broker.windows) && Service.Legal(s.queue[0].step)
  {
    var step := s.queue[0].step;
    var next := s.(broker := Service.Next(s.broker, step), queue := s.queue[1..]);
    if step.FromClient? then
      next.(answers := s.answers
                       + [Answer(s.queue[0], Service.Reply(s.broker, step.version, step.request, step.executed))])
    else next.(waiting := false)
  }

  /** The two side conditions of taking hold in every reachable state, by `RunKeepsInvariant`. */
  ghost predicate Moves(s: System, e: Event, s': System) {
    && Enabled(s, e)
    && match e
       case ClientSends(step) => s' == s.(queue := s.queue + [Entry(step, |s.calls|)])
       case ControllerCalls(step) =>
         s' == s.(queue := s.queue + [Entry(step, |s.calls|)], waiting := true, calls := s.calls + [step])
       case BrokerTakes =>
         DistinctIds(s.broker.windows) && Service.Legal(s.queue[0].step) && s' == Take(s)
  }

  /** A finite interleaving, given by its events and the states between them. */
  ghost predicate IsRun(states: seq<System>, events: seq<Event>) {
    && |states| == |events| + 1
    && states[0] == START
    && forall i | 0 <= i < |events| :: Moves(states[i], events[i], states[i + 1])
  }

  // ---------------------------------------------------------------- what a caller may rely on

  /** What one controller call makes of the view shown before it. */
  function AfterCall(v: View, call: Service.Step): View {
    match call
    case Publish(ws, _) => if v.Ready? && v.windows == ws then v else Ready(SaturatingSucc(v.revision), ws)
    case SetUnavailable(reason, _) => if v.Unready? && v.reason == reason then v else Unready(v.revision, reason)
    case FromClient(_, _, _, _, _) => v
  }

  /** The view, revision included, once exactly these calls have taken effect in order. */
  function Settled(calls: seq<Service.Step>): View {
    if calls == [] then Unready(0, Service.INITIAL.unavailableReason)
    else AfterCall(Settled(calls[..|calls| - 1]), calls[|calls| - 1])
  }

  /** A read request is answered with the view of exactly the calls issued before it was queued, an action with
      niri's own answer, each in the version of the request. */
  ghost predicate Consistent(a: Answer, calls: seq<Service.Step>) {
    && a.entry.callsBefore <= |calls|
    && a.entry.step.FromClient? && a.reply.version == a.entry.step.version &&
    var view := Settled(calls[..a.entry.callsBefore]);
    match a.entry.step.request
    case List =>
      if view.Ready? then a.reply.message == Snapshot(view.revision, view.windows)
      else a.reply.message == Error(UnavailableError(view.reason))
    case Subscribe => Advance(Awaiting, a.reply.message) == Following(view)
    case _ =>
      match a.entry.step.executed
      case Ok(result) => a.reply.message == ActionReply(result)
      case Err(why) => a.reply.message == Error(ActionFailed(why))
  }

  /** How many calls the broker has taken: all, or all but the one the controller waits for. */
  ghost function Taken(s: System): int { |s.calls| - if s.waiting then 1 else 0 }

  ghost predicate Invariant(s: System) {
    && Service.Faithful(s.broker)
    && 0 <= Taken(s)
    && Service.ViewOf(s.broker) == Settled(s.calls[..Taken(s)])
    && (forall e | e in s.queue :: Service.Legal(e.step))
    && (forall c | c in s.calls :: !c.FromClient?)
    && QueueInOrder(s)
    && forall a | a in s.answers :: Consistent(a, s.calls)
  }

  /** At most one controller message is queued, it is the last call, and it separates the requests queued
      before that call from those queued after. */
  ghost predicate QueueInOrder(s: System) {
    if s.waiting then
      s.calls != [] &&
      exists c :: 0 <= c < |s.queue| && s.queue[c].step == s.calls[|s.calls| - 1] && !s.queue[c].step.FromClient?
                  && forall p | 0 <= p < |s.queue| && p != c :: s.queue[p].step.FromClient?
                       && s.queue[p].callsBefore == if p < c then Taken(s) else |s.calls|
    else forall p | 0 <= p < |s.queue| :: s.queue[p].step.FromClient? && s.queue[p].callsBefore == |s.calls|
  }

  lemma TakeMovesView(b: Service.Broker, step: Service.Step)
    requires DistinctIds(b.windows) && Service.Legal(step)
    ensures Service.ViewOf(Service.Next(b, step)) == AfterCall(Service.ViewOf(b), step)
  {
  }

  lemma ConsistentLater(a: Answer, calls: seq<Service.Step>, call: Service.Step)
    requires Consistent(a, calls)
    ensures Consistent(a, calls + [call])
  {
    assert (calls + [call])[..a.entry.callsBefore] == calls[..a.entry.callsBefore];
  }

  lemma ClientSendKeeps(s: System, step: Service.Step, s': System)
    requires Invariant(s) && Moves(s, ClientSends(step), s')
    ensures Invariant(s')
  {
    if s.waiting {
      var c :| 0 <= c < |s.queue| && s.queue[c].step == s.calls[|s.calls| - 1] && !s.queue[c].step.FromClient?
               && forall p | 0 <= p < |s.queue| && p != c :: s.queue[p].step.FromClient?
                    && s.queue[p].callsBefore == if p < c then Taken(s) else |s.calls|;
      assert s'.queue[c] == s.queue[c];
    }
  }

  lemma ControllerCallKeeps(s: System, step: Service.Step, s': System)
    requires Invariant(s) && Moves(s, ControllerCalls(step), s')
    ensures Invariant(s')
  {
    forall a | a in s'.answers ensures Consistent(a, s'.calls) { ConsistentLater(a, s.calls, step); }
    assert s'.calls[..Taken(s')] == s.calls[..Taken(s)];
    assert s'.queue[|s.queue|].step == step;
  }

  lemma TakeKeepsOrder(s: System, s': System)
    requires Invariant(s) && Moves(s, BrokerTakes, s')
    ensures QueueInOrder(s') && s'.calls == s.calls
    ensures s'.calls[..Taken(s')] == s.calls[..Taken(s)] + if s.queue[0].step.FromClient? then [] else [s.queue[0].step]
  {
    assert forall p | 0 <= p < |s'.queue| :: s'.queue[p] == s.queue[p + 1];
    if s.waiting {
      var c :| 0 <= c < |s.queue| && s.queue[c].step == s.calls[|s.calls| - 1] && !s.queue[c].step.FromClient?
               && forall p | 0 <= p < |s.queue| && p != c :: s.queue[p].step.FromClient?
                    && s.queue[p].callsBefore == if p < c then Taken(s) else |s.calls|;
      if c > 0 { assert s'.queue[c - 1].step == s.calls[|s.calls| - 1]; }
    }
  }

  lemma BrokerTakeKeeps(s: System, s': System)
    requires Invariant(s) && Moves(s, BrokerTakes, s')
    ensures Invariant(s')
  {
    var step := s.queue[0].step;
    Service.StepKeepsFaithful(s.broker, step);
    TakeMovesView(s.broker, step);
    TakeKeepsOrder(s, s');
    if !step.FromClient? {
      assert (s.calls[..Taken(s)] + [step])[..Taken(s)] == s.calls[..Taken(s)];
    }
  }

  lemma {:induction false} RunKeepsInvariant(states: seq<System>, events: seq<Event>, i: nat)
    requires IsRun(states, events) && i < |states|
    ensures Invariant(states[i])
  {
    if i > 0 {
      RunKeepsInvariant(states, events, i - 1);
      assert Moves(states[i - 1], events[i - 1], states[i]);
      match events[i - 1]
      case ClientSends(step) => ClientSendKeeps(states[i - 1], step, states[i]);
      case ControllerCalls(step) => ControllerCallKeeps(states[i - 1], step, states[i]);
      case BrokerTakes => BrokerTakeKeeps(states[i - 1], states[i]);
    }
  }

  /** Once a call has returned, and until the next one is issued, the projection shows the calls so far and
      nothing else: after `publish_snapshot(ws)` the broker is ready with `ws`, after `set_unavailable(reason)`
      it is unavailable for that reason, whatever clients do meanwhile. */
  lemma ReturnedCallIsVisible(states: seq<System>, events: seq<Event>, i: nat)
    requires IsRun(states, events) && i < |states| && !states[i].waiting
    ensures var System(b, _, _, calls, _) := states[i];
            && Service.ViewOf(b) == Settled(calls)
            && (calls != [] ==>
                  match calls[|calls| - 1]
                  case Publish(ws, _) => b.ready && b.windows == ws
                  case SetUnavailable(reason, _) => !b.ready && b.unavailableReason == reason
                  case FromClient(_, _, _, _, _) => false)
  {
    RunKeepsInvariant(states, events, i);
    assert states[i].calls[..|states[i].calls|] == states[i].calls;
  }

  function FromClients(queue: seq<Entry>): seq<Entry> {
    if queue == [] then [] else (if queue[0].step.FromClient? then [queue[0]] else []) + FromClients(queue[1..])
  }

  function Answered(answers: seq<Answer>): seq<Entry> {
    if answers == [] then [] else Answered(answers[..|answers| - 1]) + [answers[|answers| - 1].entry]
  }

  /** The requests that clients have sent in the first `i` events, each with the calls issued before it. */
  ghost function Sent(states: seq<System>, events: seq<Event>, i: nat): seq<Entry>
    requires IsRun(states, events) && i < |states|
  {
    if i == 0 then []
    else Sent(states, events, i - 1)
         + match events[i - 1] { case ClientSends(step) => [Entry(step, |states[i - 1].calls|)] case _ => [] }
  }

  lemma {:induction false} FromClientsSnoc(queue: seq<Entry>, e: Entry)
    ensures FromClients(queue + [e]) == FromClients(queue) + if e.step.FromClient? then [e] else []
  {
    if queue != [] {
      assert (queue + [e])[1..] == queue[1..] + [e];
      FromClientsSnoc(queue[1..], e);
    }
  }

  /** The requests a state has seen: those answered, then those still queued. */
  function Seen(s: System): seq<Entry> { Answered(s.answers) + FromClients(s.queue) }

  lemma MoveServesInOrder(s: System, e: Event, s': System)
    requires Moves(s, e, s')
    ensures Seen(s') == Seen(s) + match e { case ClientSends(step) => [Entry(step, |s.calls|)] case _ => [] }
  {
    match e
    case ClientSends(step) => FromClientsSnoc(s.queue, Entry(step, |s.calls|));
    case ControllerCalls(step) => FromClientsSnoc(s.queue, Entry(step, |s.calls|));
    case BrokerTakes => TakeServesFirst(s);
  }

  lemma TakeServesFirst(s: System)
    requires s.queue != [] && DistinctIds(s.broker.windows) && Service.Legal(s.queue[0].step)
    ensures Seen(Take(s)) == Seen(s)
  {
    if s.queue[0].step.FromClient? {
      assert Take(s).answers[..|s.answers|] == s.answers;
      assert Answered(Take(s).answers) == Answered(s.answers) + [s.queue[0]];
    }
  }

  /** Every request is answered once, in the order in which they were sent: at any moment those answered,
      followed by those still queued, are exactly those sent. */
  lemma {:induction false} RequestsAreServedInOrder(states: seq<System>, events: seq<Event>, i: nat)
    requires IsRun(states, events) && i < |states|
    ensures Seen(states[i]) == Sent(states, events, i)
  {
    if i > 0 {
      RequestsAreServedInOrder(states, events, i - 1);
      assert Moves(states[i - 1], events[i - 1], states[i]);
      MoveServesInOrder(states[i - 1], events[i - 1], states[i]);
    }
  }

  /** Every `list` or `subscribe` ever answered saw the state wholly before or wholly after a concurrent
      call: exactly the calls issued before it was queued. */
  lemma AnswersAreLinearizable(states: seq<System>, events: seq<Event>, i: nat, a: Answer)
    requires IsRun(states, events) && i < |states| && a in states[i].answers
    ensures Consistent(a, states[i].calls)
  {
    RunKeepsInvariant(states, events, i);
  }

  /** While the controller waits, its message gets nearer to the head of the queue with every message the
      broker takes and no client can push it back, so every call returns. */
  ghost function CallDistance(queue: seq<Entry>): nat {
    if queue == [] || !queue[0].step.FromClient? then 0 else 1 + CallDistance(queue[1..])
  }

  lemma {:induction false} CallDistanceAppend(queue: seq<Entry>, e: Entry)
    requires exists c :: 0 <= c < |queue| && !queue[c].step.FromClient?
    ensures CallDistance(queue + [e]) == CallDistance(queue)
  {
    var c :| 0 <= c < |queue| && !queue[c].step.FromClient?;
    if queue[0].step.FromClient? {
      assert (queue + [e])[1..] == queue[1..] + [e];
      assert queue[1..][c - 1] == queue[c];
      CallDistanceAppend(queue[1..], e);
    }
  }

  lemma WaitingCallAdvances(s: System, e: Event, s': System)
    requires Invariant(s) && s.waiting && Moves(s, e, s')
    ensures match e
            case BrokerTakes => !s'.waiting || CallDistance(s'.queue) == CallDistance(s.queue) - 1
            case _ => s'.waiting && CallDistance(s'.queue) == CallDistance(s.queue)
  {
    if e.ClientSends? { CallDistanceAppend(s.queue, Entry(e.step, |s.calls|)); }
  }
}
