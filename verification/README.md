# Melibea: a verified model

Melibea is a daemon beside the niri compositor. It does two things, and this project models both, together with
the loop that joins them:

- **The minimized-window feed.** A registry accepts full lists of minimized windows from niri, a broker turns each
  accepted list into a revisioned stream (a full snapshot after every resynchronization, an edit script otherwise,
  an unavailable marker on loss), and subscribers rebuild the list from that stream.
- **The focus controller.** An adapter mirrors compositor events into an attention engine, the engine emits
  generation-stamped width decisions, a queue coalesces them, and a loop applies what is left.

The main results are about whole runs. Every subscriber that is still connected holds exactly the broker's state,
and has gone through every state since it joined, once and in order, whatever writes failed and however often the
compositor connection was lost. A drained queue leaves the same widths as an executor that applies every decision
at once. A pending action is an expansion exactly if its window has the focus, and the focused window's action runs
first, even when the generation counter has saturated.

## Layout

| file | what it holds |
|---|---|
| `Base.dfy`, `Ordered.dfy` | options and results, saturating 64-bit counters, ascending key order |
| `Protocol.dfy` | windows, changes, messages; a client that checks each change before applying it |
| `WindowDiff.dfy`, `DiffProperties.dfy`, `DiffAccounting.dfy` | the edit script: the algorithm, what it promises and exactly when, what it contains |
| `Replica.dfy` | a strict subscriber that replays its messages, and the grammar of a subscription |
| `Service.dfy`, `ServiceQueue.dfy` | the broker over any run; the queue in front of it with one waiting controller and any number of clients |
| `Minimization.dfy` | the ordered registry |
| `Config.dfy`, `Transition.dfy`, `Executor.dfy`, `Niri.dfy` | rules, engine, coalescing queue, adapter |
| `Controller.dfy` | adapter, engine and queue together, next to an executor that never coalesces |
| `Daemon.dfy`, `ControlLoop.dfy` | the whole state machine; the imperative loops, each followed by the run it performs |
| `Health.dfy` | the health report |

Classes carry the fields of the program's own structs and update them in place. Each has a `State()` that gives its
value; methods are proved against functions of that value, and the lemmas about runs speak of those functions.

What the environment decides is a parameter: which writes fail and which peers have departed (by position in the
subscriber list of that moment), what niri answers to an action, which messages have arrived at each look into the
channel, which width niri refuses. A compiled regular expression is a function from strings to truth values, and a
width is a real number in (0, 1].

## Findings

- The comment on `diff_windows` promises that the changes always reproduce the new list. They do for lists of
  distinct ids, which the registry guarantees. In general they need not: with a repeated id the algorithm can even
  insert past the end of its list (`RepeatedIdPanics`). If the new list has distinct ids, the closing assertion
  holds if and only if no surviving id is repeated in the old one; if the survivors have distinct ids, it holds if and
  only if the new list has distinct ids. When both repeat an id, each survivor must occur equally often
  (`AssertionNeedsCounts`), which is not enough: the list a, b, a compared with itself ends as b, a, a
  (`EqualCountsCanFail`). Yet later moves can restore the order (`RepeatedIdsCanSucceed`).
- An `unavailable` message repeats the current revision. Snapshots and changes advance it by one, until it
  saturates.
- Coalescing preserves the latest decision about a window only as long as that decision stands. A close, a snapshot
  that omits the window, a rejected snapshot, a refused width and a reload drop its queued action
  (`ForgottenExactly`), and so does a newer decision that asks for no width. From then on the window agrees with
  an executor that applies every decision if and only if nothing was owed at that moment: either no action was queued
  for it, or the queued width was the one it already had (`StepAgreesExactly` for one step,
  `CoalescingAgreesExactly` for a run). `ReusedIdIsReached` is a run of three events after which they differ on a live
  window: a snapshot with one focused window, its close, and a new window with its id.
- News about a window that is not focused creates no decision (`FocusedNewsIsDecided`), so the queue agrees with the
  latest decision about a window and not with its latest metadata.

## Model

| member | source | states |
|---|---|---|
| Protocol.ApplyAllConcat | src/protocol.rs:360-381 | changes are sequential: a script split anywhere can be applied part by part |
| Protocol.AcceptedChange | src/protocol.rs:360-381 | a change that fits leaves distinct ids; an added window is new and at the named index, a removed one gone, an updated one at its index with its new record, a moved one at its new index, and no other id comes or goes |
| WindowDiff.Position | src/protocol.rs:490-493 | finds a window with the id, and fails exactly when there is none |
| WindowDiff.RemoveMissing | src/protocol.rs:482-487 | the backward removal loop ends with the pruned list and one removal per dropped position |
| WindowDiff.BringTo | src/protocol.rs:490-518 | one round of the second loop, the out-of-range insert included |
| WindowDiff.DiffWindows | src/protocol.rs:478-524 | on every input the returned script applied to the old list gives the algorithm's own final list; with distinct new ids and distinct survivors that list is the new one |
| WindowDiff.DiffTracksItsCopy | src/protocol.rs:478-524 | on every input that does not panic, each change fits the list it meets and the client ends with the algorithm's list |
| WindowDiff.PruneKeeps | src/protocol.rs:482-487 | the removal loop leaves the windows whose ids survive, in their old order |
| WindowDiff.SettleIsScript | src/protocol.rs:489-520 | with distinct ids the second loop keeps its list split into finished prefix and untouched rest and ends with the new list |
| WindowDiff.DiffIsScript | src/protocol.rs:478-524 | with distinct new ids and distinct survivors the run does not panic, ends with the new list, and its script is the removals followed by the placements |
| DiffProperties.DiffReproducesNext | src/protocol.rs:475-524 | for lists of distinct ids the closing assertion holds and applying the changes in order reproduces the new list exactly |
| DiffProperties.DiffScript | src/protocol.rs:475-524 | the script for two lists of distinct ids turns the first into the second |
| DiffProperties.DiffRoundTrip | src/protocol.rs:475-524 | the script there followed by the script back restores the list |
| DiffProperties.DiffCounts | src/protocol.rs:482-520 | the algorithm never changes how often an id occurs, except that it adds a missing one once |
| DiffProperties.AssertionNeedsCounts | src/protocol.rs:522 | on every input the closing assertion requires each id to occur in the new list as often as in the old, or once if new |
| DiffProperties.AssertionExactForDistinctNext | src/protocol.rs:522 | for distinct new ids the closing assertion holds if and only if no survivor is repeated in the old list |
| DiffProperties.AssertionExactForDistinctSurvivors | src/protocol.rs:522 | for distinct survivors the closing assertion holds if and only if the new list has distinct ids |
| DiffProperties.RepeatedIdPanics | src/protocol.rs:501-504 | a new list that repeats an id can make the insert run past the end |
| DiffProperties.EqualCountsCanFail | src/protocol.rs:522 | with repeated ids on both sides equal counts do not suffice: a list compared with itself can fail the closing assertion |
| DiffProperties.RepeatedIdsCanSucceed | src/protocol.rs:522 | nor is distinctness necessary then: n, d, n against n, n, d meets the closing assertion |
| DiffAccounting.DiffAccounts | src/protocol.rs:482-520 | per id: one removal if only in the old list, one addition if only in the new, one update if shared and changed, one move if some other survivor stands before it in the old list and after it in the new, nothing else |
| DiffAccounting.DiffLength | src/protocol.rs:482-520 | the script is no longer than the two lists together, that is removed plus added plus twice the shared windows |
| DiffAccounting.DiffEmptyIffEqual | src/protocol.rs:482-520 | the script is empty if and only if the lists are equal |
| DiffAccounting.DiffMovesIffReordered | src/protocol.rs:501-510 | a move is emitted if and only if the surviving windows stand in another order in the new list |
| DiffAccounting.DiffMovesForward | src/protocol.rs:502-509 | every move goes strictly towards the front |
| Replica.FollowedLogsFitGrammar | PROTOCOL.md:50-64 | a log a strict client can follow starts with a snapshot or an unavailable marker, has changes only after snapshot or changes and never empty ones, a snapshot only after a marker, revisions that line up, and no marker repeated for the same reason |
| Service.BrokerState.constructor | src/service.rs:410-420 | the broker starts unavailable at revision 0 with no subscriber |
| Service.BrokerState.PublishWindows | src/service.rs:451-471 | afterwards the broker is ready with exactly the published list and every retained subscriber replays to it |
| Service.BrokerState.MarkUnavailable | src/service.rs:473-483 | afterwards every retained subscriber replays to the unavailable view with the current revision and reason |
| Service.BrokerState.HandleClient | src/service.rs:485-532 | the reply shows the state at that moment, only a subscription touches the subscriber list, and every retained subscriber stays faithful |
| Service.BrokerState.Serve | src/service.rs:424-446 | one queued message moves the broker as the step relation says and keeps every subscriber faithful |
| Service.BrokerState.Broadcast | src/service.rs:541-549 | every subscriber is written to and exactly those whose write succeeded are kept, in order |
| Service.BrokerState.SweepDeparted | src/service.rs:560-563 | exactly the departed subscribers are dropped, nobody is written to |
| Service.BrokerLoop | src/service.rs:422-448 | the receive loop serves the queue in order until shutdown and ends faithful, in the state of that run |
| Service.StepKeepsFaithful | src/service.rs:450-549 | every step of the broker keeps every retained subscriber's replay equal to the broker's view |
| Service.BroadcastCarriesView | src/service.rs:451-483 | a message goes out exactly when the view changes, and it takes a client from the old view to the new one |
| Service.SubscribeStartsFaithful | src/service.rs:501-520 | subscription is atomic: the first message is already the view current at that moment |
| Service.RetainedSubscribersAreFaithful | src/service.rs:450-549 | in every reachable state each retained subscriber replays to the broker's readiness, revision and windows, its stream fits the grammar, and every message carries its version |
| Service.NoSubscriberMissesAnUpdate | PROTOCOL.md:91-98 | the views a subscriber has gone through are exactly the last ones of the broker's history since it joined: none missed, repeated or reordered |
| Service.RevisionAdvancesWithEachList | PROTOCOL.md:50-54 | the revision advances by one (below saturation) with each list that becomes visible and at no other step |
| Service.FieldsAfterStep | src/service.rs:450-532 | what a call leaves in each field: a published list is ready and clears the reason, an unavailable call sets the reason and keeps list and revision, a request changes none |
| Service.SubscribersAfterStep | src/service.rs:501-563 | only a failed write or a departed peer costs a subscription: exactly the others stay, in order, with exactly the broadcast added, and an accepted newcomer joins at the end |
| Service.DeliveredExactly | src/service.rs:541-549 | a broadcast keeps exactly the subscribers whose write succeeded, each of them, in order, with the message added |
| Service.SweptExactly | src/service.rs:560-563 | a sweep keeps exactly the subscribers whose peer is still there, each of them, untouched and in order |
| Service.AcceptedSubscriberJoins | src/service.rs:510-519 | an accepted subscriber is on the list afterwards, holding the current view in its version |
| Service.ClientsOnlyRead | src/service.rs:485-532 | no client request changes revision, readiness, reason or windows |
| ServiceQueue.RunKeepsInvariant | src/service.rs:150-179 | in every interleaving at most one controller message is queued, and it separates the requests sent before from those sent after the call |
| ServiceQueue.ReturnedCallIsVisible | src/service.rs:150-179 | once a call has returned, and until the next one, the broker shows the view of the calls so far, revision included: ready with the list published last, or unavailable for the reason given last, whatever clients do |
| ServiceQueue.AnswersAreLinearizable | PROTOCOL.md:91-98 | each list or subscribe is answered with the view, revision included, of exactly the calls issued before it was queued: wholly before or wholly after a concurrent update; an action with its own result; each in the version of the request |
| ServiceQueue.RequestsAreServedInOrder | src/service.rs:422-448 | at any moment the requests answered, followed by those still queued, are exactly those sent, in order: none lost, repeated or overtaken |
| ServiceQueue.WaitingCallAdvances | src/service.rs:170-179 | a waiting call gets nearer to its answer with every message taken and no client can delay it further |
| Minimization.MinimizedRegistry.constructor | src/minimization.rs:74-78 | the registry starts empty at revision 0 |
| Minimization.MinimizedRegistry.Apply | src/minimization.rs:101-109 | one event replaces, overwrites, appends or removes as reported, or is rejected without effect; ids stay distinct |
| Minimization.MinimizedRegistry.ReplaceSnapshot | src/minimization.rs:111-134 | a snapshot is accepted if and only if its ids are distinct; a rejection names the first repeated id and changes nothing |
| Minimization.MinimizedRegistry.MarkMinimized | src/minimization.rs:136-153 | a known window is overwritten in place, an unknown one appended |
| Minimization.MinimizedRegistry.ChangeMetadata | src/minimization.rs:155-168 | a known window is overwritten in place, an unknown one never fabricated |
| Minimization.MinimizedRegistry.Remove | src/minimization.rs:170-178 | a known window is removed with its reason, an unknown one only reported |
| Minimization.RejectedSnapshot | src/minimization.rs:115-120 | a rejected snapshot repeats the id named, which is the first to be met twice, and leaves the registry as it was |
| Minimization.EventTakesEffect | src/minimization.rs:101-178 | what each event leaves and reports: the snapshot with both counts, the window minimized again or renamed with its new record at the reported index, an unknown one appended or only reported, a restored or closed one gone with that reason, and no other window touched |
| Minimization.StepKeepsDistinct | src/minimization.rs:101-186 | ids stay distinct and the revision advances by one exactly when the list changed (below saturation) |
| Minimization.ReportTellsChange | src/minimization.rs:45-71 | the report says unchanged or unknown exactly when the list is the same |
| Minimization.ReportDeterminesList | src/minimization.rs:45-71 | old list, event and report together determine the new list |
| Minimization.IncrementalEventsKeepOrder | src/minimization.rs:136-178 | every event but a full snapshot keeps the survivors' relative order |
| Minimization.RunFollows | src/minimization.rs:101-186 | over any run a listener that follows the reports ends with the registry's list, ids are distinct and the revision never falls |
| Minimization.ImageFaithful | src/protocol.rs:349-358 | the public image shows the registry list field by field (id, application id, title, no icon), has distinct ids exactly if the list has, and determines it |
| Rules.Resolve | src/config.rs:75-81 | the index of the first matching rule, none exactly when no rule matches |
| Rules.ResolvesToFirstFit | src/config.rs:75-185 | over the fields of rule and window: a rule fits if each pattern it has finds a value that it matches; resolution gives an index if and only if that rule is the first to fit, and none if and only if none fits |
| Transition.AttentionEngine.UpsertWindow | src/transition.rs:117-119 | exactly the window's own record is replaced |
| Transition.AttentionEngine.RemoveWindow | src/transition.rs:122-127 | the window is gone, focus is cleared if it held it, and the result says whether it was known |
| Transition.AttentionEngine.ObserveFocus | src/transition.rs:140-161 | the transition of a focus observation and the engine it leaves |
| Transition.AttentionEngine.ReevaluateFocus | src/transition.rs:165-179 | the transition that re-decides the current focus and the engine it leaves |
| Transition.AttentionEngine.SynchronizeFocus | src/transition.rs:186-210 | the transition that decides for every known window in id order and the engine it leaves |
| Transition.AttentionEngine.DecisionFor | src/transition.rs:217-245 | the decision about one window in one focus state |
| Transition.OutcomesExactly | src/transition.rs:217-245 | over the fields: a resize to a width if and only if the window is known and tiled and the first rule that fits its application id and title has this width in its focused field (for a focused window) or in its unfocused one; preserve, unmanaged, excluded and unknown likewise |
| Transition.ObserveCoherent | src/transition.rs:140-161 | every observation takes the next generation, decides from the new state, calls focused exactly the new focus and leaves out only windows whose focus did not change; a change from one window to another decides about the old one first, a repeated report about none |
| Transition.ReevaluateCoherent | src/transition.rs:165-179 | the same for a re-evaluation |
| Transition.SynchronizeCoherent | src/transition.rs:186-210 | a synchronization decides about exactly the known windows, in ascending id order, reports the old focus and the new one, and is coherent if and only if the new focus is none or a known window |
| Executor.PendingResizes.Ingest | src/executor.rs:32-63 | the loop leaves the queue that taking the decisions one by one gives |
| Executor.PendingResizes.PopNext | src/executor.rs:69-81 | returns and removes the pending action that comes before all others: higher generation, then focused, then higher window id; none exactly when empty |
| Executor.PendingResizes.ForgetWindow | src/executor.rs:84-87 | nothing about the window is left, everything else is |
| Executor.PendingResizes.Reset | src/executor.rs:90-93 | nothing is left |
| Executor.IngestLookup | src/executor.rs:32-63 | per window: a transition has no effect if older than what the queue has seen, and otherwise leaves exactly its last decision |
| Executor.WinnerDecides | src/executor.rs:32-63 | after any sequence of transitions of distinct generations each window holds what the newest one that mentions it says |
| Executor.IngestOrderIrrelevant | src/executor.rs:32-63 | any permutation of transitions of distinct generations leaves the same queue |
| Executor.DrainIsOrderedAndComplete | src/executor.rs:69-81 | repeated popping returns each pending action exactly once; generations never rise, within one generation focused windows come first, and among equals the higher window id |
| Niri.NiriAdapter.constructor | src/niri.rs:214-219 | the adapter starts with no window, no focus and generation 0 |
| Niri.NiriAdapter.Apply | src/niri.rs:228-252 | each event leaves the adapter and engine of the event function; a rejected snapshot leaves everything as it was |
| Niri.NiriAdapter.ReplaceWindows | src/niri.rs:254-287 | a snapshot is rejected without effect if it names two focused windows and replaces the mirror otherwise |
| Niri.NiriAdapter.ApplyFocus | src/niri.rs:289-295 | a focus report re-decides the same focus or observes the new one |
| Niri.ReplacedIsSnapshot | src/niri.rs:254-287 | windows, signatures, focus and decisions after a snapshot are those of the snapshot, whatever they were before: the focus is the id of its focused window, or none if it has none |
| Niri.AppliedIsCoherent | src/niri.rs:228-252 | every other event keeps signatures and engine windows equal and decides coherently with the focus |
| Niri.TwoFocusedRejected | src/niri.rs:258-266 | a snapshot is rejected if and only if two of its windows are focused; the error names exactly the ids of its focused windows |
| Niri.FocusedIdsExactly | src/niri.rs:258-262 | the ids collected from a snapshot are those at the positions of its focused windows, one by one and in order |
| Niri.FocusReportIsDecided | src/niri.rs:248-295 | every focus report is answered: the focus moves there and nothing else does, the window that has it is decided as focused, the one that lost it as unfocused, no other is decided about |
| Niri.OtherWindowsStay | src/niri.rs:228-252 | news about a window gives it the record and signature the news tells; a close touches that window only, a focus report none, and every other event changes nothing at all |
| Niri.EventIsReported | src/niri.rs:228-287 | one event, told by its own fields: the known windows become those of the latest news and the focus the one reported |
| Niri.MirrorIsTheReport | src/niri.rs:228-295 | after any sequence of events, rejected ones included, the adapter knows exactly the windows the events leave open, each by the latest news about it, and the focus is the one they name last |
| Controller.IngestKeepsSound | src/executor.rs:32-63 | a coherent transition keeps the queue in step with the focus |
| Controller.FedKeepsSound | src/main.rs:846-863 | every accepted event keeps the joint invariant, and only a snapshot with two focused windows is rejected |
| Controller.StepKeepsTraceSound | src/main.rs:745-773 | every event, pop and rebuilt connection keeps queue, latest decisions and both executors' widths in agreement |
| Controller.PendingMatchesFocus | src/executor.rs:43-61 | in every reachable state a pending action is for a live window, carries its latest generation, which is not above the engine's, and is an expansion if and only if its window has the focus; signatures mirror the engine |
| Controller.FocusedRunsFirst | src/executor.rs:69-81 | in every reachable state, saturated or not, a pending action of the focused window is the next one popped |
| Controller.PopAppliesLatestDecision | src/executor.rs:19-23 | a popped action always carries out the latest decision about its window |
| Controller.NoOpCancelsOlderWork | src/executor.rs:19-23 | when the latest decision about a window asks for no width, nothing older is pending for it |
| Controller.CoalescingRefinesNaive | src/main.rs:745-773 | after any run, once drained, a window whose latest decision is a resize has the same width as under an executor that applies every decision in order |
| Controller.CoalescingLagsOnlyWhilePending | src/main.rs:745-773 | before that, the two differ on such a window only while its action is pending, which then carries the missing width |
| Controller.ForgottenExactly | src/executor.rs:84-93 | a decision is forgotten exactly at a rebuilt connection (reload, refused width, snapshot with two focused windows), a close of its window, and a snapshot that does not list it |
| Controller.StepAgreesExactly | src/executor.rs:84-93 | exactly when one step leaves a window with the same width as an executor that applies every decision: while a resize stands, if and only if no other width is queued for it; when the standing resize is dropped, if and only if no other width was queued before; else if it did before |
| Controller.CoalescingAgreesExactly | src/main.rs:745-773 | over any run the two agree on a window if and only if no other width was queued for it the last time a resize stood for it |
| Controller.ReusedIdIsReached | src/executor.rs:84-87 | a snapshot with one focused window, its close and a new window with its id lead to a live window on which they differ |
| Controller.ReusedIdStartsOver | src/executor.rs:84-87 | a closed window's queued action is dropped even if its id comes back: the new window has nothing pending and no width applied, while an executor that applies every decision had resized its predecessor |
| Controller.PopsDrain | src/main.rs:745-773 | without new events as many rounds as there are pending actions empty the queue |
| Controller.SnapshotErasesHistory | src/niri.rs:254-287 | an accepted snapshot leaves the same windows, focus, signatures, decisions and pending actions (generations aside) from any two sound states |
| Controller.DecisionActs | src/main.rs:846-863 | whatever event has the adapter decide about a window, the queue then asks for exactly the width the rules prescribe for it in the focus state it now has, or for none; about other windows it asks what it asked before |
| Controller.FocusReportActs | src/main.rs:846-863 | in every reachable state a focus report moves the focus there, has the queue ask for the focused width of the window that has it and the unfocused width of the one that lost it, and leaves all other pending work |
| Controller.SnapshotActs | src/main.rs:846-863 | after an accepted snapshot the queue asks for what the rules prescribe for each window it lists, in the focus state it gives it, and for nothing else |
| Controller.FocusReportIsApplied | src/main.rs:745-765 | one round after a focus report the focused window has the width its rule prescribes for a focused window, whatever else was pending |
| Controller.MirrorFollowsConnection | src/main.rs:676-742 | in every reachable state the controller works by the rules loaded last and knows exactly the windows, with their latest news, and the focus that the events since the connection was last rebuilt report |
| Daemon.StepKeepsInvariant | src/main.rs:816-865 | every step of the daemon keeps focus side, subscribers and registry sound, and a ready broker shows exactly the registry's image |
| Daemon.RunKeepsInvariant | src/main.rs:676-696 | so does every run, across lost connections, refused widths and reloads |
| Daemon.AcceptedSnapshotIsVisible | src/main.rs:829-837 | after each accepted minimized snapshot the broker is ready with exactly its windows, field by field, and the diff it took met its closing assertion |
| Daemon.RejectedExactly | src/main.rs:823-853 | in every reachable state a message is rejected if and only if the stream ended or failed, a minimized snapshot repeats an id, or a window snapshot names two focused windows, each with its own error; the state it meets plays no part |
| Daemon.ConnectionEndsCleanly | src/main.rs:676-707 | a message not taken, a refused width or a reload leaves no window, focus, registry entry or pending action, and a broker unavailable for the reason given at its old revision; only a reload changes the rules |
| Daemon.RulesInForce | src/main.rs:676-697 | in every reachable state the rules in force are those loaded last, across lost connections too |
| Daemon.BrokerFollowsTrace | src/main.rs:676-696 | inside the daemon the broker goes through a run of its own |
| Daemon.SubscribersMirrorRegistry | PROTOCOL.md:56-58 | in every run of the daemon a retained subscriber's list shows the registry's windows one by one, id, application id and title, and it has seen every view since it joined, in order |
| ControlLoop.IngestStreamMessage | src/main.rs:816-865 | one message moves adapter, queue, registry and broker as the step function says; a rejected one leaves all four as they were |
| ControlLoop.DrainStreamMessages | src/main.rs:798-814 | takes the messages in order, with client requests served between them; succeeds if and only if none is rejected, and otherwise stops at the first rejected one with its error, in the state the ones before it leave |
| ControlLoop.TakeItem | src/main.rs:798-814 | one message or one client request between two looks into the channel |
| ControlLoop.ApplyNext | src/main.rs:754-765 | pops the most urgent action and sets exactly its width; fails if and only if there is one and niri refuses it, and then no width has changed |
| ControlLoop.PopRound | src/main.rs:753-765 | the second half of a round: one action applied, or nothing left to apply |
| ControlLoop.ApplyRound | src/main.rs:745-765 | one round takes what has come and then applies one action, or finds everything cancelled; it fails only if one of its messages is rejected, with that error, or its width is refused, and leaves the broker as the messages taken before have; success means neither happened |
| ControlLoop.ApplyLoop | src/main.rs:745-773 | the loop terminates; if no message and no width is rejected it succeeds; success means that nothing was rejected in the rounds performed, that the loop stopped the first time the queue was empty, and that the state is that of the run that takes each batch and then pops once; an error is that of a round that failed, with the broker as that round leaves it |
| ControlLoop.AcceptableMessagesAreSmooth | src/main.rs:745-773 | if every message that may come is acceptable by itself and niri refuses nothing, the loop meets no failure, whatever clients ask meanwhile |
| ControlLoop.PerformedTakesAll | src/main.rs:745-765 | the run of an undisturbed loop consists, round by round, of every message and request of that round's batch in order, one pop after each batch, and nothing else |
| ControlLoop.ApplyLoopSettles | src/main.rs:745-773 | after the loop the widths niri holds are those of the latest decisions and the daemon's invariant stands |
| Health.FromWindows | src/health.rs:39-88 | each number counts exactly the positions it names: tiled or floating, fitted by some rule or by none, and per rule the tiled windows it is the first to fit; the focused window is described field by field with its first fitting rule; the three totals and the per-rule counts add up; rejected if and only if two windows are focused |
| Health.RuleCountsAddUp | src/health.rs:63-65 | the windows claimed by the single rules are the matched tiled ones, each once |
| Health.TiledMeansFirstMatch | src/health.rs:56-98 | a window is counted under a rule if and only if that rule is the one whose policy the engine decides by |

## Left out

- DiffProperties.AssertionNeedsCounts: when both lists repeat an id only this necessary condition is proved, with one input on which it does not suffice and one on which the assertion holds all the same. The registry excludes the case, and both exact conditions cover every pair with distinct ids on one side.
- ControlLoop.ApplyLoop: after a rejected message or a refused width it pins down error, round and broker; adapter, queue and registry are dropped by the caller, and `Daemon.Next` says what follows.
- Daemon.RejectedExactly: does not model that `publish_snapshot` also fails when the broker has stopped (src/main.rs:829-831). The broker stops only at the shutdown message sent when the service is dropped (src/service.rs:182-196), or when its thread dies.
- ControlLoop.IngestStreamMessage: the same error return of `publish_snapshot` on a stopped broker is left out.
- ServiceQueue.RunKeepsInvariant: the queue is modelled on values, not as threads sharing a channel; the rendezvous is one step, and the broker never stops.
- The blocking receive, the configuration poll and the reconnect delay around the apply loop; a reload or a lost connection is one step of `Daemon.Next`.
- Sockets, permissions, timeouts, the accept loop and partial writes; a write succeeds or fails.
- JSON encoding and decoding of events, requests and messages, and everything in src/niri_ipc.rs.
- Protocol version checks and the errors sent before a request reaches the broker; anchors and transitions carried by actions.
- The text of error messages and of the reasons given for a lost connection; the model takes the reason as a parameter.
- Regular expressions, TOML parsing, configuration paths and width parsing.
- The command line, printing and the action-status mapping.
