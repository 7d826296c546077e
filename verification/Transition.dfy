/** Focus decisions: which width every focus change asks for. */
module Transition {
  import opened Base
  import opened Rules
  import opened Ordered

  datatype ExclusionReason = Floating

  datatype WindowEligibility = Managed | Excluded(reason: ExclusionReason)

  datatype WindowRecord =
    WindowRecord(id: U64, appId: Option<string>, title: Option<string>, eligibility: WindowEligibility)

  datatype FocusState = Focused | Unfocused

  datatype DecisionOutcome =
    | Resize(ruleIndex: nat, width: Proportion)
    | Preserve(ruleIndex: nat)
    | Unmanaged
    | Exclusion(reason: ExclusionReason)
    | UnknownWindow

  datatype FocusDecision = FocusDecision(windowId: U64, state: FocusState, outcome: DecisionOutcome)

  datatype FocusTransition =
    FocusTransition(generation: U64, previous: Option<U64>, current: Option<U64>, decisions: seq<FocusDecision>)

  datatype Engine =
    Engine(config: Config, windows: map<U64, WindowRecord>, focused: Option<U64>, generation: U64)

  // ---------------------------------------------------------------- specification

  function IdentityOf(w: WindowRecord): WindowIdentity { WindowIdentity(w.appId, w.title) }

  function Outcome(config: Config, windows: map<U64, WindowRecord>, id: U64, state: FocusState): DecisionOutcome {
    if id !in windows then UnknownWindow
    else match windows[id].eligibility
      case Excluded(reason) => Exclusion(reason)
      case Managed =>
        match Resolve(config, IdentityOf(windows[id]))
        case None => Unmanaged
        case Some(index) =>
          match WidthFor(config[index].policy, state.Focused?)
          case Width(width) => Resize(index, width)
          case KeepWidth => Preserve(index)
  }

  function Decide(e: Engine, id: U64, state: FocusState): FocusDecision {
    FocusDecision(id, state, Outcome(e.config, e.windows, id, state))
  }

  function Bumped(e: Engine): Engine { e.(generation := SaturatingSucc(e.generation)) }

  function Upserted(e: Engine, w: WindowRecord): Engine { e.(windows := e.windows[w.id := w]) }

  function Dropped(e: Engine, id: U64): Engine {
    e.(windows := e.windows - {id}, focused := if e.focused == Some(id) then None else e.focused)
  }

  function Observed(e: Engine, current: Option<U64>): (Engine, FocusTransition) {
    var e' := Bumped(e).(focused := current);
    var lost := if e.focused != current && e.focused.Some? then [Decide(e', e.focused.value, Unfocused)] else [];
    var gained := if e.focused != current && current.Some? then [Decide(e', current.value, Focused)] else [];
    (e', FocusTransition(e'.generation, e.focused, current, lost + gained))
  }

  function Reevaluated(e: Engine): (Engine, FocusTransition) {
    var e' := Bumped(e);
    (e', FocusTransition(e'.generation, e.focused, e.focused,
                         if e.focused.Some? then [Decide(e', e.focused.value, Focused)] else []))
  }

  function StateUnder(focus: Option<U64>, id: U64): FocusState {
    if focus == Some(id) then Focused else Unfocused
  }

  function DecideAll(e: Engine, ids: seq<U64>): (r: seq<FocusDecision>)
    ensures |r| == |ids|
  {
    if ids == [] then []
    else
      var last := |ids| - 1;
      DecideAll(e, ids[..last]) + [Decide(e, ids[last], StateUnder(e.focused, ids[last]))]
  }

  function Synchronized(e: Engine, current: Option<U64>): (Engine, FocusTransition) {
    var e' := Bumped(e).(focused := current);
    (e', FocusTransition(e'.generation, e.focused, current, DecideAll(e', Ascending(e.windows.Keys))))
  }

  // ---------------------------------------------------------------- the imperative engine

  class AttentionEngine {
    const config: Config
    var windows: map<U64, WindowRecord>
    var focused: Option<U64>
    var generation: U64

    ghost function State(): Engine reads this { Engine(config, windows, focused, generation) }

    constructor (config: Config)
      ensures State() == Engine(config, map[], None, 0)
    {
      this.config := config;
      windows, focused, generation := map[], None, 0;
    }

    method UpsertWindow(window: WindowRecord)
      modifies this`windows
      ensures State() == Upserted(old(State()), window)
    {
      windows := windows[window.id := window];
    }

    method RemoveWindow(id: U64) returns (known: bool)
      modifies this`windows, this`focused
      ensures State() == Dropped(old(State()), id) && known == (id in old(windows))
    {
      if focused == Some(id) {
        focused := None;
      }
      known := id in windows;
      windows := windows - {id};
    }

    method ObserveFocus(current: Option<U64>) returns (transition: FocusTransition)
      modifies this`focused, this`generation
      ensures (State(), transition) == Observed(old(State()), current)
    {
      var next := NextGeneration();
      var previous := focused;
      focused := current;
      var decisions: seq<FocusDecision> := [];
      if previous != current {
        if previous.Some? {
          var lost := DecisionFor(previous.value, Unfocused);
          decisions := decisions + [lost];
        }
        if current.Some? {
          var gained := DecisionFor(current.value, Focused);
          decisions := decisions + [gained];
        }
      }
      assert decisions == Observed(old(State()), current).1.decisions;
      transition := FocusTransition(next, previous, current, decisions);
    }

    method ReevaluateFocus() returns (transition: FocusTransition)
      modifies this`generation
      ensures (State(), transition) == Reevaluated(old(State()))
    {
      var next := NextGeneration();
      var decisions: seq<FocusDecision> := [];
      if focused.Some? {
        var decision := DecisionFor(focused.value, Focused);
        decisions := [decision];
      }
      transition := FocusTransition(next, focused, focused, decisions);
    }

    method SynchronizeFocus(current: Option<U64>) returns (transition: FocusTransition)
      modifies this`focused, this`generation
      ensures (State(), transition) == Synchronized(old(State()), current)
    {
      var next := NextGeneration();
      var previous := focused;
      focused := current;
      var decisions := DecisionsFor(Ascending(windows.Keys));
      transition := FocusTransition(next, previous, current, decisions);
    }

    method DecisionsFor(ids: seq<U64>) returns (decisions: seq<FocusDecision>)
      ensures decisions == DecideAll(State(), ids)
    {
      decisions := [];
      for i := 0 to |ids|
        invariant decisions == DecideAll(State(), ids[..i])
      {
        assert ids[..i + 1][..i] == ids[..i];
        var decision := DecisionFor(ids[i], StateUnder(focused, ids[i]));
        decisions := decisions + [decision];
      }
      assert ids[..|ids|] == ids;
    }

    method NextGeneration() returns (next: U64)
      modifies this`generation
      ensures State() == Bumped(old(State())) && next == generation
    {
      generation := SaturatingSucc(generation);
      next := generation;
    }

    method DecisionFor(id: U64, state: FocusState) returns (decision: FocusDecision)
      ensures decision == Decide(State(), id, state)
    {
      var outcome := UnknownWindow;
      if id in windows {
        var window := windows[id];
        if window.eligibility.Excluded? {
          outcome := Exclusion(window.eligibility.reason);
        } else {
          match Resolve(config, IdentityOf(window)) {
            case None => outcome := Unmanaged;
            case Some(index) =>
              match WidthFor(config[index].policy, state.Focused?) {
                case Width(width) => outcome := Resize(index, width);
                case KeepWidth => outcome := Preserve(index);
              }
          }
        }
      }
      decision := FocusDecision(id, state, outcome);
    }
  }

  // ---------------------------------------------------------------- what every transition says

  /** What the configuration says about a window in a focus state: the first rule that fits a known tiled window
      answers with its policy for that state. */
  ghost predicate Prescribes(e: Engine, id: U64, focused: bool, index: nat, policy: WidthPolicy) {
    && id in e.windows && e.windows[id].eligibility.Managed?
    && FitsFirst(e.config, e.windows[id].appId, e.windows[id].title, index)
    && policy == if focused then e.config[index].policy.focused else e.config[index].policy.unfocused
  }

  /** Which outcome is decided, each exactly when: a resize if a rule prescribes that width, and so on. */
  lemma OutcomesExactly(e: Engine, id: U64, state: FocusState, index: nat, width: Proportion)
    ensures var d := Decide(e, id, state);
            && d.windowId == id && d.state == state
            && (d.outcome == Resize(index, width) <==> Prescribes(e, id, state.Focused?, index, Width(width)))
            && (d.outcome == Preserve(index) <==> Prescribes(e, id, state.Focused?, index, KeepWidth))
            && (d.outcome == Unmanaged <==> && id in e.windows && e.windows[id].eligibility.Managed?
                                            && FitsNone(e.config, e.windows[id].appId, e.windows[id].title))
            && (d.outcome == Exclusion(Floating) <==> id in e.windows && e.windows[id].eligibility == Excluded(Floating))
            && (d.outcome == UnknownWindow <==> id !in e.windows)
  {
    if id in e.windows { ResolvesToFirstFit(e.config, e.windows[id].appId, e.windows[id].title, index); }
  }

  /** The last decision a transition makes about a window. */
  function LastDecision(ds: seq<FocusDecision>, id: U64): (r: Option<FocusDecision>)
    ensures r.Some? ==> r.value in ds && r.value.windowId == id
    ensures r.None? <==> forall d | d in ds :: d.windowId != id
  {
    if ds == [] then None
    else if ds[|ds| - 1].windowId == id then Some(ds[|ds| - 1])
    else LastDecision(ds[..|ds| - 1], id)
  }

  /** A transition from focus `before` into engine state `e` is coherent: it decides from the new state,
      calls focused exactly the new focus, leaves out only windows whose focus did not change, and never
      decides about others without also deciding about the window in focus. */
  ghost predicate Coherent(before: Option<U64>, e: Engine, t: FocusTransition) {
    && t.generation == e.generation && t.current == e.focused
    && (forall d | d in t.decisions :: d == Decide(e, d.windowId, StateUnder(e.focused, d.windowId)))
    && (forall id: U64 | LastDecision(t.decisions, id).None? :: before == Some(id) <==> e.focused == Some(id))
    && (t.decisions != [] && e.focused.Some? ==> LastDecision(t.decisions, e.focused.value).Some?)
  }

  /** An observation is coherent in any case, and one that moves the focus from one window to another decides
      about the old one first. */
  lemma ObserveCoherent(e: Engine, current: Option<U64>)
    ensures var (e', t) := Observed(e, current);
            && Coherent(e.focused, e', t) && t.previous == e.focused && e'.generation == SaturatingSucc(e.generation)
            && (e.focused != current && e.focused.Some? && current.Some? ==>
                  |t.decisions| == 2 && t.decisions[0].windowId == e.focused.value && t.decisions[1].windowId == current.value)
            && (e.focused == current ==> t.decisions == [])
  {
  }

  lemma ReevaluateCoherent(e: Engine)
    ensures var (e', t) := Reevaluated(e);
            Coherent(e.focused, e', t) && t.previous == e.focused && e'.generation == SaturatingSucc(e.generation)
  {
  }

  /** A full synchronization decides about exactly the known windows. It is coherent, whatever the focus was
      before, if and only if the new focus is none or a known window. */
  lemma SynchronizeCoherent(e: Engine, current: Option<U64>)
    ensures var (e', t) := Synchronized(e, current);
            && (Coherent(None, e', t) <==> (current.Some? ==> current.value in e.windows))
            && t.previous == e.focused && t.current == current
            && (forall i, j | 0 <= i < j < |t.decisions| :: t.decisions[i].windowId < t.decisions[j].windowId)
            && forall id: U64 :: LastDecision(t.decisions, id).Some? <==> id in e.windows
  {
    var (e', t) := Synchronized(e, current);
    DecideAllMembers(e', Ascending(e.windows.Keys));
    DecideAllInOrder(e', Ascending(e.windows.Keys));
    if current.Some? {
      if current.value in e.windows {
        assert Decide(e', current.value, Focused) in t.decisions;
      } else {
        assert LastDecision(t.decisions, current.value).None?;
      }
    }
  }

  /** One decision per id, in the order of the ids. */
  lemma {:induction false} DecideAllInOrder(e: Engine, ids: seq<U64>)
    ensures forall i | 0 <= i < |ids| :: DecideAll(e, ids)[i] == Decide(e, ids[i], StateUnder(e.focused, ids[i]))
  {
    if ids != [] { DecideAllInOrder(e, ids[..|ids| - 1]); }
  }

  lemma DecideAllMembers(e: Engine, ids: seq<U64>)
    ensures forall d | d in DecideAll(e, ids) :: d.windowId in ids && d == Decide(e, d.windowId, StateUnder(e.focused, d.windowId))
    ensures forall id | id in ids :: Decide(e, id, StateUnder(e.focused, id)) in DecideAll(e, ids)
  {
    DecideAllInOrder(e, ids);
  }
}
