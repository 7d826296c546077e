/** The adapter that mirrors the compositor's event stream into the attention engine. */
module Niri {
  import opened Base
  import opened Rules
  import opened Ordered
  import opened Transition
  import Minimization

  datatype NiriWindow =
    NiriWindow(id: U64, title: Option<string>, appId: Option<string>, isFocused: bool, isFloating: bool)

  datatype WindowSignature = WindowSignature(title: Option<string>, appId: Option<string>, isFloating: bool)

  datatype NiriEvent =
    | WindowsChanged(windows: seq<NiriWindow>)
    | MinimizedWindowsChanged(minimized: seq<Minimization.MinimizedWindow>)
    | WindowOpenedOrChanged(window: NiriWindow)
    | WindowClosed(id: U64)
    | WindowFocusChanged(focus: Option<U64>)
    | Ignored(name: string)

  /** A snapshot that names more than one focused window. */
  datatype AdapterError = MultipleFocusedWindows(ids: seq<U64>)

  datatype Adapter = Adapter(engine: Engine, known: map<U64, WindowSignature>)

  function SignatureOf(w: NiriWindow): WindowSignature { WindowSignature(w.title, w.appId, w.isFloating) }

  function RecordOf(w: NiriWindow): WindowRecord {
    WindowRecord(w.id, w.appId, w.title, if w.isFloating then Excluded(Floating) else Managed)
  }

  // ---------------------------------------------------------------- specification

  function Fresh(config: Config): Adapter { Adapter(Engine(config, map[], None, 0), map[]) }

  /** The ids of the focused windows, in list order. */
  function FocusedIds(ws: seq<NiriWindow>): seq<U64> {
    if ws == [] then []
    else FocusedIds(ws[..|ws| - 1]) + if ws[|ws| - 1].isFocused then [ws[|ws| - 1].id] else []
  }

  /** Later entries of the same id replace earlier ones. */
  function SignaturesOf(ws: seq<NiriWindow>): map<U64, WindowSignature> {
    if ws == [] then map[] else SignaturesOf(ws[..|ws| - 1])[ws[|ws| - 1].id := SignatureOf(ws[|ws| - 1])]
  }

  function UpsertAll(e: Engine, ws: seq<NiriWindow>): Engine {
    if ws == [] then e else Upserted(UpsertAll(e, ws[..|ws| - 1]), RecordOf(ws[|ws| - 1]))
  }

  function DropAll(e: Engine, ids: seq<U64>): Engine {
    if ids == [] then e else Dropped(DropAll(e, ids[..|ids| - 1]), ids[|ids| - 1])
  }

  function FocusApplied(e: Engine, focus: Option<U64>): (Engine, FocusTransition) {
    if e.focused == focus then Reevaluated(e) else Observed(e, focus)
  }

  function First(ids: seq<U64>): Option<U64> { if ids == [] then None else Some(ids[0]) }

  function Replaced(a: Adapter, ws: seq<NiriWindow>): (Adapter, FocusTransition) {
    var next := SignaturesOf(ws);
    var dropped := DropAll(a.engine, Ascending(a.known.Keys - next.Keys));
    var (engine, t) := Synchronized(UpsertAll(dropped, ws), First(FocusedIds(ws)));
    (Adapter(engine, next), t)
  }

  function Applied(a: Adapter, event: NiriEvent): Result<(Adapter, Option<FocusTransition>), AdapterError> {
    match event
    case WindowsChanged(ws) =>
      if |FocusedIds(ws)| > 1 then Err(MultipleFocusedWindows(FocusedIds(ws)))
      else var (a', t) := Replaced(a, ws); Ok((a', Some(t)))
    case WindowOpenedOrChanged(w) =>
      var upserted := Upserted(a.engine, RecordOf(w));
      var known := a.known[w.id := SignatureOf(w)];
      var relevant := w.id !in a.known || a.known[w.id] != SignatureOf(w);
      if w.isFocused && relevant then
        var (engine, t) := FocusApplied(upserted, Some(w.id)); Ok((Adapter(engine, known), Some(t)))
      else Ok((Adapter(upserted, known), None))
    case WindowClosed(id) => Ok((Adapter(Dropped(a.engine, id), a.known - {id}), None))
    case WindowFocusChanged(focus) =>
      var (engine, t) := FocusApplied(a.engine, focus); Ok((Adapter(engine, a.known), Some(t)))
    case MinimizedWindowsChanged(_) => Ok((a, None))
    case Ignored(_) => Ok((a, None))
  }

  // ---------------------------------------------------------------- the imperative adapter

  class NiriAdapter {
    const engine: AttentionEngine
    var knownWindows: map<U64, WindowSignature>

    ghost function State(): Adapter reads this, engine { Adapter(engine.State(), knownWindows) }

    constructor (config: Config)
      ensures State() == Fresh(config) && fresh(engine)
    {
      engine := new AttentionEngine(config);
      knownWindows := map[];
    }

    method Apply(event: NiriEvent) returns (result: Result<Option<FocusTransition>, AdapterError>)
      modifies this, engine
      ensures match Applied(old(State()), event)
              case Err(e) => result == Err(e) && State() == old(State())
              case Ok((a, t)) => result == Ok(t) && State() == a
    {
      match event {
        case WindowsChanged(ws) =>
          var replaced := ReplaceWindows(ws);
          match replaced {
            case Err(e) => result := Err(e);
            case Ok(t) => result := Ok(Some(t));
          }
        case WindowOpenedOrChanged(window) =>
          var signature := SignatureOf(window);
          var relevant := window.id !in knownWindows || knownWindows[window.id] != signature;
          knownWindows := knownWindows[window.id := signature];
          engine.UpsertWindow(RecordOf(window));
          if window.isFocused && relevant {
            var t := ApplyFocus(Some(window.id));
            result := Ok(Some(t));
          } else {
            result := Ok(None);
          }
        case WindowClosed(id) =>
          knownWindows := knownWindows - {id};
          var _ := engine.RemoveWindow(id);
          result := Ok(None);
        case WindowFocusChanged(focus) =>
          var t := ApplyFocus(focus);
          result := Ok(Some(t));
        case MinimizedWindowsChanged(_) => result := Ok(None);
        case Ignored(_) => result := Ok(None);
      }
    }

    method ReplaceWindows(ws: seq<NiriWindow>) returns (result: Result<FocusTransition, AdapterError>)
      modifies this, engine
      ensures if |FocusedIds(ws)| > 1
              then result == Err(MultipleFocusedWindows(FocusedIds(ws))) && State() == old(State())
              else result.Ok? && (State(), result.value) == Replaced(old(State()), ws)
    {
      var focused := FocusedIds(ws);
      if |focused| > 1 {
        return Err(MultipleFocusedWindows(focused));
      }
      var next := SignaturesOf(ws);
      RemoveAll(Ascending(knownWindows.Keys - next.Keys));
      UpsertEach(ws);
      knownWindows := next;
      var t := engine.SynchronizeFocus(First(focused));
      result := Ok(t);
    }

    method RemoveAll(ids: seq<U64>)
      modifies engine
      ensures engine.State() == DropAll(old(engine.State()), ids)
    {
      for i := 0 to |ids|
        invariant engine.State() == DropAll(old(engine.State()), ids[..i])
      {
        assert ids[..i + 1][..i] == ids[..i];
        var _ := engine.RemoveWindow(ids[i]);
      }
      assert ids[..|ids|] == ids;
    }

    method UpsertEach(ws: seq<NiriWindow>)
      modifies engine
      ensures engine.State() == UpsertAll(old(engine.State()), ws)
    {
      for i := 0 to |ws|
        invariant engine.State() == UpsertAll(old(engine.State()), ws[..i])
      {
        assert ws[..i + 1][..i] == ws[..i];
        engine.UpsertWindow(RecordOf(ws[i]));
      }
      assert ws[..|ws|] == ws;
    }

    method ApplyFocus(focus: Option<U64>) returns (transition: FocusTransition)
      modifies engine
      ensures (engine.State(), transition) == FocusApplied(old(engine.State()), focus)
    {
      if engine.focused == focus {
        transition := engine.ReevaluateFocus();
      } else {
        transition := engine.ObserveFocus(focus);
      }
    }
  }

  // ---------------------------------------------------------------- the mirror

  /** The signature map and the engine agree window by window. */
  ghost predicate Mirrors(a: Adapter) {
    && a.known.Keys == a.engine.windows.Keys
    && forall id | id in a.known :: Agrees(id, a.known[id], a.engine.windows[id])
  }

  ghost predicate Agrees(id: U64, s: WindowSignature, r: WindowRecord) {
    && r.id == id && r.appId == s.appId && r.title == s.title
    && r.eligibility == if s.isFloating then Excluded(Floating) else Managed
  }

  lemma {:induction false} UpsertAllMirrors(e: Engine, ws: seq<NiriWindow>)
    ensures var e' := UpsertAll(e, ws);
            && e' == e.(windows := e'.windows)
            && e'.windows.Keys == e.windows.Keys + SignaturesOf(ws).Keys
            && (forall id | id in SignaturesOf(ws) :: Agrees(id, SignaturesOf(ws)[id], e'.windows[id]))
            && (forall id | id in e.windows && id !in SignaturesOf(ws) :: e'.windows[id] == e.windows[id])
  {
    if ws != [] { UpsertAllMirrors(e, ws[..|ws| - 1]); }
  }

  lemma {:induction false} DropAllRemoves(e: Engine, ids: seq<U64>)
    ensures var e' := DropAll(e, ids);
            && e'.config == e.config && e'.generation == e.generation
            && (forall id :: id in e'.windows <==> id in e.windows && id !in ids)
            && (forall id | id in e'.windows :: e'.windows[id] == e.windows[id])
            && e'.focused == if e.focused.Some? && e.focused.value in ids then None else e.focused
  {
    if ids != [] { DropAllRemoves(e, ids[..|ids| - 1]); }
  }

  lemma {:induction false} FocusedAreListed(ws: seq<NiriWindow>)
    ensures forall id | id in FocusedIds(ws) :: id in SignaturesOf(ws)
  {
    if ws != [] { FocusedAreListed(ws[..|ws| - 1]); }
  }

  const BLANK := Engine([], map[], None, 0)

  /** The engine windows a snapshot leaves behind, read off the snapshot alone. */
  function RecordsOf(ws: seq<NiriWindow>): map<U64, WindowRecord> { UpsertAll(BLANK, ws).windows }

  lemma SameRecord(id: U64, s: WindowSignature, a: WindowRecord, b: WindowRecord)
    requires Agrees(id, s, a) && Agrees(id, s, b)
    ensures a == b
  {
  }

  /** The engine as it is before the closing synchronization of a snapshot. */
  function Refilled(a: Adapter, ws: seq<NiriWindow>): Engine {
    UpsertAll(DropAll(a.engine, Ascending(a.known.Keys - SignaturesOf(ws).Keys)), ws)
  }

  lemma OnlyListedStay(a: Adapter, ws: seq<NiriWindow>)
    requires Mirrors(a)
    ensures var e := DropAll(a.engine, Ascending(a.known.Keys - SignaturesOf(ws).Keys));
            e.windows.Keys <= SignaturesOf(ws).Keys && e.config == a.engine.config && e.generation == a.engine.generation
  {
    DropAllRemoves(a.engine, Ascending(a.known.Keys - SignaturesOf(ws).Keys));
  }

  lemma RefilledAgrees(a: Adapter, ws: seq<NiriWindow>)
    requires Mirrors(a)
    ensures var e, next := Refilled(a, ws), SignaturesOf(ws);
            && e.config == a.engine.config && e.generation == a.engine.generation
            && e.windows.Keys == next.Keys && forall id | id in next :: Agrees(id, next[id], e.windows[id])
  {
    OnlyListedStay(a, ws);
    UpsertAllMirrors(DropAll(a.engine, Ascending(a.known.Keys - SignaturesOf(ws).Keys)), ws);
  }

  lemma RefilledIsSnapshot(a: Adapter, ws: seq<NiriWindow>)
    requires Mirrors(a)
    ensures var e := Refilled(a, ws);
            && e.windows == RecordsOf(ws) && e.config == a.engine.config && e.generation == a.engine.generation
            && Mirrors(Adapter(e, SignaturesOf(ws)))
  {
    var e, next := Refilled(a, ws), SignaturesOf(ws);
    RefilledAgrees(a, ws);
    UpsertAllMirrors(BLANK, ws);
    forall id | id in next ensures e.windows[id] == RecordsOf(ws)[id] {
      SameRecord(id, next[id], e.windows[id], RecordsOf(ws)[id]);
    }
  }

  /** A snapshot replaces the mirror: windows, signatures and focus are those of the snapshot, whatever
      they were before. */
  lemma ReplacedIsSnapshot(a: Adapter, ws: seq<NiriWindow>)
    requires Mirrors(a)
    ensures var (a', t) := Replaced(a, ws);
            && a'.known == SignaturesOf(ws) && a'.engine.windows == RecordsOf(ws)
            && a'.engine.focused == First(FocusedIds(ws)) && a'.engine.config == a.engine.config
            && a'.engine.generation == SaturatingSucc(a.engine.generation)
            && Mirrors(a') && Coherent(None, a'.engine, t)
            && t.decisions == DecideAll(a'.engine, Ascending(RecordsOf(ws).Keys))
            && forall id :: LastDecision(t.decisions, id).Some? <==> id in RecordsOf(ws)
    ensures !TwoFocused(ws) ==> forall w | w in ws && w.isFocused :: Replaced(a, ws).0.engine.focused == Some(w.id)
    ensures (forall w | w in ws :: !w.isFocused) ==> Replaced(a, ws).0.engine.focused == None
  {
    if !TwoFocused(ws) { FirstIsTheFocused(ws); }
    RefilledIsSnapshot(a, ws);
    FocusedAreListed(ws);
    SynchronizeCoherent(Refilled(a, ws), First(FocusedIds(ws)));
  }

  /** Without a transition only a close of the focused window changes the focus. */
  function FocusKept(focus: Option<U64>, event: NiriEvent): Option<U64> {
    if event.WindowClosed? && focus == Some(event.id) then None else focus
  }

  /** Events other than a snapshot keep the mirror, and what they decide is coherent with the focus that
      is left after a closed window has given it up. */
  lemma AppliedIsCoherent(a: Adapter, event: NiriEvent)
    requires Mirrors(a) && !event.WindowsChanged?
    ensures Applied(a, event).Ok?
    ensures var (a', t) := Applied(a, event).value;
            && Mirrors(a') && a'.engine.config == a.engine.config
            && a'.engine.windows.Keys == (match event
                                          case WindowOpenedOrChanged(w) => a.engine.windows.Keys + {w.id}
                                          case WindowClosed(id) => a.engine.windows.Keys - {id}
                                          case _ => a.engine.windows.Keys)
            && match t
               case Some(t) => Coherent(a.engine.focused, a'.engine, t)
                               && a'.engine.generation == SaturatingSucc(a.engine.generation)
               case None => a'.engine.generation == a.engine.generation
                            && a'.engine.focused == FocusKept(a.engine.focused, event)
  {
    match event
    case WindowOpenedOrChanged(w) =>
      UpsertMirrors(a, w);
      FocusAppliedCoherent(Upserted(a.engine, RecordOf(w)), Some(w.id));
    case WindowFocusChanged(focus) => FocusAppliedCoherent(a.engine, focus);
    case _ =>
  }

  lemma UpsertMirrors(a: Adapter, w: NiriWindow)
    requires Mirrors(a)
    ensures Mirrors(Adapter(Upserted(a.engine, RecordOf(w)), a.known[w.id := SignatureOf(w)]))
  {
  }

  lemma FocusAppliedCoherent(e: Engine, focus: Option<U64>)
    ensures var (e', t) := FocusApplied(e, focus);
            && Coherent(e.focused, e', t) && t.previous == e.focused && e'.generation == SaturatingSucc(e.generation)
            && e'.windows == e.windows && e'.config == e.config
  {
  }

  /** News about a window reopens its decision exactly if the window is reported focused and its title,
      application or floating state is new; repeated or unfocused news creates no work. */
  lemma FocusedNewsIsDecided(a: Adapter, w: NiriWindow)
    ensures var (a', t) := Applied(a, WindowOpenedOrChanged(w)).value;
            var news := w.id in a.known ==> a.known[w.id].title != w.title || a.known[w.id].appId != w.appId
                                            || a.known[w.id].isFloating != w.isFloating;
            && (t.Some? <==> w.isFocused && news)
            && (t.Some? ==> a'.engine.focused == Some(w.id)
                            && LastDecision(t.value.decisions, w.id) == Some(Decide(a'.engine, w.id, Focused)))
            && (t.None? ==> a'.engine.focused == a.engine.focused)
  {
  }

  // ---------------------------------------------------------------- the focus a snapshot names

  /** The positions of the focused windows. */
  function FocusedAt(ws: seq<NiriWindow>): (r: seq<nat>)
    ensures forall k | 0 <= k < |r| :: r[k] < |ws| && ws[r[k]].isFocused
    ensures forall j, k | 0 <= j < k < |r| :: r[j] < r[k]
  {
    if ws == [] then [] else FocusedAt(ws[..|ws| - 1]) + if ws[|ws| - 1].isFocused then [|ws| - 1] else []
  }

  /** The ids collected are those of the focused windows themselves, all of them, in list order. */
  lemma {:induction false} FocusedIdsExactly(ws: seq<NiriWindow>)
    ensures |FocusedIds(ws)| == |FocusedAt(ws)|
    ensures forall k | 0 <= k < |FocusedAt(ws)| :: FocusedIds(ws)[k] == ws[FocusedAt(ws)[k]].id
  {
    if ws != [] { FocusedIdsExactly(ws[..|ws| - 1]); }
  }

  lemma {:induction false} FocusedAtComplete(ws: seq<NiriWindow>, i: nat)
    requires i < |ws| && ws[i].isFocused
    ensures i in FocusedAt(ws)
  {
    if i < |ws| - 1 { FocusedAtComplete(ws[..|ws| - 1], i); }
  }

  ghost predicate TwoFocused(ws: seq<NiriWindow>) {
    exists i, j | 0 <= i < j < |ws| :: ws[i].isFocused && ws[j].isFocused
  }

  lemma FocusedTwice(ws: seq<NiriWindow>, i: nat, j: nat)
    requires i < j < |ws| && ws[i].isFocused && ws[j].isFocused
    ensures |FocusedAt(ws)| > 1
  {
    FocusedAtComplete(ws, i);
    FocusedAtComplete(ws, j);
    var p :| 0 <= p < |FocusedAt(ws)| && FocusedAt(ws)[p] == i;
    var q :| 0 <= q < |FocusedAt(ws)| && FocusedAt(ws)[q] == j;
    assert p != q;
  }

  lemma TwoFocusedAt(ws: seq<NiriWindow>)
    requires |FocusedAt(ws)| > 1
    ensures TwoFocused(ws)
  {
    var i, j := FocusedAt(ws)[0], FocusedAt(ws)[1];
    assert i < j < |ws| && ws[i].isFocused && ws[j].isFocused;
  }

  /** More than one id is collected if and only if two windows of the list are focused. */
  lemma TwoFocusedExactly(ws: seq<NiriWindow>)
    ensures |FocusedIds(ws)| > 1 <==> TwoFocused(ws)
  {
    FocusedIdsExactly(ws);
    if |FocusedAt(ws)| > 1 { TwoFocusedAt(ws); }
    if TwoFocused(ws) {
      var i, j :| 0 <= i < j < |ws| && ws[i].isFocused && ws[j].isFocused;
      FocusedTwice(ws, i, j);
    }
  }

  lemma OnlyFocusedAt(ws: seq<NiriWindow>, i: nat)
    requires i < |ws| && ws[i].isFocused && !TwoFocused(ws)
    ensures FocusedAt(ws) == [i]
  {
    FocusedAtComplete(ws, i);
    if |FocusedAt(ws)| > 1 { TwoFocusedAt(ws); }
  }

  /** In a snapshot that is not rejected the focused window, if there is one, is the one collected. */
  lemma FirstIsTheFocused(ws: seq<NiriWindow>)
    requires !TwoFocused(ws)
    ensures forall w | w in ws && w.isFocused :: First(FocusedIds(ws)) == Some(w.id)
    ensures (forall w | w in ws :: !w.isFocused) ==> First(FocusedIds(ws)) == None
  {
    FocusedIdsExactly(ws);
    forall w | w in ws && w.isFocused ensures First(FocusedIds(ws)) == Some(w.id) {
      var i :| 0 <= i < |ws| && ws[i] == w;
      OnlyFocusedAt(ws, i);
    }
    if FocusedAt(ws) != [] { assert ws[FocusedAt(ws)[0]] in ws; }
  }

  /** A snapshot is rejected if and only if two of its windows are focused, and the error names all of them. */
  lemma TwoFocusedRejected(a: Adapter, ws: seq<NiriWindow>)
    ensures Applied(a, WindowsChanged(ws)).Err? <==> TwoFocused(ws)
    ensures TwoFocused(ws) ==> Applied(a, WindowsChanged(ws)) == Err(MultipleFocusedWindows(FocusedIds(ws)))
    ensures forall id :: id in FocusedIds(ws) <==> exists w :: w in ws && w.isFocused && w.id == id
  {
    TwoFocusedExactly(ws);
    FocusedIdsExactly(ws);
    forall w | w in ws && w.isFocused ensures w.id in FocusedIds(ws) {
      var i :| 0 <= i < |ws| && ws[i] == w;
      FocusedAtComplete(ws, i);
      var k :| 0 <= k < |FocusedAt(ws)| && FocusedAt(ws)[k] == i;
      assert FocusedIds(ws)[k] == w.id;
    }
    forall id | id in FocusedIds(ws) ensures exists w :: w in ws && w.isFocused && w.id == id {
      var k :| 0 <= k < |FocusedIds(ws)| && FocusedIds(ws)[k] == id;
      assert ws[FocusedAt(ws)[k]] in ws;
    }
  }

  // ---------------------------------------------------------------- what the events themselves report

  /** Record and signature of the window say what the news says. */
  ghost predicate Reflects(a: Adapter, w: NiriWindow) {
    && w.id in a.engine.windows && w.id in a.known
    && a.engine.windows[w.id].id == w.id
    && a.engine.windows[w.id].appId == a.known[w.id].appId == w.appId
    && a.engine.windows[w.id].title == a.known[w.id].title == w.title
    && (a.engine.windows[w.id].eligibility == if w.isFloating then Excluded(Floating) else Managed)
    && a.known[w.id].isFloating == w.isFloating
  }

  ghost predicate Knows(a: Adapter, id: U64, news: Option<NiriWindow>) {
    match news
    case None => id !in a.engine.windows && id !in a.known
    case Some(w) => w.id == id && Reflects(a, w)
  }

  function LastEntry(ws: seq<NiriWindow>, id: U64): Option<NiriWindow> {
    if ws == [] then None
    else if ws[|ws| - 1].id == id then Some(ws[|ws| - 1])
    else LastEntry(ws[..|ws| - 1], id)
  }

  /** The latest news about a window after one more event. */
  ghost function NewsAfter(news: Option<NiriWindow>, event: NiriEvent, id: U64): Option<NiriWindow> {
    match event
    case WindowsChanged(ws) => if TwoFocused(ws) then news else LastEntry(ws, id)
    case WindowOpenedOrChanged(w) => if w.id == id then Some(w) else news
    case WindowClosed(closed) => if closed == id then None else news
    case _ => news
  }

  ghost predicate TellsNothing(news: Option<NiriWindow>, w: NiriWindow) {
    news.Some? && news.value.title == w.title && news.value.appId == w.appId && news.value.isFloating == w.isFloating
  }

  ghost function SnapshotFocus(ws: seq<NiriWindow>): Option<U64> {
    if w :| w in ws && w.isFocused then Some(w.id) else None
  }

  /** The focus after one more event, given the latest news about the window it concerns. */
  ghost function FocusAfter(focus: Option<U64>, news: Option<NiriWindow>, event: NiriEvent): Option<U64> {
    match event
    case WindowFocusChanged(reported) => reported
    case WindowsChanged(ws) => if TwoFocused(ws) then focus else SnapshotFocus(ws)
    case WindowOpenedOrChanged(w) => if w.isFocused && !TellsNothing(news, w) then Some(w.id) else focus
    case WindowClosed(id) => if focus == Some(id) then None else focus
    case _ => focus
  }

  ghost function LastNews(events: seq<NiriEvent>, id: U64): Option<NiriWindow> {
    if events == [] then None else NewsAfter(LastNews(events[..|events| - 1], id), events[|events| - 1], id)
  }

  /** The window an event brings news about. */
  function Concerned(event: NiriEvent): U64 {
    if event.WindowOpenedOrChanged? then event.window.id else 0
  }

  ghost function ReportedFocus(events: seq<NiriEvent>): Option<U64> {
    if events == [] then None
    else
      var front, event := events[..|events| - 1], events[|events| - 1];
      FocusAfter(ReportedFocus(front), LastNews(front, Concerned(event)), event)
  }

  /** A rejected event leaves the adapter as it was. */
  function After(a: Adapter, event: NiriEvent): Adapter {
    match Applied(a, event) case Err(_) => a case Ok((a', _)) => a'
  }

  function AfterAll(config: Config, events: seq<NiriEvent>): Adapter {
    if events == [] then Fresh(config) else After(AfterAll(config, events[..|events| - 1]), events[|events| - 1])
  }

  lemma {:induction false} SnapshotEntries(ws: seq<NiriWindow>, id: U64)
    ensures match LastEntry(ws, id)
            case None => id !in SignaturesOf(ws)
            case Some(w) => w.id == id && id in SignaturesOf(ws) && SignaturesOf(ws)[id].appId == w.appId
                            && SignaturesOf(ws)[id].title == w.title && SignaturesOf(ws)[id].isFloating == w.isFloating
  {
    if ws != [] { SnapshotEntries(ws[..|ws| - 1], id); }
  }

  lemma {:induction false} ListedExactly(ws: seq<NiriWindow>, id: U64)
    ensures id in SignaturesOf(ws) <==> exists w :: w in ws && w.id == id
  {
    if ws != [] {
      var front, last := ws[..|ws| - 1], ws[|ws| - 1];
      ListedExactly(front, id);
      assert forall w :: w in ws <==> w in front || w == last;
    }
  }

  lemma SnapshotIsReported(a: Adapter, ws: seq<NiriWindow>, id: U64)
    requires Mirrors(a) && !TwoFocused(ws)
    ensures Mirrors(After(a, WindowsChanged(ws))) && Knows(After(a, WindowsChanged(ws)), id, LastEntry(ws, id))
    ensures After(a, WindowsChanged(ws)).engine.focused == SnapshotFocus(ws)
  {
    TwoFocusedRejected(a, ws);
    ReplacedIsSnapshot(a, ws);
    SnapshotEntries(ws, id);
    FirstIsTheFocused(ws);
  }

  /** One event, over its own fields: what is known of a window is the latest news about it, and the focus is
      the one reported, be it for another window, the same one, or none. */
  lemma EventIsReported(a: Adapter, event: NiriEvent, id: U64, news: Option<NiriWindow>, concerned: Option<NiriWindow>)
    requires Mirrors(a) && Knows(a, id, news) && Knows(a, Concerned(event), concerned)
    ensures var a' := After(a, event);
            && Mirrors(a') && Knows(a', id, NewsAfter(news, event, id))
            && a'.engine.focused == FocusAfter(a.engine.focused, concerned, event)
            && a'.engine.config == a.engine.config
  {
    if event.WindowsChanged? {
      TwoFocusedRejected(a, event.windows);
      if !TwoFocused(event.windows) {
        SnapshotIsReported(a, event.windows, id);
        ReplacedIsSnapshot(a, event.windows);
      }
    } else {
      AppliedIsCoherent(a, event);
      OtherWindowsStay(a, event, id);
    }
  }

  /** News and closes touch only the window they name; every other event touches none. */
  lemma OtherWindowsStay(a: Adapter, event: NiriEvent, id: U64)
    requires !event.WindowsChanged?
    ensures var (a', t) := Applied(a, event).value;
            && (match event
                case WindowOpenedOrChanged(w) => Reflects(a', w) && (id != w.id ==> SameAt(a, a', id))
                case WindowClosed(closed) => t == None && (id != closed ==> SameAt(a, a', id))
                case WindowFocusChanged(_) => t.Some? && SameAt(a, a', id)
                case _ => t == None && a' == a)
  {
  }

  ghost predicate SameAt(a: Adapter, b: Adapter, id: U64) {
    && (id in a.engine.windows <==> id in b.engine.windows) && (id in a.known <==> id in b.known)
    && (id in a.engine.windows ==> b.engine.windows[id] == a.engine.windows[id])
    && (id in a.known ==> b.known[id] == a.known[id])
  }

  /** After any sequence of events, accepted or not, the adapter is what the events report: it knows exactly
      the windows they leave open, each by the latest news about it, and the focus is the one they name last. */
  lemma {:induction false} MirrorIsTheReport(config: Config, events: seq<NiriEvent>, id: U64)
    ensures var a := AfterAll(config, events);
            && Mirrors(a) && a.engine.config == config
            && Knows(a, id, LastNews(events, id)) && a.engine.focused == ReportedFocus(events)
  {
    if events != [] {
      var front, event := events[..|events| - 1], events[|events| - 1];
      MirrorIsTheReport(config, front, id);
      MirrorIsTheReport(config, front, Concerned(event));
      EventIsReported(AfterAll(config, front), event, id, LastNews(front, id), LastNews(front, Concerned(event)));
    }
  }

  /** A focus report, whatever it says, is answered: the focus moves there and nothing else does, the window
      that has it is decided as focused, the one that lost it as unfocused, and nobody else is. */
  lemma FocusReportIsDecided(a: Adapter, focus: Option<U64>)
    ensures Applied(a, WindowFocusChanged(focus)).Ok?
    ensures var (a', t) := Applied(a, WindowFocusChanged(focus)).value;
            var was := a.engine.focused;
            && a'.engine == a.engine.(focused := focus, generation := SaturatingSucc(a.engine.generation)) && a'.known == a.known
            && t.Some? && t.value.previous == was && t.value.current == focus && t.value.generation == a'.engine.generation
            && forall id: U64 :: LastDecision(t.value.decisions, id)
                 == if focus == Some(id) then Some(Decide(a'.engine, id, Focused))
                    else if was == Some(id) then Some(Decide(a'.engine, id, Unfocused))
                    else None
  {
  }
}
