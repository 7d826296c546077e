/** The ordered registry of minimized windows mirrored from the compositor. */
module Minimization {
  import opened Base
  import Protocol

  datatype MinimizedWindow = MinimizedWindow(id: U64, appId: Option<string>, title: Option<string>)

  datatype MinimizationEvent =
    | Snapshot(windows: seq<MinimizedWindow>)
    | Minimized(window: MinimizedWindow)
    | MetadataChanged(window: MinimizedWindow)
    | Restored(id: U64)
    | Closed(id: U64)

  datatype RemovalReason = ByRestore | ByClose

  datatype RegistryChange =
    | SnapshotReplaced(previousCount: nat, currentCount: nat)
    | Added(id: U64, index: nat)
    | Updated(id: U64, index: nat)
    | Removed(id: U64, index: nat, reason: RemovalReason)
    | Unchanged
    | UnknownWindow(id: U64)

  /** A snapshot that repeats this id. */
  datatype MinimizationError = DuplicateWindow(id: U64)

  datatype Registry = Registry(windows: seq<MinimizedWindow>, revision: U64)

  const EMPTY := Registry([], 0)

  ghost predicate Distinct(ws: seq<MinimizedWindow>) {
    forall i, j | 0 <= i < j < |ws| :: ws[i].id != ws[j].id
  }

  predicate Mentions(ws: seq<MinimizedWindow>, id: U64) {
    exists i | 0 <= i < |ws| :: ws[i].id == id
  }

  // ---------------------------------------------------------------- specification

  /** The id at which a left-to-right scan first meets a window it has seen before. */
  ghost predicate IsFirstDuplicate(ws: seq<MinimizedWindow>, id: U64) {
    exists j | 0 <= j < |ws| :: ws[j].id == id && Mentions(ws[..j], id) && Distinct(ws[..j])
  }

  /** What one event does to a registry: the new list and the reported change, or the rejection of a
      snapshot that repeats an id. */
  ghost predicate Applies(r: Registry, e: MinimizationEvent, ws: seq<MinimizedWindow>, c: RegistryChange) {
    match e
    case Snapshot(next) =>
      && ws == next
      && c == if r.windows == next then Unchanged else SnapshotReplaced(|r.windows|, |next|)
    case Minimized(w) =>
      if Mentions(r.windows, w.id) then Overwrites(r.windows, w, ws, c)
      else ws == r.windows + [w] && c == Added(w.id, |r.windows|)
    case MetadataChanged(w) =>
      if Mentions(r.windows, w.id) then Overwrites(r.windows, w, ws, c)
      else ws == r.windows && c == UnknownWindow(w.id)
    case Restored(id) => Removes(r.windows, id, ByRestore, ws, c)
    case Closed(id) => Removes(r.windows, id, ByClose, ws, c)
  }

  ghost predicate Overwrites(was: seq<MinimizedWindow>, w: MinimizedWindow, ws: seq<MinimizedWindow>, c: RegistryChange) {
    if w in was then ws == was && c == Unchanged
    else c.Updated? && c.id == w.id && c.index < |was| && was[c.index].id == w.id && ws == was[c.index := w]
  }

  ghost predicate Removes(was: seq<MinimizedWindow>, id: U64, reason: RemovalReason, ws: seq<MinimizedWindow>, c: RegistryChange) {
    if Mentions(was, id) then
      c.Removed? && c.id == id && c.reason == reason && c.index < |was| && was[c.index].id == id
      && ws == Protocol.RemoveAt(was, c.index)
    else ws == was && c == UnknownWindow(id)
  }

  /** The whole step: an accepted event also advances the revision when the list changed. */
  ghost predicate Steps(r: Registry, e: MinimizationEvent, r': Registry, result: Result<RegistryChange, MinimizationError>) {
    match result
    case Err(DuplicateWindow(id)) => e.Snapshot? && IsFirstDuplicate(e.windows, id) && r' == r
    case Ok(c) =>
      && (e.Snapshot? ==> Distinct(e.windows))
      && Applies(r, e, r'.windows, c)
      && r'.revision == if r'.windows == r.windows then r.revision else SaturatingSucc(r.revision)
  }

  // ---------------------------------------------------------------- the imperative registry

  class MinimizedRegistry {
    var windows: seq<MinimizedWindow>
    var revision: U64

    ghost function State(): Registry reads this { Registry(windows, revision) }

    ghost predicate Valid() reads this { Distinct(windows) }

    constructor ()
      ensures State() == EMPTY && Valid() && windows == [] && revision == 0
    {
      windows, revision := [], 0;
    }

    method Apply(event: MinimizationEvent) returns (result: Result<RegistryChange, MinimizationError>)
      requires Valid()
      modifies this
      ensures Valid()
      ensures Steps(old(State()), event, State(), result)
    {
      match event {
        case Snapshot(next) =>
          result := ReplaceSnapshot(next);
        case Minimized(window) =>
          var change := MarkMinimized(window);
          result := Ok(change);
        case MetadataChanged(window) =>
          var change := ChangeMetadata(window);
          result := Ok(change);
        case Restored(id) =>
          var change := Remove(id, ByRestore);
          result := Ok(change);
        case Closed(id) =>
          var change := Remove(id, ByClose);
          result := Ok(change);
      }
    }

    method ReplaceSnapshot(next: seq<MinimizedWindow>) returns (result: Result<RegistryChange, MinimizationError>)
      requires Valid()
      modifies this
      ensures Valid() && (result.Ok? <==> Distinct(next))
      ensures Steps(old(State()), Snapshot(next), State(), result)
    {
      var ids: set<U64> := {};
      for i := 0 to |next|
        invariant Distinct(next[..i]) && forall id :: id in ids <==> Mentions(next[..i], id)
      {
        assert next[..i + 1] == next[..i] + [next[i]];
        if next[i].id in ids {
          assert Mentions(next[..i], next[i].id);
          var j :| 0 <= j < i && next[j].id == next[i].id;
          return Err(DuplicateWindow(next[i].id));
        }
        assert forall j | 0 <= j < i :: next[..i][j] == next[j];
        assert forall j | 0 <= j < i :: next[j].id != next[i].id;
        forall id ensures Mentions(next[..i + 1], id) <==> Mentions(next[..i], id) || id == next[i].id {
          MentionsSnoc(next[..i], next[i], id);
        }
        ids := ids + {next[i].id};
      }
      assert next[..|next|] == next;
      if windows == next {
        return Ok(Unchanged);
      }
      var previousCount, currentCount := |windows|, |next|;
      windows := next;
      AdvanceRevision();
      result := Ok(SnapshotReplaced(previousCount, currentCount));
    }

    method MarkMinimized(window: MinimizedWindow) returns (change: RegistryChange)
      requires Valid()
      modifies this
      ensures Valid()
      ensures Steps(old(State()), Minimized(window), State(), Ok(change))
    {
      match Position(windows, window.id) {
        case Some(index) =>
          SameId(windows, window, index);
          if windows[index] == window {
            return Unchanged;
          }
          windows := windows[index := window];
          AdvanceRevision();
          change := Updated(window.id, index);
        case None =>
          change := Added(window.id, |windows|);
          windows := windows + [window];
          AdvanceRevision();
      }
    }

    method ChangeMetadata(window: MinimizedWindow) returns (change: RegistryChange)
      requires Valid()
      modifies this
      ensures Valid()
      ensures Steps(old(State()), MetadataChanged(window), State(), Ok(change))
    {
      match Position(windows, window.id) {
        case None =>
          return UnknownWindow(window.id);
        case Some(index) =>
          SameId(windows, window, index);
          if windows[index] == window {
            return Unchanged;
          }
          windows := windows[index := window];
          AdvanceRevision();
          change := Updated(window.id, index);
      }
    }

    method Remove(id: U64, reason: RemovalReason) returns (change: RegistryChange)
      requires Valid()
      modifies this
      ensures Valid()
      ensures Steps(old(State()), if reason.ByRestore? then Restored(id) else Closed(id), State(), Ok(change))
    {
      match Position(windows, id) {
        case None =>
          return UnknownWindow(id);
        case Some(index) =>
          windows := Protocol.RemoveAt(windows, index);
          AdvanceRevision();
          change := Removed(id, index, reason);
      }
    }

    method AdvanceRevision()
      modifies this`revision
      ensures revision == SaturatingSucc(old(revision))
    {
      revision := SaturatingSucc(revision);
    }
  }

  function Position(ws: seq<MinimizedWindow>, id: U64): (r: Option<nat>)
    ensures r.Some? ==> r.value < |ws| && ws[r.value].id == id
    ensures r.None? <==> !Mentions(ws, id)
  {
    if ws == [] then None
    else if ws[0].id == id then Some(0)
    else
      assert ws == [ws[0]] + ws[1..];
      assert Mentions(ws, id) ==> Mentions(ws[1..], id) by {
        if i :| 0 <= i < |ws| && ws[i].id == id { assert ws[1..][i - 1].id == id; }
      }
      match Position(ws[1..], id)
      case None => None
      case Some(p) => Some(p + 1)
  }

  lemma MentionsSnoc(ws: seq<MinimizedWindow>, w: MinimizedWindow, id: U64)
    ensures Mentions(ws + [w], id) <==> Mentions(ws, id) || id == w.id
  {
    if i :| 0 <= i < |ws| && ws[i].id == id { assert (ws + [w])[i].id == id; }
    assert (ws + [w])[|ws|] == w;
  }

  lemma SameId(ws: seq<MinimizedWindow>, w: MinimizedWindow, index: nat)
    requires Distinct(ws) && index < |ws| && ws[index].id == w.id
    ensures w in ws <==> ws[index] == w
  {
  }

  // ---------------------------------------------------------------- what every step and run keeps

  /** A rejected snapshot changes nothing, and the id named is really repeated, at the earliest place of all. */
  lemma RejectedSnapshot(r: Registry, e: MinimizationEvent, r': Registry, error: MinimizationError)
    requires Steps(r, e, r', Err(error))
    ensures r' == r && e.Snapshot? && !Distinct(e.windows)
    ensures exists i, j | 0 <= i < j < |e.windows| ::
              e.windows[i].id == error.id && e.windows[j].id == error.id
              && forall p, q | 0 <= p < q < j :: e.windows[p].id != e.windows[q].id
  {
    var ws, id := e.windows, error.id;
    var j :| 0 <= j < |ws| && ws[j].id == id && Mentions(ws[..j], id) && Distinct(ws[..j]);
    var i :| 0 <= i < j && ws[..j][i].id == id;
    assert ws[i].id == id;
    forall p, q | 0 <= p < q < j ensures ws[p].id != ws[q].id { assert ws[..j][p].id != ws[..j][q].id; }
  }

  /** Apart from this id the two lists hold the same windows. */
  ghost predicate OthersStay(was: seq<MinimizedWindow>, now: seq<MinimizedWindow>, id: U64) {
    forall x: MinimizedWindow | x.id != id :: x in now <==> x in was
  }

  /** What each event is for, and what is reported of it: the window minimized again or renamed has its new record,
      one that is restored or closed is gone, for that reason, a window never heard of is not made up, and
      no other window is touched. */
  lemma EventTakesEffect(r: Registry, e: MinimizationEvent, r': Registry, c: RegistryChange)
    requires Distinct(r.windows) && Steps(r, e, r', Ok(c))
    ensures var was, now := r.windows, r'.windows;
            match e
            case Snapshot(ws) => now == ws && c == if was == ws then Unchanged else SnapshotReplaced(|was|, |ws|)
            case Minimized(w) => w in now && OthersStay(was, now, w.id) && |now| == |was| + (if Mentions(was, w.id) then 0 else 1)
                                 && RecordReported(was, w, now, c, Added(w.id, |was|))
            case MetadataChanged(w) => OthersStay(was, now, w.id) && |now| == |was| && (Mentions(was, w.id) <==> w in now)
                                       && RecordReported(was, w, now, c, UnknownWindow(w.id))
            case Restored(id) => RemovalReported(was, id, now, c, ByRestore)
            case Closed(id) => RemovalReported(was, id, now, c, ByClose)
  {
    match e
    case Snapshot(_) =>
    case Minimized(w) => if Mentions(r.windows, w.id) { OverwriteTakesEffect(r.windows, w, r'.windows, c); }
    case MetadataChanged(w) => if Mentions(r.windows, w.id) { OverwriteTakesEffect(r.windows, w, r'.windows, c); }
    case Restored(id) => RemovalTakesEffect(r.windows, id, r'.windows, c, ByRestore);
    case Closed(id) => RemovalTakesEffect(r.windows, id, r'.windows, c, ByClose);
  }

  /** Nothing new is reported as such, a new record with its place, a window never heard of as given. */
  ghost predicate RecordReported(was: seq<MinimizedWindow>, w: MinimizedWindow, now: seq<MinimizedWindow>,
                                 c: RegistryChange, unheard: RegistryChange) {
    if w in was then c == Unchanged
    else if Mentions(was, w.id) then exists i | 0 <= i < |was| && i < |now| :: now[i] == w && was[i].id == w.id && c == Updated(w.id, i)
    else c == unheard
  }

  ghost predicate RemovalReported(was: seq<MinimizedWindow>, id: U64, now: seq<MinimizedWindow>, c: RegistryChange,
                                  reason: RemovalReason) {
    && !Mentions(now, id) && OthersStay(was, now, id)
    && if Mentions(was, id) then |now| == |was| - 1 && exists i | 0 <= i < |was| :: was[i].id == id && c == Removed(id, i, reason)
       else now == was && c == UnknownWindow(id)
  }

  lemma OverwriteTakesEffect(was: seq<MinimizedWindow>, w: MinimizedWindow, now: seq<MinimizedWindow>, c: RegistryChange)
    requires Distinct(was) && Mentions(was, w.id) && Overwrites(was, w, now, c)
    ensures w in now && |now| == |was| && OthersStay(was, now, w.id) && (w !in was ==> c.Updated? && c.id == w.id)
    ensures w !in was ==> c.index < |now| && now[c.index] == w && was[c.index].id == w.id
  {
    if w !in was {
      assert now[c.index] == w;
      assert forall i | 0 <= i < |was| && i != c.index :: now[i] == was[i];
      forall x: MinimizedWindow | x.id != w.id ensures x in now <==> x in was {
        if x in was { var i :| 0 <= i < |was| && was[i] == x; assert now[i] == x; }
        if x in now { var i :| 0 <= i < |now| && now[i] == x; assert was[i] == x; }
      }
    }
  }

  lemma RemovalTakesEffect(was: seq<MinimizedWindow>, id: U64, now: seq<MinimizedWindow>, c: RegistryChange, reason: RemovalReason)
    requires Distinct(was) && Removes(was, id, reason, now, c)
    ensures RemovalReported(was, id, now, c, reason)
  {
    if Mentions(was, id) {
      var at := c.index;
      assert forall i | 0 <= i < |now| :: now[i] == was[if i < at then i else i + 1];
      forall x: MinimizedWindow | x.id != id ensures x in now <==> x in was {
        if x in was { var i :| 0 <= i < |was| && was[i] == x; assert now[if i < at then i else i - 1] == x; }
      }
    }
  }

  /** Ids stay distinct, and the revision advances by one exactly when the list changed (below saturation). */
  lemma StepKeepsDistinct(r: Registry, e: MinimizationEvent, r': Registry, result: Result<RegistryChange, MinimizationError>)
    requires Distinct(r.windows) && Steps(r, e, r', result)
    ensures Distinct(r'.windows)
    ensures r.revision < U64_MAX ==> (r'.revision == r.revision + 1 <==> r'.windows != r.windows)
    ensures r'.revision == r.revision || r'.revision == r.revision + 1
  {
  }

  /** An event's report tells a listener whether the list changed. */
  lemma ReportTellsChange(r: Registry, e: MinimizationEvent, r': Registry, c: RegistryChange)
    requires Distinct(r.windows) && Steps(r, e, r', Ok(c))
    ensures r'.windows == r.windows <==> c.Unchanged? || c.UnknownWindow?
  {
  }

  /** A listener that holds the old list and hears the event with its reported change knows the new list. */
  function Follow(was: seq<MinimizedWindow>, e: MinimizationEvent, c: RegistryChange): seq<MinimizedWindow> {
    match c
    case SnapshotReplaced(_, _) => if e.Snapshot? then e.windows else was
    case Added(_, _) => if e.Minimized? then was + [e.window] else was
    case Updated(_, index) =>
      if (e.Minimized? || e.MetadataChanged?) && index < |was| then was[index := e.window] else was
    case Removed(_, index, _) => if index < |was| then Protocol.RemoveAt(was, index) else was
    case Unchanged => was
    case UnknownWindow(_) => was
  }

  lemma ReportDeterminesList(r: Registry, e: MinimizationEvent, r': Registry, c: RegistryChange)
    requires Steps(r, e, r', Ok(c))
    ensures r'.windows == Follow(r.windows, e, c)
  {
  }

  /** The windows present before and after stand in the same relative order. */
  ghost predicate KeepsOrder(was: seq<MinimizedWindow>, next: seq<MinimizedWindow>) {
    forall i, j, p, q |
      0 <= i < j < |next| && 0 <= p < |was| && 0 <= q < |was| && next[i].id == was[p].id && next[j].id == was[q].id :: p < q
  }

  /** Every event but a full snapshot leaves the survivors in their order. */
  lemma IncrementalEventsKeepOrder(r: Registry, e: MinimizationEvent, r': Registry, c: RegistryChange)
    requires Distinct(r.windows) && Steps(r, e, r', Ok(c)) && !e.Snapshot?
    ensures KeepsOrder(r.windows, r'.windows)
  {
    var was, next := r.windows, r'.windows;
    forall i, j, p, q |
      0 <= i < j < |next| && 0 <= p < |was| && 0 <= q < |was| && next[i].id == was[p].id && next[j].id == was[q].id
      ensures p < q
    {
      match c
      case Added(_, _) => AppendKeepsOrder(was, next[|was|]);
      case Updated(_, index) => assert next[i].id == was[i].id && next[j].id == was[j].id;
      case Removed(_, index, _) => RemoveKeepsOrder(was, index);
      case _ =>
    }
  }

  lemma AppendKeepsOrder(ws: seq<MinimizedWindow>, w: MinimizedWindow)
    requires Distinct(ws) && !Mentions(ws, w.id)
    ensures KeepsOrder(ws, ws + [w])
  {
  }

  lemma RemoveKeepsOrder(ws: seq<MinimizedWindow>, index: nat)
    requires Distinct(ws) && index < |ws|
    ensures KeepsOrder(ws, Protocol.RemoveAt(ws, index))
  {
  }

  /** A finite run of events, with the registry and the report after each. */
  datatype Stage = Stage(event: MinimizationEvent, after: Registry, result: Result<RegistryChange, MinimizationError>)

  ghost predicate IsRun(start: Registry, stages: seq<Stage>)
    decreases |stages|
  {
    stages == [] || (Steps(start, stages[0].event, stages[0].after, stages[0].result) && IsRun(stages[0].after, stages[1..]))
  }

  function FollowRun(ws: seq<MinimizedWindow>, stages: seq<Stage>): seq<MinimizedWindow>
    decreases |stages|
  {
    if stages == [] then ws
    else FollowRun(if stages[0].result.Ok? then Follow(ws, stages[0].event, stages[0].result.value) else ws, stages[1..])
  }

  function Last(start: Registry, stages: seq<Stage>): Registry {
    if stages == [] then start else stages[|stages| - 1].after
  }

  /** Over any run: ids stay distinct, the revision never falls, and a listener that started with the same
      list and heard every report ends with the registry's list. */
  lemma {:induction false} RunFollows(start: Registry, stages: seq<Stage>)
    requires Distinct(start.windows) && IsRun(start, stages)
    ensures Distinct(Last(start, stages).windows) && Last(start, stages).revision >= start.revision
    ensures FollowRun(start.windows, stages) == Last(start, stages).windows
    decreases |stages|
  {
    if stages != [] {
      var s := stages[0];
      StepKeepsDistinct(start, s.event, s.after, s.result);
      match s.result {
        case Ok(c) => ReportDeterminesList(start, s.event, s.after, c);
        case Err(_) =>
      }
      RunFollows(s.after, stages[1..]);
      assert Last(s.after, stages[1..]) == Last(start, stages);
    }
  }

  // ---------------------------------------------------------------- the public image

  function ToWindow(w: MinimizedWindow): Protocol.Window {
    Protocol.Window(w.id, w.appId, w.title, None)
  }

  /** The list handed to the broker. */
  function Image(ws: seq<MinimizedWindow>): (r: seq<Protocol.Window>)
    ensures |r| == |ws| && forall i | 0 <= i < |ws| :: r[i] == ToWindow(ws[i])
  {
    seq(|ws|, i requires 0 <= i < |ws| => ToWindow(ws[i]))
  }

  /** The published list shows the registry's windows, one by one and field by field; niri names no icon. */
  ghost predicate Shows(public: seq<Protocol.Window>, ws: seq<MinimizedWindow>) {
    && |public| == |ws|
    && forall i | 0 <= i < |ws| ::
         && public[i].id == ws[i].id && public[i].appId == ws[i].appId && public[i].title == ws[i].title
         && public[i].iconName == None
  }

  /** The image shows the registry; a registry of distinct ids publishes a list of distinct ids, and no two
      registries the same one. */
  lemma ImageFaithful(a: seq<MinimizedWindow>, b: seq<MinimizedWindow>)
    ensures Shows(Image(a), a)
    ensures Distinct(a) <==> Protocol.DistinctIds(Image(a))
    ensures Image(a) == Image(b) <==> a == b
  {
  }
}
