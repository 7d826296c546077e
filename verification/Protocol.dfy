/** The message alphabet of the public protocol, and what one list change means to a client. */
module Protocol {
  import opened Base

  datatype Window = Window(id: U64, appId: Option<string>, title: Option<string>, iconName: Option<string>)

  /** One sequential change within an atomic revision. */
  datatype WindowChange =
    | Added(index: nat, window: Window)
    | Updated(index: nat, window: Window)
    | Moved(windowId: U64, fromIndex: nat, toIndex: nat)
    | Removed(index: nat, windowId: U64)

  datatype Operation = OpMinimize | OpRestore | OpClose

  datatype ActionStatus =
    | Applied | AlreadyInRequestedState | CloseRequested | WindowNotFound | Blocked | LegacyHandled

  datatype ActionResult =
    ActionResult(operation: Operation, requestedId: Option<U64>, resolvedId: Option<U64>, status: ActionStatus)

  /** The two error replies that the broker itself produces. */
  datatype ProtocolError = UnavailableError(message: string) | ActionFailed(message: string)

  datatype Message =
    | Snapshot(revision: U64, windows: seq<Window>)
    | Changes(revision: U64, changes: seq<WindowChange>)
    | ActionReply(result: ActionResult)
    | Unavailable(revision: U64, reason: string)
    | Error(error: ProtocolError)

  /** Every message travels in an envelope naming the version it was encoded for. */
  datatype ServerMessage = ServerMessage(version: nat, message: Message)

  datatype Request =
    | List
    | Subscribe
    | Minimize(target: Option<U64>)
    | Restore(windowId: U64)
    | Close(windowId: U64)

  function InsertAt<T>(s: seq<T>, i: nat, x: T): (r: seq<T>)
    requires i <= |s|
  {
    s[..i] + [x] + s[i..]
  }

  function RemoveAt<T>(s: seq<T>, i: nat): (r: seq<T>)
    requires i < |s|
  {
    s[..i] + s[i + 1..]
  }

  /** No two windows of the list share an id. */
  ghost predicate DistinctIds(ws: seq<Window>) {
    forall i, j | 0 <= i < j < |ws| :: ws[i].id != ws[j].id
  }

  predicate HasId(ws: seq<Window>, id: U64) {
    exists i | 0 <= i < |ws| :: ws[i].id == id
  }

  /** A client that checks each change before applying it: the index must be in range, a removed, moved
      or updated window must sit at the named index, and an added id must be new. */
  function ApplyChange(ws: seq<Window>, c: WindowChange): Option<seq<Window>> {
    match c
    case Added(i, w) =>
      if i <= |ws| && !HasId(ws, w.id) then Some(InsertAt(ws, i, w)) else None
    case Updated(i, w) =>
      if i < |ws| && ws[i].id == w.id then Some(ws[i := w]) else None
    case Moved(id, from, to) =>
      if from < |ws| && to < |ws| && ws[from].id == id then Some(InsertAt(RemoveAt(ws, from), to, ws[from])) else None
    case Removed(i, id) =>
      if i < |ws| && ws[i].id == id then Some(RemoveAt(ws, i)) else None
  }

  /** Applies a script in order; `None` as soon as one change does not fit the list it meets. */
  function ApplyAll(ws: seq<Window>, cs: seq<WindowChange>): Option<seq<Window>>
    decreases |cs|
  {
    if cs == [] then Some(ws)
    else match ApplyChange(ws, cs[0])
      case None => None
      case Some(v) => ApplyAll(v, cs[1..])
  }

  /** What a change that is accepted has done, told by the ids: the list still has distinct ids, an added window
      is new and stands where the change says, a removed one is gone, an updated one has its new record, a moved
      one stands at its new place, and every other id is as present as before. */
  lemma AcceptedChange(ws: seq<Window>, c: WindowChange, id: U64)
    requires DistinctIds(ws) && ApplyChange(ws, c).Some?
    ensures var now := ApplyChange(ws, c).value;
            && DistinctIds(now)
            && match c
               case Added(i, w) => i < |now| == |ws| + 1 && now[i] == w && !HasId(ws, w.id) && (id != w.id ==> (HasId(now, id) <==> HasId(ws, id)))
               case Updated(i, w) => i < |now| == |ws| && now[i] == w && (HasId(now, id) <==> HasId(ws, id))
               case Moved(moved, from, to) => to < |now| == |ws| && now[to].id == moved && (HasId(now, id) <==> HasId(ws, id))
               case Removed(_, removed) => |now| == |ws| - 1 && HasId(ws, removed) && !HasId(now, removed)
                                           && (id != removed ==> (HasId(now, id) <==> HasId(ws, id)))
  {
    match c
    case Added(i, w) => InsertedIds(ws, i, w, id);
    case Updated(i, w) =>
      assert forall j | 0 <= j < |ws| :: ws[i := w][j].id == ws[j].id;
    case Moved(_, from, to) =>
      RemovedIds(ws, from, id);
      RemovedIds(ws, from, ws[from].id);
      InsertedIds(RemoveAt(ws, from), to, ws[from], id);
    case Removed(i, removed) =>
      RemovedIds(ws, i, id);
      RemovedIds(ws, i, removed);
  }

  lemma InsertedIds(ws: seq<Window>, i: nat, w: Window, id: U64)
    requires DistinctIds(ws) && i <= |ws| && !HasId(ws, w.id)
    ensures var now := InsertAt(ws, i, w); DistinctIds(now) && now[i] == w && (HasId(now, id) <==> HasId(ws, id) || id == w.id)
  {
    var now := InsertAt(ws, i, w);
    assert forall j | 0 <= j < |now| :: now[j] == if j < i then ws[j] else if j == i then w else ws[j - 1];
    assert forall j | 0 <= j < |ws| :: ws[j] == now[if j < i then j else j + 1];
  }

  lemma RemovedIds(ws: seq<Window>, i: nat, id: U64)
    requires DistinctIds(ws) && i < |ws|
    ensures var now := RemoveAt(ws, i); DistinctIds(now) && (HasId(now, id) <==> HasId(ws, id) && id != ws[i].id)
  {
    var now := RemoveAt(ws, i);
    assert forall j | 0 <= j < |now| :: now[j] == ws[if j < i then j else j + 1];
    if j :| 0 <= j < |ws| && ws[j].id == id && j != i { assert now[if j < i then j else j - 1] == ws[j]; }
  }

  lemma {:induction false} ApplyAllConcat(ws: seq<Window>, a: seq<WindowChange>, b: seq<WindowChange>)
    requires ApplyAll(ws, a).Some?
    ensures ApplyAll(ws, a + b) == ApplyAll(ApplyAll(ws, a).value, b)
    decreases |a|
  {
    if a == [] {
      assert a + b == b;
    } else {
      assert (a + b)[0] == a[0] && (a + b)[1..] == a[1..] + b;
      ApplyAllConcat(ApplyChange(ws, a[0]).value, a[1..], b);
    }
  }
}
