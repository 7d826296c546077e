/** The edit script between two minimized-window lists (`diff_windows`). */
module WindowDiff {
  import opened Base
  import opened Protocol

  /** What a run of the algorithm ends in: its own copy of the list with the script it pushed, or the
      panic of an `insert` past the end of the list. */
  datatype DiffOutcome = Diffed(current: seq<Window>, changes: seq<WindowChange>) | Panicked

  // ---------------------------------------------------------------- specification

  /** Index of the first window with this id. */
  function Position(ws: seq<Window>, id: U64): (r: Option<nat>)
    ensures r.Some? ==> r.value < |ws| && ws[r.value].id == id && forall j | 0 <= j < r.value :: ws[j].id != id
    ensures r.None? <==> !HasId(ws, id)
  {
    PositionFrom(ws, id, 0)
  }

  function PositionFrom(ws: seq<Window>, id: U64, start: nat): (r: Option<nat>)
    requires start <= |ws|
    ensures r.Some? ==> start <= r.value < |ws| && ws[r.value].id == id && forall j | start <= j < r.value :: ws[j].id != id
    ensures r.None? ==> forall j | start <= j < |ws| :: ws[j].id != id
    decreases |ws| - start
  {
    if start == |ws| then None
    else if ws[start].id == id then Some(start)
    else PositionFrom(ws, id, start + 1)
  }

  function Prepend(cs: seq<WindowChange>, o: DiffOutcome): DiffOutcome {
    match o
    case Panicked => Panicked
    case Diffed(current, changes) => Diffed(current, cs + changes)
  }

  /** First loop: visit the indices below `k` from the back and drop ids absent from `next`. */
  function Prune(current: seq<Window>, k: nat, next: seq<Window>): DiffOutcome
    requires k <= |current|
  {
    if k == 0 then Diffed(current, [])
    else if HasId(next, current[k - 1].id) then Prune(current, k - 1, next)
    else Prepend([Removed(k - 1, current[k - 1].id)], Prune(RemoveAt(current, k - 1), k - 1, next))
  }

  /** Remove at one index, then insert at another. */
  function MoveTo(ws: seq<Window>, from: nat, to: nat): (r: seq<Window>)
    requires from < |ws| && to < |ws|
    ensures |r| == |ws| && r[to] == ws[from]
  {
    if from == to then ws else InsertAt(RemoveAt(ws, from), to, ws[from])
  }

  /** The changes for a window found at one index and wanted at another, with the same record or not. */
  function Edits(w: Window, from: nat, to: nat, same: bool): seq<WindowChange> {
    (if from == to then [] else [Moved(w.id, from, to)]) + (if same then [] else [Updated(to, w)])
  }

  /** One round of the second loop: bring `w` to index `k`. */
  function Place(current: seq<Window>, k: nat, w: Window): (r: DiffOutcome)
    requires k <= |current|
    ensures r.Diffed? ==> k < |r.current|
  {
    match Position(current, w.id)
    case None => Diffed(InsertAt(current, k, w), [Added(k, w)])
    case Some(p) =>
      if k == |current| then Panicked
      else
        var moved := MoveTo(current, p, k);
        Diffed(moved[k := w], Edits(w, p, k, moved[k] == w))
  }

  /** Second loop, from target index `k` on. */
  function Settle(current: seq<Window>, k: nat, next: seq<Window>): DiffOutcome
    requires k <= |current| && k <= |next|
    decreases |next| - k
  {
    if k == |next| then Diffed(current, [])
    else match Place(current, k, next[k])
      case Panicked => Panicked
      case Diffed(placed, changes) => Prepend(changes, Settle(placed, k + 1, next))
  }

  function RunDiff(previous: seq<Window>, next: seq<Window>): DiffOutcome {
    match Prune(previous, |previous|, next)
    case Panicked => Panicked
    case Diffed(kept, removals) => Prepend(removals, Settle(kept, 0, next))
  }

  // ---------------------------------------------------------------- the imperative algorithm

  /** The first loop of the algorithm. */
  method RemoveMissing(previous: seq<Window>, next: seq<Window>)
    returns (current: seq<Window>, changes: seq<WindowChange>)
    ensures Prune(previous, |previous|, next) == Diffed(current, changes)
  {
    current, changes := previous, [];
    var index := |current|;
    while index > 0
      invariant 0 <= index <= |current|
      invariant Prune(previous, |previous|, next) == Prepend(changes, Prune(current, index, next))
    {
      index := index - 1;
      if !HasId(next, current[index].id) {
        ghost var earlier := changes;
        ghost var pushed := [Removed(index, current[index].id)];
        changes := changes + [Removed(index, current[index].id)];
        current := RemoveAt(current, index);
        PrependTwice(earlier, pushed, Prune(current, index, next));
      }
    }
  }

  /** The body of the second loop: bring `nextWindow` to `target`. */
  method BringTo(previous: seq<Window>, target: nat, nextWindow: Window) returns (outcome: DiffOutcome)
    requires target <= |previous|
    ensures outcome == Place(previous, target, nextWindow)
  {
    var current := previous;
    match Position(current, nextWindow.id) {
      case None =>
        return Diffed(InsertAt(current, target, nextWindow), [Added(target, nextWindow)]);
      case Some(currentIndex) =>
        var changes: seq<WindowChange> := [];
        if currentIndex != target {
          var window := current[currentIndex];
          current := RemoveAt(current, currentIndex);
          if |current| < target {
            return Panicked;
          }
          current := InsertAt(current, target, window);
          changes := [Moved(nextWindow.id, currentIndex, target)];
        }
        assert current == MoveTo(previous, currentIndex, target);
        if current[target] != nextWindow {
          current := current[target := nextWindow];
          changes := changes + [Updated(target, nextWindow)];
        } else {
          assert current[target := nextWindow] == current && changes + [] == changes;
        }
        return Diffed(current, changes);
    }
  }

  method DiffWindows(previous: seq<Window>, next: seq<Window>) returns (outcome: DiffOutcome)
    ensures outcome == RunDiff(previous, next)
    ensures outcome.Diffed? ==> ApplyAll(previous, outcome.changes) == Some(outcome.current)
    ensures DistinctIds(next) && DistinctIds(Keep(previous, next)) ==> outcome.Diffed? && outcome.current == next
  {
    DiffTracksItsCopy(previous, next);
    if DistinctIds(next) && DistinctIds(Keep(previous, next)) { DiffIsScript(previous, next); }

    var current, changes := RemoveMissing(previous, next);
    var target := 0;
    while target < |next|
      invariant target <= |next| && target <= |current|
      invariant RunDiff(previous, next) == Prepend(changes, Settle(current, target, next))
    {
      var round := BringTo(current, target, next[target]);
      if round.Panicked? {
        return Panicked;
      }
      target := target + 1;
      PrependTwice(changes, round.changes, Settle(round.current, target, next));
      current, changes := round.current, changes + round.changes;
    }
    outcome := Diffed(current, changes);
  }

  lemma PrependTwice(a: seq<WindowChange>, b: seq<WindowChange>, o: DiffOutcome)
    ensures Prepend(a, Prepend(b, o)) == Prepend(a + b, o)
  {
  }

  // ---------------------------------------------------------------- the script tracks the algorithm's own list

  lemma {:induction false} PruneTracks(current: seq<Window>, k: nat, next: seq<Window>)
    requires k <= |current|
    ensures var o := Prune(current, k, next); o.Diffed? && ApplyAll(current, o.changes) == Some(o.current)
  {
    if k > 0 {
      if HasId(next, current[k - 1].id) {
        PruneTracks(current, k - 1, next);
      } else {
        var id := current[k - 1].id;
        PruneTracks(RemoveAt(current, k - 1), k - 1, next);
        StepThenScript(current, Removed(k - 1, id), Prune(RemoveAt(current, k - 1), k - 1, next).changes);
      }
    }
  }

  lemma StepThenScript(ws: seq<Window>, c: WindowChange, cs: seq<WindowChange>)
    requires ApplyChange(ws, c).Some?
    ensures ApplyAll(ws, [c] + cs) == ApplyAll(ApplyChange(ws, c).value, cs)
    ensures cs == [] ==> ApplyAll(ws, [c]) == ApplyChange(ws, c)
  {
  }

  lemma PlaceTracks(current: seq<Window>, k: nat, w: Window)
    requires k <= |current|
    ensures var o := Place(current, k, w); o.Diffed? ==> ApplyAll(current, o.changes) == Some(o.current)
  {
    match Position(current, w.id)
    case None => StepThenScript(current, Added(k, w), []);
    case Some(p) => if k < |current| { MoveTracks(current, p, k, w); }
  }

  lemma MoveTracks(current: seq<Window>, p: nat, k: nat, w: Window)
    requires p < |current| && k < |current| && current[p].id == w.id
    ensures var moved := MoveTo(current, p, k);
            ApplyAll(current, Edits(w, p, k, moved[k] == w)) == Some(moved[k := w])
  {
    var moved := MoveTo(current, p, k);
    var moves := if p == k then [] else [Moved(w.id, p, k)];
    var updates := if moved[k] == w then [] else [Updated(k, w)];
    assert ApplyAll(current, moves) == Some(moved) by {
      if p != k { StepThenScript(current, Moved(w.id, p, k), []); }
    }
    assert ApplyAll(moved, updates) == Some(moved[k := w]) by {
      if moved[k] == w { assert moved[k := w] == moved; } else { StepThenScript(moved, Updated(k, w), []); }
    }
    ApplyAllConcat(current, moves, updates);
  }

  lemma {:induction false} SettleTracks(current: seq<Window>, k: nat, next: seq<Window>)
    requires k <= |current| && k <= |next|
    ensures var o := Settle(current, k, next); o.Diffed? ==> ApplyAll(current, o.changes) == Some(o.current)
    decreases |next| - k
  {
    if k < |next| {
      var o := Place(current, k, next[k]);
      if o.Diffed? {
        PlaceTracks(current, k, next[k]);
        SettleTracks(o.current, k + 1, next);
        var later := Settle(o.current, k + 1, next);
        if later.Diffed? { ApplyAllConcat(current, o.changes, later.changes); }
      }
    }
  }

  /** On every input, distinct or not, a client that applies the script ends with the list the algorithm
      itself ended with, and every change fits the list it meets. */
  lemma DiffTracksItsCopy(previous: seq<Window>, next: seq<Window>)
    ensures var o := RunDiff(previous, next); o.Diffed? ==> ApplyAll(previous, o.changes) == Some(o.current)
  {
    PruneTracks(previous, |previous|, next);
    var pruned := Prune(previous, |previous|, next);
    SettleTracks(pruned.current, 0, next);
    if RunDiff(previous, next).Diffed? {
      ApplyAllConcat(previous, pruned.changes, Settle(pruned.current, 0, next).changes);
    }
  }

  // ---------------------------------------------------------------- the script in closed form

  /** The windows of `ws` whose ids occur in `other`, in the order of `ws`. */
  function Keep(ws: seq<Window>, other: seq<Window>): (r: seq<Window>)
    ensures forall i | 0 <= i < |r| :: HasId(other, r[i].id)
    ensures |r| <= |ws|
  {
    if ws == [] then []
    else if HasId(other, ws[0].id) then [ws[0]] + Keep(ws[1..], other)
    else Keep(ws[1..], other)
  }

  /** The windows still to be placed once the window with this id has been. */
  function Unplaced(rest: seq<Window>, id: U64): seq<Window> {
    match Position(rest, id)
    case None => rest
    case Some(p) => RemoveAt(rest, p)
  }

  /** The changes that bring `w` to index `k`, in front of `rest`. */
  function FrontChanges(rest: seq<Window>, w: Window, k: nat): seq<WindowChange> {
    match Position(rest, w.id)
    case None => [Added(k, w)]
    case Some(p) => Edits(w, k + p, k, rest[p] == w)
  }

  /** The script of the second loop, written over the windows not yet placed (`rest`) and not yet
      reached (`tail`). */
  function Script(rest: seq<Window>, tail: seq<Window>, k: nat): seq<WindowChange>
    decreases |tail|
  {
    if tail == [] then []
    else FrontChanges(rest, tail[0], k) + Script(Unplaced(rest, tail[0].id), tail[1..], k + 1)
  }

  lemma {:induction false} KeepSnoc(ws: seq<Window>, w: Window, other: seq<Window>)
    ensures Keep(ws + [w], other) == Keep(ws, other) + (if HasId(other, w.id) then [w] else [])
  {
    if ws != [] {
      assert (ws + [w])[1..] == ws[1..] + [w];
      KeepSnoc(ws[1..], w, other);
    }
  }

  lemma {:induction false} PruneKeeps(current: seq<Window>, k: nat, next: seq<Window>)
    requires k <= |current|
    ensures var o := Prune(current, k, next); o.Diffed? && o.current == Keep(current[..k], next) + current[k..]
  {
    if k > 0 {
      assert current[..k] == current[..k - 1] + [current[k - 1]];
      KeepSnoc(current[..k - 1], current[k - 1], next);
      if HasId(next, current[k - 1].id) {
        PruneKeeps(current, k - 1, next);
        assert current[k - 1..] == [current[k - 1]] + current[k..];
      } else {
        var removed := RemoveAt(current, k - 1);
        PruneKeeps(removed, k - 1, next);
        assert removed[..k - 1] == current[..k - 1] && removed[k - 1..] == current[k..];
      }
    }
  }

  /** With distinct ids the second loop keeps its copy split into the finished prefix of `next` and the
      untouched rest, and therefore emits `Script`. */
  lemma {:induction false} SettleIsScript(current: seq<Window>, rest: seq<Window>, k: nat, next: seq<Window>)
    requires k <= |next| && current == next[..k] + rest
    requires DistinctIds(next) && DistinctIds(rest)
    requires forall i | 0 <= i < |rest| :: HasId(next[k..], rest[i].id)
    ensures Settle(current, k, next) == Diffed(next, Script(rest, next[k..], k))
    decreases |next| - k
  {
    if k == |next| {
      assert |rest| > 0 ==> HasId(next[k..], rest[0].id);
      assert next[..k] == next;
    } else {
      var w, tail := next[k], next[k..];
      assert tail[0] == w && tail[1..] == next[k + 1..] && next[..k + 1] == next[..k] + [w];
      PlaceIsFront(next[..k], rest, w);
      var left := Unplaced(rest, w.id);
      UnplacedAhead(rest, w.id, tail);
      StillAhead(left, tail);
      assert next[..k] + [w] + left == next[..k + 1] + left;
      SettleIsScript(next[..k + 1] + left, left, k + 1, next);
    }
  }

  /** One round, seen from the split list: `w` joins the finished prefix and leaves the rest. */
  lemma PlaceIsFront(done: seq<Window>, rest: seq<Window>, w: Window)
    requires !HasId(done, w.id)
    ensures Place(done + rest, |done|, w) == Diffed(done + [w] + Unplaced(rest, w.id), FrontChanges(rest, w, |done|))
  {
    PositionSplit(done, rest, w.id);
    match Position(rest, w.id)
    case None => SplitInsert(done, rest, w);
    case Some(p) => PlaceKnown(done, rest, p, w);
  }

  lemma PlaceKnown(done: seq<Window>, rest: seq<Window>, p: nat, w: Window)
    requires p < |rest| && Position(rest, w.id) == Some(p) && Position(done + rest, w.id) == Some(|done| + p)
    ensures var o := Place(done + rest, |done|, w);
            o.Diffed? && o.current == done + [w] + RemoveAt(rest, p) && o.changes == FrontChanges(rest, w, |done|)
  {
  }

  lemma SplitInsert<T>(a: seq<T>, b: seq<T>, x: T)
    ensures InsertAt(a + b, |a|, x) == a + [x] + b
  {
  }

  lemma PositionSplit(a: seq<Window>, b: seq<Window>, id: U64)
    requires !HasId(a, id)
    ensures Position(a + b, id) == match Position(b, id) { case None => None case Some(p) => Some(|a| + p) }
  {
    var all := a + b;
    assert forall j | 0 <= j < |a| :: all[j] == a[j] && a[j].id != id;
    if HasId(b, id) { assert all[|a| + Position(b, id).value].id == id; }
    if HasId(all, id) { assert all[Position(all, id).value] == b[Position(all, id).value - |a|]; }
  }

  /** Windows whose ids lie ahead, and are not the id being placed now, still lie ahead afterwards. */
  lemma StillAhead(rest: seq<Window>, tail: seq<Window>)
    requires tail != [] && !HasId(rest, tail[0].id)
    requires forall i | 0 <= i < |rest| :: HasId(tail, rest[i].id)
    ensures forall i | 0 <= i < |rest| :: HasId(tail[1..], rest[i].id)
  {
  }

  lemma UnplacedAhead(rest: seq<Window>, id: U64, tail: seq<Window>)
    requires DistinctIds(rest)
    requires forall i | 0 <= i < |rest| :: HasId(tail, rest[i].id)
    ensures var left := Unplaced(rest, id);
            DistinctIds(left) && !HasId(left, id) && forall i | 0 <= i < |left| :: HasId(tail, left[i].id)
  {
  }

  /** The whole run when the survivors and the new list have distinct ids. */
  lemma DiffIsScript(previous: seq<Window>, next: seq<Window>)
    requires DistinctIds(next) && DistinctIds(Keep(previous, next))
    ensures Prune(previous, |previous|, next).Diffed?
    ensures var removals := Prune(previous, |previous|, next).changes;
            RunDiff(previous, next) == Diffed(next, removals + Script(Keep(previous, next), next, 0))
  {
    PruneKeeps(previous, |previous|, next);
    var kept := Keep(previous, next);
    assert previous[..|previous|] == previous && kept + previous[|previous|..] == kept;
    assert next[0..] == next && next[..0] + kept == kept;
    SettleIsScript(kept, kept, 0, next);
  }
}
