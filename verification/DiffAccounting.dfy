/** How the edit script accounts for the difference of two lists. */
module DiffAccounting {
  import opened Base
  import opened Protocol
  import opened WindowDiff
  import opened DiffProperties

  datatype Kind = AddedKind | UpdatedKind | MovedKind | RemovedKind

  function KindOf(c: WindowChange): Kind {
    match c
    case Added(_, _) => AddedKind
    case Updated(_, _) => UpdatedKind
    case Moved(_, _, _) => MovedKind
    case Removed(_, _) => RemovedKind
  }

  /** The id a change is about. */
  function Subject(c: WindowChange): U64 {
    match c
    case Added(_, w) => w.id
    case Updated(_, w) => w.id
    case Moved(id, _, _) => id
    case Removed(_, id) => id
  }

  /** How many changes of this kind concern this id. */
  function Tally(cs: seq<WindowChange>, kind: Kind, id: U64): nat {
    if cs == [] then 0
    else (if KindOf(cs[0]) == kind && Subject(cs[0]) == id then 1 else 0) + Tally(cs[1..], kind, id)
  }

  /** The window with this id. */
  function Record(ws: seq<Window>, id: U64): Window
    requires HasId(ws, id)
  {
    ws[Position(ws, id).value]
  }

  function One(b: bool): nat { if b then 1 else 0 }

  /** Both ids occur, the first one earlier. */
  predicate Before(ws: seq<Window>, first: U64, second: U64) {
    HasId(ws, first) && HasId(ws, second) && Position(ws, first).value < Position(ws, second).value
  }

  /** Some survivor stands before this one in the old list and after it in the new one. */
  ghost predicate Overtakes(previous: seq<Window>, next: seq<Window>, id: U64) {
    exists other: U64 :: Before(previous, other, id) && Before(next, id, other)
  }

  lemma {:induction false} TallyConcat(a: seq<WindowChange>, b: seq<WindowChange>, kind: Kind, id: U64)
    ensures Tally(a + b, kind, id) == Tally(a, kind, id) + Tally(b, kind, id)
  {
    if a == [] {
      assert a + b == b;
    } else {
      assert (a + b)[0] == a[0] && (a + b)[1..] == a[1..] + b;
      TallyConcat(a[1..], b, kind, id);
    }
  }

  // ---------------------------------------------------------------- removals

  lemma {:induction false} PruneTally(current: seq<Window>, k: nat, next: seq<Window>, kind: Kind, id: U64)
    requires k <= |current|
    ensures var o := Prune(current, k, next);
            o.Diffed? && |o.changes| == k - |Keep(current[..k], next)|
            && Tally(o.changes, kind, id)
               == if kind == RemovedKind && !HasId(next, id) then Count(current[..k], id) else 0
  {
    if k > 0 {
      var w := current[k - 1];
      assert current[..k] == current[..k - 1] + [w];
      KeepSnoc(current[..k - 1], w, next);
      CountConcat(current[..k - 1], [w], id);
      if HasId(next, w.id) {
        PruneTally(current, k - 1, next, kind, id);
      } else {
        var removed := RemoveAt(current, k - 1);
        assert removed[..k - 1] == current[..k - 1];
        PruneTally(removed, k - 1, next, kind, id);
        TallyConcat([Removed(k - 1, w.id)], Prune(removed, k - 1, next).changes, kind, id);
      }
    }
  }

  lemma CountDistinct(ws: seq<Window>, id: U64)
    requires DistinctIds(ws)
    ensures Count(ws, id) == One(HasId(ws, id))
  {
  }

  // ---------------------------------------------------------------- placements

  lemma UnplacedRecords(rest: seq<Window>, placed: U64, id: U64)
    requires DistinctIds(rest)
    ensures var left := Unplaced(rest, placed);
            DistinctIds(left) && (HasId(left, id) <==> HasId(rest, id) && id != placed)
            && (HasId(left, id) ==> Record(left, id) == Record(rest, id))
  {
    match Position(rest, placed)
    case None =>
    case Some(p) =>
      var left := RemoveAt(rest, p);
      if HasId(rest, id) && id != placed {
        var q := Position(rest, id).value;
        assert left[if q < p then q else q - 1] == rest[q];
      }
  }

  lemma TailRecords(tail: seq<Window>, id: U64)
    requires DistinctIds(tail) && tail != []
    ensures DistinctIds(tail[1..]) && (HasId(tail[1..], id) <==> HasId(tail, id) && id != tail[0].id)
    ensures HasId(tail[1..], id) ==> Record(tail[1..], id) == Record(tail, id)
  {
  }

  lemma UnplacedOrder(rest: seq<Window>, placed: U64, first: U64, second: U64)
    requires DistinctIds(rest) && first != placed && second != placed
    ensures Before(Unplaced(rest, placed), first, second) <==> Before(rest, first, second)
  {
    UnplacedPosition(rest, placed, first);
    UnplacedPosition(rest, placed, second);
  }

  lemma UnplacedPosition(rest: seq<Window>, placed: U64, id: U64)
    requires DistinctIds(rest) && id != placed
    ensures Position(Unplaced(rest, placed), id) ==
            match (Position(rest, placed), Position(rest, id))
            case (Some(p), Some(q)) => Some(if q < p then q else q - 1)
            case _ => Position(rest, id)
  {
    UnplacedRecords(rest, placed, id);
    if HasId(rest, placed) && HasId(rest, id) {
      var p, q, left := Position(rest, placed).value, Position(rest, id).value, Unplaced(rest, placed);
      assert left[if q < p then q else q - 1] == rest[q];
    }
  }

  lemma TailOrder(tail: seq<Window>, first: U64, second: U64)
    requires DistinctIds(tail) && tail != [] && first != tail[0].id
    ensures Before(tail[1..], first, second) <==> Before(tail, first, second)
  {
    TailRecords(tail, first);
    TailRecords(tail, second);
    TailPosition(tail, first);
    if second != tail[0].id { TailPosition(tail, second); }
  }

  lemma TailPosition(tail: seq<Window>, id: U64)
    requires DistinctIds(tail) && tail != [] && id != tail[0].id
    ensures Position(tail[1..], id) == match Position(tail, id) { case None => None case Some(p) => Some(p - 1) }
  {
    TailRecords(tail, id);
    if HasId(tail, id) { assert tail[1..][Position(tail, id).value - 1].id == id; }
  }

  /** The window placed next overtakes others exactly if it is not the first of the rest. */
  lemma OvertakesNow(rest: seq<Window>, tail: seq<Window>)
    requires DistinctIds(rest) && DistinctIds(tail) && tail != [] && HasId(rest, tail[0].id)
    requires forall i | 0 <= i < |rest| :: HasId(tail, rest[i].id)
    ensures Overtakes(rest, tail, tail[0].id) <==> Position(rest, tail[0].id) != Some(0)
  {
    var id := tail[0].id;
    assert Position(tail, id) == Some(0);
    if Position(rest, id) != Some(0) {
      assert Position(rest, rest[0].id) == Some(0);
      assert Before(rest, rest[0].id, id) && Before(tail, id, rest[0].id);
    }
  }

  /** Whether a window placed later overtakes others does not depend on the one placed now. */
  lemma OvertakesLater(rest: seq<Window>, tail: seq<Window>, id: U64)
    requires DistinctIds(rest) && DistinctIds(tail) && tail != [] && id != tail[0].id
    ensures Overtakes(Unplaced(rest, tail[0].id), tail[1..], id) <==> Overtakes(rest, tail, id)
  {
    var now := tail[0].id;
    UnplacedRecords(rest, now, now);
    assert Position(tail, now) == Some(0);
    forall other: U64
      ensures Before(Unplaced(rest, now), other, id) && Before(tail[1..], id, other)
              <==> Before(rest, other, id) && Before(tail, id, other)
    {
      TailOrder(tail, id, other);
      if other != now { UnplacedOrder(rest, now, other, id); }
    }
  }

  lemma FrontTally(rest: seq<Window>, w: Window, k: nat, id: U64)
    ensures var cs := FrontChanges(rest, w, k);
            var shared := w.id == id && HasId(rest, id);
            && Tally(cs, AddedKind, id) == One(w.id == id && !HasId(rest, id))
            && Tally(cs, UpdatedKind, id) == One(shared && Record(rest, id) != w)
            && Tally(cs, MovedKind, id) == One(shared && Position(rest, id) != Some(0))
            && Tally(cs, RemovedKind, id) == 0
            && |cs| <= 1 + One(HasId(rest, w.id))
  {
    match Position(rest, w.id)
    case None =>
      assert [Added(k, w)][1..] == [];
    case Some(p) =>
      var moves := if p == 0 then [] else [Moved(w.id, k + p, k)];
      var updates := if rest[p] == w then [] else [Updated(k, w)];
      forall kind ensures Tally(moves + updates, kind, id)
                          == One(p != 0 && kind == MovedKind && w.id == id)
                             + One(rest[p] != w && kind == UpdatedKind && w.id == id) {
        TallyConcat(moves, updates, kind, id);
        if p != 0 { TallyOne(Moved(w.id, k + p, k), kind, id); }
        if rest[p] != w { TallyOne(Updated(k, w), kind, id); }
      }
      assert FrontChanges(rest, w, k) == moves + updates;
  }

  lemma TallyOne(c: WindowChange, kind: Kind, id: U64)
    ensures Tally([c], kind, id) == One(KindOf(c) == kind && Subject(c) == id)
  {
  }

  lemma {:induction false} ScriptTally(rest: seq<Window>, tail: seq<Window>, k: nat, id: U64)
    requires DistinctIds(rest) && DistinctIds(tail)
    ensures var cs := Script(rest, tail, k);
            var shared := HasId(rest, id) && HasId(tail, id);
            && Tally(cs, AddedKind, id) == One(HasId(tail, id) && !HasId(rest, id))
            && Tally(cs, UpdatedKind, id) == One(shared && Record(rest, id) != Record(tail, id))
            && Tally(cs, RemovedKind, id) == 0
            && |cs| <= |tail| + |rest|
    decreases |tail|
  {
    if tail != [] {
      var w, left := tail[0], Unplaced(rest, tail[0].id);
      UnplacedRecords(rest, w.id, id);
      TailRecords(tail, id);
      HasIdCons(tail, id);
      FrontTally(rest, w, k, id);
      ScriptTally(left, tail[1..], k + 1, id);
      forall kind ensures Tally(Script(rest, tail, k), kind, id)
                          == Tally(FrontChanges(rest, w, k), kind, id) + Tally(Script(left, tail[1..], k + 1), kind, id) {
        TallyConcat(FrontChanges(rest, w, k), Script(left, tail[1..], k + 1), kind, id);
      }
      assert w.id == id ==> Record(tail, id) == w;
    }
  }

  /** From any point of the second loop on, the moves still to come are those of the windows that overtake. */
  lemma {:induction false} ScriptOvertakes(rest: seq<Window>, tail: seq<Window>, k: nat, id: U64)
    requires DistinctIds(rest) && DistinctIds(tail)
    requires forall i | 0 <= i < |rest| :: HasId(tail, rest[i].id)
    ensures Tally(Script(rest, tail, k), MovedKind, id) == One(Overtakes(rest, tail, id))
    decreases |tail|
  {
    if tail != [] {
      var w, left := tail[0], Unplaced(rest, tail[0].id);
      UnplacedAhead(rest, w.id, tail);
      StillAhead(left, tail);
      ScriptOvertakes(left, tail[1..], k + 1, id);
      FrontTally(rest, w, k, id);
      TallyConcat(FrontChanges(rest, w, k), Script(left, tail[1..], k + 1), MovedKind, id);
      if id != w.id {
        OvertakesLater(rest, tail, id);
      } else {
        OvertakesOnce(rest, tail);
      }
    }
  }

  lemma OvertakesOnce(rest: seq<Window>, tail: seq<Window>)
    requires DistinctIds(rest) && DistinctIds(tail) && tail != []
    requires forall i | 0 <= i < |rest| :: HasId(tail, rest[i].id)
    ensures var id := tail[0].id;
            && (Overtakes(rest, tail, id) <==> HasId(rest, id) && Position(rest, id) != Some(0))
            && !Overtakes(Unplaced(rest, id), tail[1..], id)
  {
    UnplacedRecords(rest, tail[0].id, tail[0].id);
    if HasId(rest, tail[0].id) { OvertakesNow(rest, tail); }
  }

  lemma KeepRecord(ws: seq<Window>, other: seq<Window>, id: U64)
    requires DistinctIds(ws) && HasId(ws, id) && HasId(other, id)
    ensures DistinctIds(Keep(ws, other)) && HasId(Keep(ws, other), id)
    ensures Record(Keep(ws, other), id) == Record(ws, id)
  {
    KeepDistinct(ws, other);
    KeepSubset(ws, other, Position(Keep(ws, other), id).value);
  }

  lemma {:induction false} KeepSubset(ws: seq<Window>, other: seq<Window>, i: nat)
    requires i < |Keep(ws, other)|
    ensures exists j :: 0 <= j < |ws| && ws[j] == Keep(ws, other)[i]
  {
    if HasId(other, ws[0].id) && i == 0 {
      assert ws[0] == Keep(ws, other)[0];
    } else {
      KeepSubset(ws[1..], other, if HasId(other, ws[0].id) then i - 1 else i);
      var j :| 0 <= j < |ws[1..]| && ws[1..][j] == Keep(ws, other)[i];
      assert ws[j + 1] == Keep(ws, other)[i];
    }
  }

  lemma {:induction false} KeepOrder(ws: seq<Window>, other: seq<Window>, first: U64, second: U64)
    requires DistinctIds(ws)
    ensures Before(Keep(ws, other), first, second)
            <==> Before(ws, first, second) && HasId(other, first) && HasId(other, second)
  {
    if ws != [] {
      KeepDistinct(ws, other);
      TailRecords(ws, first);
      TailRecords(ws, second);
      KeepOrder(ws[1..], other, first, second);
      OrderCons(ws, first, second);
      KeepHasId(ws[1..], other, second);
      if HasId(other, ws[0].id) {
        assert Keep(ws, other)[1..] == Keep(ws[1..], other);
        OrderCons(Keep(ws, other), first, second);
      }
    }
  }

  lemma OrderCons(ws: seq<Window>, first: U64, second: U64)
    requires DistinctIds(ws) && ws != []
    ensures Before(ws, first, second)
            <==> if first == ws[0].id then second != first && HasId(ws[1..], second) else Before(ws[1..], first, second)
  {
    assert Position(ws, ws[0].id) == Some(0);
    TailRecords(ws, second);
    if first != ws[0].id { TailOrder(ws, first, second); }
  }

  lemma KeepHasId(ws: seq<Window>, other: seq<Window>, id: U64)
    ensures HasId(Keep(ws, other), id) <==> HasId(ws, id) && HasId(other, id)
  {
    CountKeep(ws, other, id);
    CountHasId(ws, id);
    CountHasId(Keep(ws, other), id);
  }

  lemma OvertakesKept(previous: seq<Window>, next: seq<Window>, id: U64)
    requires DistinctIds(previous)
    ensures Overtakes(Keep(previous, next), next, id) <==> Overtakes(previous, next, id)
  {
    forall other: U64 ensures Before(Keep(previous, next), other, id) && Before(next, id, other)
                              <==> Before(previous, other, id) && Before(next, id, other) {
      KeepOrder(previous, next, other, id);
    }
  }

  /** The script contains one removal per id only in the old list, one addition per id only in the new one,
      one update per shared id whose record changed, one move per shared id that overtakes another, and
      nothing else. */
  lemma DiffAccounts(previous: seq<Window>, next: seq<Window>, id: U64)
    requires DistinctIds(previous) && DistinctIds(next)
    ensures var cs := DiffScript(previous, next);
            var shared := HasId(previous, id) && HasId(next, id);
            && Tally(cs, RemovedKind, id) == One(HasId(previous, id) && !HasId(next, id))
            && Tally(cs, AddedKind, id) == One(HasId(next, id) && !HasId(previous, id))
            && Tally(cs, UpdatedKind, id) == One(shared && Record(previous, id) != Record(next, id))
            && Tally(cs, MovedKind, id) == One(Overtakes(previous, next, id))
  {
    var kept := Keep(previous, next);
    KeepDistinct(previous, next);
    DiffIsScript(previous, next);
    var removals := Prune(previous, |previous|, next).changes;
    var script := Script(kept, next, 0);
    assert previous[..|previous|] == previous;
    CountDistinct(previous, id);
    ScriptTally(kept, next, 0, id);
    ScriptOvertakes(kept, next, 0, id);
    OvertakesKept(previous, next, id);
    if HasId(previous, id) && HasId(next, id) { KeepRecord(previous, next, id); }
    forall kind ensures Tally(removals + script, kind, id)
                        == One(kind == RemovedKind && HasId(previous, id) && !HasId(next, id)) + Tally(script, kind, id) {
      PruneTally(previous, |previous|, next, kind, id);
      TallyConcat(removals, script, kind, id);
    }
  }

  /** Removed plus added plus twice the shared windows bounds the length of the script: that sum is the
      two lengths together. */
  lemma DiffLength(previous: seq<Window>, next: seq<Window>)
    requires DistinctIds(previous) && DistinctIds(next)
    ensures |DiffScript(previous, next)| <= |previous| + |next|
  {
    KeepDistinct(previous, next);
    DiffIsScript(previous, next);
    assert previous[..|previous|] == previous;
    PruneTally(previous, |previous|, next, RemovedKind, 0);
    ScriptTally(Keep(previous, next), next, 0, 0);
  }

  // ---------------------------------------------------------------- the empty script

  lemma {:induction false} ScriptOfSame(ws: seq<Window>, k: nat)
    ensures Script(ws, ws, k) == []
    decreases |ws|
  {
    if ws != [] {
      assert Position(ws, ws[0].id) == Some(0);
      assert RemoveAt(ws, 0) == ws[1..];
      ScriptOfSame(ws[1..], k + 1);
    }
  }

  lemma {:induction false} KeepAll(ws: seq<Window>, other: seq<Window>)
    requires forall i | 0 <= i < |ws| :: HasId(other, ws[i].id)
    ensures Keep(ws, other) == ws
  {
    if ws != [] {
      forall i | 0 <= i < |ws[1..]| ensures HasId(other, ws[1..][i].id) { assert ws[1..][i] == ws[i + 1]; }
      KeepAll(ws[1..], other);
    }
  }

  /** No `Changes` message is ever empty: the script is empty only when nothing changed. */
  lemma DiffEmptyIffEqual(previous: seq<Window>, next: seq<Window>)
    requires DistinctIds(previous) && DistinctIds(next)
    ensures DiffScript(previous, next) == [] <==> previous == next
  {
    if previous == next {
      forall i | 0 <= i < |next| ensures HasId(next, next[i].id) {}
      KeepAll(next, next);
      DiffIsScript(next, next);
      ScriptOfSame(next, 0);
      assert next[..|next|] == next;
      PruneTally(next, |next|, next, RemovedKind, 0);
    }
  }

  // ---------------------------------------------------------------- moves

  predicate HasMove(cs: seq<WindowChange>) {
    exists i | 0 <= i < |cs| :: cs[i].Moved?
  }

  function IdsOf(ws: seq<Window>): (r: seq<U64>)
    ensures |r| == |ws| && forall i | 0 <= i < |ws| :: r[i] == ws[i].id
  {
    if ws == [] then [] else [ws[0].id] + IdsOf(ws[1..])
  }

  lemma HasMoveConcat(a: seq<WindowChange>, b: seq<WindowChange>)
    ensures HasMove(a + b) <==> HasMove(a) || HasMove(b)
  {
    if i :| 0 <= i < |a| && a[i].Moved? { assert (a + b)[i].Moved?; }
    if i :| 0 <= i < |b| && b[i].Moved? { assert (a + b)[|a| + i].Moved?; }
    if i :| 0 <= i < |a + b| && (a + b)[i].Moved? { assert if i < |a| then a[i].Moved? else b[i - |a|].Moved?; }
  }

  lemma {:induction false} KeepSameIds(ws: seq<Window>, a: seq<Window>, b: seq<Window>)
    requires forall i | 0 <= i < |ws| :: HasId(a, ws[i].id) <==> HasId(b, ws[i].id)
    ensures Keep(ws, a) == Keep(ws, b)
  {
    if ws != [] {
      forall i | 0 <= i < |ws[1..]| ensures HasId(a, ws[1..][i].id) <==> HasId(b, ws[1..][i].id) {
        assert ws[1..][i] == ws[i + 1];
      }
      KeepSameIds(ws[1..], a, b);
    }
  }

  /** From any point of the second loop on, a move follows exactly when the windows still to be placed
      stand in another order than their ids have in the rest of the new list. */
  lemma {:induction false} ScriptMoves(rest: seq<Window>, tail: seq<Window>, k: nat)
    requires DistinctIds(rest) && DistinctIds(tail)
    requires forall i | 0 <= i < |rest| :: HasId(tail, rest[i].id)
    ensures HasMove(Script(rest, tail, k)) <==> IdsOf(rest) != IdsOf(Keep(tail, rest))
    decreases |tail|
  {
    if tail == [] {
      assert |rest| > 0 ==> HasId(tail, rest[0].id);
    } else {
      var w, left := tail[0], Unplaced(rest, tail[0].id);
      UnplacedAhead(rest, w.id, tail);
      StillAhead(left, tail);
      ScriptMoves(left, tail[1..], k + 1);
      HasMoveConcat(FrontChanges(rest, w, k), Script(left, tail[1..], k + 1));
      forall i | 0 <= i < |tail[1..]| ensures HasId(rest, tail[1..][i].id) <==> HasId(left, tail[1..][i].id) {
        UnplacedRecords(rest, w.id, tail[1..][i].id);
      }
      KeepSameIds(tail[1..], rest, left);
      FrontMoves(rest, w, k, Keep(tail[1..], left));
    }
  }

  /** The front changes contain a move exactly if the placed window was not first among the rest. */
  lemma FrontMoves(rest: seq<Window>, w: Window, k: nat, others: seq<Window>)
    requires DistinctIds(rest)
    ensures var front := if HasId(rest, w.id) then [w] + others else others;
            IdsOf(rest) != IdsOf(front)
            <==> HasMove(FrontChanges(rest, w, k)) || IdsOf(Unplaced(rest, w.id)) != IdsOf(others)
  {
    match Position(rest, w.id)
    case None => assert !HasMove(FrontChanges(rest, w, k));
    case Some(p) =>
      FrontOrder(rest, p, w, others);
      assert p > 0 ==> FrontChanges(rest, w, k)[0].Moved?;
  }

  lemma FrontOrder(rest: seq<Window>, p: nat, w: Window, others: seq<Window>)
    requires DistinctIds(rest) && p < |rest| && rest[p].id == w.id
    ensures IdsOf(rest) != IdsOf([w] + others) <==> p != 0 || IdsOf(RemoveAt(rest, p)) != IdsOf(others)
  {
  }

  lemma {:induction false} PruneMoves(current: seq<Window>, k: nat, next: seq<Window>)
    requires k <= |current|
    ensures Prune(current, k, next).Diffed? && !HasMove(Prune(current, k, next).changes)
  {
    if k > 0 {
      if HasId(next, current[k - 1].id) {
        PruneMoves(current, k - 1, next);
      } else {
        PruneMoves(RemoveAt(current, k - 1), k - 1, next);
        HasMoveConcat([Removed(k - 1, current[k - 1].id)], Prune(RemoveAt(current, k - 1), k - 1, next).changes);
      }
    }
  }

  /** A move is sent if and only if the surviving windows stand in another order in the new list. */
  lemma DiffMovesIffReordered(previous: seq<Window>, next: seq<Window>)
    requires DistinctIds(previous) && DistinctIds(next)
    ensures HasMove(DiffScript(previous, next)) <==> IdsOf(Keep(previous, next)) != IdsOf(Keep(next, previous))
  {
    var kept := Keep(previous, next);
    KeepDistinct(previous, next);
    DiffIsScript(previous, next);
    PruneMoves(previous, |previous|, next);
    ScriptMoves(kept, next, 0);
    HasMoveConcat(Prune(previous, |previous|, next).changes, Script(kept, next, 0));
    forall i | 0 <= i < |next| ensures HasId(kept, next[i].id) <==> HasId(previous, next[i].id) {
      assert HasId(next, next[i].id);
    }
    KeepSameIds(next, kept, previous);
  }

  ghost predicate MovesForward(cs: seq<WindowChange>) {
    forall i | 0 <= i < |cs| && cs[i].Moved? :: cs[i].fromIndex > cs[i].toIndex
  }

  lemma {:induction false} ScriptMovesForward(rest: seq<Window>, tail: seq<Window>, k: nat)
    ensures MovesForward(Script(rest, tail, k))
    decreases |tail|
  {
    if tail != [] {
      ScriptMovesForward(Unplaced(rest, tail[0].id), tail[1..], k + 1);
      assert MovesForward(FrontChanges(rest, tail[0], k));
    }
  }

  /** Every move goes strictly towards the front of the list. */
  lemma DiffMovesForward(previous: seq<Window>, next: seq<Window>)
    requires DistinctIds(previous) && DistinctIds(next)
    ensures MovesForward(DiffScript(previous, next))
  {
    KeepDistinct(previous, next);
    DiffIsScript(previous, next);
    ScriptMovesForward(Keep(previous, next), next, 0);
    var removals := Prune(previous, |previous|, next).changes;
    PruneMoves(previous, |previous|, next);
    assert forall i | 0 <= i < |removals| :: !removals[i].Moved?;
  }
}
