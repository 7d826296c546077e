/** What the edit script promises its readers. */
module DiffProperties {
  import opened Base
  import opened Protocol
  import opened WindowDiff

  // ---------------------------------------------------------------- the script reproduces the new list

  lemma {:induction false} KeepDistinct(ws: seq<Window>, other: seq<Window>)
    requires DistinctIds(ws)
    ensures DistinctIds(Keep(ws, other))
    ensures forall id :: HasId(Keep(ws, other), id) <==> HasId(ws, id) && HasId(other, id)
  {
    if ws != [] {
      var tail := ws[1..];
      KeepDistinct(tail, other);
      forall id ensures HasId(ws, id) <==> ws[0].id == id || HasId(tail, id) { HasIdCons(ws, id); }
      var kept := Keep(ws, other);
      if HasId(other, ws[0].id) {
        assert kept[0] == ws[0] && kept[1..] == Keep(tail, other);
        forall id ensures HasId(kept, id) <==> ws[0].id == id || HasId(kept[1..], id) { HasIdCons(kept, id); }
        assert !HasId(tail, ws[0].id);
        assert !HasId(kept[1..], ws[0].id);
        assert forall j | 1 <= j < |kept| :: kept[j] == kept[1..][j - 1];
      }
    }
  }

  lemma HasIdCons(ws: seq<Window>, id: U64)
    requires ws != []
    ensures HasId(ws, id) <==> ws[0].id == id || HasId(ws[1..], id)
  {
  }

  /** The closing assertion of `diff_windows` holds for lists of distinct ids, and applying the changes in
      order to the old list gives exactly the new one, no change ever meeting a list it does not fit. */
  lemma DiffReproducesNext(previous: seq<Window>, next: seq<Window>)
    requires DistinctIds(previous) && DistinctIds(next)
    ensures var o := RunDiff(previous, next);
            o.Diffed? && o.current == next && ApplyAll(previous, o.changes) == Some(next)
  {
    KeepDistinct(previous, next);
    DiffIsScript(previous, next);
    DiffTracksItsCopy(previous, next);
  }

  /** The changes the broker sends for two lists of distinct ids. */
  function DiffScript(previous: seq<Window>, next: seq<Window>): (changes: seq<WindowChange>)
    requires DistinctIds(previous) && DistinctIds(next)
    ensures ApplyAll(previous, changes) == Some(next)
  {
    DiffReproducesNext(previous, next);
    RunDiff(previous, next).changes
  }

  /** One script undoes the other. */
  lemma DiffRoundTrip(a: seq<Window>, b: seq<Window>)
    requires DistinctIds(a) && DistinctIds(b)
    ensures ApplyAll(a, DiffScript(a, b) + DiffScript(b, a)) == Some(a)
  {
    ApplyAllConcat(a, DiffScript(a, b), DiffScript(b, a));
  }

  // ---------------------------------------------------------------- exactly when it does

  function Count(ws: seq<Window>, id: U64): nat {
    if ws == [] then 0 else (if ws[0].id == id then 1 else 0) + Count(ws[1..], id)
  }

  lemma {:induction false} CountConcat(a: seq<Window>, b: seq<Window>, id: U64)
    ensures Count(a + b, id) == Count(a, id) + Count(b, id)
  {
    if a == [] {
      assert a + b == b;
    } else {
      assert (a + b)[0] == a[0] && (a + b)[1..] == a[1..] + b;
      CountConcat(a[1..], b, id);
    }
  }

  lemma {:induction false} CountHasId(ws: seq<Window>, id: U64)
    ensures Count(ws, id) > 0 <==> HasId(ws, id)
  {
    if ws != [] {
      HasIdCons(ws, id);
      CountHasId(ws[1..], id);
    }
  }

  lemma {:induction false} DistinctIffCounts(ws: seq<Window>)
    ensures DistinctIds(ws) <==> forall id :: Count(ws, id) <= 1
  {
    if ws != [] {
      var tail := ws[1..];
      DistinctIffCounts(tail);
      CountHasId(tail, ws[0].id);
      assert forall j | 1 <= j < |ws| :: ws[j] == tail[j - 1];
      assert DistinctIds(ws) <==> DistinctIds(tail) && !HasId(tail, ws[0].id) by {
        if DistinctIds(tail) && !HasId(tail, ws[0].id) {
          assert forall j | 0 <= j < |tail| :: tail[j].id != ws[0].id;
        }
      }
      assert Count(ws, ws[0].id) == 1 + Count(tail, ws[0].id);
      if DistinctIds(tail) && !HasId(tail, ws[0].id) {
        forall id ensures Count(ws, id) <= 1 { assert Count(tail, id) <= 1; }
      } else if !DistinctIds(tail) {
        var id :| Count(tail, id) > 1;
        assert Count(ws, id) > 1;
      }
    }
  }

  lemma CountSplit(ws: seq<Window>, i: nat, id: U64)
    requires i < |ws|
    ensures Count(ws, id) == Count(ws[..i], id) + (if ws[i].id == id then 1 else 0) + Count(ws[i + 1..], id)
  {
    assert ws == ws[..i] + ([ws[i]] + ws[i + 1..]);
    CountConcat(ws[..i], [ws[i]] + ws[i + 1..], id);
    CountConcat([ws[i]], ws[i + 1..], id);
  }

  lemma CountRemoveAt(ws: seq<Window>, i: nat, id: U64)
    requires i < |ws|
    ensures Count(ws, id) == Count(RemoveAt(ws, i), id) + (if ws[i].id == id then 1 else 0)
  {
    CountSplit(ws, i, id);
    CountConcat(ws[..i], ws[i + 1..], id);
  }

  lemma CountInsertAt(ws: seq<Window>, i: nat, w: Window, id: U64)
    requires i <= |ws|
    ensures Count(InsertAt(ws, i, w), id) == Count(ws, id) + (if w.id == id then 1 else 0)
  {
    assert ws == ws[..i] + ws[i..];
    CountConcat(ws[..i], ws[i..], id);
    CountConcat(ws[..i] + [w], ws[i..], id);
    CountConcat(ws[..i], [w], id);
  }

  lemma CountUpdate(ws: seq<Window>, i: nat, w: Window, id: U64)
    requires i < |ws| && ws[i].id == w.id
    ensures Count(ws[i := w], id) == Count(ws, id)
  {
    CountSplit(ws, i, id);
    CountSplit(ws[i := w], i, id);
    assert ws[i := w][..i] == ws[..i] && ws[i := w][i + 1..] == ws[i + 1..];
  }

  lemma CountPlace(current: seq<Window>, k: nat, w: Window, id: U64)
    requires k <= |current| && Place(current, k, w).Diffed?
    ensures Count(Place(current, k, w).current, id)
         == if w.id == id && Count(current, id) == 0 then 1 else Count(current, id)
  {
    CountHasId(current, w.id);
    match Position(current, w.id)
    case None => CountInsertAt(current, k, w, id);
    case Some(p) =>
      if p != k {
        CountRemoveAt(current, p, id);
        CountInsertAt(RemoveAt(current, p), k, current[p], id);
      }
      CountUpdate(MoveTo(current, p, k), k, w, id);
  }

  /** The second loop never changes how often an id occurs, except that it adds a missing one once. */
  lemma {:induction false} CountSettle(current: seq<Window>, k: nat, next: seq<Window>, id: U64)
    requires k <= |current| && k <= |next| && Settle(current, k, next).Diffed?
    ensures Count(Settle(current, k, next).current, id)
         == if Count(current, id) == 0 && HasId(next[k..], id) then 1 else Count(current, id)
    decreases |next| - k
  {
    if k < |next| {
      CountPlace(current, k, next[k], id);
      HasIdCons(next[k..], id);
      assert next[k..][1..] == next[k + 1..];
      CountSettle(Place(current, k, next[k]).current, k + 1, next, id);
    }
  }

  lemma {:induction false} CountKeep(ws: seq<Window>, other: seq<Window>, id: U64)
    ensures Count(Keep(ws, other), id) == if HasId(other, id) then Count(ws, id) else 0
  {
    if ws != [] {
      CountKeep(ws[1..], other, id);
      if HasId(other, ws[0].id) { assert Keep(ws, other)[1..] == Keep(ws[1..], other); }
    }
  }

  lemma DiffCounts(previous: seq<Window>, next: seq<Window>, id: U64)
    requires RunDiff(previous, next).Diffed? && HasId(next, id)
    ensures Count(RunDiff(previous, next).current, id) == if Count(previous, id) == 0 then 1 else Count(previous, id)
  {
    PruneKeeps(previous, |previous|, next);
    assert previous[..|previous|] == previous && previous[|previous|..] == [];
    var kept := Prune(previous, |previous|, next).current;
    assert kept == Keep(previous, next);
    assert next[0..] == next;
    CountSettle(kept, 0, next, id);
    CountKeep(previous, next, id);
  }

  /** The closing assertion, as a statement about one call. */
  predicate ClosingAssertionHolds(previous: seq<Window>, next: seq<Window>) {
    var o := RunDiff(previous, next);
    o.Diffed? && o.current == next
  }

  /** On every input the assertion can only hold when each id of `next` occurs there as often as in
      `previous`, or once if it is new. */
  lemma AssertionNeedsCounts(previous: seq<Window>, next: seq<Window>, id: U64)
    requires ClosingAssertionHolds(previous, next) && HasId(next, id)
    ensures Count(next, id) == if Count(previous, id) == 0 then 1 else Count(previous, id)
  {
    DiffCounts(previous, next, id);
  }

  /** Given a new list of distinct ids, the assertion holds if and only if no surviving id is repeated in
      the old one. */
  lemma AssertionExactForDistinctNext(previous: seq<Window>, next: seq<Window>)
    requires DistinctIds(next)
    ensures ClosingAssertionHolds(previous, next) <==> DistinctIds(Keep(previous, next))
  {
    if DistinctIds(Keep(previous, next)) { DiffIsScript(previous, next); }
    if ClosingAssertionHolds(previous, next) {
      DistinctIffCounts(next);
      forall id ensures Count(Keep(previous, next), id) <= 1 {
        CountKeep(previous, next, id);
        if HasId(next, id) { AssertionNeedsCounts(previous, next, id); assert Count(next, id) <= 1; }
      }
      DistinctIffCounts(Keep(previous, next));
    }
  }

  /** Given survivors of distinct ids, the assertion holds if and only if the new list has distinct ids. */
  lemma AssertionExactForDistinctSurvivors(previous: seq<Window>, next: seq<Window>)
    requires DistinctIds(Keep(previous, next))
    ensures ClosingAssertionHolds(previous, next) <==> DistinctIds(next)
  {
    if DistinctIds(next) { DiffIsScript(previous, next); }
    if ClosingAssertionHolds(previous, next) {
      DistinctIffCounts(Keep(previous, next));
      forall id ensures Count(next, id) <= 1 {
        CountHasId(next, id);
        CountKeep(previous, next, id);
        assert Count(Keep(previous, next), id) <= 1;
        if HasId(next, id) { AssertionNeedsCounts(previous, next, id); }
      }
      DistinctIffCounts(next);
    }
  }

  /** With repeated ids in both lists the counts do not suffice: a list compared with itself can end in
      another order. */
  lemma EqualCountsCanFail(a: Window, b: Window)
    requires a.id != b.id
    ensures var ws := [a, b, a]; RunDiff(ws, ws).Diffed? && RunDiff(ws, ws).current == [b, a, a] != ws
    ensures !ClosingAssertionHolds([a, b, a], [a, b, a])
  {
    var ws := [a, b, a];
    PruneNothing(ws, 3, ws);
    MovesFirst(ws, 0, 0, a);
    MovesFirst(ws, 1, 1, b);
    MovesFirst(ws, 0, 2, a);
    assert MoveTo(ws, 0, 2) == [b, a, a];
    assert Settle([b, a, a], 3, ws).Diffed? && Settle([b, a, a], 3, ws).current == [b, a, a];
    assert Settle(ws, 2, ws).Diffed? && Settle(ws, 2, ws).current == [b, a, a];
    assert Settle(ws, 1, ws).Diffed? && Settle(ws, 1, ws).current == [b, a, a];
    assert Settle(ws, 0, ws).Diffed? && Settle(ws, 0, ws).current == [b, a, a];
    assert [b, a, a][0] != ws[0];
  }

  /** Nor are the distinctness conditions necessary then: later moves can restore the order. */
  lemma RepeatedIdsCanSucceed(n: Window, d: Window)
    requires n.id != d.id
    ensures ClosingAssertionHolds([n, d, n], [n, n, d])
  {
    var previous, next, middle := [n, d, n], [n, n, d], [d, n, n];
    assert next[0] == n && next[2] == d;
    PruneNothing(previous, 3, next);
    MovesFirst(previous, 0, 0, n);
    MovesFirst(previous, 0, 1, n);
    assert MoveTo(previous, 0, 1) == middle;
    MovesFirst(middle, 0, 2, d);
    assert MoveTo(middle, 0, 2) == next;
    assert Settle(middle, 2, next).Diffed? && Settle(middle, 2, next).current == next;
    assert Settle(previous, 1, next).Diffed? && Settle(previous, 1, next).current == next;
  }

  lemma {:induction false} PruneNothing(current: seq<Window>, k: nat, next: seq<Window>)
    requires k <= |current| && forall i | 0 <= i < k :: HasId(next, current[i].id)
    ensures Prune(current, k, next) == Diffed(current, [])
  {
    if k > 0 { PruneNothing(current, k - 1, next); }
  }

  lemma MovesFirst(current: seq<Window>, p: nat, k: nat, w: Window)
    requires p < |current| && k < |current| && current[p] == w && forall j | 0 <= j < p :: current[j].id != w.id
    ensures Place(current, k, w).Diffed? && Place(current, k, w).current == MoveTo(current, p, k)
  {
    assert Position(current, w.id) == Some(p);
  }

  /** A repeated id makes the algorithm insert past the end of its list. */
  lemma RepeatedIdPanics(w: Window)
    ensures RunDiff([], [w, w]) == Panicked
  {
    var next := [w, w];
    assert Place([], 0, w) == Diffed([w], [Added(0, w)]) by { assert InsertAt([], 0, w) == [w]; }
    assert [w][0].id == w.id;
    assert Place([w], 1, w) == Panicked;
    assert Settle([w], 1, next) == Panicked;
    assert Settle([], 0, next) == Panicked;
  }
}
