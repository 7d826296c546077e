/** The coalescing queue of pending resizes. */
module Executor {
  import opened Base
  import opened Rules
  import opened Ordered
  import opened Transition

  datatype ResizeAction = ResizeAction(generation: U64, windowId: U64, state: FocusState, width: Proportion)

  datatype Queue = Queue(latest: map<U64, U64>, pending: map<U64, ResizeAction>)

  const EMPTY := Queue(map[], map[])

  // ---------------------------------------------------------------- specification

  function LatestOrZero(q: Queue, id: U64): U64 {
    if id in q.latest then q.latest[id] else 0
  }

  function IngestOne(q: Queue, generation: U64, d: FocusDecision): (r: Queue)
    ensures Filed(q.pending) ==> Filed(r.pending)
  {
    if generation < LatestOrZero(q, d.windowId) then q
    else
      Queue(q.latest[d.windowId := generation],
            match d.outcome
            case Resize(_, width) => q.pending[d.windowId := ResizeAction(generation, d.windowId, d.state, width)]
            case _ => q.pending - {d.windowId})
  }

  function IngestAll(q: Queue, generation: U64, ds: seq<FocusDecision>): (r: Queue)
    ensures Filed(q.pending) ==> Filed(r.pending)
  {
    if ds == [] then q else IngestOne(IngestAll(q, generation, ds[..|ds| - 1]), generation, ds[|ds| - 1])
  }

  function Ingested(q: Queue, t: FocusTransition): Queue { IngestAll(q, t.generation, t.decisions) }

  function Forgotten(q: Queue, id: U64): Queue { Queue(q.latest - {id}, q.pending - {id}) }

  /** The order in which pending actions run: by generation, then focused before unfocused; among equals
      the last one visited, which is the one with the highest window id. */
  predicate Before(a: ResizeAction, b: ResizeAction) {
    || b.generation < a.generation
    || (b.generation == a.generation && a.state.Focused? && b.state.Unfocused?)
    || (b.generation == a.generation && a.state == b.state && b.windowId < a.windowId)
  }

  /** The action to run next comes before every other pending one. */
  ghost predicate IsNext(pending: map<U64, ResizeAction>, id: U64) {
    id in pending && forall other | other in pending && other != id :: Before(pending[id], pending[other])
  }

  /** Every action is filed under its own window. */
  ghost predicate Filed(pending: map<U64, ResizeAction>) {
    forall id | id in pending :: pending[id].windowId == id
  }

  // ---------------------------------------------------------------- the imperative queue

  class PendingResizes {
    var latestGeneration: map<U64, U64>
    var pending: map<U64, ResizeAction>

    ghost function State(): Queue reads this { Queue(latestGeneration, pending) }

    ghost predicate Valid() reads this { Filed(pending) }

    constructor ()
      ensures State() == EMPTY && Valid()
    {
      latestGeneration, pending := map[], map[];
    }

    method Ingest(transition: FocusTransition)
      requires Valid()
      modifies this
      ensures Valid() && State() == Ingested(old(State()), transition)
    {
      ghost var before := State();
      var ds := transition.decisions;
      for i := 0 to |ds|
        invariant Valid() && State() == IngestAll(before, transition.generation, ds[..i])
      {
        assert ds[..i + 1][..i] == ds[..i];
        var decision := ds[i];
        var latest := if decision.windowId in latestGeneration then latestGeneration[decision.windowId] else 0;
        if transition.generation < latest {
          continue;
        }
        latestGeneration := latestGeneration[decision.windowId := transition.generation];
        match decision.outcome {
          case Resize(_, width) =>
            pending := pending[decision.windowId :=
              ResizeAction(transition.generation, decision.windowId, decision.state, width)];
          case _ =>
            pending := pending - {decision.windowId};
        }
      }
      assert ds[..|ds|] == ds;
    }

    method PopNext() returns (popped: Option<ResizeAction>)
      requires Valid()
      modifies this`pending
      ensures Valid()
      ensures popped.None? ==> old(pending) == map[] && pending == map[]
      ensures popped.Some? ==> var id := popped.value.windowId;
                               IsNext(old(pending), id) && popped.value == old(pending)[id]
                               && pending == old(pending) - {id}
    {
      var ids := Ascending(pending.Keys);
      if ids == [] {
        assert pending.Keys == {};
        return None;
      }
      var best := pending[ids[0]];
      ghost var at := 0;
      for i := 1 to |ids|
        invariant pending == old(pending) && at < i && best == pending[ids[at]]
        invariant forall j | 0 <= j < i && j != at :: Before(best, pending[ids[j]])
      {
        var candidate := pending[ids[i]];
        assert best.windowId < candidate.windowId;
        if !KeyBelow(candidate, best) {
          best, at := candidate, i;
        }
      }
      forall other | other in pending && other != ids[at] ensures Before(pending[ids[at]], pending[other]) {
        var j :| 0 <= j < |ids| && ids[j] == other;
      }
      popped := Some(best);
      pending := pending - {best.windowId};
    }

    method ForgetWindow(id: U64)
      requires Valid()
      modifies this
      ensures Valid() && State() == Forgotten(old(State()), id)
    {
      pending := pending - {id};
      latestGeneration := latestGeneration - {id};
    }

    method Reset()
      modifies this
      ensures Valid() && State() == EMPTY && pending == map[] && latestGeneration == map[]
    {
      pending := map[];
      latestGeneration := map[];
    }
  }

  /** Strictly smaller `(generation, focused)` key: `max_by_key` keeps the later of two equal keys. */
  predicate KeyBelow(a: ResizeAction, b: ResizeAction) {
    a.generation < b.generation || (a.generation == b.generation && a.state.Unfocused? && b.state.Focused?)
  }

  // ---------------------------------------------------------------- last writer wins

  function PendingAt(q: Queue, id: U64): Option<ResizeAction> {
    if id in q.pending then Some(q.pending[id]) else None
  }

  function LatestAt(q: Queue, id: U64): Option<U64> {
    if id in q.latest then Some(q.latest[id]) else None
  }

  /** The action a decision asks for. */
  function ActionOf(generation: U64, d: FocusDecision): Option<ResizeAction> {
    match d.outcome
    case Resize(_, width) => Some(ResizeAction(generation, d.windowId, d.state, width))
    case _ => None
  }

  /** What one transition does to one window: nothing if it is older than what the queue has seen of that
      window or does not mention it, and otherwise exactly its last decision about it. */
  lemma {:induction false} IngestLookup(q: Queue, generation: U64, ds: seq<FocusDecision>, id: U64)
    ensures var q' := IngestAll(q, generation, ds);
            match LastDecision(ds, id)
            case None => PendingAt(q', id) == PendingAt(q, id) && LatestAt(q', id) == LatestAt(q, id)
            case Some(d) =>
              if generation < LatestOrZero(q, id)
              then PendingAt(q', id) == PendingAt(q, id) && LatestAt(q', id) == LatestAt(q, id)
              else PendingAt(q', id) == ActionOf(generation, d) && LatestAt(q', id) == Some(generation)
  {
    if ds != [] { IngestLookup(q, generation, ds[..|ds| - 1], id); }
  }

  function IngestMany(q: Queue, ts: seq<FocusTransition>): Queue {
    if ts == [] then q else Ingested(IngestMany(q, ts[..|ts| - 1]), ts[|ts| - 1])
  }

  predicate Mentions(t: FocusTransition, id: U64) {
    LastDecision(t.decisions, id).Some?
  }

  /** The transition of the highest generation among those that mention the window. */
  ghost predicate Wins(ts: seq<FocusTransition>, id: U64, t: FocusTransition) {
    t in ts && Mentions(t, id) && forall other | other in ts && Mentions(other, id) :: other.generation <= t.generation
  }

  ghost predicate DistinctGenerations(ts: seq<FocusTransition>) {
    forall i, j | 0 <= i < j < |ts| :: ts[i].generation != ts[j].generation
  }

  /** Transitions up to generation `g` raise a window's latest generation at most to `g`, and leave it alone
      if it is already higher. */
  lemma {:induction false} LatestBounded(q: Queue, ts: seq<FocusTransition>, id: U64, g: U64)
    requires forall t | t in ts && Mentions(t, id) :: t.generation <= g
    ensures var q' := IngestMany(q, ts);
            if g < LatestOrZero(q, id) then PendingAt(q', id) == PendingAt(q, id) && LatestAt(q', id) == LatestAt(q, id)
            else LatestOrZero(q', id) <= g
  {
    if ts != [] {
      var front, last := ts[..|ts| - 1], ts[|ts| - 1];
      assert Mentions(last, id) ==> last.generation <= g;
      LatestBounded(q, front, id, g);
      var mid := IngestMany(q, front);
      IngestLookup(mid, last.generation, last.decisions, id);
      assert IngestMany(q, ts) == IngestAll(mid, last.generation, last.decisions);
      assert g < LatestOrZero(q, id) ==> LatestOrZero(mid, id) == LatestOrZero(q, id);
    }
  }

  /** Each window ends up with what the winning transition says about it, unless the queue had already seen
      a newer one. */
  lemma {:induction false} WinnerDecides(q: Queue, ts: seq<FocusTransition>, id: U64, t: FocusTransition)
    requires DistinctGenerations(ts) && Wins(ts, id, t)
    ensures var q' := IngestMany(q, ts);
            if t.generation < LatestOrZero(q, id) then PendingAt(q', id) == PendingAt(q, id) && LatestAt(q', id) == LatestAt(q, id)
            else LatestAt(q', id) == Some(t.generation)
                 && PendingAt(q', id) == ActionOf(t.generation, LastDecision(t.decisions, id).value)
  {
    var front, last := ts[..|ts| - 1], ts[|ts| - 1];
    assert forall x :: x in ts <==> x in front || x == last;
    IngestLookup(IngestMany(q, front), last.generation, last.decisions, id);
    if t == last {
      LatestBounded(q, front, id, t.generation);
    } else {
      assert Wins(front, id, t);
      WinnerDecides(q, front, id, t);
      var i :| 0 <= i < |front| && front[i] == t;
      assert ts[i].generation != ts[|ts| - 1].generation;
      assert Mentions(last, id) ==> last.generation < t.generation;
    }
  }

  lemma {:induction false} Unmentioned(q: Queue, ts: seq<FocusTransition>, id: U64)
    requires forall t | t in ts :: !Mentions(t, id)
    ensures PendingAt(IngestMany(q, ts), id) == PendingAt(q, id) && LatestAt(IngestMany(q, ts), id) == LatestAt(q, id)
  {
    if ts != [] {
      var front, last := ts[..|ts| - 1], ts[|ts| - 1];
      assert !Mentions(last, id);
      Unmentioned(q, front, id);
      IngestLookup(IngestMany(q, front), last.generation, last.decisions, id);
    }
  }

  lemma {:induction false} WinnerExists(ts: seq<FocusTransition>, id: U64)
    requires exists t :: t in ts && Mentions(t, id)
    ensures exists t :: Wins(ts, id, t)
  {
    var front, last := ts[..|ts| - 1], ts[|ts| - 1];
    assert forall x :: x in ts <==> x in front || x == last;
    if exists t :: t in front && Mentions(t, id) {
      WinnerExists(front, id);
      var t :| Wins(front, id, t);
      assert Wins(ts, id, if Mentions(last, id) && t.generation < last.generation then last else t);
    } else {
      assert Wins(ts, id, last);
    }
  }

  /** Whatever the queue holds, the order in which transitions of distinct generations arrive does not
      matter, as long as nothing is popped between them. */
  lemma IngestOrderIrrelevant(start: Queue, a: seq<FocusTransition>, b: seq<FocusTransition>)
    requires DistinctGenerations(a) && DistinctGenerations(b) && multiset(a) == multiset(b)
    ensures IngestMany(start, a) == IngestMany(start, b)
  {
    var p, q := IngestMany(start, a), IngestMany(start, b);
    assert forall t :: t in a <==> t in b by { assert forall t :: t in a <==> t in multiset(a); }
    forall id: U64 ensures LatestAt(p, id) == LatestAt(q, id) && PendingAt(p, id) == PendingAt(q, id) {
      if exists t :: t in a && Mentions(t, id) {
        WinnerExists(a, id);
        var t :| Wins(a, id, t);
        WinnerDecides(start, a, id, t);
        assert Wins(b, id, t);
        WinnerDecides(start, b, id, t);
      } else {
        Unmentioned(start, a, id);
        Unmentioned(start, b, id);
      }
    }
    SameLookups(p, q);
  }

  lemma SameLookups(p: Queue, q: Queue)
    requires forall id: U64 :: LatestAt(p, id) == LatestAt(q, id) && PendingAt(p, id) == PendingAt(q, id)
    ensures p == q
  {
    forall id: U64 ensures (id in p.latest <==> id in q.latest) && (id in p.pending <==> id in q.pending) {
      assert LatestAt(p, id) == LatestAt(q, id) && PendingAt(p, id) == PendingAt(q, id);
    }
    assert p.latest == q.latest && p.pending == q.pending by {
      forall id | id in p.latest ensures p.latest[id] == q.latest[id] { assert LatestAt(p, id) == LatestAt(q, id); }
      forall id | id in p.pending ensures p.pending[id] == q.pending[id] { assert PendingAt(p, id) == PendingAt(q, id); }
    }
  }

  // ---------------------------------------------------------------- draining

  lemma {:induction false} NextExists(pending: map<U64, ResizeAction>)
    requires pending != map[] && Filed(pending)
    ensures exists id :: IsNext(pending, id)
    decreases |pending|
  {
    var k :| k in pending;
    var rest := pending - {k};
    if rest == map[] {
      assert IsNext(pending, k) by { assert forall id | id in pending && id != k :: id in rest; }
    } else {
      assert |rest| < |pending| by { assert rest.Keys == pending.Keys - {k}; }
      NextExists(rest);
      var m :| IsNext(rest, m);
      assert forall id | id in pending && id != k :: id in rest && rest[id] == pending[id];
      assert IsNext(pending, if Before(pending[k], pending[m]) then k else m);
    }
  }

  lemma NextUnique(pending: map<U64, ResizeAction>, a: U64, b: U64)
    requires IsNext(pending, a) && IsNext(pending, b)
    ensures a == b
  {
  }

  function NextId(pending: map<U64, ResizeAction>): (id: U64)
    requires pending != map[] && Filed(pending)
    ensures IsNext(pending, id)
  {
    NextExists(pending);
    assert forall a, b | IsNext(pending, a) && IsNext(pending, b) :: a == b by {
      forall a, b | IsNext(pending, a) && IsNext(pending, b) ensures a == b { NextUnique(pending, a, b); }
    }
    var ids := pending.Keys;
    var id :| id in ids && (forall other | other in ids && other != id :: Before(pending[id], pending[other]));
    id
  }

  /** The actions that repeated popping returns. */
  function Drain(pending: map<U64, ResizeAction>): seq<ResizeAction>
    requires Filed(pending)
    decreases |pending.Keys|
  {
    if pending == map[] then []
    else
      var id := NextId(pending);
      assert (pending - {id}).Keys == pending.Keys - {id};
      [pending[id]] + Drain(pending - {id})
  }

  /** Draining returns every pending action exactly once, each before all that follow it, so generations
      never rise and within one generation focused windows come first. */
  lemma {:induction false} DrainIsOrderedAndComplete(pending: map<U64, ResizeAction>)
    requires Filed(pending)
    ensures var ds := Drain(pending);
            && |ds| == |pending.Keys|
            && (forall a :: a in ds <==> a.windowId in pending && pending[a.windowId] == a)
            && forall i, j | 0 <= i < j < |ds| :: Before(ds[i], ds[j]) && ds[i].windowId != ds[j].windowId
    ensures forall i, j | 0 <= i < j < |Drain(pending)| ::
              var a, b := Drain(pending)[i], Drain(pending)[j];
              && a.generation >= b.generation
              && (a.generation == b.generation && b.state.Focused? ==> a.state.Focused?)
              && (a.generation == b.generation && a.state == b.state ==> a.windowId > b.windowId)
    decreases |pending.Keys|
  {
    if pending == map[] {
      assert pending.Keys == {};
    } else {
      var id := NextId(pending);
      var rest := pending - {id};
      assert rest.Keys == pending.Keys - {id};
      DrainIsOrderedAndComplete(rest);
      assert |rest.Keys| == |pending.Keys| - 1;
      NextFirst(pending, id, Drain(rest));
    }
  }

  lemma NextFirst(pending: map<U64, ResizeAction>, id: U64, rest: seq<ResizeAction>)
    requires Filed(pending) && IsNext(pending, id)
    requires forall a :: a in rest <==> a.windowId in pending - {id} && pending[a.windowId] == a
    requires forall i, j | 0 <= i < j < |rest| :: Before(rest[i], rest[j]) && rest[i].windowId != rest[j].windowId
    ensures var ds := [pending[id]] + rest;
            && (forall a :: a in ds <==> a.windowId in pending && pending[a.windowId] == a)
            && forall i, j | 0 <= i < j < |ds| :: Before(ds[i], ds[j]) && ds[i].windowId != ds[j].windowId
  {
  }
}
