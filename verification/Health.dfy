/** The one-shot health report over a compositor snapshot. */
module Health {
  import opened Base
  import opened Rules
  import opened Niri
  import Transition

  datatype FocusedWindowHealth =
    FocusedWindowHealth(id: U64, appId: Option<string>, title: Option<string>, matchedRule: Option<nat>, isFloating: bool)

  datatype HealthReport =
    HealthReport(totalWindows: nat, matchedTiledWindows: nat, unmatchedTiledWindows: nat, floatingWindows: nat,
                 matchedFloatingWindows: nat, matchesPerRule: seq<nat>, focused: Option<FocusedWindowHealth>)

  function ResolveRule(config: Config, w: NiriWindow): Option<nat> {
    Resolve(config, WindowIdentity(w.appId, w.title))
  }

  function HealthOf(config: Config, w: NiriWindow): FocusedWindowHealth {
    FocusedWindowHealth(w.id, w.appId, w.title, ResolveRule(config, w), w.isFloating)
  }

  /** The ways a window can be counted; a tiled one with the rule that claims it. */
  datatype Class = Tiled(rule: nat) | UnmatchedTiled | MatchedFloating | UnmatchedFloating

  function ClassOf(config: Config, w: NiriWindow): Class {
    match (w.isFloating, ResolveRule(config, w))
    case (true, Some(_)) => MatchedFloating
    case (true, None) => UnmatchedFloating
    case (false, Some(i)) => Tiled(i)
    case (false, None) => UnmatchedTiled
  }

  /** How many windows belong to a class. */
  function CountClass(config: Config, ws: seq<NiriWindow>, c: Class): nat {
    if ws == [] then 0
    else CountClass(config, ws[..|ws| - 1], c) + if ClassOf(config, ws[|ws| - 1]) == c then 1 else 0
  }

  function CountTiled(config: Config, ws: seq<NiriWindow>): nat {
    if ws == [] then 0
    else CountTiled(config, ws[..|ws| - 1]) + if ClassOf(config, ws[|ws| - 1]).Tiled? then 1 else 0
  }

  function Sum(s: seq<nat>): nat {
    if s == [] then 0 else Sum(s[..|s| - 1]) + s[|s| - 1]
  }

  lemma {:induction false} SumBump(s: seq<nat>, i: nat)
    requires i < |s|
    ensures Sum(s[i := s[i] + 1]) == Sum(s) + 1
  {
    var t := s[i := s[i] + 1];
    if i == |s| - 1 {
      assert t[..|t| - 1] == s[..|s| - 1];
    } else {
      assert t[..|t| - 1] == s[..|s| - 1][i := s[i] + 1];
      SumBump(s[..|s| - 1], i);
    }
  }

  lemma {:induction false} SumZeros(s: seq<nat>)
    requires forall i | 0 <= i < |s| :: s[i] == 0
    ensures Sum(s) == 0
  {
    if s != [] { SumZeros(s[..|s| - 1]); }
  }

  /** The classes partition the windows. */
  lemma {:induction false} ClassesCover(config: Config, ws: seq<NiriWindow>)
    ensures CountTiled(config, ws) + CountClass(config, ws, UnmatchedTiled)
            + CountClass(config, ws, MatchedFloating) + CountClass(config, ws, UnmatchedFloating) == |ws|
  {
    if ws != [] { ClassesCover(config, ws[..|ws| - 1]); }
  }

  /** The windows claimed by the single rules are the matched tiled ones, each counted once. */
  lemma {:induction false} RuleCountsAddUp(config: Config, ws: seq<NiriWindow>, counts: seq<nat>)
    requires |counts| == |config| && forall i | 0 <= i < |config| :: counts[i] == CountClass(config, ws, Tiled(i))
    ensures Sum(counts) == CountTiled(config, ws)
    decreases |ws|
  {
    if ws == [] {
      SumZeros(counts);
    } else {
      var front := ws[..|ws| - 1];
      var earlier := seq(|config|, i requires 0 <= i < |config| => CountClass(config, front, Tiled(i)));
      RuleCountsAddUp(config, front, earlier);
      match ClassOf(config, ws[|ws| - 1])
      case Tiled(i) =>
        assert counts == earlier[i := earlier[i] + 1];
        SumBump(earlier, i);
      case _ => assert counts == earlier;
    }
  }

  // ---------------------------------------------------------------- over the windows themselves

  /** The positions of the windows that float or not, and that some rule fits or none does. */
  ghost function Positions(config: Config, ws: seq<NiriWindow>, floating: bool, matched: bool): set<nat> {
    set i: nat | i < |ws| && ws[i].isFloating == floating && FitsNone(config, ws[i].appId, ws[i].title) == !matched
  }

  /** The positions of the tiled windows that this rule is the first to fit. */
  ghost function ClaimedBy(config: Config, ws: seq<NiriWindow>, rule: nat): set<nat> {
    set i: nat | i < |ws| && !ws[i].isFloating && FitsFirst(config, ws[i].appId, ws[i].title, rule)
  }

  ghost function InClass(config: Config, ws: seq<NiriWindow>, c: Class): set<nat> {
    set i: nat | i < |ws| && ClassOf(config, ws[i]) == c
  }

  ghost function InTiled(config: Config, ws: seq<NiriWindow>): set<nat> {
    set i: nat | i < |ws| && ClassOf(config, ws[i]).Tiled?
  }

  lemma {:induction false} ClassCountsPositions(config: Config, ws: seq<NiriWindow>, c: Class)
    ensures CountClass(config, ws, c) == |InClass(config, ws, c)|
  {
    if ws != [] {
      var front, last := ws[..|ws| - 1], |ws| - 1;
      ClassCountsPositions(config, front, c);
      OneMorePosition(InClass(config, front, c), InClass(config, ws, c), last, ClassOf(config, ws[last]) == c);
    }
  }

  lemma {:induction false} TiledCountsPositions(config: Config, ws: seq<NiriWindow>)
    ensures CountTiled(config, ws) == |InTiled(config, ws)|
  {
    if ws != [] {
      var front, last := ws[..|ws| - 1], |ws| - 1;
      TiledCountsPositions(config, front);
      OneMorePosition(InTiled(config, front), InTiled(config, ws), last, ClassOf(config, ws[last]).Tiled?);
    }
  }

  lemma OneMorePosition(before: set<nat>, after: set<nat>, last: nat, added: bool)
    requires forall i | i in before :: i < last
    requires forall i: nat :: i in after <==> i in before || (i == last && added)
    ensures |after| == |before| + if added then 1 else 0
  {
    assert after == if added then before + {last} else before;
  }

  /** What the class of a window means. */
  lemma ClassExactly(config: Config, w: NiriWindow, i: nat)
    ensures var none := FitsNone(config, w.appId, w.title);
            && (ClassOf(config, w) == Tiled(i) <==> !w.isFloating && FitsFirst(config, w.appId, w.title, i))
            && (ClassOf(config, w).Tiled? <==> !w.isFloating && !none)
            && (ClassOf(config, w) == UnmatchedTiled <==> !w.isFloating && none)
            && (ClassOf(config, w) == MatchedFloating <==> w.isFloating && !none)
            && (ClassOf(config, w) == UnmatchedFloating <==> w.isFloating && none)
  {
    ResolvesToFirstFit(config, w.appId, w.title, i);
  }

  lemma ClassesArePositions(config: Config, ws: seq<NiriWindow>)
    ensures InTiled(config, ws) == Positions(config, ws, false, true)
    ensures InClass(config, ws, UnmatchedTiled) == Positions(config, ws, false, false)
    ensures InClass(config, ws, MatchedFloating) == Positions(config, ws, true, true)
    ensures InClass(config, ws, UnmatchedFloating) == Positions(config, ws, true, false)
  {
    forall i: nat | i < |ws|
      ensures var w := ws[i];
              var none := FitsNone(config, w.appId, w.title);
              && (ClassOf(config, w).Tiled? <==> !w.isFloating && !none)
              && (ClassOf(config, w) == UnmatchedTiled <==> !w.isFloating && none)
              && (ClassOf(config, w) == MatchedFloating <==> w.isFloating && !none)
              && (ClassOf(config, w) == UnmatchedFloating <==> w.isFloating && none)
    {
      ClassExactly(config, ws[i], 0);
    }
  }

  lemma RuleClassIsClaim(config: Config, ws: seq<NiriWindow>, rule: nat)
    ensures InClass(config, ws, Tiled(rule)) == ClaimedBy(config, ws, rule)
  {
    forall i: nat | i < |ws|
      ensures ClassOf(config, ws[i]) == Tiled(rule)
              <==> !ws[i].isFloating && FitsFirst(config, ws[i].appId, ws[i].title, rule)
    {
      ClassExactly(config, ws[i], rule);
    }
  }

  /** The four numbers of the report and those per rule count exactly the windows they name. */
  ghost predicate Counts(config: Config, ws: seq<NiriWindow>, r: HealthReport) {
    && r.totalWindows == |ws|
    && r.matchedTiledWindows == |Positions(config, ws, false, true)|
    && r.unmatchedTiledWindows == |Positions(config, ws, false, false)|
    && r.matchedFloatingWindows == |Positions(config, ws, true, true)|
    && r.floatingWindows == |set i: nat | i < |ws| && ws[i].isFloating|
    && |r.matchesPerRule| == |config|
    && forall k | 0 <= k < |config| :: r.matchesPerRule[k] == |ClaimedBy(config, ws, k)|
  }

  lemma CountsFromClasses(config: Config, ws: seq<NiriWindow>, r: HealthReport)
    requires r.totalWindows == |ws| && |r.matchesPerRule| == |config|
    requires forall i | 0 <= i < |config| :: r.matchesPerRule[i] == CountClass(config, ws, Tiled(i))
    requires r.matchedTiledWindows == CountTiled(config, ws)
    requires r.unmatchedTiledWindows == CountClass(config, ws, UnmatchedTiled)
    requires r.matchedFloatingWindows == CountClass(config, ws, MatchedFloating)
    requires r.floatingWindows == r.matchedFloatingWindows + CountClass(config, ws, UnmatchedFloating)
    ensures Counts(config, ws, r)
  {
    ClassesArePositions(config, ws);
    TiledCountsPositions(config, ws);
    ClassCountsPositions(config, ws, UnmatchedTiled);
    ClassCountsPositions(config, ws, MatchedFloating);
    ClassCountsPositions(config, ws, UnmatchedFloating);
    var matched, unmatched := Positions(config, ws, true, true), Positions(config, ws, true, false);
    assert (set i: nat | i < |ws| && ws[i].isFloating) == matched + unmatched && matched !! unmatched;
    forall k | 0 <= k < |config| ensures r.matchesPerRule[k] == |ClaimedBy(config, ws, k)| {
      ClassCountsPositions(config, ws, Tiled(k));
      RuleClassIsClaim(config, ws, k);
    }
  }

  /** The details of a window and the rule that fits it first. */
  ghost predicate Describes(config: Config, w: NiriWindow, h: FocusedWindowHealth) {
    && h.id == w.id && h.appId == w.appId && h.title == w.title && h.isFloating == w.isFloating
    && match h.matchedRule
       case Some(i) => FitsFirst(config, w.appId, w.title, i)
       case None => FitsNone(config, w.appId, w.title)
  }

  /** Conservation: every window is counted in exactly one of matched tiled, unmatched tiled and floating; the
      per-rule counts add up to the matched tiled windows; each number counts exactly the windows it names, and
      the focused window, if there is one, is the one described. A second focused window rejects the snapshot. */
  method FromWindows(config: Config, ws: seq<NiriWindow>) returns (result: Result<HealthReport, AdapterError>)
    ensures result.Err? <==> TwoFocused(ws)
    ensures result.Err? ==> result == Err(MultipleFocusedWindows(FocusedIds(ws)))
    ensures result.Ok? ==> var r := result.value;
      && r.matchedTiledWindows + r.unmatchedTiledWindows + r.floatingWindows == |ws|
      && Sum(r.matchesPerRule) == r.matchedTiledWindows
      && Counts(config, ws, r)
      && (forall w | w in ws && w.isFocused :: r.focused.Some? && Describes(config, w, r.focused.value))
      && ((forall w | w in ws :: !w.isFocused) ==> r.focused.None?)
  {
    TwoFocusedExactly(ws);
    var focused := FocusedIds(ws);
    if |focused| > 1 {
      return Err(MultipleFocusedWindows(focused));
    }
    var matchesPerRule := new nat[|config|](_ => 0);
    var matchedTiled, unmatchedTiled, floating, matchedFloating := 0, 0, 0, 0;
    for n := 0 to |ws|
      invariant matchedTiled == CountTiled(config, ws[..n])
      invariant unmatchedTiled == CountClass(config, ws[..n], UnmatchedTiled)
      invariant matchedFloating == CountClass(config, ws[..n], MatchedFloating)
      invariant floating == matchedFloating + CountClass(config, ws[..n], UnmatchedFloating)
      invariant forall i | 0 <= i < |config| :: matchesPerRule[i] == CountClass(config, ws[..n], Tiled(i))
    {
      assert ws[..n + 1][..n] == ws[..n];
      var matchedRule := ResolveRule(config, ws[n]);
      if ws[n].isFloating {
        floating := floating + 1;
        if matchedRule.Some? {
          matchedFloating := matchedFloating + 1;
        }
      } else if matchedRule.Some? {
        matchedTiled := matchedTiled + 1;
        matchesPerRule[matchedRule.value] := matchesPerRule[matchedRule.value] + 1;
      } else {
        unmatchedTiled := unmatchedTiled + 1;
      }
    }
    assert ws[..|ws|] == ws;
    ClassesCover(config, ws);
    RuleCountsAddUp(config, ws, matchesPerRule[..]);
    var health := FirstFocused(config, ws);
    var report := HealthReport(|ws|, matchedTiled, unmatchedTiled, floating, matchedFloating, matchesPerRule[..], health);
    CountsFromClasses(config, ws, report);
    result := Ok(report);
  }

  method FirstFocused(config: Config, ws: seq<NiriWindow>) returns (health: Option<FocusedWindowHealth>)
    requires !TwoFocused(ws)
    ensures forall w | w in ws && w.isFocused :: health.Some? && Describes(config, w, health.value)
    ensures (forall w | w in ws :: !w.isFocused) ==> health.None?
  {
    for n := 0 to |ws|
      invariant forall i | 0 <= i < n :: !ws[i].isFocused
    {
      if ws[n].isFocused {
        health := Some(HealthOf(config, ws[n]));
        HealthDescribes(config, ws[n]);
        assert ws[n] in ws;
        forall w | w in ws && w.isFocused ensures w == ws[n] {
          var i :| 0 <= i < |ws| && ws[i] == w;
          assert i == n;
        }
        return;
      }
    }
    health := None;
  }

  lemma HealthDescribes(config: Config, w: NiriWindow)
    ensures Describes(config, w, HealthOf(config, w))
  {
    var rule := ResolveRule(config, w);
    ResolvesToFirstFit(config, w.appId, w.title, if rule.Some? then rule.value else 0);
  }

  /** The report and the engine agree: a tiled window is counted under a rule if and only if that rule's policy is
      the one by which the engine decides about it. */
  lemma TiledMeansFirstMatch(config: Config, w: NiriWindow, i: nat, focused: bool)
    ensures var e := Transition.Engine(config, map[w.id := RecordOf(w)], None, 0);
            ClassOf(config, w) == Tiled(i) <==> exists policy :: Transition.Prescribes(e, w.id, focused, i, policy)
  {
    var e := Transition.Engine(config, map[w.id := RecordOf(w)], None, 0);
    ClassExactly(config, w, i);
    if FitsFirst(config, w.appId, w.title, i) && !w.isFloating {
      assert Transition.Prescribes(e, w.id, focused, i,
               if focused then config[i].policy.focused else config[i].policy.unfocused);
    }
  }
}
