/** Attention rules and their first-match resolution. */
module Rules {
  import opened Base

  /** A fraction of the output width. */
  type Proportion = r: real | 0.0 < r <= 1.0 witness 1.0

  datatype WidthPolicy = Width(width: Proportion) | KeepWidth

  datatype AttentionPolicy = AttentionPolicy(focused: WidthPolicy, unfocused: WidthPolicy)

  function WidthFor(policy: AttentionPolicy, focused: bool): WidthPolicy {
    if focused then policy.focused else policy.unfocused
  }

  /** A compiled regular expression, known only by what it matches. */
  type Pattern = string -> bool

  datatype AttentionRule = AttentionRule(appId: Option<Pattern>, title: Option<Pattern>, policy: AttentionPolicy)

  type Config = seq<AttentionRule>

  datatype WindowIdentity = WindowIdentity(appId: Option<string>, title: Option<string>)

  /** A missing pattern accepts everything; a present one needs a value to match. */
  predicate MatchesOptionalPattern(pattern: Option<Pattern>, value: Option<string>) {
    pattern.Some? ==> value.Some? && pattern.value(value.value)
  }

  predicate Matches(rule: AttentionRule, window: WindowIdentity) {
    MatchesOptionalPattern(rule.appId, window.appId) && MatchesOptionalPattern(rule.title, window.title)
  }

  /** The index of the first matching rule; none exactly when no rule matches. */
  function Resolve(config: Config, window: WindowIdentity): (r: Option<nat>)
    ensures r.Some? ==> r.value < |config| && Matches(config[r.value], window)
                        && forall i | 0 <= i < r.value :: !Matches(config[i], window)
    ensures r.None? ==> forall i | 0 <= i < |config| :: !Matches(config[i], window)
  {
    ResolveFrom(config, window, 0)
  }

  function ResolveFrom(config: Config, window: WindowIdentity, start: nat): (r: Option<nat>)
    requires start <= |config|
    ensures r.Some? ==> start <= r.value < |config| && Matches(config[r.value], window)
                        && forall i | start <= i < r.value :: !Matches(config[i], window)
    ensures r.None? ==> forall i | start <= i < |config| :: !Matches(config[i], window)
    decreases |config| - start
  {
    if start == |config| then None
    else if Matches(config[start], window) then Some(start)
    else ResolveFrom(config, window, start + 1)
  }

  // ---------------------------------------------------------------- over the fields

  /** Each pattern the rule has must find a value, and one that it matches. */
  ghost predicate Fits(rule: AttentionRule, appId: Option<string>, title: Option<string>) {
    && (rule.appId.None? || (appId.Some? && rule.appId.value(appId.value)))
    && (rule.title.None? || (title.Some? && rule.title.value(title.value)))
  }

  /** The rule at this index is the first to fit. */
  ghost predicate FitsFirst(config: Config, appId: Option<string>, title: Option<string>, index: nat) {
    index < |config| && Fits(config[index], appId, title) && forall i | 0 <= i < index :: !Fits(config[i], appId, title)
  }

  ghost predicate FitsNone(config: Config, appId: Option<string>, title: Option<string>) {
    forall r | r in config :: !Fits(r, appId, title)
  }

  /** Resolution means first fit: for every index and every window. */
  lemma ResolvesToFirstFit(config: Config, appId: Option<string>, title: Option<string>, index: nat)
    ensures var r := Resolve(config, WindowIdentity(appId, title));
            && (r == Some(index) <==> FitsFirst(config, appId, title, index))
            && (r == None <==> FitsNone(config, appId, title))
  {
    var w := WindowIdentity(appId, title);
    assert forall i | 0 <= i < |config| :: Fits(config[i], appId, title) <==> Matches(config[i], w);
  }
}
