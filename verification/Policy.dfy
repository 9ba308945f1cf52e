/** Policy rules: which rule decides a location's comparability, lifetime, severity
    and suppression. */
module Policy {
  import opened Core
  import opened Values
  import opened Domain

  datatype Selector = Selector(target: Option<Text>, objectId: Option<Text>, prefix: Option<Path>)
  {
    predicate Matches(targetId: Text, item: Text, path: Path) {
      && (target.Some? ==> target.value == targetId)
      && (objectId.Some? ==> objectId.value == item)
      && (prefix.Some? ==> prefix.value <= path)
    }

    /** No broader than the other selector. */
    predicate IsSubsetOf(other: Selector) {
      && (other.target.Some? ==> target == other.target)
      && (other.objectId.Some? ==> objectId == other.objectId)
      && (other.prefix.Some? ==> prefix.Some? && other.prefix.value <= prefix.value)
    }

    function Specificity(): nat {
      (if target.Some? then 8 else 0) + (if objectId.Some? then 4 else 0) + (if prefix.Some? then 2 else 0)
    }
  }

  datatype SeverityRule = SeverityRule(
    selector: Selector, klass: Option<DriftClass>, minSeverity: Option<Severity>, severity: Severity)
  {
    predicate Names(target: Text, item: Text, path: Path, kind: DriftClass) {
      selector.Matches(target, item, path) && (klass.Some? ==> klass.value == kind)
    }
  }
  datatype FreshnessRule = FreshnessRule(selector: Selector, ttl: int64)
  datatype FieldClassRule = FieldClassRule(selector: Selector, comparability: Comparability)
  datatype SuppressionRule = SuppressionRule(
    id: Text, selector: Selector, klass: Option<DriftClass>, minSeverity: Option<Severity>,
    author: Text, reason: Text, expiresAt: Option<int64>)
  {
    predicate ExpiredAt(now: int64) { expiresAt.Some? && now >= expiresAt.value }

    predicate Applies(target: Text, item: Text, path: Path, k: DriftClass, severity: Severity, now: int64) {
      && !ExpiredAt(now)
      && selector.Matches(target, item, path)
      && (klass.Some? ==> klass.value == k)
      && (minSeverity.Some? ==> severity.Rank() >= minSeverity.value.Rank())
    }
  }

  datatype FreshnessPolicy = FreshnessPolicy(
    ttl: int64, agingPercent: int, maxClockSkew: int, ttlAppliesToReceiveTime: bool)

  datatype ObservatoryPolicy = ObservatoryPolicy(
    id: Text, freshness: FreshnessPolicy, resolutionConfirmations: uint32,
    requireCompleteCoverage: bool, requireAbsenceAuthority: bool, equivalence: NumericEquivalence,
    defaultSeverity: Severity, severityRules: seq<SeverityRule>, freshnessRules: seq<FreshnessRule>,
    fieldClassRules: seq<FieldClassRule>, suppressions: seq<SuppressionRule>,
    sourcePriority: seq<Text>, requiredTargets: seq<Text>)

  lemma SubsetMatches(narrow: Selector, broad: Selector, target: Text, item: Text, path: Path)
    requires narrow.IsSubsetOf(broad) && narrow.Matches(target, item, path)
    ensures broad.Matches(target, item, path)
  {
    if broad.prefix.Some? {
      assert path[..|narrow.prefix.value|] == narrow.prefix.value;
    }
  }

  // ----- comparability: policy only narrows

  function Rank(c: Comparability): nat {
    match c
    case Managed => 0 case ObserveOnly => 1 case Unmanaged => 2 case Unobservable => 3 case UnsupportedClass => 4
  }

  function Stricter(a: Comparability, b: Comparability): Comparability { if Rank(a) < Rank(b) then b else a }

  function Classify(rules: seq<FieldClassRule>, target: Text, item: Text, path: Path, intent: Comparability)
    : Comparability
  {
    if rules == [] then intent
    else
      var k := |rules| - 1;
      var before := Classify(rules[..k], target, item, path, intent);
      if rules[k].selector.Matches(target, item, path) then Stricter(before, rules[k].comparability) else before
  }

  method ClassifyField(policy: ObservatoryPolicy, target: Text, item: Text, path: Path, intent: Comparability)
    returns (c: Comparability)
    ensures c == Classify(policy.fieldClassRules, target, item, path, intent)
  {
    var rules := policy.fieldClassRules;
    c := intent;
    for index := 0 to |rules|
      invariant c == Classify(rules[..index], target, item, path, intent)
    {
      assert rules[..index + 1][..index] == rules[..index];
      if rules[index].selector.Matches(target, item, path) {
        c := Stricter(c, rules[index].comparability);
      }
    }
    assert rules[..|rules|] == rules;
  }

  /** The outcome is the strictest of the intent's own view and every matching rule. */
  lemma {:induction false} ClassifyIsStrictest(rules: seq<FieldClassRule>, target: Text, item: Text, path: Path,
                                               intent: Comparability)
    ensures
      var c := Classify(rules, target, item, path, intent);
      && Rank(intent) <= Rank(c)
      && (forall i :: 0 <= i < |rules| && rules[i].selector.Matches(target, item, path)
                      ==> Rank(rules[i].comparability) <= Rank(c))
      && (c == intent || exists i :: 0 <= i < |rules| && rules[i].selector.Matches(target, item, path)
                                     && c == rules[i].comparability)
  {
    if rules != [] {
      var k := |rules| - 1;
      ClassifyIsStrictest(rules[..k], target, item, path, intent);
      assert forall i :: 0 <= i < k ==> rules[..k][i] == rules[i];
    }
  }

  // ----- lifetime: the most specific rule, the later one among equals

  function Deciding(rules: seq<FreshnessRule>, target: Text, item: Text, path: Path): (r: Option<nat>)
    ensures r.Some? ==> r.value < |rules|
  {
    if rules == [] then None
    else
      var k := |rules| - 1;
      var before := Deciding(rules[..k], target, item, path);
      if && rules[k].selector.Matches(target, item, path)
         && (before.Some? ==> rules[before.value].selector.Specificity() <= rules[k].selector.Specificity())
      then Some(k) else before
  }

  function Ttl(policy: ObservatoryPolicy, target: Text, item: Text, path: Path): int64 {
    var r := Deciding(policy.freshnessRules, target, item, path);
    if r.Some? then policy.freshnessRules[r.value].ttl else policy.freshness.ttl
  }

  method TtlFor(policy: ObservatoryPolicy, target: Text, item: Text, path: Path) returns (ttl: int64)
    ensures ttl == Ttl(policy, target, item, path)
  {
    var rules := policy.freshnessRules;
    ttl := policy.freshness.ttl;
    var best: int := -1;
    for index := 0 to |rules|
      invariant
        var r := Deciding(rules[..index], target, item, path);
        if r.Some? then ttl == rules[r.value].ttl && best == rules[r.value].selector.Specificity()
        else ttl == policy.freshness.ttl && best == -1
    {
      assert rules[..index + 1][..index] == rules[..index];
      if !rules[index].selector.Matches(target, item, path) {
        continue;
      }
      var specificity := rules[index].selector.Specificity();
      if specificity >= best {
        best := specificity;
        ttl := rules[index].ttl;
      }
    }
    assert rules[..|rules|] == rules;
  }

  lemma {:induction false} DecidingIsMostSpecific(rules: seq<FreshnessRule>, target: Text, item: Text, path: Path)
    ensures
      var r := Deciding(rules, target, item, path);
      if r.None? then forall i :: 0 <= i < |rules| ==> !rules[i].selector.Matches(target, item, path)
      else
        && rules[r.value].selector.Matches(target, item, path)
        && forall i :: 0 <= i < |rules| && rules[i].selector.Matches(target, item, path)
             ==> if i <= r.value then rules[i].selector.Specificity() <= rules[r.value].selector.Specificity()
                 else rules[i].selector.Specificity() < rules[r.value].selector.Specificity()
  {
    if rules != [] {
      var k := |rules| - 1;
      DecidingIsMostSpecific(rules[..k], target, item, path);
      assert forall i :: 0 <= i < k ==> rules[..k][i] == rules[i];
    }
  }

  // ----- severity: a fold whose thresholds look at the severity so far

  function RuleSpecificity(rule: SeverityRule): nat {
    rule.selector.Specificity() * 4 + (if rule.klass.Some? then 1 else 0) + (if rule.minSeverity.Some? then 1 else 0)
  }

  function Grade(policy: ObservatoryPolicy, n: nat, target: Text, item: Text, path: Path, klass: DriftClass)
    : (r: (Severity, int))
    requires n <= |policy.severityRules|
  {
    if n == 0 then (policy.defaultSeverity, -1)
    else
      var (severity, best) := Grade(policy, n - 1, target, item, path, klass);
      var rule := policy.severityRules[n - 1];
      if && rule.Names(target, item, path, klass)
         && (rule.minSeverity.Some? ==> severity.Rank() >= rule.minSeverity.value.Rank())
         && RuleSpecificity(rule) >= best
      then (rule.severity, RuleSpecificity(rule))
      else (severity, best)
  }

  function Severities(policy: ObservatoryPolicy, target: Text, item: Text, path: Path, klass: DriftClass): Severity {
    Grade(policy, |policy.severityRules|, target, item, path, klass).0
  }

  /** The rule names the location and the class, and its threshold holds of the severity
      that the rules before it give. */
  predicate Admitted(policy: ObservatoryPolicy, i: nat, target: Text, item: Text, path: Path, klass: DriftClass)
    requires i < |policy.severityRules|
  {
    var rule := policy.severityRules[i];
    && rule.Names(target, item, path, klass)
    && (rule.minSeverity.Some? ==> Grade(policy, i, target, item, path, klass).0.Rank() >= rule.minSeverity.value.Rank())
  }

  /** The last of the most specific admitted rules among the first `n`. */
  predicate Decides(policy: ObservatoryPolicy, n: nat, k: nat, target: Text, item: Text, path: Path, klass: DriftClass)
    requires k < n <= |policy.severityRules|
  {
    && Admitted(policy, k, target, item, path, klass)
    && forall i :: 0 <= i < n && Admitted(policy, i, target, item, path, klass)
         ==> if i <= k then RuleSpecificity(policy.severityRules[i]) <= RuleSpecificity(policy.severityRules[k])
             else RuleSpecificity(policy.severityRules[i]) < RuleSpecificity(policy.severityRules[k])
  }

  predicate GradeIs(policy: ObservatoryPolicy, n: nat, target: Text, item: Text, path: Path, klass: DriftClass,
                    r: (Severity, int))
    requires n <= |policy.severityRules|
  {
    if r.1 < 0 then
      r.0 == policy.defaultSeverity && forall i :: 0 <= i < n ==> !Admitted(policy, i, target, item, path, klass)
    else
      exists k :: 0 <= k < n && Decides(policy, n, k, target, item, path, klass)
                  && r == (policy.severityRules[k].severity, RuleSpecificity(policy.severityRules[k]))
  }

  lemma GradeNext(policy: ObservatoryPolicy, n: nat, target: Text, item: Text, path: Path, klass: DriftClass)
    requires n < |policy.severityRules|
    ensures
      var r, rule := Grade(policy, n, target, item, path, klass), policy.severityRules[n];
      Grade(policy, n + 1, target, item, path, klass)
      == if Admitted(policy, n, target, item, path, klass) && RuleSpecificity(rule) >= r.1
         then (rule.severity, RuleSpecificity(rule)) else r
  {
    hide RuleSpecificity, SeverityRule.Names;
  }

  lemma {:induction false} GradeDecided(policy: ObservatoryPolicy, n: nat, target: Text, item: Text, path: Path,
                                        klass: DriftClass)
    requires n <= |policy.severityRules|
    ensures GradeIs(policy, n, target, item, path, klass, Grade(policy, n, target, item, path, klass))
  {
    hide Admitted, Decides, Grade, RuleSpecificity;
    if n == 0 {
      assert Grade(policy, 0, target, item, path, klass) == (policy.defaultSeverity, -1) by {
        GradeNone(policy, target, item, path, klass);
      }
    } else {
      GradeDecided(policy, n - 1, target, item, path, klass);
      GradeNext(policy, n - 1, target, item, path, klass);
      var before, rule := Grade(policy, n - 1, target, item, path, klass), policy.severityRules[n - 1];
      if Admitted(policy, n - 1, target, item, path, klass) && RuleSpecificity(rule) >= before.1 {
        DecidesNow(policy, n - 1, before, target, item, path, klass);
      } else if before.1 >= 0 {
        var k :| 0 <= k < n - 1 && Decides(policy, n - 1, k, target, item, path, klass)
                 && before == (policy.severityRules[k].severity, RuleSpecificity(policy.severityRules[k]));
        DecidesStill(policy, n - 1, k, target, item, path, klass);
      }
    }
  }

  lemma DecidesNow(policy: ObservatoryPolicy, n: nat, before: (Severity, int), target: Text, item: Text, path: Path,
                   klass: DriftClass)
    requires n < |policy.severityRules| && GradeIs(policy, n, target, item, path, klass, before)
    requires Admitted(policy, n, target, item, path, klass) && RuleSpecificity(policy.severityRules[n]) >= before.1
    ensures Decides(policy, n + 1, n, target, item, path, klass)
  {
    hide Admitted, RuleSpecificity;
  }

  lemma DecidesStill(policy: ObservatoryPolicy, n: nat, k: nat, target: Text, item: Text, path: Path, klass: DriftClass)
    requires k < n < |policy.severityRules| && Decides(policy, n, k, target, item, path, klass)
    requires Admitted(policy, n, target, item, path, klass)
         ==> RuleSpecificity(policy.severityRules[n]) < RuleSpecificity(policy.severityRules[k])
    ensures Decides(policy, n + 1, k, target, item, path, klass)
  {
    hide Admitted, RuleSpecificity;
  }

  lemma GradeNone(policy: ObservatoryPolicy, target: Text, item: Text, path: Path, klass: DriftClass)
    ensures Grade(policy, 0, target, item, path, klass) == (policy.defaultSeverity, -1)
  {}

  /** The severity is that of the last most specific admitted rule, or the default if no
      rule is admitted. Without thresholds every rule that names the drift is admitted. */
  lemma SeverityDecided(policy: ObservatoryPolicy, target: Text, item: Text, path: Path, klass: DriftClass)
    ensures
      var n, severity := |policy.severityRules|, Severities(policy, target, item, path, klass);
      || (severity == policy.defaultSeverity && forall i :: 0 <= i < n ==> !Admitted(policy, i, target, item, path, klass))
      || exists k :: 0 <= k < n && Decides(policy, n, k, target, item, path, klass)
                     && severity == policy.severityRules[k].severity
    ensures forall i :: 0 <= i < |policy.severityRules| && policy.severityRules[i].minSeverity.None? ==>
      (Admitted(policy, i, target, item, path, klass) <==> policy.severityRules[i].Names(target, item, path, klass))
  {
    hide Admitted, Decides, Grade, RuleSpecificity;
    GradeDecided(policy, |policy.severityRules|, target, item, path, klass);
    forall i | 0 <= i < |policy.severityRules| && policy.severityRules[i].minSeverity.None?
      ensures Admitted(policy, i, target, item, path, klass) <==> policy.severityRules[i].Names(target, item, path, klass)
    {
      NoThreshold(policy, i, target, item, path, klass);
    }
  }

  lemma NoThreshold(policy: ObservatoryPolicy, i: nat, target: Text, item: Text, path: Path, klass: DriftClass)
    requires i < |policy.severityRules| && policy.severityRules[i].minSeverity.None?
    ensures Admitted(policy, i, target, item, path, klass) <==> policy.severityRules[i].Names(target, item, path, klass)
  {}

  /** Thresholds make the order of the rules matter: the more specific rule is only asked
      about what comes before it. */
  lemma ThresholdsSeeWhatIsBefore(policy: ObservatoryPolicy, raise: SeverityRule, lower: SeverityRule, target: Text,
                                  item: Text, path: Path, klass: DriftClass)
    requires raise.Names(target, item, path, klass) && raise.minSeverity.None? && raise.severity.High?
    requires lower == raise.(minSeverity := Some(High), severity := Low) && policy.defaultSeverity.Medium?
    ensures Severities(policy.(severityRules := [raise, lower]), target, item, path, klass).Low?
    ensures Severities(policy.(severityRules := [lower, raise]), target, item, path, klass).High?
  {
    var p, q := policy.(severityRules := [raise, lower]), policy.(severityRules := [lower, raise]);
    assert Grade(p, 1, target, item, path, klass) == (High, RuleSpecificity(raise));
    assert Grade(q, 1, target, item, path, klass) == (Medium, -1);
  }

  method SeverityFor(policy: ObservatoryPolicy, target: Text, item: Text, path: Path, klass: DriftClass)
    returns (severity: Severity)
    ensures severity == Severities(policy, target, item, path, klass)
  {
    severity := policy.defaultSeverity;
    var best: int := -1;
    for index := 0 to |policy.severityRules|
      invariant (severity, best) == Grade(policy, index, target, item, path, klass)
    {
      var rule := policy.severityRules[index];
      if !rule.selector.Matches(target, item, path) { continue; }
      if rule.klass.Some? && rule.klass.value != klass { continue; }
      if rule.minSeverity.Some? && severity.Rank() < rule.minSeverity.value.Rank() { continue; }
      var specificity := rule.selector.Specificity() * 4;
      if rule.klass.Some? { specificity := specificity + 1; }
      if rule.minSeverity.Some? { specificity := specificity + 1; }
      if specificity >= best {
        best := specificity;
        severity := rule.severity;
      }
    }
  }

  // ----- suppression: the first rule in declaration order

  function FirstApplying(rules: seq<SuppressionRule>, target: Text, item: Text, path: Path, klass: DriftClass,
                         severity: Severity, now: int64): Option<SuppressionRule>
  {
    if rules == [] then None
    else if rules[0].Applies(target, item, path, klass, severity, now) then Some(rules[0])
    else FirstApplying(rules[1..], target, item, path, klass, severity, now)
  }

  method FindSuppression(policy: ObservatoryPolicy, target: Text, item: Text, path: Path, klass: DriftClass,
                         severity: Severity, now: int64) returns (r: Option<SuppressionRule>)
    ensures r == FirstApplying(policy.suppressions, target, item, path, klass, severity, now)
    ensures r.None? ==> forall i :: 0 <= i < |policy.suppressions|
                          ==> !policy.suppressions[i].Applies(target, item, path, klass, severity, now)
    ensures r.Some? ==> exists i :: 0 <= i < |policy.suppressions| && policy.suppressions[i] == r.value
                          && r.value.Applies(target, item, path, klass, severity, now)
                          && forall j :: 0 <= j < i
                               ==> !policy.suppressions[j].Applies(target, item, path, klass, severity, now)
  {
    var rules := policy.suppressions;
    assert rules[0..] == rules;
    for index := 0 to |rules|
      invariant forall j :: 0 <= j < index ==> !rules[j].Applies(target, item, path, klass, severity, now)
      invariant FirstApplying(rules, target, item, path, klass, severity, now)
             == FirstApplying(rules[index..], target, item, path, klass, severity, now)
    {
      assert rules[index..][0] == rules[index] && rules[index..][1..] == rules[index + 1..];
      if rules[index].Applies(target, item, path, klass, severity, now) {
        return Some(rules[index]);
      }
    }
    assert rules[|rules|..] == [];
    return None;
  }
}

/** Where a snapshot sits relative to its lifetime. */
module Freshnesses {
  import opened Core
  import opened Values
  import opened Domain
  import opened Policy

  predicate InRange(x: int) { INT64_MIN <= x <= INT64_MAX }

  /** Checked 64-bit subtraction. */
  function Difference(later: int64, earlier: int64): (r: Option<int64>)
    ensures r.Some? <==> InRange(later - earlier)
  {
    if InRange(later - earlier) then Some(later - earlier) else None
  }

  function EffectiveTtl(snapshot: Snapshot, policy: FreshnessPolicy): int64 {
    if 0 < snapshot.ttl < policy.ttl then snapshot.ttl else policy.ttl
  }

  function Percent(policy: FreshnessPolicy): int {
    if policy.agingPercent < 0 then 0 else if policy.agingPercent > 100 then 100 else policy.agingPercent
  }

  /** The aging threshold, dividing first so that no product overflows. */
  function Threshold(ttl: int, percent: int): int
    requires ttl > 0
  {
    (ttl / 100) * percent + ((ttl % 100) * percent) / 100
  }

  function EvaluateFreshness(snapshot: Snapshot, policy: FreshnessPolicy, now: int64, liveEpoch: nat,
                             recovered: bool): Freshness
  {
    var ttl := EffectiveTtl(snapshot, policy);
    var age := Difference(now, snapshot.collectedAt);
    if snapshot.collectedAt == 0 || age.None? then Freshness(Unestablished, NoFreshEvidence, 0, ttl, false, false)
    else if recovered then Freshness(RecoveredNotFresh, EvidenceRecoveredNotFresh, age.value, ttl, false, false)
    else if liveEpoch != 0 && snapshot.epoch != liveEpoch then
      Freshness(Expired, ObservationForeignEpoch, age.value, ttl, false, false)
    else if age.value < -policy.maxClockSkew then
      Freshness(Future, ObservationClockRegression, age.value, ttl, false, false)
    else if ttl <= 0 then Freshness(Expired, ObservationExpired, age.value, ttl, false, false)
    else if age.value > ttl then Freshness(Stale, ObservationExpired, age.value, ttl, false, false)
    else
      var held := Difference(now, snapshot.receivedAt);
      if policy.ttlAppliesToReceiveTime && snapshot.receivedAt != 0 && held.None? then
        Freshness(Unestablished, ObservationClockRegression, age.value, ttl, false, false)
      else if policy.ttlAppliesToReceiveTime && snapshot.receivedAt != 0 && held.value > ttl then
        Freshness(Stale, ObservationExpired, age.value, ttl, false, false)
      else
        Freshness(if age.value > Threshold(ttl, Percent(policy)) then Aging else Fresh, NoReason, age.value, ttl,
                  true, snapshot.capabilities.assertsAbsence)
  }

  /** Evidence supports a conclusion exactly when it is live, of the current epoch and
      within its lifetime on both clocks; its state is then Fresh or Aging, never otherwise. */
  lemma UsableMeans(snapshot: Snapshot, policy: FreshnessPolicy, now: int64, liveEpoch: nat, recovered: bool)
    ensures
      var v := EvaluateFreshness(snapshot, policy, now, liveEpoch, recovered);
      var ttl := EffectiveTtl(snapshot, policy);
      && (v.maySupportCompliance <==> v.state.Fresh? || v.state.Aging?)
      && (v.mayAssertAbsence <==> v.maySupportCompliance && snapshot.capabilities.assertsAbsence)
      && (v.maySupportCompliance <==>
            && !recovered && snapshot.collectedAt != 0 && InRange(now - snapshot.collectedAt)
            && (liveEpoch == 0 || snapshot.epoch == liveEpoch)
            && 0 < ttl && -policy.maxClockSkew <= now - snapshot.collectedAt <= ttl
            && (policy.ttlAppliesToReceiveTime && snapshot.receivedAt != 0
                ==> InRange(now - snapshot.receivedAt) && now - snapshot.receivedAt <= ttl))
  {}

  /** Usable evidence is aging exactly past its percentage of the lifetime. */
  lemma AgingExact(snapshot: Snapshot, policy: FreshnessPolicy, now: int64, liveEpoch: nat, recovered: bool)
    ensures
      var v := EvaluateFreshness(snapshot, policy, now, liveEpoch, recovered);
      v.state.Aging? <==>
        v.maySupportCompliance
        && 100 * (now - snapshot.collectedAt) > EffectiveTtl(snapshot, policy) * Percent(policy)
  {
    hide Threshold, Percent;
    var ttl, percent := EffectiveTtl(snapshot, policy), Percent(policy);
    PercentRange(policy);
    if ttl > 0 {
      ThresholdExact(ttl, percent);
      Past(now - snapshot.collectedAt, ttl * percent);
    }
  }

  lemma PercentRange(policy: FreshnessPolicy)
    ensures 0 <= Percent(policy) <= 100
  {}

  lemma Past(age: int, x: int)
    ensures age > x / 100 <==> 100 * age > x
  {}

  /** Without new evidence nothing that was too old becomes current again. */
  lemma StaleStays(snapshot: Snapshot, policy: FreshnessPolicy, earlier: int64, later: int64, liveEpoch: nat,
                   recovered: bool)
    requires earlier <= later
    requires EvaluateFreshness(snapshot, policy, earlier, liveEpoch, recovered).state.Stale?
    ensures !EvaluateFreshness(snapshot, policy, later, liveEpoch, recovered).maySupportCompliance
  {
    hide EvaluateFreshness;
    UsableMeans(snapshot, policy, later, liveEpoch, recovered);
    StaleMeans(snapshot, policy, earlier, liveEpoch, recovered);
  }

  lemma StaleMeans(snapshot: Snapshot, policy: FreshnessPolicy, now: int64, liveEpoch: nat, recovered: bool)
    ensures
      var ttl := EffectiveTtl(snapshot, policy);
      EvaluateFreshness(snapshot, policy, now, liveEpoch, recovered).state.Stale? ==>
        || now - snapshot.collectedAt > ttl
        || (policy.ttlAppliesToReceiveTime && snapshot.receivedAt != 0 && now - snapshot.receivedAt > ttl)
  {
    hide Threshold, Percent;
  }

  /** A source can shorten its lifetime but never lengthen it. */
  lemma SourceOnlyShortens(snapshot: Snapshot, policy: FreshnessPolicy)
    ensures EffectiveTtl(snapshot, policy) <= policy.ttl
    ensures EffectiveTtl(snapshot, policy) < policy.ttl <==> 0 < snapshot.ttl < policy.ttl
    ensures EffectiveTtl(snapshot, policy) in {snapshot.ttl, policy.ttl}
  {}

  /** Dated evidence, and its age. */
  predicate Dated(snapshot: Snapshot, now: int64) { snapshot.collectedAt != 0 && InRange(now - snapshot.collectedAt) }

  predicate Foreign(snapshot: Snapshot, liveEpoch: nat) { liveEpoch != 0 && snapshot.epoch != liveEpoch }

  /** Which state each verdict has: undated, recovered, foreign, from the future, without a
      lifetime, too old on either clock, or past or before its percentage of the lifetime. */
  lemma StateMeans(snapshot: Snapshot, policy: FreshnessPolicy, now: int64, liveEpoch: nat, recovered: bool)
    ensures
      var v := EvaluateFreshness(snapshot, policy, now, liveEpoch, recovered);
      var age, held := now - snapshot.collectedAt, now - snapshot.receivedAt;
      var ttl := if snapshot.ttl > 0 && snapshot.ttl < policy.ttl then snapshot.ttl else policy.ttl;
      var percent := if policy.agingPercent < 0 then 0 else if policy.agingPercent > 100 then 100 else policy.agingPercent;
      var onHand := policy.ttlAppliesToReceiveTime && snapshot.receivedAt != 0;
      var current := Dated(snapshot, now) && !recovered && !Foreign(snapshot, liveEpoch) && age >= -policy.maxClockSkew
                     && ttl > 0;
      && v.effectiveTtl == ttl && v.age == (if Dated(snapshot, now) then age else 0)
      && (v.state.Unestablished? <==> !Dated(snapshot, now) || (current && age <= ttl && onHand && !InRange(held)))
      && (v.state.RecoveredNotFresh? <==> Dated(snapshot, now) && recovered)
      && (v.state.Future? <==> Dated(snapshot, now) && !recovered && !Foreign(snapshot, liveEpoch)
                               && age < -policy.maxClockSkew)
      && (v.state.Expired? <==> Dated(snapshot, now) && !recovered
                                && (Foreign(snapshot, liveEpoch) || (age >= -policy.maxClockSkew && ttl <= 0)))
      && (v.state.Stale? <==> current && (age > ttl || (onHand && InRange(held) && held > ttl)))
      && (v.state.Aging? ==> 100 * age > ttl * percent) && (v.state.Fresh? ==> 100 * age <= ttl * percent)
  {
    hide Threshold;
    var ttl, percent := EffectiveTtl(snapshot, policy), Percent(policy);
    if ttl > 0 {
      ThresholdExact(ttl, percent);
      Past(now - snapshot.collectedAt, ttl * percent);
    }
  }

  /** Dividing first loses nothing: the threshold is the exact percentage, rounded down,
      and every intermediate result stays within the lifetime. */
  lemma ThresholdExact(ttl: int, percent: int)
    requires ttl > 0 && 0 <= percent <= 100
    ensures Threshold(ttl, percent) == ttl * percent / 100
    ensures 0 <= (ttl / 100) * percent <= ttl && 0 <= (ttl % 100) * percent < 10000
    ensures 0 <= Threshold(ttl, percent) <= ttl
  {
    var q, r := ttl / 100, ttl % 100;
    Bounds(q, percent);
    Bounds(r, percent);
    assert ttl * percent == 100 * (q * percent) + r * percent by {
      assert ttl == 100 * q + r;
    }
  }

  lemma Bounds(q: int, percent: int)
    requires q >= 0 && 0 <= percent <= 100
    ensures 0 <= q * percent <= 100 * q
  {}
}
