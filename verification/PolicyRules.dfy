/** Which rules can decide anything about a location, and how rules outrank one another. */
module PolicyRules {
  import opened Core
  import opened Values
  import opened Domain
  import opened Policy

  /** The selector speaks of another target, of another object, or of a path that is not the
      location's or one above it. */
  predicate SpeaksElsewhere(s: Selector, target: Text, item: Text, path: Path) {
    || (s.target.Some? && s.target.value != target)
    || (s.objectId.Some? && s.objectId.value != item)
    || (s.prefix.Some? && (|s.prefix.value| > |path|
                           || exists i :: 0 <= i < |s.prefix.value| && s.prefix.value[i] != path[i]))
  }

  lemma MatchesExactly(s: Selector, target: Text, item: Text, path: Path)
    ensures s.Matches(target, item, path) <==> !SpeaksElsewhere(s, target, item, path)
  {
    if s.prefix.Some? && |s.prefix.value| <= |path| && !SpeaksElsewhere(s, target, item, path) {
      assert path[..|s.prefix.value|] == s.prefix.value;
    }
  }

  /** Naming the target outranks naming the object, and that outranks giving a path. */
  lemma MoreSpecific(a: Selector, b: Selector)
    ensures a.Specificity() > b.Specificity() <==>
      || (a.target.Some? && b.target.None?)
      || (a.target.Some? == b.target.Some?
          && ((a.objectId.Some? && b.objectId.None?)
              || (a.objectId.Some? == b.objectId.Some? && a.prefix.Some? && b.prefix.None?)))
  {}

  // ----- rules about other locations decide nothing

  lemma {:induction false} ClassifyIgnores(a: seq<FieldClassRule>, r: FieldClassRule, b: seq<FieldClassRule>, target: Text,
                                           item: Text, path: Path, intent: Comparability)
    requires SpeaksElsewhere(r.selector, target, item, path)
    ensures Classify(a + [r] + b, target, item, path, intent) == Classify(a + b, target, item, path, intent)
    decreases |b|
  {
    hide SpeaksElsewhere, Selector.Matches;
    MatchesExactly(r.selector, target, item, path);
    if b == [] {
      assert a + [r] + b == a + [r] && a + b == a && (a + [r])[..|a|] == a;
    } else {
      var k := |b| - 1;
      assert (a + [r] + b)[..|a + [r] + b| - 1] == a + [r] + b[..k] && (a + b)[..|a + b| - 1] == a + b[..k];
      ClassifyIgnores(a, r, b[..k], target, item, path, intent);
    }
  }

  /** Positions after an inserted rule move by one. */
  function Moved(r: Option<nat>, at: nat): Option<nat> {
    if r.Some? && r.value >= at then Some(r.value + 1) else r
  }

  lemma {:induction false} DecidingIgnores(a: seq<FreshnessRule>, r: FreshnessRule, b: seq<FreshnessRule>, target: Text,
                                           item: Text, path: Path)
    requires SpeaksElsewhere(r.selector, target, item, path)
    ensures Deciding(a + [r] + b, target, item, path) == Moved(Deciding(a + b, target, item, path), |a|)
    decreases |b|
  {
    hide SpeaksElsewhere, Selector.Matches, Selector.Specificity;
    MatchesExactly(r.selector, target, item, path);
    if b == [] {
      assert a + [r] + b == a + [r] && a + b == a && (a + [r])[..|a|] == a;
    } else {
      var k := |b| - 1;
      var x, y := a + [r] + b, a + b;
      assert x[..|x| - 1] == a + [r] + b[..k] && y[..|y| - 1] == a + b[..k];
      DecidingIgnores(a, r, b[..k], target, item, path);
      var d := Deciding(a + b[..k], target, item, path);
      assert d.Some? ==> x[Moved(d, |a|).value] == y[d.value];
    }
  }

  lemma TtlIgnores(policy: ObservatoryPolicy, a: seq<FreshnessRule>, r: FreshnessRule, b: seq<FreshnessRule>, target: Text,
                   item: Text, path: Path)
    requires SpeaksElsewhere(r.selector, target, item, path)
    ensures Ttl(policy.(freshnessRules := a + [r] + b), target, item, path)
         == Ttl(policy.(freshnessRules := a + b), target, item, path)
  {
    hide SpeaksElsewhere;
    DecidingIgnores(a, r, b, target, item, path);
  }

  lemma {:induction false} GradeIgnores(policy: ObservatoryPolicy, a: seq<SeverityRule>, r: SeverityRule,
                                        b: seq<SeverityRule>, n: nat, target: Text, item: Text, path: Path,
                                        klass: DriftClass)
    requires n <= |b|
    requires SpeaksElsewhere(r.selector, target, item, path) || (r.klass.Some? && r.klass.value != klass)
    ensures Grade(policy.(severityRules := a + [r] + b), |a| + 1 + n, target, item, path, klass)
         == Grade(policy.(severityRules := a + b), |a| + n, target, item, path, klass)
  {
    hide SpeaksElsewhere, RuleSpecificity, Selector.Matches, Grade;
    var p, q := policy.(severityRules := a + [r] + b), policy.(severityRules := a + b);
    MatchesExactly(r.selector, target, item, path);
    if n == 0 {
      GradeNext(p, |a|, target, item, path, klass);
      GradeSame(p, q, |a|, target, item, path, klass);
    } else {
      GradeIgnores(policy, a, r, b, n - 1, target, item, path, klass);
      GradeStep(p, |a| + n, target, item, path, klass);
      GradeStep(q, |a| + n - 1, target, item, path, klass);
      assert p.severityRules[|a| + n] == b[n - 1] == q.severityRules[|a| + n - 1];
    }
  }

  /** One more rule, by the grade so far. */
  function Graded(before: (Severity, int), rule: SeverityRule, target: Text, item: Text, path: Path, klass: DriftClass)
    : (Severity, int)
  {
    if rule.Names(target, item, path, klass) && (rule.minSeverity.Some? ==> before.0.Rank() >= rule.minSeverity.value.Rank())
       && RuleSpecificity(rule) >= before.1
    then (rule.severity, RuleSpecificity(rule)) else before
  }

  lemma GradeStep(policy: ObservatoryPolicy, n: nat, target: Text, item: Text, path: Path, klass: DriftClass)
    requires n < |policy.severityRules|
    ensures Grade(policy, n + 1, target, item, path, klass)
         == Graded(Grade(policy, n, target, item, path, klass), policy.severityRules[n], target, item, path, klass)
  {
    hide RuleSpecificity, SeverityRule.Names;
  }

  lemma {:induction false} GradeSame(p: ObservatoryPolicy, q: ObservatoryPolicy, n: nat, target: Text, item: Text, path: Path,
                                     klass: DriftClass)
    requires n <= |p.severityRules| && n <= |q.severityRules| && p.defaultSeverity == q.defaultSeverity
    requires p.severityRules[..n] == q.severityRules[..n]
    ensures Grade(p, n, target, item, path, klass) == Grade(q, n, target, item, path, klass)
  {
    hide RuleSpecificity, SeverityRule.Names;
    if n > 0 {
      assert p.severityRules[n - 1] == p.severityRules[..n][n - 1] == q.severityRules[n - 1];
      assert p.severityRules[..n - 1] == p.severityRules[..n][..n - 1];
      assert q.severityRules[..n - 1] == q.severityRules[..n][..n - 1];
      GradeSame(p, q, n - 1, target, item, path, klass);
    }
  }

  /** So wherever a rule about another location or class is put, the severity stays. */
  lemma SeveritiesIgnore(policy: ObservatoryPolicy, a: seq<SeverityRule>, r: SeverityRule, b: seq<SeverityRule>, target: Text,
                         item: Text, path: Path, klass: DriftClass)
    requires SpeaksElsewhere(r.selector, target, item, path) || (r.klass.Some? && r.klass.value != klass)
    ensures Severities(policy.(severityRules := a + [r] + b), target, item, path, klass)
         == Severities(policy.(severityRules := a + b), target, item, path, klass)
  {
    hide SpeaksElsewhere, Grade;
    GradeIgnores(policy, a, r, b, |b|, target, item, path, klass);
  }

  lemma {:induction false} SuppressionIgnores(a: seq<SuppressionRule>, r: SuppressionRule, b: seq<SuppressionRule>,
                                              target: Text, item: Text, path: Path, klass: DriftClass, severity: Severity,
                                              now: int64)
    requires SpeaksElsewhere(r.selector, target, item, path) || (r.klass.Some? && r.klass.value != klass)
             || (r.expiresAt.Some? && now >= r.expiresAt.value)
    ensures FirstApplying(a + [r] + b, target, item, path, klass, severity, now)
         == FirstApplying(a + b, target, item, path, klass, severity, now)
    decreases |a|
  {
    hide SpeaksElsewhere, Selector.Matches;
    MatchesExactly(r.selector, target, item, path);
    if a == [] {
      assert a + [r] + b == [r] + b && a + b == b && ([r] + b)[1..] == b;
    } else {
      assert (a + [r] + b)[1..] == a[1..] + [r] + b && (a + b)[1..] == a[1..] + b;
      SuppressionIgnores(a[1..], r, b, target, item, path, klass, severity, now);
    }
  }
}
