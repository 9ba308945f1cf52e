/** What the ledger holds after an accepted application, finding by finding, in terms of what it
    held before and of the drafts. */
module Application {
  import opened Core
  import opened Values
  import opened Domain
  import opened Policy
  import opened Findings
  import opened LedgerState
  import opened LedgerRuns

  // ----- one evaluation touches its own target only

  /** Nothing drafted and nothing decided. */
  predicate Idle(e: Evaluation) { e.drafts == [] && !e.decidable }

  /** Each target is evaluated once; evaluations that say nothing do not matter. */
  predicate Apart(es: seq<Evaluation>) {
    forall i, j :: 0 <= i < j < |es| ==> es[i].target != es[j].target || Idle(es[i]) || Idle(es[j])
  }

  predicate SameAt(s: Store, t: Store, id: FindingId) {
    && (id in t.findings <==> id in s.findings) && (id in s.findings ==> t.findings[id] == s.findings[id])
    && Streak(t, id) == Streak(s, id)
  }

  lemma NotDrafted(e: Evaluation, id: FindingId)
    requires Coherent(e) && (e.target != id.target || Idle(e))
    ensures id !in DraftMap(e.drafts)
  {
    hide DraftMap;
  }

  lemma Elsewhere(s: Store, e: Evaluation, o: Outcome, policy: ObservatoryPolicy, now: int64, id: FindingId)
    requires Coherent(e) && (e.target != id.target || Idle(e)) && (id in s.findings ==> s.findings[id].id == id)
    ensures SameAt(s, ApplyOne(s, e, o, policy, now), id)
  {
    hide DraftMap, Coherent, Refreshed, Created, Reexplained, Agreed;
    NotDrafted(e, id);
    AppliedAt(s, e, o, policy, now, id);
    StreakAfter(s, e, o, policy, now, id);
  }

  /** What an evaluation makes of a finding depends on the ledger at that finding only. */
  lemma OnlyHere(s: Store, t: Store, e: Evaluation, m: map<FindingId, Draft>, o: Outcome, policy: ObservatoryPolicy,
                 now: int64, id: FindingId)
    requires SameAt(s, t, id) && (id in s.findings || id in m)
    ensures NextFinding(t, e, m, o, policy, now, id) == NextFinding(s, e, m, o, policy, now, id)
  {
    hide Refreshed, Created, Reexplained, Agreed, Reclassified, Live;
  }

  lemma PrefixKept(s: Store, o: Outcome, policy: ObservatoryPolicy, now: int64, n: nat)
    requires Lifecycle(s) && CoherentOutcome(o) && n <= |o.evaluations|
    ensures Lifecycle(ApplyFirst(s, o, policy, now, n))
  {
    hide Lifecycle, ApplyFirst, CoherentOutcome, ChangesOf;
    ApplyFirstIsRun(s, o, policy, now, n);
    RunKeepsLifecycle(s, ChangesOf(s, o, policy, now, n));
  }

  lemma KeptId(s: Store, id: FindingId)
    requires Lifecycle(s) && id in s.findings
    ensures s.findings[id].id == id
  {
    hide Live, OfCommitted, WindowKept, BaselineKept;
    assert Kept(s, id);
  }

  lemma StepElsewhere(s: Store, o: Outcome, policy: ObservatoryPolicy, now: int64, n: nat, id: FindingId)
    requires Lifecycle(s) && CoherentOutcome(o) && 0 < n <= |o.evaluations|
    requires o.evaluations[n - 1].target != id.target || Idle(o.evaluations[n - 1])
             || !Accepts(s.baselines, o.evaluations[n - 1])
    ensures SameAt(ApplyFirst(s, o, policy, now, n - 1), ApplyFirst(s, o, policy, now, n), id)
  {
    hide Lifecycle, ApplyOne, Coherent, Accepts, SameAt;
    var before, e := ApplyFirst(s, o, policy, now, n - 1), o.evaluations[n - 1];
    if Accepts(s.baselines, e) {
      PrefixKept(s, o, policy, now, n - 1);
      assert Coherent(e);
      if id in before.findings { KeptId(before, id); }
      Elsewhere(before, e, o, policy, now, id);
    } else {
      SameSelf(before, id);
    }
  }

  lemma SameSelf(s: Store, id: FindingId)
    ensures SameAt(s, s, id)
  {}

  lemma SameTwice(a: Store, b: Store, c: Store, id: FindingId)
    requires SameAt(a, b, id) && SameAt(b, c, id)
    ensures SameAt(a, c, id)
  {}

  /** Nothing between the two counts touches the finding's target. */
  lemma {:induction false} NothingBetween(s: Store, o: Outcome, policy: ObservatoryPolicy, now: int64, m: nat, n: nat,
                                          id: FindingId)
    requires Lifecycle(s) && CoherentOutcome(o) && m <= n <= |o.evaluations|
    requires forall i :: m <= i < n ==> o.evaluations[i].target != id.target || Idle(o.evaluations[i])
                                        || !Accepts(s.baselines, o.evaluations[i])
    ensures SameAt(ApplyFirst(s, o, policy, now, m), ApplyFirst(s, o, policy, now, n), id)
  {
    hide Lifecycle, ApplyFirst, CoherentOutcome, Accepts, SameAt, Idle;
    if m == n {
      SameSelf(ApplyFirst(s, o, policy, now, m), id);
    } else {
      NothingBetween(s, o, policy, now, m, n - 1, id);
      StepElsewhere(s, o, policy, now, n, id);
      SameTwice(ApplyFirst(s, o, policy, now, m), ApplyFirst(s, o, policy, now, n - 1), ApplyFirst(s, o, policy, now, n), id);
    }
  }

  /** The pass as a whole makes of a finding what its target's evaluation makes of it. */
  lemma OwnEvaluation(s: Store, o: Outcome, policy: ObservatoryPolicy, now: int64, j: nat, id: FindingId)
    requires Lifecycle(s) && CoherentOutcome(o) && Apart(o.evaluations) && j < |o.evaluations|
    requires o.evaluations[j].target == id.target && !Idle(o.evaluations[j]) && Accepts(s.baselines, o.evaluations[j])
    ensures
      var t, m := ApplyFirst(s, o, policy, now, |o.evaluations|), DraftMap(o.evaluations[j].drafts);
      && (id in t.findings <==> id in s.findings || id in m)
      && (id in t.findings ==> t.findings[id] == NextFinding(s, o.evaluations[j], m, o, policy, now, id))
  {
    hide Lifecycle, ApplyOne, CoherentOutcome, Accepts, DraftMap, NextFinding, Idle;
    var e, m := o.evaluations[j], DraftMap(o.evaluations[j].drafts);
    var before := ApplyFirst(s, o, policy, now, j);
    NothingBetween(s, o, policy, now, 0, j, id);
    AppliedAt(before, e, o, policy, now, id);
    if id in s.findings || id in m { OnlyHere(s, before, e, m, o, policy, now, id); }
    NothingBetween(s, o, policy, now, j + 1, |o.evaluations|, id);
  }

  // ----- what an applied draft leaves

  /** The finding says what the draft says, on the authority of this evaluation. */
  predicate Says(f: Finding, d: Draft, best: FreshnessState, policyId: Text, now: int64) {
    && f.id == FindingId(d.target, d.objectId, d.path, d.klass, d.generation, d.qualifier)
    && f.klass == d.klass && f.rawClass == d.rawClass && f.severity == d.severity && f.reason == d.reason
    && f.generation == d.generation && f.epoch == d.epoch && f.authority == d.authority
    && f.intended == d.intended && f.observed == d.observed && f.evidence == d.evidence
    && f.complianceRelevant == d.complianceRelevant && f.freshness == best && f.policy == policyId
    && f.lastSeen == now && f.lastEvaluated == now
  }

  predicate RuleApplies(r: SuppressionRule, d: Draft, now: int64) {
    && !(r.expiresAt.Some? && now >= r.expiresAt.value)
    && (r.selector.target.Some? ==> r.selector.target.value == d.target)
    && (r.selector.objectId.Some? ==> r.selector.objectId.value == d.objectId)
    && (r.selector.prefix.Some? ==> r.selector.prefix.value <= d.path)
    && (r.klass.Some? ==> r.klass.value == d.klass)
    && (r.minSeverity.Some? ==> d.severity.Rank() >= r.minSeverity.value.Rank())
  }

  predicate NoRuleApplies(policy: ObservatoryPolicy, d: Draft, now: int64) {
    forall i :: 0 <= i < |policy.suppressions| ==> !RuleApplies(policy.suppressions[i], d, now)
  }

  /** The first rule that applies, in the order of declaration. */
  predicate FirstRule(policy: ObservatoryPolicy, d: Draft, now: int64, r: SuppressionRule) {
    exists k :: 0 <= k < |policy.suppressions| && policy.suppressions[k] == r && RuleApplies(r, d, now)
                && forall i :: 0 <= i < k ==> !RuleApplies(policy.suppressions[i], d, now)
  }

  predicate Unencumbered(f: Finding) {
    f.suppression.None? && f.origin.NoOrigin? && f.suppressedBy == [] && f.suppressionReason == [] && f.expiresAt.None?
  }

  predicate SameSuppression(f: Finding, g: Finding) {
    && g.suppression == f.suppression && g.origin == f.origin && g.suppressedBy == f.suppressedBy
    && g.suppressionReason == f.suppressionReason && g.expiresAt == f.expiresAt
  }

  predicate SameAcknowledgement(f: Finding, g: Finding) {
    && g.acknowledgedBy == f.acknowledgedBy && g.acknowledgedAt == f.acknowledgedAt
    && g.acknowledgementReason == f.acknowledgementReason
  }

  /** A finding drafted for the first time is open, or suppressed by the first rule that applies. */
  ghost predicate Begins(g: Finding, policy: ObservatoryPolicy, d: Draft, now: int64) {
    && g.firstSeen == now && g.observationCount == 1 && g.reopenCount == 0 && g.confirmations == 0 && g.resolvedAt == 0
    && g.acknowledgedBy == [] && g.acknowledgedAt == 0 && g.acknowledgementReason == []
    && if NoRuleApplies(policy, d, now) then g.state.Open? && Unencumbered(g)
       else exists r :: FirstRule(policy, d, now, r)
              && g.state.Suppressed? && g.origin.ByPolicy? && g.suppression == Some(r.id) && g.suppressedBy == r.author
              && g.suppressionReason == r.reason && g.expiresAt == r.expiresAt
  }

  function Released(f: Finding, state: State): State {
    if !state.Suppressed? then state else if f.acknowledgedBy == [] then Open else Acknowledged
  }

  predicate TimeIsUp(f: Finding, now: int64) { f.suppression.Some? && f.expiresAt.Some? && now >= f.expiresAt.value }

  /** A finding drafted again keeps its beginning and its acknowledgement; closed, it reopens. Its
      suppression ends when its time is up or when it was the policy's and no rule applies. */
  predicate Again(f: Finding, g: Finding, policy: ObservatoryPolicy, d: Draft, now: int64) {
    var live := f.state.Open? || f.state.Acknowledged? || f.state.Suppressed?;
    var state := if live then f.state else Open;
    var over := TimeIsUp(f, now) || (f.suppression.Some? && f.origin.ByPolicy? && NoRuleApplies(policy, d, now));
    && g.firstSeen == f.firstSeen && g.observationCount == f.observationCount + 1 && SameAcknowledgement(f, g)
    && (if live then g.reopenCount == f.reopenCount && g.confirmations == f.confirmations && g.resolvedAt == f.resolvedAt
        else g.reopenCount == f.reopenCount + 1 && g.confirmations == 0 && g.resolvedAt == 0)
    && if over then Unencumbered(g) && g.state == Released(f, state) else SameSuppression(f, g) && g.state == state
  }

  /** Only a suppression whose time is up ends. */
  predicate OnlyLapses(f: Finding, g: Finding, now: int64) {
    if TimeIsUp(f, now) then
      && Unencumbered(g)
      && g == f.(suppression := g.suppression, origin := g.origin, suppressedBy := g.suppressedBy,
                 suppressionReason := g.suppressionReason, expiresAt := g.expiresAt, state := Released(f, f.state))
    else g == f
  }

  lemma RuleIs(r: SuppressionRule, d: Draft, now: int64)
    ensures RuleApplies(r, d, now) <==> r.Applies(d.target, d.objectId, d.path, d.klass, d.severity, now)
  {}

  lemma {:induction false} FirstApplyingIs(rules: seq<SuppressionRule>, d: Draft, now: int64)
    ensures
      var r := FirstApplying(rules, d.target, d.objectId, d.path, d.klass, d.severity, now);
      if r.None? then forall i :: 0 <= i < |rules| ==> !RuleApplies(rules[i], d, now)
      else exists k :: 0 <= k < |rules| && rules[k] == r.value && RuleApplies(rules[k], d, now)
                       && forall i :: 0 <= i < k ==> !RuleApplies(rules[i], d, now)
  {
    hide RuleApplies, SuppressionRule.Applies;
    if rules != [] {
      RuleIs(rules[0], d, now);
      if !RuleApplies(rules[0], d, now) {
        FirstApplyingIs(rules[1..], d, now);
        var r := FirstApplying(rules[1..], d.target, d.objectId, d.path, d.klass, d.severity, now);
        assert forall i :: 1 <= i < |rules| ==> rules[i] == rules[1..][i - 1];
        if r.Some? {
          var k :| 0 <= k < |rules[1..]| && rules[1..][k] == r.value && RuleApplies(rules[1..][k], d, now)
                   && forall i :: 0 <= i < k ==> !RuleApplies(rules[1..][i], d, now);
          assert rules[k + 1] == r.value;
        }
      }
    }
  }

  lemma RulesDecide(policy: ObservatoryPolicy, d: Draft, now: int64)
    ensures
      var r := FirstApplying(policy.suppressions, d.target, d.objectId, d.path, d.klass, d.severity, now);
      && (r.None? <==> NoRuleApplies(policy, d, now))
      && (r.Some? ==> FirstRule(policy, d, now, r.value) && !(r.value.expiresAt.Some? && now >= r.value.expiresAt.value))
  {
    hide FirstApplying;
    FirstApplyingIs(policy.suppressions, d, now);
  }

  lemma CreatedSays(d: Draft, e: Evaluation, o: Outcome, policy: ObservatoryPolicy, now: int64)
    ensures
      var g := Lapsed(Created(d, e, o, policy, now), now);
      Says(g, d, e.bestFreshness, o.policy, now) && Begins(g, policy, d, now)
  {
    hide FirstApplying, NoRuleApplies, FirstRule;
    RulesDecide(policy, d, now);
  }

  lemma RefreshedSays(f: Finding, d: Draft, e: Evaluation, o: Outcome, policy: ObservatoryPolicy, now: int64)
    requires f.id == d.Id()
    ensures
      var g := Lapsed(Refreshed(f, d, e, o, policy, now), now);
      Says(g, d, e.bestFreshness, o.policy, now) && Again(f, g, policy, d, now)
  {
    hide FirstApplying, NoRuleApplies;
    RulesDecide(policy, d, now);
  }

  lemma LapsedOnly(f: Finding, now: int64)
    ensures OnlyLapses(f, Lapsed(f, now), now)
  {}

  // ----- the main results

  /** Identities are those of the drafts; each draft stands for its own. */
  lemma {:induction false} DraftMapped(drafts: seq<Draft>, k: nat)
    requires k < |drafts| && forall i, j :: 0 <= i < j < |drafts| ==> drafts[i].Id() != drafts[j].Id()
    ensures drafts[k].Id() in DraftMap(drafts) && DraftMap(drafts)[drafts[k].Id()] == drafts[k]
  {
    hide Draft.Id, DraftMap;
    assert drafts[k] in drafts;
    var d := DraftMap(drafts)[drafts[k].Id()];
    var i :| 0 <= i < |drafts| && drafts[i] == d;
    assert i == k;
  }

  lemma AcceptedWhole(s: Store, o: Outcome, policy: ObservatoryPolicy, now: int64, maxFindings: nat, refusedAt: nat)
    requires ApplyEvaluation(s, o, policy, now, maxFindings, refusedAt).1.Ok?
    ensures
      var t := ApplyEvaluation(s, o, policy, now, maxFindings, refusedAt).0;
      t == ExpireAll(ApplyFirst(s, o, policy, now, |o.evaluations|), now)
  {
    hide ApplyFirst, ExpireAll, NewFindings, Stopped;
  }

  lemma ExpiredAt(t: Store, now: int64, id: FindingId)
    ensures id in ExpireAll(t, now).findings <==> id in t.findings
    ensures id in t.findings ==> ExpireAll(t, now).findings[id] == Lapsed(t.findings[id], now)
  {
    hide Lapsed;
  }

  /** After an accepted application every draft of an accepted evaluation has its finding, which
      says what the draft says; whether it is new or was there before decides the rest. */
  lemma DraftIsApplied(s: Store, o: Outcome, policy: ObservatoryPolicy, now: int64, maxFindings: nat, refusedAt: nat, j: nat,
                       k: nat)
    requires Lifecycle(s) && CoherentOutcome(o) && Apart(o.evaluations) && j < |o.evaluations|
    requires ApplyEvaluation(s, o, policy, now, maxFindings, refusedAt).1.Ok? && Accepts(s.baselines, o.evaluations[j])
    requires k < |o.evaluations[j].drafts|
    requires
      var ds := o.evaluations[j].drafts;
      forall x, y :: 0 <= x < y < |ds| ==> ds[x].Id() != ds[y].Id()
    ensures
      var t, e := ApplyEvaluation(s, o, policy, now, maxFindings, refusedAt).0, o.evaluations[j];
      var d := e.drafts[k];
      var id := FindingId(d.target, d.objectId, d.path, d.klass, d.generation, d.qualifier);
      && id in t.findings && Says(t.findings[id], d, e.bestFreshness, o.policy, now)
      && if id in s.findings then Again(s.findings[id], t.findings[id], policy, d, now)
         else Begins(t.findings[id], policy, d, now)
  {
    hide Lifecycle, ApplyEvaluation, CoherentOutcome, Accepts, DraftMap, Says, Again, Begins, Refreshed, Created, Lapsed,
         ExpireAll, ApplyFirst;
    var e := o.evaluations[j];
    var d := e.drafts[k];
    var id := FindingId(d.target, d.objectId, d.path, d.klass, d.generation, d.qualifier);
    OfTarget(o, j, k);
    DraftMapped(e.drafts, k);
    OwnEvaluation(s, o, policy, now, j, id);
    AcceptedWhole(s, o, policy, now, maxFindings, refusedAt);
    ExpiredAt(ApplyFirst(s, o, policy, now, |o.evaluations|), now, id);
    if id in s.findings {
      KeptId(s, id);
      RefreshedSays(s.findings[id], d, e, o, policy, now);
    } else {
      CreatedSays(d, e, o, policy, now);
    }
  }

  lemma OfTarget(o: Outcome, j: nat, k: nat)
    requires CoherentOutcome(o) && j < |o.evaluations| && k < |o.evaluations[j].drafts|
    ensures o.evaluations[j].drafts[k].target == o.evaluations[j].target && !Idle(o.evaluations[j])
  {
    assert Coherent(o.evaluations[j]);
  }

  /** What an evaluation makes of a finding of its target that it did not draft. */
  predicate Undrafted(f: Finding, g: Finding, e: Evaluation, needed: nat, streak: nat, now: int64) {
    if !(f.state.Open? || f.state.Acknowledged? || f.state.Suppressed?) || !e.decidable then g == f
    else if exists k :: 0 <= k < |e.drafts| && Explains(e.drafts[k], f) then
      g == f.(state := Superseded, reason := FindingReclassified, lastEvaluated := now)
    else if streak + 1 >= needed then
      g == f.(confirmations := streak + 1, state := Resolved, reason := FindingResolved, resolvedAt := now,
              lastEvaluated := now)
    else g == f.(confirmations := streak + 1)
  }

  predicate Explains(d: Draft, f: Finding) {
    d.objectId == f.id.objectId && d.path == f.id.path && d.generation == f.generation
  }

  lemma Explained(f: Finding, drafts: seq<Draft>)
    ensures Reexplained(f, DraftMap(drafts)) <==> exists k :: 0 <= k < |drafts| && Explains(drafts[k], f)
  {
    hide DraftMap;
    var m := DraftMap(drafts);
    if Reexplained(f, m) {
      var id :| id in m && id.objectId == f.id.objectId && id.path == f.id.path && m[id].generation == f.generation;
      var k :| 0 <= k < |drafts| && drafts[k] == m[id];
      assert Explains(drafts[k], f);
    }
    if k :| 0 <= k < |drafts| && Explains(drafts[k], f) {
      assert drafts[k] in drafts;
      assert drafts[k].Id() in m;
    }
  }

  lemma UndraftedBecomes(s: Store, e: Evaluation, o: Outcome, policy: ObservatoryPolicy, now: int64, id: FindingId)
    requires Lifecycle(s) && id in s.findings && e.target == id.target && id !in DraftMap(e.drafts)
    ensures Undrafted(s.findings[id], NextFinding(s, e, DraftMap(e.drafts), o, policy, now, id), e,
                      if o.confirmations == 0 then 1 else o.confirmations, Streak(s, id), now)
  {
    hide DraftMap, Reexplained, Explains, Lifecycle;
    StreakFits(s, id);
    KeptId(s, id);
    Explained(s.findings[id], e.drafts);
  }

  lemma StreakFits(s: Store, id: FindingId)
    requires Lifecycle(s) && id in s.findings
    ensures Live(s.findings[id].state) ==> Streak(s, id) + 1 < UINT32
  {
    hide Live, OfCommitted, WindowKept, BaselineKept, Sound;
    assert Kept(s, id);
  }

  /** A finding of an accepted evaluation's target that was not drafted is superseded, resolved,
      counted towards a resolution or left alone; nothing else of it changes but a suppression
      whose time is up. */
  lemma UndraftedIsKept(s: Store, o: Outcome, policy: ObservatoryPolicy, now: int64, maxFindings: nat, refusedAt: nat,
                        j: nat, id: FindingId) returns (g: Finding)
    requires Lifecycle(s) && CoherentOutcome(o) && Apart(o.evaluations) && j < |o.evaluations| && id in s.findings
    requires ApplyEvaluation(s, o, policy, now, maxFindings, refusedAt).1.Ok? && Accepts(s.baselines, o.evaluations[j])
    requires o.evaluations[j].target == id.target && !Idle(o.evaluations[j])
    requires forall k :: 0 <= k < |o.evaluations[j].drafts| ==> o.evaluations[j].drafts[k].Id() != id
    ensures
      var t := ApplyEvaluation(s, o, policy, now, maxFindings, refusedAt).0;
      && Undrafted(s.findings[id], g, o.evaluations[j], if o.confirmations == 0 then 1 else o.confirmations,
                   Streak(s, id), now)
      && id in t.findings && OnlyLapses(g, t.findings[id], now)
  {
    hide Lifecycle, ApplyEvaluation, CoherentOutcome, Accepts, DraftMap, NextFinding, Undrafted, OnlyLapses, Lapsed, ExpireAll,
         ApplyFirst, Draft.Id, Idle;
    var e := o.evaluations[j];
    NoDraftOf(e, id);
    g := NextFinding(s, e, DraftMap(e.drafts), o, policy, now, id);
    OwnEvaluation(s, o, policy, now, j, id);
    AcceptedWhole(s, o, policy, now, maxFindings, refusedAt);
    ExpiredAt(ApplyFirst(s, o, policy, now, |o.evaluations|), now, id);
    UndraftedBecomes(s, e, o, policy, now, id);
    LapsedOnly(g, now);
  }

  lemma NoDraftOf(e: Evaluation, id: FindingId)
    requires forall k :: 0 <= k < |e.drafts| ==> e.drafts[k].Id() != id
    ensures id !in DraftMap(e.drafts)
  {
    hide DraftMap, Draft.Id;
  }

  /** A finding whose target no accepted evaluation speaks of keeps everything but a suppression
      whose time is up, and no finding of such a target appears. */
  lemma OthersAreKept(s: Store, o: Outcome, policy: ObservatoryPolicy, now: int64, maxFindings: nat, refusedAt: nat,
                      id: FindingId)
    requires Lifecycle(s) && CoherentOutcome(o)
    requires ApplyEvaluation(s, o, policy, now, maxFindings, refusedAt).1.Ok?
    requires forall j :: 0 <= j < |o.evaluations| ==> o.evaluations[j].target != id.target || Idle(o.evaluations[j])
                                                      || !Accepts(s.baselines, o.evaluations[j])
    ensures
      var t := ApplyEvaluation(s, o, policy, now, maxFindings, refusedAt).0;
      (id in t.findings <==> id in s.findings) && (id in s.findings ==> OnlyLapses(s.findings[id], t.findings[id], now))
  {
    hide Lifecycle, ApplyEvaluation, CoherentOutcome, Accepts, OnlyLapses, Lapsed, ExpireAll, Idle;
    NothingBetween(s, o, policy, now, 0, |o.evaluations|, id);
    AcceptedWhole(s, o, policy, now, maxFindings, refusedAt);
    ExpiredAt(ApplyFirst(s, o, policy, now, |o.evaluations|), now, id);
    if id in s.findings { LapsedOnly(s.findings[id], now); }
  }

  /** Findings appear only for drafts of accepted evaluations, and none disappears. */
  lemma FindingsAreDrafted(s: Store, o: Outcome, policy: ObservatoryPolicy, now: int64, maxFindings: nat, refusedAt: nat,
                           j: nat, id: FindingId)
    requires Lifecycle(s) && CoherentOutcome(o) && Apart(o.evaluations) && j < |o.evaluations|
    requires ApplyEvaluation(s, o, policy, now, maxFindings, refusedAt).1.Ok? && Accepts(s.baselines, o.evaluations[j])
    requires o.evaluations[j].target == id.target && !Idle(o.evaluations[j])
    ensures
      var t := ApplyEvaluation(s, o, policy, now, maxFindings, refusedAt).0;
      id in t.findings <==> id in s.findings
                            || exists k :: 0 <= k < |o.evaluations[j].drafts| && o.evaluations[j].drafts[k].Id() == id
  {
    hide Lifecycle, ApplyEvaluation, CoherentOutcome, Accepts, DraftMap, NextFinding, Lapsed, ExpireAll, ApplyFirst, Draft.Id,
         Idle;
    var e := o.evaluations[j];
    OwnEvaluation(s, o, policy, now, j, id);
    AcceptedWhole(s, o, policy, now, maxFindings, refusedAt);
    ExpiredAt(ApplyFirst(s, o, policy, now, |o.evaluations|), now, id);
    if id in DraftMap(e.drafts) {
      var k :| 0 <= k < |e.drafts| && e.drafts[k] == DraftMap(e.drafts)[id];
    } else {
      MappedAll(e);
    }
  }

  lemma MappedAll(e: Evaluation)
    ensures forall k :: 0 <= k < |e.drafts| ==> e.drafts[k].Id() in DraftMap(e.drafts)
  {
    hide DraftMap, Draft.Id;
    assert forall k :: 0 <= k < |e.drafts| ==> e.drafts[k] in e.drafts;
  }
}
