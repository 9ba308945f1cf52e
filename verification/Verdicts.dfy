/** What an evaluation decides, which drift it reports where, and when drift is regrouped, in
    terms of baseline, policy and evidence. */
module Verdicts {
  import opened Core
  import opened Values
  import opened Domain
  import opened Policy
  import opened Comparison
  import opened Drifts

  // ----- when a target can be decided

  ghost predicate FieldDecided(policy: ObservatoryPolicy, target: Text, s: Snapshot, id: Text, o: ObservedObject, path: Path,
                               field: IntentField)
  {
    var klass := ClassOf(policy, target, id, path, field);
    || MarkedPath(path) || klass.Unmanaged? || klass.ObserveOnly?
    || (klass.Managed? && if !HasField(o.fields, path) then SilenceDeniesField(s, id, path)
                          else forall v :: FieldIs(o.fields, path, v)
                                 ==> !Relate(field.intended, v, policy.equivalence, 0).Incomparable?)
  }

  ghost predicate FieldsDecided(policy: ObservatoryPolicy, target: Text, s: Snapshot, id: Text, intent: IntentObject,
                                o: ObservedObject)
  {
    forall i :: 0 <= i < |intent.fields|
      ==> FieldDecided(policy, target, s, id, o, intent.fields[i].key, intent.fields[i].value)
  }

  /** A required object is reported present with every field decided, or denied by a source
      that may deny it. */
  ghost predicate ObjectDecided(policy: ObservatoryPolicy, target: Text, s: Snapshot, id: Text, intent: IntentObject) {
    || intent.existence.Forbidden?
    || (SaidAbsent(s, id) && MayDeny(policy, s))
    || exists o :: Reports(s, id, o) && o.presence.Present? && FieldsDecided(policy, target, s, id, intent, o)
  }

  ghost predicate Decided(policy: ObservatoryPolicy, target: Text, objects: Table<Text, IntentObject>, s: Snapshot) {
    && (policy.requireCompleteCoverage ==> s.coverage.CompleteCoverage? && s.capabilities.completeCoverage)
    && forall i :: 0 <= i < |objects| ==> ObjectDecided(policy, target, s, objects[i].key, objects[i].value)
  }

  /** Claims of these classes leave a target undecided. */
  predicate Bars(c: Claim) { c.klass.UnknownDrift? || c.klass.Unsupported? }

  lemma FieldBars(policy: ObservatoryPolicy, target: Text, s: Snapshot, id: Text, o: ObservedObject, path: Path,
                  field: IntentField)
    ensures FieldDecided(policy, target, s, id, o, path, field)
       <==> forall c :: FieldWarrants(policy, target, s, id, o, path, field, c) ==> !Bars(c)
  {
    hide ClassOf, Relate, HasField, SilenceDeniesField, MarkedPath;
    var klass := ClassOf(policy, target, id, path, field);
    OneValue(o, path);
    if !FieldDecided(policy, target, s, id, o, path, field) {
      if klass.Unobservable? {
        assert FieldWarrants(policy, target, s, id, o, path, field,
                             Claim(id, path, UnknownDrift, ClassifiedNotObservable, None, None));
      } else if klass.UnsupportedClass? {
        assert FieldWarrants(policy, target, s, id, o, path, field,
                             Claim(id, path, Unsupported, ClassifiedUnsupportedField, None, None));
      } else if !HasField(o.fields, path) {
        assert FieldWarrants(policy, target, s, id, o, path, field,
                             Claim(id, path, UnknownDrift, ObservationCoveragePartial, None, None));
      } else {
        var v :| FieldIs(o.fields, path, v) && Relate(field.intended, v, policy.equivalence, 0).Incomparable?;
        var c := Claim(id, path, Unsupported, ClassifiedFieldNotComparable, Some(field.intended), Some(v));
        assert ValueWarrants(policy, id, path, field, v, c);
        assert FieldWarrants(policy, target, s, id, o, path, field, c);
      }
    }
  }

  lemma OneValue(o: ObservedObject, path: Path)
    ensures forall v :: FieldIs(o.fields, path, v) ==> HasField(o.fields, path)
  {}

  lemma MemberBars(policy: ObservatoryPolicy, target: Text, s: Snapshot, id: Text, intent: IntentObject, o: ObservedObject)
    ensures FieldsDecided(policy, target, s, id, intent, o)
       <==> forall c :: MemberWarrants(policy, target, s, id, intent, o, c) ==> !Bars(c)
  {
    hide FieldWarrants, FieldDecided;
    forall i | 0 <= i < |intent.fields|
      ensures FieldDecided(policy, target, s, id, o, intent.fields[i].key, intent.fields[i].value)
         <==> forall c :: FieldWarrants(policy, target, s, id, o, intent.fields[i].key, intent.fields[i].value, c)
                ==> !Bars(c)
    {
      FieldBars(policy, target, s, id, o, intent.fields[i].key, intent.fields[i].value);
    }
    if !FieldsDecided(policy, target, s, id, intent, o) {
      var i :| 0 <= i < |intent.fields|
               && !FieldDecided(policy, target, s, id, o, intent.fields[i].key, intent.fields[i].value);
      var c :| FieldWarrants(policy, target, s, id, o, intent.fields[i].key, intent.fields[i].value, c) && Bars(c);
      assert MemberWarrants(policy, target, s, id, intent, o, c);
    }
  }

  lemma ObjectBars(policy: ObservatoryPolicy, target: Text, s: Snapshot, id: Text, intent: IntentObject)
    ensures ObjectDecided(policy, target, s, id, intent)
       <==> forall c :: ObjectWarrants(policy, target, s, id, intent, c) ==> !Bars(c)
  {
    hide MemberWarrants, FieldsDecided, Reports, SilenceDenies, MayDeny, Mentions;
    Once(s, id);
    forall o ensures FieldsDecided(policy, target, s, id, intent, o)
                <==> forall c :: MemberWarrants(policy, target, s, id, intent, o, c) ==> !Bars(c)
    {
      MemberBars(policy, target, s, id, intent, o);
    }
    if !ObjectDecided(policy, target, s, id, intent) {
      if SaidAbsent(s, id) {
        assert ObjectWarrants(policy, target, s, id, intent,
                              Claim(id, [], UnknownDrift, ObservationSourceCannotAssertAbsence, None, None));
      } else if SaysNothing(s, id) {
        assert ObjectWarrants(policy, target, s, id, intent,
                              Claim(id, [], UnknownDrift, if id in s.unobserved then ObservationCoveragePartial
                                                          else ObservationCoverageUnknown, None, None));
      } else {
        var o :| Reports(s, id, o) && o.presence.Present?;
        var c :| MemberWarrants(policy, target, s, id, intent, o, c) && Bars(c);
        assert ObjectWarrants(policy, target, s, id, intent, c);
      }
    }
  }

  /** A source has one word on each object. */
  lemma Once(s: Snapshot, id: Text)
    ensures forall o, p :: Reports(s, id, o) && Reports(s, id, p) ==> o == p
    ensures SaidAbsent(s, id) ==> !SaidPresent(s, id)
    ensures forall o :: Reports(s, id, o) ==> Mentions(s, id)
  {
    hide SilenceDenies;
  }

  lemma NothingBars(policy: ObservatoryPolicy, target: Text, objects: Table<Text, IntentObject>, s: Snapshot)
    ensures (forall i :: 0 <= i < |objects| ==> ObjectDecided(policy, target, s, objects[i].key, objects[i].value))
       <==> forall c :: Warranted(policy, target, objects, s, c) ==> !Bars(c)
  {
    hide ObjectWarrants, ObjectDecided;
    forall i | 0 <= i < |objects|
      ensures ObjectDecided(policy, target, s, objects[i].key, objects[i].value)
         <==> forall c :: ObjectWarrants(policy, target, s, objects[i].key, objects[i].value, c) ==> !Bars(c)
    {
      ObjectBars(policy, target, s, objects[i].key, objects[i].value);
    }
    if i :| 0 <= i < |objects| && !ObjectDecided(policy, target, s, objects[i].key, objects[i].value) {
      var c :| ObjectWarrants(policy, target, s, objects[i].key, objects[i].value, c) && Bars(c);
      assert Warranted(policy, target, objects, s, c);
    }
  }

  // ----- conflicts are a class of their own

  /** Framed by the baseline, graded by the policy, and resting on both sources. */
  predicate ConflictMade(f: Frame, d: Draft) {
    && d.klass.SourceConflict? && d.rawClass.SourceConflict? && d.reason.ObservationSourcesDisagree?
    && d.target == f.target && d.generation == f.generation && d.epoch == f.epoch && d.authority == f.authority
    && d.complianceRelevant && d.severity == Severities(f.policy, f.target, d.objectId, d.path, d.klass)
    && |d.evidence| == (if f.maxRefs < 2 then f.maxRefs else 2)
    && (|d.evidence| == 2 ==>
          && d.qualifier.SourcePair?
          && {d.qualifier.low, d.qualifier.high} == {d.evidence[0].snapshot.source, d.evidence[1].snapshot.source})
  }

  predicate AllConflicts(f: Frame, ds: seq<Draft>) { forall i :: 0 <= i < |ds| ==> ConflictMade(f, ds[i]) }

  lemma OneConflict(f: Frame, lhs: View, rhs: View, id: Text, path: Path, intended: Option<Value>, observed: Option<Value>)
    ensures ConflictMade(f, MakeDraft(f, id, path, SourceConflict, ObservationSourcesDisagree, intended, observed,
                                      [lhs, rhs], PairQualifier(lhs, rhs)))
  {
    hide Severities, Less;
  }

  lemma {:induction false} FieldsConflict(f: Frame, lhs: View, rhs: View, id: Text, q: ObservedObject,
                                          fields: Table<Path, Value>)
    ensures AllConflicts(f, FieldConflicts(f, lhs, rhs, id, q, fields))
  {
    hide FieldsClash, MakeDraft, PairQualifier, ConflictMade;
    if fields != [] {
      var k := |fields| - 1;
      FieldsConflict(f, lhs, rhs, id, q, fields[..k]);
      OneConflict(f, lhs, rhs, id, fields[k].key, Find(q.fields, fields[k].key), Some(fields[k].value));
    }
  }

  lemma {:induction false} PairsConflict(f: Frame, lhs: View, rhs: View, objects: Table<Text, ObservedObject>)
    ensures AllConflicts(f, PairConflicts(f, lhs, rhs, objects))
  {
    hide FieldConflicts, MakeDraft, PairQualifier, PresenceText, ConflictMade;
    if objects != [] {
      var k := |objects| - 1;
      PairsConflict(f, lhs, rhs, objects[..k]);
      var other := Find(rhs.snapshot.objects, objects[k].key);
      if other.Some? {
        FieldsConflict(f, lhs, rhs, objects[k].key, other.value, objects[k].value.fields);
        OneConflict(f, lhs, rhs, objects[k].key, [], Some(PresenceText(other.value.presence)),
                    Some(PresenceText(objects[k].value.presence)));
      }
    }
  }

  lemma {:induction false} WithConflict(f: Frame, views: seq<View>, first: nat, n: nat)
    requires first < |views| && n <= |views|
    ensures AllConflicts(f, ConflictsWith(f, views, first, n))
    decreases n
  {
    hide PairConflicts, ConflictMade;
    if n > first + 1 {
      WithConflict(f, views, first, n - 1);
      PairsConflict(f, views[first], views[n - 1], views[first].snapshot.objects);
    }
  }

  lemma {:induction false} ConflictsOnly(f: Frame, views: seq<View>, m: nat)
    requires m <= ScanLimit(views)
    ensures AllConflicts(f, Conflicts(f, views, m))
  {
    hide ConflictsWith, ConflictMade;
    if m > 0 {
      ConflictsOnly(f, views, m - 1);
      WithConflict(f, views, m - 1, ScanLimit(views));
    }
  }

  // ----- the drafts before regrouping

  predicate RawMade(f: Frame, view: View, d: Draft) {
    Made(f, view, d) || ConflictMade(f, d)
  }

  lemma RawShape(f: Frame, baseline: Baseline, views: seq<View>)
    requires views != []
    ensures var raw := RawDrafts(f, baseline, views); forall i :: 0 <= i < |raw| ==> RawMade(f, views[0], raw[i])
  {
    hide Conflicts, DeclaredDrafts, UndeclaredDrafts, Made;
    ConflictsOnly(f, views, ScanLimit(views));
    DeclaredMade(f, views[0], baseline.objects);
    StrangersMade(f, views[0], baseline.objects, views[0].snapshot.objects);
  }

  lemma RawClaims(f: Frame, baseline: Baseline, views: seq<View>, c: Claim)
    requires views != [] && !c.klass.SourceConflict?
    ensures Claimed(RawDrafts(f, baseline, views), c)
       <==> Warranted(f.policy, f.target, baseline.objects, views[0].snapshot, c)
  {
    hide Conflicts, DeclaredDrafts, UndeclaredDrafts, ObjectWarrants, StrangerWarrants;
    var a, b := Conflicts(f, views, ScanLimit(views)), DeclaredDrafts(f, views[0], baseline.objects);
    var d := UndeclaredDrafts(f, views[0], baseline.objects, views[0].snapshot.objects);
    ConflictsOnly(f, views, ScanLimit(views));
    DeclaredClaim(f, views[0], baseline.objects, c);
    StrangersClaim(f, views[0], baseline.objects, views[0].snapshot.objects, c);
    ClaimedJoin(a, b, c);
    ClaimedJoin(a + b, d, c);
  }

  lemma RawDisputes(f: Frame, baseline: Baseline, views: seq<View>, x: Dispute)
    requires views != []
    ensures Disputed(f, RawDrafts(f, baseline, views), x)
       <==> exists i, j :: 0 <= i < j < ScanLimit(views) && Disagree(views, i, j, f.policy.equivalence, x)
  {
    hide Conflicts, DeclaredDrafts, UndeclaredDrafts, Disagree;
    var a, b := Conflicts(f, views, ScanLimit(views)), DeclaredDrafts(f, views[0], baseline.objects);
    var d := UndeclaredDrafts(f, views[0], baseline.objects, views[0].snapshot.objects);
    ConflictDisputes(f, views, ScanLimit(views), x);
    DeclaredMade(f, views[0], baseline.objects);
    StrangersMade(f, views[0], baseline.objects, views[0].snapshot.objects);
    DisputedJoin(f, a, b, x);
    DisputedJoin(f, a + b, d, x);
  }

  // ----- regrouping

  predicate Behind(k: DriftClass) { k.Missing? || k.FieldMissing? || k.ValueMismatch? }

  /** Some declared object reports the committed generation. */
  ghost predicate Partly(baseline: Baseline, s: Snapshot) {
    baseline.generation != 0 && Applied(baseline.objects, s, baseline.generation)
  }

  /** Some declared object reports a generation, and it is the committed one or none of them is. */
  ghost predicate Diverges(baseline: Baseline, s: Snapshot) {
    Partly(baseline, s) || exists g :: Applied(baseline.objects, s, g) && g != baseline.generation
  }

  ghost function FinalClass(baseline: Baseline, s: Snapshot, raw: DriftClass): DriftClass {
    if !Behind(raw) || !Diverges(baseline, s) then raw
    else if Partly(baseline, s) then PartialApplication else GenerationMismatch
  }

  predicate Climbs(s: seq<nat>) { forall i, j :: 0 <= i < j < |s| ==> s[i] < s[j] }

  lemma ClimbsOn(x: nat, r: seq<nat>)
    requires Climbs(r) && forall y :: y in r ==> x < y
    ensures Climbs([x] + r)
  {
    assert forall i :: 0 <= i < |r| ==> r[i] in r;
  }

  lemma ClimbsFrom(s: seq<nat>)
    requires s != [] && Climbs(s)
    ensures Climbs(s[1..]) && (forall y :: y in s[1..] ==> s[0] < y) && forall y :: y in s <==> y == s[0] || y in s[1..]
  {
    assert s == [s[0]] + s[1..];
  }

  lemma {:induction false} InsertedClimbs(s: seq<nat>, x: nat)
    requires Climbs(s)
    ensures Climbs(InsertAscending(s, x)) && forall y :: y in InsertAscending(s, x) <==> y == x || y in s
  {
    hide Climbs;
    if s == [] {
      ClimbsOn(x, []) by { NothingClimbs(); }
    } else {
      ClimbsFrom(s);
      if x < s[0] {
        ClimbsOn(x, s);
      } else if x > s[0] {
        InsertedClimbs(s[1..], x);
        ClimbsOn(s[0], InsertAscending(s[1..], x));
      }
    }
  }

  lemma NothingClimbs()
    ensures Climbs([])
  {}

  lemma {:induction false} AscendingClimbs(s: seq<nat>)
    ensures Climbs(Ascending(s)) && forall y :: y in Ascending(s) <==> y in s
  {
    if s != [] {
      var k := |s| - 1;
      AscendingClimbs(s[..k]);
      InsertedClimbs(Ascending(s[..k]), s[k]);
      assert s == s[..k] + [s[k]];
    }
  }

  lemma DivergesWhen(view: View, baseline: Baseline)
    ensures
      var applied := AppliedBy(view, baseline.objects);
      && (PartiallyApplied(applied, baseline.generation) <==> Partly(baseline, view.snapshot))
      && (applied != [] && (PartiallyApplied(applied, baseline.generation) || NotApplied(applied, baseline.generation))
          <==> Diverges(baseline, view.snapshot))
  {
    hide AppliedBy, Applied, Ascending;
    var applied := AppliedBy(view, baseline.objects);
    forall g ensures g in applied <==> Applied(baseline.objects, view.snapshot, g) {
      AppliedCollected(view, baseline.objects, g);
    }
    AscendingClimbs(applied);
    var sorted := Ascending(applied);
    if applied != [] {
      assert applied[0] in applied;
      var last := sorted[|sorted| - 1];
      assert last in sorted;
      if g :| g in applied && g != baseline.generation && last == baseline.generation {
        assert g in sorted;
      }
    }
    if sorted != [] { assert sorted[0] in sorted; }
  }

  /** What regrouping leaves of each draft, and what it replaces. */
  ghost predicate Settled(baseline: Baseline, view: View, policy: ObservatoryPolicy, raw: Draft, d: Draft) {
    var s := view.snapshot;
    && d == raw.(klass := d.klass, reason := d.reason, qualifier := d.qualifier, severity := d.severity)
    && d.klass == FinalClass(baseline, s, raw.klass)
    && (d.klass == raw.klass ==> d == raw)
    && (d.klass != raw.klass ==>
          && d.reason == (if Partly(baseline, s) then ClassifiedPartialApplication else ClassifiedGenerationMismatch)
          && d.severity == Severities(policy, d.target, d.objectId, d.path, d.klass)
          && Lists(baseline, s, d.qualifier))
  }

  /** The qualifier names both sides: the committed generation and, in order, the reported ones. */
  ghost predicate Lists(baseline: Baseline, s: Snapshot, q: Qualifier) {
    && q.Divergence? && (q.partial <==> Partly(baseline, s)) && q.intended == baseline.generation && Climbs(q.applied)
    && forall g: nat :: g in q.applied <==> Applied(baseline.objects, s, g)
  }

  lemma RegroupAt(f: Frame, raw: seq<Draft>, applied: seq<nat>, i: nat)
    requires i < |raw|
    ensures
      var partial := PartiallyApplied(applied, f.generation);
      && |Regroup(f, raw, applied)| == |raw|
      && Regroup(f, raw, applied)[i]
         == if Behind(raw[i].klass) && applied != [] && (partial || NotApplied(applied, f.generation))
            then RegroupOne(f, raw[i], partial, applied) else raw[i]
  {
    hide PartiallyApplied, NotApplied, Severities, Ascending;
    assert Deviation(raw[i].klass) ==> HasDeviation(raw);
  }

  lemma OneSettled(f: Frame, baseline: Baseline, view: View, raw: Draft, partial: bool, applied: seq<nat>)
    requires f.generation == baseline.generation && Behind(raw.klass) && Diverges(baseline, view.snapshot)
    requires partial <==> Partly(baseline, view.snapshot)
    requires Lists(baseline, view.snapshot, Divergence(partial, f.generation, Ascending(applied)))
    ensures Settled(baseline, view, f.policy, raw, RegroupOne(f, raw, partial, applied))
  {
    hide Severities, Ascending, Partly, Diverges, Lists;
  }

  lemma Listed(view: View, baseline: Baseline)
    ensures
      var applied := AppliedBy(view, baseline.objects);
      Lists(baseline, view.snapshot,
            Divergence(PartiallyApplied(applied, baseline.generation), baseline.generation, Ascending(applied)))
  {
    hide AppliedBy, Applied, Ascending, PartiallyApplied, Partly;
    var applied := AppliedBy(view, baseline.objects);
    DivergesWhen(view, baseline);
    AscendingClimbs(applied);
    forall g: nat ensures g in Ascending(applied) <==> Applied(baseline.objects, view.snapshot, g) {
      AppliedCollected(view, baseline.objects, g);
    }
  }

  lemma Regrouped(f: Frame, baseline: Baseline, views: seq<View>, i: nat)
    requires views != [] && f.generation == baseline.generation && i < |RawDrafts(f, baseline, views)|
    ensures
      var raw := RawDrafts(f, baseline, views);
      var ds := Regroup(f, raw, AppliedBy(views[0], baseline.objects));
      |ds| == |raw| && Settled(baseline, views[0], f.policy, raw[i], ds[i])
  {
    hide RawDrafts, AppliedBy, Ascending, Severities, PartiallyApplied, NotApplied, Partly, Diverges, Lists, Regroup,
         RegroupOne;
    var raw, applied := RawDrafts(f, baseline, views), AppliedBy(views[0], baseline.objects);
    DivergesWhen(views[0], baseline);
    Listed(views[0], baseline);
    RegroupAt(f, raw, applied, i);
    if Behind(raw[i].klass) && Diverges(baseline, views[0].snapshot) {
      OneSettled(f, baseline, views[0], raw[i], PartiallyApplied(applied, f.generation), applied);
    }
  }

  // ----- the main results

  ghost predicate SomeoneUsable(views: seq<View>) {
    exists i :: 0 <= i < |views| && views[i].verdict.maySupportCompliance
  }

  /** With a baseline and usable evidence: the draft at every place, and its class there. */
  lemma DraftsExactly(target: Text, baseline: Baseline, policy: ObservatoryPolicy, maxRefs: nat, views: seq<View>, c: Claim)
    requires SomeoneUsable(views) && !c.klass.SourceConflict?
    ensures Claimed(Conclude(target, Some(baseline), policy, maxRefs, views).drafts, c)
       <==> Warranted(policy, target, baseline.objects, views[0].snapshot, c)
  {
    hide RawDrafts, Regroup, AppliedBy, FirstReason, CountUsable, Warranted, Claimed, Decide;
    var f := FrameOf(target, Some(baseline), policy, maxRefs);
    UsableAny(views);
    Drafts(target, baseline, policy, maxRefs, views);
    RawClaims(f, baseline, views, c);
    SameClaims(f, baseline, views, c);
  }

  lemma UsableAny(views: seq<View>)
    ensures SomeoneUsable(views) <==> AnyUsable(views)
  {}

  lemma Drafts(target: Text, baseline: Baseline, policy: ObservatoryPolicy, maxRefs: nat, views: seq<View>)
    requires SomeoneUsable(views)
    ensures
      var f := FrameOf(target, Some(baseline), policy, maxRefs);
      var e := Conclude(target, Some(baseline), policy, maxRefs, views);
      && e.drafts == Regroup(f, RawDrafts(f, baseline, views), AppliedBy(views[0], baseline.objects))
      && (e.decidable <==> (policy.requireCompleteCoverage ==> views[0].Complete())
                           && forall i :: 0 <= i < |e.drafts| ==> !Blocking(e.drafts[i].klass))
  {
    hide RawDrafts, Regroup, AppliedBy, FirstReason, CountUsable, Blocking, Acting;
    UsableAny(views);
  }

  /** Each draft of an evaluation against the raw draft it came from. */
  lemma DraftBack(f: Frame, baseline: Baseline, views: seq<View>, i: nat)
    requires views != [] && f.generation == baseline.generation && i < |RawDrafts(f, baseline, views)|
    ensures
      var raw := RawDrafts(f, baseline, views);
      var ds := Regroup(f, raw, AppliedBy(views[0], baseline.objects));
      && |ds| == |raw| && RawMade(f, views[0], raw[i]) && Settled(baseline, views[0], f.policy, raw[i], ds[i])
      && ClaimOf(ds[i]) == ClaimOf(raw[i])
  {
    hide RawDrafts, Regroup, AppliedBy, Lists, Partly, Diverges, Severities;
    RawShape(f, baseline, views);
    Regrouped(f, baseline, views, i);
  }

  lemma SameClaims(f: Frame, baseline: Baseline, views: seq<View>, c: Claim)
    requires views != [] && f.generation == baseline.generation
    ensures
      var raw := RawDrafts(f, baseline, views);
      Claimed(Regroup(f, raw, AppliedBy(views[0], baseline.objects)), c) <==> Claimed(raw, c)
  {
    hide RawDrafts, Regroup, AppliedBy, Settled, RawMade, ClaimOf;
    var raw := RawDrafts(f, baseline, views);
    var ds := Regroup(f, raw, AppliedBy(views[0], baseline.objects));
    SameLength(f, raw, AppliedBy(views[0], baseline.objects));
    forall i | 0 <= i < |raw| ensures ClaimOf(ds[i]) == ClaimOf(raw[i]) {
      DraftBack(f, baseline, views, i);
    }
  }

  lemma SameLength(f: Frame, raw: seq<Draft>, applied: seq<nat>)
    ensures |Regroup(f, raw, applied)| == |raw|
  {
    hide RegroupOne, NotApplied, HasDeviation;
  }

  lemma WarrantedClasses(policy: ObservatoryPolicy, target: Text, objects: Table<Text, IntentObject>, s: Snapshot, c: Claim)
    requires Warranted(policy, target, objects, s, c)
    ensures c.klass.Missing? || c.klass.Unexpected? || c.klass.UnknownDrift? || c.klass.FieldMissing?
            || c.klass.ValueMismatch? || c.klass.Unsupported? || c.klass.FieldUnexpected?
  {
    hide SaidAbsent, SaidPresent, SaysNothing, MayDeny, Relate, Reports, ClassOf, HasField, FieldIs, MarkedPath;
  }

  lemma DraftBlocks(f: Frame, baseline: Baseline, views: seq<View>, i: nat)
    requires views != [] && f.generation == baseline.generation && i < |RawDrafts(f, baseline, views)|
    ensures
      var raw := RawDrafts(f, baseline, views);
      var ds := Regroup(f, raw, AppliedBy(views[0], baseline.objects));
      && |ds| == |raw| && (Blocking(ds[i].klass) <==> Bars(ClaimOf(raw[i])))
  {
    hide RawDrafts, Regroup, AppliedBy, Lists, Partly, Diverges, Severities, Warranted;
    DraftBack(f, baseline, views, i);
    var raw := RawDrafts(f, baseline, views);
    if !raw[i].klass.SourceConflict? {
      var c := ClaimOf(raw[i]);
      assert Claimed(raw, c);
      RawClaims(f, baseline, views, c);
      WarrantedClasses(f.policy, f.target, baseline.objects, views[0].snapshot, c);
    }
  }

  /** With a baseline and usable evidence, a target is decided exactly when the coverage asked for
      is there and every required object and managed field is either reported, in a class that
      compares, or denied by a source that saw everything and may deny it. */
  lemma DecidableExactly(target: Text, baseline: Baseline, policy: ObservatoryPolicy, maxRefs: nat, views: seq<View>)
    requires SomeoneUsable(views)
    ensures Conclude(target, Some(baseline), policy, maxRefs, views).decidable
       <==> Decided(policy, target, baseline.objects, views[0].snapshot)
  {
    hide RawDrafts, Regroup, AppliedBy, Conclude, ObjectDecided, Warranted, Settled, RawMade, ClaimOf;
    var f := FrameOf(target, Some(baseline), policy, maxRefs);
    var raw := RawDrafts(f, baseline, views);
    var ds := Regroup(f, raw, AppliedBy(views[0], baseline.objects));
    Drafts(target, baseline, policy, maxRefs, views);
    SameLength(f, raw, AppliedBy(views[0], baseline.objects));
    NothingBars(policy, target, baseline.objects, views[0].snapshot);
    forall i | 0 <= i < |ds| ensures Blocking(ds[i].klass) <==> Bars(ClaimOf(raw[i])) {
      DraftBlocks(f, baseline, views, i);
    }
    forall c | Bars(c) ensures Claimed(raw, c) <==> Warranted(policy, target, baseline.objects, views[0].snapshot, c) {
      RawClaims(f, baseline, views, c);
    }
    CompleteMeans(views[0]);
  }

  lemma CompleteMeans(view: View)
    ensures view.Complete() <==> view.snapshot.coverage.CompleteCoverage? && view.snapshot.capabilities.completeCoverage
  {}

  /** The conflicts reported are exactly the places where two of the first eight sources,
      both usable, say different things. */
  lemma DisputesExactly(target: Text, baseline: Baseline, policy: ObservatoryPolicy, maxRefs: nat, views: seq<View>,
                        x: Dispute)
    requires SomeoneUsable(views)
    ensures
      var f := FrameOf(target, Some(baseline), policy, maxRefs);
      Disputed(f, Conclude(target, Some(baseline), policy, maxRefs, views).drafts, x)
      <==> exists i, j :: 0 <= i < j < |views| && j < 8 && Disagree(views, i, j, policy.equivalence, x)
  {
    hide RawDrafts, Regroup, AppliedBy, Conclude, Disagree, Disputed;
    var f := FrameOf(target, Some(baseline), policy, maxRefs);
    Drafts(target, baseline, policy, maxRefs, views);
    RawDisputes(f, baseline, views, x);
    SameDisputes(f, baseline, views, x);
  }

  lemma SameDisputes(f: Frame, baseline: Baseline, views: seq<View>, x: Dispute)
    requires views != [] && f.generation == baseline.generation
    ensures
      var raw := RawDrafts(f, baseline, views);
      Disputed(f, Regroup(f, raw, AppliedBy(views[0], baseline.objects)), x) <==> Disputed(f, raw, x)
  {
    hide RawDrafts, Regroup, AppliedBy, Made, Lists, Partly, Diverges, ClaimOf;
    var raw := RawDrafts(f, baseline, views);
    var ds := Regroup(f, raw, AppliedBy(views[0], baseline.objects));
    SameLength(f, raw, AppliedBy(views[0], baseline.objects));
    forall i | 0 <= i < |raw| ensures IsDispute(f, ds[i], x) <==> IsDispute(f, raw[i], x) {
      DraftBack(f, baseline, views, i);
      MadePlain(f, views[0], raw[i]);
    }
  }

  lemma MadePlain(f: Frame, view: View, d: Draft)
    ensures Made(f, view, d) ==> !d.klass.SourceConflict? && d.klass == d.rawClass
  {}

  /** What every draft carries: its frame, its grade, the primary source as evidence, and for a
      deviation the class and qualifier of the divergence it belongs to, if there is one. */
  ghost predicate Carries(target: Text, baseline: Baseline, policy: ObservatoryPolicy, maxRefs: nat, view: View, d: Draft) {
    var s := view.snapshot;
    && d.target == target && d.generation == baseline.generation && d.epoch == baseline.epoch
    && d.authority == baseline.authority && d.complianceRelevant
    && d.severity == Severities(policy, target, d.objectId, d.path, d.klass)
    && d.klass == FinalClass(baseline, s, d.rawClass)
    && (if d.klass != d.rawClass then
          && d.reason == (if Partly(baseline, s) then ClassifiedPartialApplication else ClassifiedGenerationMismatch)
          && Lists(baseline, s, d.qualifier)
        else d.reason == ReasonOf(d) && d.qualifier.Unqualified?)
    && d.evidence == if maxRefs == 0 then [] else [EvidenceRef(s, view.verdict.state)]
  }

  lemma DraftsCarry(target: Text, baseline: Baseline, policy: ObservatoryPolicy, maxRefs: nat, views: seq<View>, i: nat)
    requires SomeoneUsable(views) && i < |Conclude(target, Some(baseline), policy, maxRefs, views).drafts|
    ensures
      var d := Conclude(target, Some(baseline), policy, maxRefs, views).drafts[i];
      if d.rawClass.SourceConflict? then ConflictMade(FrameOf(target, Some(baseline), policy, maxRefs), d)
      else Carries(target, baseline, policy, maxRefs, views[0], d)
  {
    hide RawDrafts, Regroup, AppliedBy, Conclude, Lists, Partly, Diverges, Severities, ClaimOf;
    var f := FrameOf(target, Some(baseline), policy, maxRefs);
    Drafts(target, baseline, policy, maxRefs, views);
    SameLength(f, RawDrafts(f, baseline, views), AppliedBy(views[0], baseline.objects));
    DraftBack(f, baseline, views, i);
  }

  // ----- the rest of an evaluation

  lemma {:induction false} FirstGiven(ds: seq<Draft>)
    requires forall i :: 0 <= i < |ds| ==> !ds[i].reason.NoReason? && (Blocking(ds[i].klass) || Acting(ds[i].klass))
    ensures FirstReason(ds) == if ds == [] then NoReason else ds[0].reason
  {
    hide Blocking, Acting;
    if ds != [] { FirstGiven(ds[..|ds| - 1]); }
  }

  lemma DraftReasoned(f: Frame, baseline: Baseline, views: seq<View>, i: nat)
    requires views != [] && f.generation == baseline.generation && i < |RawDrafts(f, baseline, views)|
    ensures
      var ds := Regroup(f, RawDrafts(f, baseline, views), AppliedBy(views[0], baseline.objects));
      i < |ds| && !ds[i].reason.NoReason? && (Blocking(ds[i].klass) || Acting(ds[i].klass))
  {
    hide RawDrafts, Regroup, AppliedBy, Lists, Partly, Diverges, Severities, Warranted;
    DraftBack(f, baseline, views, i);
    var raw := RawDrafts(f, baseline, views);
    if !raw[i].klass.SourceConflict? {
      var c := ClaimOf(raw[i]);
      assert Claimed(raw, c);
      RawClaims(f, baseline, views, c);
      WarrantedReasons(f.policy, f.target, baseline.objects, views[0].snapshot, c);
      WarrantedClasses(f.policy, f.target, baseline.objects, views[0].snapshot, c);
    }
  }

  lemma WarrantedReasons(policy: ObservatoryPolicy, target: Text, objects: Table<Text, IntentObject>, s: Snapshot, c: Claim)
    requires Warranted(policy, target, objects, s, c)
    ensures !c.reason.NoReason?
  {
    hide SaidAbsent, SaidPresent, SaysNothing, MayDeny, Relate, Reports, ClassOf, HasField, FieldIs, MarkedPath;
  }

  function Usables(views: seq<View>): set<nat> { set i: nat | i < |views| && views[i].verdict.maySupportCompliance }

  lemma {:induction false} UsablesCounted(views: seq<View>)
    ensures CountUsable(views) == |Usables(views)|
  {
    if views == [] {
      assert Usables(views) == {};
    } else {
      var k := |views| - 1;
      UsablesCounted(views[..k]);
      assert Usables(views) == Usables(views[..k]) + if views[k].Usable() then {k} else {};
    }
  }

  /** What an evaluation says besides its drafts: whose it is, how fresh its best evidence was,
      how many sources spoke, and, unless it is compliant, its first draft's reason. */
  lemma EvaluationSays(target: Text, baseline: Option<Baseline>, policy: ObservatoryPolicy, maxRefs: nat, views: seq<View>)
    ensures
      var e := Conclude(target, baseline, policy, maxRefs, views);
      && e.target == target && e.hasBaseline == baseline.Some?
      && (baseline.Some? ==> e.generation == baseline.value.generation && e.epoch == baseline.value.epoch
                             && e.authority == baseline.value.authority)
      && e.bestFreshness == (if views == [] then Unestablished else views[0].verdict.state)
      && e.sourcesConsidered == |views| && e.freshSources == |Usables(views)|
      && (baseline.Some? && SomeoneUsable(views) ==>
            e.reason == if e.compliant then ClassifiedConverged
                        else if e.drafts != [] then e.drafts[0].reason else ObservationCoveragePartial)
  {
    hide RawDrafts, Regroup, AppliedBy, FirstReason, CountUsable, Usables, Blocking, Acting, Severities, Refs;
    UsablesCounted(views);
    UsableAny(views);
    if baseline.Some? && SomeoneUsable(views) {
      var f := FrameOf(target, baseline, policy, maxRefs);
      var ds := Regroup(f, RawDrafts(f, baseline.value, views), AppliedBy(views[0], baseline.value.objects));
      SameLength(f, RawDrafts(f, baseline.value, views), AppliedBy(views[0], baseline.value.objects));
      forall i | 0 <= i < |ds| ensures !ds[i].reason.NoReason? && (Blocking(ds[i].klass) || Acting(ds[i].klass)) {
        DraftReasoned(f, baseline.value, views, i);
      }
      FirstGiven(ds);
    }
  }

  /** Without intent a required target is reported as such; without usable evidence the target
      is reported stale, for the reason its best evidence was refused. */
  lemma WithoutGrounds(target: Text, baseline: Option<Baseline>, policy: ObservatoryPolicy, maxRefs: nat, views: seq<View>)
    requires baseline.None? || !SomeoneUsable(views)
    ensures
      var e := Conclude(target, baseline, policy, maxRefs, views);
      && !e.decidable && !e.compliant
      && (if baseline.None? then
            && e.reason == ClassifiedNoIntent && |e.drafts| == (if target in policy.requiredTargets then 1 else 0)
            && (target in policy.requiredTargets ==>
                  && e.drafts[0].klass.IntentMissing? && e.drafts[0].reason == ClassifiedNoIntent
                  && (e.drafts[0].complianceRelevant <==> views == [] || views[0].verdict.maySupportCompliance))
          else
            && e.reason == (if views == [] then NoFreshEvidence else views[0].verdict.reason)
            && |e.drafts| == 1 && e.drafts[0].klass.StaleObservation? && e.drafts[0].reason == e.reason
            && e.drafts[0].complianceRelevant)
      && forall i :: 0 <= i < |e.drafts| ==>
           e.drafts[i].target == target && e.drafts[i].objectId == "@target" && e.drafts[i].path == []
           && e.drafts[i].rawClass == e.drafts[i].klass && e.drafts[i].intended.None? && e.drafts[i].observed.None?
  {
    hide CountUsable, Severities, Refs;
    UsableAny(views);
  }
}
