/** What "compliant" means, and which drafts a comparison can produce. */
module Compliance {
  import opened Core
  import opened Values
  import opened Domain
  import opened Policy
  import opened Sorting
  import opened Comparison

  // ----- the meaning, without drafts

  /** Two sources contradict each other about one object. */
  predicate ObjectsClash(entry: Pair<Text, ObservedObject>, other: Snapshot, equivalence: NumericEquivalence) {
    var o := Find(other.objects, entry.key);
    o.Some? &&
    if entry.value.presence != o.value.presence then
      !entry.value.presence.UnknownPresence? && !o.value.presence.UnknownPresence?
    else exists i :: 0 <= i < |entry.value.fields| && FieldsClash(o.value, entry.value.fields[i], equivalence)
  }

  predicate SnapshotsClash(a: Snapshot, b: Snapshot, equivalence: NumericEquivalence) {
    exists i :: 0 <= i < |a.objects| && ObjectsClash(a.objects[i], b, equivalence)
  }

  /** No two usable sources among the first eight contradict each other. */
  predicate NoConflict(views: seq<View>, equivalence: NumericEquivalence) {
    forall i, j :: 0 <= i < j < ScanLimit(views) && views[i].Usable() && views[j].Usable()
      ==> !SnapshotsClash(views[i].snapshot, views[j].snapshot, equivalence)
  }

  predicate FieldAgrees(policy: ObservatoryPolicy, target: Text, item: Text, observed: ObservedObject,
                        field: Pair<Path, IntentField>)
  {
    ReservedPath(field.key) ||
    match Classify(policy.fieldClassRules, target, item, field.key, field.value.comparability)
    case Unmanaged => true
    case ObserveOnly => true
    case Unobservable => false
    case UnsupportedClass => false
    case Managed =>
      var seen := Find(observed.fields, field.key);
      seen.Some? && Relate(field.value.intended, seen.value, policy.equivalence, 0).Equal?
  }

  predicate Declared(intent: IntentObject, path: Path) { ReservedPath(path) || Find(intent.fields, path).Some? }

  predicate ObjectAgrees(policy: ObservatoryPolicy, target: Text, snapshot: Snapshot, entry: Pair<Text, IntentObject>) {
    var seen := Find(snapshot.objects, entry.key);
    var present := seen.Some? && seen.value.presence.Present?;
    if entry.value.existence.Forbidden? then !present
    else
      && present
      && (forall i :: 0 <= i < |entry.value.fields|
            ==> FieldAgrees(policy, target, entry.key, seen.value, entry.value.fields[i]))
      && (forall i :: 0 <= i < |seen.value.fields| ==> Declared(entry.value, seen.value.fields[i].key))
  }

  /** The target matches its baseline as seen by the primary source. */
  predicate Complies(policy: ObservatoryPolicy, target: Text, baseline: Baseline, views: seq<View>)
    requires views != []
  {
    var primary := views[0].snapshot;
    && (policy.requireCompleteCoverage ==> primary.DeclaresCompleteCoverage())
    && NoConflict(views, policy.equivalence)
    && (forall i :: 0 <= i < |baseline.objects| ==> ObjectAgrees(policy, target, primary, baseline.objects[i]))
    && (forall i :: 0 <= i < |primary.objects| ==> !Undeclared(baseline.objects, primary.objects[i]))
  }

  // ----- no draft exactly when everything agrees

  lemma {:induction false} NoFieldConflict(f: Frame, lhs: View, rhs: View, item: Text, other: ObservedObject,
                                           fields: Table<Path, Value>)
    ensures FieldConflicts(f, lhs, rhs, item, other, fields) == []
       <==> forall i :: 0 <= i < |fields| ==> !FieldsClash(other, fields[i], f.policy.equivalence)
  {
    hide FieldsClash, MakeDraft;
    if fields != [] {
      var k := |fields| - 1;
      NoFieldConflict(f, lhs, rhs, item, other, fields[..k]);
      assert forall i :: 0 <= i < k ==> fields[..k][i] == fields[i];
    }
  }

  lemma NoObjectConflict(f: Frame, lhs: View, rhs: View, entry: Pair<Text, ObservedObject>)
    ensures ObjectConflicts(f, lhs, rhs, entry) == [] <==> !ObjectsClash(entry, rhs.snapshot, f.policy.equivalence)
  {
    hide FieldsClash, MakeDraft, FieldConflicts;
    var other := Find(rhs.snapshot.objects, entry.key);
    if other.Some? {
      NoFieldConflict(f, lhs, rhs, entry.key, other.value, entry.value.fields);
    }
  }

  lemma {:induction false} NoPairConflict(f: Frame, lhs: View, rhs: View, objects: Table<Text, ObservedObject>)
    ensures PairConflicts(f, lhs, rhs, objects) == []
       <==> forall i :: 0 <= i < |objects| ==> !ObjectsClash(objects[i], rhs.snapshot, f.policy.equivalence)
  {
    hide ObjectsClash, ObjectConflicts;
    if objects != [] {
      var k := |objects| - 1;
      NoPairConflict(f, lhs, rhs, objects[..k]);
      NoObjectConflict(f, lhs, rhs, objects[k]);
      assert forall i :: 0 <= i < k ==> objects[..k][i] == objects[i];
    }
  }

  lemma {:induction false} NoConflictWith(f: Frame, views: seq<View>, first: nat, n: nat)
    requires first < |views| && n <= |views|
    ensures ConflictsWith(f, views, first, n) == []
       <==> forall j :: first < j < n && views[j].Usable()
              ==> !SnapshotsClash(views[first].snapshot, views[j].snapshot, f.policy.equivalence)
    decreases n
  {
    hide PairConflicts, ObjectsClash;
    if n > first + 1 {
      NoConflictWith(f, views, first, n - 1);
      NoPairConflict(f, views[first], views[n - 1], views[first].snapshot.objects);
    }
  }

  lemma {:induction false} NoConflicts(f: Frame, views: seq<View>, m: nat)
    requires m <= ScanLimit(views)
    ensures Conflicts(f, views, m) == []
       <==> forall i, j :: 0 <= i < m && i < j < ScanLimit(views) && views[i].Usable() && views[j].Usable()
              ==> !SnapshotsClash(views[i].snapshot, views[j].snapshot, f.policy.equivalence)
  {
    hide ConflictsWith, SnapshotsClash;
    if m > 0 {
      NoConflicts(f, views, m - 1);
      NoConflictWith(f, views, m - 1, ScanLimit(views));
    }
  }

  lemma NoFieldDraft(f: Frame, primary: View, item: Text, observed: ObservedObject, field: Pair<Path, IntentField>)
    ensures FieldDraft(f, primary, item, observed, field.key, field.value) == []
       <==> FieldAgrees(f.policy, f.target, item, observed, field)
  {
    hide MakeDraft, Classify, Relate, FieldVisible, ReservedPath;
  }

  lemma {:induction false} NoFieldDrafts(f: Frame, primary: View, item: Text, observed: ObservedObject,
                                         fields: Table<Path, IntentField>)
    ensures FieldDrafts(f, primary, item, observed, fields) == []
       <==> forall i :: 0 <= i < |fields| ==> FieldAgrees(f.policy, f.target, item, observed, fields[i])
  {
    hide FieldDraft, FieldAgrees;
    if fields != [] {
      var k := |fields| - 1;
      NoFieldDrafts(f, primary, item, observed, fields[..k]);
      NoFieldDraft(f, primary, item, observed, fields[k]);
      assert forall i :: 0 <= i < k ==> fields[..k][i] == fields[i];
    }
  }

  lemma {:induction false} NoSurplusDrafts(f: Frame, primary: View, item: Text, intent: IntentObject,
                                           fields: Table<Path, Value>)
    ensures SurplusDrafts(f, primary, item, intent, fields) == []
       <==> forall i :: 0 <= i < |fields| ==> Declared(intent, fields[i].key)
  {
    hide MakeDraft, ReservedPath, Find;
    if fields != [] {
      var k := |fields| - 1;
      NoSurplusDrafts(f, primary, item, intent, fields[..k]);
      assert forall i :: 0 <= i < k ==> fields[..k][i] == fields[i];
    }
  }

  lemma NoObjectDrafts(f: Frame, primary: View, entry: Pair<Text, IntentObject>)
    ensures ObjectDrafts(f, primary, entry.key, entry.value) == []
       <==> ObjectAgrees(f.policy, f.target, primary.snapshot, entry)
  {
    hide MakeDraft, FieldDrafts, SurplusDrafts, FieldAgrees, Declared, ObjectFullyVisible;
    var seen := Find(primary.snapshot.objects, entry.key);
    if seen.Some? {
      NoFieldDrafts(f, primary, entry.key, seen.value, entry.value.fields);
      NoSurplusDrafts(f, primary, entry.key, entry.value, seen.value.fields);
    }
  }

  lemma {:induction false} NoDeclaredDrafts(f: Frame, primary: View, objects: Table<Text, IntentObject>)
    ensures DeclaredDrafts(f, primary, objects) == []
       <==> forall i :: 0 <= i < |objects| ==> ObjectAgrees(f.policy, f.target, primary.snapshot, objects[i])
  {
    hide ObjectDrafts, ObjectAgrees;
    if objects != [] {
      var k := |objects| - 1;
      NoDeclaredDrafts(f, primary, objects[..k]);
      NoObjectDrafts(f, primary, objects[k]);
      assert forall i :: 0 <= i < k ==> objects[..k][i] == objects[i];
    }
  }

  lemma {:induction false} NoUndeclaredDrafts(f: Frame, primary: View, declared: Table<Text, IntentObject>,
                                              objects: Table<Text, ObservedObject>)
    ensures UndeclaredDrafts(f, primary, declared, objects) == []
       <==> forall i :: 0 <= i < |objects| ==> !Undeclared(declared, objects[i])
  {
    hide MakeDraft, Undeclared;
    if objects != [] {
      var k := |objects| - 1;
      NoUndeclaredDrafts(f, primary, declared, objects[..k]);
      assert forall i :: 0 <= i < k ==> objects[..k][i] == objects[i];
    }
  }

  // ----- every draft is framed by the baseline and has a class that counts

  predicate Framed(f: Frame, d: Draft) {
    && d.target == f.target && d.generation == f.generation && d.epoch == f.epoch && d.authority == f.authority
    && (Blocking(d.klass) || Acting(d.klass))
  }

  predicate AllFramed(f: Frame, drafts: seq<Draft>) {
    forall i :: 0 <= i < |drafts| ==> Framed(f, drafts[i])
  }

  lemma {:induction false} ConflictsFramed(f: Frame, views: seq<View>, m: nat)
    requires m <= ScanLimit(views)
    ensures AllFramed(f, Conflicts(f, views, m))
  {
    hide ConflictsWith;
    if m > 0 {
      ConflictsFramed(f, views, m - 1);
      ConflictsWithFramed(f, views, m - 1, ScanLimit(views));
    }
  }

  lemma {:induction false} ConflictsWithFramed(f: Frame, views: seq<View>, first: nat, n: nat)
    requires first < |views| && n <= |views|
    ensures AllFramed(f, ConflictsWith(f, views, first, n))
    decreases n
  {
    hide PairConflicts;
    if n > first + 1 {
      ConflictsWithFramed(f, views, first, n - 1);
      PairFramed(f, views[first], views[n - 1], views[first].snapshot.objects);
    }
  }

  lemma {:induction false} PairFramed(f: Frame, lhs: View, rhs: View, objects: Table<Text, ObservedObject>)
    ensures AllFramed(f, PairConflicts(f, lhs, rhs, objects))
  {
    hide FieldConflicts;
    if objects != [] {
      var k := |objects| - 1;
      PairFramed(f, lhs, rhs, objects[..k]);
      var other := Find(rhs.snapshot.objects, objects[k].key);
      if other.Some? {
        FieldConflictsFramed(f, lhs, rhs, objects[k].key, other.value, objects[k].value.fields);
      }
    }
  }

  lemma {:induction false} FieldConflictsFramed(f: Frame, lhs: View, rhs: View, item: Text, other: ObservedObject,
                                                fields: Table<Path, Value>)
    ensures AllFramed(f, FieldConflicts(f, lhs, rhs, item, other, fields))
  {
    hide FieldsClash;
    if fields != [] {
      FieldConflictsFramed(f, lhs, rhs, item, other, fields[..|fields| - 1]);
    }
  }

  lemma {:induction false} DeclaredFramed(f: Frame, primary: View, objects: Table<Text, IntentObject>)
    ensures AllFramed(f, DeclaredDrafts(f, primary, objects))
  {
    hide ObjectDrafts;
    if objects != [] {
      var k := |objects| - 1;
      DeclaredFramed(f, primary, objects[..k]);
      ObjectFramed(f, primary, objects[k].key, objects[k].value);
    }
  }

  lemma ObjectFramed(f: Frame, primary: View, item: Text, intent: IntentObject)
    ensures AllFramed(f, ObjectDrafts(f, primary, item, intent))
  {
    hide FieldDrafts, SurplusDrafts, ObjectFullyVisible;
    var seen := Find(primary.snapshot.objects, item);
    if seen.Some? {
      FieldsFramed(f, primary, item, seen.value, intent.fields);
      SurplusFramed(f, primary, item, intent, seen.value.fields);
    }
  }

  lemma {:induction false} FieldsFramed(f: Frame, primary: View, item: Text, observed: ObservedObject,
                                        fields: Table<Path, IntentField>)
    ensures AllFramed(f, FieldDrafts(f, primary, item, observed, fields))
  {
    hide FieldDraft, Framed;
    if fields != [] {
      var k := |fields| - 1;
      FieldsFramed(f, primary, item, observed, fields[..k]);
      FieldFramed(f, primary, item, observed, fields[k].key, fields[k].value);
    }
  }

  lemma FieldFramed(f: Frame, primary: View, item: Text, observed: ObservedObject, path: Path, field: IntentField)
    ensures AllFramed(f, FieldDraft(f, primary, item, observed, path, field))
  {
    hide Relate, Classify, FieldVisible, ReservedPath, Severities, Refs;
  }

  lemma {:induction false} SurplusFramed(f: Frame, primary: View, item: Text, intent: IntentObject,
                                         fields: Table<Path, Value>)
    ensures AllFramed(f, SurplusDrafts(f, primary, item, intent, fields))
  {
    hide ReservedPath, Find;
    if fields != [] {
      SurplusFramed(f, primary, item, intent, fields[..|fields| - 1]);
    }
  }

  lemma {:induction false} UndeclaredFramed(f: Frame, primary: View, declared: Table<Text, IntentObject>,
                                            objects: Table<Text, ObservedObject>)
    ensures AllFramed(f, UndeclaredDrafts(f, primary, declared, objects))
  {
    hide Undeclared;
    if objects != [] {
      UndeclaredFramed(f, primary, declared, objects[..|objects| - 1]);
    }
  }

  lemma RawFramed(f: Frame, baseline: Baseline, views: seq<View>)
    requires views != []
    ensures AllFramed(f, RawDrafts(f, baseline, views))
  {
    hide Conflicts, DeclaredDrafts, UndeclaredDrafts, Framed;
    ConflictsFramed(f, views, ScanLimit(views));
    DeclaredFramed(f, views[0], baseline.objects);
    UndeclaredFramed(f, views[0], baseline.objects, views[0].snapshot.objects);
  }

  /** Regrouping keeps every draft framed, and neither adds nor removes one. */
  lemma RegroupFramed(f: Frame, drafts: seq<Draft>, applied: seq<nat>)
    requires AllFramed(f, drafts)
    ensures AllFramed(f, Regroup(f, drafts, applied)) && |Regroup(f, drafts, applied)| == |drafts|
  {
    hide Ascending, Severities;
    forall i | 0 <= i < |drafts|
      ensures Framed(f, RegroupOne(f, drafts[i], true, applied)) && Framed(f, RegroupOne(f, drafts[i], false, applied))
    {
      assert Framed(f, drafts[i]);
    }
  }

  // ----- the main results

  /** With a baseline and usable evidence, a target is compliant exactly when it agrees
      with the baseline; regrouping never changes this. */
  lemma CompliantMeans(target: Text, baseline: Baseline, policy: ObservatoryPolicy, maxRefs: nat, views: seq<View>)
    requires AnyUsable(views)
    ensures Conclude(target, Some(baseline), policy, maxRefs, views).compliant
       <==> Complies(policy, target, baseline, views)
  {
    hide RawDrafts, Regroup, AppliedBy, FirstReason, CountUsable, NoConflict, ObjectAgrees, Undeclared, AllFramed,
         ScanLimit;
    var f := FrameOf(target, Some(baseline), policy, maxRefs);
    var raw := RawDrafts(f, baseline, views);
    var drafts := Regroup(f, raw, AppliedBy(views[0], baseline.objects));
    RawFramed(f, baseline, views);
    RegroupFramed(f, raw, AppliedBy(views[0], baseline.objects));
    NothingCounts(f, drafts);
    RawEmpty(f, baseline, views);
  }

  lemma NothingCounts(f: Frame, drafts: seq<Draft>)
    requires AllFramed(f, drafts)
    ensures drafts == []
       <==> && (forall i :: 0 <= i < |drafts| ==> !Blocking(drafts[i].klass))
            && (forall i :: 0 <= i < |drafts| ==> !Acting(drafts[i].klass))
  {
    hide Blocking, Acting;
    if drafts != [] { assert Framed(f, drafts[0]); }
  }

  lemma RawEmpty(f: Frame, baseline: Baseline, views: seq<View>)
    requires views != []
    ensures RawDrafts(f, baseline, views) == []
       <==> && NoConflict(views, f.policy.equivalence)
            && (forall i :: 0 <= i < |baseline.objects|
                  ==> ObjectAgrees(f.policy, f.target, views[0].snapshot, baseline.objects[i]))
            && (forall i :: 0 <= i < |views[0].snapshot.objects|
                  ==> !Undeclared(baseline.objects, views[0].snapshot.objects[i]))
  {
    hide Conflicts, DeclaredDrafts, UndeclaredDrafts, ObjectAgrees, Undeclared, SnapshotsClash, ScanLimit;
    NoConflicts(f, views, ScanLimit(views));
    NoDeclaredDrafts(f, views[0], baseline.objects);
    NoUndeclaredDrafts(f, views[0], baseline.objects, views[0].snapshot.objects);
  }

  /** Without a baseline or without usable evidence nothing is decided, let alone compliant. */
  lemma UndecidedWithoutEvidence(target: Text, baseline: Option<Baseline>, policy: ObservatoryPolicy, maxRefs: nat,
                                 views: seq<View>)
    requires baseline.None? || !AnyUsable(views)
    ensures
      var r := Conclude(target, baseline, policy, maxRefs, views);
      && !r.decidable && !r.compliant
      && (|r.drafts| == 1 <==> baseline.Some? || target in policy.requiredTargets)
      && (forall i :: 0 <= i < |r.drafts| ==> r.drafts[i].klass.StaleObservation? || r.drafts[i].klass.IntentMissing?)
  {
    hide CountUsable, Severities;
  }

  /** The usable views come first, so the primary view is usable whenever any view is. */
  lemma PrimaryIsUsable(views: seq<View>)
    requires Ordered(ViewLess, views)
    ensures AnyUsable(views) <==> views != [] && views[0].Usable()
  {
    if AnyUsable(views) {
      var i :| 0 <= i < |views| && views[i].Usable();
      if i > 0 { assert !ViewLess(views[i], views[0]); }
    }
  }

  /** Every draft of an evaluation names the evaluation's target and baseline generation. */
  lemma EvaluationFramed(target: Text, baseline: Option<Baseline>, policy: ObservatoryPolicy, maxRefs: nat,
                         views: seq<View>)
    ensures
      var r := Conclude(target, baseline, policy, maxRefs, views);
      && r.target == target && r.hasBaseline == baseline.Some?
      && r.generation == (if baseline.Some? then baseline.value.generation else 0)
      && AllFramed(FrameOf(target, baseline, policy, maxRefs), r.drafts)
      && (r.compliant ==> r.decidable)
  {
    hide RawDrafts, Regroup, AppliedBy, FirstReason, CountUsable, Severities, Framed;
    var f := FrameOf(target, baseline, policy, maxRefs);
    var r := Conclude(target, baseline, policy, maxRefs, views);
    if baseline.Some? && AnyUsable(views) {
      RawFramed(f, baseline.value, views);
      RegroupFramed(f, RawDrafts(f, baseline.value, views), AppliedBy(views[0], baseline.value.objects));
    } else {
      forall i | 0 <= i < |r.drafts| ensures Framed(f, r.drafts[i]) {
        ScopeFramed(target, baseline, policy, maxRefs, views);
      }
    }
  }

  lemma ScopeFramed(target: Text, baseline: Option<Baseline>, policy: ObservatoryPolicy, maxRefs: nat, views: seq<View>)
    requires baseline.None? || !AnyUsable(views)
    ensures AllFramed(FrameOf(target, baseline, policy, maxRefs),
                      Conclude(target, baseline, policy, maxRefs, views).drafts)
  {
    hide CountUsable, Severities;
  }
}
