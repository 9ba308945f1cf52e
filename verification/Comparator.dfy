/** The comparator as the program runs it, loop by loop, against its specification. */
module Comparator {
  import opened Core
  import opened Values
  import opened Domain
  import opened Policy
  import opened Sorting
  import opened Comparison

  method CompareTarget(input: Input, policy: ObservatoryPolicy, maxRefs: nat) returns (r: Evaluation)
    ensures Compares(input, policy, maxRefs, r)
  {
    hide Conclude, Current;
    if |input.snapshots| != |input.freshness| {
      return Mismatched(input);
    }
    var views := CurrentViews(input, policy);
    r := Evaluate(input.target, input.baseline, policy, maxRefs, views);
  }

  method CurrentViews(input: Input, policy: ObservatoryPolicy) returns (chosen: seq<View>)
    requires |input.snapshots| == |input.freshness|
    ensures Current(Views(input, policy), chosen)
  {
    hide *;
    var views: seq<View> := [];
    for index := 0 to |input.snapshots|
      invariant |views| == index
      invariant forall i :: 0 <= i < index ==> views[i] == ViewOf(input.snapshots[i], input.freshness[i], policy)
    {
      views := views + [ViewOf(input.snapshots[index], input.freshness[index], policy)];
    }
    ViewsAre(input, policy, views);
    BySourceWeak();
    ViewLessWeak();
    var grouped := Sort(BySource, views);
    var newest := DropSuperseded(grouped);
    chosen := Sort(ViewLess, newest);
    SortedIsCurrent(views, grouped, newest, chosen);
  }

  lemma ViewsAre(input: Input, policy: ObservatoryPolicy, views: seq<View>)
    requires |input.snapshots| == |input.freshness| == |views|
    requires forall i :: 0 <= i < |views| ==> views[i] == ViewOf(input.snapshots[i], input.freshness[i], policy)
    ensures views == Views(input, policy)
  {}

  predicate Rising(newest: seq<View>) {
    forall i, j :: 0 <= i < j < |newest| ==> Less(newest[i].snapshot.source, newest[j].snapshot.source)
  }

  predicate AllRepresented(grouped: seq<View>, newest: seq<View>) {
    forall i :: 0 <= i < |grouped| ==> Represented(grouped[i], newest)
  }

  method DropSuperseded(grouped: seq<View>) returns (newest: seq<View>)
    requires Ordered(BySource, grouped)
    ensures Within(newest, grouped) && AllRepresented(grouped, newest) && Rising(newest)
  {
    hide Less, BySource, Represented, Ordered, Newer;
    newest := [];
    ghost var last := 0;
    for index := 0 to |grouped|
      invariant Within(newest, grouped) && AllRepresented(grouped[..index], newest) && Rising(newest)
      invariant newest != [] ==> last < index && newest[|newest| - 1] == grouped[last]
    {
      var view := grouped[index];
      assert grouped[..index + 1] == grouped[..index] + [view];
      if newest != [] && newest[|newest| - 1].SameSource(view) {
        Superseded(grouped, index, newest, last);
        continue;
      }
      KeepsRepresented(grouped[..index], newest, view);
      KeepsRising(grouped, index, newest, last);
      newest := newest + [view];
      last := index;
    }
    assert grouped[..|grouped|] == grouped;
  }

  lemma Superseded(grouped: seq<View>, index: nat, newest: seq<View>, last: nat)
    requires Ordered(BySource, grouped) && last < index < |grouped| && newest != []
    requires newest[|newest| - 1] == grouped[last] && newest[|newest| - 1].SameSource(grouped[index])
    ensures Represented(grouped[index], newest)
  {
    hide Newer, Less;
    assert !BySource(grouped[index], grouped[last]);
  }

  lemma KeepsRising(grouped: seq<View>, index: nat, newest: seq<View>, last: nat)
    requires Ordered(BySource, grouped) && index < |grouped| && Rising(newest)
    requires newest != [] ==> last < index && newest[|newest| - 1] == grouped[last]
                              && !newest[|newest| - 1].SameSource(grouped[index])
    ensures Rising(newest + [grouped[index]])
  {
    hide Newer, Less;
    if newest != [] {
      var x, y := grouped[last].snapshot.source, grouped[index].snapshot.source;
      assert !BySource(grouped[index], grouped[last]);
      LessTotal(x, y);
      forall i | 0 <= i < |newest| ensures Less(newest[i].snapshot.source, y) {
        if i < |newest| - 1 { LessTransitive(newest[i].snapshot.source, x, y); }
      }
    }
  }

  lemma KeepsRepresented(seen: seq<View>, newest: seq<View>, view: View)
    requires AllRepresented(seen, newest)
    ensures AllRepresented(seen + [view], newest + [view])
  {
    hide Newer;
    forall i | 0 <= i < |seen| ensures Represented(seen[i], newest + [view]) {
      assert Represented(seen[i], newest);
      var j :| 0 <= j < |newest| && newest[j].SameSource(seen[i]) && !Newer(seen[i].snapshot, newest[j].snapshot);
      assert (newest + [view])[j] == newest[j];
    }
    NotNewerThanItself(view);
    assert (newest + [view])[|newest|] == view;
  }

  lemma NotNewerThanItself(view: View)
    ensures !Newer(view.snapshot, view.snapshot)
  {}

  lemma SortedIsCurrent(views: seq<View>, grouped: seq<View>, newest: seq<View>, chosen: seq<View>)
    requires multiset(grouped) == multiset(views)
    requires Within(newest, grouped) && AllRepresented(grouped, newest) && Rising(newest)
    requires multiset(chosen) == multiset(newest) && Ordered(ViewLess, chosen)
    ensures Current(views, chosen)
  {
    hide Newer, Less, ViewLess, Ordered, Within, Represented, Rising, AllRepresented;
    SortedWithin(views, grouped, newest, chosen);
    forall i | 0 <= i < |views| ensures Represented(views[i], chosen) {
      StillRepresented(views, grouped, newest, chosen, i);
    }
    forall i, j | 0 <= i < j < |chosen| ensures !chosen[i].SameSource(chosen[j]) {
      SourcesDiffer(newest, chosen, i, j);
    }
  }

  lemma SameElements(a: seq<View>, b: seq<View>, i: nat) returns (j: nat)
    requires multiset(a) == multiset(b) && i < |a|
    ensures j < |b| && b[j] == a[i]
  {
    assert a[i] in multiset(a);
    assert a[i] in b;
    j :| 0 <= j < |b| && b[j] == a[i];
  }

  lemma SortedWithin(views: seq<View>, grouped: seq<View>, newest: seq<View>, chosen: seq<View>)
    requires multiset(grouped) == multiset(views) && Within(newest, grouped) && multiset(chosen) == multiset(newest)
    ensures Within(chosen, views)
  {
    forall i | 0 <= i < |chosen| ensures chosen[i] in views {
      hide Within;
      var k := SameElements(chosen, newest, i);
      var j := At(newest, grouped, k);
      var l := SameElements(grouped, views, j);
    }
  }

  lemma StillRepresented(views: seq<View>, grouped: seq<View>, newest: seq<View>, chosen: seq<View>, i: nat)
    requires multiset(grouped) == multiset(views) && AllRepresented(grouped, newest) && i < |views|
    requires multiset(chosen) == multiset(newest)
    ensures Represented(views[i], chosen)
  {
    hide Newer;
    var j := SameElements(views, grouped, i);
    assert Represented(grouped[j], newest);
    var k :| 0 <= k < |newest| && newest[k].SameSource(grouped[j]) && !Newer(grouped[j].snapshot, newest[k].snapshot);
    var l := SameElements(newest, chosen, k);
  }

  lemma SourcesDiffer(newest: seq<View>, chosen: seq<View>, i: nat, j: nat)
    requires multiset(chosen) == multiset(newest) && i < j < |chosen| && Rising(newest)
    ensures !chosen[i].SameSource(chosen[j])
  {
    hide Less;
    var k := SameElements(chosen, newest, i);
    var l := SameElements(chosen, newest, j);
    if k == l {
      CountTwice(chosen, i, j);
      DistinctElements(newest);
      CountOnce(newest, newest[k]);
    } else if k < l {
      LessStrict(newest[k].snapshot.source, newest[l].snapshot.source);
    } else {
      LessStrict(newest[l].snapshot.source, newest[k].snapshot.source);
    }
  }

  lemma DistinctElements(newest: seq<View>)
    requires Rising(newest)
    ensures forall k, l :: 0 <= k < l < |newest| ==> newest[k] != newest[l]
  {
    hide Less;
    forall k, l | 0 <= k < l < |newest| ensures newest[k] != newest[l] {
      LessStrict(newest[k].snapshot.source, newest[l].snapshot.source);
    }
  }

  lemma CountTwice<T>(s: seq<T>, i: nat, j: nat)
    requires i < j < |s| && s[i] == s[j]
    ensures multiset(s)[s[i]] >= 2
  {
    assert s == s[..i] + [s[i]] + s[i + 1..j] + [s[j]] + s[j + 1..];
  }

  lemma {:induction false} CountOnce<T>(s: seq<T>, x: T)
    requires forall k, l :: 0 <= k < l < |s| ==> s[k] != s[l]
    ensures multiset(s)[x] <= 1
  {
    if s != [] {
      var k := |s| - 1;
      CountOnce(s[..k], x);
      assert s == s[..k] + [s[k]];
      if x == s[k] { assert x !in s[..k]; }
    }
  }

  // ----- evaluating the current views

  method Evaluate(target: Text, baseline: Option<Baseline>, policy: ObservatoryPolicy, maxRefs: nat, views: seq<View>)
    returns (r: Evaluation)
    ensures r == Conclude(target, baseline, policy, maxRefs, views)
  {
    hide MakeDraft, RawDrafts, Regroup, AppliedBy, FirstReason, Severities, CountUsable, Decide;
    var f := FrameOf(target, baseline, policy, maxRefs);
    var usable := UsableCount(views);
    var start := Evaluation(target, baseline.Some?, f.generation, f.epoch, f.authority,
                            if views == [] then Unestablished else views[0].verdict.state,
                            |views|, usable, false, false, ClassifiedNoIntent, []);
    if baseline.None? {
      if target in policy.requiredTargets {
        var draft := MakeDraft(f, TARGET_SCOPE, [], IntentMissing, ClassifiedNoIntent, None, None,
                               if views == [] then [] else [views[0]], Unqualified);
        draft := draft.(complianceRelevant := views == [] || views[0].Usable());
        return start.(drafts := [draft]);
      }
      return start;
    }
    var anyUsable := false;
    for index := 0 to |views|
      invariant !anyUsable && forall i :: 0 <= i < index ==> !views[i].Usable()
    {
      if views[index].Usable() {
        anyUsable := true;
        break;
      }
    }
    assert anyUsable <==> AnyUsable(views);
    if !anyUsable {
      var reason := if views == [] then NoFreshEvidence else views[0].verdict.reason;
      var draft := MakeDraft(f, TARGET_SCOPE, [], StaleObservation, reason, None, None, views, Unqualified);
      return start.(drafts := [draft], reason := reason);
    }
    var drafts := CollectDrafts(f, baseline.value, views);
    var applied := ScanAppliedGenerations(views[0], baseline.value.objects);
    drafts := RegroupDrafts(f, drafts, applied);
    r := DecideCompliance(start, drafts, !policy.requireCompleteCoverage || views[0].Complete());
  }

  method UsableCount(views: seq<View>) returns (n: nat)
    ensures n == CountUsable(views)
  {
    n := 0;
    for index := 0 to |views|
      invariant n == CountUsable(views[..index])
    {
      assert views[..index + 1][..index] == views[..index];
      if views[index].Usable() { n := n + 1; }
    }
    assert views[..|views|] == views;
  }

  method CollectDrafts(f: Frame, baseline: Baseline, views: seq<View>) returns (drafts: seq<Draft>)
    requires views != []
    ensures drafts == RawDrafts(f, baseline, views)
  {
    hide Conflicts, DeclaredDrafts, UndeclaredDrafts, ScanLimit;
    var conflicts := ScanConflicts(f, views);
    var declared := CompareObjects(f, views[0], baseline.objects);
    var undeclared := FindUndeclared(f, views[0], baseline.objects);
    drafts := conflicts + declared + undeclared;
  }

  method ScanConflicts(f: Frame, views: seq<View>) returns (drafts: seq<Draft>)
    ensures drafts == Conflicts(f, views, ScanLimit(views))
  {
    hide PairConflicts;
    drafts := [];
    var first := 0;
    while first < |views| && first < MAX_CONFLICT_SOURCES
      invariant first <= ScanLimit(views) && drafts == Conflicts(f, views, first)
    {
      if views[first].Usable() {
        ghost var before := drafts;
        var second := first + 1;
        while second < |views| && second < MAX_CONFLICT_SOURCES
          invariant first < second <= ScanLimit(views) || second == first + 1
          invariant second <= |views|
          invariant drafts == before + ConflictsWith(f, views, first, second)
        {
          if views[second].Usable() {
            var found := ComparePair(f, views[first], views[second]);
            drafts := drafts + found;
          }
          second := second + 1;
        }
        assert second == ScanLimit(views);
      }
      first := first + 1;
    }
  }

  method ComparePair(f: Frame, lhs: View, rhs: View) returns (drafts: seq<Draft>)
    ensures drafts == PairConflicts(f, lhs, rhs, lhs.snapshot.objects)
  {
    hide MakeDraft, FieldConflicts, PairQualifier, PresenceText;
    drafts := [];
    var objects := lhs.snapshot.objects;
    for index := 0 to |objects|
      invariant drafts == PairConflicts(f, lhs, rhs, objects[..index])
    {
      assert objects[..index + 1][..index] == objects[..index];
      var entry := objects[index];
      var other := Find(rhs.snapshot.objects, entry.key);
      if other.None? { continue; }
      if entry.value.presence != other.value.presence {
        if entry.value.presence.UnknownPresence? || other.value.presence.UnknownPresence? { continue; }
        drafts := drafts + [MakeDraft(f, entry.key, [], SourceConflict, ObservationSourcesDisagree,
                                      Some(PresenceText(other.value.presence)),
                                      Some(PresenceText(entry.value.presence)), [lhs, rhs], PairQualifier(lhs, rhs))];
        continue;
      }
      var found := CompareFields(f, lhs, rhs, entry.key, other.value, entry.value.fields);
      drafts := drafts + found;
    }
    assert objects[..|objects|] == objects;
  }

  method CompareFields(f: Frame, lhs: View, rhs: View, item: Text, other: ObservedObject, fields: Table<Path, Value>)
    returns (drafts: seq<Draft>)
    ensures drafts == FieldConflicts(f, lhs, rhs, item, other, fields)
  {
    hide MakeDraft, Relate, PairQualifier;
    drafts := [];
    for index := 0 to |fields|
      invariant drafts == FieldConflicts(f, lhs, rhs, item, other, fields[..index])
    {
      assert fields[..index + 1][..index] == fields[..index];
      var otherField := Find(other.fields, fields[index].key);
      if otherField.None? { continue; }
      var relation := RelateValues(fields[index].value, otherField.value, f.policy.equivalence, 0);
      if !relation.Different? { continue; }
      drafts := drafts + [MakeDraft(f, item, fields[index].key, SourceConflict, ObservationSourcesDisagree,
                                    otherField, Some(fields[index].value), [lhs, rhs], PairQualifier(lhs, rhs))];
    }
    assert fields[..|fields|] == fields;
  }

  method CompareObjects(f: Frame, primary: View, objects: Table<Text, IntentObject>) returns (drafts: seq<Draft>)
    ensures drafts == DeclaredDrafts(f, primary, objects)
  {
    hide ObjectDrafts;
    drafts := [];
    for index := 0 to |objects|
      invariant drafts == DeclaredDrafts(f, primary, objects[..index])
    {
      assert objects[..index + 1][..index] == objects[..index];
      var found := CompareObject(f, primary, objects[index].key, objects[index].value);
      drafts := drafts + found;
    }
    assert objects[..|objects|] == objects;
  }

  method CompareObject(f: Frame, primary: View, item: Text, intent: IntentObject) returns (drafts: seq<Draft>)
    ensures drafts == ObjectDrafts(f, primary, item, intent)
  {
    hide MakeDraft, FieldDrafts, SurplusDrafts;
    var observed := Find(primary.snapshot.objects, item);
    var presence := UnknownPresence;
    if observed.Some? {
      presence := observed.value.presence;
    } else if primary.snapshot.DeclaresUnobserved(item) {
      presence := UnknownPresence;
    } else if ObjectFullyVisible(primary, item) {
      presence := Absent;
    }
    if intent.existence.Required? {
      if presence.Absent? {
        if f.policy.requireAbsenceAuthority && !primary.snapshot.capabilities.assertsAbsence {
          return [MakeDraft(f, item, [], UnknownDrift, ObservationSourceCannotAssertAbsence, None, None, [primary],
                            Unqualified)];
        }
        return [MakeDraft(f, item, [], Missing, ClassifiedObjectMissing, Some(String("required")),
                          Some(String("absent")), [primary], Unqualified)];
      }
      if presence.UnknownPresence? {
        return [MakeDraft(f, item, [], UnknownDrift,
                          if primary.snapshot.DeclaresUnobserved(item) then ObservationCoveragePartial
                          else ObservationCoverageUnknown, None, None, [primary], Unqualified)];
      }
    } else if presence.Present? {
      return [MakeDraft(f, item, [], Unexpected, ClassifiedObjectUnexpected, Some(String("forbidden")),
                        Some(String("present")), [primary], Unqualified)];
    }
    if !presence.Present? || observed.None? {
      return [];
    }
    var declared := CompareDeclared(f, primary, item, observed.value, intent.fields);
    var surplus := FindSurplus(f, primary, item, intent, observed.value.fields);
    drafts := declared + surplus;
  }

  method CompareDeclared(f: Frame, primary: View, item: Text, observed: ObservedObject,
                         fields: Table<Path, IntentField>) returns (drafts: seq<Draft>)
    ensures drafts == FieldDrafts(f, primary, item, observed, fields)
  {
    hide FieldDraft;
    drafts := [];
    for index := 0 to |fields|
      invariant drafts == FieldDrafts(f, primary, item, observed, fields[..index])
    {
      assert fields[..index + 1][..index] == fields[..index];
      var found := CompareField(f, primary, item, observed, fields[index].key, fields[index].value);
      drafts := drafts + found;
    }
    assert fields[..|fields|] == fields;
  }

  method CompareField(f: Frame, primary: View, item: Text, observed: ObservedObject, path: Path, field: IntentField)
    returns (drafts: seq<Draft>)
    ensures drafts == FieldDraft(f, primary, item, observed, path, field)
  {
    hide MakeDraft, Classify, Relate, FieldVisible, ReservedPath;
    if ReservedPath(path) { return []; }
    var comparability := ClassifyField(f.policy, f.target, item, path, field.comparability);
    if comparability.Unmanaged? || comparability.ObserveOnly? { return []; }
    if comparability.Unobservable? {
      return [MakeDraft(f, item, path, UnknownDrift, ClassifiedNotObservable, None, None, [primary], Unqualified)];
    }
    if comparability.UnsupportedClass? {
      return [MakeDraft(f, item, path, Unsupported, ClassifiedUnsupportedField, None, None, [primary], Unqualified)];
    }
    var seen := Find(observed.fields, path);
    if seen.None? {
      if FieldVisible(primary, item, path) {
        return [MakeDraft(f, item, path, FieldMissing, ClassifiedFieldMissing, Some(field.intended), None, [primary],
                          Unqualified)];
      }
      return [MakeDraft(f, item, path, UnknownDrift, ObservationCoveragePartial, None, None, [primary], Unqualified)];
    }
    var relation := RelateValues(field.intended, seen.value, f.policy.equivalence, 0);
    if relation.Equal? { return []; }
    if relation.Incomparable? {
      return [MakeDraft(f, item, path, Unsupported, ClassifiedFieldNotComparable, Some(field.intended), seen,
                        [primary], Unqualified)];
    }
    return [MakeDraft(f, item, path, ValueMismatch, ClassifiedValueMismatch, Some(field.intended), seen, [primary],
                      Unqualified)];
  }

  method FindSurplus(f: Frame, primary: View, item: Text, intent: IntentObject, fields: Table<Path, Value>)
    returns (drafts: seq<Draft>)
    ensures drafts == SurplusDrafts(f, primary, item, intent, fields)
  {
    hide MakeDraft, ReservedPath;
    drafts := [];
    for index := 0 to |fields|
      invariant drafts == SurplusDrafts(f, primary, item, intent, fields[..index])
    {
      assert fields[..index + 1][..index] == fields[..index];
      if ReservedPath(fields[index].key) { continue; }
      if Find(intent.fields, fields[index].key).Some? { continue; }
      drafts := drafts + [MakeDraft(f, item, fields[index].key, FieldUnexpected, ClassifiedFieldUnexpected, None,
                                    Some(fields[index].value), [primary], Unqualified)];
    }
    assert fields[..|fields|] == fields;
  }

  method FindUndeclared(f: Frame, primary: View, declared: Table<Text, IntentObject>) returns (drafts: seq<Draft>)
    ensures drafts == UndeclaredDrafts(f, primary, declared, primary.snapshot.objects)
  {
    hide MakeDraft, ReservedObject;
    drafts := [];
    var objects := primary.snapshot.objects;
    for index := 0 to |objects|
      invariant drafts == UndeclaredDrafts(f, primary, declared, objects[..index])
    {
      assert objects[..index + 1][..index] == objects[..index];
      if ReservedObject(objects[index].key) { continue; }
      if Find(declared, objects[index].key).Some? { continue; }
      if !objects[index].value.presence.Present? { continue; }
      drafts := drafts + [MakeDraft(f, objects[index].key, [], Unexpected, ClassifiedObjectUnexpected, None,
                                    Some(String("present")), [primary], Unqualified)];
    }
    assert objects[..|objects|] == objects;
  }

  // ----- regrouping and the decision

  method ScanAppliedGenerations(primary: View, objects: Table<Text, IntentObject>) returns (applied: seq<nat>)
    ensures applied == AppliedBy(primary, objects)
  {
    hide AppliedGeneration;
    applied := [];
    for index := 0 to |objects|
      invariant applied == AppliedBy(primary, objects[..index])
    {
      assert objects[..index + 1][..index] == objects[..index];
      var observed := Find(primary.snapshot.objects, objects[index].key);
      if observed.None? || !observed.value.presence.Present? { continue; }
      var generation := AppliedGeneration(observed.value);
      if generation.None? { continue; }
      applied := applied + [generation.value];
    }
    assert objects[..|objects|] == objects;
  }

  method RegroupDrafts(f: Frame, drafts: seq<Draft>, applied: seq<nat>) returns (r: seq<Draft>)
    ensures r == Regroup(f, drafts, applied)
  {
    hide RegroupOne, Ascending;
    if applied == [] { return drafts; }
    var deviation := false;
    for index := 0 to |drafts|
      invariant !deviation && forall i :: 0 <= i < index ==> !Deviation(drafts[i].klass)
    {
      if Deviation(drafts[index].klass) {
        deviation := true;
        break;
      }
    }
    assert deviation <==> HasDeviation(drafts);
    var partial := PartiallyApplied(applied, f.generation);
    if !deviation || !(partial || NotApplied(applied, f.generation)) { return drafts; }
    r := [];
    for index := 0 to |drafts|
      invariant r == RegroupAll(f, drafts[..index], partial, applied)
    {
      assert drafts[..index + 1][..index] == drafts[..index];
      r := r + [RegroupOne(f, drafts[index], partial, applied)];
    }
    assert drafts[..|drafts|] == drafts;
  }

  method DecideCompliance(start: Evaluation, drafts: seq<Draft>, coverageOk: bool) returns (r: Evaluation)
    ensures r == Decide(start, drafts, coverageOk)
  {
    hide Blocking, Acting;
    var indeterminate, actionable, first := false, false, NoReason;
    for index := 0 to |drafts|
      invariant indeterminate <==> exists i :: 0 <= i < index && Blocking(drafts[i].klass)
      invariant !indeterminate ==> (actionable <==> exists i :: 0 <= i < index && Acting(drafts[i].klass))
      invariant first == FirstReason(drafts[..index])
    {
      assert drafts[..index + 1][..index] == drafts[..index];
      if Blocking(drafts[index].klass) {
        indeterminate := true;
        if first.NoReason? { first := drafts[index].reason; }
        continue;
      }
      if Acting(drafts[index].klass) {
        actionable := true;
        if first.NoReason? { first := drafts[index].reason; }
      }
    }
    assert drafts[..|drafts|] == drafts;
    var decidable := !indeterminate && coverageOk;
    var compliant := decidable && !actionable;
    r := start.(drafts := drafts, decidable := decidable, compliant := compliant,
                reason := if compliant then ClassifiedConverged
                          else if !first.NoReason? then first else ObservationCoveragePartial);
  }
}
