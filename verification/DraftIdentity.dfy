/** The drafts of one comparison have pairwise different identities, so a finding is
    created once for each draft. */
module DraftIdentity {
  import opened Core
  import opened Values
  import opened Domain
  import opened Policy
  import opened Comparison

  predicate DistinctIds(ds: seq<Draft>) {
    forall i, j :: 0 <= i < j < |ds| ==> ds[i].Id() != ds[j].Id()
  }

  function Location(d: Draft): (Text, Path) { (d.objectId, d.path) }

  predicate DistinctPlaces(ds: seq<Draft>) {
    forall i, j :: 0 <= i < j < |ds| ==> Location(ds[i]) != Location(ds[j])
  }

  lemma PrefixKeys<K, V>(t: Table<K, V>)
    requires t != [] && UniqueKeys(t)
    ensures UniqueKeys(t[..|t| - 1]) && !Holds(t[..|t| - 1], t[|t| - 1].key) && Holds(t, t[|t| - 1].key)
    ensures forall k :: Holds(t[..|t| - 1], k) ==> Holds(t, k)
  {
    forall k | Holds(t[..|t| - 1], k) ensures Holds(t, k) {
      var i :| 0 <= i < |t| - 1 && t[i].key == k;
    }
  }

  // ----- conflicts

  predicate ConflictAt(d: Draft, lhs: View, rhs: View) {
    d.klass.SourceConflict? && d.qualifier == PairQualifier(lhs, rhs)
  }

  lemma {:induction false} FieldConflictPlaces(f: Frame, lhs: View, rhs: View, item: Text, other: ObservedObject,
                                               fields: Table<Path, Value>)
    requires UniqueKeys(fields)
    ensures
      var ds := FieldConflicts(f, lhs, rhs, item, other, fields);
      && DistinctPlaces(ds)
      && forall i :: 0 <= i < |ds| ==> ConflictAt(ds[i], lhs, rhs) && ds[i].objectId == item && Holds(fields, ds[i].path)
  {
    hide FieldsClash, PairQualifier, Severities, UniqueKeys, Holds;
    if fields != [] {
      PrefixKeys(fields);
      FieldConflictPlaces(f, lhs, rhs, item, other, fields[..|fields| - 1]);
    }
  }

  lemma ObjectConflictPlaces(f: Frame, lhs: View, rhs: View, entry: Pair<Text, ObservedObject>)
    ensures
      var ds := ObjectConflicts(f, lhs, rhs, entry);
      && DistinctPlaces(ds)
      && forall i :: 0 <= i < |ds| ==> ConflictAt(ds[i], lhs, rhs) && ds[i].objectId == entry.key
  {
    hide FieldConflicts, PairQualifier, Severities, UniqueKeys, Holds;
    var other := Find(rhs.snapshot.objects, entry.key);
    if other.Some? {
      FieldConflictPlaces(f, lhs, rhs, entry.key, other.value, entry.value.fields);
    }
  }

  lemma {:induction false} PairConflictPlaces(f: Frame, lhs: View, rhs: View, objects: Table<Text, ObservedObject>)
    requires UniqueKeys(objects)
    ensures
      var ds := PairConflicts(f, lhs, rhs, objects);
      && DistinctPlaces(ds)
      && forall i :: 0 <= i < |ds| ==> ConflictAt(ds[i], lhs, rhs) && Holds(objects, ds[i].objectId)
  {
    hide ObjectConflicts, ConflictAt, UniqueKeys, Holds;
    if objects != [] {
      var k := |objects| - 1;
      PrefixKeys(objects);
      PairConflictPlaces(f, lhs, rhs, objects[..k]);
      ObjectConflictPlaces(f, lhs, rhs, objects[k]);
    }
  }

  predicate DistinctSources(views: seq<View>) {
    forall i, j :: 0 <= i < j < |views| ==> !views[i].SameSource(views[j])
  }

  /** A pair qualifier names its two sources and no others. */
  lemma QualifierNamesPair(views: seq<View>, i: nat, j: nat, k: nat, l: nat)
    requires DistinctSources(views) && i < j < |views| && k < l < |views|
    requires PairQualifier(views[i], views[j]) == PairQualifier(views[k], views[l])
    ensures i == k && j == l
  {
    assert {views[i].snapshot.source, views[j].snapshot.source} == {views[k].snapshot.source, views[l].snapshot.source};
    assert i == k || i == l by { SourceAmong(views, i, k, l); }
    assert j == k || j == l by { SourceAmong(views, j, k, l); }
  }

  lemma SourceAmong(views: seq<View>, i: nat, k: nat, l: nat)
    requires DistinctSources(views) && i < |views| && k < |views| && l < |views|
    requires views[i].snapshot.source in {views[k].snapshot.source, views[l].snapshot.source}
    ensures i == k || i == l
  {}

  predicate ConflictOf(d: Draft, views: seq<View>, first: nat, n: nat)
    requires first < |views| && n <= |views|
  {
    exists j :: first < j < n && ConflictAt(d, views[first], views[j])
  }

  lemma {:induction false} ConflictsWithDistinct(f: Frame, views: seq<View>, first: nat, n: nat)
    requires first < |views| && n <= |views| && DistinctSources(views)
    ensures
      var ds := ConflictsWith(f, views, first, n);
      DistinctIds(ds) && forall i :: 0 <= i < |ds| ==> ConflictOf(ds[i], views, first, n)
    decreases n
  {
    hide PairConflicts, PairQualifier, DistinctSources, UniqueKeys, Holds;
    if n > first + 1 {
      var before := ConflictsWith(f, views, first, n - 1);
      var next := PairConflicts(f, views[first], views[n - 1], views[first].snapshot.objects);
      ConflictsWithDistinct(f, views, first, n - 1);
      PairConflictPlaces(f, views[first], views[n - 1], views[first].snapshot.objects);
      forall i, j | 0 <= i < |before| && 0 <= j < |next| ensures before[i].Id() != next[j].Id() {
        var l :| first < l < n - 1 && ConflictAt(before[i], views[first], views[l]);
        if before[i].Id() == next[j].Id() {
          QualifierNamesPair(views, first, l, first, n - 1);
        }
      }
    }
  }

  predicate SomeConflict(d: Draft, views: seq<View>, m: nat)
    requires m <= ScanLimit(views)
  {
    exists k :: 0 <= k < m && ConflictOf(d, views, k, ScanLimit(views))
  }

  lemma {:induction false} ConflictsDistinct(f: Frame, views: seq<View>, m: nat)
    requires m <= ScanLimit(views) && DistinctSources(views)
    ensures
      var ds := Conflicts(f, views, m);
      && DistinctIds(ds)
      && forall i :: 0 <= i < |ds| ==> SomeConflict(ds[i], views, m)
  {
    hide ConflictsWith, PairQualifier, DistinctSources;
    if m > 0 {
      var before := Conflicts(f, views, m - 1);
      var next := ConflictsWith(f, views, m - 1, ScanLimit(views));
      ConflictsDistinct(f, views, m - 1);
      ConflictsWithDistinct(f, views, m - 1, ScanLimit(views));
      forall i, j | 0 <= i < |before| && 0 <= j < |next| ensures before[i].Id() != next[j].Id() {
        var k :| 0 <= k < m - 1 && ConflictOf(before[i], views, k, ScanLimit(views));
        var l :| k < l < ScanLimit(views) && ConflictAt(before[i], views[k], views[l]);
        var h :| m - 1 < h < ScanLimit(views) && ConflictAt(next[j], views[m - 1], views[h]);
        if before[i].Id() == next[j].Id() {
          QualifierNamesPair(views, k, l, m - 1, h);
        }
      }
      forall i | 0 <= i < |before| ensures SomeConflict(before[i], views, m) {
        var k :| 0 <= k < m - 1 && ConflictOf(before[i], views, k, ScanLimit(views));
      }
    }
  }

  // ----- comparison with the primary source

  predicate Plain(d: Draft) { !d.klass.SourceConflict? }

  lemma {:induction false} FieldPlaces(f: Frame, primary: View, item: Text, observed: ObservedObject,
                                       fields: Table<Path, IntentField>)
    requires UniqueKeys(fields)
    ensures
      var ds := FieldDrafts(f, primary, item, observed, fields);
      && DistinctPlaces(ds)
      && forall i :: 0 <= i < |ds| ==> Plain(ds[i]) && ds[i].objectId == item && Holds(fields, ds[i].path)
  {
    hide Severities, UniqueKeys, Holds, FieldDraft;
    if fields != [] {
      var k := |fields| - 1;
      PrefixKeys(fields);
      FieldPlaces(f, primary, item, observed, fields[..k]);
      FieldPlace(f, primary, item, observed, fields[k].key, fields[k].value);
    }
  }

  lemma FieldPlace(f: Frame, primary: View, item: Text, observed: ObservedObject, path: Path, field: IntentField)
    ensures
      var ds := FieldDraft(f, primary, item, observed, path, field);
      |ds| <= 1 && forall i :: 0 <= i < |ds| ==> Plain(ds[i]) && ds[i].objectId == item && ds[i].path == path
  {
    hide Severities, Relate, Classify, FieldVisible, ReservedPath;
  }

  lemma {:induction false} SurplusPlaces(f: Frame, primary: View, item: Text, intent: IntentObject,
                                         fields: Table<Path, Value>)
    requires UniqueKeys(fields)
    ensures
      var ds := SurplusDrafts(f, primary, item, intent, fields);
      && DistinctPlaces(ds)
      && forall i :: 0 <= i < |ds| ==> && Plain(ds[i]) && ds[i].objectId == item && Holds(fields, ds[i].path)
                                       && !Holds(intent.fields, ds[i].path)
  {
    hide Severities, UniqueKeys, Holds, ReservedPath;
    if fields != [] {
      PrefixKeys(fields);
      SurplusPlaces(f, primary, item, intent, fields[..|fields| - 1]);
    }
  }

  lemma ObjectPlaces(f: Frame, primary: View, item: Text, intent: IntentObject)
    ensures
      var ds := ObjectDrafts(f, primary, item, intent);
      DistinctPlaces(ds) && forall i :: 0 <= i < |ds| ==> Plain(ds[i]) && ds[i].objectId == item
  {
    hide Severities, UniqueKeys, Holds, FieldDrafts, SurplusDrafts, ObjectFullyVisible;
    var seen := Find(primary.snapshot.objects, item);
    if seen.Some? {
      FieldPlaces(f, primary, item, seen.value, intent.fields);
      SurplusPlaces(f, primary, item, intent, seen.value.fields);
    }
  }

  lemma {:induction false} DeclaredPlaces(f: Frame, primary: View, objects: Table<Text, IntentObject>)
    requires UniqueKeys(objects)
    ensures
      var ds := DeclaredDrafts(f, primary, objects);
      DistinctPlaces(ds) && forall i :: 0 <= i < |ds| ==> Plain(ds[i]) && Holds(objects, ds[i].objectId)
  {
    hide ObjectDrafts, UniqueKeys, Holds;
    if objects != [] {
      var k := |objects| - 1;
      PrefixKeys(objects);
      DeclaredPlaces(f, primary, objects[..k]);
      ObjectPlaces(f, primary, objects[k].key, objects[k].value);
    }
  }

  lemma {:induction false} UndeclaredPlaces(f: Frame, primary: View, declared: Table<Text, IntentObject>,
                                            objects: Table<Text, ObservedObject>)
    requires UniqueKeys(objects)
    ensures
      var ds := UndeclaredDrafts(f, primary, declared, objects);
      && DistinctPlaces(ds)
      && forall i :: 0 <= i < |ds| ==> Plain(ds[i]) && Holds(objects, ds[i].objectId) && !Holds(declared, ds[i].objectId)
  {
    hide Severities, UniqueKeys, Holds, ReservedObject;
    if objects != [] {
      PrefixKeys(objects);
      UndeclaredPlaces(f, primary, declared, objects[..|objects| - 1]);
    }
  }

  // ----- the result

  /** Regrouping leaves conflicts alone and never turns another draft into one. */
  lemma RegroupKeepsPlaces(f: Frame, d: Draft, partial: bool, applied: seq<nat>)
    ensures
      var r := RegroupOne(f, d, partial, applied);
      Location(r) == Location(d) && (Plain(r) <==> Plain(d)) && (!Plain(d) ==> r == d)
  {
    hide Ascending, Severities;
  }

  lemma RawDistinct(f: Frame, baseline: Baseline, views: seq<View>, ds: seq<Draft>)
    requires views != [] && DistinctSources(views)
    requires |ds| == |RawDrafts(f, baseline, views)|
    requires forall i :: 0 <= i < |ds| ==>
      var r := RawDrafts(f, baseline, views)[i];
      Location(ds[i]) == Location(r) && (Plain(ds[i]) <==> Plain(r)) && (!Plain(r) ==> ds[i] == r)
    ensures DistinctIds(ds)
  {
    hide Conflicts, DeclaredDrafts, UndeclaredDrafts, UniqueKeys, Holds, ConflictOf;
    var c := Conflicts(f, views, ScanLimit(views));
    var d := DeclaredDrafts(f, views[0], baseline.objects);
    var u := UndeclaredDrafts(f, views[0], baseline.objects, views[0].snapshot.objects);
    ConflictsDistinct(f, views, ScanLimit(views));
    ConflictsNotPlain(f, views);
    DeclaredPlaces(f, views[0], baseline.objects);
    UndeclaredPlaces(f, views[0], baseline.objects, views[0].snapshot.objects);
    var raw := RawDrafts(f, baseline, views);
    assert raw == c + d + u;
    assert DistinctPlaces(d + u);
    assert raw == c + (d + u);
    forall i, j | 0 <= i < j < |ds| ensures ds[i].Id() != ds[j].Id() {
      assert j < |c| ==> raw[i] == c[i] && raw[j] == c[j];
      assert i < |c| ==> raw[i] == c[i];
      assert j >= |c| ==> raw[j] == (d + u)[j - |c|];
      assert i >= |c| ==> raw[i] == (d + u)[i - |c|];
    }
  }

  lemma ConflictsNotPlain(f: Frame, views: seq<View>)
    requires DistinctSources(views)
    ensures var c := Conflicts(f, views, ScanLimit(views)); forall i :: 0 <= i < |c| ==> !Plain(c[i])
  {
    hide Conflicts, DistinctSources, PairQualifier;
    ConflictsDistinct(f, views, ScanLimit(views));
    var c := Conflicts(f, views, ScanLimit(views));
    forall i | 0 <= i < |c| ensures !Plain(c[i]) {
      assert SomeConflict(c[i], views, ScanLimit(views));
      var k :| 0 <= k < ScanLimit(views) && ConflictOf(c[i], views, k, ScanLimit(views));
    }
  }

  /** No two drafts of one evaluation share an identity, even after regrouping. */
  lemma EvaluationDistinct(target: Text, baseline: Option<Baseline>, policy: ObservatoryPolicy, maxRefs: nat,
                           views: seq<View>)
    requires DistinctSources(views)
    ensures DistinctIds(Conclude(target, baseline, policy, maxRefs, views).drafts)
  {
    hide RawDrafts, AppliedBy, FirstReason, CountUsable, Severities, Ascending, DistinctSources,
         RegroupOne, PartiallyApplied, NotApplied, HasDeviation;
    if baseline.Some? && AnyUsable(views) {
      var f := FrameOf(target, baseline, policy, maxRefs);
      var raw := RawDrafts(f, baseline.value, views);
      var applied := AppliedBy(views[0], baseline.value.objects);
      var ds := Regroup(f, raw, applied);
      forall i | 0 <= i < |raw| ensures Location(RegroupOne(f, raw[i], true, applied)) == Location(raw[i]) {
        RegroupKeepsPlaces(f, raw[i], true, applied);
      }
      forall i | 0 <= i < |ds|
        ensures Location(ds[i]) == Location(raw[i]) && (Plain(ds[i]) <==> Plain(raw[i]))
        ensures !Plain(raw[i]) ==> ds[i] == raw[i]
      {
        RegroupKeepsPlaces(f, raw[i], PartiallyApplied(applied, f.generation), applied);
      }
      RawDistinct(f, baseline.value, views, ds);
    }
  }
}
