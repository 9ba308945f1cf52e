/** Which drift is drafted where, and when a target can be decided, said of the baseline, the
    policy and the evidence alone. */
module Drifts {
  import opened Core
  import opened Values
  import opened Domain
  import opened Policy
  import opened Comparison

  // ----- what a source says about an object

  predicate Mentions(s: Snapshot, id: Text) { exists i :: 0 <= i < |s.objects| && s.objects[i].key == id }

  predicate Reports(s: Snapshot, id: Text, o: ObservedObject) {
    exists i :: 0 <= i < |s.objects| && s.objects[i] == Pair(id, o)
  }

  /** Saying nothing denies an object only if the whole target was seen and the object
      is not listed as unobserved. */
  predicate SilenceDenies(s: Snapshot, id: Text) {
    s.coverage.CompleteCoverage? && s.capabilities.completeCoverage && id !in s.unobserved
  }

  ghost predicate SaidAbsent(s: Snapshot, id: Text) {
    (!Mentions(s, id) && SilenceDenies(s, id)) || exists o :: Reports(s, id, o) && o.presence.Absent?
  }

  ghost predicate SaidPresent(s: Snapshot, id: Text) { exists o :: Reports(s, id, o) && o.presence.Present? }

  ghost predicate SaysNothing(s: Snapshot, id: Text) { !SaidAbsent(s, id) && !SaidPresent(s, id) }

  predicate MayDeny(policy: ObservatoryPolicy, s: Snapshot) {
    policy.requireAbsenceAuthority ==> s.capabilities.assertsAbsence
  }

  /** Names that begin with '@' belong to the program. */
  predicate MarkedName(name: Text) { name != [] && name[0] == '@' }

  predicate MarkedPath(path: Path) { path != [] && path[0].Key? && MarkedName(path[0].key) }

  predicate HasField<V>(fields: Table<Path, V>, path: Path) { exists i :: 0 <= i < |fields| && fields[i].key == path }

  predicate FieldIs<V(==)>(fields: Table<Path, V>, path: Path, v: V) {
    exists i :: 0 <= i < |fields| && fields[i] == Pair(path, v)
  }

  /** A flat reporter cannot deny a nested member. */
  predicate SilenceDeniesField(s: Snapshot, id: Text, path: Path) {
    SilenceDenies(s, id) && (|path| > 1 ==> s.capabilities.nestedPaths)
  }

  function ClassOf(policy: ObservatoryPolicy, target: Text, id: Text, path: Path, field: IntentField): Comparability {
    Classify(policy.fieldClassRules, target, id, path, field.comparability)
  }

  // ----- what may be drafted

  /** What a draft claims, before any regrouping. */
  datatype Claim = Claim(
    objectId: Text, path: Path, klass: DriftClass, reason: Reason, intended: Option<Value>, observed: Option<Value>)

  /** A claim about one declared field of an object reported present. */
  ghost predicate FieldWarrants(policy: ObservatoryPolicy, target: Text, s: Snapshot, id: Text, o: ObservedObject, path: Path,
                          field: IntentField, c: Claim)
  {
    var klass := ClassOf(policy, target, id, path, field);
    && c.objectId == id && c.path == path && !MarkedPath(path)
    && (|| (klass.Unobservable? && c == Claim(id, path, UnknownDrift, ClassifiedNotObservable, None, None))
        || (klass.UnsupportedClass? && c == Claim(id, path, Unsupported, ClassifiedUnsupportedField, None, None))
        || (klass.Managed? && !HasField(o.fields, path) && SilenceDeniesField(s, id, path)
            && c == Claim(id, path, FieldMissing, ClassifiedFieldMissing, Some(field.intended), None))
        || (klass.Managed? && !HasField(o.fields, path) && !SilenceDeniesField(s, id, path)
            && c == Claim(id, path, UnknownDrift, ObservationCoveragePartial, None, None))
        || (klass.Managed? && exists v :: FieldIs(o.fields, path, v) && ValueWarrants(policy, id, path, field, v, c)))
  }

  predicate ValueWarrants(policy: ObservatoryPolicy, id: Text, path: Path, field: IntentField, v: Value, c: Claim) {
    match Relate(field.intended, v, policy.equivalence, 0)
    case Equal => false
    case Different => c == Claim(id, path, ValueMismatch, ClassifiedValueMismatch, Some(field.intended), Some(v))
    case Incomparable => c == Claim(id, path, Unsupported, ClassifiedFieldNotComparable, Some(field.intended), Some(v))
  }

  /** A claim about a reported field that intent does not declare. */
  predicate SurplusWarrants(id: Text, intent: IntentObject, path: Path, v: Value, c: Claim) {
    && !MarkedPath(path) && !HasField(intent.fields, path)
    && c == Claim(id, path, FieldUnexpected, ClassifiedFieldUnexpected, None, Some(v))
  }

  ghost predicate ObjectWarrants(policy: ObservatoryPolicy, target: Text, s: Snapshot, id: Text, intent: IntentObject, c: Claim) {
    if intent.existence.Forbidden? then
      && SaidPresent(s, id)
      && c == Claim(id, [], Unexpected, ClassifiedObjectUnexpected, Some(String("forbidden")), Some(String("present")))
    else
      || (SaidAbsent(s, id) && MayDeny(policy, s)
          && c == Claim(id, [], Missing, ClassifiedObjectMissing, Some(String("required")), Some(String("absent"))))
      || (SaidAbsent(s, id) && !MayDeny(policy, s)
          && c == Claim(id, [], UnknownDrift, ObservationSourceCannotAssertAbsence, None, None))
      || (SaysNothing(s, id)
          && c == Claim(id, [], UnknownDrift,
                        if id in s.unobserved then ObservationCoveragePartial else ObservationCoverageUnknown, None, None))
      || exists o :: Reports(s, id, o) && o.presence.Present? && MemberWarrants(policy, target, s, id, intent, o, c)
  }

  ghost predicate MemberWarrants(policy: ObservatoryPolicy, target: Text, s: Snapshot, id: Text, intent: IntentObject,
                           o: ObservedObject, c: Claim)
  {
    || (exists i :: 0 <= i < |intent.fields|
          && FieldWarrants(policy, target, s, id, o, intent.fields[i].key, intent.fields[i].value, c))
    || (exists i :: 0 <= i < |o.fields| && SurplusWarrants(id, intent, o.fields[i].key, o.fields[i].value, c))
  }

  /** An object that is reported present and not declared at all. */
  predicate StrangerWarrants(objects: Table<Text, IntentObject>, entry: Pair<Text, ObservedObject>, c: Claim) {
    && entry.value.presence.Present? && !MarkedName(entry.key)
    && (forall i :: 0 <= i < |objects| ==> objects[i].key != entry.key)
    && c == Claim(entry.key, [], Unexpected, ClassifiedObjectUnexpected, None, Some(String("present")))
  }

  ghost predicate Warranted(policy: ObservatoryPolicy, target: Text, objects: Table<Text, IntentObject>, s: Snapshot, c: Claim) {
    || (exists i :: 0 <= i < |objects| && ObjectWarrants(policy, target, s, objects[i].key, objects[i].value, c))
    || (exists i :: 0 <= i < |s.objects| && StrangerWarrants(objects, s.objects[i], c))
  }

  // ----- drafts as claims

  /** The reason a draft had before a regrouping replaced it. */
  function ReasonOf(d: Draft): Reason {
    match d.rawClass
    case Missing => ClassifiedObjectMissing
    case FieldMissing => ClassifiedFieldMissing
    case ValueMismatch => ClassifiedValueMismatch
    case _ => d.reason
  }

  function ClaimOf(d: Draft): Claim { Claim(d.objectId, d.path, d.rawClass, ReasonOf(d), d.intended, d.observed) }

  predicate Claimed(ds: seq<Draft>, c: Claim) { exists i :: 0 <= i < |ds| && ClaimOf(ds[i]) == c }

  lemma ClaimedJoin(a: seq<Draft>, b: seq<Draft>, c: Claim)
    ensures Claimed(a + b, c) <==> Claimed(a, c) || Claimed(b, c)
  {
    hide ClaimOf;
    if Claimed(a, c) {
      var i :| 0 <= i < |a| && ClaimOf(a[i]) == c;
      assert (a + b)[i] == a[i];
    }
    if Claimed(b, c) {
      var i :| 0 <= i < |b| && ClaimOf(b[i]) == c;
      assert (a + b)[|a| + i] == b[i];
    }
  }

  lemma ClaimedNone(c: Claim)
    ensures !Claimed([], c)
  {}

  lemma ClaimedOne(d: Draft, c: Claim)
    ensures Claimed([d], c) <==> ClaimOf(d) == c
  {
    hide ClaimOf;
    if ClaimOf(d) == c { assert [d][0] == d; }
  }

  // ----- tables

  lemma FoundOnce<V>(t: Table<Path, V>, path: Path, v: V)
    requires UniqueKeys(t)
    ensures Find(t, path) == Some(v) <==> FieldIs(t, path, v)
    ensures Find(t, path).Some? <==> HasField(t, path)
  {}

  lemma FoundObject(s: Snapshot, id: Text, o: ObservedObject)
    ensures Find(s.objects, id) == Some(o) <==> Reports(s, id, o)
    ensures Find(s.objects, id).Some? <==> Mentions(s, id)
  {}

  lemma NotReported(s: Snapshot, id: Text)
    requires !Mentions(s, id)
    ensures forall o :: !Reports(s, id, o)
  {}

  /** What a source says about an object, by its one entry for it. */
  lemma Standing(view: View, id: Text)
    ensures
      var s, seen := view.snapshot, Find(view.snapshot.objects, id);
      && (SaidPresent(s, id) <==> seen.Some? && seen.value.presence.Present?)
      && (SaidAbsent(s, id) <==> if seen.Some? then seen.value.presence.Absent? else SilenceDenies(s, id))
  {
    hide Reports, Mentions, Find, SilenceDenies;
    var s, seen := view.snapshot, Find(view.snapshot.objects, id);
    forall o ensures (Find(s.objects, id) == Some(o) <==> Reports(s, id, o)) {
      FoundObject(s, id, o);
    }
    if seen.Some? { FoundObject(s, id, seen.value); } else { FoundNothing(s, id); }
  }

  lemma FoundNothing(s: Snapshot, id: Text)
    requires Find(s.objects, id).None?
    ensures !Mentions(s, id)
  {}

  // ----- each list of drafts claims exactly what is warranted

  lemma FieldClaims(f: Frame, primary: View, id: Text, o: ObservedObject, path: Path, field: IntentField, c: Claim)
    ensures Claimed(FieldDraft(f, primary, id, o, path, field), c)
       <==> FieldWarrants(f.policy, f.target, primary.snapshot, id, o, path, field, c)
  {
    hide Classify, Relate, Find, HasField, FieldIs, Severities, Refs;
    FieldFound(o, path);
    ClaimedNone(c);
    var ds := FieldDraft(f, primary, id, o, path, field);
    if ds != [] { ClaimedOne(ds[0], c); assert ds == [ds[0]]; }
  }

  lemma FieldFound(o: ObservedObject, path: Path)
    ensures Find(o.fields, path).Some? <==> HasField(o.fields, path)
    ensures forall v :: Find(o.fields, path) == Some(v) <==> FieldIs(o.fields, path, v)
  {
    hide Find, HasField, FieldIs;
    forall v ensures Find(o.fields, path) == Some(v) <==> FieldIs(o.fields, path, v) {
      FoundOnce(o.fields, path, v);
    }
    if Find(o.fields, path).Some? { FoundOnce(o.fields, path, Find(o.fields, path).value); } else { FoundNoField(o, path); }
  }

  lemma FoundNoField(o: ObservedObject, path: Path)
    requires Find(o.fields, path).None?
    ensures !HasField(o.fields, path)
  {}

  lemma {:induction false} FieldsClaim(f: Frame, primary: View, id: Text, o: ObservedObject,
                                       fields: Table<Path, IntentField>, c: Claim)
    ensures Claimed(FieldDrafts(f, primary, id, o, fields), c)
       <==> exists i :: 0 <= i < |fields|
              && FieldWarrants(f.policy, f.target, primary.snapshot, id, o, fields[i].key, fields[i].value, c)
  {
    hide FieldDraft, FieldWarrants, Claimed;
    if fields == [] {
      ClaimedNone(c);
    } else {
      var k := |fields| - 1;
      FieldsClaim(f, primary, id, o, fields[..k], c);
      FieldClaims(f, primary, id, o, fields[k].key, fields[k].value, c);
      ClaimedJoin(FieldDrafts(f, primary, id, o, fields[..k]),
                  FieldDraft(f, primary, id, o, fields[k].key, fields[k].value), c);
      assert forall i :: 0 <= i < k ==> fields[..k][i] == fields[i];
    }
  }

  lemma SurplusClaim(f: Frame, primary: View, id: Text, intent: IntentObject, path: Path, v: Value, c: Claim)
    ensures ClaimOf(MakeDraft(f, id, path, FieldUnexpected, ClassifiedFieldUnexpected, None, Some(v), [primary], Unqualified))
            == c && !ReservedPath(path) && Find(intent.fields, path).None?
       <==> SurplusWarrants(id, intent, path, v, c)
  {
    hide Find, HasField, Severities, Refs;
    IntentFound(intent, path);
  }

  lemma IntentFound(intent: IntentObject, path: Path)
    ensures Find(intent.fields, path).Some? <==> HasField(intent.fields, path)
  {
    if Find(intent.fields, path).Some? { FoundOnce(intent.fields, path, Find(intent.fields, path).value); }
  }

  lemma {:induction false} SurplusClaims(f: Frame, primary: View, id: Text, intent: IntentObject,
                                         fields: Table<Path, Value>, c: Claim)
    ensures Claimed(SurplusDrafts(f, primary, id, intent, fields), c)
       <==> exists i :: 0 <= i < |fields| && SurplusWarrants(id, intent, fields[i].key, fields[i].value, c)
  {
    hide MakeDraft, ReservedPath, Find, SurplusWarrants, Claimed, ClaimOf;
    if fields == [] {
      ClaimedNone(c);
    } else {
      var k := |fields| - 1;
      var path, v := fields[k].key, fields[k].value;
      var d := MakeDraft(f, id, path, FieldUnexpected, ClassifiedFieldUnexpected, None, Some(v), [primary], Unqualified);
      SurplusClaims(f, primary, id, intent, fields[..k], c);
      SurplusClaim(f, primary, id, intent, path, v, c);
      ClaimedNone(c);
      ClaimedOne(d, c);
      ClaimedJoin(SurplusDrafts(f, primary, id, intent, fields[..k]),
                  if ReservedPath(path) || Find(intent.fields, path).Some? then [] else [d], c);
      assert forall i :: 0 <= i < k ==> fields[..k][i] == fields[i];
    }
  }

  lemma MembersClaim(f: Frame, primary: View, id: Text, intent: IntentObject, o: ObservedObject, c: Claim)
    ensures Claimed(FieldDrafts(f, primary, id, o, intent.fields) + SurplusDrafts(f, primary, id, intent, o.fields), c)
       <==> MemberWarrants(f.policy, f.target, primary.snapshot, id, intent, o, c)
  {
    hide FieldDrafts, SurplusDrafts, FieldWarrants, SurplusWarrants, Claimed;
    FieldsClaim(f, primary, id, o, intent.fields, c);
    SurplusClaims(f, primary, id, intent, o.fields, c);
    ClaimedJoin(FieldDrafts(f, primary, id, o, intent.fields), SurplusDrafts(f, primary, id, intent, o.fields), c);
  }

  lemma ObjectClaims(f: Frame, primary: View, id: Text, intent: IntentObject, c: Claim)
    ensures Claimed(ObjectDrafts(f, primary, id, intent), c)
       <==> ObjectWarrants(f.policy, f.target, primary.snapshot, id, intent, c)
  {
    hide Find, FieldDrafts, SurplusDrafts, MemberWarrants, Reports, Claimed, SaidAbsent, SaidPresent, Severities, Refs;
    var s, seen := primary.snapshot, Find(primary.snapshot.objects, id);
    Standing(primary, id);
    ClaimedNone(c);
    var ds := ObjectDrafts(f, primary, id, intent);
    if seen.Some? && seen.value.presence.Present? && intent.existence.Required? {
      FoundObject(s, id, seen.value);
      MembersClaim(f, primary, id, intent, seen.value, c);
      OnlyOne(s, id, seen.value);
    } else {
      NonePresent(primary, id);
      if ds != [] { ClaimedOne(ds[0], c); assert ds == [ds[0]]; }
    }
  }

  lemma OnlyOne(s: Snapshot, id: Text, o: ObservedObject)
    requires Reports(s, id, o)
    ensures forall p :: Reports(s, id, p) ==> p == o
  {}

  lemma NonePresent(view: View, id: Text)
    ensures !SaidPresent(view.snapshot, id) ==> forall o :: Reports(view.snapshot, id, o) ==> !o.presence.Present?
  {}

  lemma {:induction false} DeclaredClaim(f: Frame, primary: View, objects: Table<Text, IntentObject>, c: Claim)
    ensures Claimed(DeclaredDrafts(f, primary, objects), c)
       <==> exists i :: 0 <= i < |objects|
              && ObjectWarrants(f.policy, f.target, primary.snapshot, objects[i].key, objects[i].value, c)
  {
    hide ObjectDrafts, ObjectWarrants, Claimed;
    if objects == [] {
      ClaimedNone(c);
    } else {
      var k := |objects| - 1;
      DeclaredClaim(f, primary, objects[..k], c);
      ObjectClaims(f, primary, objects[k].key, objects[k].value, c);
      ClaimedJoin(DeclaredDrafts(f, primary, objects[..k]),
                  ObjectDrafts(f, primary, objects[k].key, objects[k].value), c);
      assert forall i :: 0 <= i < k ==> objects[..k][i] == objects[i];
    }
  }

  lemma StrangerClaim(f: Frame, primary: View, declared: Table<Text, IntentObject>, entry: Pair<Text, ObservedObject>,
                      c: Claim)
    ensures Undeclared(declared, entry)
            && ClaimOf(MakeDraft(f, entry.key, [], Unexpected, ClassifiedObjectUnexpected, None, Some(String("present")),
                                 [primary], Unqualified)) == c
       <==> StrangerWarrants(declared, entry, c)
  {
    hide Severities, Refs;
  }

  lemma {:induction false} StrangersClaim(f: Frame, primary: View, declared: Table<Text, IntentObject>,
                                          objects: Table<Text, ObservedObject>, c: Claim)
    ensures Claimed(UndeclaredDrafts(f, primary, declared, objects), c)
       <==> exists i :: 0 <= i < |objects| && StrangerWarrants(declared, objects[i], c)
  {
    hide MakeDraft, Undeclared, StrangerWarrants, Claimed, ClaimOf;
    if objects == [] {
      ClaimedNone(c);
    } else {
      var k := |objects| - 1;
      var d := MakeDraft(f, objects[k].key, [], Unexpected, ClassifiedObjectUnexpected, None, Some(String("present")),
                         [primary], Unqualified);
      StrangersClaim(f, primary, declared, objects[..k], c);
      StrangerClaim(f, primary, declared, objects[k], c);
      ClaimedNone(c);
      ClaimedOne(d, c);
      ClaimedJoin(UndeclaredDrafts(f, primary, declared, objects[..k]),
                  if Undeclared(declared, objects[k]) then [d] else [], c);
      assert forall i :: 0 <= i < k ==> objects[..k][i] == objects[i];
    }
  }

  // ----- what such drafts carry besides

  /** Framed by the baseline, graded by the policy, and resting on the primary source. */
  predicate Made(f: Frame, view: View, d: Draft) {
    && d.target == f.target && d.generation == f.generation && d.epoch == f.epoch && d.authority == f.authority
    && d.klass == d.rawClass && d.reason == ReasonOf(d) && !d.klass.SourceConflict? && d.qualifier.Unqualified? && d.complianceRelevant
    && d.severity == Severities(f.policy, f.target, d.objectId, d.path, d.klass)
    && d.evidence == if f.maxRefs == 0 then [] else [EvidenceRef(view.snapshot, view.verdict.state)]
  }

  predicate AllMade(f: Frame, view: View, ds: seq<Draft>) { forall i :: 0 <= i < |ds| ==> Made(f, view, ds[i]) }

  lemma OneMade(f: Frame, view: View, item: Text, path: Path, klass: DriftClass, reason: Reason, intended: Option<Value>,
                observed: Option<Value>)
    requires !klass.SourceConflict? && (klass.Missing? ==> reason == ClassifiedObjectMissing)
    requires klass.FieldMissing? ==> reason == ClassifiedFieldMissing
    requires klass.ValueMismatch? ==> reason == ClassifiedValueMismatch
    ensures Made(f, view, MakeDraft(f, item, path, klass, reason, intended, observed, [view], Unqualified))
  {
    hide Severities;
    assert Refs([view], f.maxRefs) == if f.maxRefs == 0 then [] else [EvidenceRef(view.snapshot, view.verdict.state)];
  }

  lemma FieldMade(f: Frame, view: View, id: Text, o: ObservedObject, path: Path, field: IntentField)
    ensures AllMade(f, view, FieldDraft(f, view, id, o, path, field))
  {
    hide Classify, Relate, Find, Made, MakeDraft, FieldVisible, ReservedPath;
    var seen := Find(o.fields, path);
    OneMade(f, view, id, path, UnknownDrift, ClassifiedNotObservable, None, None);
    OneMade(f, view, id, path, Unsupported, ClassifiedUnsupportedField, None, None);
    OneMade(f, view, id, path, FieldMissing, ClassifiedFieldMissing, Some(field.intended), None);
    OneMade(f, view, id, path, UnknownDrift, ObservationCoveragePartial, None, None);
    OneMade(f, view, id, path, Unsupported, ClassifiedFieldNotComparable, Some(field.intended), seen);
    OneMade(f, view, id, path, ValueMismatch, ClassifiedValueMismatch, Some(field.intended), seen);
  }

  lemma {:induction false} FieldsMade(f: Frame, view: View, id: Text, o: ObservedObject, fields: Table<Path, IntentField>)
    ensures AllMade(f, view, FieldDrafts(f, view, id, o, fields))
  {
    hide FieldDraft, Made;
    if fields != [] {
      var k := |fields| - 1;
      FieldsMade(f, view, id, o, fields[..k]);
      FieldMade(f, view, id, o, fields[k].key, fields[k].value);
    }
  }

  lemma {:induction false} SurplusMade(f: Frame, view: View, id: Text, intent: IntentObject, fields: Table<Path, Value>)
    ensures AllMade(f, view, SurplusDrafts(f, view, id, intent, fields))
  {
    hide Find, ReservedPath, Made, MakeDraft;
    if fields != [] {
      var k := |fields| - 1;
      SurplusMade(f, view, id, intent, fields[..k]);
      OneMade(f, view, id, fields[k].key, FieldUnexpected, ClassifiedFieldUnexpected, None, Some(fields[k].value));
    }
  }

  lemma ObjectMade(f: Frame, view: View, id: Text, intent: IntentObject)
    ensures AllMade(f, view, ObjectDrafts(f, view, id, intent))
  {
    hide FieldDrafts, SurplusDrafts, Made, MakeDraft, PresenceOf;
    var seen := Find(view.snapshot.objects, id);
    OneMade(f, view, id, [], UnknownDrift, ObservationSourceCannotAssertAbsence, None, None);
    OneMade(f, view, id, [], Missing, ClassifiedObjectMissing, Some(String("required")), Some(String("absent")));
    OneMade(f, view, id, [], UnknownDrift, ObservationCoveragePartial, None, None);
    OneMade(f, view, id, [], UnknownDrift, ObservationCoverageUnknown, None, None);
    OneMade(f, view, id, [], Unexpected, ClassifiedObjectUnexpected, Some(String("forbidden")), Some(String("present")));
    if PresenceOf(view, id).Present? {
      PresentFound(view, id);
      FieldsMade(f, view, id, seen.value, intent.fields);
      SurplusMade(f, view, id, intent, seen.value.fields);
    }
  }

  lemma PresentFound(view: View, id: Text)
    requires PresenceOf(view, id).Present?
    ensures Find(view.snapshot.objects, id).Some?
  {}

  lemma {:induction false} DeclaredMade(f: Frame, view: View, objects: Table<Text, IntentObject>)
    ensures AllMade(f, view, DeclaredDrafts(f, view, objects))
  {
    hide ObjectDrafts, Made;
    if objects != [] {
      var k := |objects| - 1;
      DeclaredMade(f, view, objects[..k]);
      ObjectMade(f, view, objects[k].key, objects[k].value);
    }
  }

  lemma {:induction false} StrangersMade(f: Frame, view: View, declared: Table<Text, IntentObject>,
                                         objects: Table<Text, ObservedObject>)
    ensures AllMade(f, view, UndeclaredDrafts(f, view, declared, objects))
  {
    hide Undeclared, Made, MakeDraft;
    if objects != [] {
      var k := |objects| - 1;
      StrangersMade(f, view, declared, objects[..k]);
      OneMade(f, view, objects[k].key, [], Unexpected, ClassifiedObjectUnexpected, None, Some(String("present")));
    }
  }

  // ----- two sources that contradict each other

  /** One source says something of a place, another something else. */
  datatype Dispute = Dispute(objectId: Text, path: Path, low: Text, high: Text, said: Value, against: Value)

  function Word(p: Presence): Text {
    match p case Absent => "absent" case Present => "present" case UnknownPresence => "unknown"
  }

  predicate ObjectDisputes(id: Text, p: ObservedObject, q: ObservedObject, equivalence: NumericEquivalence, x: Dispute) {
    && x.objectId == id
    && if p.presence != q.presence then
         && !p.presence.UnknownPresence? && !q.presence.UnknownPresence?
         && x.path == [] && x.said == String(Word(p.presence)) && x.against == String(Word(q.presence))
       else
         && FieldIs(p.fields, x.path, x.said) && FieldIs(q.fields, x.path, x.against)
         && Relate(x.said, x.against, equivalence, 0).Different?
  }

  ghost predicate Contradicts(a: Snapshot, b: Snapshot, equivalence: NumericEquivalence, x: Dispute) {
    exists p, q :: Reports(a, x.objectId, p) && Reports(b, x.objectId, q)
                   && ObjectDisputes(x.objectId, p, q, equivalence, x)
  }

  predicate IsDispute(f: Frame, d: Draft, x: Dispute) {
    && d.klass.SourceConflict? && d.rawClass.SourceConflict? && d.reason.ObservationSourcesDisagree?
    && d.objectId == x.objectId && d.path == x.path && d.qualifier == SourcePair(x.low, x.high)
    && d.observed == Some(x.said) && d.intended == Some(x.against)
  }

  predicate Disputed(f: Frame, ds: seq<Draft>, x: Dispute) { exists i :: 0 <= i < |ds| && IsDispute(f, ds[i], x) }

  lemma DisputedJoin(f: Frame, a: seq<Draft>, b: seq<Draft>, x: Dispute)
    ensures Disputed(f, a + b, x) <==> Disputed(f, a, x) || Disputed(f, b, x)
  {
    hide IsDispute;
    if Disputed(f, a, x) {
      var i :| 0 <= i < |a| && IsDispute(f, a[i], x);
      assert (a + b)[i] == a[i];
    }
    if Disputed(f, b, x) {
      var i :| 0 <= i < |b| && IsDispute(f, b[i], x);
      assert (a + b)[|a| + i] == b[i];
    }
  }

  lemma DisputedNone(f: Frame, x: Dispute)
    ensures !Disputed(f, [], x)
  {}

  lemma DisputedOne(f: Frame, d: Draft, x: Dispute)
    ensures Disputed(f, [d], x) <==> IsDispute(f, d, x)
  {
    hide IsDispute;
    if IsDispute(f, d, x) { assert [d][0] == d; }
  }

  predicate NamesPair(lhs: View, rhs: View, x: Dispute) {
    {x.low, x.high} == {lhs.snapshot.source, rhs.snapshot.source} && !Less(x.high, x.low)
  }

  lemma PairNamed(lhs: View, rhs: View, x: Dispute)
    ensures PairQualifier(lhs, rhs) == SourcePair(x.low, x.high) <==> NamesPair(lhs, rhs, x)
  {
    hide Less;
    var a, b := lhs.snapshot.source, rhs.snapshot.source;
    LessTotal(a, b);
    if Less(a, b) { LessStrict(a, b); }
    if Less(b, a) { LessStrict(b, a); }
    assert x.low in {x.low, x.high} && x.high in {x.low, x.high};
    assert a in {a, b} && b in {a, b};
  }

  lemma FieldDispute(f: Frame, lhs: View, rhs: View, id: Text, q: ObservedObject, field: Pair<Path, Value>, x: Dispute)
    ensures FieldsClash(q, field, f.policy.equivalence)
            && IsDispute(f, MakeDraft(f, id, field.key, SourceConflict, ObservationSourcesDisagree, Find(q.fields, field.key),
                                      Some(field.value), [lhs, rhs], PairQualifier(lhs, rhs)), x)
       <==> && x.objectId == id && NamesPair(lhs, rhs, x) && x.path == field.key && x.said == field.value
            && FieldIs(q.fields, x.path, x.against) && Relate(x.said, x.against, f.policy.equivalence, 0).Different?
  {
    hide Find, FieldIs, Relate, Severities, Refs, PairQualifier, NamesPair;
    PairNamed(lhs, rhs, x);
    FoundOnce(q.fields, field.key, x.against);
  }

  lemma {:induction false} FieldsDispute(f: Frame, lhs: View, rhs: View, id: Text, q: ObservedObject,
                                         fields: Table<Path, Value>, x: Dispute)
    ensures Disputed(f, FieldConflicts(f, lhs, rhs, id, q, fields), x)
       <==> && x.objectId == id && NamesPair(lhs, rhs, x)
            && FieldIs(fields, x.path, x.said) && FieldIs(q.fields, x.path, x.against)
            && Relate(x.said, x.against, f.policy.equivalence, 0).Different?
  {
    hide Find, Relate, MakeDraft, PairQualifier, NamesPair, FieldsClash, Disputed, IsDispute;
    if fields == [] {
      DisputedNone(f, x);
    } else {
      var k := |fields| - 1;
      var d := MakeDraft(f, id, fields[k].key, SourceConflict, ObservationSourcesDisagree, Find(q.fields, fields[k].key),
                         Some(fields[k].value), [lhs, rhs], PairQualifier(lhs, rhs));
      FieldsDispute(f, lhs, rhs, id, q, fields[..k], x);
      FieldDispute(f, lhs, rhs, id, q, fields[k], x);
      DisputedNone(f, x);
      DisputedOne(f, d, x);
      DisputedJoin(f, FieldConflicts(f, lhs, rhs, id, q, fields[..k]),
                   if FieldsClash(q, fields[k], f.policy.equivalence) then [d] else [], x);
      MoreFields(fields, x.path, x.said);
    }
  }

  lemma MoreFields(fields: Table<Path, Value>, path: Path, v: Value)
    requires fields != []
    ensures FieldIs(fields, path, v) <==> FieldIs(fields[..|fields| - 1], path, v) || fields[|fields| - 1] == Pair(path, v)
  {
    var k := |fields| - 1;
    assert forall i :: 0 <= i < k ==> fields[..k][i] == fields[i];
  }

  lemma ObjectDispute(f: Frame, lhs: View, rhs: View, entry: Pair<Text, ObservedObject>, x: Dispute)
    ensures Disputed(f, ObjectConflicts(f, lhs, rhs, entry), x)
       <==> && NamesPair(lhs, rhs, x)
            && exists q :: Reports(rhs.snapshot, entry.key, q)
                 && ObjectDisputes(entry.key, entry.value, q, f.policy.equivalence, x)
  {
    hide Find, Relate, Severities, Refs, PairQualifier, NamesPair, FieldConflicts, Reports, Mentions, FieldIs, Disputed;
    var other := Find(rhs.snapshot.objects, entry.key);
    DisputedNone(f, x);
    if other.None? {
      FoundNothing(rhs.snapshot, entry.key);
      NotReported(rhs.snapshot, entry.key);
    } else {
      FoundObject(rhs.snapshot, entry.key, other.value);
      OnlyOne(rhs.snapshot, entry.key, other.value);
      FieldsDispute(f, lhs, rhs, entry.key, other.value, entry.value.fields, x);
      PairNamed(lhs, rhs, x);
      DisputedOne(f, MakeDraft(f, entry.key, [], SourceConflict, ObservationSourcesDisagree,
                               Some(PresenceText(other.value.presence)), Some(PresenceText(entry.value.presence)),
                               [lhs, rhs], PairQualifier(lhs, rhs)), x);
    }
  }

  ghost predicate EntryContradicts(entry: Pair<Text, ObservedObject>, b: Snapshot, equivalence: NumericEquivalence,
                                   x: Dispute)
  {
    exists q :: Reports(b, entry.key, q) && ObjectDisputes(entry.key, entry.value, q, equivalence, x)
  }

  lemma {:induction false} PairDisputes(f: Frame, lhs: View, rhs: View, objects: Table<Text, ObservedObject>, x: Dispute)
    ensures Disputed(f, PairConflicts(f, lhs, rhs, objects), x)
       <==> && NamesPair(lhs, rhs, x)
            && exists i :: 0 <= i < |objects| && EntryContradicts(objects[i], rhs.snapshot, f.policy.equivalence, x)
  {
    hide ObjectConflicts, Disputed, NamesPair, Reports, ObjectDisputes;
    if objects == [] {
      DisputedNone(f, x);
    } else {
      var k := |objects| - 1;
      PairDisputes(f, lhs, rhs, objects[..k], x);
      ObjectDispute(f, lhs, rhs, objects[k], x);
      DisputedJoin(f, PairConflicts(f, lhs, rhs, objects[..k]), ObjectConflicts(f, lhs, rhs, objects[k]), x);
      assert forall i :: 0 <= i < k ==> objects[..k][i] == objects[i];
    }
  }

  lemma EntriesContradict(a: Snapshot, b: Snapshot, equivalence: NumericEquivalence, x: Dispute)
    ensures Contradicts(a, b, equivalence, x)
       <==> exists i :: 0 <= i < |a.objects| && EntryContradicts(a.objects[i], b, equivalence, x)
  {
    hide Relate, FieldIs;
    if Contradicts(a, b, equivalence, x) {
      var p, q :| Reports(a, x.objectId, p) && Reports(b, x.objectId, q) && ObjectDisputes(x.objectId, p, q, equivalence, x);
      var i :| 0 <= i < |a.objects| && a.objects[i] == Pair(x.objectId, p);
      assert EntryContradicts(a.objects[i], b, equivalence, x);
    }
    if i :| 0 <= i < |a.objects| && EntryContradicts(a.objects[i], b, equivalence, x) {
      var q :| Reports(b, a.objects[i].key, q) && ObjectDisputes(a.objects[i].key, a.objects[i].value, q, equivalence, x);
      assert Reports(a, x.objectId, a.objects[i].value);
    }
  }

  /** Two usable sources dispute a place. */
  ghost predicate Disagree(views: seq<View>, i: nat, j: nat, equivalence: NumericEquivalence, x: Dispute)
    requires i < j < |views|
  {
    && views[i].verdict.maySupportCompliance && views[j].verdict.maySupportCompliance
    && NamesPair(views[i], views[j], x) && Contradicts(views[i].snapshot, views[j].snapshot, equivalence, x)
  }

  lemma {:induction false} WithDisputes(f: Frame, views: seq<View>, first: nat, n: nat, x: Dispute)
    requires first < |views| && n <= |views| && views[first].verdict.maySupportCompliance
    ensures Disputed(f, ConflictsWith(f, views, first, n), x)
       <==> exists j :: first < j < n && Disagree(views, first, j, f.policy.equivalence, x)
    decreases n
  {
    hide PairConflicts, Disputed, NamesPair, Contradicts, EntryContradicts;
    DisputedNone(f, x);
    if n > first + 1 {
      WithDisputes(f, views, first, n - 1, x);
      PairDisputes(f, views[first], views[n - 1], views[first].snapshot.objects, x);
      EntriesContradict(views[first].snapshot, views[n - 1].snapshot, f.policy.equivalence, x);
      DisputedJoin(f, ConflictsWith(f, views, first, n - 1),
                   if views[n - 1].Usable() then PairConflicts(f, views[first], views[n - 1], views[first].snapshot.objects)
                   else [], x);
      assert Disagree(views, first, n - 1, f.policy.equivalence, x)
        <==> views[n - 1].Usable()
             && Disputed(f, PairConflicts(f, views[first], views[n - 1], views[first].snapshot.objects), x);
    }
  }

  lemma {:induction false} ConflictDisputes(f: Frame, views: seq<View>, m: nat, x: Dispute)
    requires m <= ScanLimit(views)
    ensures Disputed(f, Conflicts(f, views, m), x)
       <==> exists i, j :: 0 <= i < m && i < j < ScanLimit(views) && Disagree(views, i, j, f.policy.equivalence, x)
  {
    hide ConflictsWith, Disputed, NamesPair, Contradicts;
    DisputedNone(f, x);
    if m > 0 {
      ConflictDisputes(f, views, m - 1, x);
      if views[m - 1].Usable() { WithDisputes(f, views, m - 1, ScanLimit(views), x); }
      DisputedJoin(f, Conflicts(f, views, m - 1),
                   if views[m - 1].Usable() then ConflictsWith(f, views, m - 1, ScanLimit(views)) else [], x);
    }
  }

  // ----- regrouping

  /** A declared object that is present reports this generation as the one it applied. */
  ghost predicate Applied(objects: Table<Text, IntentObject>, s: Snapshot, g: nat) {
    exists i :: 0 <= i < |objects| && ReportsGeneration(s, objects[i].key, g)
  }

  ghost predicate ReportsGeneration(s: Snapshot, id: Text, g: nat) {
    exists o :: Reports(s, id, o) && o.presence.Present? && CarriesGeneration(o, g)
  }

  predicate CarriesGeneration(o: ObservedObject, g: nat) {
    exists i :: 0 <= i < |o.fields| && o.fields[i].key == [Key("@applied-generation")]
                && match o.fields[i].value case Int(n) => n == g case Uint(n) => n == g case _ => false
  }

  lemma GenerationCarried(o: ObservedObject, g: nat)
    ensures AppliedGeneration(o) == Some(g) <==> CarriesGeneration(o, g)
  {
    hide Find;
    FieldFound(o, APPLIED_GENERATION);
    var found := Find(o.fields, APPLIED_GENERATION);
    if found.Some? {
      var i :| 0 <= i < |o.fields| && o.fields[i] == Pair(APPLIED_GENERATION, found.value);
    }
  }

  lemma {:induction false} AppliedCollected(view: View, objects: Table<Text, IntentObject>, g: nat)
    ensures g in AppliedBy(view, objects) <==> Applied(objects, view.snapshot, g)
  {
    hide Find, AppliedGeneration, CarriesGeneration, Reports, ReportsGeneration;
    if objects != [] {
      var k := |objects| - 1;
      AppliedCollected(view, objects[..k], g);
      GenerationReported(view, objects[k].key, g);
      assert forall i :: 0 <= i < k ==> objects[..k][i] == objects[i];
    }
  }

  lemma GenerationReported(view: View, id: Text, g: nat)
    ensures ReportsGeneration(view.snapshot, id, g)
       <==> var seen := Find(view.snapshot.objects, id);
            seen.Some? && seen.value.presence.Present? && AppliedGeneration(seen.value) == Some(g)
  {
    hide Find, AppliedGeneration, CarriesGeneration, Reports;
    var seen := Find(view.snapshot.objects, id);
    if seen.Some? {
      FoundObject(view.snapshot, id, seen.value);
      OnlyOne(view.snapshot, id, seen.value);
      GenerationCarried(seen.value, g);
    } else {
      FoundNothing(view.snapshot, id);
      NotReported(view.snapshot, id);
    }
  }
}
