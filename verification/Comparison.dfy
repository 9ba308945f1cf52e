/** Comparing one target: which evidence is current, which drafts it yields, and what
    the verdict "compliant" means. */
module Comparison {
  import opened Core
  import opened Values
  import opened Domain
  import opened Policy
  import opened Sorting

  /** Sources considered for cross-source conflicts. */
  const MAX_CONFLICT_SOURCES: nat := 8

  datatype Input = Input(target: Text, baseline: Option<Baseline>, snapshots: seq<Snapshot>, freshness: seq<Freshness>)

  datatype View = View(snapshot: Snapshot, verdict: Freshness, priority: nat)
  {
    predicate Usable() { verdict.maySupportCompliance }
    predicate Complete() { snapshot.DeclaresCompleteCoverage() }
    predicate SameSource(other: View) { snapshot.source == other.snapshot.source }
  }

  // ----- choosing the current view of each source

  function PriorityOf(priorities: seq<Text>, source: Text): (n: nat)
    ensures n <= |priorities| && (n < |priorities| ==> priorities[n] == source) && source !in priorities[..n]
  {
    if priorities == [] || priorities[0] == source then 0 else
      var n := PriorityOf(priorities[1..], source);
      assert priorities[..n + 1] == [priorities[0]] + priorities[1..][..n];
      1 + n
  }

  function Views(input: Input, policy: ObservatoryPolicy): seq<View>
    requires |input.snapshots| == |input.freshness|
  {
    seq(|input.snapshots|, i requires 0 <= i < |input.snapshots| =>
      ViewOf(input.snapshots[i], input.freshness[i], policy))
  }

  /** Same epoch, incarnation and sequence first differing in favour of a. */
  predicate Newer(a: Snapshot, b: Snapshot) {
    if a.epoch != b.epoch then b.epoch < a.epoch
    else if a.incarnation != b.incarnation then b.incarnation < a.incarnation
    else b.sequence < a.sequence
  }

  /** By source, the newest observation first. */
  predicate BySource(a: View, b: View) {
    if a.snapshot.source != b.snapshot.source then Less(a.snapshot.source, b.snapshot.source)
    else Newer(a.snapshot, b.snapshot)
  }

  /** Usable evidence, then declared authority, then coverage, then recency, then identity. */
  predicate ViewLess(a: View, b: View) {
    if a.Usable() != b.Usable() then a.Usable()
    else if a.priority != b.priority then a.priority < b.priority
    else if a.Complete() != b.Complete() then a.Complete()
    else if a.snapshot.epoch != b.snapshot.epoch then b.snapshot.epoch < a.snapshot.epoch
    else if a.snapshot.incarnation != b.snapshot.incarnation then b.snapshot.incarnation < a.snapshot.incarnation
    else if a.snapshot.sequence != b.snapshot.sequence then b.snapshot.sequence < a.snapshot.sequence
    else Less(a.snapshot.source, b.snapshot.source)
  }

  lemma LessWeak(a: Text, b: Text, c: Text)
    ensures Less(a, b) ==> !Less(b, a)
    ensures !Less(b, a) && !Less(c, b) ==> !Less(c, a)
  {
    hide Less;
    if Less(a, b) { LessStrict(a, b); }
    LessTotal(a, b);
    LessTotal(b, c);
    if Less(c, a) && Less(a, b) { LessTransitive(c, a, b); }
    if Less(b, c) && Less(c, a) { LessTransitive(b, c, a); }
  }

  lemma BySourceWeak()
    ensures StrictWeak(BySource)
  {
    hide Less;
    forall a: View, b: View ensures BySource(a, b) ==> !BySource(b, a) {
      LessWeak(a.snapshot.source, b.snapshot.source, a.snapshot.source);
    }
    forall a: View, b: View, c: View | !BySource(b, a) && !BySource(c, b) ensures !BySource(c, a) {
      LessWeak(a.snapshot.source, b.snapshot.source, c.snapshot.source);
      LessTotal(a.snapshot.source, b.snapshot.source);
      LessTotal(b.snapshot.source, c.snapshot.source);
      if a.snapshot.source == c.snapshot.source {
        LessWeak(b.snapshot.source, a.snapshot.source, b.snapshot.source);
      }
    }
  }

  lemma ViewLessWeak()
    ensures StrictWeak(ViewLess)
  {
    hide Less;
    forall a: View, b: View ensures ViewLess(a, b) ==> !ViewLess(b, a) {
      LessWeak(a.snapshot.source, b.snapshot.source, a.snapshot.source);
    }
    forall a: View, b: View, c: View | !ViewLess(b, a) && !ViewLess(c, b) ensures !ViewLess(c, a) {
      LessWeak(a.snapshot.source, b.snapshot.source, c.snapshot.source);
    }
  }

  /** One newest view of each source, in the order of authority. */
  ghost predicate Current(views: seq<View>, chosen: seq<View>) {
    && Within(chosen, views)
    && (forall i :: 0 <= i < |views| ==> Represented(views[i], chosen))
    && (forall i, j :: 0 <= i < j < |chosen| ==> !chosen[i].SameSource(chosen[j]))
    && Ordered(ViewLess, chosen)
  }

  predicate Within(a: seq<View>, b: seq<View>) {
    forall i :: 0 <= i < |a| ==> a[i] in b
  }

  lemma At(a: seq<View>, b: seq<View>, i: nat) returns (j: nat)
    requires Within(a, b) && i < |a|
    ensures j < |b| && b[j] == a[i]
  {
    assert a[i] in b;
    j :| 0 <= j < |b| && b[j] == a[i];
  }

  predicate Represented(v: View, chosen: seq<View>) {
    exists i :: 0 <= i < |chosen| && chosen[i].SameSource(v) && !Newer(v.snapshot, chosen[i].snapshot)
  }

  /** Each source has one observation strictly newer than all its others. */
  predicate StrictNewest(views: seq<View>) {
    forall i :: 0 <= i < |views| ==> HasNewest(views, views[i])
  }

  predicate HasNewest(views: seq<View>, v: View) {
    exists n :: 0 <= n < |views| && views[n].SameSource(v) && IsNewest(views, views[n])
  }

  predicate IsNewest(views: seq<View>, n: View) {
    forall i :: 0 <= i < |views| && views[i].SameSource(n) ==> views[i] == n || Newer(n.snapshot, views[i].snapshot)
  }

  lemma NewestIsChosen(views: seq<View>, chosen: seq<View>, n: nat) returns (i: nat)
    requires Current(views, chosen) && n < |views| && IsNewest(views, views[n])
    ensures i < |chosen| && chosen[i] == views[n]
  {
    hide ViewLess, Newer, Ordered, Less, Within;
    assert Represented(views[n], chosen);
    i :| 0 <= i < |chosen| && chosen[i].SameSource(views[n]) && !Newer(views[n].snapshot, chosen[i].snapshot);
    var j := At(chosen, views, i);
  }

  lemma OnePerSource(views: seq<View>, chosen: seq<View>, i: nat, k: nat)
    requires Current(views, chosen) && i < |chosen| && k < |chosen| && chosen[i].SameSource(chosen[k])
    ensures i == k
  {
    hide ViewLess, Newer, Ordered, Less, Within, Represented;
  }

  lemma ChosenIsNewest(views: seq<View>, chosen: seq<View>, k: nat)
    requires StrictNewest(views) && Current(views, chosen) && k < |chosen|
    ensures IsNewest(views, chosen[k])
  {
    hide ViewLess, Newer, Ordered, Less, IsNewest, Represented, Within;
    var m := At(chosen, views, k);
    assert HasNewest(views, views[m]);
    var n :| 0 <= n < |views| && views[n].SameSource(views[m]) && IsNewest(views, views[n]);
    var i := NewestIsChosen(views, chosen, n);
    OnePerSource(views, chosen, i, k);
  }

  lemma NewestAgree(views: seq<View>, others: seq<View>, n: View)
    requires Within(others, views) && IsNewest(views, n)
    ensures IsNewest(others, n)
  {
    hide Newer, Within;
    forall i | 0 <= i < |others| && others[i].SameSource(n)
      ensures others[i] == n || Newer(n.snapshot, others[i].snapshot)
    {
      var j := At(others, views, i);
    }
  }

  lemma ChosenAgree(views: seq<View>, others: seq<View>, chosen: seq<View>, rechosen: seq<View>, k: nat)
    requires StrictNewest(views) && Within(views, others) && Within(others, views)
    requires Current(views, chosen) && Current(others, rechosen) && k < |chosen|
    ensures chosen[k] in rechosen
  {
    hide ViewLess, Newer, Ordered, Less, StrictNewest, IsNewest, Within, Represented;
    ChosenIsNewest(views, chosen, k);
    NewestAgree(views, others, chosen[k]);
    var m := At(chosen, views, k);
    var n := At(views, others, m);
    var i := NewestIsChosen(others, rechosen, n);
  }

  lemma StrictNewestAgree(views: seq<View>, others: seq<View>)
    requires StrictNewest(views) && Within(views, others) && Within(others, views)
    ensures StrictNewest(others)
  {
    hide Newer, IsNewest, Within;
    forall j | 0 <= j < |others| ensures HasNewest(others, others[j]) {
      var m := At(others, views, j);
      assert HasNewest(views, views[m]);
      var n :| 0 <= n < |views| && views[n].SameSource(views[m]) && IsNewest(views, views[n]);
      NewestAgree(views, others, views[n]);
      var k := At(views, others, n);
    }
  }

  /** Neither the order of the candidates nor the way ties are sorted can matter. */
  lemma CurrentUnique(views: seq<View>, others: seq<View>, chosen: seq<View>, rechosen: seq<View>)
    requires StrictNewest(views) && Within(views, others) && Within(others, views)
    requires Current(views, chosen) && Current(others, rechosen)
    ensures chosen == rechosen
  {
    hide ViewLess, Newer, Ordered, Less, StrictNewest, Current, Within;
    StrictNewestAgree(views, others);
    Distinct(views, chosen);
    Distinct(others, rechosen);
    forall c ensures c in chosen <==> c in rechosen {
      if c in chosen {
        var i :| 0 <= i < |chosen| && chosen[i] == c;
        ChosenAgree(views, others, chosen, rechosen, i);
      }
      if c in rechosen {
        var i :| 0 <= i < |rechosen| && rechosen[i] == c;
        ChosenAgree(others, views, rechosen, chosen, i);
      }
    }
    SortedOnce(ViewLess, chosen, rechosen);
  }

  lemma Distinct(views: seq<View>, chosen: seq<View>)
    requires Current(views, chosen)
    ensures Ordered(ViewLess, chosen)
    ensures forall i, j :: 0 <= i < j < |chosen| ==> chosen[i] != chosen[j]
    ensures forall x, y | x in chosen && y in chosen && x != y :: ViewLess(x, y) || ViewLess(y, x)
  {
    hide ViewLess, Newer, Less, Represented;
    forall x, y | x in chosen && y in chosen && x != y ensures ViewLess(x, y) || ViewLess(y, x) {
      var i :| 0 <= i < |chosen| && chosen[i] == x;
      var j :| 0 <= j < |chosen| && chosen[j] == y;
      assert if i < j then !chosen[i].SameSource(chosen[j]) else !chosen[j].SameSource(chosen[i]);
      ViewLessTotal(x, y);
    }
  }

  lemma ViewLessTotal(x: View, y: View)
    requires !x.SameSource(y)
    ensures ViewLess(x, y) || ViewLess(y, x)
  {
    hide Less;
    LessTotal(x.snapshot.source, y.snapshot.source);
  }

  // ----- drafts

  /** What every draft of one comparison shares. */
  datatype Frame = Frame(target: Text, generation: nat, epoch: nat, authority: Authority, policy: ObservatoryPolicy,
                         maxRefs: nat)

  function Refs(views: seq<View>, maxRefs: nat): (r: seq<EvidenceRef>)
    ensures |r| <= maxRefs
  {
    var n := if |views| < maxRefs then |views| else maxRefs;
    seq(n, i requires 0 <= i < n => EvidenceRef(views[i].snapshot, views[i].verdict.state))
  }

  function MakeDraft(f: Frame, item: Text, path: Path, klass: DriftClass, reason: Reason,
                     intended: Option<Value>, observed: Option<Value>, views: seq<View>, qualifier: Qualifier): Draft
  {
    Draft(f.target, item, path, klass, klass, Severities(f.policy, f.target, item, path, klass), reason,
          f.generation, f.epoch, f.authority, intended, observed, Refs(views, f.maxRefs), qualifier, true)
  }

  function PresenceText(p: Presence): Value {
    match p case Absent => String("absent") case Present => String("present") case UnknownPresence => String("unknown")
  }

  function PairQualifier(a: View, b: View): Qualifier {
    var x, y := a.snapshot.source, b.snapshot.source;
    if Less(x, y) then SourcePair(x, y) else SourcePair(y, x)
  }

  predicate FieldsClash(other: ObservedObject, field: Pair<Path, Value>, equivalence: NumericEquivalence) {
    var o := Find(other.fields, field.key);
    o.Some? && Relate(field.value, o.value, equivalence, 0).Different?
  }

  function FieldConflicts(f: Frame, lhs: View, rhs: View, item: Text, other: ObservedObject,
                          fields: Table<Path, Value>): seq<Draft>
  {
    if fields == [] then []
    else
      var k := |fields| - 1;
      FieldConflicts(f, lhs, rhs, item, other, fields[..k])
      + (if FieldsClash(other, fields[k], f.policy.equivalence) then
           [MakeDraft(f, item, fields[k].key, SourceConflict, ObservationSourcesDisagree,
                      Find(other.fields, fields[k].key), Some(fields[k].value), [lhs, rhs], PairQualifier(lhs, rhs))]
         else [])
  }

  function ObjectConflicts(f: Frame, lhs: View, rhs: View, entry: Pair<Text, ObservedObject>): seq<Draft> {
    var other := Find(rhs.snapshot.objects, entry.key);
    if other.None? then []
    else if entry.value.presence != other.value.presence then
      if entry.value.presence.UnknownPresence? || other.value.presence.UnknownPresence? then []
      else [MakeDraft(f, entry.key, [], SourceConflict, ObservationSourcesDisagree,
                      Some(PresenceText(other.value.presence)), Some(PresenceText(entry.value.presence)),
                      [lhs, rhs], PairQualifier(lhs, rhs))]
    else FieldConflicts(f, lhs, rhs, entry.key, other.value, entry.value.fields)
  }

  function PairConflicts(f: Frame, lhs: View, rhs: View, objects: Table<Text, ObservedObject>): seq<Draft> {
    if objects == [] then []
    else PairConflicts(f, lhs, rhs, objects[..|objects| - 1])
         + ObjectConflicts(f, lhs, rhs, objects[|objects| - 1])
  }

  /** Conflicts of view `first` with the later views below n. */
  function ConflictsWith(f: Frame, views: seq<View>, first: nat, n: nat): seq<Draft>
    requires first < |views| && n <= |views|
  {
    if n <= first + 1 then []
    else ConflictsWith(f, views, first, n - 1)
         + (if views[n - 1].Usable()
            then PairConflicts(f, views[first], views[n - 1], views[first].snapshot.objects) else [])
  }

  function ScanLimit(views: seq<View>): nat {
    if |views| < MAX_CONFLICT_SOURCES then |views| else MAX_CONFLICT_SOURCES
  }

  function Conflicts(f: Frame, views: seq<View>, m: nat): seq<Draft>
    requires m <= ScanLimit(views)
  {
    if m == 0 then []
    else Conflicts(f, views, m - 1)
         + (if views[m - 1].Usable() then ConflictsWith(f, views, m - 1, ScanLimit(views)) else [])
  }

  predicate ReservedObject(id: Text) { id != [] && id[0] == '@' }

  predicate ReservedPath(path: Path) {
    path != [] && path[0].Key? && path[0].key != [] && path[0].key[0] == '@'
  }

  predicate ObjectFullyVisible(view: View, id: Text) {
    !view.snapshot.DeclaresUnobserved(id) && view.Complete()
  }

  predicate FieldVisible(view: View, id: Text, path: Path) {
    ObjectFullyVisible(view, id) && (|path| > 1 ==> view.snapshot.capabilities.nestedPaths)
  }

  /** What the primary source says about an object, reading silence as absence only
      when it saw the whole target. */
  function PresenceOf(view: View, id: Text): Presence {
    var seen := Find(view.snapshot.objects, id);
    if seen.Some? then seen.value.presence
    else if ObjectFullyVisible(view, id) then Absent
    else UnknownPresence
  }

  function FieldDrafts(f: Frame, primary: View, item: Text, observed: ObservedObject,
                       fields: Table<Path, IntentField>): seq<Draft>
  {
    if fields == [] then []
    else
      var k := |fields| - 1;
      FieldDrafts(f, primary, item, observed, fields[..k])
      + FieldDraft(f, primary, item, observed, fields[k].key, fields[k].value)
  }

  function FieldDraft(f: Frame, primary: View, item: Text, observed: ObservedObject, path: Path, field: IntentField)
    : seq<Draft>
  {
    if ReservedPath(path) then []
    else
      match Classify(f.policy.fieldClassRules, f.target, item, path, field.comparability)
      case Unmanaged => []
      case ObserveOnly => []
      case Unobservable =>
        [MakeDraft(f, item, path, UnknownDrift, ClassifiedNotObservable, None, None, [primary], Unqualified)]
      case UnsupportedClass =>
        [MakeDraft(f, item, path, Unsupported, ClassifiedUnsupportedField, None, None, [primary], Unqualified)]
      case Managed =>
        var seen := Find(observed.fields, path);
        if seen.None? then
          if FieldVisible(primary, item, path) then
            [MakeDraft(f, item, path, FieldMissing, ClassifiedFieldMissing, Some(field.intended), None, [primary],
                       Unqualified)]
          else
            [MakeDraft(f, item, path, UnknownDrift, ObservationCoveragePartial, None, None, [primary], Unqualified)]
        else
          match Relate(field.intended, seen.value, f.policy.equivalence, 0)
          case Equal => []
          case Incomparable =>
            [MakeDraft(f, item, path, Unsupported, ClassifiedFieldNotComparable, Some(field.intended), seen,
                       [primary], Unqualified)]
          case Different =>
            [MakeDraft(f, item, path, ValueMismatch, ClassifiedValueMismatch, Some(field.intended), seen,
                       [primary], Unqualified)]
  }

  function SurplusDrafts(f: Frame, primary: View, item: Text, intent: IntentObject, fields: Table<Path, Value>)
    : seq<Draft>
  {
    if fields == [] then []
    else
      var k := |fields| - 1;
      SurplusDrafts(f, primary, item, intent, fields[..k])
      + (if ReservedPath(fields[k].key) || Find(intent.fields, fields[k].key).Some? then []
         else [MakeDraft(f, item, fields[k].key, FieldUnexpected, ClassifiedFieldUnexpected, None,
                         Some(fields[k].value), [primary], Unqualified)])
  }

  function ObjectDrafts(f: Frame, primary: View, item: Text, intent: IntentObject): seq<Draft> {
    var presence := PresenceOf(primary, item);
    if intent.existence.Required? && presence.Absent? then
      if f.policy.requireAbsenceAuthority && !primary.snapshot.capabilities.assertsAbsence then
        [MakeDraft(f, item, [], UnknownDrift, ObservationSourceCannotAssertAbsence, None, None, [primary], Unqualified)]
      else
        [MakeDraft(f, item, [], Missing, ClassifiedObjectMissing, Some(String("required")), Some(String("absent")),
                   [primary], Unqualified)]
    else if intent.existence.Required? && presence.UnknownPresence? then
      [MakeDraft(f, item, [], UnknownDrift,
                 if primary.snapshot.DeclaresUnobserved(item) then ObservationCoveragePartial
                 else ObservationCoverageUnknown, None, None, [primary], Unqualified)]
    else if intent.existence.Forbidden? && presence.Present? then
      [MakeDraft(f, item, [], Unexpected, ClassifiedObjectUnexpected, Some(String("forbidden")),
                 Some(String("present")), [primary], Unqualified)]
    else if !presence.Present? then []
    else
      var observed := Find(primary.snapshot.objects, item).value;
      FieldDrafts(f, primary, item, observed, intent.fields)
      + SurplusDrafts(f, primary, item, intent, observed.fields)
  }

  function DeclaredDrafts(f: Frame, primary: View, objects: Table<Text, IntentObject>): seq<Draft> {
    if objects == [] then []
    else
      var k := |objects| - 1;
      DeclaredDrafts(f, primary, objects[..k]) + ObjectDrafts(f, primary, objects[k].key, objects[k].value)
  }

  predicate Undeclared(declared: Table<Text, IntentObject>, entry: Pair<Text, ObservedObject>) {
    !ReservedObject(entry.key) && Find(declared, entry.key).None? && entry.value.presence.Present?
  }

  function UndeclaredDrafts(f: Frame, primary: View, declared: Table<Text, IntentObject>,
                            objects: Table<Text, ObservedObject>): seq<Draft>
  {
    if objects == [] then []
    else
      var k := |objects| - 1;
      UndeclaredDrafts(f, primary, declared, objects[..k])
      + (if Undeclared(declared, objects[k]) then
           [MakeDraft(f, objects[k].key, [], Unexpected, ClassifiedObjectUnexpected, None, Some(String("present")),
                      [primary], Unqualified)]
         else [])
  }

  // ----- generation divergence

  const APPLIED_GENERATION: Path := [Key("@applied-generation")]

  function AppliedGeneration(observed: ObservedObject): Option<nat> {
    var found := Find(observed.fields, APPLIED_GENERATION);
    if found.None? then None
    else if found.value.Int? && found.value.signed >= 0 then Some(found.value.signed)
    else if found.value.Uint? then Some(found.value.unsigned)
    else None
  }

  /** The generations that declared objects present at the source report, in object order. */
  function AppliedBy(primary: View, objects: Table<Text, IntentObject>): seq<nat> {
    if objects == [] then []
    else
      var k := |objects| - 1;
      var seen := Find(primary.snapshot.objects, objects[k].key);
      AppliedBy(primary, objects[..k])
      + (if seen.Some? && seen.value.presence.Present? && AppliedGeneration(seen.value).Some?
         then [AppliedGeneration(seen.value).value] else [])
  }

  function InsertAscending(s: seq<nat>, x: nat): seq<nat> {
    if s == [] || x < s[0] then [x] + s
    else if x == s[0] then s
    else [s[0]] + InsertAscending(s[1..], x)
  }

  /** Sorted, without repetition. */
  function Ascending(s: seq<nat>): seq<nat> {
    if s == [] then [] else InsertAscending(Ascending(s[..|s| - 1]), s[|s| - 1])
  }

  predicate Deviation(k: DriftClass) { k.ValueMismatch? || k.FieldMissing? || k.Missing? }

  predicate HasDeviation(drafts: seq<Draft>) {
    exists i :: 0 <= i < |drafts| && Deviation(drafts[i].klass)
  }

  predicate PartiallyApplied(applied: seq<nat>, generation: nat) { generation != 0 && generation in applied }

  predicate NotApplied(applied: seq<nat>, generation: nat) {
    var sorted := Ascending(applied);
    !PartiallyApplied(applied, generation) && sorted != [] && sorted[|sorted| - 1] != generation
  }

  function RegroupOne(f: Frame, d: Draft, partial: bool, applied: seq<nat>): Draft {
    if !Deviation(d.klass) then d
    else
      var klass := if partial then PartialApplication else GenerationMismatch;
      d.(klass := klass,
         reason := if partial then ClassifiedPartialApplication else ClassifiedGenerationMismatch,
         qualifier := Divergence(partial, f.generation, Ascending(applied)),
         severity := Severities(f.policy, d.target, d.objectId, d.path, klass))
  }

  function RegroupAll(f: Frame, drafts: seq<Draft>, partial: bool, applied: seq<nat>): (r: seq<Draft>)
    ensures |r| == |drafts|
    ensures forall i :: 0 <= i < |r| ==> r[i] == RegroupOne(f, drafts[i], partial, applied)
  {
    if drafts == [] then []
    else
      var k := |drafts| - 1;
      RegroupAll(f, drafts[..k], partial, applied) + [RegroupOne(f, drafts[k], partial, applied)]
  }

  function Regroup(f: Frame, drafts: seq<Draft>, applied: seq<nat>): seq<Draft> {
    if && applied != [] && HasDeviation(drafts)
       && (PartiallyApplied(applied, f.generation) || NotApplied(applied, f.generation))
    then RegroupAll(f, drafts, PartiallyApplied(applied, f.generation), applied)
    else drafts
  }

  // ----- the verdict

  predicate Blocking(k: DriftClass) { Indeterminate(k) || k.Unsupported? }
  predicate Acting(k: DriftClass) { Actionable(k) || k.IntentMissing? }

  function FirstReason(drafts: seq<Draft>): Reason {
    if drafts == [] then NoReason
    else
      var k := |drafts| - 1;
      var before := FirstReason(drafts[..k]);
      if before.NoReason? && (Blocking(drafts[k].klass) || Acting(drafts[k].klass)) then drafts[k].reason else before
  }

  function RawDrafts(f: Frame, baseline: Baseline, views: seq<View>): seq<Draft>
    requires views != []
  {
    Conflicts(f, views, ScanLimit(views)) + DeclaredDrafts(f, views[0], baseline.objects)
    + UndeclaredDrafts(f, views[0], baseline.objects, views[0].snapshot.objects)
  }

  function FrameOf(target: Text, baseline: Option<Baseline>, policy: ObservatoryPolicy, maxRefs: nat): Frame {
    if baseline.None? then Frame(target, 0, 0, UnknownAuthority, policy, maxRefs)
    else Frame(target, baseline.value.generation, baseline.value.epoch, baseline.value.authority, policy, maxRefs)
  }

  predicate AnyUsable(views: seq<View>) { exists i :: 0 <= i < |views| && views[i].Usable() }

  function CountUsable(views: seq<View>): nat {
    if views == [] then 0
    else CountUsable(views[..|views| - 1]) + (if views[|views| - 1].Usable() then 1 else 0)
  }

  /** The evaluation drawn from the current views. */
  function Conclude(target: Text, baseline: Option<Baseline>, policy: ObservatoryPolicy, maxRefs: nat, views: seq<View>)
    : Evaluation
  {
    var f := FrameOf(target, baseline, policy, maxRefs);
    var start := Evaluation(target, baseline.Some?, f.generation, f.epoch, f.authority,
                            if views == [] then Unestablished else views[0].verdict.state,
                            |views|, CountUsable(views), false, false, ClassifiedNoIntent, []);
    if baseline.None? then
      if target in policy.requiredTargets then
        start.(drafts := [MakeDraft(f, TARGET_SCOPE, [], IntentMissing, ClassifiedNoIntent, None, None,
                                    if views == [] then [] else [views[0]], Unqualified)
                          .(complianceRelevant := views == [] || views[0].Usable())])
      else start
    else if !AnyUsable(views) then
      var reason := if views == [] then NoFreshEvidence else views[0].verdict.reason;
      start.(drafts := [MakeDraft(f, TARGET_SCOPE, [], StaleObservation, reason, None, None, views, Unqualified)],
             reason := reason)
    else
      var drafts := Regroup(f, RawDrafts(f, baseline.value, views), AppliedBy(views[0], baseline.value.objects));
      Decide(start, drafts, !policy.requireCompleteCoverage || views[0].Complete())
  }

  function Decide(start: Evaluation, drafts: seq<Draft>, coverageOk: bool): Evaluation {
    var decidable := coverageOk && forall i :: 0 <= i < |drafts| ==> !Blocking(drafts[i].klass);
    var compliant := decidable && forall i :: 0 <= i < |drafts| ==> !Acting(drafts[i].klass);
    start.(drafts := drafts, decidable := decidable, compliant := compliant,
           reason := if compliant then ClassifiedConverged
                     else if !FirstReason(drafts).NoReason? then FirstReason(drafts)
                     else ObservationCoveragePartial)
  }

  function Mismatched(input: Input): Evaluation {
    var blank := BLANK.(target := input.target, reason := ComparisonBaselineUnavailable);
    if input.baseline.None? then blank
    else blank.(hasBaseline := true, generation := input.baseline.value.generation,
                epoch := input.baseline.value.epoch, authority := input.baseline.value.authority)
  }

  /** The evaluations a comparison may return: unsorted ties leave a choice only between
      equally new observations of one source. */
  ghost predicate Compares(input: Input, policy: ObservatoryPolicy, maxRefs: nat, r: Evaluation) {
    if |input.snapshots| != |input.freshness| then r == Mismatched(input)
    else exists chosen :: Current(Views(input, policy), chosen)
                          && r == Conclude(input.target, input.baseline, policy, maxRefs, chosen)
  }

  predicate SubEvidence(a: Input, b: Input)
    requires |a.snapshots| == |a.freshness| && |b.snapshots| == |b.freshness|
  {
    forall i :: 0 <= i < |a.snapshots| ==> Supplied(a.snapshots[i], a.freshness[i], b)
  }

  predicate Supplied(snapshot: Snapshot, freshness: Freshness, b: Input)
    requires |b.snapshots| == |b.freshness|
  {
    exists j :: 0 <= j < |b.snapshots| && b.snapshots[j] == snapshot && b.freshness[j] == freshness
  }

  /** The evaluation is a function of the set of evidence alone. */
  lemma OrderIrrelevant(a: Input, b: Input, policy: ObservatoryPolicy, maxRefs: nat, r: Evaluation, s: Evaluation)
    requires |a.snapshots| == |a.freshness| && |b.snapshots| == |b.freshness|
    requires a.target == b.target && a.baseline == b.baseline && SubEvidence(a, b) && SubEvidence(b, a)
    requires StrictNewest(Views(a, policy))
    requires Compares(a, policy, maxRefs, r) && Compares(b, policy, maxRefs, s)
    ensures r == s
  {
    hide Conclude, Current, StrictNewest, SubEvidence, Views, Within;
    var x :| Current(Views(a, policy), x) && r == Conclude(a.target, a.baseline, policy, maxRefs, x);
    var y :| Current(Views(b, policy), y) && s == Conclude(b.target, b.baseline, policy, maxRefs, y);
    SameViews(a, b, policy);
    SameViews(b, a, policy);
    CurrentUnique(Views(a, policy), Views(b, policy), x, y);
  }

  lemma SameViews(a: Input, b: Input, policy: ObservatoryPolicy)
    requires |a.snapshots| == |a.freshness| && |b.snapshots| == |b.freshness| && SubEvidence(a, b)
    ensures Within(Views(a, policy), Views(b, policy))
  {
    hide ViewOf;
    forall i | 0 <= i < |Views(a, policy)| ensures Views(a, policy)[i] in Views(b, policy) {
      assert Supplied(a.snapshots[i], a.freshness[i], b);
      var j :| 0 <= j < |b.snapshots| && b.snapshots[j] == a.snapshots[i] && b.freshness[j] == a.freshness[i];
      assert Views(b, policy)[j] == Views(a, policy)[i];
    }
  }

  function ViewOf(snapshot: Snapshot, freshness: Freshness, policy: ObservatoryPolicy): View {
    View(snapshot, freshness, PriorityOf(policy.sourcePriority, snapshot.source))
  }
}
