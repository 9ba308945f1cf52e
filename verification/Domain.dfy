/** Intent, observations and findings as values. A `std::map` that the program only
    reads and walks in key order is a table: a sequence of pairs, with distinct keys. */
module Domain {
  import opened Core
  import opened Values

  // ----- tables

  datatype Pair<K, V> = Pair(key: K, value: V)
  type Table<K, V> = seq<Pair<K, V>>

  predicate UniqueKeys<K(==), V>(t: Table<K, V>) {
    forall i, j :: 0 <= i < j < |t| ==> t[i].key != t[j].key
  }

  /** What a whole `std::map` is: a table with distinct keys. */
  type MapTable<K(==), V> = t: Table<K, V> | UniqueKeys(t) witness []

  predicate Holds<K(==), V>(t: Table<K, V>, k: K) {
    exists i :: 0 <= i < |t| && t[i].key == k
  }

  function Find<K(==), V>(t: Table<K, V>, k: K): (r: Option<V>)
    ensures r.Some? <==> Holds(t, k)
    ensures r.Some? ==> exists i :: 0 <= i < |t| && t[i] == Pair(k, r.value)
  {
    if t == [] then None
    else if t[0].key == k then assert t[0] == Pair(k, t[0].value); Some(t[0].value)
    else
      var r := Find(t[1..], k);
      assert forall i :: 0 <= i < |t[1..]| ==> t[1..][i] == t[i + 1];
      r
  }

  // ----- locations

  datatype Segment = Key(key: Text) | Index(index: uint64)
  type Path = seq<Segment>

  const TARGET_SCOPE: Text := "@target"

  // ----- intent

  datatype Authority = UnknownAuthority | IntentFabric | ConfigurationFabric | LocalPolicy | ImportedDocument
  datatype Comparability = Managed | ObserveOnly | Unmanaged | Unobservable | UnsupportedClass
  datatype Existence = Required | Forbidden
  datatype EvidenceClass = UnknownEvidence | RealEvidence | SyntheticEvidence | UnsupportedEvidence

  datatype IntentField = IntentField(intended: Value, comparability: Comparability)
  datatype IntentObject = IntentObject(existence: Existence, fields: MapTable<Path, IntentField>)

  datatype Document = Document(
    target: Text, generation: nat, epoch: nat, authority: Authority, policy: Text, authoredAt: int64,
    objects: MapTable<Text, IntentObject>, evidence: EvidenceClass)

  /** The content digest is modelled by the document it is computed from. */
  datatype Baseline = Baseline(
    target: Text, generation: nat, epoch: nat, authority: Authority, policy: Text, committedAt: int64,
    content: Document, evidence: EvidenceClass, objects: MapTable<Text, IntentObject>)

  // ----- observations

  datatype Presence = Absent | Present | UnknownPresence
  datatype Coverage = UnknownCoverage | PartialCoverage | CompleteCoverage

  datatype Capabilities = Capabilities(
    assertsAbsence: bool, completeCoverage: bool, nestedPaths: bool, evidence: EvidenceClass)

  datatype ObservedObject = ObservedObject(presence: Presence, fields: MapTable<Path, Value>)

  datatype Snapshot = Snapshot(
    source: Text, epoch: nat, incarnation: nat, sequence: nat, target: Text,
    collectedAt: int64, receivedAt: int64, ttl: int64, coverage: Coverage,
    unobserved: seq<Text>, objects: MapTable<Text, ObservedObject>,
    capabilities: Capabilities, evidence: EvidenceClass)
  {
    predicate DeclaresCompleteCoverage() { coverage.CompleteCoverage? && capabilities.completeCoverage }
    predicate DeclaresUnobserved(id: Text) { id in unobserved }
    /** Everything the content digest covers: all but the receive time, with the
        unobserved objects as a set. */
    function Content(): (Snapshot, set<Text>) {
      (this.(receivedAt := 0, unobserved := []), set id | id in unobserved)
    }
  }

  // ----- freshness

  datatype FreshnessState = Unestablished | Fresh | Aging | Stale | Expired | Future | RecoveredNotFresh

  datatype Freshness = Freshness(
    state: FreshnessState, reason: Reason, age: int64, effectiveTtl: int64,
    maySupportCompliance: bool, mayAssertAbsence: bool)

  // ----- drift

  datatype Severity = Info | Low | Medium | High | Critical
  {
    function Rank(): nat {
      match this case Info => 0 case Low => 1 case Medium => 2 case High => 3 case Critical => 4
    }
  }

  datatype DriftClass =
    | NoDrift | Missing | Unexpected | ValueMismatch | FieldMissing | FieldUnexpected | StaleObservation
    | UnknownDrift | Unsupported | GenerationMismatch | PartialApplication | SourceConflict | IntentMissing
    | EvidenceInvalid

  predicate Actionable(k: DriftClass) {
    k.Missing? || k.Unexpected? || k.ValueMismatch? || k.FieldMissing? || k.FieldUnexpected?
    || k.GenerationMismatch? || k.PartialApplication? || k.SourceConflict?
  }

  predicate Indeterminate(k: DriftClass) { k.StaleObservation? || k.UnknownDrift? || k.EvidenceInvalid? }

  /** What a qualifier digest is computed from. */
  datatype Qualifier =
    | Unqualified
    | SourcePair(low: Text, high: Text)
    | Divergence(partial: bool, intended: nat, applied: seq<nat>)

  /** A finding's identity digest is modelled by its inputs. */
  datatype FindingId = FindingId(
    target: Text, objectId: Text, path: Path, klass: DriftClass, generation: nat, qualifier: Qualifier)

  datatype EvidenceRef = EvidenceRef(snapshot: Snapshot, freshness: FreshnessState)

  datatype Draft = Draft(
    target: Text, objectId: Text, path: Path, klass: DriftClass, rawClass: DriftClass, severity: Severity,
    reason: Reason, generation: nat, epoch: nat, authority: Authority,
    intended: Option<Value>, observed: Option<Value>, evidence: seq<EvidenceRef>,
    qualifier: Qualifier, complianceRelevant: bool)
  {
    function Id(): FindingId { FindingId(target, objectId, path, klass, generation, qualifier) }
  }

  datatype Evaluation = Evaluation(
    target: Text, hasBaseline: bool, generation: nat, epoch: nat, authority: Authority,
    bestFreshness: FreshnessState, sourcesConsidered: nat, freshSources: nat,
    decidable: bool, compliant: bool, reason: Reason, drafts: seq<Draft>)

  /** What an evaluation slot holds before the comparator fills it. */
  const BLANK: Evaluation :=
    Evaluation("", false, 0, 0, UnknownAuthority, Unestablished, 0, 0, false, false, NoFreshEvidence, [])
}
