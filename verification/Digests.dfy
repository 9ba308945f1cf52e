/** The digest pre-images of snapshots, intent and finding identities, and
    what two of them having the same octets means. */
module Digests {
  import opened Core
  import opened Values
  import opened Domain
  import opened HashStreams
  import Paths
  import Sha256
  import Sorting

  const SNAPSHOT_TAG: Text := "ndo/observation-snapshot/v1"
  const INTENT_TAG: Text := "ndo/intent-generation/v1"
  const FINDING_TAG: Text := "ndo/finding-identity/v1"
  const CONFLICT_TAG: Text := "ndo/source-conflict/v1"
  const DIVERGENCE_TAG: Text := "ndo/generation-divergence/v1"

  // ----- the unobserved objects, as a set

  function InsertOnce(s: seq<Text>, x: Text): (r: seq<Text>)
    ensures forall y :: y in r <==> y in s || y == x
  {
    if s == [] then [x]
    else if s[0] == x then s
    else if Less(x, s[0]) then [x] + s
    else
      assert s == [s[0]] + s[1..];
      [s[0]] + InsertOnce(s[1..], x)
  }

  /** Sorted, each once. */
  function SortedSet(s: seq<Text>): (r: seq<Text>)
    ensures forall y :: y in r <==> y in s
  {
    if s == [] then []
    else
      var k := |s| - 1;
      assert s == s[..k] + [s[k]];
      InsertOnce(SortedSet(s[..k]), s[k])
  }

  predicate Rises(s: seq<Text>) { forall i, j :: 0 <= i < j < |s| ==> Less(s[i], s[j]) }

  lemma {:induction false} InsertRises(s: seq<Text>, x: Text)
    requires Rises(s)
    ensures Rises(InsertOnce(s, x))
  {
    hide Less;
    if s != [] && s[0] != x {
      LessTotal(s[0], x);
      if Less(x, s[0]) {
        forall j | 0 <= j < |s| ensures Less(x, s[j]) {
          if j > 0 {
            LessTransitive(x, s[0], s[j]);
          }
        }
      } else {
        InsertRises(s[1..], x);
        var r := InsertOnce(s[1..], x);
        forall j | 0 <= j < |r| ensures Less(s[0], r[j]) {
          assert r[j] in s[1..] || r[j] == x;
        }
      }
    }
  }

  lemma {:induction false} SortedRises(s: seq<Text>)
    ensures Rises(SortedSet(s))
  {
    if s != [] {
      SortedRises(s[..|s| - 1]);
      InsertRises(SortedSet(s[..|s| - 1]), s[|s| - 1]);
    }
  }

  /** A rising list is determined by its elements. */
  lemma {:induction false} RisingOnce(s: seq<Text>, t: seq<Text>)
    requires Rises(s) && Rises(t) && forall x :: x in s <==> x in t
    ensures s == t
  {
    hide Less;
    var less := (a: Text, b: Text) => Less(a, b);
    forall i, j | 0 <= i < j < |s| ensures s[i] != s[j] && !less(s[j], s[i]) { LessStrict(s[i], s[j]); }
    forall i, j | 0 <= i < j < |t| ensures t[i] != t[j] && !less(t[j], t[i]) { LessStrict(t[i], t[j]); }
    forall x, y | x in s && y in s && x != y ensures less(x, y) || less(y, x) { LessTotal(x, y); }
    Sorting.SortedOnce(less, s, t);
  }

  /** Order and repetition do not matter, nothing else is lost. */
  lemma SetsAgree(s: seq<Text>, t: seq<Text>)
    ensures SortedSet(s) == SortedSet(t) <==> (set x | x in s) == (set x | x in t)
  {
    hide SortedSet, Rises;
    SortedRises(s);
    SortedRises(t);
    var p, q := set x | x in s, set x | x in t;
    if p == q {
      forall x: Text ensures x in SortedSet(s) <==> x in SortedSet(t) {
        assert (x in SortedSet(s) <==> x in s) && (x in s <==> x in p);
        assert (x in SortedSet(t) <==> x in t) && (x in t <==> x in q);
      }
      RisingOnce(SortedSet(s), SortedSet(t));
    } else if SortedSet(s) == SortedSet(t) {
      forall x: Text ensures x in p <==> x in q {
        assert (x in SortedSet(s) <==> x in s) && (x in s <==> x in p);
        assert (x in SortedSet(t) <==> x in t) && (x in t <==> x in q);
      }
    }
  }

  function TextChunks(texts: seq<Text>): seq<Chunk> { seq(|texts|, i requires 0 <= i < |texts| => Words(texts[i])) }

  lemma PeelTexts(s: seq<Text>, t: seq<Text>, a: Text, b: Text)
    requires |s| == |t| && (forall i :: 0 <= i < |s| ==> |s[i]| <= UINT64_MAX && |t[i]| <= UINT64_MAX)
    requires Render(TextChunks(s)) + a == Render(TextChunks(t)) + b
    ensures s == t && a == b
  {
    hide Render;
    PeelChunks(TextChunks(s), TextChunks(t), a, b);
    forall i | 0 <= i < |s| ensures s[i] == t[i] {
      assert TextChunks(s)[i] == Words(s[i]) && TextChunks(t)[i] == Words(t[i]);
    }
  }

  // ----- snapshots

  function EvidenceOctet(e: EvidenceClass): byte {
    match e
    case UnknownEvidence => 0 as char
    case RealEvidence => 1 as char
    case SyntheticEvidence => 2 as char
    case UnsupportedEvidence => 3 as char
  }

  function CoverageOctet(c: Coverage): byte {
    match c
    case UnknownCoverage => 0 as char
    case PartialCoverage => 1 as char
    case CompleteCoverage => 2 as char
  }

  function PresenceOctet(p: Presence): byte {
    match p
    case Absent => 0 as char
    case Present => 1 as char
    case UnknownPresence => 2 as char
  }

  function ObservedFields(fields: Table<Path, Value>): (r: seq<Field>)
    ensures |r| == |fields|
  {
    seq(|fields|, i requires 0 <= i < |fields| => Field(Paths.ToText(fields[i].key), None, fields[i].value))
  }

  function ObservedEntry(e: Pair<Text, ObservedObject>): Entry {
    Entry(e.key, PresenceOctet(e.value.presence), ObservedFields(e.value.fields))
  }

  function ObservedEntries(objects: Table<Text, ObservedObject>): (r: seq<Entry>)
    ensures |r| == |objects|
  {
    seq(|objects|, i requires 0 <= i < |objects| => ObservedEntry(objects[i]))
  }

  function SnapshotHead(s: Snapshot): seq<Chunk> {
    [Words(SNAPSHOT_TAG), Words(s.source), Number(s.epoch), Number(s.incarnation), Number(s.sequence), Words(s.target),
     Number(Unsigned(s.collectedAt)), Number(Unsigned(s.ttl)), Octet(CoverageOctet(s.coverage)),
     Octet(EvidenceOctet(s.evidence)), Octet(Flag(s.capabilities.assertsAbsence)),
     Octet(Flag(s.capabilities.completeCoverage)), Octet(Flag(s.capabilities.nestedPaths)),
     Octet(EvidenceOctet(s.capabilities.evidence)), Number(|SortedSet(s.unobserved)|)]
  }

  function SnapshotChunks(s: Snapshot): seq<Chunk> {
    SnapshotHead(s)
    + (TextChunks(SortedSet(s.unobserved)) + ([Number(|s.objects|)] + EntryChunks(ObservedEntries(s.objects))))
  }

  function SnapshotStream(s: Snapshot): Text { Render(SnapshotChunks(s)) }

  // ----- intent

  function AuthorityName(a: Authority): Text {
    match a
    case UnknownAuthority => "unknown"
    case IntentFabric => "intent-fabric"
    case ConfigurationFabric => "configuration-fabric"
    case LocalPolicy => "local-policy"
    case ImportedDocument => "imported-document"
  }

  function ComparabilityOctet(c: Comparability): byte {
    match c
    case Managed => 0 as char
    case ObserveOnly => 1 as char
    case Unmanaged => 2 as char
    case Unobservable => 3 as char
    case UnsupportedClass => 4 as char
  }

  function ExistenceOctet(e: Existence): byte { if e.Required? then 0 as char else 1 as char }

  function IntentFields(fields: Table<Path, IntentField>): (r: seq<Field>)
    ensures |r| == |fields|
  {
    seq(|fields|, i requires 0 <= i < |fields| =>
      Field(Paths.ToText(fields[i].key), Some(ComparabilityOctet(fields[i].value.comparability)),
            fields[i].value.intended))
  }

  function IntentEntry(e: Pair<Text, IntentObject>): Entry {
    Entry(e.key, ExistenceOctet(e.value.existence), IntentFields(e.value.fields))
  }

  function IntentEntries(objects: Table<Text, IntentObject>): (r: seq<Entry>)
    ensures |r| == |objects|
  {
    seq(|objects|, i requires 0 <= i < |objects| => IntentEntry(objects[i]))
  }

  function DocumentHead(d: Document): seq<Chunk> {
    [Words(INTENT_TAG), Words(d.target), Number(d.generation), Number(d.epoch), Words(AuthorityName(d.authority)),
     Words(d.policy), Number(Unsigned(d.authoredAt)), Octet(EvidenceOctet(d.evidence)), Number(|d.objects|)]
  }

  function DocumentChunks(d: Document): seq<Chunk> { DocumentHead(d) + EntryChunks(IntentEntries(d.objects)) }

  function DocumentStream(d: Document): Text { Render(DocumentChunks(d)) }

  // ----- what the readers admit

  predicate GoodPath(p: Path) {
    |Paths.ToText(p)| <= UINT64_MAX && forall i :: 0 <= i < |p| && p[i].Key? ==> Paths.WellKeyed(p[i].key)
  }

  predicate GoodObserved(o: ObservedObject) {
    |o.fields| <= UINT64_MAX
    && forall i :: 0 <= i < |o.fields| ==> GoodPath(o.fields[i].key) && Whole(o.fields[i].value, 0)
  }

  predicate GoodIntended(o: IntentObject) {
    |o.fields| <= UINT64_MAX
    && forall i :: 0 <= i < |o.fields| ==> GoodPath(o.fields[i].key) && Whole(o.fields[i].value.intended, 0)
  }

  /** Parsed paths, values above the hashing guard, and sizes a machine holds. */
  predicate GoodSnapshot(s: Snapshot) {
    && |s.source| <= UINT64_MAX && |s.target| <= UINT64_MAX
    && s.epoch <= UINT64_MAX && s.incarnation <= UINT64_MAX && s.sequence <= UINT64_MAX
    && |SortedSet(s.unobserved)| <= UINT64_MAX && |s.objects| <= UINT64_MAX
    && (forall i :: 0 <= i < |s.unobserved| ==> |s.unobserved[i]| <= UINT64_MAX)
    && (forall i :: 0 <= i < |s.objects| ==> |s.objects[i].key| <= UINT64_MAX && GoodObserved(s.objects[i].value))
  }

  predicate GoodDocument(d: Document) {
    && |d.target| <= UINT64_MAX && |d.policy| <= UINT64_MAX && |d.objects| <= UINT64_MAX
    && d.generation <= UINT64_MAX && d.epoch <= UINT64_MAX
    && (forall i :: 0 <= i < |d.objects| ==> |d.objects[i].key| <= UINT64_MAX && GoodIntended(d.objects[i].value))
  }

  // ----- the octets determine the content

  lemma OctetsTell(c: Coverage, d: Coverage, e: EvidenceClass, f: EvidenceClass, p: Presence, q: Presence,
                   m: Comparability, n: Comparability)
    ensures CoverageOctet(c) == CoverageOctet(d) ==> c == d
    ensures EvidenceOctet(e) == EvidenceOctet(f) ==> e == f
    ensures PresenceOctet(p) == PresenceOctet(q) ==> p == q
    ensures ComparabilityOctet(m) == ComparabilityOctet(n) ==> m == n
  {}

  lemma AuthorityTells(a: Authority, b: Authority)
    ensures AuthorityName(a) == AuthorityName(b) ==> a == b
    ensures |AuthorityName(a)| <= 20
  {
    assert |AuthorityName(a)| == match a
                                 case UnknownAuthority => 7 case IntentFabric => 13 case ConfigurationFabric => 20
                                 case LocalPolicy => 12 case ImportedDocument => 17;
    assert |AuthorityName(b)| == match b
                                 case UnknownAuthority => 7 case IntentFabric => 13 case ConfigurationFabric => 20
                                 case LocalPolicy => 12 case ImportedDocument => 17;
  }

  lemma ObservedTell(x: Pair<Text, ObservedObject>, y: Pair<Text, ObservedObject>)
    requires GoodObserved(x.value) && GoodObserved(y.value) && ObservedEntry(x) == ObservedEntry(y)
    ensures x == y
  {
    hide Paths.ToText, Paths.WellKeyed, Whole;
    var f, g := x.value.fields, y.value.fields;
    OctetsTell(UnknownCoverage, UnknownCoverage, RealEvidence, RealEvidence, x.value.presence, y.value.presence,
               Managed, Managed);
    assert |f| == |ObservedFields(f)| == |ObservedFields(g)| == |g|;
    forall i | 0 <= i < |f| ensures f[i] == g[i] {
      assert ObservedFields(f)[i] == ObservedFields(g)[i];
      Paths.TextInjective(f[i].key, g[i].key);
    }
    assert f == g && x.value == y.value;
  }

  lemma IntendedTell(x: Pair<Text, IntentObject>, y: Pair<Text, IntentObject>)
    requires GoodIntended(x.value) && GoodIntended(y.value) && IntentEntry(x) == IntentEntry(y)
    ensures x == y
  {
    hide Paths.ToText, Paths.WellKeyed, Whole, ComparabilityOctet;
    var f, g := x.value.fields, y.value.fields;
    assert |f| == |IntentFields(f)| == |IntentFields(g)| == |g|;
    forall i | 0 <= i < |f| ensures f[i] == g[i] {
      assert IntentFields(f)[i] == IntentFields(g)[i];
      Paths.TextInjective(f[i].key, g[i].key);
      OctetsTell(UnknownCoverage, UnknownCoverage, RealEvidence, RealEvidence, Absent, Absent,
                 f[i].value.comparability, g[i].value.comparability);
    }
    assert f == g && x.value == y.value;
  }

  lemma PeelObserved(l: Table<Text, ObservedObject>, r: Table<Text, ObservedObject>, a: Text, b: Text)
    requires |l| == |r|
    requires forall i :: 0 <= i < |l| ==> |l[i].key| <= UINT64_MAX && GoodObserved(l[i].value)
    requires forall i :: 0 <= i < |r| ==> |r[i].key| <= UINT64_MAX && GoodObserved(r[i].value)
    requires Render(EntryChunks(ObservedEntries(l))) + a == Render(EntryChunks(ObservedEntries(r))) + b
    ensures l == r && a == b
  {
    hide Render, EntryChunks, Paths.ToText, PresenceOctet, Paths.WellKeyed, Whole;
    var c, d := ObservedEntries(l), ObservedEntries(r);
    PeelEntries(c, d, false, a, b);
    forall i | 0 <= i < |l| ensures l[i] == r[i] {
      assert c[i] == d[i];
      ObservedTell(l[i], r[i]);
    }
  }

  lemma PeelIntended(l: Table<Text, IntentObject>, r: Table<Text, IntentObject>, a: Text, b: Text)
    requires |l| == |r|
    requires forall i :: 0 <= i < |l| ==> |l[i].key| <= UINT64_MAX && GoodIntended(l[i].value)
    requires forall i :: 0 <= i < |r| ==> |r[i].key| <= UINT64_MAX && GoodIntended(r[i].value)
    requires Render(EntryChunks(IntentEntries(l))) + a == Render(EntryChunks(IntentEntries(r))) + b
    ensures l == r && a == b
  {
    hide Render, EntryChunks, Paths.ToText, ExistenceOctet, ComparabilityOctet, Paths.WellKeyed, Whole;
    var c, d := IntentEntries(l), IntentEntries(r);
    PeelEntries(c, d, true, a, b);
    forall i | 0 <= i < |l| ensures l[i] == r[i] {
      assert c[i] == d[i];
      IntendedTell(l[i], r[i]);
    }
  }

  predicate SameHead(s: Snapshot, t: Snapshot) {
    && s.source == t.source && s.epoch == t.epoch && s.incarnation == t.incarnation && s.sequence == t.sequence
    && s.target == t.target && s.collectedAt == t.collectedAt && s.ttl == t.ttl && s.coverage == t.coverage
    && s.evidence == t.evidence && s.capabilities == t.capabilities
  }

  lemma HeadTells(s: Snapshot, t: Snapshot)
    requires SnapshotHead(s) == SnapshotHead(t)
    ensures SameHead(s, t) && |SortedSet(s.unobserved)| == |SortedSet(t.unobserved)|
  {
    hide SortedSet;
    var c, d := SnapshotHead(s), SnapshotHead(t);
    assert forall i :: 0 <= i < 15 ==> c[i] == d[i];
    assert c[1] == d[1] && c[2] == d[2] && c[3] == d[3] && c[4] == d[4] && c[5] == d[5] && c[6] == d[6] && c[7] == d[7];
    assert c[8] == d[8] && c[9] == d[9] && c[10] == d[10] && c[11] == d[11] && c[12] == d[12] && c[13] == d[13];
    assert c[14] == d[14];
    OctetsTell(s.coverage, t.coverage, s.evidence, t.evidence, Absent, Absent, Managed, Managed);
    OctetsTell(s.coverage, t.coverage, s.capabilities.evidence, t.capabilities.evidence, Absent, Absent, Managed, Managed);
    assert s.capabilities == t.capabilities;
  }

  lemma SortedGood(s: seq<Text>)
    requires forall i :: 0 <= i < |s| ==> |s[i]| <= UINT64_MAX
    ensures forall i :: 0 <= i < |SortedSet(s)| ==> |SortedSet(s)[i]| <= UINT64_MAX
  {
    hide SortedSet;
    forall i | 0 <= i < |SortedSet(s)| ensures |SortedSet(s)[i]| <= UINT64_MAX {
      assert SortedSet(s)[i] in s;
    }
  }

  /** The octets of two snapshots agree exactly when their contents do: all
      but the receive time, with the unobserved objects as a set. */
  lemma SnapshotStreams(s: Snapshot, t: Snapshot)
    requires GoodSnapshot(s) && GoodSnapshot(t)
    ensures SnapshotStream(s) == SnapshotStream(t) <==> s.Content() == t.Content()
  {
    hide SortedSet, GoodObserved, EntryChunks, SnapshotHead, TextChunks, ObservedEntries;
    SetsAgree(s.unobserved, t.unobserved);
    if SnapshotStream(s) == SnapshotStream(t) {
      SnapshotTells(s, t);
      SameContent(s, t);
    } else if s.Content() == t.Content() {
      ContentTells(s, t);
    }
  }

  lemma SameContent(s: Snapshot, t: Snapshot)
    requires SameHead(s, t) && s.objects == t.objects && (set x | x in s.unobserved) == (set x | x in t.unobserved)
    ensures s.Content() == t.Content()
  {}

  lemma ContentTells(s: Snapshot, t: Snapshot)
    requires s.Content() == t.Content() && SortedSet(s.unobserved) == SortedSet(t.unobserved)
    ensures SnapshotChunks(s) == SnapshotChunks(t)
  {
    hide SortedSet, EntryChunks, TextChunks, ObservedEntries;
    var x, y := s.Content().0, t.Content().0;
    assert x.source == y.source && x.epoch == y.epoch && x.incarnation == y.incarnation && x.sequence == y.sequence;
    assert x.target == y.target && x.collectedAt == y.collectedAt && x.ttl == y.ttl && x.coverage == y.coverage;
    assert x.evidence == y.evidence && x.capabilities == y.capabilities && x.objects == y.objects;
  }

  lemma SnapshotTells(s: Snapshot, t: Snapshot)
    requires GoodSnapshot(s) && GoodSnapshot(t) && SnapshotStream(s) == SnapshotStream(t)
    ensures SameHead(s, t) && SortedSet(s.unobserved) == SortedSet(t.unobserved) && s.objects == t.objects
  {
    hide SortedSet, GoodObserved, EntryChunks, SnapshotHead, TextChunks, ObservedEntries, Render;
    var u, v := SortedSet(s.unobserved), SortedSet(t.unobserved);
    var p, q := Render(EntryChunks(ObservedEntries(s.objects))), Render(EntryChunks(ObservedEntries(t.objects)));
    SnapshotSplits(s);
    SnapshotSplits(t);
    HeadsAlike(s, t);
    PeelChunks(SnapshotHead(s), SnapshotHead(t), Render(TextChunks(u)) + (Sha256.U64(|s.objects|) + p),
               Render(TextChunks(v)) + (Sha256.U64(|t.objects|) + q));
    HeadTells(s, t);
    SortedGood(s.unobserved);
    SortedGood(t.unobserved);
    PeelTexts(u, v, Sha256.U64(|s.objects|) + p, Sha256.U64(|t.objects|) + q);
    PeelNumber(|s.objects|, |t.objects|, p, q);
    assert p + [] == p && q + [] == q;
    PeelObserved(s.objects, t.objects, [], []);
  }

  lemma HeadsAlike(s: Snapshot, t: Snapshot)
    requires GoodSnapshot(s) && GoodSnapshot(t)
    ensures Alike(SnapshotHead(s), SnapshotHead(t))
  {
    hide SortedSet, GoodObserved;
  }

  lemma SnapshotSplits(s: Snapshot)
    ensures SnapshotStream(s)
         == Render(SnapshotHead(s))
            + (Render(TextChunks(SortedSet(s.unobserved)))
               + (Sha256.U64(|s.objects|) + Render(EntryChunks(ObservedEntries(s.objects)))))
  {
    hide SortedSet, EntryChunks, SnapshotHead, TextChunks, ObservedEntries, Render;
    var texts, entries := TextChunks(SortedSet(s.unobserved)), EntryChunks(ObservedEntries(s.objects));
    RenderAppend(SnapshotHead(s), texts + ([Number(|s.objects|)] + entries));
    RenderAppend(texts, [Number(|s.objects|)] + entries);
    RenderAppend([Number(|s.objects|)], entries);
    One(Number(|s.objects|));
  }

  lemma One(c: Chunk)
    ensures Render([c]) == Octets(c)
  {
    hide Octets;
    assert [c][..0] == [];
    assert Render([c]) == [] + Octets(c);
  }

  /** Intent documents with the same octets are the same document. */
  lemma DocumentStreams(d: Document, e: Document)
    requires GoodDocument(d) && GoodDocument(e)
    ensures DocumentStream(d) == DocumentStream(e) <==> d == e
  {
    hide GoodIntended, EntryChunks, IntentEntries, Render, AuthorityName;
    if DocumentStream(d) == DocumentStream(e) {
      var p, q := Render(EntryChunks(IntentEntries(d.objects))), Render(EntryChunks(IntentEntries(e.objects)));
      RenderAppend(DocumentHead(d), EntryChunks(IntentEntries(d.objects)));
      RenderAppend(DocumentHead(e), EntryChunks(IntentEntries(e.objects)));
      AuthorityTells(d.authority, e.authority);
      AuthorityTells(e.authority, d.authority);
      PeelChunks(DocumentHead(d), DocumentHead(e), p, q);
      var x, y := DocumentHead(d), DocumentHead(e);
      assert x[1] == y[1] && x[2] == y[2] && x[3] == y[3] && x[4] == y[4];
      assert x[5] == y[5] && x[6] == y[6] && x[7] == y[7] && x[8] == y[8];
      OctetsTell(UnknownCoverage, UnknownCoverage, d.evidence, e.evidence, Absent, Absent, Managed, Managed);
      assert p + [] == p && q + [] == q;
      PeelIntended(d.objects, e.objects, [], []);
    }
  }

  // ----- finding identities

  function ClassName(k: DriftClass): Text {
    match k
    case NoDrift => "none"
    case Missing => "missing"
    case Unexpected => "unexpected"
    case ValueMismatch => "value-mismatch"
    case FieldMissing => "field-missing"
    case FieldUnexpected => "field-unexpected"
    case StaleObservation => "stale-observation"
    case UnknownDrift => "unknown"
    case Unsupported => "unsupported"
    case GenerationMismatch => "generation-mismatch"
    case PartialApplication => "partial-application"
    case SourceConflict => "source-conflict"
    case IntentMissing => "intent-missing"
    case EvidenceInvalid => "evidence-invalid"
  }

  /** What a qualifier digest is computed from. */
  function QualifierChunks(q: Qualifier): seq<Chunk> {
    match q
    case Unqualified => []
    case SourcePair(low, high) => [Words(CONFLICT_TAG), Words(low), Words(high)]
    case Divergence(partial, intended, applied) =>
      [Words(DIVERGENCE_TAG), Words(if partial then "partial" else "not-applied"), Number(intended), Number(|applied|)]
      + NumberChunks(applied)
  }

  function NumberChunks(ns: seq<nat>): seq<Chunk> { seq(|ns|, i requires 0 <= i < |ns| => Number(ns[i])) }

  function NoDigest(): (d: Text)
    ensures |d| == 32
  {
    seq(32, _ => 0 as char)
  }

  function DigestOf(q: Qualifier): (d: Text)
    ensures |d| == 32
  {
    if q.Unqualified? then NoDigest() else DigestSize(Render(QualifierChunks(q))); Sha256.Hash(Render(QualifierChunks(q)))
  }

  lemma DigestSize(message: Text)
    ensures |Sha256.Hash(message)| == 32
  {
    hide Sha256.Fold, Sha256.Pad;
  }

  /** A digest of thirty-two zeros counts as no digest. */
  function FindingChunks(x: FindingId): seq<Chunk> {
    var digest := DigestOf(x.qualifier);
    FindingHead(x, digest != NoDigest()) + if digest != NoDigest() then [Bare(digest)] else []
  }

  function FindingHead(x: FindingId, qualified: bool): seq<Chunk> {
    [Words(FINDING_TAG), Words(x.target), Words(x.objectId), Words(Paths.ToText(x.path)), Words(ClassName(x.klass)),
     Number(x.generation), Number(if qualified then 1 else 0)]
  }

  function FindingStream(x: FindingId): Text { Render(FindingChunks(x)) }

  predicate GoodIdentity(x: FindingId) {
    |x.target| <= UINT64_MAX && |x.objectId| <= UINT64_MAX && GoodPath(x.path) && x.generation <= UINT64_MAX
  }

  predicate GoodQualifier(q: Qualifier) {
    match q
    case Unqualified => true
    case SourcePair(low, high) => |low| <= UINT64_MAX && |high| <= UINT64_MAX
    case Divergence(_, intended, applied) =>
      intended <= UINT64_MAX && |applied| <= UINT64_MAX && forall i :: 0 <= i < |applied| ==> applied[i] <= UINT64_MAX
  }

  lemma ClassNamesTell(k: DriftClass, l: DriftClass)
    ensures ClassName(k) == ClassName(l) ==> k == l
    ensures |ClassName(k)| <= 20
  {
    ClassNameShape(k);
    ClassNameShape(l);
  }

  /** Length and first letters tell the class names apart. */
  lemma ClassNameShape(k: DriftClass)
    ensures
      var s := ClassName(k);
      (|s|, s[0], s[3]) == match k
                           case NoDrift => (4, 'n', 'e')
                           case Missing => (7, 'm', 's')
                           case Unexpected => (10, 'u', 'x')
                           case ValueMismatch => (14, 'v', 'u')
                           case FieldMissing => (13, 'f', 'l')
                           case FieldUnexpected => (16, 'f', 'l')
                           case StaleObservation => (17, 's', 'l')
                           case UnknownDrift => (7, 'u', 'n')
                           case Unsupported => (11, 'u', 'u')
                           case GenerationMismatch => (19, 'g', 'e')
                           case PartialApplication => (19, 'p', 't')
                           case SourceConflict => (15, 's', 'r')
                           case IntentMissing => (14, 'i', 'e')
                           case EvidenceInvalid => (16, 'e', 'd')
  {}

  /** Finding identities feed the same octets exactly when they agree in every
      part and in the qualifier's digest. */
  lemma FindingStreams(x: FindingId, y: FindingId)
    requires GoodIdentity(x) && GoodIdentity(y)
    ensures FindingStream(x) == FindingStream(y)
       <==> && x.target == y.target && x.objectId == y.objectId && x.path == y.path && x.klass == y.klass
            && x.generation == y.generation && DigestOf(x.qualifier) == DigestOf(y.qualifier)
  {
    hide DigestOf, NoDigest, Render, ClassName, Paths.ToText;
    var d, e := DigestOf(x.qualifier), DigestOf(y.qualifier);
    if FindingStream(x) == FindingStream(y) {
      var c, k := FindingHead(x, d != NoDigest()), FindingHead(y, e != NoDigest());
      var a, b := if d != NoDigest() then [Bare(d)] else [], if e != NoDigest() then [Bare(e)] else [];
      RenderAppend(c, a);
      RenderAppend(k, b);
      ClassNamesTell(x.klass, y.klass);
      ClassNamesTell(y.klass, x.klass);
      FindingHeads(x, y, d != NoDigest(), e != NoDigest());
      PeelChunks(c, k, Render(a), Render(b));
      assert c[1] == k[1] && c[2] == k[2] && c[3] == k[3] && c[4] == k[4] && c[5] == k[5] && c[6] == k[6];
      Paths.TextInjective(x.path, y.path);
      if d != NoDigest() {
        One(Bare(d));
        One(Bare(e));
      }
    }
  }

  lemma FindingHeads(x: FindingId, y: FindingId, p: bool, q: bool)
    requires GoodIdentity(x) && GoodIdentity(y)
    ensures Alike(FindingHead(x, p), FindingHead(y, q))
  {
    hide Paths.ToText, ClassName, Paths.WellKeyed;
    ClassNamesTell(x.klass, y.klass);
    ClassNamesTell(y.klass, x.klass);
  }

  /** The octets behind two qualifier digests agree exactly when the qualifiers do. */
  lemma QualifierStreams(q: Qualifier, r: Qualifier)
    requires GoodQualifier(q) && GoodQualifier(r) && !q.Unqualified? && !r.Unqualified?
    ensures Render(QualifierChunks(q)) == Render(QualifierChunks(r)) <==> q == r
  {
    hide Render, NumberChunks;
    var c, d := QualifierChunks(q), QualifierChunks(r);
    if Render(c) == Render(d) {
      assert Render(c) + [] == Render(c) && Render(d) + [] == Render(d);
      var m, n := c[1..], d[1..];
      assert c == [c[0]] + m && d == [d[0]] + n;
      RenderAppend([c[0]], m);
      RenderAppend([d[0]], n);
      One(c[0]);
      One(d[0]);
      PeelText(c[0].text, d[0].text, Render(m), Render(n));
      TagsDiffer();
      if q.SourcePair? {
        PeelChunks(c, d, [], []);
        assert c[1] == d[1] && c[2] == d[2];
      } else {
        DivergencesTell(q, r);
      }
    }
  }

  lemma TagsDiffer()
    ensures CONFLICT_TAG != DIVERGENCE_TAG
  {
    assert |CONFLICT_TAG| == 22 && |DIVERGENCE_TAG| == 28;
  }

  lemma DivergencesTell(q: Qualifier, r: Qualifier)
    requires GoodQualifier(q) && GoodQualifier(r) && q.Divergence? && r.Divergence?
    requires Render(QualifierChunks(q)) == Render(QualifierChunks(r))
    ensures q == r
  {
    hide Render, NumberChunks;
    var c, d := QualifierChunks(q)[..4], QualifierChunks(r)[..4];
    var a, b := NumberChunks(q.applied), NumberChunks(r.applied);
    assert QualifierChunks(q) == c + a && QualifierChunks(r) == d + b;
    RenderAppend(c, a);
    RenderAppend(d, b);
    PeelChunks(c, d, Render(a), Render(b));
    assert c[1] == d[1] && c[2] == d[2] && c[3] == d[3];
    assert |"partial"| != |"not-applied"|;
    assert Render(a) + [] == Render(a) && Render(b) + [] == Render(b);
    NumbersAlike(q.applied, r.applied);
    PeelChunks(a, b, [], []);
    NumbersTell(q.applied, r.applied);
  }

  lemma NumbersAlike(m: seq<nat>, n: seq<nat>)
    requires |m| == |n| && forall i :: 0 <= i < |m| ==> m[i] <= UINT64_MAX && n[i] <= UINT64_MAX
    ensures Alike(NumberChunks(m), NumberChunks(n))
  {}

  lemma NumbersTell(m: seq<nat>, n: seq<nat>)
    requires |m| == |n| && NumberChunks(m) == NumberChunks(n)
    ensures m == n
  {
    forall i | 0 <= i < |m| ensures m[i] == n[i] {
      assert NumberChunks(m)[i] == NumberChunks(n)[i];
    }
  }

  /** Two different identities share a digest pre-image only if SHA-256 maps
      two different qualifier pre-images to one digest, or one to zero. */
  lemma IdentitiesTell(x: FindingId, y: FindingId)
    requires GoodIdentity(x) && GoodIdentity(y) && GoodQualifier(x.qualifier) && GoodQualifier(y.qualifier)
    requires FindingStream(x) == FindingStream(y) && x != y
    ensures x.qualifier != y.qualifier && x.(qualifier := y.qualifier) == y
    ensures
      var p, q := Render(QualifierChunks(x.qualifier)), Render(QualifierChunks(y.qualifier));
      || (p != q && Sha256.Hash(p) == Sha256.Hash(q))
      || (x.qualifier.Unqualified? && Sha256.Hash(q) == NoDigest())
      || (y.qualifier.Unqualified? && Sha256.Hash(p) == NoDigest())
  {
    hide Render, QualifierChunks, Sha256.Hash, NoDigest, GoodIdentity;
    FindingStreams(x, y);
    if !x.qualifier.Unqualified? && !y.qualifier.Unqualified? {
      QualifierStreams(x.qualifier, y.qualifier);
    }
  }
}
