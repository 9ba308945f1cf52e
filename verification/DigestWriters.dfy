/** The operations that feed the incremental hasher, against the streams they feed. */
module DigestWriters {
  import opened Core
  import opened Values
  import opened Domain
  import opened HashStreams
  import opened Digests
  import Paths
  import Sha256
  import Sorting

  method HashValue(hasher: Sha256.Hasher, value: Value, depth: nat)
    requires hasher.Valid() && !hasher.finalized && Held(value)
    modifies hasher`buffered, hasher`totalBytes, hasher`hashed, hasher.state, hasher.buffer
    ensures hasher.Valid() && hasher.Fed() == old(hasher.Fed()) + ValueStream(value, depth)
    decreases value, 1
  {
    hide Body, Held, Sha256.Hasher.Valid, Sha256.Hasher.Fed, Sha256.U64;
    ghost var before := hasher.Fed();
    if depth > HARD_RECURSION_LIMIT {
      hasher.UpdateLengthPrefixed(DEPTH_MARK);
      Associate(before, Sha256.U64(|DEPTH_MARK|), DEPTH_MARK);
      return;
    }
    hasher.UpdateByte(KindOctet(value));
    HashBody(hasher, value, depth);
    Associate(before, [KindOctet(value)], Body(value, depth));
  }

  method HashBody(hasher: Sha256.Hasher, value: Value, depth: nat)
    requires hasher.Valid() && !hasher.finalized && Held(value)
    modifies hasher`buffered, hasher`totalBytes, hasher`hashed, hasher.state, hasher.buffer
    ensures hasher.Valid() && hasher.Fed() == old(hasher.Fed()) + Body(value, depth)
    decreases value, 0
  {
    hide ItemsStream, MembersStream, Sha256.Hasher.Valid, Sha256.Hasher.Fed, Sha256.U64, KindOctet;
    ghost var before := hasher.Fed();
    match value {
      case Null => assert before + [] == before;
      case Bool(b) => hasher.UpdateByte(Flag(b));
      case Int(i) => hasher.UpdateU64(Unsigned(i));
      case Uint(n) => hasher.UpdateU64(n);
      case Double(bits) => hasher.UpdateU64(bits);
      case String(s) =>
        hasher.UpdateLengthPrefixed(s);
        Associate(before, Sha256.U64(|s|), s);
      case Bytes(s) =>
        hasher.UpdateU64(|s|);
        hasher.Update(s);
        Associate(before, Sha256.U64(|s|), s);
      case List(items) =>
        hasher.UpdateU64(|items|);
        HashItems(hasher, items, depth + 1);
        Associate(before, Sha256.U64(|items|), ItemsStream(items, depth + 1));
      case Map(members) =>
        hasher.UpdateU64(|members|);
        HashMembers(hasher, members, depth + 1);
        Associate(before, Sha256.U64(|members|), MembersStream(members, depth + 1));
    }
  }

  method HashItems(hasher: Sha256.Hasher, items: seq<Value>, depth: nat)
    requires hasher.Valid() && !hasher.finalized && forall i :: 0 <= i < |items| ==> Held(items[i])
    modifies hasher`buffered, hasher`totalBytes, hasher`hashed, hasher.state, hasher.buffer
    ensures hasher.Valid() && hasher.Fed() == old(hasher.Fed()) + ItemsStream(items, depth)
    decreases items, 0
  {
    hide ValueStream, Held, Sha256.Hasher.Valid, Sha256.Hasher.Fed, Sha256.U64;
    ghost var before := hasher.Fed();
    assert before + [] == before;
    for index := 0 to |items|
      invariant hasher.Valid() && hasher.Fed() == old(hasher.Fed()) + ItemsStream(items[..index], depth)
    {
      HashValue(hasher, items[index], depth);
      assert items[..index + 1][..index] == items[..index];
      Associate(before, ItemsStream(items[..index], depth), ValueStream(items[index], depth));
    }
    assert items[..|items|] == items;
  }

  method HashMembers(hasher: Sha256.Hasher, members: seq<Member>, depth: nat)
    requires hasher.Valid() && !hasher.finalized
    requires forall i :: 0 <= i < |members| ==> |members[i].name| <= UINT64_MAX && Held(members[i].value)
    modifies hasher`buffered, hasher`totalBytes, hasher`hashed, hasher.state, hasher.buffer
    ensures hasher.Valid() && hasher.Fed() == old(hasher.Fed()) + MembersStream(members, depth)
    decreases members, 0
  {
    hide ValueStream, Held, Sha256.Hasher.Valid, Sha256.Hasher.Fed, Sha256.U64;
    ghost var before := hasher.Fed();
    assert before + [] == before;
    for index := 0 to |members|
      invariant hasher.Valid() && hasher.Fed() == old(hasher.Fed()) + MembersStream(members[..index], depth)
    {
      hasher.UpdateLengthPrefixed(members[index].name);
      ghost var name, rest := members[index].name, ValueStream(members[index].value, depth);
      HashValue(hasher, members[index].value, depth);
      assert members[..index + 1][..index] == members[..index];
      MemberFed(before, MembersStream(members[..index], depth), name, rest);
    }
    assert members[..|members|] == members;
  }

  lemma MemberFed(before: Text, done: Text, name: Text, rest: Text)
    ensures before + done + Sha256.U64(|name|) + name + rest == before + (done + (Prefixed(name) + rest))
  {
    var n := Sha256.U64(|name|);
    Associate(before + done, n, name);
    Associate(before + done, n + name, rest);
    Associate(before, done, n + name + rest);
  }

  // ----- one update, with the record of what has been fed

  lemma Grown(before: Text, done: seq<Chunk>, c: Chunk)
    requires before == Render(done)
    ensures before + Octets(c) == Render(done + [c])
  {
    hide Octets;
    assert (done + [c])[..|done|] == done;
  }

  method AddOctet(hasher: Sha256.Hasher, ghost done: seq<Chunk>, octet: byte) returns (ghost more: seq<Chunk>)
    requires hasher.Valid() && !hasher.finalized && hasher.Fed() == Render(done)
    modifies hasher`buffered, hasher`totalBytes, hasher`hashed, hasher.state, hasher.buffer
    ensures more == done + [Octet(octet)] && hasher.Valid() && hasher.Fed() == Render(more)
  {
    hide Sha256.Hasher.Valid, Sha256.Hasher.Fed, Render;
    more := done + [Octet(octet)];
    Grown(hasher.Fed(), done, Octet(octet));
    hasher.UpdateByte(octet);
  }

  method AddNumber(hasher: Sha256.Hasher, ghost done: seq<Chunk>, number: nat) returns (ghost more: seq<Chunk>)
    requires hasher.Valid() && !hasher.finalized && hasher.Fed() == Render(done) && number <= UINT64_MAX
    modifies hasher`buffered, hasher`totalBytes, hasher`hashed, hasher.state, hasher.buffer
    ensures more == done + [Number(number)] && hasher.Valid() && hasher.Fed() == Render(more)
  {
    hide Sha256.Hasher.Valid, Sha256.Hasher.Fed, Render, Sha256.U64;
    more := done + [Number(number)];
    Grown(hasher.Fed(), done, Number(number));
    hasher.UpdateU64(number);
  }

  method AddText(hasher: Sha256.Hasher, ghost done: seq<Chunk>, text: Text) returns (ghost more: seq<Chunk>)
    requires hasher.Valid() && !hasher.finalized && hasher.Fed() == Render(done) && |text| <= UINT64_MAX
    modifies hasher`buffered, hasher`totalBytes, hasher`hashed, hasher.state, hasher.buffer
    ensures more == done + [Words(text)] && hasher.Valid() && hasher.Fed() == Render(more)
  {
    hide Sha256.Hasher.Valid, Sha256.Hasher.Fed, Render, Sha256.U64;
    more := done + [Words(text)];
    Grown(hasher.Fed(), done, Words(text));
    Associate(hasher.Fed(), Sha256.U64(|text|), text);
    hasher.UpdateLengthPrefixed(text);
  }

  method AddValue(hasher: Sha256.Hasher, ghost done: seq<Chunk>, value: Value) returns (ghost more: seq<Chunk>)
    requires hasher.Valid() && !hasher.finalized && hasher.Fed() == Render(done) && Held(value)
    modifies hasher`buffered, hasher`totalBytes, hasher`hashed, hasher.state, hasher.buffer
    ensures more == done + [Content(value)] && hasher.Valid() && hasher.Fed() == Render(more)
  {
    hide Sha256.Hasher.Valid, Sha256.Hasher.Fed, Render, Held, ValueStream;
    more := done + [Content(value)];
    Grown(hasher.Fed(), done, Content(value));
    HashValue(hasher, value, 0);
  }

  // ----- snapshots

  predicate LessThan(a: Text, b: Text) { Less(a, b) }

  lemma LessIsWeak()
    ensures Sorting.StrictWeak(LessThan)
  {
    forall a, b | LessThan(a, b) ensures !LessThan(b, a) { LessStrict(a, b); }
    forall a, b, c | !LessThan(b, a) && !LessThan(c, b) ensures !LessThan(c, a) {
      if Less(c, a) {
        LessTotal(a, b);
        LessTotal(b, c);
        if Less(a, b) {
          LessTransitive(c, a, b);
        }
      }
    }
  }

  /** Drops each element equal to the one before it. */
  method Unique(s: seq<Text>) returns (r: seq<Text>)
    requires Sorting.Ordered(LessThan, s)
    ensures Rises(r) && forall x :: x in r <==> x in s
  {
    hide Less;
    r := [];
    for index := 0 to |s|
      invariant Rises(r) && forall x :: x in r <==> x in s[..index]
      invariant r != [] ==> index > 0 && r[|r| - 1] == s[index - 1]
      invariant r == [] ==> index == 0
    {
      assert s[..index + 1] == s[..index] + [s[index]];
      if index > 0 && s[index] == s[index - 1] {
        continue;
      }
      if index > 0 {
        LessTotal(s[index - 1], s[index]);
        assert !LessThan(s[index], s[index - 1]);
        Follow(r, s[index]);
      }
      r := r + [s[index]];
    }
    assert s[..|s|] == s;
  }

  lemma Follow(r: seq<Text>, x: Text)
    requires Rises(r) && r != [] && Less(r[|r| - 1], x)
    ensures Rises(r + [x])
  {
    hide Less;
    forall i | 0 <= i < |r| ensures Less(r[i], x) {
      if i < |r| - 1 {
        LessTransitive(r[i], r[|r| - 1], x);
      }
    }
  }

  method SortUnobserved(s: seq<Text>) returns (r: seq<Text>)
    ensures r == SortedSet(s)
  {
    hide SortedSet, Rises, Less, Sorting.StrictWeak, Sorting.Ordered;
    LessIsWeak();
    var sorted := Sorting.Sort(LessThan, s);
    r := Unique(sorted);
    SortedRises(s);
    forall x: Text ensures x in r <==> x in SortedSet(s) {
      assert x in sorted <==> x in multiset(sorted);
      assert x in s <==> x in multiset(s);
    }
    RisingOnce(r, SortedSet(s));
  }

  method AddFields(hasher: Sha256.Hasher, ghost done: seq<Chunk>, fields: MapTable<Path, Value>)
    returns (ghost more: seq<Chunk>)
    requires hasher.Valid() && !hasher.finalized && hasher.Fed() == Render(done)
    requires GoodObserved(ObservedObject(Present, fields))
    modifies hasher`buffered, hasher`totalBytes, hasher`hashed, hasher.state, hasher.buffer
    ensures more == done + FieldChunks(ObservedFields(fields)) && hasher.Valid() && hasher.Fed() == Render(more)
  {
    hide Sha256.Hasher.Valid, Sha256.Hasher.Fed, Render, Shallow, Held, Paths.ToText, Paths.WellKeyed;
    more := done;
    assert done + [] == done;
    ghost var all := ObservedFields(fields);
    for index := 0 to |fields|
      invariant hasher.Valid() && hasher.Fed() == Render(more)
      invariant more == done + FieldChunks(all[..index])
    {
      var text := Paths.WriteText(fields[index].key);
      ghost var before := more;
      more := AddText(hasher, more, text);
      more := AddValue(hasher, more, fields[index].value);
      assert all[..index + 1][..index] == all[..index];
      assert more == before + FieldChunk(all[index]);
      assert more == done + FieldChunks(all[..index + 1]);
    }
    assert all[..|fields|] == all;
  }

  method AddObjects(hasher: Sha256.Hasher, ghost done: seq<Chunk>, objects: Table<Text, ObservedObject>)
    returns (ghost more: seq<Chunk>)
    requires hasher.Valid() && !hasher.finalized && hasher.Fed() == Render(done)
    requires forall i :: 0 <= i < |objects| ==> |objects[i].key| <= UINT64_MAX && GoodObserved(objects[i].value)
    modifies hasher`buffered, hasher`totalBytes, hasher`hashed, hasher.state, hasher.buffer
    ensures more == done + EntryChunks(ObservedEntries(objects)) && hasher.Valid() && hasher.Fed() == Render(more)
  {
    hide Sha256.Hasher.Valid, Sha256.Hasher.Fed, Render, Whole, GoodPath, FieldChunks, ObservedFields;
    more := done;
    assert done + [] == done;
    ghost var all := ObservedEntries(objects);
    for index := 0 to |objects|
      invariant hasher.Valid() && hasher.Fed() == Render(more)
      invariant more == done + EntryChunks(all[..index])
    {
      var entry := objects[index];
      ghost var before := more;
      more := AddText(hasher, more, entry.key);
      more := AddOctet(hasher, more, PresenceOctet(entry.value.presence));
      more := AddNumber(hasher, more, |entry.value.fields|);
      more := AddFields(hasher, more, entry.value.fields);
      assert all[..index + 1][..index] == all[..index];
      assert more == before + (EntryHead(all[index]) + FieldChunks(all[index].fields));
      assert more == done + EntryChunks(all[..index + 1]);
    }
    assert all[..|objects|] == all;
  }

  method AddTexts(hasher: Sha256.Hasher, ghost done: seq<Chunk>, texts: seq<Text>) returns (ghost more: seq<Chunk>)
    requires hasher.Valid() && !hasher.finalized && hasher.Fed() == Render(done)
    requires forall i :: 0 <= i < |texts| ==> |texts[i]| <= UINT64_MAX
    modifies hasher`buffered, hasher`totalBytes, hasher`hashed, hasher.state, hasher.buffer
    ensures more == done + TextChunks(texts) && hasher.Valid() && hasher.Fed() == Render(more)
  {
    hide Sha256.Hasher.Valid, Sha256.Hasher.Fed, Render;
    more := done;
    for index := 0 to |texts|
      invariant hasher.Valid() && hasher.Fed() == Render(more)
      invariant more == done + TextChunks(texts)[..index]
    {
      more := AddText(hasher, more, texts[index]);
    }
    assert TextChunks(texts)[..|texts|] == TextChunks(texts);
  }

  method AddOrigin(hasher: Sha256.Hasher, ghost done: seq<Chunk>, s: Snapshot) returns (ghost more: seq<Chunk>)
    requires hasher.Valid() && !hasher.finalized && hasher.Fed() == Render(done) && GoodSnapshot(s)
    modifies hasher`buffered, hasher`totalBytes, hasher`hashed, hasher.state, hasher.buffer
    ensures more == done + OriginChunks(s) && hasher.Valid() && hasher.Fed() == Render(more)
  {
    hide Sha256.Hasher.Valid, Sha256.Hasher.Fed, Render, SortedSet, GoodObserved;
    more := AddText(hasher, done, s.source);
    more := AddNumber(hasher, more, s.epoch);
    more := AddNumber(hasher, more, s.incarnation);
    more := AddNumber(hasher, more, s.sequence);
    more := AddText(hasher, more, s.target);
  }

  function OriginChunks(s: Snapshot): seq<Chunk> {
    [Words(s.source), Number(s.epoch), Number(s.incarnation), Number(s.sequence), Words(s.target)]
  }

  method AddStanding(hasher: Sha256.Hasher, ghost done: seq<Chunk>, s: Snapshot) returns (ghost more: seq<Chunk>)
    requires hasher.Valid() && !hasher.finalized && hasher.Fed() == Render(done)
    modifies hasher`buffered, hasher`totalBytes, hasher`hashed, hasher.state, hasher.buffer
    ensures more == done + StandingChunks(s) && hasher.Valid() && hasher.Fed() == Render(more)
  {
    hide Sha256.Hasher.Valid, Sha256.Hasher.Fed, Render, SortedSet, GoodObserved;
    more := AddNumber(hasher, done, Unsigned(s.collectedAt));
    more := AddNumber(hasher, more, Unsigned(s.ttl));
    more := AddOctet(hasher, more, CoverageOctet(s.coverage));
    more := AddOctet(hasher, more, EvidenceOctet(s.evidence));
  }

  function StandingChunks(s: Snapshot): seq<Chunk> {
    [Number(Unsigned(s.collectedAt)), Number(Unsigned(s.ttl)), Octet(CoverageOctet(s.coverage)),
     Octet(EvidenceOctet(s.evidence))]
  }

  method AddCapabilities(hasher: Sha256.Hasher, ghost done: seq<Chunk>, c: Capabilities)
    returns (ghost more: seq<Chunk>)
    requires hasher.Valid() && !hasher.finalized && hasher.Fed() == Render(done)
    modifies hasher`buffered, hasher`totalBytes, hasher`hashed, hasher.state, hasher.buffer
    ensures more == done + CapabilityChunks(c) && hasher.Valid() && hasher.Fed() == Render(more)
  {
    hide Sha256.Hasher.Valid, Sha256.Hasher.Fed, Render, SortedSet, GoodObserved;
    more := AddOctet(hasher, done, Flag(c.assertsAbsence));
    more := AddOctet(hasher, more, Flag(c.completeCoverage));
    more := AddOctet(hasher, more, Flag(c.nestedPaths));
    more := AddOctet(hasher, more, EvidenceOctet(c.evidence));
  }

  function CapabilityChunks(c: Capabilities): seq<Chunk> {
    [Octet(Flag(c.assertsAbsence)), Octet(Flag(c.completeCoverage)), Octet(Flag(c.nestedPaths)),
     Octet(EvidenceOctet(c.evidence))]
  }

  lemma HeadParts(s: Snapshot)
    ensures [Words(SNAPSHOT_TAG)] + OriginChunks(s) + StandingChunks(s) + CapabilityChunks(s.capabilities)
            + [Number(|SortedSet(s.unobserved)|)] == SnapshotHead(s)
  {
    hide SortedSet;
  }

  /** The first chunk of a record is its tag. */
  method AddTag(hasher: Sha256.Hasher, tag: Text) returns (ghost more: seq<Chunk>)
    requires hasher.Valid() && !hasher.finalized && hasher.Fed() == [] && |tag| <= UINT64_MAX
    modifies hasher`buffered, hasher`totalBytes, hasher`hashed, hasher.state, hasher.buffer
    ensures more == [Words(tag)] && hasher.Valid() && hasher.Fed() == Render(more)
  {
    hide Sha256.Hasher.Valid, Sha256.Hasher.Fed;
    more := AddText(hasher, [], tag);
  }

  /** The snapshot's digest is the hash of its stream. */
  method ComputeContentDigest(s: Snapshot) returns (digest: Text)
    requires GoodSnapshot(s)
    ensures digest == Sha256.Hash(SnapshotStream(s))
  {
    hide Sha256.Hasher.Valid, Sha256.Hasher.Fed, SortedSet, GoodObserved, Render, SnapshotHead, TextChunks, EntryChunks,
         ObservedEntries, Sha256.Hash, OriginChunks, StandingChunks, CapabilityChunks;
    var hasher := new Sha256.Hasher();
    var view := SortUnobserved(s.unobserved);
    SortedGood(s.unobserved);
    ghost var done := AddTag(hasher, SNAPSHOT_TAG);
    done := AddOrigin(hasher, done, s);
    done := AddStanding(hasher, done, s);
    done := AddCapabilities(hasher, done, s.capabilities);
    done := AddNumber(hasher, done, |view|);
    HeadParts(s);
    done := AddTexts(hasher, done, view);
    done := AddNumber(hasher, done, |s.objects|);
    done := AddObjects(hasher, done, s.objects);
    Regroup(SnapshotHead(s), TextChunks(view), Number(|s.objects|), EntryChunks(ObservedEntries(s.objects)));
    var final := hasher.Final();
    digest := final.value;
  }

  lemma Regroup(a: seq<Chunk>, b: seq<Chunk>, c: Chunk, d: seq<Chunk>)
    ensures a + b + [c] + d == a + (b + ([c] + d))
  {}

  // ----- finding identities

  method AddPair(hasher: Sha256.Hasher, q: Qualifier) returns (ghost more: seq<Chunk>)
    requires hasher.Valid() && !hasher.finalized && hasher.Fed() == [] && q.SourcePair? && GoodQualifier(q)
    modifies hasher`buffered, hasher`totalBytes, hasher`hashed, hasher.state, hasher.buffer
    ensures more == QualifierChunks(q) && hasher.Valid() && hasher.Fed() == Render(more)
  {
    hide Sha256.Hasher.Valid, Sha256.Hasher.Fed, Render;
    more := AddTag(hasher, CONFLICT_TAG);
    more := AddText(hasher, more, q.low);
    more := AddText(hasher, more, q.high);
  }

  method AddDivergence(hasher: Sha256.Hasher, q: Qualifier) returns (ghost more: seq<Chunk>)
    requires hasher.Valid() && !hasher.finalized && hasher.Fed() == [] && q.Divergence? && GoodQualifier(q)
    modifies hasher`buffered, hasher`totalBytes, hasher`hashed, hasher.state, hasher.buffer
    ensures more == QualifierChunks(q) && hasher.Valid() && hasher.Fed() == Render(more)
  {
    hide Sha256.Hasher.Valid, Sha256.Hasher.Fed, Render, NumberChunks;
    more := AddTag(hasher, DIVERGENCE_TAG);
    more := AddText(hasher, more, if q.partial then "partial" else "not-applied");
    more := AddNumber(hasher, more, q.intended);
    more := AddNumber(hasher, more, |q.applied|);
    more := AddNumbers(hasher, more, q.applied);
  }

  method AddNumbers(hasher: Sha256.Hasher, ghost done: seq<Chunk>, numbers: seq<nat>) returns (ghost more: seq<Chunk>)
    requires hasher.Valid() && !hasher.finalized && hasher.Fed() == Render(done)
    requires forall i :: 0 <= i < |numbers| ==> numbers[i] <= UINT64_MAX
    modifies hasher`buffered, hasher`totalBytes, hasher`hashed, hasher.state, hasher.buffer
    ensures more == done + NumberChunks(numbers) && hasher.Valid() && hasher.Fed() == Render(more)
  {
    hide Sha256.Hasher.Valid, Sha256.Hasher.Fed, Render;
    more := done;
    for index := 0 to |numbers|
      invariant hasher.Valid() && hasher.Fed() == Render(more)
      invariant more == done + NumberChunks(numbers)[..index]
    {
      more := AddNumber(hasher, more, numbers[index]);
    }
    assert NumberChunks(numbers)[..|numbers|] == NumberChunks(numbers);
  }

  method QualifierDigest(q: Qualifier) returns (digest: Text)
    requires GoodQualifier(q)
    ensures digest == DigestOf(q) && |digest| == 32
  {
    hide Sha256.Hasher.Valid, Sha256.Hasher.Fed, Sha256.Hash, Render, QualifierChunks;
    if q.Unqualified? {
      return NoDigest();
    }
    var hasher := new Sha256.Hasher();
    ghost var done;
    if q.SourcePair? {
      done := AddPair(hasher, q);
    } else {
      done := AddDivergence(hasher, q);
    }
    var final := hasher.Final();
    digest := final.value;
    DigestSize(Render(done));
  }

  method AddPlace(hasher: Sha256.Hasher, ghost done: seq<Chunk>, x: FindingId) returns (ghost more: seq<Chunk>)
    requires hasher.Valid() && !hasher.finalized && hasher.Fed() == Render(done) && GoodIdentity(x)
    modifies hasher`buffered, hasher`totalBytes, hasher`hashed, hasher.state, hasher.buffer
    ensures more == done + [Words(x.target), Words(x.objectId), Words(Paths.ToText(x.path)), Words(ClassName(x.klass))]
    ensures hasher.Valid() && hasher.Fed() == Render(more)
  {
    hide Sha256.Hasher.Valid, Sha256.Hasher.Fed, ClassName, Paths.WellKeyed, Render, Paths.ToText;
    more := AddText(hasher, done, x.target);
    more := AddText(hasher, more, x.objectId);
    var text := Paths.WriteText(x.path);
    more := AddText(hasher, more, text);
    ClassNamesTell(x.klass, x.klass);
    more := AddText(hasher, more, ClassName(x.klass));
  }

  /** A finding's identity is the hash of its stream. */
  method ComputeId(x: FindingId) returns (digest: Text)
    requires GoodIdentity(x) && GoodQualifier(x.qualifier)
    ensures digest == Sha256.Hash(FindingStream(x))
  {
    hide Sha256.Hasher.Valid, Sha256.Hasher.Fed, Sha256.Hash, DigestOf, NoDigest, ClassName, Paths.WellKeyed, Render,
         Paths.ToText;
    var qualifier := QualifierDigest(x.qualifier);
    var hasher := new Sha256.Hasher();
    ghost var done := AddTag(hasher, FINDING_TAG);
    done := AddPlace(hasher, done, x);
    done := AddNumber(hasher, done, x.generation);
    var qualified := qualifier != NoDigest();
    done := AddNumber(hasher, done, if qualified then 1 else 0);
    if qualified {
      Grown(hasher.Fed(), done, Bare(qualifier));
      hasher.Update(qualifier);
      done := done + [Bare(qualifier)];
    } else {
      assert done + [] == done;
    }
    FindingParts(x);
    var final := hasher.Final();
    digest := final.value;
  }

  lemma FindingParts(x: FindingId)
    ensures
      var d := DigestOf(x.qualifier);
      FindingChunks(x) == [Words(FINDING_TAG)]
                          + [Words(x.target), Words(x.objectId), Words(Paths.ToText(x.path)), Words(ClassName(x.klass))]
                          + [Number(x.generation)] + [Number(if d != NoDigest() then 1 else 0)]
                          + if d != NoDigest() then [Bare(d)] else []
  {
    hide DigestOf, NoDigest, ClassName, Paths.ToText;
  }
}
