/** Parsing undoes writing, exactly when the value fits the reader's own accounting. */
module JsonRoundTrip {
  import opened Core
  import opened Values
  import opened Json
  import opened JsonReading
  import Utf8

  /** Member sets in strict name order. */
  predicate NameSorted(ms: seq<Member>) {
    forall i, j :: 0 <= i < j < |ms| ==> Less(ms[i].name, ms[j].name)
  }

  /** Double-free, unsigned only above the signed range, member sets as maps. */
  predicate Canonical(v: Value)
    decreases v
  {
    && !v.Double? && (v.Uint? ==> v.unsigned > INT64_MAX)
    && (v.List? ==> forall i :: 0 <= i < |v.items| ==> Canonical(v.items[i]))
    && (v.Map? ==> NameSorted(v.members) && forall i :: 0 <= i < |v.members| ==> Canonical(v.members[i].value))
  }

  predicate TextFits(c: Codec, text: Text) { |text| <= c.maxLeaf && Utf8.Valid(text) }

  /** The one-member object that stands for a byte string. */
  predicate Tagged(ms: seq<Member>) { |ms| == 1 && ms[0].name == BYTES_MEMBER }

  /** Within the reader's bounds: a byte string takes one more level, a member name and
      twice its octets as text. */
  predicate Fits(c: Codec, v: Value, depth: nat)
    decreases v
  {
    && depth <= c.maxDepth
    && (v.String? ==> TextFits(c, v.text))
    && (v.Bytes? ==> depth + 1 <= c.maxDepth && |BYTES_MEMBER| <= c.maxLeaf && 2 * |v.octets| <= c.maxLeaf
                     && 1 <= c.maxFields)
    && (v.List? ==> forall i :: 0 <= i < |v.items| ==> Fits(c, v.items[i], depth + 1))
    && (v.Map? ==>
          && |v.members| <= c.maxFields && !Tagged(v.members)
          && (forall i :: 0 <= i < |v.members| ==> TextFits(c, v.members[i].name))
          && (forall i :: 0 <= i < |v.members| ==> Fits(c, v.members[i].value, depth + 1)))
  }

  /** The reader's node count: two for a byte string. */
  function Nodes(v: Value): (n: nat)
    ensures n >= 1
    decreases v
  {
    match v
    case Bytes(_) => 2
    case List(items) => 1 + ItemNodes(items)
    case Map(members) => 1 + FieldNodes(members)
    case _ => 1
  }

  function ItemNodes(items: seq<Value>): (n: nat)
    ensures n >= |items|
    decreases items
  {
    if items == [] then 0 else Nodes(items[0]) + ItemNodes(items[1..])
  }

  function FieldNodes(ms: seq<Member>): (n: nat)
    ensures n >= |ms|
    decreases ms
  {
    if ms == [] then 0 else Nodes(ms[0].value) + FieldNodes(ms[1..])
  }

  predicate AllFit(c: Codec, items: seq<Value>, depth: nat) {
    forall i :: 0 <= i < |items| ==> Fits(c, items[i], depth)
  }

  predicate FieldsFit(c: Codec, ms: seq<Member>, depth: nat) {
    forall i :: 0 <= i < |ms| ==> TextFits(c, ms[i].name) && Fits(c, ms[i].value, depth)
  }

  // ----- what a reading leaves unchanged

  lemma {:induction false} CanonicalDoubleFree(v: Value)
    requires Canonical(v)
    ensures DoubleFree(v)
    decreases v
  {
    if v.List? {
      forall i | 0 <= i < |v.items| ensures DoubleFree(v.items[i]) { CanonicalDoubleFree(v.items[i]); }
    } else if v.Map? {
      forall i | 0 <= i < |v.members| ensures DoubleFree(v.members[i].value) { CanonicalDoubleFree(v.members[i].value); }
    }
  }

  lemma {:induction false} ExpectGrows(c: Codec, v: Value, depth: nat, nodes: nat)
    ensures Expect(c, v, depth, nodes).Read? ==> Expect(c, v, depth, nodes).nodes > nodes
    decreases v, 1
  {
    if v.List? { ItemsGrow(c, v.items, depth, nodes + 1, []); }
    if v.Map? { FieldsGrow(c, v.members, depth, nodes + 1, []); }
  }

  lemma {:induction false} ItemsGrow(c: Codec, items: seq<Value>, depth: nat, nodes: nat, list: seq<Value>)
    ensures
      var r := ExpectItems(c, items, depth, nodes, list);
      r.Read? ==> r.nodes >= nodes && r.value.List? && |r.value.items| == |list| + |items| && list <= r.value.items
    decreases items
  {
    if items != [] {
      ExpectGrows(c, items[0], depth + 1, nodes);
      var e := Expect(c, items[0], depth + 1, nodes);
      if e.Read? { ItemsGrow(c, items[1..], depth, e.nodes, list + [e.value]); }
    }
  }

  lemma {:induction false} FieldsGrow(c: Codec, ms: seq<Member>, depth: nat, nodes: nat, read: seq<Member>)
    ensures
      var r := ExpectFields(c, ms, depth, nodes, read);
      r.Read? ==> r.nodes >= nodes
    decreases ms
  {
    hide Finish, HasName, StringProblem;
    if ms != [] {
      ExpectGrows(c, ms[0].value, depth + 1, nodes);
      var e := Expect(c, ms[0].value, depth + 1, nodes);
      if e.Read? { FieldsGrow(c, ms[1..], depth, e.nodes, InsertMember(read, Member(ms[0].name, e.value))); }
    }
  }

  predicate ReadsBack(r: Reading, v: Value) { r.Read? && r.value == v }

  lemma {:induction false} ExpectExact(c: Codec, v: Value, depth: nat, nodes: nat)
    requires Canonical(v)
    ensures ReadsBack(Expect(c, v, depth, nodes), v) <==> Fits(c, v, depth) && nodes + Nodes(v) <= c.maxNodes
    ensures ReadsBack(Expect(c, v, depth, nodes), v) ==> Expect(c, v, depth, nodes).nodes == nodes + Nodes(v)
    decreases v, 1
  {
    hide Utf8.Valid, ExpectItems, ExpectFields;
    if v.List? {
      hide StringProblem, ExpectBytes;
      if nodes + 1 <= c.maxNodes { ItemsExact(c, v.items, depth, nodes + 1, []); }
      assert [] + v.items == v.items;
    } else if v.Map? {
      hide StringProblem, ExpectBytes;
      if nodes + 1 <= c.maxNodes { FieldsExact(c, v.members, depth, nodes + 1, []); }
      assert [] + v.members == v.members;
    } else {
      ScalarExact(c, v, depth, nodes);
    }
  }

  lemma ScalarExact(c: Codec, v: Value, depth: nat, nodes: nat)
    requires Canonical(v) && !v.List? && !v.Map?
    ensures ReadsBack(Expect(c, v, depth, nodes), v) <==> Fits(c, v, depth) && nodes + Nodes(v) <= c.maxNodes
    ensures ReadsBack(Expect(c, v, depth, nodes), v) ==> Expect(c, v, depth, nodes).nodes == nodes + Nodes(v)
  {
    hide Utf8.Valid;
  }

  lemma {:induction false} ItemsExact(c: Codec, items: seq<Value>, depth: nat, nodes: nat, list: seq<Value>)
    requires |list| <= nodes <= c.maxNodes && forall i :: 0 <= i < |items| ==> Canonical(items[i])
    ensures
      var r := ExpectItems(c, items, depth, nodes, list);
      && (ReadsBack(r, List(list + items)) <==> AllFit(c, items, depth + 1) && nodes + ItemNodes(items) <= c.maxNodes)
      && (ReadsBack(r, List(list + items)) ==> r.nodes == nodes + ItemNodes(items))
    decreases items
  {
    hide Expect, Fits, Canonical, Nodes;
    if items == [] {
      assert list + items == list;
    } else {
      var e := Expect(c, items[0], depth + 1, nodes);
      ExpectExact(c, items[0], depth + 1, nodes);
      ExpectGrows(c, items[0], depth + 1, nodes);
      assert AllFit(c, items, depth + 1) <==> Fits(c, items[0], depth + 1) && AllFit(c, items[1..], depth + 1);
      assert list + items == (list + [items[0]]) + items[1..];
      if e.Read? && |list| + 1 <= c.maxNodes {
        ItemsGrow(c, items[1..], depth, e.nodes, list + [e.value]);
        if e.value == items[0] {
          ItemsExact(c, items[1..], depth, e.nodes, list + [e.value]);
        } else {
          assert (list + [e.value])[|list|] == e.value && (list + items)[|list|] == items[0];
        }
      }
    }
  }

  // ----- member sets

  /** A name above all those read is new and goes last. */
  lemma {:induction false} InsertLast(ms: seq<Member>, m: Member)
    requires forall i :: 0 <= i < |ms| ==> Less(ms[i].name, m.name)
    ensures !HasName(ms, m.name) && InsertMember(ms, m) == ms + [m]
  {
    hide Less;
    forall i | 0 <= i < |ms| ensures ms[i].name != m.name { LessStrict(ms[i].name, m.name); }
    if ms != [] {
      LessStrict(ms[0].name, m.name);
      InsertLast(ms[1..], m);
      assert ms == [ms[0]] + ms[1..];
    }
  }

  lemma FinishedIs(c: Codec, ms: seq<Member>, nodes: nat)
    ensures ReadsBack(Finished(c, ms, nodes), Map(ms)) <==> !Tagged(ms)
    ensures !Tagged(ms) ==> Finished(c, ms, nodes) == Read(Map(ms), nodes)
    ensures Tagged(ms) ==> !(Finished(c, ms, nodes).Read? && Finished(c, ms, nodes).value.Map?)
  {
    hide FromHex;
  }

  /** A result that is still a member set has the members read first, and the names of the rest. */
  lemma {:induction false} FieldsShape(c: Codec, ms: seq<Member>, depth: nat, nodes: nat, read: seq<Member>)
    requires NameSorted(read + ms)
    ensures
      var r := ExpectFields(c, ms, depth, nodes, read);
      r.Read? && r.value.Map? ==> |r.value.members| == |read| + |ms| && read <= r.value.members
    decreases ms
  {
    hide Finished, Expect, StringProblem, Less;
    if ms == [] {
      FinishedIs(c, read, nodes);
    } else {
      var e := Expect(c, ms[0].value, depth + 1, nodes);
      if e.Read? {
        var m := Member(ms[0].name, e.value);
        NextName(read, ms);
        InsertLast(read, m);
        SortedOn(read, ms, m);
        FieldsShape(c, ms[1..], depth, e.nodes, read + [m]);
      }
    }
  }

  lemma NextName(read: seq<Member>, ms: seq<Member>)
    requires NameSorted(read + ms) && ms != []
    ensures forall i :: 0 <= i < |read| ==> Less(read[i].name, ms[0].name)
  {
    hide Less;
    var all := read + ms;
    forall i | 0 <= i < |read| ensures Less(read[i].name, ms[0].name) {
      assert all[i] == read[i] && all[|read|] == ms[0];
    }
  }

  lemma SortedOn(read: seq<Member>, ms: seq<Member>, m: Member)
    requires NameSorted(read + ms) && ms != [] && m.name == ms[0].name
    ensures NameSorted((read + [m]) + ms[1..])
  {
    hide Less;
    var a, b := read + ms, (read + [m]) + ms[1..];
    assert forall i :: 0 <= i < |a| ==> b[i].name == a[i].name;
  }

  lemma {:induction false} FieldsExact(c: Codec, ms: seq<Member>, depth: nat, nodes: nat, read: seq<Member>)
    requires NameSorted(read + ms) && nodes <= c.maxNodes && forall i :: 0 <= i < |ms| ==> Canonical(ms[i].value)
    requires |read| <= c.maxFields
    ensures
      var r := ExpectFields(c, ms, depth, nodes, read);
      && (ReadsBack(r, Map(read + ms)) <==>
            && FieldsFit(c, ms, depth + 1) && nodes + FieldNodes(ms) <= c.maxNodes
            && |read| + |ms| <= c.maxFields && !Tagged(read + ms))
      && (ReadsBack(r, Map(read + ms)) ==> r.nodes == nodes + FieldNodes(ms))
    decreases ms
  {
    hide Expect, Fits, Canonical, Nodes, Finished, StringProblem, Less, NameSorted, TextFits, Tagged;
    if ms == [] {
      assert read + ms == read;
      FinishedIs(c, read, nodes);
    } else {
      var e := Expect(c, ms[0].value, depth + 1, nodes);
      ExpectExact(c, ms[0].value, depth + 1, nodes);
      ExpectGrows(c, ms[0].value, depth + 1, nodes);
      NameProblem(c, ms[0].name);
      FirstFits(c, ms, depth + 1);
      if e.Read? {
        var m := Member(ms[0].name, e.value);
        NextName(read, ms);
        InsertLast(read, m);
        SortedOn(read, ms, m);
        FieldsShape(c, ms[1..], depth, e.nodes, read + [m]);
        FieldsContinue(c, ms, depth, nodes, read, e);
      }
    }
  }

  lemma NameProblem(c: Codec, name: Text)
    ensures StringProblem(c, name).None? <==> TextFits(c, name)
  {}

  lemma FirstFits(c: Codec, ms: seq<Member>, depth: nat)
    requires ms != []
    ensures FieldsFit(c, ms, depth)
       <==> TextFits(c, ms[0].name) && Fits(c, ms[0].value, depth) && FieldsFit(c, ms[1..], depth)
  {
    hide TextFits, Fits;
  }

  lemma {:induction false} FieldsContinue(c: Codec, ms: seq<Member>, depth: nat, nodes: nat, read: seq<Member>, e: Reading)
    requires ms != [] && e.Read? && e == Expect(c, ms[0].value, depth + 1, nodes)
    requires NameSorted((read + [Member(ms[0].name, e.value)]) + ms[1..])
    requires forall i :: 0 <= i < |ms| ==> Canonical(ms[i].value)
    ensures
      var more := read + [Member(ms[0].name, e.value)];
      var r := ExpectFields(c, ms[1..], depth, e.nodes, more);
      && (ReadsBack(r, Map(read + ms)) ==> e.value == ms[0].value)
      && (e.value == ms[0].value && e.nodes <= c.maxNodes && |read| + 1 <= c.maxFields ==>
            && (ReadsBack(r, Map(read + ms)) <==>
                  && FieldsFit(c, ms[1..], depth + 1) && e.nodes + FieldNodes(ms[1..]) <= c.maxNodes
                  && |read| + |ms| <= c.maxFields && !Tagged(read + ms))
            && (ReadsBack(r, Map(read + ms)) ==> r.nodes == e.nodes + FieldNodes(ms[1..])))
    decreases ms, 0
  {
    hide Expect, Fits, Canonical, Nodes, Finished, StringProblem, Less, NameSorted, TextFits, Tagged, FieldsFit,
         ExpectFields;
    var more := read + [Member(ms[0].name, e.value)];
    FieldsShape(c, ms[1..], depth, e.nodes, more);
    assert more[|read|].value == e.value && (read + ms)[|read|] == ms[0];
    if e.value == ms[0].value {
      assert Member(ms[0].name, e.value) == ms[0];
      assert read + ms == more + ms[1..];
      if e.nodes <= c.maxNodes && |read| + 1 <= c.maxFields {
        FieldsExact(c, ms[1..], depth, e.nodes, more);
      }
    }
  }

  // ----- the result

  /** For every canonical double-free value, compact or pretty: parsing its text returns
      exactly that value if and only if it fits, as a document, in nodes and in structure. */
  lemma RoundTrip(c: Codec, v: Value, style: Style)
    requires Canonical(v)
    ensures ParseJson(c, Spell(c, v, style, 0)) == Ok(v)
       <==> |Spell(c, v, style, 0)| <= c.maxDocument && Fits(c, v, 0) && Nodes(v) <= c.maxNodes
  {
    hide Spell, Expect, ParseJson, Fits, Nodes;
    CanonicalDoubleFree(v);
    ExactReading(c, v, style);
    ExpectExact(c, v, 0, 0);
  }

  /** Two values that fit have different texts: the spelling is injective. */
  lemma SpellingInjective(c: Codec, v: Value, w: Value, style: Style)
    requires Canonical(v) && Canonical(w) && Fits(c, v, 0) && Fits(c, w, 0)
    requires Nodes(v) <= c.maxNodes && Nodes(w) <= c.maxNodes
    requires |Spell(c, v, style, 0)| <= c.maxDocument && |Spell(c, w, style, 0)| <= c.maxDocument
    ensures Spell(c, v, style, 0) == Spell(c, w, style, 0) <==> v == w
  {
    hide Spell, ParseJson, Fits, Nodes, Canonical;
    RoundTrip(c, v, style);
    RoundTrip(c, w, style);
  }
}
