/** Every document the reader accepts is within the envelope and can be written and read
    again. */
module JsonAccepted {
  import opened Core
  import opened Values
  import opened Decimals
  import opened Json
  import opened JsonReading
  import opened JsonRoundTrip
  import Utf8

  /** Canonical, except that doubles are allowed. */
  predicate Regular(v: Value)
    decreases v
  {
    && (v.Uint? ==> v.unsigned > INT64_MAX)
    && (v.List? ==> forall i :: 0 <= i < |v.items| ==> Regular(v.items[i]))
    && (v.Map? ==> NameSorted(v.members) && forall i :: 0 <= i < |v.members| ==> Regular(v.members[i].value))
  }

  lemma {:induction false} RegularCanonical(v: Value)
    requires Regular(v) && DoubleFree(v)
    ensures Canonical(v)
    decreases v
  {
    if v.List? {
      forall i | 0 <= i < |v.items| ensures Canonical(v.items[i]) { RegularCanonical(v.items[i]); }
    } else if v.Map? {
      forall i | 0 <= i < |v.members| ensures Canonical(v.members[i].value) { RegularCanonical(v.members[i].value); }
    }
  }

  predicate Good(c: Codec, v: Value, depth: nat) { Regular(v) && Fits(c, v, depth) }

  predicate AllGood(c: Codec, vs: seq<Value>, depth: nat) {
    forall i :: 0 <= i < |vs| ==> Good(c, vs[i], depth)
  }

  predicate FieldsGood(c: Codec, ms: seq<Member>, depth: nat) {
    && NameSorted(ms) && |ms| <= c.maxFields
    && forall i :: 0 <= i < |ms| ==> TextFits(c, ms[i].name) && Good(c, ms[i].value, depth)
  }

  // ----- sums

  lemma {:induction false} ItemNodesSnoc(vs: seq<Value>, v: Value)
    ensures ItemNodes(vs + [v]) == ItemNodes(vs) + Nodes(v)
  {
    hide Nodes;
    if vs == [] {
      assert [] + [v] == [v];
      assert [v][1..] == [];
    } else {
      assert (vs + [v])[1..] == vs[1..] + [v];
      ItemNodesSnoc(vs[1..], v);
    }
  }

  lemma {:induction false} InsertCounts(ms: seq<Member>, m: Member)
    ensures FieldNodes(InsertMember(ms, m)) == FieldNodes(ms) + Nodes(m.value) && |InsertMember(ms, m)| == |ms| + 1
    ensures forall i :: 0 <= i < |ms| + 1 ==> InsertMember(ms, m)[i] == m || InsertMember(ms, m)[i] in ms
  {
    hide Nodes, Less;
    if ms == [] || Less(m.name, ms[0].name) {
      assert ([m] + ms)[1..] == ms;
    } else {
      InsertCounts(ms[1..], m);
      assert ([ms[0]] + InsertMember(ms[1..], m))[1..] == InsertMember(ms[1..], m);
    }
  }

  lemma {:induction false} InsertSorted(ms: seq<Member>, m: Member)
    requires NameSorted(ms) && !HasName(ms, m.name)
    ensures NameSorted(InsertMember(ms, m))
  {
    hide Less;
    if ms == [] {
    } else if Less(m.name, ms[0].name) {
      forall i | 0 <= i < |ms| ensures Less(m.name, ms[i].name) {
        if i > 0 { LessTransitive(m.name, ms[0].name, ms[i].name); }
      }
    } else {
      assert !HasName(ms[1..], m.name) by {
        assert forall i :: 0 <= i < |ms| - 1 ==> ms[1..][i].name == ms[i + 1].name;
      }
      assert ms[0].name != m.name;
      LessTotal(ms[0].name, m.name);
      InsertSorted(ms[1..], m);
      InsertCounts(ms[1..], m);
      var rest := InsertMember(ms[1..], m);
      forall i | 0 <= i < |rest| ensures Less(ms[0].name, rest[i].name) {
        if rest[i] != m {
          var j :| 0 <= j < |ms| - 1 && ms[1..][j] == rest[i];
          assert ms[j + 1] == rest[i];
        }
      }
    }
  }

  // ----- every accepted value is good

  lemma NumberGood(c: Codec, s: Text, depth: nat, nodes: nat)
    requires depth <= c.maxDepth
    ensures var r := ReadNumber(c, s, nodes); r.ValOk? ==> Good(c, r.value, depth) && Nodes(r.value) == 1
  {
    hide ScanNumber, ReadDigits;
  }

  lemma {:induction false} HexLength(s: Text)
    ensures FromHex(s).Some? ==> 2 * |FromHex(s).value| == |s|
  {
    hide HexValue;
    if |s| > 1 { HexLength(s[2..]); }
  }

  lemma FinishGood(c: Codec, ms: seq<Member>, depth: nat)
    requires FieldsGood(c, ms, depth + 1) && depth <= c.maxDepth
    ensures
      var r := Finish(c, ms);
      r.Ok? ==> Good(c, r.value, depth) && Nodes(r.value) == 1 + FieldNodes(ms)
  {
    hide FromHex, Utf8.Valid;
    if Tagged(ms) && ms[0].value.String? {
      HexLength(ms[0].value.text);
      assert Good(c, ms[0].value, depth + 1);
      assert ms[1..] == [];
      assert FieldNodes(ms) == 1;
    }
  }

  lemma {:induction false} ValueGood(c: Codec, s: Text, depth: nat, nodes: nat)
    ensures
      var r := ReadValue(c, s, depth, nodes);
      r.ValOk? ==> Good(c, r.value, depth) && r.nodes == nodes + Nodes(r.value) && r.nodes <= c.maxNodes
    decreases |s|, 1
  {
    hide ReadNumber, ReadString, ReadItems, ReadMembers, SkipSpace, Good, Finish;
    if depth <= c.maxDepth && nodes + 1 <= c.maxNodes && s != [] {
      PlainGood(c, depth);
      if s[0] == '{' {
        EmptyGood(c, depth + 1);
        FinishGood(c, [], depth);
        MembersGood(c, s[1..], depth, nodes + 1, []);
      } else if s[0] == '[' {
        EmptyGood(c, depth + 1);
        ItemsGood(c, s[1..], depth, nodes + 1, []);
      } else if s[0] == QUOTE {
        var text := ReadString(c, s[1..], []);
        if text.StrOk? { TextGood(c, text.text, depth); }
      } else {
        NumberGood(c, s, depth, nodes + 1);
      }
    }
  }

  lemma PlainGood(c: Codec, depth: nat)
    requires depth <= c.maxDepth
    ensures Good(c, Null, depth) && Good(c, Bool(true), depth) && Good(c, Bool(false), depth) && Good(c, List([]), depth)
    ensures Nodes(Null) == 1 && Nodes(Bool(true)) == 1 && Nodes(Bool(false)) == 1 && Nodes(List([])) == 1
  {}

  lemma TextGood(c: Codec, text: Text, depth: nat)
    requires depth <= c.maxDepth && |text| <= c.maxLeaf && Utf8.Valid(text)
    ensures Good(c, String(text), depth) && Nodes(String(text)) == 1
  {
    hide Utf8.Valid;
  }

  lemma EmptyGood(c: Codec, depth: nat)
    ensures AllGood(c, [], depth) && FieldsGood(c, [], depth) && FieldNodes([]) == 0 && ItemNodes([]) == 0
  {}

  lemma {:induction false} ItemsGood(c: Codec, s: Text, depth: nat, nodes: nat, list: seq<Value>)
    requires depth <= c.maxDepth && AllGood(c, list, depth + 1)
    ensures
      var r := ReadItems(c, s, depth, nodes, list);
      r.ValOk? ==>
        && Good(c, r.value, depth) && r.nodes + ItemNodes(list) + 1 == nodes + Nodes(r.value) && r.nodes <= c.maxNodes
    decreases |s|, 2
  {
    hide ReadValue, SkipSpace, Good, Nodes;
    ValueGood(c, SkipSpace(s), depth + 1, nodes);
    var e := ReadValue(c, SkipSpace(s), depth + 1, nodes);
    if e.ValOk? {
      ItemNodesSnoc(list, e.value);
      var t := SkipSpace(e.rest);
      ListGood(c, list + [e.value], depth);
      if t != [] && t[0] == ',' { ItemsGood(c, t[1..], depth, e.nodes, list + [e.value]); }
    }
  }

  lemma ListGood(c: Codec, list: seq<Value>, depth: nat)
    requires depth <= c.maxDepth && AllGood(c, list, depth + 1)
    ensures Good(c, List(list), depth) && Nodes(List(list)) == 1 + ItemNodes(list)
  {
    assert forall i :: 0 <= i < |list| ==> Good(c, list[i], depth + 1);
  }

  lemma {:induction false} MembersGood(c: Codec, s: Text, depth: nat, nodes: nat, ms: seq<Member>)
    requires depth <= c.maxDepth && FieldsGood(c, ms, depth + 1)
    ensures
      var r := ReadMembers(c, s, depth, nodes, ms);
      r.ValOk? ==>
        && Good(c, r.value, depth) && r.nodes + FieldNodes(ms) + 1 == nodes + Nodes(r.value) && r.nodes <= c.maxNodes
    decreases |s|, 2
  {
    hide ReadValue, SkipSpace, Good, Nodes, ReadString, HasName, InsertMember, Finish, FieldsGood;
    var t := SkipSpace(s);
    if t != [] && t[0] == QUOTE {
      var name := ReadString(c, t[1..], []);
      if name.StrOk? {
        var u := SkipSpace(name.rest);
        if u != [] && u[0] == ':' {
          var v := SkipSpace(u[1..]);
          ValueGood(c, v, depth + 1, nodes);
          var e := ReadValue(c, v, depth + 1, nodes);
          if e.ValOk? && !HasName(ms, name.text) && |ms| + 1 <= c.maxFields {
            var m := Member(name.text, e.value);
            var more := InsertMember(ms, m);
            InsertGood(c, ms, m, depth + 1);
            FinishGood(c, more, depth);
            var w := SkipSpace(e.rest);
            if w != [] && w[0] == ',' { MembersGood(c, w[1..], depth, e.nodes, more); }
          }
        }
      }
    }
  }

  lemma InsertGood(c: Codec, ms: seq<Member>, m: Member, depth: nat)
    requires FieldsGood(c, ms, depth) && !HasName(ms, m.name) && |ms| + 1 <= c.maxFields
    requires |m.name| <= c.maxLeaf && Utf8.Valid(m.name) && Good(c, m.value, depth)
    ensures FieldsGood(c, InsertMember(ms, m), depth)
    ensures FieldNodes(InsertMember(ms, m)) == FieldNodes(ms) + Nodes(m.value)
  {
    hide Good, Utf8.Valid, NameSorted, HasName;
    InsertSorted(ms, m);
    InsertCounts(ms, m);
  }

  /** Whatever text the reader accepts, the value is regular and within every bound, byte
      strings counted as two nodes. */
  lemma AcceptedGood(c: Codec, text: Text)
    ensures
      var r := ParseJson(c, text);
      r.Ok? ==> Regular(r.value) && Fits(c, r.value, 0) && Nodes(r.value) <= c.maxNodes
  {
    hide ReadValue, SkipSpace, Fits, Regular, Nodes;
    ValueGood(c, SkipSpace(text), 0, 0);
  }

  /** Reading, writing and reading again gives the same value, in either style, as long as
      the new text is not itself too large. */
  lemma Canonicalizes(c: Codec, text: Text, style: Style)
    requires ParseJson(c, text).Ok? && DoubleFree(ParseJson(c, text).value)
    ensures
      var v := ParseJson(c, text).value;
      ParseJson(c, Spell(c, v, style, 0)) == Ok(v) <==> |Spell(c, v, style, 0)| <= c.maxDocument
  {
    hide ParseJson, Spell, Fits, Regular, Nodes;
    AcceptedGood(c, text);
    RegularCanonical(ParseJson(c, text).value);
    RoundTrip(c, ParseJson(c, text).value, style);
  }
}
