/** The reader against the grammar: it accepts exactly the documents of the grammar that pass the
    limits, each with the value that the grammar gives it. */
module JsonDocuments {
  import opened Core
  import opened Values
  import opened Decimals
  import opened Json
  import opened JsonStrings
  import opened JsonReading
  import opened JsonGrammar
  import JsonRoundTrip
  import JsonAccepted

  // ----- what is read is written by the grammar

  lemma {:induction false} BlankBack(s: Text) returns (t: Text)
    ensures Blank(t) && s == t + SkipSpace(s)
    decreases |s|
  {
    if s == [] || !Space(s[0]) {
      t := [];
      assert [] + s == s;
    } else {
      var rest := BlankBack(s[1..]);
      t := [s[0]] + rest;
      assert s == [s[0]] + s[1..];
    }
  }

  lemma NumeralBack(s: Text) returns (n: Numeral)
    requires ScanNumber(s).TokenOk?
    ensures ProperNumeral(n) && NumeralText(n) == ScanNumber(s).text
  {
    hide DigitSpan, WholeEnd, FractionEnd, ExponentEnd, AllDigits, Tail;
    var p := WholeEnd(s).value;
    var q := FractionEnd(s, p).value;
    var r := ExponentEnd(s, q).value;
    var negative, whole := WholeBack(s);
    var fraction := FractionBack(s, p);
    var mark, exponent := ExponentBack(s, q);
    n := Numeral(negative, whole, fraction, mark, exponent);
    TailIs(n, s[p..q], s[q..r]);
    ThreeParts(s, p, q, r);
  }

  lemma TailIs(n: Numeral, fraction: Text, exponent: Text)
    requires fraction == (if n.fraction == [] then [] else "." + n.fraction) && exponent == n.mark + n.exponent
    ensures Tail(n) == fraction + exponent
  {}

  lemma ThreeParts(s: Text, p: nat, q: nat, r: nat)
    requires p <= q <= r <= |s|
    ensures s[..r] == s[..p] + (s[p..q] + s[q..r])
  {}

  lemma WholeBack(s: Text) returns (negative: bool, whole: Text)
    requires WholeEnd(s).Ok?
    ensures AllDigits(whole) && whole != [] && (whole[0] == '0' ==> |whole| == 1)
    ensures s[..WholeEnd(s).value] == (if negative then "-" else []) + whole
  {
    negative := CharAt(s, 0, '-');
    var sign := if negative then 1 else 0;
    whole := s[sign..WholeEnd(s).value];
    if s[sign] != '0' { assert whole == s[sign..][..DigitSpan(s[sign..])]; }
  }

  lemma FractionBack(s: Text, p: nat) returns (fraction: Text)
    requires p <= |s| && FractionEnd(s, p).Ok?
    ensures AllDigits(fraction)
    ensures s[p..FractionEnd(s, p).value] == if fraction == [] then [] else "." + fraction
  {
    var q := FractionEnd(s, p).value;
    if CharAt(s, p, '.') {
      fraction := s[p + 1..q];
      assert fraction == s[p + 1..][..DigitSpan(s[p + 1..])];
      assert s[p..q] == [s[p]] + fraction;
    } else {
      fraction := [];
    }
  }

  lemma ExponentBack(s: Text, q: nat) returns (mark: Text, exponent: Text)
    requires q <= |s| && ExponentEnd(s, q).Ok?
    ensures AllDigits(exponent) && (exponent == [] <==> mark == [])
    ensures mark == [] || mark == "e" || mark == "E" || mark == "e+" || mark == "E+" || mark == "e-" || mark == "E-"
    ensures s[q..ExponentEnd(s, q).value] == mark + exponent
  {
    var r := ExponentEnd(s, q).value;
    if CharAt(s, q, 'e') || CharAt(s, q, 'E') {
      var m := if CharAt(s, q + 1, '+') || CharAt(s, q + 1, '-') then q + 2 else q + 1;
      mark, exponent := s[q..m], s[m..r];
      assert exponent == s[m..][..DigitSpan(s[m..])];
      assert if m == q + 1 then mark == [s[q]] else mark == [s[q], s[q + 1]];
    } else {
      mark, exponent := [], [];
    }
  }

  lemma StringBack(c: Codec, s: Text) returns (ps: seq<Spelled>)
    requires ReadString(c, s, []).StrOk?
    ensures Proper(ps) && s == Written(ps) + [QUOTE] + ReadString(c, s, []).rest
  {
    hide ReadString, Written, Meant, Proper;
    var r := ReadString(c, s, []);
    StringReadExactly(c, s, r.text, r.rest);
    ps :| Proper(ps) && s == Written(ps) + [QUOTE] + r.rest;
  }

  lemma LiteralBack(s: Text, literal: Text, v: Value, nodes: nat)
    requires literal != [] && ReadLiteral(s, literal, v, nodes).ValOk?
    ensures s == literal + ReadLiteral(s, literal, v, nodes).rest
  {
    assert s == s[..|literal|] + s[|literal|..];
  }

  lemma NumberBack(c: Codec, s: Text, nodes: nat) returns (n: Numeral)
    requires ReadNumber(c, s, nodes).ValOk?
    ensures ProperNumeral(n) && s == NumeralText(n) + ReadNumber(c, s, nodes).rest
  {
    hide NumberOf, NumeralText;
    n := NumeralBack(s);
    var k := |NumeralText(n)|;
    assert s == s[..k] + s[k..];
  }

  lemma {:induction false} TreeBack(c: Codec, s: Text, depth: nat, nodes: nat) returns (tree: Tree)
    requires ReadValue(c, s, depth, nodes).ValOk?
    ensures ProperTree(tree) && s == Render(tree) + ReadValue(c, s, depth, nodes).rest
    decreases |s|, 1
  {
    hide ReadItems, ReadMembers, ReadString, ReadNumber, SkipSpace, Proper, Written, ProperNumeral, NumeralText, RenderItems,
         RenderEntries, Finish;
    assert s == [s[0]] + s[1..];
    if s[0] == '{' {
      tree := ObjectBack(c, s[1..], depth, nodes);
    } else if s[0] == '[' {
      tree := ArrayBack(c, s[1..], depth, nodes);
    } else if s[0] == QUOTE {
      var ps := StringBack(c, s[1..]);
      tree := Chars(ps);
    } else if s[0] == 't' {
      tree := Word(Bool(true));
      LiteralBack(s, "true", Bool(true), nodes + 1);
    } else if s[0] == 'f' {
      tree := Word(Bool(false));
      LiteralBack(s, "false", Bool(false), nodes + 1);
    } else if s[0] == 'n' {
      tree := Word(Null);
      LiteralBack(s, "null", Null, nodes + 1);
    } else {
      var n := NumberBack(c, s, nodes + 1);
      tree := Number(n);
    }
  }

  lemma {:induction false} ArrayBack(c: Codec, s: Text, depth: nat, nodes: nat) returns (tree: Tree)
    requires ReadValue(c, "[" + s, depth, nodes).ValOk?
    ensures ProperTree(tree) && "[" + s == Render(tree) + ReadValue(c, "[" + s, depth, nodes).rest
    decreases |s|, 3
  {
    hide ReadItems, RenderItems, SkipSpace;
    assert ("[" + s)[1..] == s;
    var t := SkipSpace(s);
    if t != [] && t[0] == ']' {
      var gap := BlankBack(s);
      tree := Array([], gap);
      NothingRendered();
      assert t == "]" + t[1..];
    } else {
      var items := ItemsBack(c, s, depth, nodes + 1, []);
      tree := Array(items, []);
    }
  }

  lemma NothingRendered()
    ensures RenderItems([]) == [] && RenderEntries([]) == []
  {}

  lemma {:induction false} ItemsBack(c: Codec, s: Text, depth: nat, nodes: nat, list: seq<Value>) returns (items: seq<Item>)
    requires ReadItems(c, s, depth, nodes, list).ValOk?
    ensures items != [] && ProperTree(Array(items, []))
    ensures s == RenderItems(items) + "]" + ReadItems(c, s, depth, nodes, list).rest
    decreases |s|, 2
  {
    hide ReadValue, Render, SkipSpace, Blank, RenderItems;
    var before := BlankBack(s);
    var u := SkipSpace(s);
    var tree := TreeBack(c, u, depth + 1, nodes);
    var e := ReadValue(c, u, depth + 1, nodes);
    var after := BlankBack(e.rest);
    var t := SkipSpace(e.rest);
    NoBlank();
    if t[0] == ',' {
      var more := ItemsBack(c, t[1..], depth, e.nodes, list + [e.value]);
      items := [Item(before, tree, after)] + more;
      assert items[1..] == more && t == "," + t[1..];
      OneMoreItem(items, before, tree, after, more);
    } else {
      items := [Item(before, tree, after)];
      assert t == "]" + t[1..];
      OneItem(before, tree, after);
    }
  }

  lemma NoBlank()
    ensures Blank([])
  {}

  lemma OneItem(before: Text, tree: Tree, after: Text)
    requires Blank(before) && Blank(after) && ProperTree(tree) && Blank([])
    ensures ProperTree(Array([Item(before, tree, after)], []))
    ensures RenderItems([Item(before, tree, after)]) == before + Render(tree) + after
  {
    hide Blank, Render;
  }

  lemma OneMoreItem(items: seq<Item>, before: Text, tree: Tree, after: Text, more: seq<Item>)
    requires Blank(before) && Blank(after) && ProperTree(tree) && ProperTree(Array(more, [])) && more != []
    requires items == [Item(before, tree, after)] + more
    ensures ProperTree(Array(items, [])) && RenderItems(items) == before + Render(tree) + after + ("," + RenderItems(more))
  {
    hide Blank, Render;
    assert items[1..] == more;
  }

  lemma {:induction false} ObjectBack(c: Codec, s: Text, depth: nat, nodes: nat) returns (tree: Tree)
    requires ReadValue(c, "{" + s, depth, nodes).ValOk?
    ensures ProperTree(tree) && "{" + s == Render(tree) + ReadValue(c, "{" + s, depth, nodes).rest
    decreases |s|, 3
  {
    hide ReadMembers, RenderEntries, SkipSpace, Finish;
    assert ("{" + s)[1..] == s;
    var t := SkipSpace(s);
    if t != [] && t[0] == '}' {
      var gap := BlankBack(s);
      tree := Object([], gap);
      NothingRendered();
      assert t == "}" + t[1..];
    } else {
      var entries := EntriesBack(c, s, depth, nodes + 1, []);
      tree := Object(entries, []);
    }
  }

  lemma {:induction false} EntriesBack(c: Codec, s: Text, depth: nat, nodes: nat, ms: seq<Member>)
    returns (entries: seq<Entry>)
    requires ReadMembers(c, s, depth, nodes, ms).ValOk?
    ensures entries != [] && ProperTree(Object(entries, []))
    ensures s == RenderEntries(entries) + "}" + ReadMembers(c, s, depth, nodes, ms).rest
    decreases |s|, 2
  {
    hide ReadValue, ReadString, Render, SkipSpace, Blank, RenderEntries, Finish, InsertMember, Proper, Written;
    var before := BlankBack(s);
    var t := SkipSpace(s);
    var ps := StringBack(c, t[1..]);
    var name := ReadString(c, t[1..], []);
    var between := BlankBack(name.rest);
    var u := SkipSpace(name.rest);
    var pause := BlankBack(u[1..]);
    var v := SkipSpace(u[1..]);
    var tree := TreeBack(c, v, depth + 1, nodes);
    var e := ReadValue(c, v, depth + 1, nodes);
    var after := BlankBack(e.rest);
    var w := SkipSpace(e.rest);
    var entry := Entry(before, ps, between, pause, tree, after);
    var more := InsertMember(ms, Member(name.text, e.value));
    NoBlank();
    EntryBack(s, entry, t, name.rest, u, v, e.rest, w);
    if w[0] == ',' {
      var others := EntriesBack(c, w[1..], depth, e.nodes, more);
      entries := [entry] + others;
      OneMoreEntry(entries, entry, others);
      Rejoined(EntryHead(entry), w, RenderEntries(others), ReadMembers(c, s, depth, nodes, ms).rest);
    } else {
      entries := [entry];
      assert w == "}" + w[1..];
      OneEntry(entry);
    }
  }

  function EntryHead(e: Entry): Text {
    e.before + [QUOTE] + Written(e.name) + [QUOTE] + e.between + ":" + e.pause + Render(e.tree) + e.after
  }

  /** The pieces that the reader took put together again. */
  lemma EntryBack(s: Text, e: Entry, t: Text, n: Text, u: Text, v: Text, r: Text, w: Text)
    requires s == e.before + t && t != [] && t[0] == QUOTE && t[1..] == Written(e.name) + [QUOTE] + n
    requires n == e.between + u && u != [] && u[0] == ':' && u[1..] == e.pause + v
    requires v == Render(e.tree) + r && r == e.after + w
    ensures s == EntryHead(e) + w
  {
    hide Render, Written;
    assert t == [QUOTE] + t[1..] && u == ":" + u[1..];
    var a, b := e.before + [QUOTE] + Written(e.name) + [QUOTE], e.between + ":" + e.pause;
    assert s == a + n;
    assert n == b + v;
    assert v == Render(e.tree) + e.after + w;
    assert a + (b + (Render(e.tree) + e.after + w)) == a + b + Render(e.tree) + e.after + w;
    HeadIs(e, a, b);
  }

  lemma HeadIs(e: Entry, a: Text, b: Text)
    requires a == e.before + [QUOTE] + Written(e.name) + [QUOTE] && b == e.between + ":" + e.pause
    ensures EntryHead(e) == a + b + Render(e.tree) + e.after
  {
    hide Render, Written;
    assert a + b == a + e.between + ":" + e.pause;
  }

  lemma Rejoined(head: Text, w: Text, others: Text, rest: Text)
    requires w != [] && w[0] == ',' && w[1..] == others + "}" + rest
    ensures head + w == head + ("," + others) + "}" + rest
  {
    assert w == "," + w[1..];
  }

  lemma OneEntry(e: Entry)
    requires BlankEntry(e) && ProperTree(e.tree) && Blank([])
    ensures ProperTree(Object([e], [])) && RenderEntries([e]) == EntryHead(e)
  {
    hide Blank, Render, Proper, Written;
  }

  lemma OneMoreEntry(entries: seq<Entry>, e: Entry, others: seq<Entry>)
    requires BlankEntry(e) && ProperTree(e.tree) && ProperTree(Object(others, [])) && others != []
    requires entries == [e] + others
    ensures ProperTree(Object(entries, [])) && RenderEntries(entries) == EntryHead(e) + ("," + RenderEntries(others))
  {
    hide BlankEntry, Render, Written;
    assert entries[1..] == others;
  }

  // ----- whole documents

  function Outcome(r: Reading): Result<Value> { if r.Refused? then Err(r.reason) else Ok(r.value) }

  /** A document of the grammar within the limit on its size is given the meaning of its tree. */
  lemma DocumentRead(c: Codec, before: Text, tree: Tree, after: Text)
    requires Blank(before) && ProperTree(tree) && Blank(after) && |before + Render(tree) + after| <= c.maxDocument
    ensures ParseJson(c, before + Render(tree) + after) == Outcome(Means(c, tree, 0, 0))
  {
    hide Render, SkipSpace, ReadValue, Means, Blank, ProperTree;
    var text := before + Render(tree) + after;
    TreeStarts(tree);
    assert text == before + (Render(tree) + after);
    assert (Render(tree) + after)[0] == Render(tree)[0];
    BlankSkipped(before, Render(tree) + after);
    StopsAtBlank(tree, after);
    TreeRead(c, tree, 0, 0, after);
    BlankSkipped(after, []);
    assert after + [] == after;
  }

  lemma StopsAtBlank(tree: Tree, after: Text)
    requires Blank(after)
    ensures Stops(tree, after)
  {}

  /** The accepted documents are exactly those of the grammar whose trees have a value. */
  lemma AcceptedExactly(c: Codec, text: Text, v: Value)
    ensures ParseJson(c, text) == Ok(v)
       <==> |text| <= c.maxDocument
            && exists before, tree, after :: Blank(before) && ProperTree(tree) && Blank(after)
                 && text == before + Render(tree) + after && Outcome(Means(c, tree, 0, 0)) == Ok(v)
  {
    hide Render, SkipSpace, ReadValue, Means, Blank, ProperTree, ParseJson;
    if ParseJson(c, text) == Ok(v) {
      var before, tree, after := DocumentBack(c, text);
      DocumentRead(c, before, tree, after);
    }
    forall before, tree, after | Blank(before) && ProperTree(tree) && Blank(after)
        && text == before + Render(tree) + after && Outcome(Means(c, tree, 0, 0)) == Ok(v) && |text| <= c.maxDocument
      ensures ParseJson(c, text) == Ok(v)
    {
      DocumentRead(c, before, tree, after);
    }
  }

  lemma DocumentBack(c: Codec, text: Text) returns (before: Text, tree: Tree, after: Text)
    requires ParseJson(c, text).Ok?
    ensures |text| <= c.maxDocument && Blank(before) && ProperTree(tree) && Blank(after)
    ensures text == before + Render(tree) + after
  {
    hide Render, SkipSpace, ReadValue, Blank, ProperTree;
    before := BlankBack(text);
    var s := SkipSpace(text);
    tree := TreeBack(c, s, 0, 0);
    after := BlankBack(ReadValue(c, s, 0, 0).rest);
    assert after + [] == after;
  }

  // ----- what becomes of an object's members

  /** Two hexadecimal digits for each octet, in either case. */
  predicate HexSpells(t: Text, octets: Text) {
    && |t| == 2 * |octets|
    && forall i :: 0 <= i < |octets| ==>
         HexIs(t[2 * i], octets[i] as int / 16) && HexIs(t[2 * i + 1], octets[i] as int % 16)
  }

  lemma {:induction false} FromHexExactly(t: Text, octets: Text)
    ensures FromHex(t) == Some(octets) <==> HexSpells(t, octets)
    decreases |t|
  {
    if |t| >= 2 {
      if octets == [] {
        assert !HexSpells(t, octets);
      } else {
        FromHexExactly(t[2..], octets[1..]);
        HexPair(t[0], t[1], octets[0]);
        assert octets == [octets[0]] + octets[1..];
        HexFirst(t, octets);
        FirstOctet(t);
      }
    }
  }

  lemma HexFirst(t: Text, octets: Text)
    requires |t| >= 2 && octets != []
    ensures HexSpells(t, octets)
       <==> HexIs(t[0], octets[0] as int / 16) && HexIs(t[1], octets[0] as int % 16) && HexSpells(t[2..], octets[1..])
  {
    hide HexIs;
    var u, o := t[2..], octets[1..];
    assert forall i :: 0 <= i < |o| && 2 * i + 1 < |u| ==> o[i] == octets[i + 1] && u[2 * i] == t[2 * (i + 1)]
                                                           && u[2 * i + 1] == t[2 * (i + 1) + 1];
    if HexSpells(u, o) && HexIs(t[0], octets[0] as int / 16) && HexIs(t[1], octets[0] as int % 16) {
      forall i | 0 <= i < |octets|
        ensures HexIs(t[2 * i], octets[i] as int / 16) && HexIs(t[2 * i + 1], octets[i] as int % 16)
      {
        if i > 0 { assert HexIs(u[2 * (i - 1)], o[i - 1] as int / 16) && HexIs(u[2 * (i - 1) + 1], o[i - 1] as int % 16); }
      }
    }
    if HexSpells(t, octets) {
      forall i | 0 <= i < |o| ensures HexIs(u[2 * i], o[i] as int / 16) && HexIs(u[2 * i + 1], o[i] as int % 16) {
        assert HexIs(t[2 * (i + 1)], octets[i + 1] as int / 16) && HexIs(t[2 * (i + 1) + 1], octets[i + 1] as int % 16);
      }
    }
  }

  lemma HexPair(h: byte, l: byte, octet: byte)
    ensures HexIs(h, octet as int / 16) && HexIs(l, octet as int % 16)
       <==> HexValue(h).Some? && HexValue(l).Some? && (HexValue(h).value * 16 + HexValue(l).value) as char == octet
  {}

  lemma FirstOctet(t: Text)
    requires |t| >= 2
    ensures FromHex(t).Some? ==> FromHex(t).value != []
  {}

  /** An object whose only member is named "$bytes" is a byte string: its text must be a string of
      digit pairs within the limit. Every other object is itself. */
  lemma FinishMeans(c: Codec, ms: seq<Member>, v: Value)
    ensures Finish(c, ms) == Ok(v) <==>
      if |ms| == 1 && ms[0].name == "$bytes" then
        && v.Bytes? && |v.octets| <= c.maxLeaf && ms[0].value.String? && HexSpells(ms[0].value.text, v.octets)
      else v == Map(ms)
  {
    hide HexSpells, FromHex;
    if |ms| == 1 && ms[0].value.String? && v.Bytes? { FromHexExactly(ms[0].value.text, v.octets); }
    if |ms| == 1 && ms[0].value.String? && FromHex(ms[0].value.text).Some? {
      FromHexExactly(ms[0].value.text, FromHex(ms[0].value.text).value);
    }
  }

  /** Keeping a member loses none of the others and puts it in its place by name. */
  lemma {:induction false} MemberKept(ms: seq<Member>, m: Member)
    ensures multiset(InsertMember(ms, m)) == multiset(ms) + multiset{m}
    ensures JsonRoundTrip.NameSorted(ms) && (forall i :: 0 <= i < |ms| ==> ms[i].name != m.name)
        ==> JsonRoundTrip.NameSorted(InsertMember(ms, m))
  {
    hide Less, JsonRoundTrip.NameSorted;
    Kept(ms, m);
    if JsonRoundTrip.NameSorted(ms) && (forall i :: 0 <= i < |ms| ==> ms[i].name != m.name) {
      JsonAccepted.InsertSorted(ms, m);
    }
  }

  lemma {:induction false} Kept(ms: seq<Member>, m: Member)
    ensures multiset(InsertMember(ms, m)) == multiset(ms) + multiset{m}
  {
    hide Less;
    if ms != [] && !Less(m.name, ms[0].name) {
      Kept(ms[1..], m);
      assert ms == [ms[0]] + ms[1..];
    }
  }
}
