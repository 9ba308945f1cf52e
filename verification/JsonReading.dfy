/** What the reader makes of everything the writers can produce. */
module JsonReading {
  import opened Core
  import opened Values
  import opened Decimals
  import opened Json
  import Utf8

  predicate DoubleFree(v: Value)
    decreases v
  {
    && !v.Double?
    && (v.List? ==> forall i :: 0 <= i < |v.items| ==> DoubleFree(v.items[i]))
    && (v.Map? ==> forall i :: 0 <= i < |v.members| ==> DoubleFree(v.members[i].value))
  }

  // ----- the reading, computed from the value

  datatype Reading = Read(value: Value, nodes: nat) | Refused(reason: Reason)

  function StringProblem(c: Codec, text: Text): Option<Reason> {
    if |text| > c.maxLeaf then Some(LimitBytesExceeded)
    else if !Utf8.Valid(text) then Some(EncodingInvalidUtf8)
    else None
  }

  /** A byte string is written as an object: two nodes, one more level, twice its octets. */
  function ExpectBytes(c: Codec, octets: Text, depth: nat, nodes: nat): Reading {
    if |BYTES_MEMBER| > c.maxLeaf then Refused(LimitBytesExceeded)
    else if depth + 1 > c.maxDepth then Refused(LimitDepthExceeded)
    else if nodes + 1 > c.maxNodes then Refused(LimitObjectsExceeded)
    else if 2 * |octets| > c.maxLeaf then Refused(LimitBytesExceeded)
    else if c.maxFields < 1 then Refused(LimitFieldsExceeded)
    else Read(Bytes(octets), nodes + 1)
  }

  /** What reading the text of a double-free value gives: the checks in the reader's own
      order, one-member `$bytes` objects turned into byte strings. */
  function Expect(c: Codec, v: Value, depth: nat, nodes: nat): Reading
    decreases v
  {
    if depth > c.maxDepth then Refused(LimitDepthExceeded)
    else if nodes + 1 > c.maxNodes then Refused(LimitObjectsExceeded)
    else
      match v
      case Null => Read(v, nodes + 1)
      case Bool(_) => Read(v, nodes + 1)
      case Int(_) => Read(v, nodes + 1)
      case Uint(n) => Read(if n <= INT64_MAX then Int(n) else v, nodes + 1)
      case Double(_) => Refused(EncodingNumberOutOfRange)
      case String(text) =>
        var p := StringProblem(c, text);
        if p.Some? then Refused(p.value) else Read(v, nodes + 1)
      case Bytes(octets) => ExpectBytes(c, octets, depth, nodes + 1)
      case List(items) => ExpectItems(c, items, depth, nodes + 1, [])
      case Map(members) => ExpectFields(c, members, depth, nodes + 1, [])
  }

  function ExpectItems(c: Codec, items: seq<Value>, depth: nat, nodes: nat, list: seq<Value>): Reading
    decreases items
  {
    if items == [] then Read(List(list), nodes)
    else
      var e := Expect(c, items[0], depth + 1, nodes);
      if e.Refused? then e
      else if |list| + 1 > c.maxNodes then Refused(LimitObjectsExceeded)
      else ExpectItems(c, items[1..], depth, e.nodes, list + [e.value])
  }

  function Finished(c: Codec, ms: seq<Member>, nodes: nat): Reading {
    var r := Finish(c, ms);
    if r.Err? then Refused(r.reason) else Read(r.value, nodes)
  }

  function ExpectFields(c: Codec, members: seq<Member>, depth: nat, nodes: nat, ms: seq<Member>): Reading
    decreases members
  {
    if members == [] then Finished(c, ms, nodes)
    else
      var m := members[0];
      var p := StringProblem(c, m.name);
      if p.Some? then Refused(p.value)
      else
        var e := Expect(c, m.value, depth + 1, nodes);
        if e.Refused? then e
        else if HasName(ms, m.name) then Refused(EncodingDuplicateKey)
        else if |ms| + 1 > c.maxFields then Refused(LimitFieldsExceeded)
        else ExpectFields(c, members[1..], depth, e.nodes, InsertMember(ms, Member(m.name, e.value)))
  }

  function AsVal(r: Reading, rest: Text): Val {
    if r.Refused? then ValBad(r.reason) else ValOk(r.value, rest, r.nodes)
  }

  // ----- tokens

  /** What may follow a value: nothing that would prolong a number. */
  predicate Ends(tail: Text) {
    tail == [] || (!IsDigit(tail[0]) && tail[0] != '.' && tail[0] != 'e' && tail[0] != 'E')
  }

  lemma {:induction false} SkipSpaces(n: nat, tail: Text)
    requires tail == [] || !Space(tail[0])
    ensures SkipSpace(Spaces(n) + tail) == tail
  {
    if n == 0 {
      assert Spaces(0) + tail == tail;
    } else {
      assert (Spaces(n) + tail)[1..] == Spaces(n - 1) + tail;
      SkipSpaces(n - 1, tail);
    }
  }

  lemma SkipGap(style: Style, depth: nat, tail: Text)
    requires tail == [] || !Space(tail[0])
    ensures SkipSpace(Gap(style, depth) + tail) == tail
  {
    if style.Compact? || style.width == 0 {
      assert Gap(style, depth) + tail == tail;
    } else {
      var n := style.width * depth;
      assert (Gap(style, depth) + tail)[1..] == Spaces(n) + tail;
      SkipSpaces(n, tail);
    }
  }

  lemma {:induction false} SpanOf(d: Text, tail: Text)
    requires AllDigits(d) && (tail == [] || !IsDigit(tail[0]))
    ensures DigitSpan(d + tail) == |d|
  {
    if d == [] {
      assert d + tail == tail;
    } else {
      assert (d + tail)[1..] == d[1..] + tail;
      SpanOf(d[1..], tail);
    }
  }

  lemma WholeScanned(d: Text, sign: nat, s: Text, tail: Text)
    requires sign <= 1 && d != [] && AllDigits(d) && (d[0] == '0' ==> |d| == 1) && (tail == [] || !IsDigit(tail[0]))
    requires s == (if sign == 1 then "-" else []) + d + tail
    ensures WholeEnd(s) == Ok(sign + |d|)
  {
    hide DigitSpan;
    assert s[sign..] == d + tail;
    SpanOf(d, tail);
    assert s[sign] == d[0] && (sign == 0 ==> s[0] != '-');
    if d[0] == '0' {
      assert |s| == sign + 1 + |tail|;
      assert tail != [] ==> s[sign + 1] == tail[0];
    }
  }

  lemma NothingAfter(s: Text, p: nat)
    requires p <= |s| && Ends(s[p..])
    ensures FractionEnd(s, p) == Ok(p) && ExponentEnd(s, p) == Ok(p)
  {
    if p < |s| { assert s[p..][0] == s[p]; }
  }

  lemma IntegerScanned(i: int, tail: Text)
    requires Ends(tail)
    ensures ScanNumber(Integer(i) + tail) == TokenOk(Integer(i), true)
  {
    hide DigitSpan, WholeEnd, FractionEnd, ExponentEnd;
    var n := if i < 0 then -i else i;
    var sign := if i < 0 then 1 else 0;
    var s := Integer(i) + tail;
    DecimalReads(n);
    WholeScanned(Decimal(n), sign, s, tail);
    assert s[|Integer(i)|..] == tail;
    NothingAfter(s, |Integer(i)|);
    assert s[..|Integer(i)|] == Integer(i);
  }

  lemma IntegerConverted(i: int)
    requires INT64_MIN <= i <= UINT64_MAX
    ensures IntegerOf(Integer(i)) == Some(if i <= INT64_MAX then Int(i) else Uint(i))
  {
    hide ReadDigits;
    var n := if i < 0 then -i else i;
    DecimalReads(n);
    TenPowers();
    DecimalLength(n, 19);
    DecimalLength(n, 20);
    if i < 0 { assert Integer(i)[1..] == Decimal(n); }
  }

  lemma IntegerStart(i: int)
    ensures Integer(i)[0] == '-' || IsDigit(Integer(i)[0])
  {}

  lemma NumberRead(c: Codec, i: int, tail: Text, nodes: nat)
    requires INT64_MIN <= i <= UINT64_MAX && Ends(tail)
    ensures ReadNumber(c, Integer(i) + tail, nodes) == ValOk(if i <= INT64_MAX then Int(i) else Uint(i), tail, nodes)
  {
    hide ScanNumber, IntegerOf;
    IntegerScanned(i, tail);
    IntegerConverted(i);
    assert (Integer(i) + tail)[|Integer(i)|..] == tail;
  }

  // ----- strings

  lemma HexDigitBack(n: nat)
    requires n < 16
    ensures HexValue(HexDigit(n)) == Some(n)
  {}

  /** One octet as the writer spells it is one octet to the reader. */
  lemma ByteRead(c: Codec, b: byte, rest: Text, out: Text)
    ensures ReadString(c, EscapeByte(b) + rest, out)
         == if |out| + 1 > c.maxLeaf then StrBad(LimitBytesExceeded) else ReadString(c, rest, out + [b])
  {
    var s := EscapeByte(b) + rest;
    var n := b as int;
    if b != QUOTE && b != BACKSLASH && n >= 0x20 {
      assert s[1..] == rest;
    } else {
      EscapeRead(b, rest);
      assert s[0] == BACKSLASH;
    }
  }

  lemma EscapeRead(b: byte, rest: Text)
    requires b == QUOTE || b == BACKSLASH || b as int < 0x20
    ensures EscapeByte(b)[0] == BACKSLASH && ReadEscape((EscapeByte(b) + rest)[1..]) == StrOk([b], rest)
  {
    var s := (EscapeByte(b) + rest)[1..];
    var n := b as int;
    if b == QUOTE || b == BACKSLASH || n == 8 || n == 12 || n == 10 || n == 13 || n == 9 {
      assert s[1..] == rest;
    } else {
      UnicodeRead(b, rest);
      assert s[1..] == ['0', '0', HexDigit(n / 16), HexDigit(n % 16)] + rest;
    }
  }

  lemma UnicodeRead(b: byte, rest: Text)
    requires b as int < 0x20
    ensures ReadUnicode(['0', '0', HexDigit(b as int / 16), HexDigit(b as int % 16)] + rest) == StrOk([b], rest)
  {
    var n := b as int;
    var s := ['0', '0', HexDigit(n / 16), HexDigit(n % 16)] + rest;
    HexDigitBack(n / 16);
    HexDigitBack(n % 16);
    assert s[4..] == rest;
    assert Utf8.Encode(n) == [b];
  }

  lemma {:induction false} TextRead(c: Codec, text: Text, tail: Text, out: Text)
    requires |out| <= c.maxLeaf
    ensures ReadString(c, Escape(text) + [QUOTE] + tail, out)
         == if |out| + |text| > c.maxLeaf then StrBad(LimitBytesExceeded)
            else if !Utf8.Valid(out + text) then StrBad(EncodingInvalidUtf8)
            else StrOk(out + text, tail)
    decreases |text|
  {
    hide EscapeByte, Utf8.Valid;
    if text == [] {
      var s := Escape(text) + [QUOTE] + tail;
      assert s[0] == QUOTE && s[1..] == tail && out + text == out;
    } else {
      assert Escape(text) + [QUOTE] + tail == EscapeByte(text[0]) + (Escape(text[1..]) + [QUOTE] + tail);
      ByteRead(c, text[0], Escape(text[1..]) + [QUOTE] + tail, out);
      if |out| + 1 <= c.maxLeaf {
        TextRead(c, text[1..], tail, out + [text[0]]);
        assert out + [text[0]] + text[1..] == out + text;
      }
    }
  }

  /** A quoted text, read from after its opening quote. */
  lemma QuoteRead(c: Codec, text: Text, tail: Text)
    ensures (Quote(text) + tail)[0] == QUOTE
    ensures ReadString(c, (Quote(text) + tail)[1..], [])
         == var p := StringProblem(c, text); if p.Some? then StrBad(p.value) else StrOk(text, tail)
  {
    hide Escape, Utf8.Valid, ReadString;
    assert (Quote(text) + tail)[1..] == Escape(text) + [QUOTE] + tail;
    TextRead(c, text, tail, []);
    assert [] + text == text;
  }

  // ----- byte strings

  predicate HexText(s: Text) { forall i :: 0 <= i < |s| ==> HexValue(s[i]).Some? }

  lemma {:induction false} HexBack(octets: Text)
    ensures |Hex(octets)| == 2 * |octets| && HexText(Hex(octets)) && FromHex(Hex(octets)) == Some(octets)
  {
    if octets != [] {
      var n := octets[0] as int;
      HexBack(octets[1..]);
      HexDigitBack(n / 16);
      HexDigitBack(n % 16);
      assert Hex(octets)[2..] == Hex(octets[1..]);
      assert (n / 16 * 16 + n % 16) as char == octets[0];
      assert octets == [octets[0]] + octets[1..];
    }
  }

  lemma {:induction false} HexPlain(s: Text)
    requires HexText(s)
    ensures Escape(s) == s && Utf8.Valid(s)
    decreases |s|
  {
    if s != [] {
      assert HexValue(s[0]).Some?;
      HexPlain(s[1..]);
      AsciiFirst(s);
      assert s == [s[0]] + s[1..];
    }
  }

  lemma AsciiFirst(s: Text)
    requires s != [] && s[0] as int < 0x80
    ensures Utf8.First(s) == Some(1)
  {}

  lemma BytesMemberPlain(c: Codec)
    ensures StringProblem(c, BYTES_MEMBER) == if |BYTES_MEMBER| > c.maxLeaf then Some(LimitBytesExceeded) else None
  {
    var s := BYTES_MEMBER;
    AsciiFirst(s);
    AsciiFirst(s[1..]);
    AsciiFirst(s[2..]);
    AsciiFirst(s[3..]);
    AsciiFirst(s[4..]);
    AsciiFirst(s[5..]);
    assert s[1..][1..] == s[2..] && s[2..][1..] == s[3..] && s[3..][1..] == s[4..] && s[4..][1..] == s[5..]
        && s[5..][1..] == [];
  }

  lemma BytesRead(c: Codec, octets: Text, style: Style, depth: nat, nodes: nat, tail: Text)
    requires depth <= c.maxDepth && nodes + 1 <= c.maxNodes
    ensures ReadValue(c, Spell(c, Bytes(octets), style, depth) + tail, depth, nodes)
         == AsVal(ExpectBytes(c, octets, depth, nodes + 1), tail)
  {
    hide Escape, ReadString, Utf8.Valid, FromHex, Hex, HexText, StringProblem;
    var s := Spell(c, Bytes(octets), style, depth) + tail;
    HexBack(octets);
    HexPlain(Hex(octets));
    var value := Quote(Hex(octets)) + "}" + tail;
    var after := ":" + value;
    assert s[1..] == Quote(BYTES_MEMBER) + after;
    QuoteStart(BYTES_MEMBER, after);
    QuoteStart(Hex(octets), "}" + tail);
    SkipNone(s[1..]);
    BytesMemberRead(c, octets, depth, nodes + 1, tail);
  }

  lemma QuoteStart(text: Text, tail: Text)
    ensures (Quote(text) + tail)[0] == QUOTE
  {
    hide Escape;
  }

  lemma SkipNone(s: Text)
    requires s != [] && !Space(s[0])
    ensures SkipSpace(s) == s
  {}

  lemma BytesMemberRead(c: Codec, octets: Text, depth: nat, nodes: nat, tail: Text)
    requires depth <= c.maxDepth
    ensures ReadMembers(c, Quote(BYTES_MEMBER) + (":" + (Quote(Hex(octets)) + "}" + tail)), depth, nodes, [])
         == AsVal(ExpectBytes(c, octets, depth, nodes), tail)
  {
    hide Escape, ReadString, Utf8.Valid, FromHex, Hex, HexText, ReadValue;
    HexBack(octets);
    HexPlain(Hex(octets));
    var value := Quote(Hex(octets)) + "}" + tail;
    var after := ":" + value;
    var t := Quote(BYTES_MEMBER) + after;
    QuoteRead(c, BYTES_MEMBER, after);
    BytesMemberPlain(c);
    SkipNone(t);
    SkipNone(after);
    assert after[1..] == value;
    assert value == Quote(Hex(octets)) + ("}" + tail);
    QuoteStart(Hex(octets), "}" + tail);
    SkipNone(value);
    StringValueRead(c, Hex(octets), "}" + tail, depth + 1, nodes);
    SkipNone("}" + tail);
    assert ("}" + tail)[1..] == tail;
  }

  lemma StringValueRead(c: Codec, text: Text, tail: Text, depth: nat, nodes: nat)
    ensures ReadValue(c, Quote(text) + tail, depth, nodes)
         == if depth > c.maxDepth then ValBad(LimitDepthExceeded)
            else if nodes + 1 > c.maxNodes then ValBad(LimitObjectsExceeded)
            else var p := StringProblem(c, text);
                 if p.Some? then ValBad(p.value) else ValOk(String(text), tail, nodes + 1)
  {
    hide Escape, ReadString, StringProblem;
    QuoteRead(c, text, tail);
    assert Quote(text) + tail != [];
  }

  // ----- values

  lemma SpellStart(c: Codec, v: Value, style: Style, depth: nat)
    requires DoubleFree(v)
    ensures Spell(c, v, style, depth) != [] && !Space(Spell(c, v, style, depth)[0])
    ensures !CharAt(Spell(c, v, style, depth), 0, ']') && !CharAt(Spell(c, v, style, depth), 0, '}')
  {
    hide Escape, Hex, Elements, Fields, Decimal;
    if v.Int? { IntegerStart(v.signed); }
    if v.Uint? { IntegerStart(v.unsigned); }
  }

  lemma LiteralRead(literal: Text, v: Value, tail: Text, nodes: nat)
    requires literal != []
    ensures ReadLiteral(literal + tail, literal, v, nodes) == ValOk(v, tail, nodes)
  {
    assert (literal + tail)[|literal|..] == tail;
  }

  lemma ScalarRead(c: Codec, v: Value, style: Style, depth: nat, nodes: nat, tail: Text)
    requires v.Null? || v.Bool? || v.Int? || v.Uint? || v.String?
    requires Ends(tail)
    ensures ReadValue(c, Spell(c, v, style, depth) + tail, depth, nodes) == AsVal(Expect(c, v, depth, nodes), tail)
  {
    hide ReadNumber, ReadString, Integer, Quote, StringProblem;
    match v {
      case Null => LiteralRead("null", v, tail, nodes + 1);
      case Bool(b) => LiteralRead(if b then "true" else "false", v, tail, nodes + 1);
      case Int(i) => NumberStart(i, tail); NumberRead(c, i, tail, nodes + 1);
      case Uint(n) => NumberStart(n, tail); NumberRead(c, n, tail, nodes + 1);
      case String(text) => StringValueRead(c, text, tail, depth, nodes);
      case _ => assert false;
    }
  }

  lemma NumberStart(i: int, tail: Text)
    ensures var s := Integer(i) + tail; s != [] && (s[0] == '-' || IsDigit(s[0]))
  {
    IntegerStart(i);
  }

  /** The elements without the comma before them. */
  function Bare(c: Codec, items: seq<Value>, style: Style, depth: nat): Text { Elements(c, items, style, depth, true) }

  function BareFields(c: Codec, ms: seq<Member>, style: Style, depth: nat): Text { Fields(c, ms, style, depth, true) }

  /** What follows the first element. */
  function AfterItem(c: Codec, items: seq<Value>, style: Style, depth: nat, tail: Text): Text
    requires items != []
  {
    if |items| == 1 then Gap(style, depth) + "]" + tail
    else "," + (Bare(c, items[1..], style, depth) + (Gap(style, depth) + "]" + tail))
  }

  lemma Joined(a: Text, b: Text, end: Text)
    ensures (a + b) + end == a + (b + end)
  {}

  lemma Joined3(a: Text, b: Text, d: Text, end: Text)
    ensures (a + b + d) + end == a + (b + (d + end))
  {
    Joined(a + b, d, end);
    Joined(a, b, d + end);
  }

  lemma Joined5(a: Text, b: Text, d: Text, e: Text, f: Text, end: Text)
    ensures (a + b + d + e + f) + end == a + (b + (d + (e + (f + end))))
  {
    Joined3(a + b + d, e, f, end);
    Joined3(a, b, d, e + (f + end));
  }

  lemma FirstElement(c: Codec, items: seq<Value>, style: Style, depth: nat)
    requires items != []
    ensures Bare(c, items, style, depth)
         == Gap(style, depth + 1) + Spell(c, items[0], style, depth + 1) + Elements(c, items[1..], style, depth, false)
  {
    hide Spell, Gap;
    assert [] + Gap(style, depth + 1) == Gap(style, depth + 1);
  }

  lemma FirstField(c: Codec, ms: seq<Member>, style: Style, depth: nat)
    requires ms != []
    ensures BareFields(c, ms, style, depth)
         == Gap(style, depth + 1) + Quote(ms[0].name) + Colon(style) + Spell(c, ms[0].value, style, depth + 1)
            + Fields(c, ms[1..], style, depth, false)
  {
    hide Spell, Gap, Quote, Colon;
    assert [] + Gap(style, depth + 1) == Gap(style, depth + 1);
  }

  lemma ItemsSplit(c: Codec, items: seq<Value>, style: Style, depth: nat, tail: Text)
    requires items != []
    ensures Bare(c, items, style, depth) + (Gap(style, depth) + "]" + tail)
         == Gap(style, depth + 1) + (Spell(c, items[0], style, depth + 1) + AfterItem(c, items, style, depth, tail))
  {
    hide Spell, Gap, Bare, Elements;
    var end := Gap(style, depth) + "]" + tail;
    var first := Spell(c, items[0], style, depth + 1);
    var rest := Elements(c, items[1..], style, depth, false);
    if |items| > 1 { CommaFirst(c, items[1..], style, depth); }
    assert rest + end == AfterItem(c, items, style, depth, tail) by {
      if |items| > 1 {
        Joined(",", Bare(c, items[1..], style, depth), end);
      } else {
        NoElements(c, style, depth);
        assert items[1..] == [] && rest + end == end;
      }
    }
    Joined3(Gap(style, depth + 1), first, rest, end);
    assert Bare(c, items, style, depth) == Gap(style, depth + 1) + first + rest by { FirstElement(c, items, style, depth); }
  }

  lemma CommaFirst(c: Codec, items: seq<Value>, style: Style, depth: nat)
    requires items != []
    ensures Elements(c, items, style, depth, false) == "," + Bare(c, items, style, depth)
  {
    hide Spell, Gap;
  }

  lemma AfterItemEnds(c: Codec, items: seq<Value>, style: Style, depth: nat, tail: Text)
    requires items != []
    ensures Ends(AfterItem(c, items, style, depth, tail))
    ensures SkipSpace(AfterItem(c, items, style, depth, tail))
         == if |items| == 1 then "]" + tail
            else "," + (Bare(c, items[1..], style, depth) + (Gap(style, depth) + "]" + tail))
  {
    hide Bare;
    if |items| == 1 {
      assert Gap(style, depth) + "]" + tail == Gap(style, depth) + ("]" + tail);
      SkipGap(style, depth, "]" + tail);
    } else {
      SkipNone(AfterItem(c, items, style, depth, tail));
    }
  }

  lemma {:induction false} ValueRead(c: Codec, v: Value, style: Style, depth: nat, nodes: nat, tail: Text)
    requires DoubleFree(v) && Ends(tail)
    ensures ReadValue(c, Spell(c, v, style, depth) + tail, depth, nodes) == AsVal(Expect(c, v, depth, nodes), tail)
    decreases v, 1
  {
    if v.List? {
      ListRead(c, v.items, style, depth, nodes, tail);
    } else if v.Map? {
      MapRead(c, v.members, style, depth, nodes, tail);
    } else if v.Bytes? {
      assert (Spell(c, v, style, depth) + tail) != [];
      if depth <= c.maxDepth && nodes + 1 <= c.maxNodes { BytesRead(c, v.octets, style, depth, nodes, tail); }
    } else {
      ScalarRead(c, v, style, depth, nodes, tail);
    }
  }

  lemma {:induction false} ListRead(c: Codec, items: seq<Value>, style: Style, depth: nat, nodes: nat, tail: Text)
    requires DoubleFree(List(items))
    ensures ReadValue(c, Spell(c, List(items), style, depth) + tail, depth, nodes)
         == AsVal(Expect(c, List(items), depth, nodes), tail)
    decreases items, 3
  {
    hide ReadItems, Elements, Gap, ExpectItems, ReadValue, SkipSpace, Spell;
    if items == [] {
      EmptyListRead(c, style, depth, nodes, tail);
    } else {
      var body := Bare(c, items, style, depth) + (Gap(style, depth) + "]" + tail);
      SpellItems(c, items, style, depth, tail);
      ItemsSplit(c, items, style, depth, tail);
      SpellStart(c, items[0], style, depth + 1);
      SkipGap(style, depth + 1, Spell(c, items[0], style, depth + 1) + AfterItem(c, items, style, depth, tail));
      OpensItems(c, body, depth, nodes);
      ItemsRead(c, items, style, depth, nodes + 1, [], tail);
    }
  }

  lemma SpellItems(c: Codec, items: seq<Value>, style: Style, depth: nat, tail: Text)
    requires items != []
    ensures Spell(c, List(items), style, depth) + tail
         == "[" + (Bare(c, items, style, depth) + (Gap(style, depth) + "]" + tail))
  {
    hide Elements, Gap;
  }

  lemma OpensItems(c: Codec, body: Text, depth: nat, nodes: nat)
    requires !CharAt(SkipSpace(body), 0, ']')
    ensures ReadValue(c, "[" + body, depth, nodes)
         == if depth > c.maxDepth then ValBad(LimitDepthExceeded)
            else if nodes + 1 > c.maxNodes then ValBad(LimitObjectsExceeded)
            else ReadItems(c, body, depth, nodes + 1, [])
  {
    hide ReadItems, SkipSpace;
    assert ("[" + body)[1..] == body;
  }

  lemma {:induction false} EmptyListRead(c: Codec, style: Style, depth: nat, nodes: nat, tail: Text)
    ensures ReadValue(c, Spell(c, List([]), style, depth) + tail, depth, nodes)
         == AsVal(Expect(c, List([]), depth, nodes), tail)
  {
    hide ReadItems, Elements, Gap, ExpectItems;
    var s := Spell(c, List([]), style, depth) + tail;
    if depth <= c.maxDepth && nodes + 1 <= c.maxNodes {
      NoElements(c, style, depth);
      assert s[1..] == "]" + tail;
      SkipNone("]" + tail);
      assert ("]" + tail)[1..] == tail;
      NoItems(c, depth, nodes + 1);
    }
  }

  lemma NoElements(c: Codec, style: Style, depth: nat)
    ensures Elements(c, [], style, depth, true) == [] == Elements(c, [], style, depth, false)
    ensures Fields(c, [], style, depth, true) == [] == Fields(c, [], style, depth, false)
  {}

  lemma NoItems(c: Codec, depth: nat, nodes: nat)
    ensures ExpectItems(c, [], depth, nodes, []) == Read(List([]), nodes)
  {}

  lemma {:induction false} ItemsRead(c: Codec, items: seq<Value>, style: Style, depth: nat, nodes: nat,
                                     list: seq<Value>, tail: Text)
    requires items != [] && forall i :: 0 <= i < |items| ==> DoubleFree(items[i])
    ensures ReadItems(c, Bare(c, items, style, depth) + (Gap(style, depth) + "]" + tail), depth, nodes, list)
         == AsVal(ExpectItems(c, items, depth, nodes, list), tail)
    decreases items, 2
  {
    hide Spell, Gap, Bare, Expect, ReadValue, AfterItem, DoubleFree;
    var rest := AfterItem(c, items, style, depth, tail);
    ItemsSplit(c, items, style, depth, tail);
    SpellStart(c, items[0], style, depth + 1);
    SkipGap(style, depth + 1, Spell(c, items[0], style, depth + 1) + rest);
    AfterItemEnds(c, items, style, depth, tail);
    ValueRead(c, items[0], style, depth + 1, nodes, rest);
    var e := Expect(c, items[0], depth + 1, nodes);
    if e.Read? && |list| + 1 <= c.maxNodes {
      if |items| == 1 {
        assert ("]" + tail)[1..] == tail;
        NoMoreItems(c, items[1..], depth, e.nodes, list + [e.value]);
      } else {
        var next := Bare(c, items[1..], style, depth) + (Gap(style, depth) + "]" + tail);
        assert ("," + next)[1..] == next;
        ItemsRead(c, items[1..], style, depth, e.nodes, list + [e.value], tail);
      }
    }
  }

  lemma NoMoreItems(c: Codec, items: seq<Value>, depth: nat, nodes: nat, list: seq<Value>)
    requires items == []
    ensures ExpectItems(c, items, depth, nodes, list) == Read(List(list), nodes)
  {}

  // ----- objects

  function AfterField(c: Codec, ms: seq<Member>, style: Style, depth: nat, tail: Text): Text
    requires ms != []
  {
    if |ms| == 1 then Gap(style, depth) + "}" + tail
    else "," + (BareFields(c, ms[1..], style, depth) + (Gap(style, depth) + "}" + tail))
  }

  lemma FieldsSplit(c: Codec, ms: seq<Member>, style: Style, depth: nat, tail: Text)
    requires ms != []
    ensures BareFields(c, ms, style, depth) + (Gap(style, depth) + "}" + tail)
         == Gap(style, depth + 1)
            + (Quote(ms[0].name)
               + (Colon(style) + (Spell(c, ms[0].value, style, depth + 1) + AfterField(c, ms, style, depth, tail))))
  {
    hide Spell, Gap, BareFields, Fields, Quote, Colon;
    var end := Gap(style, depth) + "}" + tail;
    var value := Spell(c, ms[0].value, style, depth + 1);
    var rest := Fields(c, ms[1..], style, depth, false);
    if |ms| > 1 { CommaField(c, ms[1..], style, depth); }
    assert rest + end == AfterField(c, ms, style, depth, tail) by {
      if |ms| > 1 {
        Joined(",", BareFields(c, ms[1..], style, depth), end);
      } else {
        NoElements(c, style, depth);
        assert ms[1..] == [] && rest + end == end;
      }
    }
    Joined5(Gap(style, depth + 1), Quote(ms[0].name), Colon(style), value, rest, end);
    assert BareFields(c, ms, style, depth)
        == Gap(style, depth + 1) + Quote(ms[0].name) + Colon(style) + value + rest by {
      FirstField(c, ms, style, depth);
    }
  }

  lemma CommaField(c: Codec, ms: seq<Member>, style: Style, depth: nat)
    requires ms != []
    ensures Fields(c, ms, style, depth, false) == "," + BareFields(c, ms, style, depth)
  {
    hide Spell, Gap, Quote, Colon;
  }

  lemma AfterFieldEnds(c: Codec, ms: seq<Member>, style: Style, depth: nat, tail: Text)
    requires ms != []
    ensures Ends(AfterField(c, ms, style, depth, tail))
    ensures SkipSpace(AfterField(c, ms, style, depth, tail))
         == if |ms| == 1 then "}" + tail
            else "," + (BareFields(c, ms[1..], style, depth) + (Gap(style, depth) + "}" + tail))
  {
    hide BareFields;
    if |ms| == 1 {
      assert Gap(style, depth) + "}" + tail == Gap(style, depth) + ("}" + tail);
      SkipGap(style, depth, "}" + tail);
    } else {
      SkipNone(AfterField(c, ms, style, depth, tail));
    }
  }

  lemma SkipColon(style: Style, tail: Text)
    requires tail != [] && !Space(tail[0])
    ensures SkipSpace(Colon(style) + tail) == Colon(style) + tail
    ensures (Colon(style) + tail)[0] == ':' && SkipSpace((Colon(style) + tail)[1..]) == tail
  {
    hide SkipSpace;
    SkipNone(Colon(style) + tail);
    if style.Pretty? {
      assert (Colon(style) + tail)[1..] == " " + tail;
      SkipOne(tail);
    } else {
      assert (Colon(style) + tail)[1..] == tail;
      SkipNone(tail);
    }
  }

  lemma SkipOne(s: Text)
    requires s != [] && !Space(s[0])
    ensures SkipSpace(" " + s) == s
  {
    assert (" " + s)[1..] == s;
  }

  lemma {:induction false} MapRead(c: Codec, ms: seq<Member>, style: Style, depth: nat, nodes: nat, tail: Text)
    requires DoubleFree(Map(ms))
    ensures ReadValue(c, Spell(c, Map(ms), style, depth) + tail, depth, nodes)
         == AsVal(Expect(c, Map(ms), depth, nodes), tail)
    decreases ms, 3
  {
    hide ReadMembers, Fields, Gap, ExpectFields, Quote, Colon;
    var s := Spell(c, Map(ms), style, depth) + tail;
    if depth <= c.maxDepth && nodes + 1 <= c.maxNodes {
      if ms == [] {
        NoElements(c, style, depth);
        assert s[1..] == "}" + tail;
        SkipNone("}" + tail);
        assert ("}" + tail)[1..] == tail;
        NoMoreFields(c, [], depth, nodes + 1, []);
      } else {
        var rest := Colon(style) + (Spell(c, ms[0].value, style, depth + 1) + AfterField(c, ms, style, depth, tail));
        assert s[1..] == BareFields(c, ms, style, depth) + (Gap(style, depth) + "}" + tail);
        FieldsSplit(c, ms, style, depth, tail);
        QuoteStart(ms[0].name, rest);
        SkipGap(style, depth + 1, Quote(ms[0].name) + rest);
        FieldsRead(c, ms, style, depth, nodes + 1, [], tail);
      }
    }
  }

  lemma NoMoreFields(c: Codec, ms: seq<Member>, depth: nat, nodes: nat, read: seq<Member>)
    requires ms == []
    ensures ExpectFields(c, ms, depth, nodes, read) == Finished(c, read, nodes)
  {}

  lemma {:induction false} FieldsRead(c: Codec, ms: seq<Member>, style: Style, depth: nat, nodes: nat,
                                      read: seq<Member>, tail: Text)
    requires ms != [] && forall i :: 0 <= i < |ms| ==> DoubleFree(ms[i].value)
    ensures ReadMembers(c, BareFields(c, ms, style, depth) + (Gap(style, depth) + "}" + tail), depth, nodes, read)
         == AsVal(ExpectFields(c, ms, depth, nodes, read), tail)
    decreases ms, 2
  {
    hide Spell, Gap, BareFields, Expect, ReadValue, AfterField, DoubleFree, Quote, Colon, ReadString, StringProblem,
         HasName, InsertMember, Finish;
    var rest := AfterField(c, ms, style, depth, tail);
    var value := Spell(c, ms[0].value, style, depth + 1) + rest;
    var t := Quote(ms[0].name) + (Colon(style) + value);
    FieldsSplit(c, ms, style, depth, tail);
    QuoteStart(ms[0].name, Colon(style) + value);
    SkipGap(style, depth + 1, t);
    QuoteRead(c, ms[0].name, Colon(style) + value);
    SpellStart(c, ms[0].value, style, depth + 1);
    SkipColon(style, value);
    AfterFieldEnds(c, ms, style, depth, tail);
    ValueRead(c, ms[0].value, style, depth + 1, nodes, rest);
    FieldStep(c, ms, style, depth, nodes, read, tail);
  }

  lemma {:induction false} FieldStep(c: Codec, ms: seq<Member>, style: Style, depth: nat, nodes: nat,
                                     read: seq<Member>, tail: Text)
    requires ms != [] && forall i :: 0 <= i < |ms| ==> DoubleFree(ms[i].value)
    ensures
      var e := Expect(c, ms[0].value, depth + 1, nodes);
      e.Read? && |ms| > 1 ==>
        var more := InsertMember(read, Member(ms[0].name, e.value));
        var next := BareFields(c, ms[1..], style, depth) + (Gap(style, depth) + "}" + tail);
        && ("," + next)[1..] == next
        && ReadMembers(c, next, depth, e.nodes, more) == AsVal(ExpectFields(c, ms[1..], depth, e.nodes, more), tail)
    ensures ("}" + tail)[1..] == tail
    ensures |ms| == 1 ==> ms[1..] == []
    decreases ms, 1
  {
    hide Spell, Gap, BareFields, Expect, DoubleFree, InsertMember, ReadMembers, ExpectFields;
    var e := Expect(c, ms[0].value, depth + 1, nodes);
    if e.Read? && |ms| > 1 {
      FieldsRead(c, ms[1..], style, depth, e.nodes, InsertMember(read, Member(ms[0].name, e.value)), tail);
    }
  }

  // ----- whole documents

  /** The text of any double-free value, compact or pretty, is read exactly as Expect says,
      refusals included. */
  lemma ExactReading(c: Codec, v: Value, style: Style)
    requires DoubleFree(v)
    ensures ParseJson(c, Spell(c, v, style, 0))
         == if |Spell(c, v, style, 0)| > c.maxDocument then Err(LimitBytesExceeded)
            else match Expect(c, v, 0, 0) case Read(w, _) => Ok(w) case Refused(reason) => Err(reason)
  {
    hide Spell, Expect, ReadValue;
    var s := Spell(c, v, style, 0);
    SpellStart(c, v, style, 0);
    SkipNone(s);
    ValueRead(c, v, style, 0, 0, []);
    assert s + [] == s;
  }
}
