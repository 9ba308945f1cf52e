/** The two writers as the program runs them, appending to one output. */
module JsonWriter {
  import opened Core
  import opened Values
  import opened Json

  lemma {:induction false} EscapeSnoc(text: Text, b: byte)
    ensures Escape(text + [b]) == Escape(text) + EscapeByte(b)
  {
    hide EscapeByte;
    if text == [] {
      assert [] + [b] == [b] && [b][1..] == [];
      assert Escape([b]) == EscapeByte(b) + Escape([]);
    } else {
      assert (text + [b])[1..] == text[1..] + [b];
      EscapeSnoc(text[1..], b);
    }
  }

  method AppendEscaped(out: Text, text: Text) returns (r: Text)
    ensures r == out + Quote(text)
  {
    hide Escape;
    r := out + [QUOTE];
    assert Escape([]) == [] by { EscapeEmpty(); }
    for index := 0 to |text|
      invariant r == out + [QUOTE] + Escape(text[..index])
    {
      var b := text[index];
      EscapeSnoc(text[..index], b);
      assert text[..index + 1] == text[..index] + [b];
      var n := b as int;
      if b == QUOTE {
        r := r + [BACKSLASH, QUOTE];
      } else if b == BACKSLASH {
        r := r + [BACKSLASH, BACKSLASH];
      } else if n == 8 {
        r := r + "\\b";
      } else if n == 12 {
        r := r + "\\f";
      } else if n == 10 {
        r := r + "\\n";
      } else if n == 13 {
        r := r + "\\r";
      } else if n == 9 {
        r := r + "\\t";
      } else if n < 0x20 {
        r := r + "\\u00" + [HexDigit(n / 16), HexDigit(n % 16)];
      } else {
        r := r + [b];
      }
    }
    assert text[..|text|] == text;
    r := r + [QUOTE];
  }

  lemma EscapeEmpty()
    ensures Escape([]) == []
  {}

  lemma {:induction false} HexSnoc(octets: Text, b: byte)
    ensures Hex(octets + [b]) == Hex(octets) + [HexDigit(b as int / 16), HexDigit(b as int % 16)]
  {
    hide HexDigit;
    if octets == [] {
      assert [] + [b] == [b] && [b][1..] == [];
    } else {
      assert (octets + [b])[1..] == octets[1..] + [b];
      HexSnoc(octets[1..], b);
    }
  }

  method ToHex(octets: Text) returns (r: Text)
    ensures r == Hex(octets)
  {
    r := [];
    for index := 0 to |octets|
      invariant r == Hex(octets[..index])
    {
      HexSnoc(octets[..index], octets[index]);
      assert octets[..index + 1] == octets[..index] + [octets[index]];
      r := r + [HexDigit(octets[index] as int / 16), HexDigit(octets[index] as int % 16)];
    }
    assert octets[..|octets|] == octets;
  }

  lemma {:induction false} ElementsSnoc(c: Codec, items: seq<Value>, v: Value, style: Style, depth: nat, first: bool)
    ensures Elements(c, items + [v], style, depth, first)
         == Elements(c, items, style, depth, first) + (if first && items == [] then [] else ",")
            + Gap(style, depth + 1) + Spell(c, v, style, depth + 1)
  {
    hide Spell, Gap;
    if items == [] {
      assert [] + [v] == [v] && [v][1..] == [];
    } else {
      assert (items + [v])[1..] == items[1..] + [v];
      ElementsSnoc(c, items[1..], v, style, depth, false);
    }
  }

  lemma {:induction false} FieldsSnoc(c: Codec, ms: seq<Member>, m: Member, style: Style, depth: nat, first: bool)
    ensures Fields(c, ms + [m], style, depth, first)
         == Fields(c, ms, style, depth, first) + (if first && ms == [] then [] else ",")
            + Gap(style, depth + 1) + Quote(m.name) + Colon(style) + Spell(c, m.value, style, depth + 1)
  {
    hide Spell, Gap, Quote, Colon;
    if ms == [] {
      assert [] + [m] == [m] && [m][1..] == [];
    } else {
      assert (ms + [m])[1..] == ms[1..] + [m];
      FieldsSnoc(c, ms[1..], m, style, depth, false);
    }
  }

  method WriteCompact(c: Codec, out: Text, v: Value, depth: nat) returns (r: Text)
    ensures r == out + Spell(c, v, Compact, depth)
    decreases v, 1
  {
    hide Spell, Elements, Fields, Gap, Hex;
    match v {
      case Bytes(octets) =>
        r := WriteBytes(out, octets);
        SpelledBytes(c, octets, Compact, depth);
      case List(items) =>
        SpelledList(c, out, items, Compact, depth);
        NoGap(depth);
        NothingWritten(c, Compact, depth);
        r := WriteItems(c, out + "[", items, Compact, depth);
        assert items == [] ==> r == out + "[";
        r := r + "]";
      case Map(members) =>
        SpelledMap(c, out, members, Compact, depth);
        NoGap(depth);
        NothingWritten(c, Compact, depth);
        r := WriteFields(c, out + "{", members, Compact, depth);
        assert members == [] ==> r == out + "{";
        r := r + "}";
      case _ =>
        r := WriteScalar(c, out, v, depth);
    }
  }

  method WriteBytes(out: Text, octets: Text) returns (r: Text)
    ensures r == out + ("{" + Quote(BYTES_MEMBER) + ":" + [QUOTE] + Hex(octets) + [QUOTE] + "}")
  {
    hide Hex, Quote;
    var hex := ToHex(octets);
    r := AppendEscaped(out + "{", BYTES_MEMBER);
    r := r + ":" + [QUOTE] + hex + [QUOTE] + "}";
  }

  lemma SpelledBytes(c: Codec, octets: Text, style: Style, depth: nat)
    ensures Spell(c, Bytes(octets), style, depth)
         == "{" + Quote(BYTES_MEMBER) + ":" + [QUOTE] + Hex(octets) + [QUOTE] + "}"
  {
    hide Hex, Quote;
  }

  method WriteScalar(c: Codec, out: Text, v: Value, depth: nat) returns (r: Text)
    requires !v.Bytes? && !v.List? && !v.Map?
    ensures r == out + Spell(c, v, Compact, depth)
  {
    hide Quote, Integer;
    match v {
      case Null => r := out + "null";
      case Bool(b) => r := out + if b then "true" else "false";
      case Int(i) => r := out + Integer(i);
      case Uint(n) => r := out + Integer(n);
      case Double(d) => r := out + c.showDouble(d);
      case String(text) => r := AppendEscaped(out, text);
    }
  }

  method WritePretty(c: Codec, out: Text, v: Value, depth: nat, width: nat) returns (r: Text)
    ensures r == out + Spell(c, v, Pretty(width), depth)
    decreases v, 2
  {
    hide Spell, Elements, Fields, Gap;
    NothingWritten(c, Pretty(width), depth);
    match v {
      case List(items) =>
        SpelledList(c, out, items, Pretty(width), depth);
        if items == [] { return out + "[]"; }
        r := WriteItems(c, out + "[", items, Pretty(width), depth);
        r := WriteIndent(r, width, depth);
        r := r + "]";
      case Map(members) =>
        SpelledMap(c, out, members, Pretty(width), depth);
        if members == [] { return out + "{}"; }
        r := WriteFields(c, out + "{", members, Pretty(width), depth);
        r := WriteIndent(r, width, depth);
        r := r + "}";
      case _ =>
        r := WriteCompact(c, out, v, depth);
        SpelledAlike(c, v, width, depth);
    }
  }

  lemma SpelledList(c: Codec, out: Text, items: seq<Value>, style: Style, depth: nat)
    ensures out + Spell(c, List(items), style, depth)
         == if items == [] then out + "[]"
            else out + "[" + Elements(c, items, style, depth, true) + Gap(style, depth) + "]"
  {
    hide Elements, Gap;
    NothingWritten(c, style, depth);
  }

  lemma SpelledMap(c: Codec, out: Text, ms: seq<Member>, style: Style, depth: nat)
    ensures out + Spell(c, Map(ms), style, depth)
         == if ms == [] then out + "{}" else out + "{" + Fields(c, ms, style, depth, true) + Gap(style, depth) + "}"
  {
    hide Fields, Gap;
    NothingWritten(c, style, depth);
  }

  /** Scalars and byte strings are spelled alike in both styles. */
  lemma SpelledAlike(c: Codec, v: Value, width: nat, depth: nat)
    requires !v.List? && !v.Map?
    ensures Spell(c, v, Compact, depth) == Spell(c, v, Pretty(width), depth)
  {
    hide Quote, Hex, Integer;
  }

  lemma NothingWritten(c: Codec, style: Style, depth: nat)
    ensures Elements(c, [], style, depth, true) == [] && Fields(c, [], style, depth, true) == []
  {}

  method WriteIndent(out: Text, width: nat, depth: nat) returns (r: Text)
    ensures r == out + Gap(Pretty(width), depth)
  {
    if width == 0 { return out; }
    r := out + "\n";
    r := r + Spaces(width * depth);
  }

  /** The loop over the elements, shared by both styles. */
  method WriteItems(c: Codec, out: Text, items: seq<Value>, style: Style, depth: nat) returns (r: Text)
    ensures r == out + Elements(c, items, style, depth, true)
    decreases items
  {
    hide Spell, Elements, Gap;
    r := out;
    NothingWritten(c, style, depth);
    for index := 0 to |items|
      invariant r == out + Elements(c, items[..index], style, depth, true)
    {
      ElementsSnoc(c, items[..index], items[index], style, depth, true);
      assert items[..index + 1] == items[..index] + [items[index]];
      if index != 0 { r := r + ","; }
      match style {
        case Compact =>
          NoGap(depth + 1);
          r := WriteCompact(c, r, items[index], depth + 1);
        case Pretty(width) =>
          r := WriteIndent(r, width, depth + 1);
          r := WritePretty(c, r, items[index], depth + 1, width);
      }
    }
    assert items[..|items|] == items;
  }

  lemma NoGap(depth: nat)
    ensures Gap(Compact, depth) == []
  {}

  method WriteFields(c: Codec, out: Text, ms: seq<Member>, style: Style, depth: nat) returns (r: Text)
    ensures r == out + Fields(c, ms, style, depth, true)
    decreases ms
  {
    hide Spell, Fields, Gap, Quote, Colon;
    r := out;
    NothingWritten(c, style, depth);
    for index := 0 to |ms|
      invariant r == out + Fields(c, ms[..index], style, depth, true)
    {
      FieldsSnoc(c, ms[..index], ms[index], style, depth, true);
      assert ms[..index + 1] == ms[..index] + [ms[index]];
      if index != 0 { r := r + ","; }
      r := WriteField(c, r, ms[index], style, depth);
    }
    assert ms[..|ms|] == ms;
  }

  method WriteField(c: Codec, out: Text, m: Member, style: Style, depth: nat) returns (r: Text)
    ensures r == out + Gap(style, depth + 1) + Quote(m.name) + Colon(style) + Spell(c, m.value, style, depth + 1)
    decreases m
  {
    hide Spell, Gap, Quote;
    match style {
      case Compact =>
        NoGap(depth + 1);
        r := AppendEscaped(out, m.name);
        r := r + ":";
        r := WriteCompact(c, r, m.value, depth + 1);
      case Pretty(width) =>
        r := WriteIndent(out, width, depth + 1);
        r := AppendEscaped(r, m.name);
        r := r + ": ";
        r := WritePretty(c, r, m.value, depth + 1, width);
    }
  }
}
