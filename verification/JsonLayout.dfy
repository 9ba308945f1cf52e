/** White space in written documents: the pretty text is the compact one spread out, and the
    compact one has none to spare. */
module JsonLayout {
  import opened Core
  import opened Values
  import opened Json

  /** A text without the white space outside its strings. */
  function Squeezed(t: Text, quoted: bool): Text
    decreases |t|
  {
    if t == [] then []
    else if quoted && t[0] as int == 92 && |t| >= 2 then t[..2] + Squeezed(t[2..], true)
    else if t[0] as int == 34 then [t[0]] + Squeezed(t[1..], !quoted)
    else if !quoted && t[0] as int in {9, 10, 13, 32} then Squeezed(t[1..], false)
    else [t[0]] + Squeezed(t[1..], quoted)
  }

  /** Whatever follows, the piece is squeezed into the other, and ends outside strings. */
  ghost predicate Becomes(p: Text, q: Text) {
    forall tail :: Squeezed(p + tail, false) == q + Squeezed(tail, false)
  }

  predicate Bare(t: Text) { forall i :: 0 <= i < |t| ==> t[i] as int !in {9, 10, 13, 32, 34} }

  lemma Then(p: Text, q: Text, r: Text, s: Text)
    requires Becomes(p, q) && Becomes(r, s)
    ensures Becomes(p + r, q + s)
  {
    hide Squeezed;
    forall tail
      ensures Squeezed(p + r + tail, false) == q + s + Squeezed(tail, false)
    {
      assert p + r + tail == p + (r + tail);
      assert q + (s + Squeezed(tail, false)) == q + s + Squeezed(tail, false);
    }
  }

  lemma {:induction false} BareBefore(p: Text, tail: Text)
    requires Bare(p)
    ensures Squeezed(p + tail, false) == p + Squeezed(tail, false)
  {
    if p == [] {
      assert p + tail == tail;
    } else {
      BareBefore(p[1..], tail);
      assert (p + tail)[1..] == p[1..] + tail;
      assert [p[0]] + (p[1..] + Squeezed(tail, false)) == p + Squeezed(tail, false);
    }
  }

  lemma BareKept(p: Text)
    requires Bare(p)
    ensures Becomes(p, p)
  {
    hide Squeezed, Bare;
    forall tail
      ensures Squeezed(p + tail, false) == p + Squeezed(tail, false)
    {
      BareBefore(p, tail);
    }
  }

  predicate Blank(t: Text) { forall i :: 0 <= i < |t| ==> t[i] as int in {10, 32} }

  lemma {:induction false} BlankGone(p: Text)
    requires Blank(p)
    ensures Becomes(p, [])
  {
    forall tail
      ensures Squeezed(p + tail, false) == [] + Squeezed(tail, false)
    {
      if p == [] {
        assert p + tail == tail;
      } else {
        BlankGone(p[1..]);
        assert (p + tail)[1..] == p[1..] + tail;
        assert Squeezed(p[1..] + tail, false) == [] + Squeezed(tail, false);
      }
    }
  }

  /** Inside a string nothing is dropped, and an escaped quote does not end it. */
  lemma {:induction false} EscapeKept(text: Text, tail: Text)
    ensures Squeezed(Escape(text) + tail, true) == Escape(text) + Squeezed(tail, true)
  {
    hide EscapeByte;
    if text == [] {
      assert Escape(text) + tail == tail;
    } else {
      var e, rest := EscapeByte(text[0]), Escape(text[1..]);
      assert Escape(text) + tail == e + (rest + tail);
      EscapeKept(text[1..], tail);
      ByteKept(text[0], rest + tail);
      assert e + (rest + Squeezed(tail, true)) == e + rest + Squeezed(tail, true);
    }
  }

  lemma ByteKept(c: byte, tail: Text)
    ensures Squeezed(EscapeByte(c) + tail, true) == EscapeByte(c) + Squeezed(tail, true)
  {
    var e := EscapeByte(c);
    EscapeShape(c);
    if |e| == 1 {
      assert (e + tail)[1..] == tail;
    } else {
      assert (e + tail)[..2] == e[..2] && (e + tail)[2..] == e[2..] + tail;
      PlainKept(e[2..], tail);
      assert e == e[..2] + e[2..];
      assert e[..2] + (e[2..] + Squeezed(tail, true)) == e + Squeezed(tail, true);
    }
  }

  predicate Unmarked(t: Text) { forall i :: 0 <= i < |t| ==> t[i] as int !in {34, 92} }

  lemma EscapeShape(c: byte)
    ensures var e := EscapeByte(c);
            (|e| == 1 && Unmarked(e)) || (|e| >= 2 && e[0] as int == 92 && Unmarked(e[2..]))
  {}

  lemma {:induction false} PlainKept(p: Text, tail: Text)
    requires Unmarked(p)
    ensures Squeezed(p + tail, true) == p + Squeezed(tail, true)
  {
    if p == [] {
      assert p + tail == tail;
    } else {
      PlainKept(p[1..], tail);
      assert (p + tail)[1..] == p[1..] + tail;
    }
  }

  lemma Opens(t: Text)
    ensures Squeezed([QUOTE] + t, false) == [QUOTE] + Squeezed(t, true)
    ensures Squeezed([QUOTE] + t, true) == [QUOTE] + Squeezed(t, false)
  {
    assert ([QUOTE] + t)[1..] == t;
  }

  lemma QuoteKept(text: Text)
    ensures Becomes(Quote(text), Quote(text))
  {
    hide Squeezed, Escape;
    forall tail
      ensures Squeezed(Quote(text) + tail, false) == Quote(text) + Squeezed(tail, false)
    {
      var e, t, q := Escape(text), [QUOTE] + tail, Squeezed(tail, false);
      Opens(e + t);
      EscapeKept(text, t);
      Opens(tail);
      assert Quote(text) + tail == [QUOTE] + (e + t);
      assert [QUOTE] + (e + ([QUOTE] + q)) == Quote(text) + q;
    }
  }

  lemma GapGone(style: Style, depth: nat)
    ensures Becomes(Gap(style, depth), []) && Gap(Compact, depth) == []
  {
    BlankGone(Gap(style, depth));
  }

  lemma ColonKept(style: Style)
    ensures Becomes(Colon(style), Colon(Compact))
  {
    hide Becomes;
    BareKept(":");
    BlankGone(" ");
    Then(":", ":", " ", []);
    assert ":" + " " == ": " && ":" + [] == ":";
  }

  lemma NumeralBare(i: int)
    ensures Bare(Integer(i))
  {}

  lemma {:induction false} HexBare(octets: Text)
    ensures Bare(Hex(octets))
  {
    if octets != [] {
      HexBare(octets[1..]);
    }
  }

  /** Texts of doubles hold no white space and no quotes. */
  ghost predicate PlainDoubles(c: Codec) { forall d :: Bare(c.showDouble(d)) }

  /** Without its white space any text of a value is its compact text; so the compact text
      has no white space outside strings. */
  lemma {:induction false} SqueezedIsCompact(c: Codec, v: Value, style: Style, depth: nat)
    requires PlainDoubles(c)
    ensures Becomes(Spell(c, v, style, depth), Spell(c, v, Compact, depth))
    decreases v, 1
  {
    hide Becomes, Bare, Quote, Hex, Gap, Integer;
    match v {
      case Int(i) =>
        NumeralBare(i);
        BareKept(Integer(i));
      case Uint(n) =>
        NumeralBare(n);
        BareKept(Integer(n));
      case Double(d) => BareKept(c.showDouble(d));
      case String(text) => QuoteKept(text);
      case Bytes(octets) => BytesKept(octets);
      case List(items) =>
        ItemsKept(c, items, style, depth, true);
        ListKept(c, items, style, depth);
      case Map(members) =>
        MembersKept(c, members, style, depth, true);
        MapKept(c, members, style, depth);
      case _ => WordsKept();
    }
  }

  lemma WordsKept()
    ensures Becomes("null", "null") && Becomes("true", "true") && Becomes("false", "false")
  {
    BareKept("null");
    BareKept("true");
    BareKept("false");
  }

  lemma BytesKept(octets: Text)
    ensures
      var t := "{" + Quote(BYTES_MEMBER) + ":" + [QUOTE] + Hex(octets) + [QUOTE] + "}";
      Becomes(t, t)
  {
    HexEscapes(octets);
    QuoteKept(BYTES_MEMBER);
    QuoteKept(Hex(octets));
    hide Becomes, Quote, Hex;
    var name, hex := Quote(BYTES_MEMBER), Quote(Hex(octets));
    BareKept("{");
    BareKept(":");
    BareKept("}");
    Then("{", "{", name, name);
    Then("{" + name, "{" + name, ":", ":");
    Then("{" + name + ":", "{" + name + ":", hex, hex);
    Then("{" + name + ":" + hex, "{" + name + ":" + hex, "}", "}");
    assert "{" + name + ":" + hex + "}" == "{" + name + ":" + [QUOTE] + Hex(octets) + [QUOTE] + "}";
  }

  lemma {:induction false} HexEscapes(octets: Text)
    ensures Quote(Hex(octets)) == [QUOTE] + Hex(octets) + [QUOTE]
  {
    HexPlain(octets);
    SelfEscaped(Hex(octets));
  }

  predicate NeedsNoEscape(t: Text) { forall i :: 0 <= i < |t| ==> t[i] as int >= 48 && t[i] as int != 92 }

  lemma {:induction false} HexPlain(octets: Text)
    ensures NeedsNoEscape(Hex(octets))
  {
    if octets != [] {
      HexPlain(octets[1..]);
    }
  }

  lemma {:induction false} SelfEscaped(t: Text)
    requires NeedsNoEscape(t)
    ensures Escape(t) == t
  {
    if t != [] {
      SelfEscaped(t[1..]);
      assert EscapeByte(t[0]) == [t[0]];
    }
  }

  lemma {:induction false} ItemsKept(c: Codec, items: seq<Value>, style: Style, depth: nat, first: bool)
    requires PlainDoubles(c)
    ensures Becomes(Elements(c, items, style, depth, first), Elements(c, items, Compact, depth, first))
    decreases items, 0
  {
    hide Becomes, PlainDoubles, Gap, Spell;
    if items == [] {
      NothingKept();
    } else {
      var comma := if first then [] else ",";
      CommaKept(first);
      GapGone(style, depth + 1);
      SqueezedIsCompact(c, items[0], style, depth + 1);
      ItemsKept(c, items[1..], style, depth, false);
      var g := Gap(style, depth + 1);
      var x, y := Spell(c, items[0], style, depth + 1), Spell(c, items[0], Compact, depth + 1);
      var a, b := Elements(c, items[1..], style, depth, false), Elements(c, items[1..], Compact, depth, false);
      Four(comma, comma, g, [], x, y, a, b);
      assert Elements(c, items, style, depth, first) == comma + g + x + a;
      assert Elements(c, items, Compact, depth, first) == comma + [] + y + b;
    }
  }

  lemma NothingKept()
    ensures Becomes([], [])
  {
    BareKept([]);
  }

  lemma CommaKept(first: bool)
    ensures var comma := if first then [] else ","; Becomes(comma, comma)
  {
    BareKept(if first then [] else ",");
  }

  lemma Four(a: Text, b: Text, d: Text, e: Text, f: Text, g: Text, h: Text, i: Text)
    requires Becomes(a, b) && Becomes(d, e) && Becomes(f, g) && Becomes(h, i)
    ensures Becomes(a + d + f + h, b + e + g + i)
  {
    hide Becomes;
    Then(a, b, d, e);
    Then(a + d, b + e, f, g);
    Then(a + d + f, b + e + g, h, i);
  }

  lemma {:induction false} MembersKept(c: Codec, members: seq<Member>, style: Style, depth: nat, first: bool)
    requires PlainDoubles(c)
    ensures Becomes(Fields(c, members, style, depth, first), Fields(c, members, Compact, depth, first))
    decreases members, 0
  {
    hide Becomes, PlainDoubles, Gap, Spell, Quote, Colon, Fields;
    if members == [] {
      NoFields(c, style, depth, first);
      NoFields(c, Compact, depth, first);
      NothingKept();
    } else {
      var comma, name := if first then [] else ",", Quote(members[0].name);
      CommaKept(first);
      GapGone(style, depth + 1);
      QuoteKept(members[0].name);
      ColonKept(style);
      SqueezedIsCompact(c, members[0].value, style, depth + 1);
      MembersKept(c, members[1..], style, depth, false);
      Six(comma, comma, Gap(style, depth + 1), [], name, name, Colon(style), Colon(Compact),
          Spell(c, members[0].value, style, depth + 1), Spell(c, members[0].value, Compact, depth + 1),
          Fields(c, members[1..], style, depth, false), Fields(c, members[1..], Compact, depth, false));
      assert Gap(Compact, depth + 1) == [];
      FirstField(c, members, style, depth, first);
      FirstField(c, members, Compact, depth, first);
    }
  }

  lemma NoFields(c: Codec, style: Style, depth: nat, first: bool)
    ensures Fields(c, [], style, depth, first) == []
  {}

  lemma FirstField(c: Codec, members: seq<Member>, style: Style, depth: nat, first: bool)
    requires members != []
    ensures Fields(c, members, style, depth, first)
         == (if first then [] else ",") + Gap(style, depth + 1) + Quote(members[0].name) + Colon(style)
            + Spell(c, members[0].value, style, depth + 1) + Fields(c, members[1..], style, depth, false)
  {
    hide Gap, Spell, Quote, Colon;
  }

  lemma Six(a: Text, b: Text, d: Text, e: Text, f: Text, g: Text, h: Text, i: Text, j: Text, k: Text, l: Text, m: Text)
    requires Becomes(a, b) && Becomes(d, e) && Becomes(f, g) && Becomes(h, i) && Becomes(j, k) && Becomes(l, m)
    ensures Becomes(a + d + f + h + j + l, b + e + g + i + k + m)
  {
    hide Becomes;
    Four(a, b, d, e, f, g, h, i);
    Then(a + d + f + h, b + e + g + i, j, k);
    Then(a + d + f + h + j, b + e + g + i + k, l, m);
  }

  lemma ListKept(c: Codec, items: seq<Value>, style: Style, depth: nat)
    requires Becomes(Elements(c, items, style, depth, true), Elements(c, items, Compact, depth, true))
    ensures Becomes(Spell(c, List(items), style, depth), Spell(c, List(items), Compact, depth))
  {
    hide Becomes, Elements, Gap;
    var g := if items == [] then [] else Gap(style, depth);
    NothingKept();
    GapGone(style, depth);
    BareKept("[");
    BareKept("]");
    Four("[", "[", Elements(c, items, style, depth, true), Elements(c, items, Compact, depth, true), g, [], "]", "]");
  }

  lemma MapKept(c: Codec, members: seq<Member>, style: Style, depth: nat)
    requires Becomes(Fields(c, members, style, depth, true), Fields(c, members, Compact, depth, true))
    ensures Becomes(Spell(c, Map(members), style, depth), Spell(c, Map(members), Compact, depth))
  {
    hide Becomes, Fields, Gap;
    var g := if members == [] then [] else Gap(style, depth);
    NothingKept();
    GapGone(style, depth);
    BareKept("{");
    BareKept("}");
    Four("{", "{", Fields(c, members, style, depth, true), Fields(c, members, Compact, depth, true), g, [], "}", "}");
  }

  /** The writers' texts, whole. */
  lemma WrittenSqueezed(c: Codec, v: Value, style: Style)
    requires PlainDoubles(c)
    ensures Squeezed(Spell(c, v, style, 0), false) == Spell(c, v, Compact, 0)
  {
    hide Spell, Squeezed;
    SqueezedIsCompact(c, v, style, 0);
    var s := Spell(c, v, style, 0);
    assert Squeezed(s + [], false) == Spell(c, v, Compact, 0) + Squeezed([], false) && s + [] == s;
    NothingSqueezed();
  }

  lemma NothingSqueezed()
    ensures Squeezed([], false) == []
  {}
}
