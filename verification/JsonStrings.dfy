/** The spellings of a string by section 7 of RFC 8259, and that the reader takes each of them
    for the text it spells, and nothing else for a text. */
module JsonStrings {
  import opened Core
  import opened Json
  import Utf8

  type scalar = Utf8.scalar

  // ----- how one character may be spelled

  /** One hexadecimal digit, in either case. */
  predicate HexIs(ch: byte, v: nat) {
    || (v < 10 && ch as int == 0x30 + v)
    || (10 <= v < 16 && (ch as int == 0x41 + (v - 10) || ch as int == 0x61 + (v - 10)))
  }

  /** Four digits, most significant first, after a backslash and a 'u'. */
  predicate CodeUnit(t: Text, u: nat) {
    && |t| == 6 && t[0] as int == 0x5C && t[1] == 'u' && u < 0x10000
    && HexIs(t[2], u / 4096) && HexIs(t[3], u / 256 % 16) && HexIs(t[4], u / 16 % 16) && HexIs(t[5], u % 16)
  }

  /** The two-character escapes, by the letter after the backslash. */
  predicate Shorthand(letter: int, c: int) {
    || (letter == 0x22 && c == 0x22) || (letter == 0x5C && c == 0x5C) || (letter == 0x2F && c == 0x2F)
    || (letter == 0x62 && c == 0x08) || (letter == 0x66 && c == 0x0C) || (letter == 0x6E && c == 0x0A)
    || (letter == 0x72 && c == 0x0D) || (letter == 0x74 && c == 0x09)
  }

  predicate Unescaped(c: int) { c >= 0x20 && c != 0x22 && c != 0x5C }

  predicate SpellsChar(t: Text, c: scalar) {
    || (Unescaped(c) && t == Utf8.Encode(c))
    || (|t| == 2 && t[0] as int == 0x5C && Shorthand(t[1] as int, c))
    || (c < 0x10000 && CodeUnit(t, c))
    || (c >= 0x10000 && |t| == 12 && CodeUnit(t[..6], 0xD800 + (c - 0x10000) / 0x400)
        && CodeUnit(t[6..], 0xDC00 + (c - 0x10000) % 0x400))
  }

  datatype Spelled = Spelled(text: Text, c: scalar)

  predicate Proper(ps: seq<Spelled>) { forall i :: 0 <= i < |ps| ==> SpellsChar(ps[i].text, ps[i].c) }

  function Written(ps: seq<Spelled>): Text { if ps == [] then [] else ps[0].text + Written(ps[1..]) }

  function Meant(ps: seq<Spelled>): seq<scalar> { if ps == [] then [] else [ps[0].c] + Meant(ps[1..]) }

  // ----- every spelling is read

  lemma HexRead(ch: byte, v: nat)
    requires HexIs(ch, v)
    ensures HexValue(ch) == Some(v)
  {}

  lemma UnitRead(t: Text, u: nat, rest: Text)
    requires CodeUnit(t, u)
    ensures ReadHex4((t + rest)[2..]) == Some(u) && (t + rest)[2..][4..] == rest
  {
    hide HexValue, HexIs;
    var s := (t + rest)[2..];
    assert s[0] == t[2] && s[1] == t[3] && s[2] == t[4] && s[3] == t[5];
    HexRead(t[2], u / 4096);
    HexRead(t[3], u / 256 % 16);
    HexRead(t[4], u / 16 % 16);
    HexRead(t[5], u % 16);
    HexSum(u);
  }

  lemma HexSum(u: nat)
    requires u < 0x10000
    ensures ((u / 4096 * 16 + u / 256 % 16) * 16 + u / 16 % 16) * 16 + u % 16 == u
  {
    assert u / 4096 * 16 + u / 256 % 16 == u / 256;
    assert u / 256 * 16 + u / 16 % 16 == u / 16;
  }

  /** What a spelling that begins with a backslash is read as. */
  lemma EscapeMeans(t: Text, c: scalar, rest: Text)
    requires SpellsChar(t, c) && !(Unescaped(c) && t == Utf8.Encode(c))
    ensures t != [] && t[0] == BACKSLASH && ReadEscape((t + rest)[1..]) == StrOk(Utf8.Encode(c), rest)
  {
    hide ReadHex4, HexIs, Unescaped, Utf8.Encode, ReadEscape, Shorthand;
    if |t| == 2 {
      ShortRead(t, c, rest);
    } else if c < 0x10000 {
      OneUnit(t, c, rest);
    } else {
      TwoUnits(t, c, rest);
    }
  }

  lemma ShortRead(t: Text, c: scalar, rest: Text)
    requires |t| == 2 && t[0] as int == 0x5C && Shorthand(t[1] as int, c)
    ensures t[0] == BACKSLASH && ReadEscape((t + rest)[1..]) == StrOk(Utf8.Encode(c), rest)
  {
    hide ReadUnicode;
    var s := (t + rest)[1..];
    assert s[0] == t[1] && s[1..] == rest;
    Ascii(c);
  }

  lemma Ascii(c: scalar)
    requires c < 0x80
    ensures Utf8.Encode(c) == [c as char]
  {}

  lemma OneUnit(t: Text, c: scalar, rest: Text)
    requires c < 0x10000 && CodeUnit(t, c)
    ensures t[0] == BACKSLASH && ReadEscape((t + rest)[1..]) == StrOk(Utf8.Encode(c), rest)
  {
    hide ReadHex4, HexIs, Utf8.Encode;
    var s := t + rest;
    UnitRead(t, c, rest);
    assert s[1..][0] == 'u' && s[1..][1..] == s[2..];
  }

  lemma TwoUnits(t: Text, c: scalar, rest: Text)
    requires c >= 0x10000 && |t| == 12
    requires CodeUnit(t[..6], 0xD800 + (c - 0x10000) / 0x400) && CodeUnit(t[6..], 0xDC00 + (c - 0x10000) % 0x400)
    ensures t[0] == BACKSLASH && ReadEscape((t + rest)[1..]) == StrOk(Utf8.Encode(c), rest)
  {
    hide ReadHex4, HexIs, Utf8.Encode;
    var s, high, low := t + rest, 0xD800 + (c - 0x10000) / 0x400, 0xDC00 + (c - 0x10000) % 0x400;
    assert s == t[..6] + (t[6..] + rest);
    UnitRead(t[..6], high, t[6..] + rest);
    UnitRead(t[6..], low, rest);
    assert s[1..][0] == 'u' && s[1..][1..] == s[2..];
    var u := s[2..];
    assert u[4] == t[6] && u[5] == t[7] && u[6..] == (t[6..] + rest)[2..];
    assert u[10..] == rest;
    assert 0x10000 + (high - 0xD800) * 1024 + (low - 0xDC00) == c;
  }

  /** The octets of an unescaped character are none that the reader stops at. */
  lemma PlainOctets(c: scalar)
    requires Unescaped(c)
    ensures forall i :: 0 <= i < |Utf8.Encode(c)| ==>
      var b := Utf8.Encode(c)[i]; b != QUOTE && b != BACKSLASH && b as int >= 0x20
  {}

  lemma {:induction false} PlainRead(c: Codec, t: Text, rest: Text, out: Text)
    requires |out| <= c.maxLeaf
    requires forall i :: 0 <= i < |t| ==> t[i] != QUOTE && t[i] != BACKSLASH && t[i] as int >= 0x20
    ensures ReadString(c, t + rest, out)
         == if |out| + |t| > c.maxLeaf then StrBad(LimitBytesExceeded) else ReadString(c, rest, out + t)
    decreases |t|
  {
    if t == [] {
      assert t + rest == rest && out + t == out;
    } else {
      var s := t + rest;
      assert s[0] == t[0] && s[1..] == t[1..] + rest;
      if |out| + 1 <= c.maxLeaf {
        PlainRead(c, t[1..], rest, out + [t[0]]);
        assert out + [t[0]] + t[1..] == out + t;
      }
    }
  }

  lemma CharRead(c: Codec, t: Text, ch: scalar, rest: Text, out: Text)
    requires SpellsChar(t, ch) && |out| <= c.maxLeaf
    ensures ReadString(c, t + rest, out)
         == if |out| + |Utf8.Encode(ch)| > c.maxLeaf then StrBad(LimitBytesExceeded)
            else ReadString(c, rest, out + Utf8.Encode(ch))
  {
    hide Utf8.Encode, ReadEscape, Utf8.Valid;
    if Unescaped(ch) && t == Utf8.Encode(ch) {
      PlainOctets(ch);
      PlainRead(c, t, rest, out);
    } else {
      EscapeMeans(t, ch, rest);
      assert (t + rest)[0] == t[0];
    }
  }

  lemma {:induction false} SpelledFrom(c: Codec, ps: seq<Spelled>, tail: Text, out: Text, before: seq<scalar>)
    requires Proper(ps) && out == Utf8.EncodeAll(before) && |out| <= c.maxLeaf
    ensures
      var text := out + Utf8.EncodeAll(Meant(ps));
      ReadString(c, Written(ps) + [QUOTE] + tail, out)
      == if |text| <= c.maxLeaf then StrOk(text, tail) else StrBad(LimitBytesExceeded)
    decreases |ps|
  {
    hide SpellsChar, Utf8.Encode, Utf8.Valid, Utf8.EncodeAll, ReadEscape;
    if ps == [] {
      assert Utf8.EncodeAll(Meant(ps)) == [] by { NothingMeant(); }
      var s := Written(ps) + [QUOTE] + tail;
      assert s[0] == QUOTE && s[1..] == tail && out + [] == out;
      Utf8.EncodedValid(before);
    } else {
      var p := ps[0];
      var rest := Written(ps[1..]) + [QUOTE] + tail;
      var more := out + Utf8.Encode(p.c);
      FirstSpelled(ps, tail, out);
      CharRead(c, p.text, p.c, rest, out);
      if |more| <= c.maxLeaf {
        EncodedMore(before, p.c);
        SpelledFrom(c, ps[1..], tail, more, before + [p.c]);
      }
    }
  }

  lemma NothingMeant()
    ensures Meant([]) == [] && Utf8.EncodeAll([]) == []
  {}

  lemma FirstSpelled(ps: seq<Spelled>, tail: Text, out: Text)
    requires ps != []
    ensures Written(ps) + [QUOTE] + tail == ps[0].text + (Written(ps[1..]) + [QUOTE] + tail)
    ensures out + Utf8.EncodeAll(Meant(ps)) == out + Utf8.Encode(ps[0].c) + Utf8.EncodeAll(Meant(ps[1..]))
  {
    hide Utf8.Encode;
    assert Meant(ps)[1..] == Meant(ps[1..]);
  }

  lemma {:induction false} EncodedMore(cs: seq<scalar>, c: scalar)
    ensures Utf8.EncodeAll(cs + [c]) == Utf8.EncodeAll(cs) + Utf8.Encode(c)
  {
    hide Utf8.Encode;
    if cs == [] {
      assert Utf8.EncodeAll([c]) == Utf8.Encode(c) + Utf8.EncodeAll([c][1..]);
      assert [] + [c] == [c];
    } else {
      EncodedMore(cs[1..], c);
      assert (cs + [c])[1..] == cs[1..] + [c] && (cs + [c])[0] == cs[0];
    }
  }

  /** Every spelling of every text, up to its closing quote, is read as exactly that text if it
      is within the limit on a leaf, and refused for its size otherwise. */
  lemma SpellingRead(c: Codec, ps: seq<Spelled>, tail: Text)
    requires Proper(ps)
    ensures
      var text := Utf8.EncodeAll(Meant(ps));
      ReadString(c, Written(ps) + [QUOTE] + tail, [])
      == if |text| <= c.maxLeaf then StrOk(text, tail) else StrBad(LimitBytesExceeded)
  {
    hide ReadString, Written, Meant, SpellsChar;
    SpelledFrom(c, ps, tail, [], []);
    assert [] + Utf8.EncodeAll(Meant(ps)) == Utf8.EncodeAll(Meant(ps));
  }

  // ----- and nothing else is

  /** The reader takes octets one by one, and escapes whole. */
  datatype Unit = Octet(b: byte) | Escaped(text: Text, c: scalar)

  predicate UnitOk(u: Unit) {
    match u
    case Octet(b) => b != QUOTE && b != BACKSLASH && b as int >= 0x20
    case Escaped(t, c) => t != [] && t[0] == BACKSLASH && SpellsChar(t, c)
  }

  predicate UnitsOk(us: seq<Unit>) { forall i :: 0 <= i < |us| ==> UnitOk(us[i]) }

  function UnitText(u: Unit): Text { match u case Octet(b) => [b] case Escaped(t, _) => t }

  function UnitValue(u: Unit): (v: Text)
    ensures v != []
  {
    match u case Octet(b) => [b] case Escaped(_, c) => Utf8.Encode(c)
  }

  function UnitsText(us: seq<Unit>): Text { if us == [] then [] else UnitText(us[0]) + UnitsText(us[1..]) }

  function UnitsValue(us: seq<Unit>): Text { if us == [] then [] else UnitValue(us[0]) + UnitsValue(us[1..]) }

  lemma HexIsBack(ch: byte)
    requires HexValue(ch).Some?
    ensures HexIs(ch, HexValue(ch).value)
  {}

  lemma UnitBack(s: Text) returns (u: nat)
    requires ReadHex4(s).Some?
    ensures u == ReadHex4(s).value && CodeUnit([BACKSLASH, 'u'] + s[..4], u)
  {
    hide HexValue, HexIs;
    var a, b, d, e := HexValue(s[0]).value, HexValue(s[1]).value, HexValue(s[2]).value, HexValue(s[3]).value;
    u := ReadHex4(s).value;
    HexIsBack(s[0]);
    HexIsBack(s[1]);
    HexIsBack(s[2]);
    HexIsBack(s[3]);
    HexParts(a, b, d, e);
    var t := [BACKSLASH, 'u'] + s[..4];
    assert t[2] == s[0] && t[3] == s[1] && t[4] == s[2] && t[5] == s[3];
  }

  lemma HexParts(a: nat, b: nat, d: nat, e: nat)
    requires a < 16 && b < 16 && d < 16 && e < 16
    ensures
      var u := ((a * 16 + b) * 16 + d) * 16 + e;
      u < 0x10000 && u / 4096 == a && u / 256 % 16 == b && u / 16 % 16 == d && u % 16 == e
  {
    var u := ((a * 16 + b) * 16 + d) * 16 + e;
    assert u / 16 == (a * 16 + b) * 16 + d;
    assert u / 256 == a * 16 + b;
  }

  /** Whatever is read as an escape is one of the spellings of a character. */
  lemma EscapeBack(s: Text) returns (t: Text, c: scalar)
    requires ReadEscape(s).StrOk?
    ensures SpellsChar(t, c) && t != [] && t[0] == BACKSLASH
    ensures [BACKSLASH] + s == t + ReadEscape(s).rest && ReadEscape(s).text == Utf8.Encode(c)
  {
    hide ReadHex4, HexIs, Utf8.Encode;
    if s[0] == 'u' {
      t, c := UnicodeBack(s[1..]);
      assert [BACKSLASH] + s == [BACKSLASH, 'u'] + s[1..];
    } else {
      t, c := ShortBack(s);
    }
  }

  lemma ShortBack(s: Text) returns (t: Text, c: scalar)
    requires ReadEscape(s).StrOk? && s[0] != 'u'
    ensures SpellsChar(t, c) && t != [] && t[0] == BACKSLASH
    ensures [BACKSLASH] + s == t + ReadEscape(s).rest && ReadEscape(s).text == Utf8.Encode(c)
  {
    hide ReadUnicode, CodeUnit, Unescaped;
    var r := ReadEscape(s);
    c := r.text[0] as int;
    Ascii(c);
    t := [BACKSLASH, s[0]];
  }

  lemma UnicodeBack(s: Text) returns (t: Text, c: scalar)
    requires ReadUnicode(s).StrOk?
    ensures SpellsChar(t, c) && t != [] && t[0] == BACKSLASH
    ensures [BACKSLASH, 'u'] + s == t + ReadUnicode(s).rest && ReadUnicode(s).text == Utf8.Encode(c)
  {
    hide ReadHex4, CodeUnit, Utf8.Encode, Unescaped, Shorthand;
    var h := UnitBack(s);
    var first := [BACKSLASH, 'u'] + s[..4];
    if 0xD800 <= h <= 0xDBFF {
      var l := UnitBack(s[6..]);
      var second := [BACKSLASH, 'u'] + s[6..][..4];
      c := 0x10000 + (h - 0xD800) * 1024 + (l - 0xDC00);
      t := first + second;
      assert t[..6] == first && t[6..] == second by { UnitLength(first, h); }
      assert (c - 0x10000) / 0x400 == h - 0xD800 && (c - 0x10000) % 0x400 == l - 0xDC00;
      UnitLength(first, h);
      UnitLength(second, l);
      Halves(s);
    } else {
      c := h;
      t := first;
    }
  }

  lemma UnitLength(t: Text, u: nat)
    requires CodeUnit(t, u)
    ensures |t| == 6
  {}

  lemma Halves(s: Text)
    requires |s| >= 10 && s[4] == BACKSLASH && s[5] == 'u'
    ensures [BACKSLASH, 'u'] + s == [BACKSLASH, 'u'] + s[..4] + ([BACKSLASH, 'u'] + s[6..][..4]) + s[10..]
  {}

  lemma {:induction false} UnitsRead(c: Codec, s: Text, out: Text) returns (us: seq<Unit>)
    requires ReadString(c, s, out).StrOk?
    ensures UnitsOk(us) && s == UnitsText(us) + [QUOTE] + ReadString(c, s, out).rest
    ensures ReadString(c, s, out).text == out + UnitsValue(us)
    decreases |s|
  {
    hide ReadEscape, SpellsChar, Utf8.Encode, Utf8.Valid, UnitsText, UnitsValue;
    if s[0] == QUOTE {
      us := [];
      assert UnitsText([]) == [] && UnitsValue([]) == [] by { UnitsEmpty(); }
      assert s == [s[0]] + s[1..] && out + [] == out;
    } else if s[0] == BACKSLASH {
      var e := ReadEscape(s[1..]);
      var t, ch := EscapeBack(s[1..]);
      var more := UnitsRead(c, e.rest, out + e.text);
      us := [Escaped(t, ch)] + more;
      UnitsFirst(us);
      assert us[1..] == more && s == [BACKSLASH] + s[1..];
    } else {
      var more := UnitsRead(c, s[1..], out + [s[0]]);
      us := [Octet(s[0])] + more;
      UnitsFirst(us);
      assert us[1..] == more && s == [s[0]] + s[1..];
    }
  }

  /** No encoding begins with a continuation octet. */
  lemma LeadsFirst(c: scalar)
    ensures !Utf8.Continuation(Utf8.Encode(c)[0])
  {}

  lemma UnitsFirst(us: seq<Unit>)
    requires us != []
    ensures UnitsText(us) == UnitText(us[0]) + UnitsText(us[1..]) && UnitsValue(us) == UnitValue(us[0]) + UnitsValue(us[1..])
  {}

  /** The octets that continue a character are single octets. */
  lemma {:induction false} Singles(us: seq<Unit>, n: nat)
    requires UnitsOk(us) && n <= |UnitsValue(us)|
    requires forall i :: 0 <= i < n ==> Utf8.Continuation(UnitsValue(us)[i])
    ensures n <= |us|
    ensures UnitsText(us) == UnitsValue(us)[..n] + UnitsText(us[n..]) && UnitsValue(us)[n..] == UnitsValue(us[n..])
    decreases n
  {
    hide SpellsChar, Utf8.Encode, Utf8.Continuation, UnitsText, UnitsValue;
    var v := UnitsValue(us);
    if n > 0 {
      assert us != [] by { NoUnits(us); }
      UnitsFirst(us);
      assert v[0] == UnitValue(us[0])[0];
      if us[0].Escaped? { LeadsFirst(us[0].c); }
      assert us[0].Octet?;
      assert v[1..] == UnitsValue(us[1..]);
      Singles(us[1..], n - 1);
      assert us[1..][n - 1..] == us[n..];
      assert v[..n] == [us[0].b] + v[1..][..n - 1] && v[n..] == v[1..][n - 1..];
    } else {
      assert us[0..] == us && v[..0] == [] && v[0..] == v && [] + UnitsText(us) == UnitsText(us);
    }
  }

  lemma UnitsEmpty()
    ensures UnitsText([]) == [] && UnitsValue([]) == []
  {}

  lemma NoUnits(us: seq<Unit>)
    ensures us == [] ==> UnitsValue(us) == []
  {}

  /** A valid text read unit by unit is a text spelled character by character. */
  lemma {:induction false} Aligned(us: seq<Unit>) returns (ps: seq<Spelled>)
    requires UnitsOk(us) && Utf8.Valid(UnitsValue(us))
    ensures Proper(ps) && Written(ps) == UnitsText(us) && Utf8.EncodeAll(Meant(ps)) == UnitsValue(us)
    decreases |us|
  {
    hide SpellsChar, Utf8.Encode, Utf8.First, Utf8.Continuation;
    if us == [] {
      ps := [];
    } else {
      var p, n := FirstCharacter(us);
      var rest := Aligned(us[n..]);
      ps := [p] + rest;
      assert ps[1..] == rest;
      assert Meant(ps) == [p.c] + Meant(rest) && Meant(ps)[1..] == Meant(rest);
    }
  }

  lemma FirstCharacter(us: seq<Unit>) returns (p: Spelled, n: nat)
    requires us != [] && UnitsOk(us) && Utf8.Valid(UnitsValue(us))
    ensures 0 < n <= |us| && SpellsChar(p.text, p.c) && UnitsOk(us[n..]) && Utf8.Valid(UnitsValue(us[n..]))
    ensures UnitsText(us) == p.text + UnitsText(us[n..]) && UnitsValue(us) == Utf8.Encode(p.c) + UnitsValue(us[n..])
  {
    hide Utf8.Encode, SpellsChar, Utf8.Valid, UnitsText, UnitsValue;
    UnitsFirst(us);
    if us[0].Escaped? {
      p, n := Spelled(us[0].text, us[0].c), 1;
      EncodedHead(us[0].c, UnitsValue(us[1..]));
    } else {
      p, n := FirstOctets(us);
    }
  }

  lemma FirstOctets(us: seq<Unit>) returns (p: Spelled, n: nat)
    requires us != [] && us[0].Octet? && UnitsOk(us) && Utf8.Valid(UnitsValue(us))
    ensures 0 < n <= |us| && SpellsChar(p.text, p.c) && Utf8.Valid(UnitsValue(us[n..]))
    ensures UnitsText(us) == p.text + UnitsText(us[n..]) && UnitsValue(us) == Utf8.Encode(p.c) + UnitsValue(us[n..])
  {
    hide Utf8.Encode, SpellsChar, Utf8.Continuation, Utf8.First, Utf8.Valid, UnitsText, UnitsValue;
    var v := UnitsValue(us);
    UnitsFirst(us);
    n := HeadOctets(v);
    var c := Utf8.FirstEncoded(v);
    p := Spelled(v[..n], c);
    assert v[1..] == UnitsValue(us[1..]);
    Singles(us[1..], n - 1);
    assert us[1..][n - 1..] == us[n..];
    assert v[..n] == [v[0]] + v[1..][..n - 1] && v[n..] == v[1..][n - 1..];
    assert v == v[..n] + v[n..];
    OctetsUnescaped(us, v[..n], c);
  }

  lemma EncodedHead(c: scalar, rest: Text)
    requires Utf8.Valid(Utf8.Encode(c) + rest)
    ensures Utf8.Valid(rest)
  {
    hide Utf8.Encode, Utf8.First;
    Utf8.EncodedFirst(c, rest);
    assert (Utf8.Encode(c) + rest)[|Utf8.Encode(c)|..] == rest;
  }

  lemma HeadOctets(v: Text) returns (m: nat)
    requires v != [] && Utf8.Valid(v)
    ensures 1 <= m <= |v| && Utf8.First(v) == Some(m) && Utf8.Valid(v[m..])
    ensures forall i :: 1 <= i < m ==> Utf8.Continuation(v[i])
  {
    hide Utf8.Gather, Utf8.Shortest, Utf8.Scalar, Utf8.Extra;
    m := Utf8.First(v).value;
  }

  lemma OctetsUnescaped(us: seq<Unit>, t: Text, c: scalar)
    requires UnitsOk(us) && us != [] && us[0].Octet? && t != [] && t[0] == us[0].b && t == Utf8.Encode(c)
    ensures SpellsChar(t, c)
  {
    assert UnitOk(us[0]);
    hide CodeUnit, Shorthand;
    assert c < 0x80 ==> t[0] as int == c;
  }

  /** The reader takes a text for a string exactly if it is a spelling of it and within the
      limit on a leaf. */
  lemma StringReadExactly(c: Codec, s: Text, text: Text, rest: Text)
    ensures ReadString(c, s, []) == StrOk(text, rest)
       <==> |text| <= c.maxLeaf
            && exists ps :: Proper(ps) && s == Written(ps) + [QUOTE] + rest && text == Utf8.EncodeAll(Meant(ps))
  {
    hide ReadString, Written, Meant, Proper, UnitsOk, UnitsText, UnitsValue, Utf8.Valid, Utf8.EncodeAll;
    if ReadString(c, s, []) == StrOk(text, rest) {
      var us := UnitsRead(c, s, []);
      assert [] + UnitsValue(us) == UnitsValue(us);
      var ps := Aligned(us);
      assert s == Written(ps) + [QUOTE] + rest && text == Utf8.EncodeAll(Meant(ps));
    }
    forall ps | Proper(ps) && s == Written(ps) + [QUOTE] + rest && text == Utf8.EncodeAll(Meant(ps)) && |text| <= c.maxLeaf
      ensures ReadString(c, s, []) == StrOk(text, rest)
    {
      SpellingRead(c, ps, rest);
    }
  }
}
