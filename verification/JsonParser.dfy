/** The parser as the program runs it: a position and a node count over one text. */
module JsonParser {
  import opened Core
  import opened Values
  import opened Decimals
  import opened Json
  import Utf8

  lemma SkipTwice(s: Text)
    ensures SkipSpace(SkipSpace(s)) == SkipSpace(s)
  {}

  class Parser {
    const text: Text
    const c: Codec
    var position: nat
    var nodes: nat

    ghost predicate Valid()
      reads this
    {
      position <= |text|
    }

    ghost function Suffix(): Text
      requires Valid()
      reads this
    {
      text[position..]
    }

    constructor (text: Text, c: Codec)
      ensures Valid() && position == 0 && nodes == 0 && this.text == text && this.c == c
    {
      this.text, this.c, position, nodes := text, c, 0, 0;
    }

    /** The method's result against the specification's. */
    ghost predicate Follows(r: Result<Value>, v: Val)
      requires Valid()
      reads this
    {
      if r.Err? then v == ValBad(r.reason) else v == ValOk(r.value, Suffix(), nodes)
    }

    method Parse() returns (r: Result<Value>)
      requires Valid() && position == 0 && nodes == 0 && |text| <= c.maxDocument
      modifies this
      ensures r == ParseJson(c, text)
    {
      hide SkipSpace, ReadValue;
      assert text[0..] == text;
      SkipWhitespace();
      if position >= |text| { return Err(EncodingMalformed); }
      r := ParseValue(0);
      if r.Err? { return r; }
      SkipWhitespace();
      if position != |text| { return Err(EncodingTrailingBytes); }
    }

    method SkipWhitespace()
      requires Valid()
      modifies this`position
      ensures Valid() && old(position) <= position && Suffix() == SkipSpace(old(Suffix()))
    {
      while position < |text|
        invariant Valid() && old(position) <= position && SkipSpace(Suffix()) == SkipSpace(old(Suffix()))
      {
        if Space(text[position]) {
          assert Suffix()[1..] == text[position + 1..];
          position := position + 1;
          continue;
        }
        return;
      }
    }

    method ParseValue(depth: nat) returns (r: Result<Value>)
      requires Valid()
      modifies this
      ensures Valid() && old(position) <= position && (r.Ok? ==> old(position) < position)
      ensures Follows(r, ReadValue(c, old(Suffix()), depth, old(nodes)))
      decreases |text| - position, 1
    {
      hide ReadMembers, ReadItems, ReadString, ReadNumber, SkipSpace, Finish;
      if depth > c.maxDepth { return Err(LimitDepthExceeded); }
      nodes := nodes + 1;
      if nodes > c.maxNodes { return Err(LimitObjectsExceeded); }
      if position >= |text| { return Err(EncodingMalformed); }
      var ch := text[position];
      if ch == '{' {
        r := ParseObject(depth);
      } else if ch == '[' {
        r := ParseArray(depth);
      } else if ch == QUOTE {
        var s := ParseString();
        r := if s.Err? then Err(s.reason) else Ok(String(s.value));
      } else if ch == 't' {
        r := ParseLiteral("true", Bool(true));
      } else if ch == 'f' {
        r := ParseLiteral("false", Bool(false));
      } else if ch == 'n' {
        r := ParseLiteral("null", Null);
      } else {
        r := ParseNumber();
      }
    }

    method ParseLiteral(literal: Text, v: Value) returns (r: Result<Value>)
      requires Valid() && literal != []
      modifies this`position
      ensures Valid() && old(position) <= position && (r.Ok? ==> old(position) < position)
      ensures Follows(r, ReadLiteral(old(Suffix()), literal, v, nodes))
    {
      if |text| - position < |literal| || text[position..position + |literal|] != literal {
        assert !(literal <= Suffix()) by {
          if |literal| <= |Suffix()| { assert Suffix()[..|literal|] == text[position..position + |literal|]; }
        }
        return Err(EncodingUnexpectedToken);
      }
      assert Suffix()[..|literal|] == text[position..position + |literal|];
      position := position + |literal|;
      assert Suffix() == old(Suffix())[|literal|..];
      return Ok(v);
    }

    method ParseArray(depth: nat) returns (r: Result<Value>)
      requires Valid() && position < |text| && text[position] == '['
      modifies this
      ensures Valid() && old(position) < position
      ensures
        var s := old(Suffix())[1..];
        var t := SkipSpace(s);
        Follows(r, if t != [] && t[0] == ']' then ValOk(List([]), t[1..], old(nodes))
                   else ReadItems(c, s, depth, old(nodes), []))
      decreases |text| - position, 0
    {
      hide SkipSpace, ReadValue, ReadItems;
      ghost var s := Suffix()[1..];
      position := position + 1;
      assert Suffix() == s;
      SkipWhitespace();
      if position < |text| && text[position] == ']' {
        assert Suffix()[1..] == text[position + 1..];
        position := position + 1;
        return Ok(List([]));
      }
      SkipTwice(s);
      ItemsFrom(c, s, depth, nodes, []);
      var list := [];
      while true
        invariant Valid() && old(position) < position
        invariant ReadItems(c, s, depth, old(nodes), []) == ReadItems(c, Suffix(), depth, nodes, list)
        decreases |text| - position
      {
        ItemsUnfold(c, Suffix(), depth, nodes, list);
        var e := ParseElement(depth);
        if e.Err? { return e; }
        list := list + [e.value];
        if |list| > c.maxNodes { return Err(LimitObjectsExceeded); }
        if position >= |text| { return Err(EncodingMalformed); }
        assert Suffix()[1..] == text[position + 1..];
        if text[position] == ',' {
          position := position + 1;
          continue;
        }
        if text[position] == ']' {
          position := position + 1;
          return Ok(List(list));
        }
        return Err(EncodingMalformed);
      }
    }

    /** One element with the space around it. */
    method ParseElement(depth: nat) returns (r: Result<Value>)
      requires Valid()
      modifies this
      ensures Valid() && old(position) <= position && (r.Ok? ==> old(position) < position)
      ensures
        var e := ReadValue(c, SkipSpace(old(Suffix())), depth + 1, old(nodes));
        if r.Err? then e == ValBad(r.reason)
        else e.ValOk? && e.value == r.value && e.nodes == nodes && Suffix() == SkipSpace(e.rest)
      decreases |text| - position, 2
    {
      hide SkipSpace, ReadValue;
      SkipWhitespace();
      r := ParseValue(depth + 1);
      if r.Ok? {
        SkipWhitespace();
      }
    }

    method ParseObject(depth: nat) returns (r: Result<Value>)
      requires Valid() && position < |text| && text[position] == '{'
      modifies this
      ensures Valid() && old(position) < position
      ensures
        var s := old(Suffix())[1..];
        var t := SkipSpace(s);
        Follows(r, if t != [] && t[0] == '}' then Close(Finish(c, []), t[1..], old(nodes))
                   else ReadMembers(c, s, depth, old(nodes), []))
      decreases |text| - position, 0
    {
      hide SkipSpace, ReadMember, Finish, InsertMember, ReadMembers, HasName;
      ghost var s := Suffix()[1..];
      position := position + 1;
      assert Suffix() == s;
      SkipWhitespace();
      if position < |text| && text[position] == '}' {
        assert Suffix()[1..] == text[position + 1..];
        position := position + 1;
        r := FinishObject([]);
        return r;
      }
      SkipTwice(s);
      MembersFrom(c, s, depth, nodes, []);
      var ms: seq<Member> := [];
      while true
        invariant Valid() && old(position) < position
        invariant ReadMembers(c, s, depth, old(nodes), []) == ReadMembers(c, Suffix(), depth, nodes, ms)
        decreases |text| - position
      {
        MembersUnfold(c, Suffix(), depth, nodes, ms);
        var e := ParseMember(depth);
        if e.Err? { return Err(e.reason); }
        if HasName(ms, e.value.name) { return Err(EncodingDuplicateKey); }
        InsertGrows(ms, e.value);
        ms := InsertMember(ms, e.value);
        if |ms| > c.maxFields { return Err(LimitFieldsExceeded); }
        SkipWhitespace();
        if position >= |text| { return Err(EncodingMalformed); }
        assert Suffix()[1..] == text[position + 1..];
        if text[position] == ',' {
          position := position + 1;
          continue;
        }
        if text[position] == '}' {
          position := position + 1;
          r := FinishObject(ms);
          return r;
        }
        return Err(EncodingMalformed);
      }
    }

    method ParseMember(depth: nat) returns (r: Result<Member>)
      requires Valid()
      modifies this
      ensures Valid() && old(position) <= position && (r.Ok? ==> old(position) < position)
      ensures
        var e := ReadMember(c, old(Suffix()), depth, old(nodes));
        if r.Err? then e == EntryBad(r.reason) else e == EntryOk(r.value, Suffix(), nodes)
      decreases |text| - position, 2
    {
      hide SkipSpace, ReadValue, ReadString;
      SkipWhitespace();
      if position >= |text| || text[position] != QUOTE { return Err(EncodingMalformed); }
      var key := ParseString();
      if key.Err? { return Err(key.reason); }
      if |key.value| > c.maxLeaf { return Err(LimitBytesExceeded); }
      SkipWhitespace();
      if position >= |text| || text[position] != ':' { return Err(EncodingMalformed); }
      assert Suffix()[1..] == text[position + 1..];
      position := position + 1;
      SkipWhitespace();
      var e := ParseValue(depth + 1);
      if e.Err? { return Err(e.reason); }
      return Ok(Member(key.value, e.value));
    }

    method FinishObject(ms: seq<Member>) returns (r: Result<Value>)
      ensures r == Finish(c, ms)
    {
      hide FromHex;
      if |ms| == 1 && ms[0].name == BYTES_MEMBER {
        if !ms[0].value.String? { return Err(EncodingMalformed); }
        var raw := DecodeHex(ms[0].value.text);
        if raw.None? { return Err(EncodingMalformed); }
        if |raw.value| > c.maxLeaf { return Err(LimitBytesExceeded); }
        return Ok(Bytes(raw.value));
      }
      return Ok(Map(ms));
    }

    /** From the opening quote to past the closing one. */
    method ParseString() returns (r: Result<Text>)
      requires Valid() && position < |text| && text[position] == QUOTE
      modifies this`position
      ensures Valid() && old(position) < position
      ensures
        var s := ReadString(c, old(Suffix())[1..], []);
        if r.Err? then s == StrBad(r.reason) else s == StrOk(r.value, Suffix())
    {
      hide Utf8.Valid, ReadEscape;
      ghost var s := Suffix()[1..];
      position := position + 1;
      assert Suffix() == s;
      var out: Text := [];
      while true
        invariant Valid() && old(position) < position
        invariant ReadString(c, s, []) == ReadString(c, Suffix(), out)
        decreases |text| - position
      {
        if position >= |text| { return Err(EncodingMalformed); }
        var ch := text[position];
        assert Suffix()[0] == ch && Suffix()[1..] == text[position + 1..];
        if ch == QUOTE {
          position := position + 1;
          var ok := Utf8.IsValidUtf8(out);
          if !ok { return Err(EncodingInvalidUtf8); }
          if |out| > c.maxLeaf { return Err(LimitBytesExceeded); }
          return Ok(out);
        }
        if ch == BACKSLASH {
          position := position + 1;
          var e := ParseEscape();
          if e.Err? { return Err(e.reason); }
          out := out + e.value;
          if |out| > c.maxLeaf { return Err(LimitBytesExceeded); }
          continue;
        }
        if ch as int < 0x20 { return Err(EncodingMalformed); }
        out := out + [ch];
        if |out| > c.maxLeaf { return Err(LimitBytesExceeded); }
        position := position + 1;
      }
    }

    method ParseEscape() returns (r: Result<Text>)
      requires Valid()
      modifies this`position
      ensures Valid() && old(position) <= position && (r.Ok? ==> old(position) < position)
      ensures
        var s := ReadEscape(old(Suffix()));
        if r.Err? then s == StrBad(r.reason) else s == StrOk(r.value, Suffix())
    {
      hide ReadUnicode;
      if position >= |text| { return Err(EncodingMalformed); }
      var escape := text[position];
      assert Suffix()[0] == escape && Suffix()[1..] == text[position + 1..];
      position := position + 1;
      if escape == QUOTE || escape == BACKSLASH || escape == '/' { return Ok([escape]); }
      if escape == 'b' { return Ok([8 as char]); }
      if escape == 'f' { return Ok([12 as char]); }
      if escape == 'n' { return Ok([10 as char]); }
      if escape == 'r' { return Ok([13 as char]); }
      if escape == 't' { return Ok([9 as char]); }
      if escape == 'u' {
        r := ParseUnicode();
        return r;
      }
      return Err(EncodingMalformed);
    }

    method ParseUnicode() returns (r: Result<Text>)
      requires Valid()
      modifies this`position
      ensures Valid() && old(position) <= position
      ensures
        var s := ReadUnicode(old(Suffix()));
        if r.Err? then s == StrBad(r.reason) else s == StrOk(r.value, Suffix())
    {
      hide ReadHex4;
      ghost var s := Suffix();
      var h := ParseHex4();
      if h.None? { return Err(EncodingMalformed); }
      if 0xD800 <= h.value <= 0xDBFF {
        assert position < |text| ==> text[position] == s[4];
        assert position + 1 < |text| ==> text[position + 1] == s[5];
        if position + 1 >= |text| || text[position] != BACKSLASH || text[position + 1] != 'u' {
          return Err(EncodingInvalidUtf8);
        }
        position := position + 2;
        assert Suffix() == s[6..];
        var l := ParseHex4();
        if l.None? { return Err(EncodingMalformed); }
        if l.value < 0xDC00 || l.value > 0xDFFF { return Err(EncodingInvalidUtf8); }
        assert Suffix() == s[10..];
        return Ok(Utf8.Encode(0x10000 + (h.value - 0xD800) * 1024 + (l.value - 0xDC00)));
      } else if 0xDC00 <= h.value <= 0xDFFF {
        return Err(EncodingInvalidUtf8);
      }
      return Ok(Utf8.Encode(h.value));
    }

    method ParseHex4() returns (r: Option<nat>)
      requires Valid()
      modifies this`position
      ensures Valid() && r == ReadHex4(old(Suffix()))
      ensures r.Some? ==> position == old(position) + 4 && Suffix() == old(Suffix())[4..]
      ensures r.None? ==> position == old(position)
    {
      hide HexValue;
      if position + 4 > |text| { return None; }
      var value := 0;
      ghost var s := Suffix();
      for index := 0 to 4
        invariant position == old(position)
        invariant forall k :: 0 <= k < index ==> HexValue(s[k]).Some?
        invariant value == HexPrefix(s, index)
      {
        var digit := HexValue(text[position + index]);
        assert s[index] == text[position + index];
        if digit.None? { return None; }
        value := value * 16 + digit.value;
      }
      HexWhole(s);
      position := position + 4;
      return Some(value);
    }

    method ParseNumber() returns (r: Result<Value>)
      requires Valid() && position < |text|
      modifies this`position
      ensures Valid() && old(position) <= position && (r.Ok? ==> old(position) < position)
      ensures Follows(r, ReadNumber(c, old(Suffix()), nodes))
    {
      hide WholeEnd, FractionEnd, ExponentEnd, IntegerOf;
      ghost var s := Suffix();
      var start := position;
      var whole := ScanWhole(start);
      if whole.Err? { return Err(whole.reason); }
      var fraction := ScanFraction(start, whole.value);
      if fraction.Err? { return Err(fraction.reason); }
      var end := ScanExponent(start, fraction.value);
      if end.Err? { return Err(end.reason); }
      var token := text[start..start + end.value];
      assert token == s[..end.value];
      position := start + end.value;
      assert Suffix() == s[|token|..];
      r := NumberOf(c, token, end.value == whole.value);
    }

    /** The sign and the integer part, without a leading zero. */
    method ScanWhole(start: nat) returns (r: Result<nat>)
      requires start < |text|
      ensures r == WholeEnd(text[start..])
    {
      hide DigitSpan;
      var p := start;
      if text[p] == '-' { p := p + 1; }
      if p >= |text| || !IsDigit(text[p]) { return Err(EncodingUnexpectedToken); }
      if text[p] == '0' {
        p := p + 1;
        if p < |text| && IsDigit(text[p]) { return Err(EncodingMalformed); }
        return Ok(p - start);
      }
      p := SkipDigits(start, p);
      return Ok(p - start);
    }

    method ScanFraction(start: nat, from: nat) returns (r: Result<nat>)
      requires start + from <= |text|
      ensures r == FractionEnd(text[start..], from)
    {
      hide DigitSpan;
      var p := start + from;
      if p >= |text| || text[p] != '.' { return Ok(from); }
      p := p + 1;
      if p >= |text| || !IsDigit(text[p]) { return Err(EncodingMalformed); }
      p := SkipDigits(start, p);
      return Ok(p - start);
    }

    method ScanExponent(start: nat, from: nat) returns (r: Result<nat>)
      requires start + from <= |text|
      ensures r == ExponentEnd(text[start..], from)
    {
      hide DigitSpan;
      var p := start + from;
      if p >= |text| || (text[p] != 'e' && text[p] != 'E') { return Ok(from); }
      p := p + 1;
      if p < |text| && (text[p] == '+' || text[p] == '-') { p := p + 1; }
      if p >= |text| || !IsDigit(text[p]) { return Err(EncodingMalformed); }
      p := SkipDigits(start, p);
      return Ok(p - start);
    }

    method SkipDigits(start: nat, from: nat) returns (p: nat)
      requires start <= from < |text| && IsDigit(text[from])
      ensures from < p <= |text| && p == from + DigitSpan(text[start..][from - start..])
    {
      p := from;
      assert text[start..][from - start..] == text[from..];
      while p < |text| && IsDigit(text[p])
        invariant from <= p <= |text| && DigitSpan(text[from..]) == p - from + DigitSpan(text[p..])
        invariant p == from ==> IsDigit(text[from])
      {
        assert text[p..][1..] == text[p + 1..];
        p := p + 1;
      }
    }
  }

  function HexPrefix(s: Text, n: nat): nat
    requires n <= |s| && forall k :: 0 <= k < n ==> HexValue(s[k]).Some?
  {
    if n == 0 then 0 else HexPrefix(s, n - 1) * 16 + HexValue(s[n - 1]).value
  }

  lemma HexWhole(s: Text)
    requires |s| >= 4 && forall k :: 0 <= k < 4 ==> HexValue(s[k]).Some?
    ensures ReadHex4(s) == Some(HexPrefix(s, 4))
  {
    hide HexValue;
    assert HexPrefix(s, 1) == HexValue(s[0]).value;
    assert HexPrefix(s, 2) == HexPrefix(s, 1) * 16 + HexValue(s[1]).value;
    assert HexPrefix(s, 3) == HexPrefix(s, 2) * 16 + HexValue(s[2]).value;
  }

  /** One element, then what follows it. */
  lemma ItemsUnfold(c: Codec, s: Text, depth: nat, nodes: nat, list: seq<Value>)
    ensures ReadItems(c, s, depth, nodes, list)
         == var e := ReadValue(c, SkipSpace(s), depth + 1, nodes);
            if e.ValBad? then e
            else if |list| + 1 > c.maxNodes then ValBad(LimitObjectsExceeded)
            else
              var t := SkipSpace(e.rest);
              if t == [] then ValBad(EncodingMalformed)
              else if t[0] == ',' then ReadItems(c, t[1..], depth, e.nodes, list + [e.value])
              else if t[0] == ']' then ValOk(List(list + [e.value]), t[1..], e.nodes)
              else ValBad(EncodingMalformed)
  {
    hide SkipSpace, ReadValue;
  }

  datatype Entry = EntryOk(member: Member, rest: Text, nodes: nat) | EntryBad(reason: Reason)

  /** A name, a colon and a value. */
  function ReadMember(c: Codec, s: Text, depth: nat, nodes: nat): (r: Entry)
    ensures r.EntryOk? ==> |r.rest| < |s|
  {
    var t := SkipSpace(s);
    if t == [] || t[0] != QUOTE then EntryBad(EncodingMalformed)
    else
      var name := ReadString(c, t[1..], []);
      if name.StrBad? then EntryBad(name.reason)
      else
        var u := SkipSpace(name.rest);
        if u == [] || u[0] != ':' then EntryBad(EncodingMalformed)
        else
          var e := ReadValue(c, SkipSpace(u[1..]), depth + 1, nodes);
          if e.ValBad? then EntryBad(e.reason) else EntryOk(Member(name.text, e.value), e.rest, e.nodes)
  }

  /** One member, then what follows it. */
  lemma MembersUnfold(c: Codec, s: Text, depth: nat, nodes: nat, ms: seq<Member>)
    ensures ReadMembers(c, s, depth, nodes, ms)
         == var e := ReadMember(c, s, depth, nodes);
            if e.EntryBad? then ValBad(e.reason)
            else if HasName(ms, e.member.name) then ValBad(EncodingDuplicateKey)
            else if |ms| + 1 > c.maxFields then ValBad(LimitFieldsExceeded)
            else
              var more := InsertMember(ms, e.member);
              var w := SkipSpace(e.rest);
              if w == [] then ValBad(EncodingMalformed)
              else if w[0] == ',' then ReadMembers(c, w[1..], depth, e.nodes, more)
              else if w[0] == '}' then Close(Finish(c, more), w[1..], e.nodes)
              else ValBad(EncodingMalformed)
  {
    hide SkipSpace, ReadValue, ReadString, HasName, InsertMember, Finish;
  }

  lemma ItemsFrom(c: Codec, s: Text, depth: nat, nodes: nat, list: seq<Value>)
    ensures ReadItems(c, SkipSpace(s), depth, nodes, list) == ReadItems(c, s, depth, nodes, list)
  {
    hide SkipSpace, ReadValue;
    SkipTwice(s);
  }

  lemma MembersFrom(c: Codec, s: Text, depth: nat, nodes: nat, ms: seq<Member>)
    ensures ReadMembers(c, SkipSpace(s), depth, nodes, ms) == ReadMembers(c, s, depth, nodes, ms)
  {
    hide SkipSpace, ReadValue, ReadString;
    SkipTwice(s);
  }

  lemma {:induction false} InsertGrows(ms: seq<Member>, m: Member)
    ensures |InsertMember(ms, m)| == |ms| + 1
  {
    hide Less;
    if ms != [] && !Less(m.name, ms[0].name) { InsertGrows(ms[1..], m); }
  }

  function After(out: Text, rest: Option<Text>): Option<Text> {
    if rest.None? then None else Some(out + rest.value)
  }

  lemma AfterPair(out: Text, b: byte, rest: Option<Text>)
    ensures After(out, After([b], rest)) == After(out + [b], rest) && After([], rest) == rest
  {
    if rest.Some? {
      assert [] + rest.value == rest.value;
      assert out + ([b] + rest.value) == (out + [b]) + rest.value;
    }
  }

  method DecodeHex(hex: Text) returns (r: Option<Text>)
    ensures r == FromHex(hex)
  {
    hide HexValue;
    if |hex| % 2 != 0 {
      OddHex(hex);
      return None;
    }
    var out: Text := [];
    var index := 0;
    assert hex[0..] == hex;
    AfterPair([], ' ', FromHex(hex));
    while index < |hex|
      invariant index <= |hex| && index % 2 == 0
      invariant FromHex(hex) == After(out, FromHex(hex[index..]))
    {
      ghost var s := hex[index..];
      assert s[2..] == hex[index + 2..];
      var high, low := HexValue(hex[index]), HexValue(hex[index + 1]);
      if high.None? || low.None? { return None; }
      var b := (high.value * 16 + low.value) as char;
      AfterPair(out, b, FromHex(s[2..]));
      out := out + [b];
      index := index + 2;
    }
    assert hex[index..] == [] && out + [] == out;
    return Some(out);
  }

  lemma {:induction false} OddHex(hex: Text)
    requires |hex| % 2 != 0
    ensures FromHex(hex).None?
  {
    hide HexValue;
    if |hex| > 1 { OddHex(hex[2..]); }
  }

  method ReadJson(c: Codec, text: Text) returns (r: Result<Value>)
    ensures r == ParseJson(c, text)
  {
    if |text| > c.maxDocument { return Err(LimitBytesExceeded); }
    var parser := new Parser(text, c);
    r := parser.Parse();
  }
}
