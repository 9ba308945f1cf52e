/** The bounded JSON reader and the two writers, as functions on octet strings. */
module Json {
  import opened Core
  import opened Values
  import opened Decimals
  import Utf8

  /** The envelope a document is read under, and the library's conversions of doubles. */
  datatype Codec = Codec(
    maxDepth: nat, maxNodes: nat, maxLeaf: nat, maxFields: nat, maxDocument: nat,
    readDouble: Text -> Option<float64>, showDouble: float64 -> Text)

  const QUOTE: byte := '\"'
  const BACKSLASH: byte := '\\'
  const BYTES_MEMBER: Text := "$bytes"

  // ----- writing

  datatype Style = Compact | Pretty(width: nat)

  function Spaces(n: nat): (s: Text)
    ensures |s| == n
  {
    seq(n, _ => ' ')
  }

  /** The line break and indentation before an element or a closing bracket. */
  function Gap(style: Style, depth: nat): Text {
    if style.Compact? || style.width == 0 then [] else "\n" + Spaces(style.width * depth)
  }

  function Colon(style: Style): Text { if style.Compact? then ":" else ": " }

  function HexDigit(n: nat): (c: byte)
    requires n < 16
  {
    if n < 10 then (n + 48) as char else (n + 87) as char
  }

  function EscapeByte(c: byte): (s: Text)
    ensures s != []
  {
    var n := c as int;
    if c == QUOTE || c == BACKSLASH then [BACKSLASH, c]
    else if n == 8 then "\\b"
    else if n == 12 then "\\f"
    else if n == 10 then "\\n"
    else if n == 13 then "\\r"
    else if n == 9 then "\\t"
    else if n < 0x20 then "\\u00" + [HexDigit(n / 16), HexDigit(n % 16)]
    else [c]
  }

  function Escape(text: Text): Text {
    if text == [] then [] else EscapeByte(text[0]) + Escape(text[1..])
  }

  function Quote(text: Text): Text { [QUOTE] + Escape(text) + [QUOTE] }

  function Hex(octets: Text): Text {
    if octets == [] then []
    else [HexDigit(octets[0] as int / 16), HexDigit(octets[0] as int % 16)] + Hex(octets[1..])
  }

  function Integer(i: int): (s: Text)
    ensures s != []
  {
    if i < 0 then "-" + Decimal(-i) else Decimal(i)
  }

  function Spell(c: Codec, v: Value, style: Style, depth: nat): Text
    decreases v
  {
    match v
    case Null => "null"
    case Bool(b) => if b then "true" else "false"
    case Int(i) => Integer(i)
    case Uint(n) => Integer(n)
    case Double(d) => c.showDouble(d)
    case String(text) => Quote(text)
    case Bytes(octets) => "{" + Quote(BYTES_MEMBER) + ":" + [QUOTE] + Hex(octets) + [QUOTE] + "}"
    case List(items) =>
      "[" + Elements(c, items, style, depth, true) + (if items == [] then [] else Gap(style, depth)) + "]"
    case Map(members) =>
      "{" + Fields(c, members, style, depth, true) + (if members == [] then [] else Gap(style, depth)) + "}"
  }

  function Elements(c: Codec, items: seq<Value>, style: Style, depth: nat, first: bool): Text
    decreases items
  {
    if items == [] then []
    else (if first then [] else ",") + Gap(style, depth + 1) + Spell(c, items[0], style, depth + 1)
         + Elements(c, items[1..], style, depth, false)
  }

  function Fields(c: Codec, members: seq<Member>, style: Style, depth: nat, first: bool): Text
    decreases members
  {
    if members == [] then []
    else (if first then [] else ",") + Gap(style, depth + 1) + Quote(members[0].name) + Colon(style)
         + Spell(c, members[0].value, style, depth + 1) + Fields(c, members[1..], style, depth, false)
  }

  // ----- reading strings

  datatype Str = StrOk(text: Text, rest: Text) | StrBad(reason: Reason)

  predicate Space(c: byte) { c == ' ' || c == '\t' || c == '\n' || c == '\r' }

  function SkipSpace(s: Text): (t: Text)
    ensures |t| <= |s| && (t == [] || !Space(t[0]))
  {
    if s == [] || !Space(s[0]) then s else SkipSpace(s[1..])
  }

  function HexValue(c: byte): (r: Option<nat>)
    ensures r.Some? ==> r.value < 16
  {
    if '0' <= c <= '9' then Some(c as int - 48)
    else if 'a' <= c <= 'f' then Some(c as int - 87)
    else if 'A' <= c <= 'F' then Some(c as int - 55)
    else None
  }

  function ReadHex4(s: Text): (r: Option<nat>)
    ensures r.Some? ==> |s| >= 4 && r.value < 0x10000
  {
    if |s| < 4 then None
    else
      var a, b, d, e := HexValue(s[0]), HexValue(s[1]), HexValue(s[2]), HexValue(s[3]);
      if a.None? || b.None? || d.None? || e.None? then None
      else Some(((a.value * 16 + b.value) * 16 + d.value) * 16 + e.value)
  }

  /** The four digits after a unicode escape, and a second escape after a high surrogate. */
  function ReadUnicode(s: Text): (r: Str)
    ensures r.StrOk? ==> |r.rest| <= |s| && |r.text| >= 1
  {
    var h := ReadHex4(s);
    if h.None? then StrBad(EncodingMalformed)
    else if 0xD800 <= h.value <= 0xDBFF then
      if |s| < 6 || s[4] != BACKSLASH || s[5] != 'u' then StrBad(EncodingInvalidUtf8)
      else
        var l := ReadHex4(s[6..]);
        if l.None? then StrBad(EncodingMalformed)
        else if !(0xDC00 <= l.value <= 0xDFFF) then StrBad(EncodingInvalidUtf8)
        else StrOk(Utf8.Encode(0x10000 + (h.value - 0xD800) * 1024 + (l.value - 0xDC00)), s[10..])
    else if 0xDC00 <= h.value <= 0xDFFF then StrBad(EncodingInvalidUtf8)
    else StrOk(Utf8.Encode(h.value), s[4..])
  }

  /** What follows a backslash. */
  function ReadEscape(s: Text): (r: Str)
    ensures r.StrOk? ==> |r.rest| < |s| && |r.text| >= 1
  {
    if s == [] then StrBad(EncodingMalformed)
    else if s[0] == QUOTE || s[0] == BACKSLASH || s[0] == '/' then StrOk([s[0]], s[1..])
    else if s[0] == 'b' then StrOk([8 as char], s[1..])
    else if s[0] == 'f' then StrOk([12 as char], s[1..])
    else if s[0] == 'n' then StrOk([10 as char], s[1..])
    else if s[0] == 'r' then StrOk([13 as char], s[1..])
    else if s[0] == 't' then StrOk([9 as char], s[1..])
    else if s[0] == 'u' then ReadUnicode(s[1..])
    else StrBad(EncodingMalformed)
  }

  /** A string after its opening quote; `out` is what has been read of it. */
  function ReadString(c: Codec, s: Text, out: Text): (r: Str)
    ensures r.StrOk? ==> |r.rest| < |s| && |r.text| <= c.maxLeaf && Utf8.Valid(r.text)
    decreases |s|
  {
    if s == [] then StrBad(EncodingMalformed)
    else if s[0] == QUOTE then
      if !Utf8.Valid(out) then StrBad(EncodingInvalidUtf8)
      else if |out| > c.maxLeaf then StrBad(LimitBytesExceeded)
      else StrOk(out, s[1..])
    else if s[0] == BACKSLASH then
      var e := ReadEscape(s[1..]);
      if e.StrBad? then e
      else if |out| + |e.text| > c.maxLeaf then StrBad(LimitBytesExceeded)
      else ReadString(c, e.rest, out + e.text)
    else if s[0] as int < 0x20 then StrBad(EncodingMalformed)
    else if |out| + 1 > c.maxLeaf then StrBad(LimitBytesExceeded)
    else ReadString(c, s[1..], out + [s[0]])
  }

  // ----- reading numbers

  function DigitSpan(s: Text): (n: nat)
    ensures n <= |s| && AllDigits(s[..n]) && (n < |s| ==> !IsDigit(s[n]))
  {
    if s == [] || !IsDigit(s[0]) then 0
    else
      var n := DigitSpan(s[1..]);
      assert s[..n + 1] == [s[0]] + s[1..][..n];
      n + 1
  }

  predicate DigitAt(s: Text, p: nat) { p < |s| && IsDigit(s[p]) }

  predicate CharAt(s: Text, p: nat, ch: byte) { p < |s| && s[p] == ch }

  /** Where the integer part ends, sign included. */
  function WholeEnd(s: Text): (r: Result<nat>)
    ensures r.Ok? ==> 0 < r.value <= |s|
  {
    var sign := if CharAt(s, 0, '-') then 1 else 0;
    if !DigitAt(s, sign) then Err(EncodingUnexpectedToken)
    else if s[sign] == '0' then
      if DigitAt(s, sign + 1) then Err(EncodingMalformed) else Ok(sign + 1)
    else
      assert DigitSpan(s[sign..]) > 0;
      Ok(sign + DigitSpan(s[sign..]))
  }

  function FractionEnd(s: Text, p: nat): (r: Result<nat>)
    requires p <= |s|
    ensures r.Ok? ==> p <= r.value <= |s|
  {
    if !CharAt(s, p, '.') then Ok(p)
    else if !DigitAt(s, p + 1) then Err(EncodingMalformed)
    else Ok(p + 1 + DigitSpan(s[p + 1..]))
  }

  function ExponentEnd(s: Text, p: nat): (r: Result<nat>)
    requires p <= |s|
    ensures r.Ok? ==> p <= r.value <= |s|
  {
    if !CharAt(s, p, 'e') && !CharAt(s, p, 'E') then Ok(p)
    else
      var q := if CharAt(s, p + 1, '+') || CharAt(s, p + 1, '-') then p + 2 else p + 1;
      if !DigitAt(s, q) then Err(EncodingMalformed) else Ok(q + DigitSpan(s[q..]))
  }

  datatype Token = TokenOk(text: Text, integral: bool) | TokenBad(reason: Reason)

  function ScanNumber(s: Text): (r: Token)
    ensures r.TokenOk? ==> 0 < |r.text| <= |s| && r.text == s[..|r.text|]
  {
    var whole := WholeEnd(s);
    if whole.Err? then TokenBad(whole.reason)
    else
      var fraction := FractionEnd(s, whole.value);
      if fraction.Err? then TokenBad(fraction.reason)
      else
        var exponent := ExponentEnd(s, fraction.value);
        if exponent.Err? then TokenBad(exponent.reason)
        else TokenOk(s[..exponent.value], exponent.value == whole.value)
  }

  /** The value of an integral token that the integer conversions accept. */
  function IntegerOf(token: Text): Option<Value> {
    if token == [] || |token| > 20 then None
    else if token[0] == '-' then
      if AllDigits(token[1..]) && ReadDigits(token[1..]) <= INT64_MAX + 1 then Some(Int(0 - ReadDigits(token[1..]))) else None
    else if !AllDigits(token) then None
    else if ReadDigits(token) <= INT64_MAX then Some(Int(ReadDigits(token)))
    else if ReadDigits(token) <= UINT64_MAX then Some(Uint(ReadDigits(token)))
    else None
  }

  function NumberOf(c: Codec, token: Text, integral: bool): Result<Value> {
    var i := if integral then IntegerOf(token) else None;
    if i.Some? then Ok(i.value)
    else
      var d := c.readDouble(token);
      if d.None? then Err(EncodingNumberOutOfRange) else Ok(Double(d.value))
  }

  // ----- reading values

  datatype Val = ValOk(value: Value, rest: Text, nodes: nat) | ValBad(reason: Reason)

  function FromHex(s: Text): Option<Text> {
    if s == [] then Some([])
    else if |s| == 1 then None
    else
      var h, l, rest := HexValue(s[0]), HexValue(s[1]), FromHex(s[2..]);
      if h.None? || l.None? || rest.None? then None
      else Some([(h.value * 16 + l.value) as char] + rest.value)
  }

  predicate HasName(ms: seq<Member>, name: Text) {
    exists i :: 0 <= i < |ms| && ms[i].name == name
  }

  /** The member set is kept in name order. */
  function InsertMember(ms: seq<Member>, m: Member): seq<Member> {
    if ms == [] || Less(m.name, ms[0].name) then [m] + ms else [ms[0]] + InsertMember(ms[1..], m)
  }

  /** A one-member `$bytes` object stands for a byte string. */
  function Finish(c: Codec, ms: seq<Member>): Result<Value> {
    if |ms| == 1 && ms[0].name == BYTES_MEMBER then
      if !ms[0].value.String? then Err(EncodingMalformed)
      else
        var raw := FromHex(ms[0].value.text);
        if raw.None? then Err(EncodingMalformed)
        else if |raw.value| > c.maxLeaf then Err(LimitBytesExceeded)
        else Ok(Bytes(raw.value))
    else Ok(Map(ms))
  }

  function ReadLiteral(s: Text, literal: Text, v: Value, nodes: nat): (r: Val)
    requires literal != []
    ensures r.ValOk? ==> |r.rest| < |s| && r.nodes == nodes
  {
    if literal <= s then ValOk(v, s[|literal|..], nodes) else ValBad(EncodingUnexpectedToken)
  }

  function ReadNumber(c: Codec, s: Text, nodes: nat): (r: Val)
    ensures r.ValOk? ==> |r.rest| < |s| && r.nodes == nodes
  {
    var token := ScanNumber(s);
    if token.TokenBad? then ValBad(token.reason)
    else
      var v := NumberOf(c, token.text, token.integral);
      if v.Err? then ValBad(v.reason) else ValOk(v.value, s[|token.text|..], nodes)
  }

  function ReadValue(c: Codec, s: Text, depth: nat, nodes: nat): (r: Val)
    ensures r.ValOk? ==> |r.rest| < |s| && r.nodes > nodes
    decreases |s|, 1
  {
    if depth > c.maxDepth then ValBad(LimitDepthExceeded)
    else if nodes + 1 > c.maxNodes then ValBad(LimitObjectsExceeded)
    else if s == [] then ValBad(EncodingMalformed)
    else if s[0] == '{' then
      var t := SkipSpace(s[1..]);
      if t != [] && t[0] == '}' then Close(Finish(c, []), t[1..], nodes + 1)
      else ReadMembers(c, s[1..], depth, nodes + 1, [])
    else if s[0] == '[' then
      var t := SkipSpace(s[1..]);
      if t != [] && t[0] == ']' then ValOk(List([]), t[1..], nodes + 1)
      else ReadItems(c, s[1..], depth, nodes + 1, [])
    else if s[0] == QUOTE then
      var text := ReadString(c, s[1..], []);
      if text.StrBad? then ValBad(text.reason) else ValOk(String(text.text), text.rest, nodes + 1)
    else if s[0] == 't' then ReadLiteral(s, "true", Bool(true), nodes + 1)
    else if s[0] == 'f' then ReadLiteral(s, "false", Bool(false), nodes + 1)
    else if s[0] == 'n' then ReadLiteral(s, "null", Null, nodes + 1)
    else ReadNumber(c, s, nodes + 1)
  }

  function Close(r: Result<Value>, rest: Text, nodes: nat): Val {
    if r.Err? then ValBad(r.reason) else ValOk(r.value, rest, nodes)
  }

  /** The elements of a sequence from the one that starts here; `list` holds those before. */
  function ReadItems(c: Codec, s: Text, depth: nat, nodes: nat, list: seq<Value>): (r: Val)
    ensures r.ValOk? ==> |r.rest| < |s| && r.nodes >= nodes
    decreases |s|, 2
  {
    var e := ReadValue(c, SkipSpace(s), depth + 1, nodes);
    if e.ValBad? then e
    else if |list| + 1 > c.maxNodes then ValBad(LimitObjectsExceeded)
    else
      var t := SkipSpace(e.rest);
      if t == [] then ValBad(EncodingMalformed)
      else if t[0] == ',' then ReadItems(c, t[1..], depth, e.nodes, list + [e.value])
      else if t[0] == ']' then ValOk(List(list + [e.value]), t[1..], e.nodes)
      else ValBad(EncodingMalformed)
  }

  function ReadMembers(c: Codec, s: Text, depth: nat, nodes: nat, ms: seq<Member>): (r: Val)
    ensures r.ValOk? ==> |r.rest| < |s| && r.nodes >= nodes
    decreases |s|, 2
  {
    var t := SkipSpace(s);
    if t == [] || t[0] != QUOTE then ValBad(EncodingMalformed)
    else
      var name := ReadString(c, t[1..], []);
      if name.StrBad? then ValBad(name.reason)
      else
        var u := SkipSpace(name.rest);
        if u == [] || u[0] != ':' then ValBad(EncodingMalformed)
        else
          var e := ReadValue(c, SkipSpace(u[1..]), depth + 1, nodes);
          if e.ValBad? then e
          else if HasName(ms, name.text) then ValBad(EncodingDuplicateKey)
          else if |ms| + 1 > c.maxFields then ValBad(LimitFieldsExceeded)
          else
            var more := InsertMember(ms, Member(name.text, e.value));
            var w := SkipSpace(e.rest);
            if w == [] then ValBad(EncodingMalformed)
            else if w[0] == ',' then ReadMembers(c, w[1..], depth, e.nodes, more)
            else if w[0] == '}' then Close(Finish(c, more), w[1..], e.nodes)
            else ValBad(EncodingMalformed)
  }

  function ParseJson(c: Codec, text: Text): Result<Value> {
    if |text| > c.maxDocument then Err(LimitBytesExceeded)
    else
      var s := SkipSpace(text);
      if s == [] then Err(EncodingMalformed)
      else
        var r := ReadValue(c, s, 0, 0);
        if r.ValBad? then Err(r.reason)
        else if SkipSpace(r.rest) != [] then Err(EncodingTrailingBytes)
        else Ok(r.value)
  }
}
