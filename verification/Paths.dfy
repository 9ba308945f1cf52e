/** The textual form of field paths: keys joined by dots, indices in brackets. */
module Paths {
  import opened Core
  import opened Values
  import opened Decimals
  import opened Domain

  const SIZE: int := UINT64_MAX + 1

  predicate Escapable(c: byte) { c == '\\' || c == '.' || c == '[' || c == ']' }

  predicate Control(c: byte) { c < ' ' || c == 127 as char }

  // ----- writing

  function Escape(c: byte): (s: Text)
    ensures s != []
  {
    if Escapable(c) then ['\\', c] else [c]
  }

  function Escaped(key: Text): Text {
    if key == [] then [] else Escape(key[0]) + Escaped(key[1..])
  }

  function Piece(s: Segment, first: bool): Text {
    match s
    case Index(n) => ['['] + Decimal(n) + [']']
    case Key(key) => (if first then [] else ['.']) + Escaped(key)
  }

  function Spell(p: Path, first: bool): Text {
    if p == [] then [] else Piece(p[0], first) + Spell(p[1..], false)
  }

  function ToText(p: Path): Text { Spell(p, true) }

  // ----- reading

  /** Decimal digits without a leading zero whose value fits 64 bits. */
  function ReadIndex(digits: Text): Option<uint64> {
    if && digits != [] && AllDigits(digits) && (|digits| == 1 || digits[0] != '0') && |digits| <= 20
       && ReadDigits(digits) <= UINT64_MAX
    then Some(ReadDigits(digits)) else None
  }

  /** The position of the first closing bracket from `start`, or the length. */
  function CloseFrom(text: Text, start: nat): (end: nat)
    requires start <= |text|
    ensures start <= end <= |text| && (end < |text| ==> text[end] == ']')
    decreases |text| - start
  {
    if start == |text| || text[start] == ']' then start else CloseFrom(text, start + 1)
  }

  datatype KeyRead = KeyRead(key: Text, next: nat)

  /** Reads one key up to an unescaped dot or bracket or the end. */
  function ReadKey(text: Text, position: nat): (r: Option<KeyRead>)
    requires position <= |text|
    ensures r.Some? ==> position <= r.value.next <= |text| && (r.value.key != [] ==> position < r.value.next)
    decreases |text| - position
  {
    if position == |text| then Some(KeyRead([], position))
    else
      var c := text[position];
      if c == '\\' then
        if position + 1 >= |text| || !Escapable(text[position + 1]) then None
        else Prepend(text[position + 1], ReadKey(text, position + 2))
      else if c == '.' || c == '[' then Some(KeyRead([], position))
      else if c == ']' || Control(c) then None
      else Prepend(c, ReadKey(text, position + 1))
  }

  function Prepend(c: byte, r: Option<KeyRead>): Option<KeyRead> {
    if r.None? then None else Some(KeyRead([c] + r.value.key, r.value.next))
  }

  /** After a dot a key must start. */
  predicate StartsKey(text: Text, position: nat) {
    position < |text| && text[position] != '.' && text[position] != ']' && text[position] != '['
  }

  datatype Limits = Limits(segments: nat, keyBytes: nat)

  function ReadSegment(text: Text, position: nat, limits: Limits): (r: Option<(Segment, nat)>)
    requires position < |text|
    ensures r.Some? ==> position < r.value.1 <= |text|
  {
    if text[position] == '[' then
      var close := CloseFrom(text, position + 1);
      if close == |text| || ReadIndex(text[position + 1..close]).None? then None
      else Some((Index(ReadIndex(text[position + 1..close]).value), close + 1))
    else
      var r := ReadKey(text, position);
      if r.None? || r.value.key == [] || |r.value.key| > limits.keyBytes then None
      else Some((Key(r.value.key), r.value.next))
  }

  function ReadFrom(text: Text, position: nat, count: nat, limits: Limits): (r: Option<Path>)
    requires position <= |text|
    ensures r.Some? ==> (position < |text| <==> r.value != [])
    ensures r.Some? && position < |text| ==> (r.value[0].Index? <==> text[position] == '[')
    decreases |text| - position
  {
    if position == |text| then Some([])
    else if count >= limits.segments || ReadSegment(text, position, limits).None? then None
    else
      var (segment, next) := ReadSegment(text, position, limits).value;
      if next == |text| then Some([segment])
      else if text[next] == '[' then Joined(segment, ReadFrom(text, next, count + 1, limits))
      else if text[next] == '.' && StartsKey(text, next + 1) then
        Joined(segment, ReadFrom(text, next + 1, count + 1, limits))
      else None
  }

  function Joined(s: Segment, r: Option<Path>): Option<Path> {
    if r.None? then None else Some([s] + r.value)
  }

  /** The size guard, in the machine's unsigned arithmetic. */
  function Allowance(limits: Limits): nat {
    limits.segments * ((limits.keyBytes + 4) % SIZE) % SIZE
  }

  function Parsed(text: Text, limits: Limits): Option<Path> {
    if text == [] then Some([]) else if |text| > Allowance(limits) then None else ReadFrom(text, 0, 0, limits)
  }

  // ----- one text, one path

  lemma {:induction false} ReadKeyMeans(text: Text, position: nat)
    requires position <= |text| && ReadKey(text, position).Some?
    ensures
      var r := ReadKey(text, position).value;
      && text[position..r.next] == Escaped(r.key)
      && (r.next < |text| ==> text[r.next] == '.' || text[r.next] == '[')
      && (forall i :: 0 <= i < |r.key| ==> !Control(r.key[i]))
    decreases |text| - position
  {
    hide Escapable, Control, Escape, Escaped;
    if position == |text| {
      NothingRead(text, position);
    } else {
      var c, r := text[position], ReadKey(text, position).value;
      if c == '\\' {
        ReadKeyMeans(text, position + 2);
        EscapeIs(text[position + 1]);
        assert text[position..position + 2] == [c, text[position + 1]];
        KeyMeansMore(text, position, 2, text[position + 1], ReadKey(text, position + 2).value, r);
      } else if c == '.' || c == '[' {
        NothingRead(text, position);
      } else {
        ReadKeyMeans(text, position + 1);
        EscapeIs(c);
        assert text[position..position + 1] == [c];
        KeyMeansMore(text, position, 1, c, ReadKey(text, position + 1).value, r);
      }
    }
  }

  lemma NothingRead(text: Text, position: nat)
    requires position <= |text|
    ensures text[position..position] == Escaped([])
  {}

  lemma EscapeIs(c: byte)
    ensures Escapable(c) ==> !Control(c) && Escape(c) == ['\\', c]
    ensures c != '\\' && c != '.' && c != '[' && c != ']' ==> Escape(c) == [c]
  {}

  lemma KeyMeansMore(text: Text, position: nat, step: nat, c: byte, rest: KeyRead, r: KeyRead)
    requires position + step <= rest.next <= |text| && r == KeyRead([c] + rest.key, rest.next)
    requires text[position..position + step] == Escape(c) && text[position + step..rest.next] == Escaped(rest.key)
    requires !Control(c) && forall i :: 0 <= i < |rest.key| ==> !Control(rest.key[i])
    ensures text[position..r.next] == Escaped(r.key)
    ensures forall i :: 0 <= i < |r.key| ==> !Control(r.key[i])
  {
    hide Escape, Control;
    assert text[position..r.next] == text[position..position + step] + text[position + step..rest.next];
    assert r.key[1..] == rest.key;
  }

  predicate ValidSegment(s: Segment, limits: Limits) {
    s.Key? ==> 0 < |s.key| <= limits.keyBytes && forall i :: 0 <= i < |s.key| ==> !Control(s.key[i])
  }

  predicate ValidPath(p: Path, limits: Limits) {
    |p| <= limits.segments && forall i :: 0 <= i < |p| ==> ValidSegment(p[i], limits)
  }

  lemma ReadSegmentMeans(text: Text, position: nat, limits: Limits)
    requires position < |text| && ReadSegment(text, position, limits).Some?
    ensures
      var (segment, next) := ReadSegment(text, position, limits).value;
      && text[position..next] == Piece(segment, true) && ValidSegment(segment, limits)
      && (segment.Key? && next < |text| ==> text[next] == '.' || text[next] == '[')
  {
    var (segment, next) := ReadSegment(text, position, limits).value;
    if text[position] == '[' {
      var digits := text[position + 1..next - 1];
      NumeralUnique(digits);
      assert text[position..next] == ['['] + digits + [']'];
    } else {
      ReadKeyMeans(text, position);
    }
  }

  /** Only the text of a path reads as that path. */
  lemma {:induction false} ReadFromMeans(text: Text, position: nat, count: nat, limits: Limits)
    requires position <= |text| && count <= limits.segments && ReadFrom(text, position, count, limits).Some?
    ensures
      var p := ReadFrom(text, position, count, limits).value;
      && text[position..] == Spell(p, true)
      && count + |p| <= limits.segments && forall i :: 0 <= i < |p| ==> ValidSegment(p[i], limits)
    decreases |text| - position
  {
    hide ReadSegment, ValidSegment, Piece;
    if position < |text| {
      ReadSegmentMeans(text, position, limits);
      var p := ReadFrom(text, position, count, limits).value;
      var (segment, next) := ReadSegment(text, position, limits).value;
      if next == |text| {
        assert p[1..] == [];
        assert text[position..] == text[position..next];
      } else {
        var start := if text[next] == '[' then next else next + 1;
        ReadFromMeans(text, start, count + 1, limits);
        var rest := ReadFrom(text, start, count + 1, limits).value;
        assert p[1..] == rest;
        Continues(text, position, next, rest);
      }
    }
  }

  /** The rest of the text is the rest of the path, with its dot. */
  lemma Continues(text: Text, position: nat, next: nat, rest: Path)
    requires position <= next < |text| && rest != [] && (text[next] == '[' || text[next] == '.')
    requires rest[0].Index? <==> text[next] == '['
    requires text[if text[next] == '[' then next else next + 1..] == Spell(rest, true)
    ensures text[position..] == text[position..next] + Spell(rest, false)
  {
    hide Piece;
    Continued(rest);
    assert text[next] == '.' ==> text[next..] == ['.'] + text[next + 1..];
    assert text[position..] == text[position..next] + text[next..];
  }

  /** Only a key takes a dot before it. */
  lemma Continued(rest: Path)
    requires rest != []
    ensures Spell(rest, false) == (if rest[0].Index? then [] else ['.']) + Spell(rest, true)
  {
    hide Piece;
    PieceDot(rest[0]);
    if rest[0].Key? {
      Associate(['.'], Piece(rest[0], true), Spell(rest[1..], false));
    }
  }

  lemma PieceDot(s: Segment)
    ensures Piece(s, false) == (if s.Index? then [] else ['.']) + Piece(s, true)
  {
    hide Escaped, Decimal;
  }

  lemma Associate(a: Text, b: Text, c: Text)
    ensures (a + b) + c == a + (b + c)
  {}

  lemma OneSpelling(text: Text, limits: Limits)
    requires Parsed(text, limits).Some?
    ensures ToText(Parsed(text, limits).value) == text && ValidPath(Parsed(text, limits).value, limits)
  {
    if text != [] {
      ReadFromMeans(text, 0, 0, limits);
      assert text[0..] == text;
    }
  }

  // ----- one path, one text

  /** A terminator: nothing of a key can follow unescaped. */
  predicate Ends(text: Text, position: nat) {
    position == |text| || (position < |text| && (text[position] == '.' || text[position] == '['))
  }

  lemma {:induction false} KeyBack(text: Text, position: nat, key: Text)
    requires position + |Escaped(key)| <= |text| && text[position..position + |Escaped(key)|] == Escaped(key)
    requires Ends(text, position + |Escaped(key)|)
    requires forall i :: 0 <= i < |key| ==> !Control(key[i])
    ensures ReadKey(text, position) == Some(KeyRead(key, position + |Escaped(key)|))
    decreases |key|
  {
    hide Ends, Escape, ReadKey;
    if key == [] {
      EndOfKey(text, position);
    } else {
      var c, rest := key[0], key[1..];
      SliceSplit(text, position, Escape(c), Escaped(rest));
      KeyBack(text, position + |Escape(c)|, rest);
      EscapedRead(text, position, c, KeyRead(rest, position + |Escaped(key)|));
      assert key == [c] + rest;
    }
  }

  lemma SliceSplit(text: Text, position: nat, a: Text, b: Text)
    requires position + |a| + |b| <= |text| && text[position..position + |a| + |b|] == a + b
    ensures text[position..position + |a|] == a && text[position + |a|..position + |a| + |b|] == b
  {
    var all := text[position..position + |a| + |b|];
    assert text[position..position + |a|] == all[..|a|] == a;
    assert text[position + |a|..position + |a| + |b|] == all[|a|..] == b;
  }

  lemma EscapedRead(text: Text, position: nat, c: byte, rest: KeyRead)
    requires position + |Escape(c)| <= |text| && text[position..position + |Escape(c)|] == Escape(c) && !Control(c)
    requires ReadKey(text, position + |Escape(c)|) == Some(rest)
    ensures ReadKey(text, position) == Some(KeyRead([c] + rest.key, rest.next))
  {
    hide Control;
    var slice := text[position..position + |Escape(c)|];
    assert text[position] == slice[0];
    if Escapable(c) {
      assert text[position + 1] == slice[1];
    }
  }

  lemma EndOfKey(text: Text, position: nat)
    requires position <= |text| && Ends(text, position)
    ensures ReadKey(text, position) == Some(KeyRead([], position))
  {}

  lemma {:induction false} CloseIs(text: Text, start: nat, close: nat)
    requires start <= close < |text| && text[close] == ']'
    requires forall i :: start <= i < close ==> text[i] != ']'
    ensures CloseFrom(text, start) == close
    decreases close - start
  {
    if start < close {
      CloseIs(text, start + 1, close);
    }
  }

  lemma IndexBack(n: uint64)
    ensures ReadIndex(Decimal(n)) == Some(n)
  {
    DecimalReads(n);
    DecimalLength(n, 20);
    TenPowers();
  }

  lemma SegmentBack(text: Text, position: nat, s: Segment, limits: Limits)
    requires ValidSegment(s, limits) && position + |Piece(s, true)| <= |text|
    requires text[position..position + |Piece(s, true)|] == Piece(s, true)
    requires s.Key? ==> Ends(text, position + |Piece(s, true)|)
    ensures Piece(s, true) != [] && ReadSegment(text, position, limits) == Some((s, position + |Piece(s, true)|))
  {
    hide ReadIndex, ReadKey, CloseFrom, Escaped, Decimal;
    var end := position + |Piece(s, true)|;
    if s.Index? {
      var digits := Decimal(s.index);
      IndexBack(s.index);
      Bracketed(text, position, digits);
      CloseIs(text, position + 1, end - 1);
    } else {
      KeyBack(text, position, s.key);
      FirstOfKey(s.key);
      assert text[position] == text[position..end][0];
    }
  }

  lemma Bracketed(text: Text, position: nat, digits: Text)
    requires AllDigits(digits) && position + |digits| + 2 <= |text|
    requires text[position..position + |digits| + 2] == ['['] + digits + [']']
    ensures
      var close := position + |digits| + 1;
      && text[position] == '[' && text[close] == ']' && text[position + 1..close] == digits
      && forall i :: position + 1 <= i < close ==> text[i] != ']'
  {
    var all := text[position..position + |digits| + 2];
    assert forall k :: 0 <= k < |all| ==> text[position + k] == all[k];
    assert all[0] == '[' && all[|digits| + 1] == ']';
    forall k | 0 <= k < |digits| ensures text[position + 1 + k] == digits[k] {
      assert all[k + 1] == digits[k];
    }
    forall i | position + 1 <= i < position + |digits| + 1 ensures text[i] != ']' {
      assert text[position + 1 + (i - position - 1)] == digits[i - position - 1];
    }
  }

  lemma FirstOfKey(key: Text)
    requires key != []
    ensures Escaped(key) != [] && Escaped(key)[0] !in {'[', '.', ']'}
  {}

  lemma {:induction false} PathBack(text: Text, position: nat, count: nat, p: Path, limits: Limits)
    requires position <= |text| && text[position..] == Spell(p, true)
    requires count + |p| <= limits.segments && forall i :: 0 <= i < |p| ==> ValidSegment(p[i], limits)
    ensures ReadFrom(text, position, count, limits) == Some(p)
    decreases |p|
  {
    hide ReadSegment, ValidSegment, Piece, Ends;
    if p == [] {
      assert text[position..] == [];
    } else {
      var piece, rest := Piece(p[0], true), p[1..];
      var next := position + |piece|;
      assert text[position..] == piece + Spell(rest, false);
      assert text[position..next] == text[position..][..|piece|] == piece;
      assert text[next..] == text[position..][|piece|..] == Spell(rest, false);
      if rest == [] {
        AtEnd(text, next);
        SegmentBack(text, position, p[0], limits);
        assert p == [p[0]];
      } else {
        var start := if rest[0].Index? then next else next + 1;
        StartOf(rest, limits);
        Resumes(text, next, rest);
        AtMark(text, next);
        SegmentBack(text, position, p[0], limits);
        PathBack(text, start, count + 1, rest, limits);
        assert p == [p[0]] + rest;
      }
    }
  }

  lemma Resumes(text: Text, next: nat, rest: Path)
    requires next <= |text| && rest != [] && text[next..] == Spell(rest, false) && Spell(rest, true) != []
    requires rest[0].Index? ==> Spell(rest, true)[0] == '['
    requires rest[0].Key? ==> Spell(rest, true)[0] !in {'[', '.', ']'}
    ensures next < |text| && text[next] == if rest[0].Index? then '[' else '.'
    ensures
      var start := if rest[0].Index? then next else next + 1;
      start < |text| && text[start..] == Spell(rest, true) && (rest[0].Key? ==> StartsKey(text, start))
  {
    hide Piece;
    Continued(rest);
    assert text[next] == text[next..][0];
    if rest[0].Key? {
      assert text[next..] == ['.'] + Spell(rest, true);
      assert text[next + 1] == text[next..][1];
      assert text[next + 1..] == text[next..][1..];
    }
  }

  lemma AtEnd(text: Text, position: nat)
    requires position <= |text| && text[position..] == []
    ensures position == |text| && Ends(text, position)
  {}

  lemma AtMark(text: Text, position: nat)
    requires position < |text| && (text[position] == '.' || text[position] == '[')
    ensures Ends(text, position)
  {}

  /** How the text of a path starts. */
  lemma StartOf(p: Path, limits: Limits)
    requires p != [] && ValidSegment(p[0], limits)
    ensures Spell(p, true) != []
    ensures p[0].Index? ==> Spell(p, true)[0] == '['
    ensures p[0].Key? ==> Spell(p, true)[0] !in {'[', '.', ']'}
  {
    if p[0].Key? {
      FirstOfKey(p[0].key);
    }
  }

  /** Exactly the paths inside the limits come back from their text. */
  lemma RoundTrip(p: Path, limits: Limits)
    ensures Parsed(ToText(p), limits) == Some(p) <==>
            p == [] || (ValidPath(p, limits) && |ToText(p)| <= Allowance(limits))
  {
    var text := ToText(p);
    if Parsed(text, limits) == Some(p) {
      OneSpelling(text, limits);
    } else if ValidPath(p, limits) && |text| <= Allowance(limits) {
      assert text[0..] == text;
      PathBack(text, 0, 0, p, limits);
    }
  }

  /** Distinct paths with valid keys have distinct texts: identities may hash the text. */
  lemma TextInjective(p: Path, q: Path)
    requires forall i :: 0 <= i < |p| ==> p[i].Key? ==> WellKeyed(p[i].key)
    requires forall i :: 0 <= i < |q| ==> q[i].Key? ==> WellKeyed(q[i].key)
    ensures ToText(p) == ToText(q) ==> p == q
  {
    var limits := Limits(|p| + |q|, LongestKey(p) + LongestKey(q));
    if ToText(p) == ToText(q) {
      var text := ToText(p);
      assert text[0..] == text;
      KeysWithin(p);
      KeysWithin(q);
      PathBack(text, 0, 0, p, limits);
      PathBack(text, 0, 0, q, limits);
    }
  }

  predicate WellKeyed(key: Text) { key != [] && forall i :: 0 <= i < |key| ==> !Control(key[i]) }

  function LongestKey(p: Path): nat {
    if p == [] then 0 else if p[0].Key? then |p[0].key| + LongestKey(p[1..]) else LongestKey(p[1..])
  }

  lemma {:induction false} KeysWithin(p: Path)
    ensures forall i :: 0 <= i < |p| && p[i].Key? ==> |p[i].key| <= LongestKey(p)
  {
    if p != [] {
      KeysWithin(p[1..]);
      forall i | 0 <= i < |p| && p[i].Key? ensures |p[i].key| <= LongestKey(p) {
        assert i > 0 ==> p[i] == p[1..][i - 1];
      }
    }
  }

  // ----- the operations

  method AppendEscapedKey(before: Text, key: Text) returns (out: Text)
    ensures out == before + Escaped(key)
  {
    out := before;
    var index := 0;
    while index < |key|
      invariant index <= |key| && out + Escaped(key[index..]) == before + Escaped(key)
    {
      var c := key[index];
      assert key[index..][0] == c && key[index..][1..] == key[index + 1..];
      ghost var done := out;
      if Escapable(c) {
        out := out + ['\\'];
      }
      out := out + [c];
      assert out == done + Escape(c);
      Associate(done, Escape(c), Escaped(key[index + 1..]));
      index := index + 1;
    }
    assert key[index..] == [];
  }

  method WriteSegment(before: Text, segment: Segment, first: bool) returns (out: Text)
    ensures out == before + Piece(segment, first)
  {
    hide Escaped, Decimal;
    out := before;
    if segment.Index? {
      out := out + ['['];
      out := out + Decimal(segment.index);
      out := out + [']'];
    } else {
      if !first {
        out := out + ['.'];
      }
      out := AppendEscapedKey(out, segment.key);
    }
  }

  method WriteText(p: Path) returns (out: Text)
    ensures out == ToText(p)
  {
    hide Piece, Spell;
    out := [];
    var first := true;
    var index := 0;
    assert p[0..] == p;
    while index < |p|
      invariant index <= |p| && first == (index == 0)
      invariant out + Spell(p[index..], first) == ToText(p)
    {
      Unfold(p, index, first);
      Associate(out, Piece(p[index], first), Spell(p[index + 1..], false));
      out := WriteSegment(out, p[index], first);
      first := false;
      index := index + 1;
    }
    NothingLeft(p[index..], first);
  }

  lemma NothingLeft(p: Path, first: bool)
    requires p == []
    ensures Spell(p, first) == []
  {}

  lemma Unfold(p: Path, index: nat, first: bool)
    requires index < |p|
    ensures Spell(p[index..], first) == Piece(p[index], first) + Spell(p[index + 1..], false)
  {
    hide Piece;
    assert p[index..][1..] == p[index + 1..];
  }

  method FindClose(text: Text, start: nat) returns (close: nat)
    requires start <= |text|
    ensures close == CloseFrom(text, start)
  {
    close := start;
    while close < |text| && text[close] != ']'
      invariant start <= close <= |text| && CloseFrom(text, start) == CloseFrom(text, close)
    {
      close := close + 1;
    }
  }

  /** The overflow test before each step refuses exactly the values past 64 bits. */
  method ParseIndex(digits: Text) returns (r: Option<uint64>)
    ensures r == ReadIndex(digits)
  {
    if digits == [] || |digits| > 20 {
      return None;
    }
    if |digits| > 1 && digits[0] == '0' {
      return None;
    }
    var value: uint64 := 0;
    var index := 0;
    while index < |digits|
      invariant index <= |digits| && AllDigits(digits[..index]) && value == ReadDigits(digits[..index])
    {
      var c := digits[index];
      if !IsDigit(c) {
        return None;
      }
      ghost var now := digits[..index + 1];
      assert now[..index] == digits[..index];
      var digit := DigitValue(c);
      if value > (UINT64_MAX - digit) / 10 {
        if AllDigits(digits) {
          Grows(digits, index + 1);
        }
        return None;
      }
      value := value * 10 + digit;
      index := index + 1;
    }
    assert digits[..index] == digits;
    return Some(value);
  }

  lemma {:induction false} Grows(digits: Text, k: nat)
    requires AllDigits(digits) && k <= |digits|
    ensures ReadDigits(digits[..k]) <= ReadDigits(digits)
    decreases |digits|
  {
    var n := |digits| - 1;
    if k == |digits| {
      assert digits[..k] == digits;
    } else {
      Grows(digits[..n], k);
      assert digits[..n][..k] == digits[..k];
    }
  }

  /** Reads one key, `None` where the whole text is refused. */
  method ParseKey(text: Text, start: nat) returns (r: Option<KeyRead>)
    requires start <= |text|
    ensures r == ReadKey(text, start)
  {
    hide Escapable, Control;
    var key: Text := [];
    var position := start;
    Start(ReadKey(text, start));
    while position < |text|
      invariant start <= position <= |text|
      invariant ReadKey(text, start) == Extended(key, ReadKey(text, position))
    {
      var c := text[position];
      if c == '\\' {
        if position + 1 >= |text| || !Escapable(text[position + 1]) {
          return None;
        }
        Extend(key, text[position + 1], ReadKey(text, position + 2));
        key := key + [text[position + 1]];
        position := position + 2;
        continue;
      }
      if c == '.' || c == '[' {
        break;
      }
      if c == ']' || Control(c) {
        return None;
      }
      Extend(key, c, ReadKey(text, position + 1));
      key := key + [c];
      position := position + 1;
    }
    assert ReadKey(text, position) == Some(KeyRead([], position)) && key + [] == key;
    return Some(KeyRead(key, position));
  }

  lemma Start(r: Option<KeyRead>)
    ensures Extended([], r) == r
  {
    if r.Some? {
      assert [] + r.value.key == r.value.key;
    }
  }

  function Extended(key: Text, r: Option<KeyRead>): Option<KeyRead> {
    if r.None? then None else Some(KeyRead(key + r.value.key, r.value.next))
  }

  lemma Extend(key: Text, c: byte, r: Option<KeyRead>)
    ensures Extended(key, Prepend(c, r)) == Extended(key + [c], r)
  {
    if r.Some? {
      Associate(key, [c], r.value.key);
    }
  }

  method TryParse(text: Text, maxSegments: nat, maxKeyBytes: nat) returns (r: Option<Path>)
    ensures r == Parsed(text, Limits(maxSegments, maxKeyBytes))
  {
    hide ReadSegment, StartsKey, Allowance;
    ghost var limits := Limits(maxSegments, maxKeyBytes);
    var path: Path := [];
    if text == [] {
      return Some(path);
    }
    if |text| > maxSegments * ((maxKeyBytes + 4) % SIZE) % SIZE {
      Allow(limits);
      return None;
    }
    Allow(limits);
    var position := 0;
    Entry(ReadFrom(text, 0, 0, limits));
    while position < |text|
      invariant position <= |text|
      invariant Parsed(text, limits) == Prefixed(path, ReadFrom(text, position, |path|, limits))
    {
      if |path| >= maxSegments {
        return None;
      }
      var read := ParseSegment(text, position, maxKeyBytes, limits);
      if read.None? {
        return None;
      }
      var (segment, next) := read.value;
      ghost var before := path;
      path := path + [segment];
      if next == |text| {
        return Some(path);
      }
      if text[next] != '.' && text[next] != '[' {
        return None;
      }
      position := next;
      if text[next] == '.' {
        position := next + 1;
        if !StartsKey(text, position) {
          return None;
        }
      }
      Prefix(before, segment, ReadFrom(text, position, |path|, limits));
    }
    assert path + [] == path;
    return Some(path);
  }

  function Prefixed(p: Path, r: Option<Path>): Option<Path> {
    if r.None? then None else Some(p + r.value)
  }

  lemma Entry(r: Option<Path>)
    ensures Prefixed([], r) == r
  {
    if r.Some? {
      assert [] + r.value == r.value;
    }
  }

  lemma Prefix(p: Path, s: Segment, r: Option<Path>)
    ensures Prefixed(p, Joined(s, r)) == Prefixed(p + [s], r)
  {
    if r.Some? {
      assert p + ([s] + r.value) == (p + [s]) + r.value;
    }
  }

  lemma Allow(limits: Limits)
    ensures Allowance(limits) == limits.segments * ((limits.keyBytes + 4) % SIZE) % SIZE
  {}

  method ParseSegment(text: Text, position: nat, maxKeyBytes: nat, ghost limits: Limits)
    returns (r: Option<(Segment, nat)>)
    requires position < |text| && limits.keyBytes == maxKeyBytes
    ensures r == ReadSegment(text, position, limits)
  {
    hide ReadIndex, ReadKey, CloseFrom;
    if text[position] == '[' {
      var close := FindClose(text, position + 1);
      if close == |text| {
        return None;
      }
      var value := ParseIndex(text[position + 1..close]);
      return if value.None? then None else Some((Index(value.value), close + 1));
    }
    var key := ParseKey(text, position);
    if key.None? || key.value.key == [] || |key.value.key| > maxKeyBytes {
      return None;
    }
    return Some((Key(key.value.key), key.value.next));
  }

  /** A key with nothing to escape is its own text. */
  lemma KeyParses(key: Text, limits: Limits)
    requires limits.segments > 0 && ValidSegment(Key(key), limits) && |key| <= Allowance(limits)
    requires forall i :: 0 <= i < |key| ==> !Escapable(key[i])
    ensures Parsed(key, limits) == Some([Key(key)])
  {
    hide Parsed, Allowance, Escaped, ValidSegment;
    var p: Path := [Key(key)];
    Plain(key);
    assert p[1..] == [];
    assert Spell(p[1..], false) == [];
    assert Piece(p[0], true) == [] + Escaped(key) == key;
    assert ToText(p) == key + [] == key;
    assert ValidPath(p, limits) by { assert p[0] == Key(key); }
    RoundTrip(p, limits);
  }

  lemma {:induction false} Plain(key: Text)
    requires forall i :: 0 <= i < |key| ==> !Escapable(key[i])
    ensures Escaped(key) == key
  {
    if key != [] {
      Plain(key[1..]);
    }
  }

  /** The reserved marker's text is the path of one key. */
  lemma AppliedGenerationParses()
    ensures Parsed("@applied-generation", Limits(4, 128)) == Some([Key("@applied-generation")])
  {
    hide Parsed;
    KeyParses("@applied-generation", Limits(4, 128));
  }

  // ----- the order of paths, under which tables of fields are walked

  predicate SegmentLess(a: Segment, b: Segment) {
    match (a, b)
    case (Key(x), Key(y)) => Less(x, y)
    case (Index(m), Index(n)) => m < n
    case (Key(_), Index(_)) => true
    case (Index(_), Key(_)) => false
  }

  predicate PathLess(p: Path, q: Path) {
    q != [] && (p == [] || SegmentLess(p[0], q[0]) || (p[0] == q[0] && PathLess(p[1..], q[1..])))
  }

  lemma SegmentOrder(a: Segment, b: Segment, c: Segment)
    ensures a == b || SegmentLess(a, b) || SegmentLess(b, a)
    ensures SegmentLess(a, b) ==> a != b && !SegmentLess(b, a)
    ensures SegmentLess(a, b) && SegmentLess(b, c) ==> SegmentLess(a, c)
  {
    hide Less;
    if a.Key? && b.Key? {
      LessTotal(a.key, b.key);
      if Less(a.key, b.key) {
        LessStrict(a.key, b.key);
        if c.Key? && Less(b.key, c.key) {
          LessTransitive(a.key, b.key, c.key);
        }
      }
    }
  }

  /** The order of paths is total and strict, so a table has one walk. */
  lemma {:induction false} PathOrder(p: Path, q: Path, r: Path)
    ensures p == q || PathLess(p, q) || PathLess(q, p)
    ensures PathLess(p, q) ==> p != q && !PathLess(q, p)
    ensures PathLess(p, q) && PathLess(q, r) ==> PathLess(p, r)
  {
    hide SegmentLess;
    if p != [] && q != [] {
      var c := if r == [] then q[0] else r[0];
      SegmentOrder(p[0], q[0], c);
      SegmentOrder(q[0], p[0], c);
      SegmentOrder(q[0], c, c);
      PathOrder(p[1..], q[1..], if r == [] then [] else r[1..]);
      assert p == [p[0]] + p[1..] && q == [q[0]] + q[1..];
    }
  }
}
