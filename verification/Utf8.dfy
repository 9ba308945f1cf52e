/** Well-formed UTF-8: exactly the concatenations of encoded scalar values. */
module Utf8 {
  import opened Core

  predicate Scalar(c: int) { 0 <= c <= 0x10FFFF && !(0xD800 <= c <= 0xDFFF) }

  type scalar = c: int | 0 <= c < 0xD800 || 0xE000 <= c <= 0x10FFFF

  function Byte(n: int): byte
    requires 0 <= n < 256
  {
    n as char
  }

  function Code(b: byte): (n: int)
    ensures 0 <= n < 256
  {
    b as int
  }

  /** The octets of one code point: the high bits in the lead octet, six in each that follows. */
  function Encode(c: scalar): (s: Text)
    ensures 1 <= |s| <= 4
  {
    if c < 0x80 then [Byte(c)]
    else if c < 0x800 then [Byte(0xC0 + c / 64), Byte(0x80 + c % 64)]
    else if c < 0x10000 then [Byte(0xE0 + c / 4096), Byte(0x80 + c / 64 % 64), Byte(0x80 + c % 64)]
    else [Byte(0xF0 + c / 262144), Byte(0x80 + c / 4096 % 64), Byte(0x80 + c / 64 % 64), Byte(0x80 + c % 64)]
  }

  function EncodeAll(cs: seq<scalar>): Text {
    if cs == [] then [] else Encode(cs[0]) + EncodeAll(cs[1..])
  }

  // ----- the scan

  /** How many octets follow a lead octet; none for ASCII, no answer for an invalid lead. */
  function Extra(lead: int): Option<nat>
    requires 0 <= lead < 256
  {
    if lead < 0x80 then Some(0)
    else if 0xC0 <= lead < 0xE0 then if lead == 0xC0 then None else Some(1)
    else if 0xE0 <= lead < 0xF0 then Some(2)
    else if 0xF0 <= lead < 0xF8 then Some(3)
    else None
  }

  function LeadBits(lead: int): int
    requires 0 <= lead < 256
  {
    if lead < 0x80 then lead else if lead < 0xE0 then lead % 32 else if lead < 0xF0 then lead % 16 else lead % 8
  }

  predicate Continuation(b: byte) { 0x80 <= Code(b) < 0xC0 }

  /** The code point accumulated from a lead octet and the first n that follow it. */
  function Gather(s: Text, n: nat): int
    requires n < |s|
  {
    if n == 0 then LeadBits(Code(s[0])) else Gather(s, n - 1) * 64 + Code(s[n]) % 64
  }

  predicate Shortest(c: int, extra: nat) {
    (extra == 1 ==> c >= 0x80) && (extra == 2 ==> c >= 0x800) && (extra == 3 ==> c >= 0x10000)
  }

  /** The number of octets of a well-formed first code point. */
  function First(s: Text): (n: Option<nat>)
    requires s != []
    ensures n.Some? ==> 1 <= n.value <= |s|
  {
    var extra := Extra(Code(s[0]));
    if extra.None? || extra.value >= |s| then None
    else if exists i :: 1 <= i <= extra.value && !Continuation(s[i]) then None
    else
      var c := Gather(s, extra.value);
      if Shortest(c, extra.value) && Scalar(c) then Some(extra.value + 1) else None
  }

  predicate Valid(s: Text)
    decreases |s|
  {
    s == [] || (First(s).Some? && Valid(s[First(s).value..]))
  }

  method IsValidUtf8(text: Text) returns (ok: bool)
    ensures ok == Valid(text)
  {
    hide Gather, Extra, LeadBits;
    var index := 0;
    assert text[0..] == text;
    while index < |text|
      invariant index <= |text| && Valid(text) == Valid(text[index..])
    {
      var rest := text[index..];
      var extra := Extra(Code(text[index]));
      if extra.None? { return false; }
      if index + extra.value >= |text| { return false; }
      var c := LeadBits(Code(text[index]));
      LeadGather(rest);
      for offset := 1 to extra.value + 1
        invariant c == Gather(rest, offset - 1)
        invariant forall i :: 1 <= i < offset ==> Continuation(rest[i])
      {
        if !Continuation(text[index + offset]) { return false; }
        NextGather(rest, offset);
        c := c * 64 + Code(text[index + offset]) % 64;
      }
      if !Shortest(c, extra.value) || !Scalar(c) { return false; }
      assert text[index + extra.value + 1..] == rest[extra.value + 1..];
      index := index + extra.value + 1;
    }
    return true;
  }

  lemma LeadGather(s: Text)
    requires s != []
    ensures Gather(s, 0) == LeadBits(Code(s[0]))
  {}

  lemma NextGather(s: Text, n: nat)
    requires 0 < n < |s|
    ensures Gather(s, n) == Gather(s, n - 1) * 64 + Code(s[n]) % 64
  {}

  // ----- one code point

  lemma EncodedFirst(c: scalar, t: Text)
    ensures First(Encode(c) + t) == Some(|Encode(c)|)
  {
    var s := Encode(c) + t;
    var e := Encode(c);
    assert forall i :: 0 <= i < |e| ==> s[i] == e[i];
    EncodedShape(c);
    GatherPrefix(e, t, |e| - 1);
  }

  lemma EncodedShape(c: scalar)
    ensures
      var e := Encode(c);
      && Extra(Code(e[0])) == Some(|e| - 1) && (forall i :: 1 <= i < |e| ==> Continuation(e[i]))
      && Gather(e, |e| - 1) == c && Shortest(c, |e| - 1)
  {
    var e := Encode(c);
    if c >= 0x10000 {
      FourBack(c);
      GatherFour(e);
    } else if c >= 0x800 {
      ThreeBack(c);
      GatherThree(e);
    } else if c >= 0x80 {
      TwoBack(c);
      GatherTwo(e);
    }
  }

  lemma GatherTwo(s: Text)
    requires |s| > 1
    ensures Gather(s, 1) == LeadBits(Code(s[0])) * 64 + Code(s[1]) % 64
  {
    hide LeadBits;
  }

  lemma GatherThree(s: Text)
    requires |s| > 2
    ensures Gather(s, 2) == (LeadBits(Code(s[0])) * 64 + Code(s[1]) % 64) * 64 + Code(s[2]) % 64
  {
    hide LeadBits;
    GatherTwo(s);
  }

  lemma GatherFour(s: Text)
    requires |s| > 3
    ensures Gather(s, 3)
         == ((LeadBits(Code(s[0])) * 64 + Code(s[1]) % 64) * 64 + Code(s[2]) % 64) * 64 + Code(s[3]) % 64
  {
    hide LeadBits;
    GatherThree(s);
  }

  lemma TwoBack(c: int)
    requires 0x80 <= c < 0x800
    ensures (0xC0 + c / 64) % 32 * 64 + (0x80 + c % 64) % 64 == c && 0xC2 <= 0xC0 + c / 64 < 0xE0
  {}

  lemma ThreeBack(c: int)
    requires 0x800 <= c < 0x10000
    ensures ((0xE0 + c / 4096) % 16 * 64 + (0x80 + c / 64 % 64) % 64) * 64 + (0x80 + c % 64) % 64 == c
    ensures 0xE0 <= 0xE0 + c / 4096 < 0xF0
  {
    assert c / 4096 * 64 + c / 64 % 64 == c / 64;
  }

  lemma FourBack(c: int)
    requires 0x10000 <= c <= 0x10FFFF
    ensures (((0xF0 + c / 262144) % 8 * 64 + (0x80 + c / 4096 % 64) % 64) * 64 + (0x80 + c / 64 % 64) % 64) * 64
            + (0x80 + c % 64) % 64 == c
    ensures 0xF0 <= 0xF0 + c / 262144 < 0xF8
  {
    assert c / 262144 * 64 + c / 4096 % 64 == c / 4096;
    assert c / 4096 * 64 + c / 64 % 64 == c / 64;
  }

  lemma {:induction false} GatherPrefix(s: Text, t: Text, n: nat)
    requires n < |s|
    ensures Gather(s + t, n) == Gather(s, n)
  {
    if n > 0 { GatherPrefix(s, t, n - 1); }
  }

  /** The octets of a well-formed first code point are its encoding. */
  lemma FirstEncoded(s: Text) returns (c: scalar)
    requires s != [] && First(s).Some?
    ensures s[..First(s).value] == Encode(c)
  {
    hide Gather, Encode;
    var extra := Extra(Code(s[0])).value;
    c := Gather(s, extra);
    if extra == 0 { OneOctet(s); }
    else if extra == 1 { TwoOctets(s); }
    else if extra == 2 { ThreeOctets(s); }
    else { FourOctets(s); }
  }

  lemma OneOctet(s: Text)
    requires s != [] && Code(s[0]) < 0x80
    ensures Gather(s, 0) == Code(s[0]) && Encode(Code(s[0])) == s[..1]
  {}

  lemma TwoOctets(s: Text)
    requires |s| > 1 && 0xC0 <= Code(s[0]) < 0xE0 && Continuation(s[1]) && Gather(s, 1) >= 0x80
    ensures Scalar(Gather(s, 1)) && Encode(Gather(s, 1)) == s[..2]
  {
    hide Gather;
    GatherTwo(s);
    TwoSplit(Code(s[0]), Code(s[1]));
  }

  lemma TwoSplit(a: int, b: int)
    requires 0xC0 <= a < 0xE0 && 0x80 <= b < 0xC0
    ensures var c := a % 32 * 64 + b % 64; c < 0x800 && 0xC0 + c / 64 == a && 0x80 + c % 64 == b
  {}

  lemma ThreeOctets(s: Text)
    requires |s| > 2 && 0xE0 <= Code(s[0]) < 0xF0 && Continuation(s[1]) && Continuation(s[2])
    requires Gather(s, 2) >= 0x800 && Scalar(Gather(s, 2))
    ensures Encode(Gather(s, 2)) == s[..3]
  {
    hide Gather;
    GatherThree(s);
    ThreeSplit(Code(s[0]), Code(s[1]), Code(s[2]));
  }

  lemma ThreeSplit(a: int, b: int, d: int)
    requires 0xE0 <= a < 0xF0 && 0x80 <= b < 0xC0 && 0x80 <= d < 0xC0
    ensures
      var c := (a % 16 * 64 + b % 64) * 64 + d % 64;
      c < 0x10000 && 0xE0 + c / 4096 == a && 0x80 + c / 64 % 64 == b && 0x80 + c % 64 == d
  {
    var c := (a % 16 * 64 + b % 64) * 64 + d % 64;
    assert c / 64 == a % 16 * 64 + b % 64;
  }

  lemma FourOctets(s: Text)
    requires |s| > 3 && 0xF0 <= Code(s[0]) < 0xF8
    requires Continuation(s[1]) && Continuation(s[2]) && Continuation(s[3])
    requires Gather(s, 3) >= 0x10000 && Scalar(Gather(s, 3))
    ensures Encode(Gather(s, 3)) == s[..4]
  {
    hide Gather;
    GatherFour(s);
    FourSplit(Code(s[0]), Code(s[1]), Code(s[2]), Code(s[3]));
  }

  lemma FourSplit(a: int, b: int, d: int, e: int)
    requires 0xF0 <= a < 0xF8 && 0x80 <= b < 0xC0 && 0x80 <= d < 0xC0 && 0x80 <= e < 0xC0
    ensures
      var c := ((a % 8 * 64 + b % 64) * 64 + d % 64) * 64 + e % 64;
      0xF0 + c / 262144 == a && 0x80 + c / 4096 % 64 == b && 0x80 + c / 64 % 64 == d && 0x80 + c % 64 == e
  {
    var c := ((a % 8 * 64 + b % 64) * 64 + d % 64) * 64 + e % 64;
    assert c / 64 == (a % 8 * 64 + b % 64) * 64 + d % 64;
    assert c / 4096 == a % 8 * 64 + b % 64;
  }

  // ----- whole strings

  lemma {:induction false} EncodedValid(cs: seq<scalar>)
    ensures Valid(EncodeAll(cs))
  {
    hide First, Encode;
    if cs != [] {
      EncodedFirst(cs[0], EncodeAll(cs[1..]));
      EncodedValid(cs[1..]);
      assert EncodeAll(cs)[|Encode(cs[0])|..] == EncodeAll(cs[1..]);
    }
  }

  lemma {:induction false} ValidEncoded(s: Text) returns (cs: seq<scalar>)
    requires Valid(s)
    ensures EncodeAll(cs) == s
    decreases |s|
  {
    hide First, Encode;
    if s == [] {
      cs := [];
    } else {
      var n := First(s).value;
      var c := FirstEncoded(s);
      var rest := ValidEncoded(s[n..]);
      cs := [c] + rest;
      assert cs[1..] == rest;
      assert s == s[..n] + s[n..];
    }
  }

  /** The scan accepts exactly the encodings: no overlong form, no surrogate, no truncation. */
  lemma ValidMeans(s: Text)
    ensures Valid(s) <==> exists cs :: EncodeAll(cs) == s
  {
    hide EncodeAll, Valid;
    if Valid(s) {
      var cs := ValidEncoded(s);
    }
    forall cs | EncodeAll(cs) == s ensures Valid(s) {
      EncodedValid(cs);
    }
  }
}
