/** CRC-32: the table-driven loop that guards a wire frame, its bit-by-bit
    meaning (section 3.2.9 of IEEE 802.3, reflected form), and what it detects.

    Facts about single machine words are proved by bit-blasting; everything
    inductive is proved with the word operations hidden. */
module Crc32 {
  const ALL_ONES: bv32 := 0xFFFF_FFFF

  function Xor(a: bv32, b: bv32): bv32 { a ^ b }

  /** One shift of the reflected register. */
  function Step(r: bv32): bv32 {
    if r & 1 == 1 then 0xEDB8_8320 ^ (r >> 1) else r >> 1
  }

  function Steps(r: bv32, n: nat): bv32
    decreases n
  {
    if n == 0 then r else Steps(Step(r), n - 1)
  }

  function Word(b: bv8): bv32 { b as bv32 }

  /** The register after a message: every octet enters at the low end and is shifted out bit by bit. */
  function Register(r: bv32, data: seq<bv8>): bv32
    decreases |data|
  {
    if data == [] then r else Register(Steps(Xor(r, Word(data[0])), 8), data[1..])
  }

  function Checksum(data: seq<bv8>): bv32 {
    Xor(Register(ALL_ONES, data), ALL_ONES)
  }

  // ----- facts about one word

  lemma LowBit(a: bv32, b: bv32)
    ensures (a ^ b) & 1 == (a & 1) ^ (b & 1) && (a & 1 == 0 || a & 1 == 1)
  {}

  lemma Halves(a: bv32, b: bv32)
    ensures (a ^ b) >> 1 == (a >> 1) ^ (b >> 1)
  {}

  lemma Regroup(a: bv32, b: bv32, p: bv32)
    ensures p ^ (a ^ b) == (p ^ a) ^ b == a ^ (p ^ b)
    ensures (p ^ a) ^ (p ^ b) == a ^ b
  {}

  lemma StepLinear(a: bv32, b: bv32)
    ensures Step(Xor(a, b)) == Xor(Step(a), Step(b))
  {
    LowBit(a, b);
    LowBit(b, a);
    Halves(a, b);
    Regroup(a >> 1, b >> 1, 0xEDB8_8320);
  }

  /** The register one shift earlier. */
  function Unstep(r: bv32): bv32 {
    if r >> 31 == 1 then ((r ^ 0xEDB8_8320) << 1) | 1 else r << 1
  }

  lemma UnstepStep(r: bv32)
    ensures Unstep(Step(r)) == r
  {}

  lemma DoubledWord(x: bv32)
    requires x >> 31 == 0
    ensures ((x << 1) | 1) & 1 == 1 && ((x << 1) | 1) >> 1 == x
    ensures (x << 1) & 1 == 0 && (x << 1) >> 1 == x
  {}

  lemma ClearTop(r: bv32)
    ensures r >> 31 == 1 ==> (r ^ 0xEDB8_8320) >> 31 == 0 && 0xEDB8_8320 ^ (r ^ 0xEDB8_8320) == r
    ensures r >> 31 == 0 || r >> 31 == 1
  {}

  /** Each step of the register is a bijection. */
  lemma StepBijective(r: bv32)
    ensures Unstep(Step(r)) == r && Step(Unstep(r)) == r
  {
    UnstepStep(r);
    ClearTop(r);
    DoubledWord(if r >> 31 == 1 then r ^ 0xEDB8_8320 else r);
  }

  function Halve(y: bv32): bv32 { y >> 1 }
  function Low(y: bv32): bv32 { y & 0xFF }
  function High(y: bv32): bv32 { y & 0xFFFF_FF00 }
  function Drop(y: bv32): bv32 { y >> 8 }
  predicate Even(y: bv32) { y & 1 == 0 }

  lemma EvenStep(y: bv32)
    requires Even(y)
    ensures Step(y) == Halve(y)
  {}

  lemma ZeroOctet(y: bv32)
    requires Low(y) == 0
    ensures Even(y) && Even(Halve(y)) && Even(Halve(Halve(y))) && Even(Halve(Halve(Halve(y))))
    ensures var z := Halve(Halve(Halve(Halve(y))));
            && Even(z) && Even(Halve(z)) && Even(Halve(Halve(z))) && Even(Halve(Halve(Halve(z))))
            && Halve(Halve(Halve(Halve(z)))) == Drop(y)
  {}

  lemma LowAndHigh(x: bv32)
    ensures x == Xor(Low(x), High(x)) && Low(High(x)) == 0 && Drop(High(x)) == Drop(x)
  {}

  function Entry(index: nat): bv32
    requires index < 256
  {
    index as bv32
  }

  lemma OctetIndex(x: bv32)
    ensures Low(x) as int < 256 && Entry(Low(x) as int) == Low(x)
  {}

  lemma OctetIsLow(r: bv32, b: bv8)
    ensures Drop(Xor(r, Word(b))) == Drop(r)
  {}

  lemma XorZero(a: bv32)
    ensures Xor(a, 0) == a
  {}

  lemma XorAssociative(a: bv32, b: bv32, c: bv32)
    ensures Xor(Xor(a, b), c) == Xor(a, Xor(b, c))
  {}

  lemma XorLeft(a: bv32, b: bv32, c: bv32)
    requires Xor(a, b) == Xor(a, c)
    ensures b == c
  {
    assert Xor(a, Xor(a, b)) == b && Xor(a, Xor(a, c)) == c;
  }

  lemma XorRight(a: bv32, b: bv32, c: bv32)
    requires Xor(a, c) == Xor(b, c)
    ensures a == b
  {
    assert Xor(Xor(a, c), c) == a && Xor(Xor(b, c), c) == b;
  }

  // ----- iterating the step

  lemma {:induction false} StepsLinear(a: bv32, b: bv32, n: nat)
    ensures Steps(Xor(a, b), n) == Xor(Steps(a, n), Steps(b, n))
    decreases n
  {
    hide Step, Xor;
    if n > 0 {
      StepLinear(a, b);
      StepsLinear(Step(a), Step(b), n - 1);
    }
  }

  lemma {:induction false} StepsInjective(a: bv32, b: bv32, n: nat)
    requires Steps(a, n) == Steps(b, n)
    ensures a == b
    decreases n
  {
    hide Step, Unstep;
    if n > 0 {
      StepsInjective(Step(a), Step(b), n - 1);
      UnstepStep(a);
      UnstepStep(b);
    }
  }

  /** A register whose low octet is zero simply moves down by one octet. */
  lemma StepsShift(y: bv32)
    requires Low(y) == 0
    ensures Steps(y, 8) == Drop(y)
  {
    hide *;
    ZeroOctet(y);
    var y4 := Halve(Halve(Halve(Halve(y))));
    FourSteps(y, 8);
    FourSteps(y4, 4);
    NoSteps(Drop(y));
  }

  lemma NoSteps(y: bv32)
    ensures Steps(y, 0) == y
  {}

  lemma FourSteps(y: bv32, n: nat)
    requires Even(y) && Even(Halve(y)) && Even(Halve(Halve(y))) && Even(Halve(Halve(Halve(y))))
    requires n >= 4
    ensures Steps(y, n) == Steps(Halve(Halve(Halve(Halve(y)))), n - 4)
  {
    hide Step, Halve, Even;
    EvenStep(y);
    EvenStep(Halve(y));
    EvenStep(Halve(Halve(y)));
    EvenStep(Halve(Halve(Halve(y))));
    assert Steps(y, n) == Steps(Halve(Halve(y)), n - 2);
    assert Steps(Halve(Halve(y)), n - 2) == Steps(Halve(Halve(Halve(Halve(y)))), n - 4);
  }

  /** One table look-up does the work of eight single-bit steps. */
  lemma TableStep(r: bv32, b: bv8)
    ensures Xor(Steps(Low(Xor(r, Word(b))), 8), Drop(r)) == Steps(Xor(r, Word(b)), 8)
  {
    hide *;
    var x := Xor(r, Word(b));
    LowAndHigh(x);
    OctetIsLow(r, b);
    StepsLinear(Low(x), High(x), 8);
    StepsShift(High(x));
  }

  // ----- the table and the loop

  /** The 256 entries, each found by eight conditional shifts. */
  method BuildTable() returns (values: seq<bv32>)
    ensures |values| == 256
    ensures forall i :: 0 <= i < 256 ==> values[i] == Steps(Entry(i), 8)
  {
    hide *;
    values := [];
    for index := 0 to 256
      invariant |values| == index
      invariant forall i :: 0 <= i < index ==> values[i] == Steps(Entry(i), 8)
    {
      var value := TableEntry(index);
      values := values + [value];
    }
  }

  method TableEntry(index: nat) returns (value: bv32)
    requires index < 256
    ensures value == Steps(Entry(index), 8)
  {
    hide Step, Entry;
    value := Entry(index);
    for bit := 0 to 8
      invariant Steps(value, 8 - bit) == Steps(Entry(index), 8)
    {
      value := Shift(value);
    }
  }

  method Shift(value: bv32) returns (shifted: bv32)
    ensures shifted == Step(value)
  {
    if value & 1 != 0 {
      shifted := 0xEDB8_8320 ^ (value >> 1);
    } else {
      shifted := value >> 1;
    }
  }

  method Compute(data: seq<bv8>) returns (crc: bv32)
    ensures crc == Checksum(data)
  {
    hide Steps, Step, Xor, Word, Low, Drop, Entry;
    var table := BuildTable();
    crc := ALL_ONES;
    for index := 0 to |data|
      invariant Register(crc, data[index..]) == Register(ALL_ONES, data)
    {
      var x := Xor(crc, Word(data[index]));
      OctetIndex(x);
      TableStep(crc, data[index]);
      assert data[index..][1..] == data[index + 1..];
      crc := Xor(table[Low(x) as int], Drop(crc));
    }
    crc := Xor(crc, ALL_ONES);
  }

  // ----- what the checksum detects

  lemma {:induction false} RegisterConcat(r: bv32, a: seq<bv8>, b: seq<bv8>)
    ensures Register(r, a + b) == Register(Register(r, a), b)
    decreases |a|
  {
    hide Steps, Xor, Word;
    if a == [] {
      assert a + b == b;
    } else {
      assert (a + b)[1..] == a[1..] + b;
      RegisterConcat(Steps(Xor(r, Word(a[0])), 8), a[1..], b);
    }
  }

  /** Distinct registers stay distinct through any common suffix. */
  lemma {:induction false} RegisterInjective(r: bv32, q: bv32, data: seq<bv8>)
    requires Register(r, data) == Register(q, data)
    ensures r == q
    decreases |data|
  {
    hide Steps, Xor, Word;
    if data != [] {
      var x := Word(data[0]);
      RegisterInjective(Steps(Xor(r, x), 8), Steps(Xor(q, x), 8), data[1..]);
      StepsInjective(Xor(r, x), Xor(q, x), 8);
      XorRight(r, q, x);
    }
  }

  function Up(x: bv32): bv32 { x << 8 }

  /** Up to four octets as the register bits they land on. */
  function Pack(w: seq<bv8>): bv32
    decreases |w|
  {
    if w == [] then 0 else Xor(Word(w[0]), Up(Pack(w[1..])))
  }

  predicate Fits(x: bv32, octets: nat) {
    if octets == 0 then x == 0
    else if octets == 1 then x & 0xFFFF_FF00 == 0
    else if octets == 2 then x & 0xFFFF_0000 == 0
    else octets == 3 ==> x & 0xFF00_0000 == 0
  }

  lemma FitsThree(x: bv32)
    ensures x & 0xFFFF_0000 == 0 ==> x & 0xFF00_0000 == 0
    ensures x & 0xFFFF_FF00 == 0 ==> x & 0xFF00_0000 == 0
    ensures x == 0 ==> x & 0xFF00_0000 == 0
  {}

  lemma GrowOne(b: bv8)
    ensures Xor(Word(b), Up(0)) & 0xFFFF_FF00 == 0
  {}

  lemma GrowTwo(b: bv8, x: bv32)
    requires x & 0xFFFF_FF00 == 0
    ensures Xor(Word(b), Up(x)) & 0xFFFF_0000 == 0
  {}

  lemma GrowThree(b: bv8, x: bv32)
    requires x & 0xFFFF_0000 == 0
    ensures Xor(Word(b), Up(x)) & 0xFF00_0000 == 0
  {}

  lemma PackStep(b: bv8, x: bv32, octets: nat)
    requires octets < 4 && Fits(x, octets)
    ensures Fits(Xor(Word(b), Up(x)), octets + 1)
    ensures Low(Up(x)) == 0 && Drop(Up(x)) == x
  {
    hide Xor, Word, Up, Low, Drop;
    if octets == 0 {
      GrowOne(b);
    } else if octets == 1 {
      GrowTwo(b, x);
    } else if octets == 2 {
      GrowThree(b, x);
    }
    FitsThree(x);
    ShiftBack(x);
  }

  lemma ShiftBack(x: bv32)
    requires x & 0xFF00_0000 == 0
    ensures Low(Up(x)) == 0 && Drop(Up(x)) == x
  {}

  lemma {:induction false} PackFits(w: seq<bv8>)
    requires |w| <= 4
    ensures Fits(Pack(w), |w|)
    decreases |w|
  {
    if w != [] {
      PackFits(w[1..]);
      hide Word, Up, Xor, Fits;
      PackStep(w[0], Pack(w[1..]), |w| - 1);
    }
  }

  lemma {:induction false} StepsAdd(r: bv32, m: nat, n: nat)
    ensures Steps(r, m + n) == Steps(Steps(r, m), n)
    decreases m
  {
    hide Step;
    if m > 0 {
      StepsAdd(Step(r), m - 1, n);
    }
  }

  /** Four octets fed one by one act on the register like one packed word. */
  lemma {:induction false} RegisterPacked(r: bv32, w: seq<bv8>)
    requires |w| <= 4
    ensures Register(r, w) == Steps(Xor(r, Pack(w)), 8 * |w|)
    decreases |w|
  {
    hide Steps, Step, Word, Up, Xor, Fits, Low, Drop;
    if w == [] {
      XorZero(r);
      NoSteps(r);
    } else {
      var rest := Pack(w[1..]);
      var x := Xor(r, Word(w[0]));
      PackFits(w[1..]);
      PackStep(w[0], rest, |w| - 1);
      XorAssociative(r, Word(w[0]), Up(rest));
      StepsLinear(x, Up(rest), 8);
      StepsShift(Up(rest));
      RegisterPacked(Steps(x, 8), w[1..]);
      StepsAdd(Xor(r, Pack(w)), 8, 8 * |w[1..]|);
    }
  }

  lemma Unpack(b: bv8, x: bv32)
    ensures Low(Xor(Word(b), Up(x))) == Word(b)
    ensures Drop(Xor(Word(b), Up(x))) == Drop(Up(x))
  {}

  lemma WordInjective(a: bv8, b: bv8)
    requires Word(a) == Word(b)
    ensures a == b
  {}

  lemma {:induction false} PackInjective(v: seq<bv8>, w: seq<bv8>)
    requires |v| == |w| <= 4 && Pack(v) == Pack(w)
    ensures v == w
    decreases |v|
  {
    hide Word, Up, Xor, Fits, Low, Drop;
    if v != [] {
      PackFits(v[1..]);
      PackFits(w[1..]);
      PackStep(v[0], Pack(v[1..]), |v| - 1);
      PackStep(w[0], Pack(w[1..]), |v| - 1);
      Unpack(v[0], Pack(v[1..]));
      Unpack(w[0], Pack(w[1..]));
      WordInjective(v[0], w[0]);
      PackInjective(v[1..], w[1..]);
      assert v == [v[0]] + v[1..] && w == [w[0]] + w[1..];
    }
  }

  /** Two messages of one length that agree outside a window of four consecutive
      octets have the same checksum only when they are the same message. */
  lemma BurstDetected(p: seq<bv8>, q: seq<bv8>, at: nat, n: nat)
    requires |p| == |q| && at + n <= |p| && n <= 4
    requires p[..at] == q[..at] && p[at + n..] == q[at + n..]
    ensures Checksum(p) == Checksum(q) <==> p == q
  {
    hide Register, Steps, Xor, Pack;
    if Checksum(p) == Checksum(q) {
      var pre, suf := p[..at], p[at + n..];
      var v, w := p[at..at + n], q[at..at + n];
      assert p == pre + v + suf && q == pre + w + suf;
      RegisterConcat(ALL_ONES, pre + v, suf);
      RegisterConcat(ALL_ONES, pre + w, suf);
      RegisterConcat(ALL_ONES, pre, v);
      RegisterConcat(ALL_ONES, pre, w);
      var r := Register(ALL_ONES, pre);
      XorRight(Register(ALL_ONES, p), Register(ALL_ONES, q), ALL_ONES);
      RegisterInjective(Register(r, v), Register(r, w), suf);
      RegisterPacked(r, v);
      RegisterPacked(r, w);
      StepsInjective(Xor(r, Pack(v)), Xor(r, Pack(w)), 8 * n);
      XorLeft(r, Pack(v), Pack(w));
      PackInjective(v, w);
    }
  }
}
