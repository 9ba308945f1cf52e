/** Incremental SHA-256: a 64-octet block buffer in front of the compression
    function, against the one-shot definition of FIPS 180-4. */
module Sha256 {
  import opened Core
  import opened Numbers

  type Words = seq<bv32>

  /** The round constants, eight to a row. */
  const K: seq<Words> := [
    [0x428a2f98, 0x71374491, 0xb5c0fbcf, 0xe9b5dba5, 0x3956c25b, 0x59f111f1, 0x923f82a4, 0xab1c5ed5],
    [0xd807aa98, 0x12835b01, 0x243185be, 0x550c7dc3, 0x72be5d74, 0x80deb1fe, 0x9bdc06a7, 0xc19bf174],
    [0xe49b69c1, 0xefbe4786, 0x0fc19dc6, 0x240ca1cc, 0x2de92c6f, 0x4a7484aa, 0x5cb0a9dc, 0x76f988da],
    [0x983e5152, 0xa831c66d, 0xb00327c8, 0xbf597fc7, 0xc6e00bf3, 0xd5a79147, 0x06ca6351, 0x14292967],
    [0x27b70a85, 0x2e1b2138, 0x4d2c6dfc, 0x53380d13, 0x650a7354, 0x766a0abb, 0x81c2c92e, 0x92722c85],
    [0xa2bfe8a1, 0xa81a664b, 0xc24b8b70, 0xc76c51a3, 0xd192e819, 0xd6990624, 0xf40e3585, 0x106aa070],
    [0x19a4c116, 0x1e376c08, 0x2748774c, 0x34b0bcb5, 0x391c0cb3, 0x4ed8aa4a, 0x5b9cca4f, 0x682e6ff3],
    [0x748f82ee, 0x78a5636f, 0x84c87814, 0x8cc70208, 0x90befffa, 0xa4506ceb, 0xbef9a3f7, 0xc67178f2]]

  const INITIAL: Words := [
    0x6a09e667, 0xbb67ae85, 0x3c6ef372, 0xa54ff53a, 0x510e527f, 0x9b05688c, 0x1f83d9ab, 0x5be0cd19]

  // ----- the compression function (sections 4.1.2 and 6.2.2)

  function Rotate(x: bv32, n: nat): bv32
    requires 0 < n < 32
  {
    (x >> n) | (x << (32 - n))
  }

  function Sigma0(x: bv32): bv32 { Rotate(x, 2) ^ Rotate(x, 13) ^ Rotate(x, 22) }
  function Sigma1(x: bv32): bv32 { Rotate(x, 6) ^ Rotate(x, 11) ^ Rotate(x, 25) }
  function Small0(x: bv32): bv32 { Rotate(x, 7) ^ Rotate(x, 18) ^ (x >> 3) }
  function Small1(x: bv32): bv32 { Rotate(x, 17) ^ Rotate(x, 19) ^ (x >> 10) }
  function Choose(x: bv32, y: bv32, z: bv32): bv32 { (x & y) ^ (!x & z) }
  function Majority(x: bv32, y: bv32, z: bv32): bv32 { (x & y) ^ (x & z) ^ (y & z) }
  function Add(x: bv32, y: bv32): bv32 { x + y }

  function LoadWord(block: Text, t: nat): bv32
    requires |block| == 64 && t < 16
  {
    var b0, b1, b2, b3 := block[4 * t], block[4 * t + 1], block[4 * t + 2], block[4 * t + 3];
    ((b0 as int as bv32) << 24) | ((b1 as int as bv32) << 16) | ((b2 as int as bv32) << 8) | (b3 as int as bv32)
  }

  /** The first n words of the message schedule of a block. */
  function Schedule(block: Text, n: nat): (w: Words)
    requires |block| == 64 && n <= 64
    ensures |w| == n
  {
    if n == 0 then []
    else
      var w := Schedule(block, n - 1);
      var t := n - 1;
      w + [if t < 16 then LoadWord(block, t)
           else Add(Add(Add(w[t - 16], Small0(w[t - 15])), w[t - 7]), Small1(w[t - 2]))]
  }

  function RoundConstant(t: nat): bv32
    requires t < 64
  {
    K[t / 8][t % 8]
  }

  /** One round over the eight working variables. */
  function Round(v: Words, k: bv32, w: bv32): (r: Words)
    requires |v| == 8
    ensures |r| == 8
  {
    var t1 := Add(Add(Add(Add(v[7], Sigma1(v[4])), Choose(v[4], v[5], v[6])), k), w);
    var t2 := Add(Sigma0(v[0]), Majority(v[0], v[1], v[2]));
    [Add(t1, t2), v[0], v[1], v[2], Add(v[3], t1), v[4], v[5], v[6]]
  }

  /** The eight working variables after n rounds. */
  function Rounds(h: Words, w: Words, n: nat): (v: Words)
    requires |h| == 8 && |w| == 64 && n <= 64
    ensures |v| == 8
  {
    if n == 0 then h else Round(Rounds(h, w, n - 1), RoundConstant(n - 1), w[n - 1])
  }

  function CompressBlock(h: Words, block: Text): (r: Words)
    requires |h| == 8 && |block| == 64
    ensures |r| == 8
  {
    var v := Rounds(h, Schedule(block, 64), 64);
    seq(8, i requires 0 <= i < 8 => Add(h[i], v[i]))
  }

  // ----- the one-shot hash (sections 5.1.1 and 6.2)

  /** Unsigned 64-bit arithmetic. */
  const WRAP: int := 0x1_0000_0000_0000_0000

  function Wrapped(n: nat): (r: nat)
    ensures r <= UINT64_MAX
  {
    n % WRAP
  }

  /** Whole blocks only. */
  predicate Aligned(octets: Text) { |octets| % 64 == 0 }

  /** The chaining value after every whole block; a partial block at the end is left over. */
  function Fold(h: Words, octets: Text): (r: Words)
    requires |h| == 8
    ensures |r| == 8
    decreases |octets|
  {
    if |octets| < 64 then h else Fold(CompressBlock(h, octets[..64]), octets[64..])
  }

  function BigEndian(value: nat, octets: nat): (s: Text)
    ensures |s| == octets
    decreases octets
  {
    if octets == 0 then [] else BigEndian(value / 256, octets - 1) + [(value % 256) as char]
  }

  function U64(value: nat): (s: Text)
    ensures |s| == 8
  {
    BigEndian(value, 8)
  }

  function Zeros(n: nat): (s: Text)
    ensures |s| == n
  {
    seq(n, _ => 0 as char)
  }

  /** The number of zero octets between the 0x80 marker and the length. */
  function ZeroCount(length: nat): nat { (55 - length) % 64 }

  function Pad(message: Text): Text {
    message + [0x80 as char] + Zeros(ZeroCount(|message|)) + U64(Wrapped(|message| * 8))
  }

  /** The padded message ends on a block boundary, and no shorter run of zeros would do. */
  lemma PadFillsBlock(message: Text, k: nat)
    ensures Aligned(Pad(message))
    ensures (|message| + 1 + k + 8) % 64 == 0 ==> ZeroCount(|message|) <= k
  {
    hide Zeros, U64, Wrapped, ZeroCount;
    assert |Pad(message)| == |message| + 1 + ZeroCount(|message|) + 8;
    ZerosFill(|message|, k);
  }

  lemma ZerosFill(n: nat, k: nat)
    ensures (n + 9 + ZeroCount(n)) % 64 == 0
    ensures (n + 9 + k) % 64 == 0 ==> ZeroCount(n) <= k
  {
    var z, q := ZeroCount(n), (55 - n) / 64;
    Division(n + 9 + z, 64, 1 - q, 0);
    if (n + 9 + k) % 64 == 0 {
      Multiple(64, 1 - q - (n + 9 + k) / 64);
    }
  }

  /** The padding loop meets octet 56 of a block exactly when it has written the zeros it needs. */
  lemma Boundary(n: nat, zeros: nat, hashed: nat, buffered: nat)
    requires n + 1 + zeros == hashed + buffered && hashed % 64 == 0 && buffered < 64
    requires zeros <= ZeroCount(n)
    ensures buffered == 56 <==> zeros == ZeroCount(n)
  {
    var q, b := (55 - n) / 64, hashed / 64;
    assert ZeroCount(n) - zeros == 64 * (1 - q - b - 1) + 56 - buffered;
  }

  lemma WholeBlocks(hashed: nat, buffered: nat)
    requires hashed % 64 == 0 && buffered < 64 && (hashed + buffered) % 64 == 0
    ensures buffered == 0
  {}

  function Octet(word: bv32, index: nat): byte
    requires index < 4
  {
    OctetRange(word >> (24 - 8 * index));
    ((word >> (24 - 8 * index)) & 0xFF) as int as char
  }

  lemma OctetRange(x: bv32)
    ensures 0 <= (x & 0xFF) as int < 256
  {}

  function DigestOctets(h: Words): Text {
    seq(4 * |h|, i requires 0 <= i < 4 * |h| => Octet(h[i / 4], i % 4))
  }

  function Hash(message: Text): Text {
    DigestOctets(Fold(INITIAL, Pad(message)))
  }

  lemma {:induction false} FoldConcat(h: Words, a: Text, b: Text)
    requires |h| == 8 && Aligned(a)
    ensures Fold(h, a + b) == Fold(Fold(h, a), b)
    decreases |a|
  {
    hide CompressBlock;
    if |a| < 64 {
      assert a + b == b;
    } else {
      assert (a + b)[..64] == a[..64] && (a + b)[64..] == a[64..] + b;
      FoldConcat(CompressBlock(h, a[..64]), a[64..], b);
    }
  }

  lemma FoldBlock(done: Text, block: Text)
    requires Aligned(done) && |block| == 64
    ensures Fold(INITIAL, done + block) == CompressBlock(Fold(INITIAL, done), block)
    ensures Aligned(done + block)
  {
    hide CompressBlock, Fold;
    FoldOne(Fold(INITIAL, done), block);
    FoldConcat(INITIAL, done, block);
  }

  lemma FoldOne(h: Words, block: Text)
    requires |h| == 8 && |block| == 64
    ensures Fold(h, block) == CompressBlock(h, block)
  {
    hide CompressBlock;
    assert block[..64] == block;
  }

  lemma {:induction false} BigEndianAt(value: nat, octets: nat, i: nat)
    requires i < octets
    ensures BigEndian(value, octets)[i] as int == (value / Power256(octets - 1 - i)) % 256
    decreases octets
  {
    if i < octets - 1 {
      BigEndianAt(value / 256, octets - 1, i);
      DivideTwice(value, 256, Power256(octets - 2 - i));
    }
  }

  /** Each unsigned 64-bit integer has its own eight octets. */
  lemma {:induction false} BigEndianInjective(a: nat, b: nat, octets: nat)
    requires a < Power256(octets) && b < Power256(octets)
    ensures BigEndian(a, octets) == BigEndian(b, octets) <==> a == b
    decreases octets
  {
    if octets > 0 {
      var x, y := BigEndian(a, octets), BigEndian(b, octets);
      BigEndianInjective(a / 256, b / 256, octets - 1);
      assert x[..octets - 1] == BigEndian(a / 256, octets - 1) && y[..octets - 1] == BigEndian(b / 256, octets - 1);
      assert x[octets - 1] as int == a % 256 && y[octets - 1] as int == b % 256;
    }
  }

  // ----- the incremental hasher

  class Hasher {
    const state: array<bv32>
    const buffer: array<byte>
    var buffered: nat
    var totalBytes: nat
    var finalized: bool
    /** The octets already compressed into the state. */
    ghost var hashed: Text

    ghost predicate Valid()
      reads this, state, buffer
    {
      && state.Length == 8 && buffer.Length == 64 && buffered < 64
      && Aligned(hashed) && state[..] == Fold(INITIAL, hashed)
      && totalBytes == Wrapped(|hashed| + buffered)
    }

    /** Every octet accepted so far. */
    ghost function Fed(): Text
      requires Valid()
      reads this, state, buffer
    {
      hashed + buffer[..buffered]
    }

    constructor ()
      ensures Valid() && fresh(state) && fresh(buffer) && Fed() == [] && !finalized
    {
      state := new bv32[8](i requires 0 <= i < 8 => INITIAL[i]);
      buffer := new byte[64](_ => 0 as char);
      buffered, totalBytes, finalized := 0, 0, false;
      hashed := [];
      new;
      assert state[..] == INITIAL;
    }

    method Compress(block: Text)
      requires state.Length == 8 && |block| == 64
      modifies state
      ensures state[..] == CompressBlock(old(state[..]), block)
    {
      hide *;
      var w := BuildSchedule(block);
      var v := RunRounds(state[..], w);
      ghost var h0 := state[..];
      for index := 0 to 8
        invariant forall k :: 0 <= k < index ==> state[k] == Add(h0[k], v[k])
        invariant forall k :: index <= k < 8 ==> state[k] == h0[k]
      {
        state[index] := Add(state[index], v[index]);
      }
      CompressAt(h0, block, state[..]);
    }

    method Update(data: Text)
      requires Valid()
      modifies this`buffered, this`totalBytes, this`hashed, state, buffer
      ensures Valid() && Fed() == if finalized then old(Fed()) else old(Fed()) + data
    {
      hide Fold, CompressBlock, Aligned, Wrapped;
      if finalized || data == [] {
        assert old(Fed()) + [] == old(Fed());
        return;
      }
      ghost var before := Fed();
      assert |before| == |hashed| + buffered;
      Wrap(|before|, |data|);
      totalBytes := Wrapped(totalBytes + |data|);
      var cursor := TopUp(data);
      while |data| - cursor >= 64
        invariant cursor <= |data| && (cursor == |data| || buffered == 0)
        invariant totalBytes == Wrapped(|before + data|)
        invariant state[..] == Fold(INITIAL, hashed) && Aligned(hashed) && buffered < 64
        invariant hashed + buffer[..buffered] == before + data[..cursor]
      {
        var block := data[cursor..cursor + 64];
        Compress(block);
        FoldBlock(hashed, block);
        Absorb(before, data, cursor, hashed, buffer[..0]);
        hashed := hashed + block;
        cursor := cursor + 64;
      }
      if cursor < |data| {
        buffered := |data| - cursor;
        forall k | 0 <= k < buffered { buffer[k] := data[cursor + k]; }
        Rejoin(before, data, cursor, hashed, buffer[..buffered]);
      } else {
        assert data[..cursor] == data;
      }
      assert |hashed + buffer[..buffered]| == |before + data|;
    }

    lemma Absorb(before: Text, data: Text, cursor: nat, done: Text, empty: Text)
      requires cursor + 64 <= |data| && done + empty == before + data[..cursor] && empty == []
      ensures done + data[cursor..cursor + 64] + empty == before + data[..cursor + 64]
    {
      assert done == before + data[..cursor] && data[..cursor] + data[cursor..cursor + 64] == data[..cursor + 64];
    }

    lemma Rejoin(before: Text, data: Text, cursor: nat, done: Text, tail: Text)
      requires cursor <= |data| && done + [] == before + data[..cursor] && tail == data[cursor..]
      ensures done + tail == before + data
    {
      assert done == before + data[..cursor] && data[..cursor] + data[cursor..] == data;
    }

    /** Fills the block buffer first, compressing it when it becomes full. */
    method TopUp(data: Text) returns (cursor: nat)
      requires state.Length == 8 && buffer.Length == 64 && buffered < 64
      requires Aligned(hashed) && state[..] == Fold(INITIAL, hashed)
      modifies this`buffered, this`hashed, state, buffer
      ensures cursor <= |data| && (cursor == |data| || buffered == 0) && buffered < 64
      ensures Aligned(hashed) && state[..] == Fold(INITIAL, hashed)
      ensures hashed + buffer[..buffered] == old(hashed + buffer[..buffered]) + data[..cursor]
    {
      hide Fold, CompressBlock, Aligned, Wrapped;
      cursor := 0;
      if buffered > 0 {
        var needed := 64 - buffered;
        var take := if |data| < needed then |data| else needed;
        ghost var words := state[..];
        forall k | 0 <= k < take { buffer[buffered + k] := data[k]; }
        assert state[..] == words;
        buffered := buffered + take;
        cursor := take;
        assert buffer[..buffered] == old(buffer[..buffered]) + data[..take];
        assert hashed + buffer[..buffered] == old(hashed + buffer[..buffered]) + data[..take];
        if buffered == 64 {
          ghost var block := buffer[..];
          assert buffer[..64] == block;
          Compress(buffer[..]);
          FoldBlock(hashed, block);
          hashed := hashed + block;
          buffered := 0;
          assert hashed + buffer[..0] == hashed;
        }
      } else {
        assert hashed + buffer[..buffered] + data[..0] == hashed + buffer[..buffered];
      }
    }

    method UpdateByte(value: byte)
      requires Valid()
      modifies this`buffered, this`totalBytes, this`hashed, state, buffer
      ensures Valid() && Fed() == if finalized then old(Fed()) else old(Fed()) + [value]
    {
      Update([value]);
    }

    method UpdateU64(value: nat)
      requires Valid() && value <= UINT64_MAX
      modifies this`buffered, this`totalBytes, this`hashed, state, buffer
      ensures Valid() && Fed() == if finalized then old(Fed()) else old(Fed()) + U64(value)
    {
      var raw := EncodeU64(value);
      Update(raw);
    }

    method UpdateLengthPrefixed(text: Text)
      requires Valid() && |text| <= UINT64_MAX
      modifies this`buffered, this`totalBytes, this`hashed, state, buffer
      ensures Valid() && Fed() == if finalized then old(Fed()) else old(Fed()) + U64(|text|) + text
    {
      UpdateU64(|text|);
      Update(text);
    }

    lemma Sizes()
      requires Valid()
      ensures |Fed()| == |hashed| + buffered && |hashed| % 64 == 0 && buffered < 64
      ensures totalBytes == Wrapped(|Fed()|)
    {
      hide Fold, Wrapped;
    }

    lemma Emptied()
      requires Valid() && buffered == 0
      ensures Fed() == hashed && state[..] == Fold(INITIAL, Fed())
    {
      hide Fold;
    }

    /** The marker and zeros up to eight octets before a block boundary. */
    method AppendPadding()
      requires Valid() && !finalized
      modifies this`buffered, this`totalBytes, this`hashed, state, buffer
      ensures Valid() && buffered == 56
      ensures Fed() == old(Fed()) + [0x80 as char] + Zeros(ZeroCount(|old(Fed())|))
    {
      hide Valid, Fed, Zeros, ZeroCount;
      ghost var message := Fed();
      ghost var zeros := 0;
      Update([0x80 as char]);
      ZerosGrow(message + [0x80 as char], 0);
      Sizes();
      Boundary(|message|, zeros, |hashed|, buffered);
      while buffered != 56
        invariant Valid() && zeros <= ZeroCount(|message|)
        invariant Fed() == message + [0x80 as char] + Zeros(zeros)
        invariant buffered == 56 <==> zeros == ZeroCount(|message|)
        decreases ZeroCount(|message|) - zeros
      {
        Update([0 as char]);
        ZerosGrow(message + [0x80 as char], zeros);
        zeros := zeros + 1;
        Sizes();
        Boundary(|message|, zeros, |hashed|, buffered);
      }
    }

    /** The digest of everything fed, however it was split into updates. */
    method Final() returns (digest: Option<Text>)
      requires Valid()
      modifies this, state, buffer
      ensures finalized
      ensures digest == if old(finalized) then None else Some(Hash(old(Fed())))
    {
      hide Valid, Fed, Fold, U64, Octet, Wrapped, CompressBlock, DigestOctets, ZeroCount, Zeros;
      if finalized {
        return None;
      }
      ghost var message := Fed();
      Sizes();
      var totalBits := Wrapped(totalBytes * 8);
      BitCount(|message|);
      AppendPadding();
      var lengthBytes := EncodeU64(totalBits);
      Sizes();
      Update(lengthBytes);
      Sizes();
      PadFillsBlock(message, 0);
      WholeBlocks(|hashed|, buffered);
      Emptied();
      digest := Some(DigestOctets(state[..]));
      finalized := true;
    }
  }

  lemma ZerosGrow(a: Text, n: nat)
    ensures a + Zeros(0) == a && a + Zeros(n) + [0 as char] == a + Zeros(n + 1)
  {}

  method BuildSchedule(block: Text) returns (w: Words)
    requires |block| == 64
    ensures w == Schedule(block, 64)
  {
    hide LoadWord, Small0, Small1, Add;
    w := [];
    for index := 0 to 16
      invariant w == Schedule(block, index)
    {
      w := w + [LoadWord(block, index)];
    }
    for index := 16 to 64
      invariant w == Schedule(block, index)
    {
      var s0 := Small0(w[index - 15]);
      var s1 := Small1(w[index - 2]);
      w := w + [Add(Add(Add(w[index - 16], s0), w[index - 7]), s1)];
    }
  }

  method RunRounds(state: Words, w: Words) returns (v: Words)
    requires |state| == 8 && |w| == 64
    ensures v == Rounds(state, w, 64)
  {
    hide Sigma0, Sigma1, Choose, Majority, Add, Round, RoundConstant;
    var a, b, c, d := state[0], state[1], state[2], state[3];
    var e, f, g, h := state[4], state[5], state[6], state[7];
    for index := 0 to 64
      invariant [a, b, c, d, e, f, g, h] == Rounds(state, w, index)
    {
      RoundOf(a, b, c, d, e, f, g, h, RoundConstant(index), w[index]);
      var temp1 := Add(Add(Add(Add(h, Sigma1(e)), Choose(e, f, g)), RoundConstant(index)), w[index]);
      var temp2 := Add(Sigma0(a), Majority(a, b, c));
      h, g, f, e, d, c, b, a := g, f, e, Add(d, temp1), c, b, a, Add(temp1, temp2);
    }
    v := [a, b, c, d, e, f, g, h];
  }

  lemma RoundOf(a: bv32, b: bv32, c: bv32, d: bv32, e: bv32, f: bv32, g: bv32, h: bv32, k: bv32, w: bv32)
    ensures
      var t1 := Add(Add(Add(Add(h, Sigma1(e)), Choose(e, f, g)), k), w);
      var t2 := Add(Sigma0(a), Majority(a, b, c));
      Round([a, b, c, d, e, f, g, h], k, w) == [Add(t1, t2), a, b, c, Add(d, t1), e, f, g]
  {
    hide Sigma0, Sigma1, Choose, Majority, Add;
  }

  lemma CompressAt(h: Words, block: Text, r: Words)
    requires |h| == 8 && |block| == 64 && |r| == 8
    requires var v := Rounds(h, Schedule(block, 64), 64); forall k :: 0 <= k < 8 ==> r[k] == Add(h[k], v[k])
    ensures r == CompressBlock(h, block)
  {
    hide Rounds, Schedule, Add;
  }

  lemma Wrap(a: nat, b: nat)
    ensures Wrapped(Wrapped(a) + b) == Wrapped(a + b)
  {
    var m := (a % WRAP + b) % WRAP;
    Division(a + b, WRAP, a / WRAP + (a % WRAP + b) / WRAP, m);
  }

  lemma BitCount(length: nat)
    ensures Wrapped(Wrapped(length) * 8) == Wrapped(length * 8)
  {
    var m := (length % WRAP * 8) % WRAP;
    Division(length * 8, WRAP, length / WRAP * 8 + (length % WRAP * 8) / WRAP, m);
  }

  method EncodeU64(value: nat) returns (raw: Text)
    requires value <= UINT64_MAX
    ensures raw == U64(value)
  {
    hide BigEndian, Power256;
    raw := [];
    for index := 0 to 8
      invariant raw == U64(value)[..index]
    {
      BigEndianAt(value, 8, index);
      raw := raw + [((value / Power256(7 - index)) % 256) as char];
    }
  }
}
