/** The octets of a frame, one by one: the check value of the checksum, where each header
    field lies, and which headers are accepted. */
module WireFormat {
  import opened Core
  import opened Numbers
  import opened Wire
  import opened Crc32

  // ----- the checksum

  lemma DigitSteps()
    ensures Steps(Xor(0xffffffff, Word(0x31)), 8) == 0x7c231048
    ensures Steps(Xor(0x7c231048, Word(0x32)), 8) == 0xb0acbb32
    ensures Steps(Xor(0xb0acbb32, Word(0x33)), 8) == 0x77b79c2d
    ensures Steps(Xor(0x77b79c2d, Word(0x34)), 8) == 0x641c1f5c
    ensures Steps(Xor(0x641c1f5c, Word(0x35)), 8) == 0x340ac5e3
    ensures Steps(Xor(0x340ac5e3, Word(0x36)), 8) == 0xf68d2c9e
    ensures Steps(Xor(0xf68d2c9e, Word(0x37)), 8) == 0xaffc9660
    ensures Steps(Xor(0xaffc9660, Word(0x38)), 8) == 0x651f2550
    ensures Steps(Xor(0x651f2550, Word(0x39)), 8) == 0x340bc6d9
  {}

  /** The check value of CRC-32: the checksum of the nine digits from 1 to 9. */
  lemma CheckValue()
    ensures Checksum([0x31, 0x32, 0x33, 0x34, 0x35, 0x36, 0x37, 0x38, 0x39]) == 0xCBF4_3926
  {
    hide *;
    DigitSteps();
    var data: seq<bv8> := [0x31, 0x32, 0x33, 0x34, 0x35, 0x36, 0x37, 0x38, 0x39];
    assert data[0..] == data && data[9..] == [];
    RegisterStep(0xffffffff, data, 0);
    RegisterStep(0x7c231048, data, 1);
    RegisterStep(0xb0acbb32, data, 2);
    RegisterStep(0x77b79c2d, data, 3);
    RegisterStep(0x641c1f5c, data, 4);
    RegisterStep(0x340ac5e3, data, 5);
    RegisterStep(0xf68d2c9e, data, 6);
    RegisterStep(0xaffc9660, data, 7);
    RegisterStep(0x651f2550, data, 8);
    Finish(data);
  }

  lemma RegisterStep(r: bv32, data: seq<bv8>, i: nat)
    requires i < |data|
    ensures Register(r, data[i..]) == Register(Steps(Xor(r, Word(data[i])), 8), data[i + 1..])
  {
    hide Steps, Xor, Word;
    assert data[i..][1..] == data[i + 1..];
  }

  lemma Finish(data: seq<bv8>)
    requires Register(0xffffffff, data) == Register(0x340bc6d9, [])
    ensures Checksum(data) == 0xCBF4_3926
  {}

  // ----- the fields of a header

  /** Two, four and eight octets of a header, least significant first. */
  function Two(s: Octets, i: nat): nat
    requires i + 2 <= |s|
  {
    s[i] as int + 0x100 * s[i + 1] as int
  }

  function Four(s: Octets, i: nat): nat
    requires i + 4 <= |s|
  {
    Two(s, i) + 0x1_0000 * Two(s, i + 2)
  }

  function Eight(s: Octets, i: nat): nat
    requires i + 8 <= |s|
  {
    Four(s, i) + 0x1_0000_0000 * Four(s, i + 4)
  }

  lemma ReadTwo(s: Octets, i: nat)
    requires i + 2 <= |s|
    ensures ReadLittle(s[i..i + 2]) == Two(s, i)
  {
    assert s[i..i + 2] == [s[i], s[i + 1]];
    assert s[i..i + 2][1..] == [s[i + 1]] && ReadLittle([s[i + 1]]) == s[i + 1] as int;
  }

  function Moved(n: nat, value: nat): nat {
    if n == 0 then value else 256 * Moved(n - 1, value)
  }

  lemma {:induction false} ReadConcat(a: Octets, b: Octets)
    ensures ReadLittle(a + b) == ReadLittle(a) + Moved(|a|, ReadLittle(b))
  {
    if a == [] {
      assert a + b == b;
    } else {
      assert (a + b)[1..] == a[1..] + b;
      ReadConcat(a[1..], b);
    }
  }

  lemma MovedFour(v: nat)
    ensures Moved(4, v) == 0x1_0000_0000 * v
  {
    assert Moved(1, v) == 256 * v;
    assert Moved(3, v) == 256 * Moved(2, v);
  }

  lemma ReadFour(s: Octets, i: nat)
    requires i + 4 <= |s|
    ensures ReadLittle(s[i..i + 4]) == Four(s, i)
  {
    ReadTwo(s, i);
    ReadTwo(s, i + 2);
    ReadConcat(s[i..i + 2], s[i + 2..i + 4]);
    assert s[i..i + 4] == s[i..i + 2] + s[i + 2..i + 4];
    assert Moved(2, Two(s, i + 2)) == 0x1_0000 * Two(s, i + 2);
  }

  lemma ReadEight(s: Octets, i: nat)
    requires i + 8 <= |s|
    ensures ReadLittle(s[i..i + 8]) == Eight(s, i)
  {
    ReadFour(s, i);
    ReadFour(s, i + 4);
    ReadConcat(s[i..i + 4], s[i + 4..i + 8]);
    assert s[i..i + 8] == s[i..i + 4] + s[i + 4..i + 8];
    MovedFour(Four(s, i + 4));
  }

  predicate Marked(s: Octets)
    requires |s| >= 4
  {
    s[0] == 0x4E && s[1] == 0x44 && s[2] == 0x4F && s[3] == 0x31
  }

  /** Which headers are accepted, what is read from them, and why the others are refused. */
  lemma HeaderExactly(header: Octets, maxPayload: nat)
    ensures
      var r := DecodeFrameHeader(header, maxPayload);
      if |header| < 28 then r == Err(WireFrameTruncated)
      else if !Marked(header) then r == Err(WireFrameMagicMismatch)
      else if Two(header, 4) != 1 then r == Err(WireProtocolVersionUnsupported)
      else if !(1 <= Two(header, 6) <= 9) then r == Err(WireFrameTypeUnsupported)
      else if Four(header, 12) > maxPayload then r == Err(WireFrameOversize)
      else
        r == Ok(Header(1, Two(header, 6), Two(header, 8), Four(header, 12), Four(header, 16), Eight(header, 20)))
  {
    hide ReadLittle;
    if |header| >= 28 {
      ReadTwo(header, 4);
      ReadTwo(header, 6);
      ReadTwo(header, 8);
      ReadFour(header, 12);
      ReadFour(header, 16);
      ReadEight(header, 20);
    }
  }

  /** Where every field of a sent frame lies. */
  lemma FrameOctets(kind: nat, flags: nat, sequence: nat, payload: Octets)
    requires 1 <= kind <= 9 && flags < 0x1_0000 && sequence <= UINT64_MAX && |payload| < 0x1_0000_0000
    ensures
      var frame := Frame(kind, flags, sequence, payload);
      && |frame| == 28 + |payload| && Marked(frame) && frame[28..] == payload
      && Two(frame, 4) == 1 && Two(frame, 6) == kind && Two(frame, 8) == flags && Two(frame, 10) == 0
      && Four(frame, 12) == |payload| && Four(frame, 16) == Checksum(payload) as int && Eight(frame, 20) == sequence
  {
    hide Checksum, Little, ReadLittle, Power256, Frame, Two, Four, Eight;
    var frame := Frame(kind, flags, sequence, payload);
    FrameParts(kind, flags, sequence, payload);
    Powers();
    WordRange(Checksum(payload));
    LittleExact(1, 2);
    LittleExact(kind, 2);
    LittleExact(flags, 2);
    LittleExact(0, 2);
    LittleExact(|payload|, 4);
    LittleExact(Checksum(payload) as int, 4);
    LittleExact(sequence, 8);
    ReadTwo(frame, 4);
    ReadTwo(frame, 6);
    ReadTwo(frame, 8);
    ReadTwo(frame, 10);
    ReadFour(frame, 12);
    ReadFour(frame, 16);
    ReadEight(frame, 20);
  }

  lemma FrameParts(kind: nat, flags: nat, sequence: nat, payload: Octets)
    ensures
      var frame := Frame(kind, flags, sequence, payload);
      && |frame| == 28 + |payload| && Marked(frame) && frame[28..] == payload
      && frame[4..6] == Little(1, 2) && frame[6..8] == Little(kind, 2) && frame[8..10] == Little(flags, 2)
      && frame[10..12] == Little(0, 2) && frame[12..16] == Little(|payload|, 4)
      && frame[16..20] == Little(Checksum(payload) as int, 4) && frame[20..28] == Little(sequence, 8)
  {
    hide Checksum, Little, Frame;
    var frame := Frame(kind, flags, sequence, payload);
    HeaderFields(kind, flags, sequence, payload);
    Reserved(kind, flags, sequence, payload);
    Inside(frame, 0, 4);
    Inside(frame, 4, 2);
    Inside(frame, 6, 2);
    Inside(frame, 8, 2);
    Inside(frame, 12, 4);
    Inside(frame, 16, 4);
    Inside(frame, 20, 8);
    assert frame[0..4] == MAGIC;
    assert forall k :: 0 <= k < 4 ==> frame[k] == frame[0..4][k];
  }

  lemma Inside(s: Octets, i: nat, n: nat)
    requires i + n <= 28 <= |s|
    ensures s[..28][i..i + n] == s[i..i + n]
  {}

  lemma Reserved(kind: nat, flags: nat, sequence: nat, payload: Octets)
    ensures
      var frame := Frame(kind, flags, sequence, payload);
      |frame| >= 12 && frame[10..12] == Little(0, 2)
  {
    hide Checksum, Little;
  }

  /** What is sent within the envelope is received: header and payload are both accepted. */
  lemma SentIsAccepted(kind: nat, flags: nat, sequence: nat, payload: Octets, maxPayload: nat)
    requires 1 <= kind <= 9 && flags < 0x1_0000 && sequence <= UINT64_MAX
    requires |payload| <= maxPayload && |payload| < 0x1_0000_0000
    ensures
      var frame := Frame(kind, flags, sequence, payload);
      var r := DecodeFrameHeader(frame, maxPayload);
      r.Ok? && Verdict(r.value, frame[28..]) == Ok(())
  {
    hide Checksum, Frame, DecodeFrameHeader;
    FrameOctets(kind, flags, sequence, payload);
    HeaderExactly(Frame(kind, flags, sequence, payload), maxPayload);
  }
}
