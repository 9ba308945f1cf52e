/** Wire frames: a fixed 28-octet header whose checksum covers the payload. */
module Wire {
  import opened Core
  import opened Numbers
  import Crc32

  type Octets = seq<bv8>

  datatype Header = Header(version: nat, kind: nat, flags: nat, payloadBytes: nat, checksum: nat, sequence: nat)

  const MAGIC: Octets := [0x4E, 0x44, 0x4F, 0x31]
  const PROTOCOL_VERSION: nat := 1
  const HEADER_BYTES: nat := 28

  /** The frame types are numbered from hello to heartbeat. */
  predicate KnownType(raw: nat) { 1 <= raw <= 9 }

  // ----- little-endian integers

  function Little(value: nat, octets: nat): (s: Octets)
    ensures |s| == octets
    decreases octets
  {
    if octets == 0 then [] else [(value % 256) as bv8] + Little(value / 256, octets - 1)
  }

  function ReadLittle(s: Octets): nat
    decreases |s|
  {
    if s == [] then 0 else s[0] as int + 256 * ReadLittle(s[1..])
  }

  lemma OctetValue(n: nat)
    requires n < 256
    ensures (n as bv8) as int == n
  {
    if n < 16 {
    } else if n < 32 {
    } else if n < 64 {
    } else if n < 128 {
    } else {
    }
  }

  lemma {:induction false} LittleRoundTrip(value: nat, octets: nat)
    ensures ReadLittle(Little(value, octets)) == value % Power256(octets)
    decreases octets
  {
    if octets > 0 {
      OctetValue(value % 256);
      LittleRoundTrip(value / 256, octets - 1);
      var p := Power256(octets - 1);
      Digits(value, p);
    }
  }

  lemma LittleExact(value: nat, octets: nat)
    ensures ReadLittle(Little(value, octets)) == value <==> value < Power256(octets)
  {
    hide *;
    LittleRoundTrip(value, octets);
    SmallDivision(value, Power256(octets));
  }

  lemma SmallDivision(value: nat, p: nat)
    requires p > 0
    ensures value % p == value <==> value < p
  {
    if value < p {
      Division(value, p, 0, value);
    }
  }

  lemma Digits(value: nat, p: nat)
    requires p > 0
    ensures value % (256 * p) == value % 256 + 256 * ((value / 256) % p)
  {
    var q, r := value / 256, value % 256;
    var k, m := q / p, q % p;
    assert value == (256 * p) * k + (r + 256 * m) by { assert q == p * k + m; }
    Division(value, 256 * p, k, r + 256 * m);
  }

  // ----- frames

  method EncodeFrame(kind: nat, flags: nat, sequence: nat, payload: Octets, maxPayload: nat)
    returns (r: Result<Octets>)
    requires KnownType(kind) && flags < 0x1_0000 && sequence <= UINT64_MAX
    ensures r == if |payload| > maxPayload then Err(WireFrameOversize)
                 else Ok(Frame(kind, flags, sequence, payload))
  {
    if |payload| > maxPayload {
      return Err(WireFrameOversize);
    }
    var out := MAGIC;
    out := out + Little(PROTOCOL_VERSION, 2);
    out := out + Little(kind, 2);
    out := out + Little(flags, 2);
    out := out + Little(0, 2);
    out := out + Little(|payload|, 4);
    var crc := Crc32.Compute(payload);
    out := out + Little(crc as int, 4);
    out := out + Little(sequence, 8);
    out := out + payload;
    return Ok(out);
  }

  function Frame(kind: nat, flags: nat, sequence: nat, payload: Octets): Octets {
    MAGIC + Little(PROTOCOL_VERSION, 2) + Little(kind, 2) + Little(flags, 2) + Little(0, 2)
    + Little(|payload|, 4) + Little(Crc32.Checksum(payload) as int, 4) + Little(sequence, 8) + payload
  }

  function DecodeFrameHeader(header: Octets, maxPayload: nat): Result<Header> {
    if |header| < HEADER_BYTES then Err(WireFrameTruncated)
    else if header[..4] != MAGIC then Err(WireFrameMagicMismatch)
    else if ReadLittle(header[4..6]) != PROTOCOL_VERSION then Err(WireProtocolVersionUnsupported)
    else if !KnownType(ReadLittle(header[6..8])) then Err(WireFrameTypeUnsupported)
    else if ReadLittle(header[12..16]) > maxPayload then Err(WireFrameOversize)
    else Ok(Header(ReadLittle(header[4..6]), ReadLittle(header[6..8]), ReadLittle(header[8..10]),
                   ReadLittle(header[12..16]), ReadLittle(header[16..20]), ReadLittle(header[20..28])))
  }

  method VerifyFramePayload(header: Header, payload: Octets) returns (r: Result<()>)
    ensures r == Verdict(header, payload)
  {
    if |payload| != header.payloadBytes {
      return Err(WireFrameTruncated);
    }
    var computed := Crc32.Compute(payload);
    if computed as int != header.checksum {
      return Err(WireFrameChecksumMismatch);
    }
    return Ok(());
  }

  function Verdict(header: Header, payload: Octets): Result<()> {
    if |payload| != header.payloadBytes then Err(WireFrameTruncated)
    else if Crc32.Checksum(payload) as int != header.checksum then Err(WireFrameChecksumMismatch)
    else Ok(())
  }

  /** The receiver reads back every header field, provided the payload size fits its four octets. */
  lemma FrameRoundTrip(kind: nat, flags: nat, sequence: nat, payload: Octets, maxPayload: nat)
    requires KnownType(kind) && flags < 0x1_0000 && sequence <= UINT64_MAX
    requires |payload| <= maxPayload
    ensures
      var frame := Frame(kind, flags, sequence, payload);
      var header := Header(PROTOCOL_VERSION, kind, flags, |payload|, Crc32.Checksum(payload) as int, sequence);
      && frame[HEADER_BYTES..] == payload
      && (DecodeFrameHeader(frame[..HEADER_BYTES], maxPayload) == Ok(header) <==> |payload| < 0x1_0000_0000)
  {
    hide Crc32.Checksum, Little, ReadLittle, Frame;
    HeaderFields(kind, flags, sequence, payload);
    Powers();
    WordRange(Crc32.Checksum(payload));
    LittleExact(1, 2);
    LittleExact(kind, 2);
    LittleExact(flags, 2);
    LittleExact(|payload|, 4);
    LittleExact(Crc32.Checksum(payload) as int, 4);
    LittleExact(sequence, 8);
  }

  lemma HeaderFields(kind: nat, flags: nat, sequence: nat, payload: Octets)
    ensures
      var frame := Frame(kind, flags, sequence, payload);
      var h := frame[..HEADER_BYTES];
      && |frame| == HEADER_BYTES + |payload| && frame[HEADER_BYTES..] == payload
      && h[..4] == MAGIC && h[4..6] == Little(1, 2) && h[6..8] == Little(kind, 2) && h[8..10] == Little(flags, 2)
      && h[12..16] == Little(|payload|, 4) && h[16..20] == Little(Crc32.Checksum(payload) as int, 4)
      && h[20..28] == Little(sequence, 8)
  {
    hide Crc32.Checksum, Little;
  }

  lemma WordRange(x: bv32)
    ensures 0 <= x as int < 0x1_0000_0000
  {}

  /** A received payload that differs from the sent one only within four consecutive
      octets is always refused; one of another length is refused before hashing. */
  lemma CorruptionRefused(header: Header, sent: Octets, received: Octets, at: nat, n: nat)
    requires Verdict(header, sent).Ok?
    ensures |received| != |sent| ==> Verdict(header, received) == Err(WireFrameTruncated)
    ensures
      && |received| == |sent| && at + n <= |sent| && n <= 4 && received != sent
      && received[..at] == sent[..at] && received[at + n..] == sent[at + n..]
      ==> Verdict(header, received) == Err(WireFrameChecksumMismatch)
  {
    hide Crc32.Checksum;
    if && |received| == |sent| && at + n <= |sent| && n <= 4 && received != sent
       && received[..at] == sent[..at] && received[at + n..] == sent[at + n..]
    {
      Crc32.BurstDetected(sent, received, at, n);
      if Crc32.Checksum(sent) as int == Crc32.Checksum(received) as int {
        WordIdentity(Crc32.Checksum(sent), Crc32.Checksum(received));
      }
    }
  }

  lemma WordIdentity(a: bv32, b: bv32)
    requires a as int == b as int
    ensures a == b
  {
    assert (a as int) as bv32 == a && (b as int) as bv32 == b;
  }
}
