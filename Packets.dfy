/**
 * The robot's 20-byte packet: device, command, sequence number (`inc`),
 * a 16-byte payload and a CRC-8 over the first 19 bytes.
 */
module Packets {
  import opened Wrappers
  import opened Struct
  import opened Checksum

  const PACKET_LEN := 20
  const PAYLOAD_LEN := 16

  /** A packet as the constructor leaves it; `crc` is the stored checksum, if any. */
  datatype Frame = Frame(dev: byte, cmd: byte, inc: byte, payload: seq<byte>, crc: Option<byte>)

  /** A frame whose payload has been padded to its full length. */
  type Packet = f: Frame | |f.payload| == PAYLOAD_LEN
    witness Frame(0, 0, 0, seq(PAYLOAD_LEN, _ => 0), None)

  /** The 16 zero bytes used as the default payload and as padding. */
  function Padding(n: nat): (z: seq<byte>)
    ensures |z| == n && forall i :: 0 <= i < n ==> z[i] == 0
  {
    seq(n, _ => 0)
  }

  /** The 19 bytes the checksum covers (`packet()`). */
  function Body(p: Packet): (b: seq<byte>)
    ensures |b| == PACKET_LEN - 1
    ensures b[0] == p.dev && b[1] == p.cmd && b[2] == p.inc && b[3..] == p.payload
  {
    [p.dev, p.cmd, p.inc] + p.payload
  }

  /**
   * `Packet(dev, cmd, inc, payload, crc)`: a payload longer than 16 bytes
   * fails the constructor's assertion; a shorter one is padded with zero
   * bytes.
   */
  function New(dev: byte, cmd: byte, inc: byte, payload: seq<byte>, crc: Option<byte>): (r: Result<Packet>)
    ensures r.Ok? <==> |payload| <= PAYLOAD_LEN
    ensures r.Err? ==> r.error == AssertionError
    ensures r.Ok? ==> r.value.dev == dev && r.value.cmd == cmd && r.value.inc == inc && r.value.crc == crc
    ensures r.Ok? ==> r.value.payload[..|payload|] == payload
    ensures r.Ok? ==> forall i :: |payload| <= i < PAYLOAD_LEN ==> r.value.payload[i] == 0
  {
    if |payload| <= PAYLOAD_LEN then
      Ok(Frame(dev, cmd, inc, payload + Padding(PAYLOAD_LEN - |payload|), crc))
    else
      Err(AssertionError)
  }

  /** `Packet.from_bytes(raw)`: split a 20-byte frame into its fields, keeping its last byte as the stored CRC. */
  function FromBytes(raw: seq<byte>): (r: Result<Packet>)
    ensures r.Ok? <==> |raw| == PACKET_LEN
    ensures r.Err? ==> r.error == AssertionError
    ensures r.Ok? ==> Body(r.value) == raw[..PACKET_LEN - 1] && r.value.crc == Some(raw[PACKET_LEN - 1])
  {
    if |raw| == PACKET_LEN then
      Ok(Frame(raw[0], raw[1], raw[2], raw[3..19], Some(raw[19])))
    else
      Err(AssertionError)
  }

  /** `to_bytes()`: the body followed by its freshly computed CRC (any stored CRC is ignored). */
  function ToBytes(p: Packet): (raw: seq<byte>)
    ensures |raw| == PACKET_LEN
    ensures raw[..PACKET_LEN - 1] == Body(p) && raw[PACKET_LEN - 1] == Crc8(Body(p))
  {
    Body(p) + [Crc8(Body(p))]
  }

  /** `check_crc()`: a stored CRC is present and equals the CRC of the body. */
  function CheckCrc(p: Packet): (ok: bool)
    ensures ok <==> p.crc.Some? && p.crc.value == ToBytes(p)[PACKET_LEN - 1]
    ensures p.crc.None? ==> !ok
  {
    p.crc.Some? && p.crc.value == Crc8(Body(p))
  }

  /** The `crc` property: the stored CRC, or the computed one when none is stored. */
  function Crc(p: Packet): (c: byte)
    ensures p.crc.Some? ==> c == p.crc.value
    ensures p.crc.None? ==> c == Crc8(Body(p))
  {
    if p.crc.Some? then p.crc.value else Crc8(Body(p))
  }

  /** A packet is determined by its body and stored CRC. */
  lemma BodyInjective(p: Packet, q: Packet)
    requires Body(p) == Body(q) && p.crc == q.crc
    ensures p == q
  {
    assert p.payload == Body(p)[3..];
  }

  /** Serialising and parsing gives back the packet, now carrying its correct CRC. */
  lemma FromBytesToBytes(p: Packet)
    ensures FromBytes(ToBytes(p)) == Ok(p.(crc := Some(Crc8(Body(p)))))
    ensures CheckCrc(FromBytes(ToBytes(p)).value)
  {
    var q := FromBytes(ToBytes(p)).value;
    BodyInjective(q, p.(crc := Some(Crc8(Body(p)))));
  }

  /**
   * Every 20-byte frame parses; re-serialising it gives back exactly the
   * same bytes if and only if its CRC checks.
   */
  lemma ToBytesFromBytes(raw: seq<byte>)
    requires |raw| == PACKET_LEN
    ensures FromBytes(raw).Ok?
    ensures ToBytes(FromBytes(raw).value) == raw <==> CheckCrc(FromBytes(raw).value)
  {
    var p := FromBytes(raw).value;
    assert raw == raw[..PACKET_LEN - 1] + [raw[PACKET_LEN - 1]];
  }

  /** A packet built locally has no stored CRC, so it never checks. */
  lemma NewNeverChecks(dev: byte, cmd: byte, inc: byte, payload: seq<byte>)
    requires |payload| <= PAYLOAD_LEN
    ensures !CheckCrc(New(dev, cmd, inc, payload, None).value)
    ensures Crc(New(dev, cmd, inc, payload, None).value) == ToBytes(New(dev, cmd, inc, payload, None).value)[PACKET_LEN - 1]
  {
  }

  /**
   * A frame whose CRC checks no longer checks once any one of its 20
   * bytes is changed: every error confined to one byte, in particular
   * every single-bit flip, is detected.
   */
  lemma CorruptionDetected(raw: seq<byte>, j: nat, d: byte)
    requires |raw| == PACKET_LEN && j < PACKET_LEN && d != raw[j]
    requires CheckCrc(FromBytes(raw).value)
    ensures !CheckCrc(FromBytes(raw[j := d]).value)
  {
    var bad := raw[j := d];
    var body, body' := raw[..PACKET_LEN - 1], bad[..PACKET_LEN - 1];
    if j < PACKET_LEN - 1 {
      assert body == body[..j] + [raw[j]] + body[j + 1..];
      assert body' == body[..j] + [d] + body[j + 1..];
      SingleByteErrorDetected(body[..j], raw[j], d, body[j + 1..]);
    } else {
      assert body' == body;
    }
  }

  /** The register update of the source, for one input bit, on a 16-bit word. */
  function Word16(r: Reg): bv16
  {
    (if r.b7 then 0x80 else 0) | (if r.b6 then 0x40 else 0) | (if r.b5 then 0x20 else 0) | (if r.b4 then 0x10 else 0) |
    (if r.b3 then 0x08 else 0) | (if r.b2 then 0x04 else 0) | (if r.b1 then 0x02 else 0) | (if r.b0 then 0x01 else 0)
  }

  lemma ShiftStep(crc: bv16, r: Reg, bit: bool)
    requires crc & 0xFF == Word16(r)
    ensures var b := if bit then (crc & 0x80) ^ 0x80 else crc & 0x80;
      (if b != 0 then (crc << 1) ^ 0x07 else crc << 1) & 0xFF == Word16(Step(r, bit))
  {
  }

  lemma Word16Low(r: Reg)
    ensures Word16(r) & 0xFF == Word16(r)
  {
  }

  lemma Word16Value(r: Reg)
    ensures Word16(r) as int == Value(r)
  {
  }

  /**
   * One pass of the inner loop of `calc_crc()`: the bit leaving the
   * register, flipped when the input bit is set, decides whether the
   * shifted register is XORed with the polynomial 0x07. The input bit
   * `ByteBits(c)[i]` is the source's test `c & (0x80 >> i)`, by
   * Checksum.ByteBitMask.
   */
  method FeedBit(reg0: bv16, c: byte, i: nat, ghost r: Reg) returns (reg: bv16)
    requires i < 8 && reg0 & 0xFF == Word16(r)
    ensures reg & 0xFF == Word16(Step(r, ByteBits(c)[i]))
  {
    var b := reg0 & 0x80;
    if ByteBits(c)[i] {
      b := b ^ 0x80;
    }
    ShiftStep(reg0, r, ByteBits(c)[i]);
    reg := reg0 << 1;
    if b != 0 {
      reg := reg ^ 0x07;
    }
  }

  /**
   * One pass of the outer loop of `calc_crc()`: feed the eight bits of c,
   * most significant first, into the register, which is masked to eight
   * bits only once the byte is done.
   */
  method FeedByte(reg0: bv16, c: byte, ghost r0: Reg) returns (reg: bv16)
    requires reg0 == Word16(r0)
    ensures reg == Word16(Register(r0, ByteBits(c)))
  {
    reg := reg0;
    Word16Low(r0);
    ghost var r := r0;
    ghost var bits := ByteBits(c);
    for i := 0 to 8
      invariant reg & 0xFF == Word16(r)
      invariant r == Register(r0, bits[..i])
    {
      reg := FeedBit(reg, c, i, r);
      assert bits[..i + 1][..i] == bits[..i];
      r := Step(r, bits[i]);
    }
    assert bits[..8] == bits;
    reg := reg & 0xFF;
  }

  /** `calc_crc()`: the source's register loop computes the CRC-8 of the body. */
  method CalcCrc(p: Packet) returns (crc: byte)
    ensures crc == Crc8(Body(p))
  {
    var data := Body(p);
    var reg: bv16 := 0x00;
    ghost var r := ZERO;
    for k := 0 to |data|
      invariant reg == Word16(r)
      invariant r == Register(ZERO, Bits(data[..k]))
    {
      reg := FeedByte(reg, data[k], r);
      r := Register(r, ByteBits(data[k]));
      assert data[..k + 1][..k] == data[..k];
      RegisterAppend(ZERO, Bits(data[..k]), ByteBits(data[k]));
    }
    Word16Value(r);
    assert data[..|data|] == data;
    crc := reg as int;
  }
}
