/**
 * The pure parts of the robot's commands: clamping, the payload layouts
 * the commands send, the decoding of the replies they wait for, and the
 * slicing used to split speech into payloads.
 */
module Commands {
  import opened Wrappers
  import opened Struct
  import opened Packets
  import opened Utf8

  // ----- clamping -----

  /**
   * `Robot.bound(value, low, high)`, that is `min(high, max(low, value))`
   * on integers: value clamped to [low, high]; when low > high the upper
   * limit wins.
   */
  function Bound(value: int, low: int, high: int): (r: int)
    ensures low <= high ==> low <= r <= high
    ensures low <= value <= high ==> r == value
    ensures value < low && low <= high ==> r == low
    ensures value > high ==> r == high
    ensures low > high ==> r == high
  {
    var atLeast := if value > low then value else low;
    if atLeast < high then atLeast else high
  }

  /** Clamping twice changes nothing more than clamping once. */
  lemma BoundIdempotent(value: int, low: int, high: int)
    requires low <= high
    ensures Bound(Bound(value, low, high), low, high) == Bound(value, low, high)
  {
  }

  /** Clamping preserves order. */
  lemma BoundMonotonic(v: int, w: int, low: int, high: int)
    requires v <= w
    ensures Bound(v, low, high) <= Bound(w, low, high)
  {
  }

  /**
   * A Python value as `bound` may receive it: a plain int, or a member of
   * one of the `Enum` classes of the robot's types (these are not
   * `IntEnum`s, so they define no ordering).
   */
  datatype PyValue = PyInt(i: int) | EnumMember(cls: string, value: int)

  /** `a > b`: ints compare; anything involving an Enum member is a TypeError. */
  function PyGreater(a: PyValue, b: PyValue): (r: Result<bool>)
    ensures r.Ok? <==> a.PyInt? && b.PyInt?
    ensures r.Ok? ==> r.value == (a.i > b.i)
  {
    if a.PyInt? && b.PyInt? then Ok(a.i > b.i) else Err(TypeError)
  }

  /** `max(a, b)`: b replaces a only when `b > a`. */
  function PyMax(a: PyValue, b: PyValue): (r: Result<PyValue>)
    ensures r.Ok? <==> a.PyInt? && b.PyInt?
  {
    match PyGreater(b, a)
    case Err(e) => Err(e)
    case Ok(greater) => Ok(if greater then b else a)
  }

  /** `min(a, b)`: b replaces a only when `b < a`. */
  function PyMin(a: PyValue, b: PyValue): (r: Result<PyValue>)
    ensures r.Ok? <==> a.PyInt? && b.PyInt?
  {
    match PyGreater(a, b)
    case Err(e) => Err(e)
    case Ok(greater) => Ok(if greater then b else a)
  }

  /** `bound` as written, on Python values: `min(high, max(low, value))`. */
  function PyBound(value: PyValue, low: PyValue, high: PyValue): (r: Result<PyValue>)
    ensures r.Ok? <==> value.PyInt? && low.PyInt? && high.PyInt?
  {
    match PyMax(low, value)
    case Err(e) => Err(e)
    case Ok(m) => PyMin(high, m)
  }

  /** On ints, `bound` as written is the integer clamp. */
  lemma PyBoundOnInts(value: int, low: int, high: int)
    ensures PyBound(PyInt(value), PyInt(low), PyInt(high)) == Ok(PyInt(Bound(value, low, high)))
  {
  }

  /**
   * With Enum members as limits, as `set_marker`, `set_lights`,
   * `get_color_sensor_data` and `play_sweep` pass them, `bound` raises
   * TypeError whatever the value.
   */
  lemma EnumLimitsRaise(value: int, cls: string, low: int, high: int)
    ensures PyBound(PyInt(value), EnumMember(cls, low), EnumMember(cls, high)) == Err(TypeError)
  {
  }

  /** `set_marker(Marker.DOWN)` (value 1) cannot send anything: its clamp raises. */
  lemma SetMarkerRaises()
    ensures PyBound(PyInt(1), EnumMember("Marker", 0), EnumMember("Marker", 2)).Err?
    ensures Bound(1, 0, 2) == 1
  {
  }

  // ----- request payloads -----

  /** `pack(">ii", bound(left, -100, 100), bound(right, -100, 100))`: both wheel speeds, in mm/s. */
  function SpeedsPayload(left: int, right: int): (b: seq<byte>)
    ensures |b| == 8
  {
    PackInt32(Bound(left, -100, 100)) + PackInt32(Bound(right, -100, 100))
  }

  /** `pack(">i", bound(speed, -100, 100))`: one wheel speed. */
  function SpeedPayload(speed: int): (b: seq<byte>)
    ensures |b| == 4
  {
    PackInt32(Bound(speed, -100, 100))
  }

  /** The speed payloads carry the clamped speeds, which the robot reads back as signed 32-bit fields. */
  lemma SpeedsRoundTrip(left: int, right: int)
    ensures UnpackInt32(SpeedsPayload(left, right)[..4]) == Bound(left, -100, 100)
    ensures UnpackInt32(SpeedsPayload(left, right)[4..]) == Bound(right, -100, 100)
    ensures UnpackInt32(SpeedPayload(left)) == Bound(left, -100, 100)
  {
    UnpackPackInt32(Bound(left, -100, 100));
    UnpackPackInt32(Bound(right, -100, 100));
  }

  /** `pack(">ii", angle, radius)`: the arc command, both in tenths. */
  function ArcPayload(angle: int, radius: int): (b: seq<byte>)
    requires IsInt32(angle) && IsInt32(radius)
    ensures |b| == 8 && UnpackInt32(b[..4]) == angle && UnpackInt32(b[4..]) == radius
  {
    UnpackPackInt32(angle);
    UnpackPackInt32(radius);
    PackInt32(angle) + PackInt32(radius)
  }

  /** `bytes([bound(position, 0, 2)])`: marker position, clamped to the Marker codes. */
  function MarkerPayload(position: int): (b: seq<byte>)
    ensures |b| == 1 && 0 <= b[0] <= 2
    ensures b[0] == Bound(position, 0, 2)
    ensures 0 <= position <= 2 ==> b[0] == position
    ensures position > 2 ==> b == [2]
    ensures position < 0 ==> b == [0]
  {
    [Bound(position, 0, 2)]
  }

  /** `bytes([animation, red, green, blue])` after clamping: animation to the Animation codes, colours to 0..255. */
  function LightsPayload(animation: int, red: int, green: int, blue: int): (b: seq<byte>)
    ensures |b| == 4 && 0 <= b[0] <= 3
    ensures b[0] == Bound(animation, 0, 3) && b[1] == Bound(red, 0, 255)
    ensures b[2] == Bound(green, 0, 255) && b[3] == Bound(blue, 0, 255)
    ensures 0 <= animation <= 3 ==> b[0] == animation
    ensures 0 <= red < 256 ==> b[1] == red
    ensures 0 <= green < 256 ==> b[2] == green
    ensures 0 <= blue < 256 ==> b[3] == blue
  {
    [Bound(animation, 0, 3), Bound(red, 0, 255), Bound(green, 0, 255), Bound(blue, 0, 255)]
  }

  /** `bytes([bank, lighting, format])` after clamping each to its enum range. */
  function ColorSensorRequest(bank: int, lighting: int, format: int): (b: seq<byte>)
    ensures |b| == 3 && b[0] <= 3 && b[1] <= 4 && b[2] <= 1
    ensures b[0] == Bound(bank, 0, 3) && b[1] == Bound(lighting, 0, 4) && b[2] == Bound(format, 0, 1)
    ensures 0 <= bank <= 3 ==> b[0] == bank
    ensures 0 <= lighting <= 4 ==> b[1] == lighting
    ensures 0 <= format <= 1 ==> b[2] == format
  {
    [Bound(bank, 0, 3), Bound(lighting, 0, 4), Bound(format, 0, 1)]
  }

  function Abs(x: int): (r: nat)
    ensures r == x || r == -x
  {
    if x < 0 then -x else x
  }

  /** `pack(">IH", abs(frequency), abs(duration))`: frequency in Hz, duration in ms. */
  function NotePayload(frequency: int, duration: int): (b: seq<byte>)
    requires IsUInt32(Abs(frequency)) && IsUInt16(Abs(duration))
    ensures |b| == 6 && Unpack(b[..4]) == Abs(frequency) && Unpack(b[4..]) == Abs(duration)
  {
    Pow256Values();
    UnpackPack(Abs(frequency), 4);
    UnpackPack(Abs(duration), 2);
    var b := Pack(Abs(frequency), 4) + Pack(Abs(duration), 2);
    assert b[..4] == Pack(Abs(frequency), 4) && b[4..] == Pack(Abs(duration), 2);
    b
  }

  /**
   * `pack(">IIH6B", ...)` for `play_sweep`: start and end frequency (mHz)
   * and duration (ms) made non-negative, attack, release (ms), volume
   * (1/255) and modulation rate clamped to 0..255, the modulation type
   * clamped to its codes, and the append flag as 0 or 1.
   */
  function SweepPayload(start: int, end: int, duration: int, attack: int, release: int, volume: int,
                        modulationType: int, modulationRate: int, append: bool): (b: seq<byte>)
    requires IsUInt32(Abs(start)) && IsUInt32(Abs(end)) && IsUInt16(Abs(duration))
    ensures |b| == PAYLOAD_LEN
    ensures Unpack(b[..4]) == Abs(start) && Unpack(b[4..8]) == Abs(end) && Unpack(b[8..10]) == Abs(duration)
    ensures b[10] == Bound(attack, 0, 255) && b[11] == Bound(release, 0, 255) && b[12] == Bound(volume, 0, 255)
    ensures b[13] == Bound(modulationType, 0, 3) && b[14] == Bound(modulationRate, 0, 255)
    ensures b[13] <= 3 && b[15] == (if append then 1 else 0)
  {
    Pow256Values();
    UnpackPack(Abs(start), 4);
    UnpackPack(Abs(end), 4);
    UnpackPack(Abs(duration), 2);
    var head := Pack(Abs(start), 4) + Pack(Abs(end), 4) + Pack(Abs(duration), 2);
    var tail := [Bound(attack, 0, 255), Bound(release, 0, 255), Bound(volume, 0, 255),
                 Bound(modulationType, 0, 3), Bound(modulationRate, 0, 255), if append then 1 else 0];
    assert head[..4] == Pack(Abs(start), 4) && head[4..8] == Pack(Abs(end), 4) && head[8..] == Pack(Abs(duration), 2);
    var b := head + tail;
    assert b[..10] == head && b[10..] == tail;
    assert b[..4] == head[..4] && b[4..8] == head[4..8] && b[8..10] == head[8..];
    b
  }

  // ----- replies -----

  /** `get_versions`: the first nine payload bytes of the reply (board, firmware, hardware, bootloader, protocol). */
  function Versions(reply: Option<Packet>): (v: seq<byte>)
    ensures reply.None? ==> v == []
    ensures reply.Some? ==> |v| == 9 && v == reply.value.payload[..9]
  {
    if reply.Some? then reply.value.payload[..9] else []
  }

  /** `get_name`: the reply's payload as UTF-8 with trailing NULs removed; "" without a reply. */
  function NameFromReply(reply: Option<Packet>): (r: Result<string>)
    ensures reply.None? ==> r == Ok("")
    ensures reply.Some? ==> r.Ok? == Decode(reply.value.payload).Ok?
  {
    if reply.None? then Ok("")
    else match Decode(reply.value.payload)
      case Err(e) => Err(e)
      case Ok(s) => Ok(RStripNul(s))
  }

  /** The unsigned big-endian 16-bit field at offset `at`. */
  function Field16(b: seq<byte>, at: nat): (v: int)
    requires at + 2 <= |b|
    ensures v == b[at] as int * 256 + b[at + 1] && IsUInt16(v)
  {
    Unpack16(b[at..at + 2]);
    Unpack(b[at..at + 2])
  }

  /** The signed big-endian 16-bit field at offset `at`. */
  function SignedField16(b: seq<byte>, at: nat): (v: int)
    requires at + 2 <= |b|
    ensures -0x8000 <= v < 0x8000
    ensures v % 0x1_0000 == Field16(b, at)
  {
    Unpack16(b[at..at + 2]);
    UnpackInt16(b[at..at + 2])
  }

  /** `get_position`: x, y (mm) and heading (tenths of a degree) as signed 16-bit fields at bytes 4..9. */
  function Position(reply: Option<Packet>): (xyz: (int, int, int))
    ensures reply.None? ==> xyz == (0, 0, 0)
    ensures -0x8000 <= xyz.0 < 0x8000 && -0x8000 <= xyz.1 < 0x8000 && -0x8000 <= xyz.2 < 0x8000
  {
    if reply.None? then (0, 0, 0)
    else var b := reply.value.payload; (SignedField16(b, 4), SignedField16(b, 6), SignedField16(b, 8))
  }

  /**
   * `get_accelerometer`: x, y, z in milli-g. The reply shares the position
   * reply's layout, three signed 16-bit fields at bytes 4..9.
   */
  function Accelerometer(reply: Option<Packet>): (xyz: (int, int, int))
    ensures reply.None? ==> xyz == (0, 0, 0)
    ensures -0x8000 <= xyz.0 < 0x8000 && -0x8000 <= xyz.1 < 0x8000 && -0x8000 <= xyz.2 < 0x8000
  {
    Position(reply)
  }

  /** `get_color_sensor_data`: the whole payload as eight unsigned 16-bit readings. */
  function ColorSensorData(reply: Option<Packet>): (v: seq<int>)
    ensures reply.None? ==> v == []
    ensures reply.Some? ==> |v| == 8 && forall i :: 0 <= i < 8 ==> v[i] == Field16(reply.value.payload, 2 * i)
  {
    if reply.None? then []
    else seq(8, i requires 0 <= i < 8 => Field16(reply.value.payload, 2 * i))
  }

  /** `get_light_sensor_data`: left and right readings in mV, unsigned 16-bit at bytes 4..7. */
  function LightSensorData(reply: Option<Packet>): (lr: (int, int))
    ensures reply.None? ==> lr == (0, 0)
    ensures reply.Some? ==> IsUInt16(lr.0) && IsUInt16(lr.1)
  {
    if reply.None? then (0, 0) else (Field16(reply.value.payload, 4), Field16(reply.value.payload, 6))
  }

  /** `get_battery_level`: millivolts (unsigned 16-bit at bytes 4..5) and percent (byte 6). */
  function BatteryLevel(reply: Option<Packet>): (mp: (int, int))
    ensures reply.None? ==> mp == (0, 0)
    ensures reply.Some? ==> IsUInt16(mp.0) && 0 <= mp.1 < 256
  {
    if reply.None? then (0, 0) else (Field16(reply.value.payload, 4), reply.value.payload[6])
  }

  /** A reply laid out by the robot with given millivolts and percent is read back as exactly those. */
  lemma BatteryRoundTrip(p: Packet, mv: int, percent: byte)
    requires IsUInt16(mv) && p.payload[4..7] == Pack(mv, 2) + [percent]
    ensures BatteryLevel(Some(p)) == (mv, percent)
  {
    Pow256Values();
    assert p.payload[4..6] == p.payload[4..7][..2] == Pack(mv, 2);
    UnpackPack(mv, 2);
  }

  /** Three two-byte fields laid out one after the other from offset at. */
  lemma ThreeFields(b: seq<byte>, at: nat, u: seq<byte>, v: seq<byte>, w: seq<byte>)
    requires |u| == 2 && |v| == 2 && |w| == 2 && at + 6 <= |b| && b[at..at + 6] == u + v + w
    ensures b[at..at + 2] == u && b[at + 2..at + 4] == v && b[at + 4..at + 6] == w
  {
    var s := b[at..at + 6];
    assert s[0] == u[0] && s[1] == u[1] && s[2] == v[0] && s[3] == v[1] && s[4] == w[0] && s[5] == w[1];
    assert b[at..at + 2] == [s[0], s[1]];
    assert b[at + 2..at + 4] == [s[2], s[3]];
    assert b[at + 4..at + 6] == [s[4], s[5]];
  }

  /** A position reply laid out with signed 16-bit x, y and heading at bytes 4..9 is read back as exactly those. */
  lemma PositionRoundTrip(p: Packet, x: int, y: int, h: int)
    requires -0x8000 <= x < 0x8000 && -0x8000 <= y < 0x8000 && -0x8000 <= h < 0x8000
    requires p.payload[4..10] == PackInt16(x) + PackInt16(y) + PackInt16(h)
    ensures Position(Some(p)) == (x, y, h)
  {
    var b := p.payload;
    ThreeFields(b, 4, PackInt16(x), PackInt16(y), PackInt16(h));
    SignedFieldRoundTrip(b, 4, x);
    SignedFieldRoundTrip(b, 6, y);
    SignedFieldRoundTrip(b, 8, h);
  }

  /** The accelerometer reply has the position reply's layout: x, y and z read back the same way. */
  lemma AccelerometerRoundTrip(p: Packet, x: int, y: int, z: int)
    requires -0x8000 <= x < 0x8000 && -0x8000 <= y < 0x8000 && -0x8000 <= z < 0x8000
    requires p.payload[4..10] == PackInt16(x) + PackInt16(y) + PackInt16(z)
    ensures Accelerometer(Some(p)) == (x, y, z)
  {
    PositionRoundTrip(p, x, y, z);
  }

  /** A light-sensor reply laid out with unsigned 16-bit left and right at bytes 4..7 is read back as exactly those. */
  lemma LightSensorRoundTrip(p: Packet, left: int, right: int)
    requires IsUInt16(left) && IsUInt16(right)
    requires p.payload[4..8] == Pack(left, 2) + Pack(right, 2)
    ensures LightSensorData(Some(p)) == (left, right)
  {
    Pow256Values();
    var b := p.payload;
    assert b[4..6] == b[4..8][..2] && b[6..8] == b[4..8][2..];
    UnpackPack(left, 2);
    UnpackPack(right, 2);
  }

  /** A signed 16-bit value written into a field is read back unchanged. */
  lemma SignedFieldRoundTrip(b: seq<byte>, at: nat, v: int)
    requires at + 2 <= |b| && -0x8000 <= v < 0x8000 && b[at..at + 2] == PackInt16(v)
    ensures SignedField16(b, at) == v
  {
    UnpackPackInt16(v);
  }

  // ----- slicing -----

  /**
   * `[xs[i : i + size] for i in range(0, len(xs), size)]`: consecutive
   * slices of `size` elements, the last one possibly shorter.
   */
  function Slices<T>(xs: seq<T>, size: nat): (r: seq<seq<T>>)
    requires size > 0
    ensures forall i :: 0 <= i < |r| ==> 0 < |r[i]| <= size
    decreases |xs|
  {
    if |xs| <= size then (if xs == [] then [] else [xs])
    else [xs[..size]] + Slices(xs[size..], size)
  }

  /** At most k slices when the input fits in k full slices. */
  lemma {:induction false} SlicesAtMost<T>(xs: seq<T>, size: nat, k: nat)
    requires size > 0 && |xs| <= k * size
    ensures |Slices(xs, size)| <= k
    decreases k
  {
    if |xs| > size {
      assert k >= 2 && |xs[size..]| <= (k - 1) * size;
      SlicesAtMost(xs[size..], size, k - 1);
    } else if xs != [] {
      assert k >= 1;
    }
  }

  /** Slice j of the slicing: `xs[j * size : (j + 1) * size]`, cut short at the end of xs. */
  function Zone<T>(xs: seq<T>, size: nat, j: nat): (z: seq<T>)
    requires size > 0 && j * size < |xs|
    ensures 0 < |z| <= size
  {
    var hi := if (j + 1) * size < |xs| then (j + 1) * size else |xs|;
    xs[j * size .. hi]
  }

  /** There is a slice j exactly when j full slices leave elements over, and it is zone j. */
  lemma {:induction false} SlicesAt<T>(xs: seq<T>, size: nat, j: nat)
    requires size > 0
    ensures j < |Slices(xs, size)| <==> j * size < |xs|
    ensures j * size < |xs| ==> Slices(xs, size)[j] == Zone(xs, size, j)
    decreases j
  {
    if |xs| > size && j > 0 {
      var rest := xs[size..];
      SlicesAt(rest, size, j - 1);
      ShiftedZone(xs, size, j);
    } else if |xs| > size {
      assert j == 0;
    } else if j > 0 {
      MulAtLeast(j, size);
    }
  }

  lemma MulAtLeast(j: nat, size: nat)
    requires j > 0
    ensures j * size >= size
  {
  }

  /** Zone j of xs is zone j - 1 of xs without its first slice. */
  lemma ShiftedZone<T>(xs: seq<T>, size: nat, j: nat)
    requires size > 0 && |xs| > size && j > 0
    ensures (j - 1) * size < |xs[size..]| <==> j * size < |xs|
    ensures j * size < |xs| ==> Zone(xs[size..], size, j - 1) == Zone(xs, size, j)
  {
    assert (j - 1) * size + size == j * size && j * size + size == (j + 1) * size;
  }

  /** The concatenation of a sequence of sequences. */
  function Concat<T>(xss: seq<seq<T>>): seq<T>
  {
    if xss == [] then [] else xss[0] + Concat(xss[1..])
  }

  /** All slices but the last are full, and together they give back the input. */
  lemma {:induction false} SlicesPartition<T>(xs: seq<T>, size: nat)
    requires size > 0
    ensures Concat(Slices(xs, size)) == xs
    ensures forall i :: 0 <= i < |Slices(xs, size)| - 1 ==> |Slices(xs, size)[i]| == size
    decreases |xs|
  {
    var r := Slices(xs, size);
    if |xs| <= size {
      if xs != [] {
        assert Concat(r) == xs + Concat([]);
      }
    } else {
      SlicesPartition(xs[size..], size);
      assert r[1..] == Slices(xs[size..], size);
      assert xs == xs[..size] + xs[size..];
    }
  }
}
