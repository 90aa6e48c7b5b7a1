/**
 * The values decoded from event and reply payloads, the note-name helper
 * and the integer codes of the enumerated command parameters.
 */
module Types {
  import opened Wrappers
  import opened Struct
  import opened Packets

  /** `x & mask != 0` on a payload byte. */
  predicate HasBit(x: byte, mask: bv8)
  {
    (x as bv8) & mask != 0
  }

  lemma Bit80(x: byte)
    ensures HasBit(x, 0x80) <==> x / 0x80 % 2 == 1
  {
  }

  lemma Bit40(x: byte)
    ensures HasBit(x, 0x40) <==> x / 0x40 % 2 == 1
  {
  }

  lemma Bit20(x: byte)
    ensures HasBit(x, 0x20) <==> x / 0x20 % 2 == 1
  {
  }

  lemma Bit10(x: byte)
    ensures HasBit(x, 0x10) <==> x / 0x10 % 2 == 1
  {
  }

  // ----- bumpers -----

  /** Which front bumpers are pressed. */
  datatype Bumper = Bumper(left: bool, right: bool)

  /** `Bumper.from_packet`: bit 0x80 of payload byte 4 is the left bumper, bit 0x40 the right one. */
  function BumperFromPacket(p: Packet): (b: Bumper)
    ensures b.left <==> p.payload[4] / 0x80 % 2 == 1
    ensures b.right <==> p.payload[4] / 0x40 % 2 == 1
  {
    Bit80(p.payload[4]);
    Bit40(p.payload[4]);
    Bumper(HasBit(p.payload[4], 0x80), HasBit(p.payload[4], 0x40))
  }

  /** The two flag bits of a bumper state, in their payload positions. */
  function BumperBits(b: Bumper): (x: byte)
    ensures x % 0x40 == 0
  {
    (if b.left then 0x80 else 0) + (if b.right then 0x40 else 0)
  }

  /** The bumper decoder reads exactly the top two bits of byte 4 and ignores the rest. */
  lemma BumperRoundTrip(p: Packet)
    ensures BumperBits(BumperFromPacket(p)) + p.payload[4] % 0x40 == p.payload[4]
  {
  }

  // ----- colour sensor -----

  const WHITE := 0
  const BLACK := 1
  const RED := 2
  const GREEN := 3
  const BLUE := 4
  const ORANGE := 5
  const YELLOW := 6
  const MAGENTA := 7
  const NONE := 15
  /** The wildcard a colour filter may use; never produced by the decoder. */
  const ANY := -1

  /** The 32 colour readings along the robot's underside, left to right. */
  datatype Color = Color(colors: seq<int>)

  /** `c >> shift & 0xF` on a non-negative int. */
  function Nibble(c: byte, shift: nat): (v: int)
    ensures 0 <= v < 16
  {
    (if shift == 4 then c / 16 else c) % 16
  }

  /**
   * `Color.from_packet`: each payload byte gives two readings, its high
   * nibble (shift 4) and then its low nibble (shift 0).
   */
  function ColorFromPacket(p: Packet): (c: Color)
    ensures |c.colors| == 2 * PAYLOAD_LEN
    ensures forall j :: 0 <= j < |c.colors| ==> WHITE <= c.colors[j] <= NONE && c.colors[j] != ANY
  {
    Color(seq(2 * PAYLOAD_LEN, j requires 0 <= j < 2 * PAYLOAD_LEN => Nibble(p.payload[j / 2], if j % 2 == 0 then 4 else 0)))
  }

  /** Pair up readings into bytes again, high nibble first. */
  function PackNibbles(colors: seq<int>): (bytes: seq<int>)
    requires |colors| % 2 == 0
    ensures |bytes| == |colors| / 2
  {
    seq(|colors| / 2, k requires 0 <= k < |colors| / 2 => colors[2 * k] * 16 + colors[2 * k + 1])
  }

  /** Reading 2k is the high and reading 2k+1 the low nibble of payload byte k. */
  lemma ColorNibbles(p: Packet, k: nat)
    requires k < PAYLOAD_LEN
    ensures ColorFromPacket(p).colors[2 * k] == p.payload[k] / 16
    ensures ColorFromPacket(p).colors[2 * k + 1] == p.payload[k] % 16
  {
    assert (2 * k) / 2 == k && (2 * k + 1) / 2 == k;
  }

  /** Decoding loses nothing: the readings pack back into the payload. */
  lemma {:induction false} ColorRoundTrip(p: Packet)
    ensures PackNibbles(ColorFromPacket(p).colors) == p.payload
  {
    var colors := ColorFromPacket(p).colors;
    forall k | 0 <= k < PAYLOAD_LEN
      ensures PackNibbles(colors)[k] == p.payload[k]
    {
      ColorNibbles(p, k);
    }
  }

  // ----- light sensors -----

  const DARKER := 4
  const RIGHT_BRIGHTER := 5
  const LEFT_BRIGHTER := 6
  const LIGHTER := 7

  /** Ambient-light event: comparator state and the two sensor readings. */
  datatype Light = Light(state: int, left: int, right: int)

  /** `Light.from_packet`: state is byte 4; left and right are big-endian 16-bit fields at bytes 5-6 and 7-8. */
  function LightFromPacket(p: Packet): (l: Light)
    ensures l.state == p.payload[4]
    ensures l.left == p.payload[5] as int * 256 + p.payload[6] && IsUInt16(l.left)
    ensures l.right == p.payload[7] as int * 256 + p.payload[8] && IsUInt16(l.right)
  {
    Unpack16(p.payload[5..7]);
    Unpack16(p.payload[7..9]);
    Light(p.payload[4], Unpack(p.payload[5..7]), Unpack(p.payload[7..9]))
  }

  // ----- touch sensors -----

  /** Which of the four top touch sensors are touched. */
  datatype Touch = Touch(frontLeft: bool, frontRight: bool, backRight: bool, backLeft: bool)

  /** `Touch.from_packet`: bits 0x80, 0x40, 0x20 and 0x10 of payload byte 4. */
  function TouchFromPacket(p: Packet): (t: Touch)
    ensures t.frontLeft <==> p.payload[4] / 0x80 % 2 == 1
    ensures t.frontRight <==> p.payload[4] / 0x40 % 2 == 1
    ensures t.backRight <==> p.payload[4] / 0x20 % 2 == 1
    ensures t.backLeft <==> p.payload[4] / 0x10 % 2 == 1
  {
    var x := p.payload[4];
    Bit80(x);
    Bit40(x);
    Bit20(x);
    Bit10(x);
    Touch(HasBit(x, 0x80), HasBit(x, 0x40), HasBit(x, 0x20), HasBit(x, 0x10))
  }

  /** The four flag bits of a touch state, in their payload positions. */
  function TouchBits(t: Touch): (x: byte)
    ensures x % 0x10 == 0
  {
    (if t.frontLeft then 0x80 else 0) + (if t.frontRight then 0x40 else 0) +
    (if t.backRight then 0x20 else 0) + (if t.backLeft then 0x10 else 0)
  }

  /** A byte is its four top bits, in place, plus its low nibble. */
  lemma TopBits(x: int)
    requires 0 <= x < 0x100
    ensures (if x / 0x80 % 2 == 1 then 0x80 else 0) + (if x / 0x40 % 2 == 1 then 0x40 else 0) +
            (if x / 0x20 % 2 == 1 then 0x20 else 0) + (if x / 0x10 % 2 == 1 then 0x10 else 0) + x % 0x10 == x
  {
    var q := x / 0x10;
    assert 0x10 * q <= x < 0x10 * q + 0x10;
    if q < 4 {
      if q == 0 {} else if q == 1 {} else if q == 2 {} else {}
    } else if q < 8 {
      if q == 4 {} else if q == 5 {} else if q == 6 {} else {}
    } else if q < 12 {
      if q == 8 {} else if q == 9 {} else if q == 10 {} else {}
    } else {
      if q == 12 {} else if q == 13 {} else if q == 14 {} else {}
    }
  }

  /** The touch decoder reads exactly the top four bits of byte 4 and ignores the rest. */
  lemma TouchRoundTrip(p: Packet)
    ensures TouchBits(TouchFromPacket(p)) + p.payload[4] % 0x10 == p.payload[4]
  {
    TopBits(p.payload[4]);
  }

  // ----- notes -----

  /** The pitch names in semitone order, as the note helper lists them. */
  const PITCHES: seq<string> := ["C", "C#", "D", "D#", "E", "F", "F#", "G", "G#", "A", "A#", "B"]

  /** `PITCHES.index(s)`: the position of s in the pitch list, if it is there. */
  function PitchIndex(s: string): (r: Option<nat>)
    ensures r.Some? <==> s in PITCHES
    ensures r.Some? ==> r.value < |PITCHES| && PITCHES[r.value] == s
  {
    if s == "C" then Some(0) else if s == "C#" then Some(1) else if s == "D" then Some(2)
    else if s == "D#" then Some(3) else if s == "E" then Some(4) else if s == "F" then Some(5)
    else if s == "F#" then Some(6) else if s == "G" then Some(7) else if s == "G#" then Some(8)
    else if s == "A" then Some(9) else if s == "A#" then Some(10) else if s == "B" then Some(11)
    else None
  }

  predicate IsDigit(c: char) { '0' <= c <= '9' }

  /**
   * The integer part of `note(name)`: the semitone step
   * index(pitch) + (octave - 1) * 12 + 1, where the octave is the last
   * character and the pitch is everything before it. An empty name fails
   * the indexing; a last character that is not a digit, or a pitch that is
   * not listed, is a ValueError.
   */
  function NoteStep(name: string): (r: Result<int>)
    ensures r.Ok? <==> |name| >= 1 && IsDigit(name[|name| - 1]) && name[..|name| - 1] in PITCHES
    ensures |name| == 0 ==> r == Err(IndexError)
    ensures |name| >= 1 && r.Err? ==> r == Err(ValueError)
  {
    if |name| == 0 then Err(IndexError)
    else
      var last := name[|name| - 1];
      if !IsDigit(last) then Err(ValueError)
      else
        var octave := last as int - '0' as int;
        match PitchIndex(name[..|name| - 1])
        case None => Err(ValueError)
        case Some(i) => Ok(i + (octave - 1) * 12 + 1)
  }

  /** The digit character for 0..9. */
  function Digit(d: nat): (c: char)
    requires d < 10
    ensures IsDigit(c)
  {
    ('0' as int + d) as char
  }

  /** A4 is step 46, so `note("A4", A4)` has exponent zero and returns its A4 argument. */
  lemma NoteA4()
    ensures NoteStep("A4") == Ok(46)
  {
    assert "A4"[..1] == "A" == PITCHES[9];
  }

  /** One octave up is exactly twelve steps up. */
  lemma {:induction false} NoteOctaveUp(pitch: string, d: nat)
    requires pitch in PITCHES && d < 9
    ensures NoteStep(pitch + [Digit(d + 1)]).Ok? && NoteStep(pitch + [Digit(d)]).Ok?
    ensures NoteStep(pitch + [Digit(d + 1)]).value == NoteStep(pitch + [Digit(d)]).value + 12
  {
    assert (pitch + [Digit(d + 1)])[..|pitch|] == pitch;
    assert (pitch + [Digit(d)])[..|pitch|] == pitch;
  }

  /**
   * The step agrees with the standard piano key number of the note
   * (key 49 is A4): `2 ** ((step - 46) / 12)` is the equal-temperament
   * ratio `2 ** ((key - 49) / 12)`.
   */
  lemma NoteStepIsPianoKey(name: string)
    requires NoteStep(name).Ok?
    ensures var octave := name[|name| - 1] as int - '0' as int;
            var i := PitchIndex(name[..|name| - 1]).value;
            NoteStep(name).value - 46 == (12 * octave + i - 8) - 49
  {
  }

  /** Different note names have different steps. */
  lemma {:induction false} NoteStepInjective(a: string, b: string)
    requires NoteStep(a).Ok? && NoteStep(b).Ok? && NoteStep(a).value == NoteStep(b).value
    ensures a == b
  {
    var ia, ib := PitchIndex(a[..|a| - 1]).value, PitchIndex(b[..|b| - 1]).value;
    var oa, ob := a[|a| - 1] as int - '0' as int, b[|b| - 1] as int - '0' as int;
    assert ia + 12 * oa == ib + 12 * ob;
    assert oa == (ia + 12 * oa) / 12 && ob == (ib + 12 * ob) / 12;
    assert ia == ib && oa == ob;
    assert a == a[..|a| - 1] + [a[|a| - 1]];
    assert b == b[..|b| - 1] + [b[|b| - 1]];
  }

  // ----- enumerated parameters -----

  /** Marker (pen) position. */
  datatype Marker = MarkerUp | MarkerDown | MarkerErase {
    function Value(): (v: int)
      ensures 0 <= v <= 2
    {
      match this
      case MarkerUp => 0
      case MarkerDown => 1
      case MarkerErase => 2
    }
  }

  /** `Marker(v)`: the member with value v, if there is one. */
  function MarkerOf(v: int): (m: Option<Marker>)
    ensures m.Some? <==> 0 <= v <= 2
    ensures m.Some? ==> m.value.Value() == v
  {
    if v == 0 then Some(MarkerUp) else if v == 1 then Some(MarkerDown) else if v == 2 then Some(MarkerErase) else None
  }

  /** LED animation. */
  datatype Animation = AnimationOff | AnimationOn | Blink | Spin {
    function Value(): (v: int)
      ensures 0 <= v <= 3
    {
      match this
      case AnimationOff => 0
      case AnimationOn => 1
      case Blink => 2
      case Spin => 3
    }
  }

  function AnimationOf(v: int): (a: Option<Animation>)
    ensures a.Some? <==> 0 <= v <= 3
    ensures a.Some? ==> a.value.Value() == v
  {
    if v == 0 then Some(AnimationOff) else if v == 1 then Some(AnimationOn)
    else if v == 2 then Some(Blink) else if v == 3 then Some(Spin) else None
  }

  /** Bank of eight colour sensors. */
  datatype ColorSensors = Sensors0To7 | Sensors8To15 | Sensors16To23 | Sensors24To31 {
    function Value(): (v: int)
      ensures 0 <= v <= 3
    {
      match this
      case Sensors0To7 => 0
      case Sensors8To15 => 1
      case Sensors16To23 => 2
      case Sensors24To31 => 3
    }
  }

  function ColorSensorsOf(v: int): (s: Option<ColorSensors>)
    ensures s.Some? <==> 0 <= v <= 3
    ensures s.Some? ==> s.value.Value() == v
  {
    if v == 0 then Some(Sensors0To7) else if v == 1 then Some(Sensors8To15)
    else if v == 2 then Some(Sensors16To23) else if v == 3 then Some(Sensors24To31) else None
  }

  /** Illumination used while reading the colour sensors. */
  datatype ColorLighting = LightingOff | LightingRed | LightingGreen | LightingBlue | LightingAll {
    function Value(): (v: int)
      ensures 0 <= v <= 4
    {
      match this
      case LightingOff => 0
      case LightingRed => 1
      case LightingGreen => 2
      case LightingBlue => 3
      case LightingAll => 4
    }
  }

  function ColorLightingOf(v: int): (l: Option<ColorLighting>)
    ensures l.Some? <==> 0 <= v <= 4
    ensures l.Some? ==> l.value.Value() == v
  {
    if v == 0 then Some(LightingOff) else if v == 1 then Some(LightingRed) else if v == 2 then Some(LightingGreen)
    else if v == 3 then Some(LightingBlue) else if v == 4 then Some(LightingAll) else None
  }

  /** Unit of the colour-sensor readings. */
  datatype ColorFormat = AdcCounts | Millivolts {
    function Value(): (v: int)
      ensures 0 <= v <= 1
    {
      match this
      case AdcCounts => 0
      case Millivolts => 1
    }
  }

  function ColorFormatOf(v: int): (f: Option<ColorFormat>)
    ensures f.Some? <==> 0 <= v <= 1
    ensures f.Some? ==> f.value.Value() == v
  {
    if v == 0 then Some(AdcCounts) else if v == 1 then Some(Millivolts) else None
  }

  /** Modulation of a sound sweep. */
  datatype ModulationType = ModulationDisabled | Volume | PulseWidth | Frequency {
    function Value(): (v: int)
      ensures 0 <= v <= 3
    {
      match this
      case ModulationDisabled => 0
      case Volume => 1
      case PulseWidth => 2
      case Frequency => 3
    }
  }

  function ModulationTypeOf(v: int): (m: Option<ModulationType>)
    ensures m.Some? <==> 0 <= v <= 3
    ensures m.Some? ==> m.value.Value() == v
  {
    if v == 0 then Some(ModulationDisabled) else if v == 1 then Some(Volume)
    else if v == 2 then Some(PulseWidth) else if v == 3 then Some(Frequency) else None
  }
}
