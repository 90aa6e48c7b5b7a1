/**
 * The `Robot` object: its sequence counter, pending requests, event
 * handlers and tasks, the motor flag, and the frames it writes to the
 * Bluetooth link. Every command builds one packet (speech one per 16-byte
 * chunk), stamps it with the next sequence number and writes it while the
 * robot is running; incoming frames resolve pending requests and are
 * dispatched to event handlers.
 */
module Robots {
  import opened Wrappers
  import opened Seqs
  import opened Struct
  import opened Checksum
  import opened Packets
  import opened Types
  import opened Utf8
  import opened Commands
  import opened Events

  /** `(dev, cmd, inc)`: the key a reply is matched to its request by. */
  type ReplyKey = (byte, byte, byte)

  // ----- sequence numbers -----

  /** The number the `inc` property leaves behind: one more, wrapping from 255 to 0. */
  function Successor(i: byte): (j: byte)
    ensures j == (i + 1) % 256
  {
    if i + 1 > 255 then 0 else i + 1
  }

  /** The counter after k reads starting from i. */
  function IncAfter(i: byte, k: nat): byte
  {
    if k == 0 then i else Successor(IncAfter(i, k - 1))
  }

  /** k reads advance the counter by k modulo 256. */
  lemma {:induction false} IncAfterWraps(i: byte, k: nat)
    ensures IncAfter(i, k) == (i + k) % 256
  {
    if k > 0 {
      IncAfterWraps(i, k - 1);
    }
  }

  /** Any 256 consecutive requests carry 256 different sequence numbers. */
  lemma IncDistinct(i: byte, j: nat, k: nat)
    requires j < k < j + 256
    ensures IncAfter(i, j) != IncAfter(i, k)
  {
    IncAfterWraps(i, j);
    IncAfterWraps(i, k);
  }

  /** The 257th request reuses the first one's sequence number. */
  lemma IncPeriodic(i: byte, k: nat)
    ensures IncAfter(i, k + 256) == IncAfter(i, k)
  {
    IncAfterWraps(i, k);
    IncAfterWraps(i, k + 256);
    ModPeriod(i + k);
  }

  lemma ModPeriod(x: nat)
    ensures (x + 256) % 256 == x % 256
  {
  }

  // ----- frames -----

  /** The 20 bytes `write_packet(Packet(dev, cmd, inc, payload))` puts on the link. */
  function Wire(dev: byte, cmd: byte, inc: byte, payload: seq<byte>): (w: seq<byte>)
    requires |payload| <= PAYLOAD_LEN
  {
    var body := [dev, cmd, inc] + payload + Padding(PAYLOAD_LEN - |payload|);
    body + [Crc8(body)]
  }

  /** The frame is what `to_bytes` makes of the packet the command builds. */
  lemma WireIsToBytes(dev: byte, cmd: byte, inc: byte, payload: seq<byte>)
    requires |payload| <= PAYLOAD_LEN
    ensures Wire(dev, cmd, inc, payload) == ToBytes(New(dev, cmd, inc, payload, None).value)
  {
    var pad := Padding(PAYLOAD_LEN - |payload|);
    AppendAssociative([dev, cmd, inc], payload, pad);
    assert Body(New(dev, cmd, inc, payload, None).value) == [dev, cmd, inc] + payload + pad;
  }

  /** The frame's layout: header, payload, zero padding, and the CRC-8 of the first 19 bytes. */
  lemma WireLayout(dev: byte, cmd: byte, inc: byte, payload: seq<byte>)
    requires |payload| <= PAYLOAD_LEN
    ensures var w := Wire(dev, cmd, inc, payload);
      && |w| == PACKET_LEN && w[0] == dev && w[1] == cmd && w[2] == inc
      && w[3..3 + |payload|] == payload
      && (forall i :: 3 + |payload| <= i < PACKET_LEN - 1 ==> w[i] == 0)
      && w[PACKET_LEN - 1] == Crc8(w[..PACKET_LEN - 1])
  {
    var p := New(dev, cmd, inc, payload, None).value;
    var w := Wire(dev, cmd, inc, payload);
    assert w[3..3 + |payload|] == Body(p)[3..][..|payload|];
  }

  /** A frame the robot writes parses back, on the other side, into the same fields, and its CRC checks. */
  lemma WireParses(dev: byte, cmd: byte, inc: byte, payload: seq<byte>)
    requires |payload| <= PAYLOAD_LEN
    ensures FromBytes(Wire(dev, cmd, inc, payload)).Ok?
    ensures var q := FromBytes(Wire(dev, cmd, inc, payload)).value;
      q.dev == dev && q.cmd == cmd && q.inc == inc && q.payload[..|payload|] == payload && CheckCrc(q)
  {
    WireIsToBytes(dev, cmd, inc, payload);
    FromBytesToBytes(New(dev, cmd, inc, payload, None).value);
  }

  // ----- names -----

  /** `set_name`'s truncation: drop trailing characters until the UTF-8 encoding fits in a payload. */
  function FitName(name: string): (r: string)
    ensures r <= name && |Encode(r)| <= PAYLOAD_LEN
    decreases |name|
  {
    if |Encode(name)| <= PAYLOAD_LEN then name else FitName(name[..|name| - 1])
  }

  /** The truncated name is the longest prefix of the name whose encoding fits in 16 bytes. */
  lemma {:induction false} FitNameLongest(name: string)
    ensures forall k :: |FitName(name)| < k <= |name| ==> |Encode(name[..k])| > PAYLOAD_LEN
    decreases |name|
  {
    if |Encode(name)| > PAYLOAD_LEN {
      var shorter := name[..|name| - 1];
      FitNameLongest(shorter);
      forall k | |FitName(name)| < k <= |name|
        ensures |Encode(name[..k])| > PAYLOAD_LEN
      {
        if k < |name| {
          assert shorter[..k] == name[..k];
        } else {
          assert name[..k] == name;
        }
      }
    }
  }

  /**
   * What `get_name` makes of a reply whose payload is a name as `set_name`
   * sends it (encoded, zero-padded): the name back, less trailing NULs.
   */
  lemma NameReadBack(name: string, p: Packet)
    requires |Encode(name)| <= PAYLOAD_LEN
    requires p.payload == Encode(name) + Padding(PAYLOAD_LEN - |Encode(name)|)
    ensures NameFromReply(Some(p)) == Ok(RStripNul(name))
  {
    var n := PAYLOAD_LEN - |Encode(name)|;
    assert Padding(n) == seq(n, _ => 0);
    DecodeZeros(n);
    DecodeEncodePrefix(name, Padding(n), Nuls(n));
    RStripNulPadded(name, n);
  }

  /** The keys of k speech chunks sent from sequence number i on. */
  function SpeechKeys(i: byte, k: nat): (keys: seq<ReplyKey>)
    ensures |keys| == k && forall j :: 0 <= j < k ==> keys[j] == (5, 4, IncAfter(i, j))
  {
    if k == 0 then [] else SpeechKeys(i, k - 1) + [(5, 4, IncAfter(i, k - 1))]
  }

  /** The frames of the first k speech chunks sent from sequence number i on. */
  function SpeechFrames(chunks: seq<seq<byte>>, i: byte, k: nat): (frames: seq<seq<byte>>)
    requires k <= |chunks| && forall j :: 0 <= j < |chunks| ==> |chunks[j]| <= PAYLOAD_LEN
    ensures |frames| == k
  {
    if k == 0 then [] else SpeechFrames(chunks, i, k - 1) + [Wire(5, 4, IncAfter(i, k - 1), chunks[k - 1])]
  }

  /** Frame j of the speech is chunk j stamped with the j-th sequence number after i. */
  lemma {:induction false} SpeechFrameAt(chunks: seq<seq<byte>>, i: byte, k: nat, j: nat)
    requires k <= |chunks| && forall j :: 0 <= j < |chunks| ==> |chunks[j]| <= PAYLOAD_LEN
    requires j < k
    ensures SpeechFrames(chunks, i, k)[j] == Wire(5, 4, IncAfter(i, j), chunks[j])
  {
    var prev := SpeechFrames(chunks, i, k - 1);
    var last := Wire(5, 4, IncAfter(i, k - 1), chunks[k - 1]);
    assert SpeechFrames(chunks, i, k) == prev + [last];
    if j < k - 1 {
      SpeechFrameAt(chunks, i, k - 1, j);
      SnocIndex(prev, last, j);
    }
  }

  /**
   * The handler loop of `_data_received` on its own: the handlers under
   * key see the packet in order, starting from the given task table and
   * motor flag.
   */
  method DispatchHandlers(subs: seq<Subscription>, key: EventKey, p: Packet, table0: map<EventKey, Task>, motors0: bool)
    returns (table: map<EventKey, Task>, motors: bool, error: Option<Exception>)
    ensures DispatchState(table, motors, error) == Dispatch(subs, key, p, DispatchState(table0, motors0, None))
    ensures forall k :: k in table && k != key ==> k in table0 && table[k] == table0[k]
    ensures key in table ==> (key in table0 && table[key].handler == table0[key].handler) || table[key].handler < |subs|
  {
    ghost var st0 := DispatchState(table0, motors0, None);
    ghost var outs := Outcomes(subs, p);
    table, motors, error := table0, motors0, None;
    var i := 0;
    while i < |subs| && error.None?
      invariant 0 <= i <= |subs|
      invariant error.None? ==> DispatchPrefix(subs, outs, i, key, st0) == DispatchState(table, motors, None)
      invariant error.Some? ==> Dispatch(subs, key, p, st0) == DispatchState(table, motors, error)
    {
      var out := Evaluate(subs[i].filter, p);
      DispatchNext(subs, p, i, key, st0);
      table, motors, error := HandleOne(out, subs[i].callback, i, key, table, motors);
      if error.Some? {
        StopsAtError(subs, outs, |subs|, i + 1, key, st0);
      }
      i := i + 1;
    }
  }

  /** The next handler's step of dispatch: its filter's outcome handled from the state so far. */
  lemma DispatchNext(subs: seq<Subscription>, p: Packet, i: nat, key: EventKey, st: DispatchState)
    requires i < |subs| && st.error.None?
    requires DispatchPrefix(subs, Outcomes(subs, p), i, key, st).error.None?
    ensures DispatchPrefix(subs, Outcomes(subs, p), i + 1, key, st) ==
      Handle(DispatchPrefix(subs, Outcomes(subs, p), i, key, st), Evaluate(subs[i].filter, p), subs[i].callback, i, key)
  {
  }

  /** One handler of the loop: its filter's outcome decides whether its callback replaces the task under key. */
  method HandleOne(out: Outcome, callback: Callback, i: nat, key: EventKey, table0: map<EventKey, Task>, motors0: bool)
    returns (table: map<EventKey, Task>, motors: bool, error: Option<Exception>)
    ensures DispatchState(table, motors, error) == Handle(DispatchState(table0, motors0, None), out, callback, i, key)
  {
    table, motors, error := table0, motors0, None;
    match out
    case Reject =>
    case Raise(e) =>
      error := Some(e);
    case Pass(arg) =>
      if key in table {
        table := table[key := table[key].(cancelled := true)];
      }
      if callback.EnableMotorsCallback? {
        motors := true;
        error := Some(TypeError);
      } else {
        table := table[key := Task(i, arg, false)];
      }
  }

  class Robot {
    /** The sequence number the next command takes. */
    var inc: byte
    /** The keys of the requests still waiting for their reply. */
    var responses: set<ReplyKey>
    /** The handlers registered per event, in registration order. */
    var events: map<EventKey, seq<Subscription>>
    /** The latest task scheduled per event. */
    var tasks: map<EventKey, Task>
    var running: bool
    /** Whether motor commands are sent at all. */
    var enableMotors: bool
    /** The frames written to the Bluetooth link, oldest first. */
    var outbox: seq<seq<byte>>

    /** Every task was scheduled by a handler registered under its event. */
    ghost predicate Valid()
      reads this`tasks, this`events
    {
      forall k :: k in tasks ==> k in events && tasks[k].handler < |events[k]|
    }

    /** The handlers registered under key; the `defaultdict` gives an empty list for a new one. */
    function Handlers(key: EventKey): (subs: seq<Subscription>)
      reads this`events
      ensures key in events ==> subs == events[key]
      ensures key !in events ==> subs == []
    {
      if key in events then events[key] else []
    }

    /**
     * One command sent: the counter has moved on, the packet carrying the
     * old counter value was written if the robot is running, and a
     * request's key is awaiting its reply.
     */
    twostate predicate Issued(dev: byte, cmd: byte, payload: seq<byte>, awaitsReply: bool)
      requires |payload| <= PAYLOAD_LEN
      reads this
    {
      && inc == Successor(old(inc))
      && outbox == old(outbox) + (if old(running) then [Wire(dev, cmd, old(inc), payload)] else [])
      && responses == old(responses) + (if awaitsReply then {(dev, cmd, old(inc))} else {})
    }

    /** A handler appended to those of key. */
    twostate predicate Subscribed(key: EventKey, sub: Subscription)
      reads this
    {
      events == old(events)[key := old(Handlers(key)) + [sub]]
    }

    constructor ()
      ensures Valid()
      ensures inc == 0 && responses == {} && events == map[] && tasks == map[]
      ensures !running && enableMotors && outbox == []
    {
      inc := 0;
      responses := {};
      events := map[];
      tasks := map[];
      running := false;
      enableMotors := true;
      outbox := [];
    }

    // ----- handler registration -----

    method OnColor(filter: Option<Color>, callback: nat)
      requires Valid()
      modifies this`events
      ensures Valid()
      ensures Subscribed(COLOR_EVENT, Subscription(ColorFilter(filter), UserCallback(callback)))
    {
      events := events[COLOR_EVENT := Handlers(COLOR_EVENT) + [Subscription(ColorFilter(filter), UserCallback(callback))]];
    }

    method OnBump(filter: Option<Bumper>, callback: nat)
      requires Valid()
      modifies this`events
      ensures Valid()
      ensures Subscribed(BUMP_EVENT, Subscription(BumpFilter(filter), UserCallback(callback)))
    {
      events := events[BUMP_EVENT := Handlers(BUMP_EVENT) + [Subscription(BumpFilter(filter), UserCallback(callback))]];
    }

    method OnLight(filter: Option<Light>, callback: nat)
      requires Valid()
      modifies this`events
      ensures Valid()
      ensures Subscribed(LIGHT_EVENT, Subscription(LightFilter(filter), UserCallback(callback)))
    {
      events := events[LIGHT_EVENT := Handlers(LIGHT_EVENT) + [Subscription(LightFilter(filter), UserCallback(callback))]];
    }

    method OnTouch(filter: Option<Touch>, callback: nat)
      requires Valid()
      modifies this`events
      ensures Valid()
      ensures Subscribed(TOUCH_EVENT, Subscription(TouchFilter(filter), UserCallback(callback)))
    {
      events := events[TOUCH_EVENT := Handlers(TOUCH_EVENT) + [Subscription(TouchFilter(filter), UserCallback(callback))]];
    }

    // ----- sending -----

    /** The `inc` property: hand out the current sequence number and advance it. */
    method NextInc() returns (i: byte)
      modifies this`inc
      ensures i == old(inc) && inc == Successor(old(inc))
    {
      i := inc;
      var next := inc as int + 1;
      if next > 255 {
        next := 0;
      }
      inc := next;
    }

    /** `write_packet`: while running, the packet's body and freshly computed CRC go on the link. */
    method WritePacket(p: Packet)
      modifies this`outbox
      ensures outbox == old(outbox) + (if running then [ToBytes(p)] else [])
    {
      if running {
        var crc := CalcCrc(p);
        outbox := outbox + [Body(p) + [crc]];
      }
    }

    /** A command that expects no reply. */
    method Send(dev: byte, cmd: byte, payload: seq<byte>)
      requires |payload| <= PAYLOAD_LEN
      modifies this`inc, this`outbox
      ensures Issued(dev, cmd, payload, false)
    {
      var i := NextInc();
      WireIsToBytes(dev, cmd, i, payload);
      WritePacket(New(dev, cmd, i, payload, None).value);
    }

    /** A command whose reply is awaited under the key it returns. */
    method Request(dev: byte, cmd: byte, payload: seq<byte>) returns (key: ReplyKey)
      requires |payload| <= PAYLOAD_LEN
      modifies this`inc, this`outbox, this`responses
      ensures Issued(dev, cmd, payload, true) && key == (dev, cmd, old(inc))
    {
      var i := NextInc();
      key := (dev, cmd, i);
      responses := responses + {key};
      WireIsToBytes(dev, cmd, i, payload);
      WritePacket(New(dev, cmd, i, payload, None).value);
    }

    // ----- commands -----

    /**
     * `get_versions(board)`; the reply is read by `Versions`. The request's
     * key is registered before the payload is built, so a board number
     * outside 0..255 still takes a sequence number and leaves its key
     * pending when `bytes([board])` raises ValueError; nothing is written.
     */
    method GetVersions(board: int) returns (key: ReplyKey, error: Option<Exception>)
      modifies this`inc, this`outbox, this`responses
      ensures key == (0, 0, old(inc))
      ensures 0 <= board < 256 ==> Issued(0, 0, [board], true) && error.None?
      ensures !(0 <= board < 256) ==>
        && inc == Successor(old(inc)) && responses == old(responses) + {key} && outbox == old(outbox)
        && error == Some(ValueError)
    {
      if 0 <= board < 256 {
        key := Request(0, 0, [board]);
        error := None;
      } else {
        var i := NextInc();
        key := (0, 0, i);
        responses := responses + {key};
        error := Some(ValueError);
      }
    }

    /** `set_name(name)`: the name cut down until its UTF-8 encoding fits in one payload. */
    method SetName(name: string)
      modifies this`inc, this`outbox
      ensures Issued(0, 1, Encode(FitName(name)), false)
    {
      var fitted := name;
      var utf := Encode(fitted);
      while |utf| > PAYLOAD_LEN
        invariant utf == Encode(fitted) && FitName(fitted) == FitName(name)
        decreases |fitted|
      {
        fitted := fitted[..|fitted| - 1];
        utf := Encode(fitted);
      }
      Send(0, 1, utf);
    }

    /** `get_name()`; the reply is read by `NameFromReply`. */
    method GetName() returns (key: ReplyKey)
      modifies this`inc, this`outbox, this`responses
      ensures Issued(0, 2, [], true) && key == (0, 2, old(inc))
    {
      key := Request(0, 2, []);
    }

    /** `set_speeds`: both wheel speeds (mm/s), clamped, only while motors are enabled. */
    method SetSpeeds(left: int, right: int)
      modifies this`inc, this`outbox
      ensures old(enableMotors) ==> Issued(1, 4, SpeedsPayload(left, right), false)
      ensures !old(enableMotors) ==> unchanged(this)
    {
      if enableMotors {
        Send(1, 4, SpeedsPayload(left, right));
      }
    }

    method SetLeftSpeed(speed: int)
      modifies this`inc, this`outbox
      ensures old(enableMotors) ==> Issued(1, 6, SpeedPayload(speed), false)
      ensures !old(enableMotors) ==> unchanged(this)
    {
      if enableMotors {
        Send(1, 6, SpeedPayload(speed));
      }
    }

    method SetRightSpeed(speed: int)
      modifies this`inc, this`outbox
      ensures old(enableMotors) ==> Issued(1, 7, SpeedPayload(speed), false)
      ensures !old(enableMotors) ==> unchanged(this)
    {
      if enableMotors {
        Send(1, 7, SpeedPayload(speed));
      }
    }

    /** `drive_distance`: a distance in millimetres, awaiting completion. */
    method DriveDistance(distance: int) returns (key: Option<ReplyKey>)
      requires IsInt32(distance)
      modifies this`inc, this`outbox, this`responses
      ensures old(enableMotors) ==> Issued(1, 8, PackInt32(distance), true) && key == Some((1, 8, old(inc)))
      ensures !old(enableMotors) ==> unchanged(this) && key.None?
    {
      key := None;
      if enableMotors {
        var k := Request(1, 8, PackInt32(distance));
        key := Some(k);
      }
    }

    /** `turn_right`: an angle in tenths of a degree, clockwise. */
    method TurnRight(angle: int) returns (key: Option<ReplyKey>)
      requires IsInt32(angle)
      modifies this`inc, this`outbox, this`responses
      ensures old(enableMotors) ==> Issued(1, 12, PackInt32(angle), true) && key == Some((1, 12, old(inc)))
      ensures !old(enableMotors) ==> unchanged(this) && key.None?
    {
      key := None;
      if enableMotors {
        var k := Request(1, 12, PackInt32(angle));
        key := Some(k);
      }
    }

    /** `turn_left`: a right turn by the negated angle. */
    method TurnLeft(angle: int) returns (key: Option<ReplyKey>)
      requires IsInt32(-angle)
      modifies this`inc, this`outbox, this`responses
      ensures old(enableMotors) ==> Issued(1, 12, PackInt32(-angle), true) && key == Some((1, 12, old(inc)))
      ensures !old(enableMotors) ==> unchanged(this) && key.None?
    {
      var negated := -angle;
      assert PackInt32(negated) == PackInt32(-angle);
      key := TurnRight(negated);
    }

    method ResetPosition()
      modifies this`inc, this`outbox
      ensures Issued(1, 15, [], false)
    {
      Send(1, 15, []);
    }

    /** `get_position()`; the reply is read by `Position`. */
    method GetPosition() returns (key: ReplyKey)
      modifies this`inc, this`outbox, this`responses
      ensures Issued(1, 16, [], true) && key == (1, 16, old(inc))
    {
      key := Request(1, 16, []);
    }

    /** `arc`: angle and radius in tenths, awaiting completion. */
    method Arc(angle: int, radius: int) returns (key: Option<ReplyKey>)
      requires IsInt32(angle) && IsInt32(radius)
      modifies this`inc, this`outbox, this`responses
      ensures old(enableMotors) ==> Issued(1, 27, ArcPayload(angle, radius), true) && key == Some((1, 27, old(inc)))
      ensures !old(enableMotors) ==> unchanged(this) && key.None?
    {
      key := None;
      if enableMotors {
        var k := Request(1, 27, ArcPayload(angle, radius));
        key := Some(k);
      }
    }

    /** `set_marker`, with the clamp taken on the Marker codes. */
    method SetMarker(position: int) returns (key: Option<ReplyKey>)
      modifies this`inc, this`outbox, this`responses
      ensures old(enableMotors) ==> Issued(2, 0, MarkerPayload(position), true) && key == Some((2, 0, old(inc)))
      ensures !old(enableMotors) ==> unchanged(this) && key.None?
    {
      key := None;
      if enableMotors {
        var k := Request(2, 0, MarkerPayload(position));
        key := Some(k);
      }
    }

    /** `set_lights`, with the animation clamped on the Animation codes. */
    method SetLights(red: int, green: int, blue: int, animation: int)
      modifies this`inc, this`outbox
      ensures Issued(3, 2, LightsPayload(animation, red, green, blue), false)
    {
      Send(3, 2, LightsPayload(animation, red, green, blue));
    }

    /** `get_color_sensor_data`; the reply is read by `ColorSensorData`. */
    method GetColorSensorData(bank: int, lighting: int, format: int) returns (key: ReplyKey)
      modifies this`inc, this`outbox, this`responses
      ensures Issued(4, 1, ColorSensorRequest(bank, lighting, format), true) && key == (4, 1, old(inc))
    {
      key := Request(4, 1, ColorSensorRequest(bank, lighting, format));
    }

    /** `play_note`: frequency in Hz and duration in ms, awaiting the end of the note. */
    method PlayNote(frequency: int, duration: int) returns (key: ReplyKey)
      requires IsUInt32(Abs(frequency)) && IsUInt16(Abs(duration))
      modifies this`inc, this`outbox, this`responses
      ensures Issued(5, 0, NotePayload(frequency, duration), true) && key == (5, 0, old(inc))
    {
      key := Request(5, 0, NotePayload(frequency, duration));
    }

    method StopPlayingNote()
      modifies this`inc, this`outbox
      ensures Issued(5, 1, [], false)
    {
      Send(5, 1, []);
    }

    /** `stop_saying` is `stop_playing_note`. */
    method StopSaying()
      modifies this`inc, this`outbox
      ensures Issued(5, 1, [], false)
    {
      StopPlayingNote();
    }

    /**
     * `say(phrase)`: the UTF-8 encoding in 16-byte chunks, chunk j sent as
     * a request with the j-th following sequence number.
     */
    method Say(phrase: string) returns (keys: seq<ReplyKey>)
      modifies this`inc, this`outbox, this`responses
      ensures var chunks := Slices(Encode(phrase), PAYLOAD_LEN);
        && keys == SpeechKeys(old(inc), |chunks|)
        && inc == IncAfter(old(inc), |chunks|)
        && responses == old(responses) + (set k | k in keys)
        && outbox == old(outbox) + (if running then SpeechFrames(chunks, old(inc), |chunks|) else [])
    {
      var chunks := Slices(Encode(phrase), PAYLOAD_LEN);
      keys := [];
      ghost var i0, outbox0, responses0 := inc, outbox, responses;
      ghost var sent: seq<seq<byte>> := [];
      for k := 0 to |chunks|
        invariant keys == SpeechKeys(i0, k)
        invariant inc == IncAfter(i0, k)
        invariant responses == responses0 + (set x | x in keys)
        invariant outbox == outbox0 + sent
        invariant sent == if running then SpeechFrames(chunks, i0, k) else []
      {
        var key := Request(5, 4, chunks[k]);
        ElementsSnoc(keys, key);
        keys := keys + [key];
        if running {
          ghost var frame := Wire(5, 4, IncAfter(i0, k), chunks[k]);
          AppendAssociative(outbox0, sent, [frame]);
          sent := sent + [frame];
        }
      }
    }

    /** `play_sweep`, with the modulation type clamped on its codes. */
    method PlaySweep(start: int, end: int, duration: int, attack: int, release: int, volume: int,
                     modulationType: int, modulationRate: int, append: bool) returns (key: ReplyKey)
      requires IsUInt32(Abs(start)) && IsUInt32(Abs(end)) && IsUInt16(Abs(duration))
      modifies this`inc, this`outbox, this`responses
      ensures Issued(5, 5, SweepPayload(start, end, duration, attack, release, volume, modulationType, modulationRate, append), true)
      ensures key == (5, 5, old(inc))
    {
      key := Request(5, 5, SweepPayload(start, end, duration, attack, release, volume, modulationType, modulationRate, append));
    }

    /** `get_light_sensor_data()`; the reply is read by `LightSensorData`. */
    method GetLightSensorData() returns (key: ReplyKey)
      modifies this`inc, this`outbox, this`responses
      ensures Issued(13, 1, [], true) && key == (13, 1, old(inc))
    {
      key := Request(13, 1, []);
    }

    /** `get_battery_level()`; the reply is read by `BatteryLevel`. */
    method GetBatteryLevel() returns (key: ReplyKey)
      modifies this`inc, this`outbox, this`responses
      ensures Issued(14, 1, [], true) && key == (14, 1, old(inc))
    {
      key := Request(14, 1, []);
    }

    /** `get_accelerometer()`; the reply is read by `Accelerometer`. */
    method GetAccelerometer() returns (key: ReplyKey)
      modifies this`inc, this`outbox, this`responses
      ensures Issued(16, 1, [], true) && key == (16, 1, old(inc))
    {
      key := Request(16, 1, []);
    }

    // ----- lifecycle -----

    /** `run()`: forget pending requests, handlers and tasks, install the robot's own handlers, restart the counter. */
    method Run()
      modifies this`responses, this`events, this`tasks, this`inc, this`running
      ensures Valid()
      ensures responses == {} && events == RunEvents() && tasks == map[] && inc == 0 && running
    {
      responses := {};
      events := RunEvents();
      tasks := map[];
      inc := 0;
      running := true;
    }

    method IsRunning() returns (r: bool)
      ensures r == running
    {
      r := running;
    }

    /** `stop()`: send the stop command (while still running), then stop. */
    method Stop()
      modifies this`inc, this`outbox, this`running
      ensures inc == Successor(old(inc))
      ensures outbox == old(outbox) + (if old(running) then [Wire(0, 3, old(inc), [])] else [])
      ensures !running
    {
      Send(0, 3, []);
      running := false;
    }

    method EnableMotors(enable: bool)
      modifies this`enableMotors
      ensures enableMotors == enable
    {
      enableMotors := enable;
    }

    // ----- receiving -----

    /**
     * `_data_received(data)`: while running, parse the frame (a wrong
     * length fails the assertion), drop it if its CRC does not check,
     * resolve the request waiting on its (dev, cmd, inc), then run the
     * handlers under its (dev, cmd) in order: each truthy filter result
     * replaces the task under that key; an exception ends the dispatch.
     */
    method DataReceived(data: seq<byte>) returns (error: Option<Exception>, reply: Option<Packet>)
      requires Valid()
      modifies this`responses, this`tasks, this`enableMotors
      ensures Valid()
      ensures !old(running) ==> unchanged(this) && error.None? && reply.None?
      ensures old(running) && |data| != PACKET_LEN ==> unchanged(this) && error == Some(AssertionError) && reply.None?
      ensures old(running) && |data| == PACKET_LEN && !CheckCrc(FromBytes(data).value) ==>
        unchanged(this) && error.None? && reply.None?
      ensures old(running) && |data| == PACKET_LEN && CheckCrc(FromBytes(data).value) ==>
        var p := FromBytes(data).value;
        var key := (p.dev, p.cmd);
        && responses == old(responses) - {(p.dev, p.cmd, p.inc)}
        && reply == (if (p.dev, p.cmd, p.inc) in old(responses) then Some(p) else None)
        && (key in old(events) ==>
              var d := Dispatch(old(events)[key], key, p, DispatchState(old(tasks), old(enableMotors), None));
              tasks == d.tasks && enableMotors == d.enableMotors && error == d.error)
        && (key !in old(events) ==> tasks == old(tasks) && enableMotors == old(enableMotors) && error.None?)
    {
      error, reply := None, None;
      if !running {
        return;
      }
      var parsed := FromBytes(data);
      if parsed.Err? {
        error := Some(parsed.error);
        return;
      }
      var p := parsed.value;
      var crc := CalcCrc(p);
      if p.crc.None? || p.crc.value != crc {
        return;
      }
      error, reply := Deliver(p);
    }

    /**
     * A frame that passed its CRC check: resolve the request waiting on
     * its (dev, cmd, inc), then let the handlers under its (dev, cmd) see it.
     */
    method Deliver(p: Packet) returns (error: Option<Exception>, reply: Option<Packet>)
      requires Valid()
      modifies this`responses, this`tasks, this`enableMotors
      ensures Valid()
      ensures responses == old(responses) - {(p.dev, p.cmd, p.inc)}
      ensures reply == (if (p.dev, p.cmd, p.inc) in old(responses) then Some(p) else None)
      ensures (p.dev, p.cmd) in events ==>
        var d := Dispatch(events[(p.dev, p.cmd)], (p.dev, p.cmd), p, DispatchState(old(tasks), old(enableMotors), None));
        tasks == d.tasks && enableMotors == d.enableMotors && error == d.error
      ensures (p.dev, p.cmd) !in events ==> tasks == old(tasks) && enableMotors == old(enableMotors) && error.None?
    {
      error, reply := None, None;
      var pending := (p.dev, p.cmd, p.inc);
      if pending in responses {
        responses := responses - {pending};
        reply := Some(p);
      }
      var key := (p.dev, p.cmd);
      if key in events {
        var table, motors;
        table, motors, error := DispatchHandlers(events[key], key, p, tasks, enableMotors);
        tasks, enableMotors := table, motors;
      }
    }
  }
}
