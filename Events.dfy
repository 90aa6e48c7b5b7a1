/**
 * Event subscriptions and their filters: what each filter closure of the
 * robot returns for an incoming packet, and what dispatching a packet to
 * the handlers registered under its (device, command) key does to the
 * task table.
 */
module Events {
  import opened Wrappers
  import opened Seqs
  import opened Struct
  import opened Packets
  import opened Types
  import opened Commands

  /** `(dev, cmd)`: the key events are registered and dispatched under. */
  type EventKey = (byte, byte)

  const COLOR_EVENT: EventKey := (4, 2)
  const BUMP_EVENT: EventKey := (12, 0)
  const LIGHT_EVENT: EventKey := (13, 0)
  const TOUCH_EVENT: EventKey := (17, 0)
  const STOP_EVENT: EventKey := (0, 4)
  const STALL_EVENT: EventKey := (1, 29)
  const CLIFF_EVENT: EventKey := (20, 0)

  /** The filter closures the robot registers; a user filter of None passes everything. */
  datatype Filter =
    | ColorFilter(color: Option<Color>)
    | BumpFilter(bumper: Option<Bumper>)
    | LightFilter(light: Option<Light>)
    | TouchFilter(touch: Option<Touch>)
    | StopFilter   // returns the packet itself
    | StallFilter  // always False
    | CliffFilter  // payload[4] == 0

  /** A user's coroutine function, the robot's own `stop`, or its (synchronous) `enable_motors`. */
  datatype Callback = UserCallback(id: nat) | StopCallback | EnableMotorsCallback

  datatype Subscription = Subscription(filter: Filter, callback: Callback)

  /** The truthy value a filter hands to its callback. */
  datatype EventArg =
    | ColorArg(c: Color) | BumperArg(b: Bumper) | LightArg(l: Light) | TouchArg(t: Touch)
    | PacketArg(p: Packet) | FlagArg(flag: bool)

  /** A filter's result: truthy (the handler fires with that argument), falsy, or an exception. */
  datatype Outcome = Pass(arg: EventArg) | Reject | Raise(error: Exception)

  // ----- colour zones -----

  /**
   * `round(32 / n)` for n > 0, with Python's round-half-to-even: the
   * nearest integer, and 0 for the one tie (n = 64, exactly one half).
   */
  function RoundedZoneSize(n: nat): (r: nat)
    requires n > 0
    ensures 2 * n * r <= 64 + n && 64 <= 2 * n * r + n
    ensures 2 * n * r + n == 64 ==> r % 2 == 0
  {
    if n == 64 then 0 else (64 + n) / (2 * n)
  }

  /** Zones are empty exactly from 64 filter entries on. */
  lemma ZoneSizeZero(n: nat)
    requires n > 0
    ensures RoundedZoneSize(n) == 0 <==> n >= 64
  {
    if n < 64 {
      assert 64 <= 2 * n * RoundedZoneSize(n) + n;
    }
  }

  /**
   * The colour filter's test: split the 32 readings into zones of
   * `round(32 / len(filter))` readings and require, for each filter entry
   * paired by `zip` with a zone, that it is ANY or occurs in its zone.
   * An empty filter divides by zero; a filter of 64 or more entries gives
   * zone size 0, which `range` rejects.
   */
  function ColorMatches(filter: seq<int>, colors: seq<int>): (r: Result<bool>)
    ensures r == Err(ZeroDivisionError) <==> filter == []
    ensures r == Err(ValueError) <==> |filter| >= 64
    ensures r.Ok? ==> 1 <= |filter| < 64
    ensures r.Ok? ==> (r.value <==> ZonesMatch(filter, colors, RoundedZoneSize(|filter|)))
  {
    if filter == [] then Err(ZeroDivisionError)
    else
      ZoneSizeZero(|filter|);
      var size := RoundedZoneSize(|filter|);
      if size == 0 then Err(ValueError)
      else
        ZonesAgree(filter, colors, size);
        Ok(ZipMatch(filter, Slices(colors, size)))
  }

  /** `all(x[0] == ANY or x[0] in x[1] for x in zip(filter, zones))`. */
  predicate ZipMatch(filter: seq<int>, zones: seq<seq<int>>)
  {
    forall j :: 0 <= j < |filter| && j < |zones| ==> filter[j] == ANY || filter[j] in zones[j]
  }

  /**
   * The verdict: every filter entry j that has a zone (the readings
   * j * size .. (j + 1) * size - 1, cut short at the end) is ANY or occurs
   * in it; entries past the last zone are not checked.
   */
  predicate ZonesMatch(filter: seq<int>, colors: seq<int>, size: nat)
    requires size > 0
  {
    forall j :: 0 <= j < |filter| && j * size < |colors| ==> filter[j] == ANY || filter[j] in Zone(colors, size, j)
  }

  /** The zip of filter entries with slices pairs entry j with zone j, for every zone there is. */
  lemma ZonesAgree(filter: seq<int>, colors: seq<int>, size: nat)
    requires size > 0
    ensures ZipMatch(filter, Slices(colors, size)) <==> ZonesMatch(filter, colors, size)
  {
    forall j | 0 <= j < |filter|
      ensures j < |Slices(colors, size)| <==> j * size < |colors|
      ensures j * size < |colors| ==> Slices(colors, size)[j] == Zone(colors, size, j)
    {
      SlicesAt(colors, size, j);
    }
  }

  /** A filter of ANY entries matches every reading. */
  lemma AnyFilterMatches(filter: seq<int>, colors: seq<int>)
    requires 1 <= |filter| < 64 && forall j :: 0 <= j < |filter| ==> filter[j] == ANY
    ensures ColorMatches(filter, colors) == Ok(true)
  {
  }

  /** A one-entry filter is one zone of all readings: it matches iff its colour is ANY or is seen anywhere. */
  lemma SingleColorFilter(c: int, colors: seq<int>)
    requires |colors| == 32
    ensures ColorMatches([c], colors) == Ok(c == ANY || c in colors)
  {
    var filter := [c];
    assert RoundedZoneSize(|filter|) == 32;
    var zones := Slices(colors, 32);
    assert zones == [colors];
    assert ColorMatches(filter, colors) == Ok(filter[0] == ANY || filter[0] in zones[0]);
  }

  /**
   * With nine entries the zones are four readings wide, so there are only
   * eight of them: `zip` drops the ninth entry, which is never checked.
   */
  lemma NinthEntryIgnored(filter: seq<int>, colors: seq<int>)
    requires |filter| == 9 && |colors| == 32
    ensures ColorMatches(filter, colors) == ColorMatches(filter[..8] + [ANY], colors)
  {
    assert RoundedZoneSize(9) == 4;
    SlicesAtMost(colors, 4, 8);
  }

  // ----- filters -----

  /** What the filter closure returns for a packet, read as Python truthiness. */
  function Evaluate(f: Filter, p: Packet): (o: Outcome)
    ensures f.StallFilter? ==> o == Reject
    ensures f.StopFilter? ==> o == Pass(PacketArg(p))
    ensures f.CliffFilter? ==> (o.Pass? <==> p.payload[4] == 0)
    ensures o.Raise? ==> f.ColorFilter? && f.color.Some?
    ensures f == ColorFilter(None) ==> o == Pass(ColorArg(ColorFromPacket(p)))
    ensures f.ColorFilter? && f.color.Some? ==>
      var verdict := ColorMatches(f.color.value.colors, ColorFromPacket(p).colors);
      && (o.Pass? <==> verdict == Ok(true))
      && (o.Raise? <==> verdict.Err?)
      && (o.Pass? ==> o.arg == ColorArg(ColorFromPacket(p)))
    ensures f.BumpFilter? ==>
      && (o.Pass? <==> f.bumper.None? || f.bumper.value == BumperFromPacket(p))
      && (o.Pass? ==> o.arg == BumperArg(BumperFromPacket(p)))
    ensures f.LightFilter? ==>
      && (o.Pass? <==> f.light.None? || f.light.value.state == p.payload[4])
      && (o.Pass? ==> o.arg == LightArg(LightFromPacket(p)))
    ensures f.TouchFilter? ==>
      && (o.Pass? <==> f.touch.None? || f.touch.value == TouchFromPacket(p))
      && (o.Pass? ==> o.arg == TouchArg(TouchFromPacket(p)))
  {
    match f
    case ColorFilter(None) => Pass(ColorArg(ColorFromPacket(p)))
    case ColorFilter(Some(want)) =>
      var color := ColorFromPacket(p);
      (match ColorMatches(want.colors, color.colors)
       case Err(e) => Raise(e)
       case Ok(true) => Pass(ColorArg(color))
       case Ok(false) => Reject)
    case BumpFilter(want) =>
      var bumper := BumperFromPacket(p);
      if want.None? || want.value == bumper then Pass(BumperArg(bumper)) else Reject
    case LightFilter(want) =>
      var light := LightFromPacket(p);
      if want.None? || want.value.state == light.state then Pass(LightArg(light)) else Reject
    case TouchFilter(want) =>
      var touch := TouchFromPacket(p);
      if want.None? || want.value == touch then Pass(TouchArg(touch)) else Reject
    case StopFilter => Pass(PacketArg(p))
    case StallFilter => Reject
    case CliffFilter => if p.payload[4] == 0 then Pass(FlagArg(true)) else Reject
  }

  /** A light filter compares the comparator state only: the sensor readings do not matter. */
  lemma LightFilterIgnoresReadings(want: Light, p: Packet)
    ensures Evaluate(LightFilter(Some(want)), p).Pass? <==> want.state == p.payload[4]
  {
  }

  // ----- dispatch -----

  /** A scheduled handler run: the handler's index under its key, its argument, and whether it was cancelled. */
  datatype Task = Task(handler: nat, arg: EventArg, cancelled: bool)

  /** What dispatch changes: the task table and the motor flag, and the exception that stopped it, if any. */
  datatype DispatchState = DispatchState(tasks: map<EventKey, Task>, enableMotors: bool, error: Option<Exception>)

  /** What each handler's filter makes of the packet, in handler order. */
  function Outcomes(subs: seq<Subscription>, p: Packet): (outs: seq<Outcome>)
    ensures |outs| == |subs| && forall j :: 0 <= j < |subs| ==> outs[j] == Evaluate(subs[j].filter, p)
  {
    seq(|subs|, j requires 0 <= j < |subs| => Evaluate(subs[j].filter, p))
  }

  /**
   * Handler number i under key, whose filter gave the outcome out, seeing
   * the packet. A truthy filter result cancels the task under key, then
   * calls the callback: a coroutine function yields a coroutine that
   * becomes the new task under key; `enable_motors` runs at once, storing
   * its (truthy) argument, and returns None, which `create_task` rejects
   * with TypeError, so the old task stays in the table, cancelled.
   */
  function Handle(st: DispatchState, out: Outcome, callback: Callback, i: nat, key: EventKey): (r: DispatchState)
    requires st.error.None?
    ensures out.Reject? ==> r == st
    ensures out.Raise? ==> r == st.(error := Some(out.error))
    ensures out.Pass? && !callback.EnableMotorsCallback? ==> r == st.(tasks := st.tasks[key := Task(i, out.arg, false)])
    ensures out.Pass? && callback.EnableMotorsCallback? ==> r.enableMotors && r.error == Some(TypeError)
    ensures r.tasks.Keys <= st.tasks.Keys + {key}
    ensures forall k :: k in st.tasks && k != key ==> k in r.tasks && r.tasks[k] == st.tasks[k]
    ensures key in r.tasks ==> (key in st.tasks && r.tasks[key].handler == st.tasks[key].handler) || r.tasks[key].handler == i
  {
    match out
    case Reject => st
    case Raise(e) => st.(error := Some(e))
    case Pass(arg) =>
      if callback.EnableMotorsCallback? then
        var tasks := if key in st.tasks then st.tasks[key := st.tasks[key].(cancelled := true)] else st.tasks;
        DispatchState(tasks, true, Some(TypeError))
      else
        st.(tasks := st.tasks[key := Task(i, arg, false)])
  }

  /**
   * The state after the first n handlers, whose filters gave the outcomes
   * outs, have seen the packet, stopping at the first exception.
   */
  function DispatchPrefix(subs: seq<Subscription>, outs: seq<Outcome>, n: nat, key: EventKey, st: DispatchState): (r: DispatchState)
    requires n <= |subs| == |outs| && st.error.None?
    ensures forall k :: k in r.tasks && k != key ==> k in st.tasks && r.tasks[k] == st.tasks[k]
    ensures key in r.tasks ==> (key in st.tasks && r.tasks[key].handler == st.tasks[key].handler) || r.tasks[key].handler < n
  {
    if n == 0 then st
    else
      var prev := DispatchPrefix(subs, outs, n - 1, key, st);
      if prev.error.Some? then prev else Handle(prev, outs[n - 1], subs[n - 1].callback, n - 1, key)
  }

  /** The index of the last of the first n outcomes that passes. */
  function LastPass(outs: seq<Outcome>, n: nat): (r: Option<nat>)
    requires n <= |outs|
    ensures r.Some? ==> r.value < n && outs[r.value].Pass?
    ensures r.Some? ==> forall j :: r.value < j < n ==> !outs[j].Pass?
    ensures r.None? ==> forall j :: 0 <= j < n ==> !outs[j].Pass?
  {
    if n == 0 then None
    else if outs[n - 1].Pass? then Some(n - 1)
    else LastPass(outs, n - 1)
  }

  /**
   * The first n handlers have coroutine functions as callbacks and filters
   * that did not raise.
   */
  predicate Schedulable(subs: seq<Subscription>, outs: seq<Outcome>, n: nat)
    requires n <= |subs| == |outs|
  {
    forall j :: 0 <= j < n ==> !subs[j].callback.EnableMotorsCallback? && !outs[j].Raise?
  }

  /**
   * Cancel-and-replace: when each of the first n handlers schedules a task
   * or rejects, the task left under the key after them is that of the last
   * handler whose filter passed, with that filter's argument; if none
   * passed, the table is unchanged; and no other key is touched.
   */
  lemma {:induction false} LastPassWins(subs: seq<Subscription>, outs: seq<Outcome>, n: nat, key: EventKey, st: DispatchState)
    requires n <= |subs| == |outs| && st.error.None? && Schedulable(subs, outs, n)
    ensures DispatchPrefix(subs, outs, n, key, st).error.None?
    ensures DispatchPrefix(subs, outs, n, key, st).enableMotors == st.enableMotors
    ensures LastPass(outs, n).None? ==> DispatchPrefix(subs, outs, n, key, st).tasks == st.tasks
    ensures LastPass(outs, n).Some? ==>
      var i := LastPass(outs, n).value;
      DispatchPrefix(subs, outs, n, key, st).tasks == st.tasks[key := Task(i, outs[i].arg, false)]
  {
    if n > 0 {
      LastPassWins(subs, outs, n - 1, key, st);
      var prev := DispatchPrefix(subs, outs, n - 1, key, st);
      assert !subs[n - 1].callback.EnableMotorsCallback? && !outs[n - 1].Raise?;
      if outs[n - 1].Pass? {
        var t := Task(n - 1, outs[n - 1].arg, false);
        if LastPass(outs, n - 1).Some? {
          var j := LastPass(outs, n - 1).value;
          MapOverwrite(st.tasks, key, Task(j, outs[j].arg, false), t);
        }
      }
    }
  }

  /** Dispatch stops at the first handler that raises: later handlers never see the packet. */
  lemma {:induction false} StopsAtError(subs: seq<Subscription>, outs: seq<Outcome>, n: nat, m: nat, key: EventKey, st: DispatchState)
    requires m <= n <= |subs| == |outs| && st.error.None?
    requires DispatchPrefix(subs, outs, m, key, st).error.Some?
    ensures DispatchPrefix(subs, outs, n, key, st) == DispatchPrefix(subs, outs, m, key, st)
  {
    if n > m {
      StopsAtError(subs, outs, n - 1, m, key, st);
    }
  }

  /**
   * A filter that raises ends the walk, and the tasks scheduled before it
   * stay: the key keeps the task of the last handler before it whose
   * filter passed, or its old task if none did.
   */
  lemma RaiseKeepsEarlierTasks(subs: seq<Subscription>, outs: seq<Outcome>, m: nat, key: EventKey, st: DispatchState)
    requires m < |subs| == |outs| && st.error.None? && Schedulable(subs, outs, m) && outs[m].Raise?
    ensures DispatchPrefix(subs, outs, |subs|, key, st).error == Some(outs[m].error)
    ensures LastPass(outs, m).None? ==> DispatchPrefix(subs, outs, |subs|, key, st).tasks == st.tasks
    ensures LastPass(outs, m).Some? ==>
      var i := LastPass(outs, m).value;
      DispatchPrefix(subs, outs, |subs|, key, st).tasks == st.tasks[key := Task(i, outs[i].arg, false)]
  {
    LastPassWins(subs, outs, m, key, st);
    StopsAtError(subs, outs, |subs|, m + 1, key, st);
  }

  /** The handlers under the key seeing the packet in order, up to the first that raises. */
  function Dispatch(subs: seq<Subscription>, key: EventKey, p: Packet, st: DispatchState): (r: DispatchState)
    requires st.error.None?
    ensures forall k :: k in r.tasks && k != key ==> k in st.tasks && r.tasks[k] == st.tasks[k]
    ensures key in r.tasks ==> (key in st.tasks && r.tasks[key].handler == st.tasks[key].handler) || r.tasks[key].handler < |subs|
    ensures st.enableMotors ==> r.enableMotors
  {
    var r := DispatchPrefix(subs, Outcomes(subs, p), |subs|, key, st);
    assert st.enableMotors ==> r.enableMotors by {
      if st.enableMotors {
        MotorsStayEnabled(subs, Outcomes(subs, p), |subs|, key, st);
      }
    }
    r
  }

  /**
   * No event can switch the motors off: the only callback that touches
   * the flag is `enable_motors`, and a filter hands it only truthy values.
   */
  lemma {:induction false} MotorsStayEnabled(subs: seq<Subscription>, outs: seq<Outcome>, n: nat, key: EventKey, st: DispatchState)
    requires n <= |subs| == |outs| && st.error.None? && st.enableMotors
    ensures DispatchPrefix(subs, outs, n, key, st).enableMotors
  {
    if n > 0 {
      MotorsStayEnabled(subs, outs, n - 1, key, st);
    }
  }

  /** The handlers `run()` installs: the stop event stops the robot, stall and cliff events go to `enable_motors`. */
  function RunEvents(): (m: map<EventKey, seq<Subscription>>)
    ensures m.Keys == {STOP_EVENT, STALL_EVENT, CLIFF_EVENT}
  {
    map[STOP_EVENT := [Subscription(StopFilter, StopCallback)],
        STALL_EVENT := [Subscription(StallFilter, EnableMotorsCallback)],
        CLIFF_EVENT := [Subscription(CliffFilter, EnableMotorsCallback)]]
  }

  /**
   * The installed handlers on their own: a stall event never does
   * anything; a cliff event whose fifth payload byte is zero sets the
   * motor flag and then fails with TypeError, any other leaves everything
   * as it was; a stop event schedules the robot's `stop`.
   */
  lemma RunHandlers(p: Packet, st: DispatchState)
    requires st.error.None?
    ensures Dispatch(RunEvents()[STALL_EVENT], STALL_EVENT, p, st) == st
    ensures Dispatch(RunEvents()[CLIFF_EVENT], CLIFF_EVENT, p, st) ==
      if p.payload[4] == 0 then
        DispatchState(if CLIFF_EVENT in st.tasks then st.tasks[CLIFF_EVENT := st.tasks[CLIFF_EVENT].(cancelled := true)] else st.tasks,
                      true, Some(TypeError))
      else st
    ensures Dispatch(RunEvents()[STOP_EVENT], STOP_EVENT, p, st) ==
      st.(tasks := st.tasks[STOP_EVENT := Task(0, PacketArg(p), false)])
  {
    var m := RunEvents();
    assert DispatchPrefix(m[STALL_EVENT], Outcomes(m[STALL_EVENT], p), 0, STALL_EVENT, st) == st;
    assert DispatchPrefix(m[CLIFF_EVENT], Outcomes(m[CLIFF_EVENT], p), 0, CLIFF_EVENT, st) == st;
    assert DispatchPrefix(m[STOP_EVENT], Outcomes(m[STOP_EVENT], p), 0, STOP_EVENT, st) == st;
  }
}
