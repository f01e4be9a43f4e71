/** The environmental control monitor: it takes readings from the batches the
    manager forwards, compares them with the configured ranges, and answers
    every batch with one command to each of the four actuators and a lamp for
    each quantity. Readings and bounds are single-precision floats in the
    source; here they are reals. */
module ECSMonitor {
  import opened Wrappers
  import opened Messages

  /** Message kinds the monitor reads and writes. */
  const TemperatureKind: int := 1
  const HumidityKind: int := 2
  const StopKind: int := 99
  const TemperatureControlKind: int := 5
  const HumidityControlKind: int := 4

  /** The monitor's last readings and its configured ranges. */
  datatype Monitor = Monitor(temperature: real, humidity: real,
                             tempLow: real, tempHigh: real,
                             humiLow: real, humiHigh: real)

  /** Readings start at zero and both ranges at 0 to 100. */
  function Initial(): (m: Monitor)
    ensures m.temperature == 0.0 && m.humidity == 0.0
    ensures m.tempLow == 0.0 && m.tempHigh == 100.0
    ensures m.humiLow == 0.0 && m.humiHigh == 100.0
  {
    Monitor(0.0, 0.0, 0.0, 100.0, 0.0, 100.0)
  }

  // ---------------------------------------------------------------------------
  // Commands

  /** An outbound message: its kind and its text payload. */
  datatype Command = Command(kind: int, payload: string)

  datatype Device = Heater | Chiller | Humidifier | Dehumidifier

  /** The command that switches `d` on or off. The temperature controller
      listens on kind 5, the humidity controller on kind 4; heater and
      humidifier share the payloads "H1"/"H0" and are told apart by kind. */
  function Encode(d: Device, on: bool): (r: Command)
    ensures r.kind == (if d == Heater || d == Chiller then TemperatureControlKind else HumidityControlKind)
    ensures |r.payload| == 2 && r.payload[1] == (if on then '1' else '0')
  {
    match d
    case Heater => Command(TemperatureControlKind, if on then "H1" else "H0")
    case Chiller => Command(TemperatureControlKind, if on then "C1" else "C0")
    case Humidifier => Command(HumidityControlKind, if on then "H1" else "H0")
    case Dehumidifier => Command(HumidityControlKind, if on then "D1" else "D0")
  }

  /** Reads a command back as the device and setting it carries, following
      the comments of the four actuator methods (ECSMonitor.java:340-352,
      382-394, 424-436, 466-478): kind 5 goes to the temperature controller,
      kind 4 to the humidity controller. */
  function Decode(c: Command): Option<(Device, bool)> {
    if c.kind == TemperatureControlKind then
      if c.payload == "H1" then Some((Heater, true))
      else if c.payload == "H0" then Some((Heater, false))
      else if c.payload == "C1" then Some((Chiller, true))
      else if c.payload == "C0" then Some((Chiller, false))
      else None
    else if c.kind == HumidityControlKind then
      if c.payload == "H1" then Some((Humidifier, true))
      else if c.payload == "H0" then Some((Humidifier, false))
      else if c.payload == "D1" then Some((Dehumidifier, true))
      else if c.payload == "D0" then Some((Dehumidifier, false))
      else None
    else None
  }

  /** Every command decodes to the device and setting it was built from. */
  lemma DecodeEncode(d: Device, on: bool)
    ensures Decode(Encode(d, on)) == Some((d, on))
  {
  }

  /** Distinct device settings give distinct commands. */
  lemma EncodeInjective(d: Device, on: bool, d': Device, on': bool)
    ensures Encode(d, on) == Encode(d', on') ==> d == d' && on == on'
  {
    DecodeEncode(d, on);
    DecodeEncode(d', on');
  }

  /** The stop message the operator's halt sends. */
  function Halt(): (c: Command)
    ensures c.kind == StopKind && Decode(c) == None
  {
    Command(StopKind, "XXX")
  }

  /** No actuator command is the stop message. */
  lemma HaltIsStop()
    ensures forall d, on :: Encode(d, on) != Halt()
  {
  }

  // ---------------------------------------------------------------------------
  // The control decision

  datatype Level = Low | High | InRange

  /** Where reading `v` falls against the range `low`..`high`. Being below
      `low` is checked first, so with an inverted range a reading below `low`
      counts as low even when it is also above `high`. */
  function Classify(v: real, low: real, high: real): (l: Level)
    ensures l == Low <==> v < low
    ensures l == High <==> low <= v && high < v
    ensures l == InRange <==> low <= v <= high
  {
    if v < low then Low else if v > high then High else InRange
  }

  datatype Quantity = Temperature | Humidity

  /** A status lamp: its text and its colour code (1 for in range, 3 for an
      alarm). */
  datatype Lamp = Lamp(text: string, colour: int)

  function LampFor(q: Quantity, l: Level): Lamp {
    match (q, l)
    case (Temperature, Low) => Lamp("TEMP LOW", 3)
    case (Temperature, High) => Lamp("TEMP HIGH", 3)
    case (Temperature, InRange) => Lamp("TEMP OK", 1)
    case (Humidity, Low) => Lamp("HUMI LOW", 3)
    case (Humidity, High) => Lamp("HUMI HIGH", 3)
    case (Humidity, InRange) => Lamp("HUMI OK", 1)
  }

  /** The two lamps and the four commands one decision produces. */
  datatype Reaction = Reaction(tempLamp: Lamp, humiLamp: Lamp, commands: seq<Command>)

  /** Compares both readings with their ranges: a low reading switches the
      raising actuator on and the lowering one off, a high reading the
      reverse, an in-range reading both off. The commands go out in the order
      heater, chiller, humidifier, dehumidifier. */
  function MetricsChange(m: Monitor): (r: Reaction)
    ensures |r.commands| == 4
    ensures forall k :: 0 <= k < 4 ==> Decode(r.commands[k]).Some?
    ensures !(Decode(r.commands[0]) == Some((Heater, true)) && Decode(r.commands[1]) == Some((Chiller, true)))
    ensures !(Decode(r.commands[2]) == Some((Humidifier, true)) && Decode(r.commands[3]) == Some((Dehumidifier, true)))
  {
    var t := Classify(m.temperature, m.tempLow, m.tempHigh);
    var h := Classify(m.humidity, m.humiLow, m.humiHigh);
    Reaction(LampFor(Temperature, t), LampFor(Humidity, h),
             [Encode(Heater, t == Low), Encode(Chiller, t == High),
              Encode(Humidifier, h == Low), Encode(Dehumidifier, h == High)])
  }

  /** The settings a decision sends, in the order sent. */
  ghost predicate Sends(r: Reaction, heat: bool, chill: bool, humidify: bool, dry: bool) {
    && |r.commands| == 4
    && Decode(r.commands[0]) == Some((Heater, heat))
    && Decode(r.commands[1]) == Some((Chiller, chill))
    && Decode(r.commands[2]) == Some((Humidifier, humidify))
    && Decode(r.commands[3]) == Some((Dehumidifier, dry))
  }

  /** A decision sends one command to each actuator, in order. The heater
      goes on exactly when the temperature is below its low bound, the
      chiller exactly when it is not below the low bound but above the high
      one, so never both; likewise for humidity. A lamp shows the alarm
      colour exactly when one of its actuators goes on. */
  lemma MetricsChangeSpec(m: Monitor)
    ensures var r := MetricsChange(m);
      var heat := m.temperature < m.tempLow;
      var chill := !heat && m.temperature > m.tempHigh;
      var humidify := m.humidity < m.humiLow;
      var dry := !humidify && m.humidity > m.humiHigh;
      && Sends(r, heat, chill, humidify, dry)
      && !(heat && chill) && !(humidify && dry)
      && (r.tempLamp.colour == 3 <==> heat || chill)
      && (r.humiLamp.colour == 3 <==> humidify || dry)
      && (r.tempLamp.colour == 1 <==> !heat && !chill)
      && (r.humiLamp.colour == 1 <==> !humidify && !dry)
  {
    var t := Classify(m.temperature, m.tempLow, m.tempHigh);
    var h := Classify(m.humidity, m.humiLow, m.humiHigh);
    DecodeEncode(Heater, t == Low);
    DecodeEncode(Chiller, t == High);
    DecodeEncode(Humidifier, h == Low);
    DecodeEncode(Dehumidifier, h == High);
  }

  /** The lamps' texts name the level of each reading. */
  lemma MetricsChangeLamps(m: Monitor)
    ensures var r := MetricsChange(m);
      && (r.tempLamp.text == "TEMP LOW" <==> m.temperature < m.tempLow)
      && (r.tempLamp.text == "TEMP OK" <==> m.tempLow <= m.temperature <= m.tempHigh)
      && (r.tempLamp.text == "TEMP HIGH" <==> m.tempLow <= m.temperature && m.temperature > m.tempHigh)
      && (r.humiLamp.text == "HUMI LOW" <==> m.humidity < m.humiLow)
      && (r.humiLamp.text == "HUMI OK" <==> m.humiLow <= m.humidity <= m.humiHigh)
      && (r.humiLamp.text == "HUMI HIGH" <==> m.humiLow <= m.humidity && m.humidity > m.humiHigh)
  {
  }

  // ---------------------------------------------------------------------------
  // Ranges

  /** Stores the temperature bounds as given, without checking their order. */
  function SetTemperatureRange(m: Monitor, low: real, high: real): (m': Monitor)
    ensures m'.tempLow == low && m'.tempHigh == high
    ensures m' == m.(tempLow := m'.tempLow, tempHigh := m'.tempHigh)
  {
    m.(tempHigh := high, tempLow := low)
  }

  /** Stores the humidity bounds as given, without checking their order. */
  function SetHumidityRange(m: Monitor, low: real, high: real): (m': Monitor)
    ensures m'.humiLow == low && m'.humiHigh == high
    ensures m' == m.(humiLow := m'.humiLow, humiHigh := m'.humiHigh)
  {
    m.(humiHigh := high, humiLow := low)
  }

  /** The later setting of a range replaces the earlier one, and the two
      setters do not interfere. */
  lemma RangeSettersCompose(m: Monitor, a: real, b: real, c: real, d: real)
    ensures SetTemperatureRange(SetTemperatureRange(m, a, b), c, d) == SetTemperatureRange(m, c, d)
    ensures SetHumidityRange(SetHumidityRange(m, a, b), c, d) == SetHumidityRange(m, c, d)
    ensures SetTemperatureRange(SetHumidityRange(m, a, b), c, d) == SetHumidityRange(SetTemperatureRange(m, c, d), a, b)
  {
  }

  /** With an inverted temperature range, a reading between the bounds is
      both below the low bound and above the high one; the decision heats and
      does not chill. */
  lemma InvertedRangeHeats(m: Monitor, low: real, high: real)
    requires high < m.temperature < low
    ensures var r := MetricsChange(SetTemperatureRange(m, low, high));
      Sends(r, true, false, m.humidity < m.humiLow, !(m.humidity < m.humiLow) && m.humidity > m.humiHigh)
      && r.tempLamp == Lamp("TEMP LOW", 3)
  {
    MetricsChangeSpec(SetTemperatureRange(m, low, high));
  }

  // ---------------------------------------------------------------------------
  // Incoming batches

  /** `msg` is a reading of kind `kind` whose payload parses. */
  predicate IsReading(msg: Message, kind: int, parse: string -> Option<real>) {
    msg.kind == kind && parse(msg.payload).Some?
  }

  /** The value of the last reading of kind `kind` in `msgs`, or `current`
      when there is none. */
  function LatestReading(msgs: seq<Message>, kind: int, parse: string -> Option<real>, current: real): (r: real)
    ensures r == current || exists j :: 0 <= j < |msgs| && IsReading(msgs[j], kind, parse) && r == parse(msgs[j].payload).value
    decreases |msgs|
  {
    if msgs == [] then current
    else
      var last := msgs[|msgs| - 1];
      if IsReading(last, kind, parse) then parse(last.payload).value
      else LatestReading(msgs[..|msgs| - 1], kind, parse, current)
  }

  /** Message `j` is a reading of kind `kind` and no later message is. */
  ghost predicate LastReadingAt(msgs: seq<Message>, kind: int, parse: string -> Option<real>, j: int) {
    && 0 <= j < |msgs| && IsReading(msgs[j], kind, parse)
    && forall i :: j < i < |msgs| ==> !IsReading(msgs[i], kind, parse)
  }

  /** Without a reading of kind `kind`, the value stays. */
  lemma {:induction false} LatestReadingNone(msgs: seq<Message>, kind: int, parse: string -> Option<real>, current: real)
    requires forall j :: 0 <= j < |msgs| ==> !IsReading(msgs[j], kind, parse)
    ensures LatestReading(msgs, kind, parse, current) == current
    decreases |msgs|
  {
    if msgs != [] {
      var n := |msgs| - 1;
      assert !IsReading(msgs[n], kind, parse);
      assert forall i :: 0 <= i < n ==> msgs[..n][i] == msgs[i];
      LatestReadingNone(msgs[..n], kind, parse, current);
    }
  }

  /** The value is that of the reading no later reading follows. */
  lemma {:induction false} LatestReadingLast(msgs: seq<Message>, kind: int, parse: string -> Option<real>, current: real, j: int)
    requires LastReadingAt(msgs, kind, parse, j)
    ensures LatestReading(msgs, kind, parse, current) == parse(msgs[j].payload).value
    decreases |msgs|
  {
    var n := |msgs| - 1;
    if j < n {
      var prefix := msgs[..n];
      assert !IsReading(msgs[n], kind, parse);
      assert forall i :: 0 <= i < n ==> prefix[i] == msgs[i];
      assert LastReadingAt(prefix, kind, parse, j);
      LatestReadingLast(prefix, kind, parse, current, j);
    }
  }

  /** Both cases together: without a reading the value stays; otherwise it is
      the value of the reading no later reading follows. */
  lemma LatestReadingSpec(msgs: seq<Message>, kind: int, parse: string -> Option<real>, current: real)
    ensures (forall j :: 0 <= j < |msgs| ==> !IsReading(msgs[j], kind, parse))
              ==> LatestReading(msgs, kind, parse, current) == current
    ensures forall j :: LastReadingAt(msgs, kind, parse, j)
              ==> LatestReading(msgs, kind, parse, current) == parse(msgs[j].payload).value
  {
    if forall j :: 0 <= j < |msgs| ==> !IsReading(msgs[j], kind, parse) {
      LatestReadingNone(msgs, kind, parse, current);
    }
    forall j | LastReadingAt(msgs, kind, parse, j)
      ensures LatestReading(msgs, kind, parse, current) == parse(msgs[j].payload).value
    {
      LatestReadingLast(msgs, kind, parse, current, j);
    }
  }

  /** The number of messages of kind `kind` in `msgs`. */
  function CountKind(msgs: seq<Message>, kind: int): (r: nat)
    ensures r <= |msgs|
    decreases |msgs|
  {
    if msgs == [] then 0
    else CountKind(msgs[..|msgs| - 1], kind) + (if msgs[|msgs| - 1].kind == kind then 1 else 0)
  }

  /** The count is zero exactly when no message has the kind, and never
      exceeds the number of messages. */
  lemma {:induction false} CountKindZero(msgs: seq<Message>, kind: int)
    ensures CountKind(msgs, kind) == 0 <==> forall j :: 0 <= j < |msgs| ==> msgs[j].kind != kind
    ensures CountKind(msgs, kind) <= |msgs|
    decreases |msgs|
  {
    if msgs != [] {
      var prefix := msgs[..|msgs| - 1];
      CountKindZero(prefix, kind);
      if forall j :: 0 <= j < |msgs| ==> msgs[j].kind != kind {
        forall j | 0 <= j < |prefix|
          ensures prefix[j].kind != kind
        {
          assert prefix[j] == msgs[j];
        }
      }
      if CountKind(msgs, kind) == 0 {
        forall j | 0 <= j < |msgs|
          ensures msgs[j].kind != kind
        {
          if j < |prefix| {
            assert prefix[j] == msgs[j];
          }
        }
      }
    }
  }

  /** Handles one forwarded batch: temperature and humidity readings update
      the current values, a payload that does not parse is skipped, every
      stop message unregisters the monitor once, and the batch ends with the
      decision on the updated values. `parse` stands for the float parser. */
  method HandleIncomingMessages(m: Monitor, msgs: seq<Message>, parse: string -> Option<real>)
    returns (after: Monitor, unregisters: nat, reaction: Reaction)
    ensures after.temperature == LatestReading(msgs, TemperatureKind, parse, m.temperature)
    ensures after.humidity == LatestReading(msgs, HumidityKind, parse, m.humidity)
    ensures after == m.(temperature := after.temperature, humidity := after.humidity)
    ensures unregisters == CountKind(msgs, StopKind)
    ensures reaction == MetricsChange(after)
  {
    after := m;
    unregisters := 0;
    var i := 0;
    while i < |msgs|
      invariant 0 <= i <= |msgs|
      invariant after.temperature == LatestReading(msgs[..i], TemperatureKind, parse, m.temperature)
      invariant after.humidity == LatestReading(msgs[..i], HumidityKind, parse, m.humidity)
      invariant after == m.(temperature := after.temperature, humidity := after.humidity)
      invariant unregisters == CountKind(msgs[..i], StopKind)
    {
      var msg := msgs[i];
      assert msgs[..i + 1][..i] == msgs[..i];
      if msg.kind == TemperatureKind {
        var v := parse(msg.payload);
        if v.Some? {
          after := after.(temperature := v.value);
        }
      }
      if msg.kind == HumidityKind {
        var v := parse(msg.payload);
        if v.Some? {
          after := after.(humidity := v.value);
        }
      }
      if msg.kind == StopKind {
        unregisters := unregisters + 1;
      }
      i := i + 1;
    }
    assert msgs[..|msgs|] == msgs;
    reaction := MetricsChange(after);
  }
}
