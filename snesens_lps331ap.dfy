/** The LPS331AP pressure and temperature sensor, `snesens` driver
    (snesens/sensors/lps331ap.py).

    The driver object keeps three cached measurements. Construction checks
    the identity register, configures the device and starts a one-shot
    conversion; `one_shot` clears the caches, triggers a conversion and
    polls control register 2 until it reads 0x00; each `get_*` reads the
    device only while its cache is empty.

    Every bus operation is specified by a trace function of the script the
    device answers from (see module I2c); the lemmas at the end describe
    whole traces: what construction does on a wrong device and on the right
    one, and that a filled cache answers without bus traffic.
 */
module SnesensLps331ap {
  import opened I2c

  const WhoAmI: bv8 := 0x0F
  const ResAddr: bv8 := 0x10
  const CtrlReg1: bv8 := 0x20
  const CtrlReg2: bv8 := 0x21
  /** The content of the identity register of an LPS331AP. */
  const DeviceId: bv8 := 0xBB
  /** The one-shot conversion time, 0.042 s, in milliseconds. */
  const OneShotConversionMs: nat := 42

  const PressureRegisters: seq<bv8> := [0x28, 0x29, 0x2A]
  const TemperatureRegisters: seq<bv8> := [0x2B, 0x2C]

  /** `_configure`: power down, highest precision, power up in one-shot mode. */
  const ConfigureEvents: seq<Event> :=
    [Wrote([CtrlReg1, 0x00]), Wrote([ResAddr, 0x7A]), Wrote([CtrlReg1, 0x84])]

  /** The one-shot trigger written to control register 2. */
  const TriggerEvent: Event := Wrote([CtrlReg2, 0x01])

  /** An altitude, as computed from a pressure reading. The barometric
      formula itself is floating-point and is not part of this model. */
  datatype Altitude = AltitudeAt(pressure: int)

  // ---------------------------------------------------------------------
  // Traces of the bus operations

  /** `_check_who_am_i`: select the identity register and read one byte;
      anything other than 0xBB is an unexpected device. */
  function WhoAmITrace(s: seq<bv8>): (t: Trace<()>)
    ensures t.result.Ok? <==> |s| > 0 && s[0] == DeviceId
    ensures |s| > 0 ==> t.events == [Wrote([WhoAmI]), Got([s[0]])] && t.rest == s[1..]
    ensures |s| > 0 && s[0] != DeviceId ==> t.result == Err(UnexpectedDevice)
  {
    if s == [] then Trace([Wrote([WhoAmI])], [], Err(Exhausted))
    else Trace([Wrote([WhoAmI]), Got([s[0]])], s[1..],
               if s[0] == DeviceId then Ok(()) else Err(UnexpectedDevice))
  }

  /** The status poll of `one_shot`: until control register 2 reads 0x00,
      sleeping the conversion time after every other byte. */
  function StatusPoll(s: seq<bv8>): Trace<bv8>
  {
    Poll(CtrlReg2, IsZero, OneShotConversionMs, s)
  }

  /** `one_shot` on the bus: the trigger, then the status poll. */
  function OneShotTrace(s: seq<bv8>): (t: Trace<()>)
    ensures t.result.Ok? <==> StatusPoll(s).result.Ok?
    ensures t.events == [TriggerEvent] + StatusPoll(s).events && t.rest == StatusPoll(s).rest
  {
    var p := StatusPoll(s);
    Trace([TriggerEvent] + p.events, p.rest, if p.result.Ok? then Ok(()) else Err(p.result.error))
  }

  /** `__init__` on the bus: identity check, configuration, one shot; the
      first failure ends it. */
  function OpenTrace(s: seq<bv8>): Trace<()>
  {
    var w := WhoAmITrace(s);
    if w.result.Err? then w
    else
      var o := OneShotTrace(w.rest);
      Trace(w.events + ConfigureEvents + o.events, o.rest, o.result)
  }

  // ---------------------------------------------------------------------
  // Decoding

  /** `(msb << 16) | (lsb << 8) | xlsb`: the unsigned 24-bit pressure word. */
  function RawPressure(xlsb: bv8, lsb: bv8, msb: bv8): (p: int)
    ensures p == msb as int * 65536 + lsb as int * 256 + xlsb as int
    ensures 0 <= p < 0x100_0000
  {
    Word24Value(msb, lsb, xlsb);
    ((msb as bv32 << 16) | (lsb as bv32 << 8) | xlsb as bv32) as int
  }

  /** `pressure /= 4096` on the raw word (integer division in Python 2):
      the largest number of whole 4096ths in it. */
  function PressureOf(xlsb: bv8, lsb: bv8, msb: bv8): (p: int)
    ensures 0 <= p <= 4095
    ensures p * 4096 <= RawPressure(xlsb, lsb, msb) < p * 4096 + 4096
  {
    RawPressure(xlsb, lsb, msb) / 4096
  }

  /** `((msb << 8) | lsb) - (1 << 16)`, as written: the subtraction is
      unconditional, so every pair of bytes gives a negative number. */
  function RawTemperatureAsWritten(lsb: bv8, msb: bv8): (t: int)
    ensures t == msb as int * 256 + lsb as int - 65536
    ensures -65536 <= t <= -1
  {
    Word16Value(msb, lsb);
    ((msb as bv16 << 8) | lsb as bv16) as int - 0x1_0000
  }

  /** The 16-bit two's-complement value of the two bytes, which is what the
      "Signed int16" comment of `_read_temperature` and the device's output
      format call for: the only number in the int16 range that is congruent
      to the unsigned word modulo 2^16. */
  function SignedRawTemperature(lsb: bv8, msb: bv8): (t: int)
    ensures -32768 <= t <= 32767
    ensures (msb as int * 256 + lsb as int - t) % 65536 == 0
  {
    Word16Value(msb, lsb);
    var u := ((msb as bv16 << 8) | lsb as bv16) as int;
    if msb < 0x80 then u else u - 0x1_0000
  }


  /** A raw word of zero is 42.5 degrees; as written it decodes below -94. */
  lemma TemperatureAsWrittenMisreadsZero()
    ensures SignedRawTemperature(0x00, 0x00) == 0
    ensures RawTemperatureAsWritten(0x00, 0x00) == -65536
    ensures TemperatureAsWrittenOf(0x00, 0x00) < -94.0
    ensures TemperatureOf(0x00, 0x00) == 42.5
  {
    Word16Value(0x00, 0x00);
  }

  /** `42.5 + temperature / (120.0 * 4)`, in exact arithmetic, on the raw
      temperature as written: what `_read_temperature` returns. Every
      reading lies below 42.5 degrees. */
  function TemperatureAsWrittenOf(lsb: bv8, msb: bv8): (c: real)
    ensures -94.04 <= c < 42.5
    ensures (c - 42.5) * 480.0 == RawTemperatureAsWritten(lsb, msb) as real
  {
    42.5 + RawTemperatureAsWritten(lsb, msb) as real / 480.0
  }

  /** The same formula on the two's-complement reading: the temperature
      the "Signed int16" comment intends. */
  function TemperatureOf(lsb: bv8, msb: bv8): (c: real)
    ensures -25.77 <= c <= 110.77
    ensures (c - 42.5) * 480.0 == SignedRawTemperature(lsb, msb) as real
  {
    42.5 + SignedRawTemperature(lsb, msb) as real / 480.0
  }

  /** For a negative reading (bit 15 set) the source's subtraction is the
      two's complement, and the two temperatures agree; for a non-negative
      one the raw value is off by 2^16 and the temperature by 65536/480
      degrees. */
  lemma SignedAgreesOnlyWhenNegative(lsb: bv8, msb: bv8)
    ensures msb >= 0x80 <==> RawTemperatureAsWritten(lsb, msb) == SignedRawTemperature(lsb, msb)
    ensures msb < 0x80 ==> RawTemperatureAsWritten(lsb, msb) == SignedRawTemperature(lsb, msb) - 65536
    ensures msb >= 0x80 <==> TemperatureAsWrittenOf(lsb, msb) == TemperatureOf(lsb, msb)
    ensures msb < 0x80 ==> TemperatureAsWrittenOf(lsb, msb) == TemperatureOf(lsb, msb) - 65536.0 / 480.0
  {
    Word16Value(msb, lsb);
  }

  /** `_read_pressure` on the bus: three register reads, 0x28 (XL), 0x29 (L),
      0x2A (H), decoded. */
  function PressureTrace(s: seq<bv8>): (t: Trace<int>)
    ensures t.result.Ok? <==> 3 <= |s|
    ensures 3 <= |s| ==> t == Trace(Selected(PressureRegisters, s[..3]), s[3..], Ok(PressureOf(s[0], s[1], s[2])))
    ensures |s| < 3 ==> t.result == Err(Exhausted)
  {
    var r := Registers(PressureRegisters, s);
    RegistersSpec(PressureRegisters, s);
    if r.result.Ok? then Trace(r.events, r.rest, Ok(PressureOf(r.result.value[0], r.result.value[1], r.result.value[2])))
    else Trace(r.events, r.rest, Err(r.result.error))
  }

  /** `_read_temperature` on the bus: register 0x2B (L), then 0x2C (H),
      decoded as the source does, with the unconditional subtraction. */
  function TemperatureTrace(s: seq<bv8>): (t: Trace<real>)
    ensures t.result.Ok? <==> 2 <= |s|
    ensures 2 <= |s| ==> t == Trace(Selected(TemperatureRegisters, s[..2]), s[2..], Ok(TemperatureAsWrittenOf(s[0], s[1])))
    ensures |s| < 2 ==> t.result == Err(Exhausted)
  {
    var r := Registers(TemperatureRegisters, s);
    RegistersSpec(TemperatureRegisters, s);
    if r.result.Ok? then Trace(r.events, r.rest, Ok(TemperatureAsWrittenOf(r.result.value[0], r.result.value[1])))
    else Trace(r.events, r.rest, Err(r.result.error))
  }

  // ---------------------------------------------------------------------
  // The caches

  /** What a cache holds after an operation that fills it from `t`. */
  function Remembered<T>(t: Trace<T>): (c: Option<T>)
    ensures c.Some? <==> t.result.Ok?
    ensures c.Some? ==> c.value == t.result.value
  {
    if t.result.Ok? then Some(t.result.value) else None
  }

  /** `get_pressure`: the cached value, or a read. */
  function CachedPressure(cache: Option<int>, s: seq<bv8>): Trace<int>
  {
    if cache.Some? then Trace([], s, Ok(cache.value)) else PressureTrace(s)
  }

  /** `get_temperature`: the cached value, or a read. */
  function CachedTemperature(cache: Option<real>, s: seq<bv8>): Trace<real>
  {
    if cache.Some? then Trace([], s, Ok(cache.value)) else TemperatureTrace(s)
  }

  /** `_read_altitude`: the altitude of what `get_pressure` returns. */
  function AltitudeTrace(pressure: Option<int>, s: seq<bv8>): Trace<Altitude>
  {
    var p := CachedPressure(pressure, s);
    Trace(p.events, p.rest, if p.result.Ok? then Ok(AltitudeAt(p.result.value)) else Err(p.result.error))
  }

  /** `get_altitude`: the cached value, or `_read_altitude`. */
  function CachedAltitude(altitude: Option<Altitude>, pressure: Option<int>, s: seq<bv8>): Trace<Altitude>
  {
    if altitude.Some? then Trace([], s, Ok(altitude.value)) else AltitudeTrace(pressure, s)
  }

  // ---------------------------------------------------------------------
  // The driver

  class Lps331ap {
    const bus: Bus
    var pressure: Option<int>
    var temperature: Option<real>
    var altitude: Option<Altitude>

    /** All three caches empty, as after `one_shot`. */
    predicate Cleared()
      reads this
    {
      pressure.None? && temperature.None? && altitude.None?
    }

    /** The object before `__init__` runs: the class attributes make every
        cache empty. */
    constructor (bus: Bus)
      ensures this.bus == bus && Cleared()
    {
      this.bus := bus;
      pressure := None;
      temperature := None;
      altitude := None;
    }

    /** `LPS331AP(bus)`: check the identity, configure, start a one-shot
        conversion; the first failure is the result. */
    static method Open(bus: Bus) returns (r: Result<Lps331ap>)
      modifies bus
      ensures var t := OpenTrace(old(bus.script));
              bus.log == old(bus.log) + t.events && bus.script == t.rest &&
              (r.Ok? <==> t.result.Ok?) && (r.Err? ==> r.error == t.result.error)
      ensures r.Ok? ==> fresh(r.value) && r.value.bus == bus && r.value.Cleared()
    {
      var d := new Lps331ap(bus);
      var id := d.CheckWhoAmI();
      if id.Err? {
        return Err(id.error);
      }
      d.Configure();
      var shot := d.OneShot();
      if shot.Err? {
        return Err(shot.error);
      }
      r := Ok(d);
    }

    /** `_check_who_am_i`. */
    method CheckWhoAmI() returns (r: Result<()>)
      modifies bus
      ensures var t := WhoAmITrace(old(bus.script));
              bus.log == old(bus.log) + t.events && bus.script == t.rest && r == t.result
    {
      var whoAmI := bus.ReadRegister(WhoAmI);
      if whoAmI.None? {
        return Err(Exhausted);
      }
      if whoAmI.value != DeviceId {
        return Err(UnexpectedDevice);
      }
      r := Ok(());
    }

    /** `_configure`: three register writes, in order. */
    method Configure()
      modifies bus
      ensures bus.log == old(bus.log) + ConfigureEvents
      ensures bus.script == old(bus.script)
    {
      bus.Write([CtrlReg1, 0x00]);
      bus.Write([ResAddr, 0x7A]);
      bus.Write([CtrlReg1, 0x84]);
    }

    /** `one_shot`: clear the caches, trigger a conversion, and poll the
        status until it reads 0x00. */
    method OneShot() returns (r: Result<()>)
      modifies this, bus
      ensures Cleared()
      ensures var t := OneShotTrace(old(bus.script));
              bus.log == old(bus.log) + t.events && bus.script == t.rest && r == t.result
    {
      altitude := None;
      pressure := None;
      temperature := None;
      bus.Write([CtrlReg2, 0x01]);
      ghost var start := bus.script;
      while true
        invariant bus.log + StatusPoll(bus.script).events == old(bus.log) + OneShotTrace(start).events
        invariant StatusPoll(bus.script).rest == StatusPoll(start).rest
        invariant StatusPoll(bus.script).result == StatusPoll(start).result
        decreases |bus.script|
        modifies bus
      {
        ghost var s := bus.script;
        ghost var log := bus.log;
        var busy := WaitStatusBit();
        if busy.Err? {
          return Err(busy.error);
        }
        if !busy.value {
          return Ok(());
        }
        bus.Sleep(OneShotConversionMs);
        PollBusy(log, CtrlReg2, IsZero, OneShotConversionMs, s);
      }
    }

    /** `_wait_status_bit`: select control register 2, read it; true while
        it is not 0x00. */
    method WaitStatusBit() returns (r: Result<bool>)
      modifies bus
      ensures var s := old(bus.script);
              if s == [] then
                r == Err(Exhausted) && bus.script == s && bus.log == old(bus.log) + [Wrote([CtrlReg2])]
              else
                r == Ok(s[0] != 0x00) && bus.script == s[1..] &&
                bus.log == old(bus.log) + [Wrote([CtrlReg2]), Got([s[0]])]
    {
      var status := bus.ReadRegister(CtrlReg2);
      if status.None? {
        return Err(Exhausted);
      }
      r := Ok(status.value != 0x00);
    }

    /** `_read_temperature`. */
    method ReadTemperature() returns (r: Result<real>)
      modifies bus
      ensures var t := TemperatureTrace(old(bus.script));
              bus.log == old(bus.log) + t.events && bus.script == t.rest && r == t.result
    {
      ghost var s := bus.script;
      var lsb := bus.ReadRegister(0x2B);
      if lsb.None? {
        return Err(Exhausted);
      }
      var msb := bus.ReadRegister(0x2C);
      if msb.None? {
        return Err(Exhausted);
      }
      r := Ok(TemperatureAsWrittenOf(lsb.value, msb.value));
    }

    /** `_read_pressure`. */
    method ReadPressure() returns (r: Result<int>)
      modifies bus
      ensures var t := PressureTrace(old(bus.script));
              bus.log == old(bus.log) + t.events && bus.script == t.rest && r == t.result
    {
      ghost var s := bus.script;
      var xlsb := bus.ReadRegister(0x28);
      if xlsb.None? {
        return Err(Exhausted);
      }
      var lsb := bus.ReadRegister(0x29);
      if lsb.None? {
        return Err(Exhausted);
      }
      var msb := bus.ReadRegister(0x2A);
      if msb.None? {
        return Err(Exhausted);
      }
      r := Ok(PressureOf(xlsb.value, lsb.value, msb.value));
    }

    /** `_read_altitude`: the altitude of `get_pressure`, which fills the
        pressure cache on the way. */
    method ReadAltitude() returns (r: Result<Altitude>)
      modifies this, bus
      ensures var t := AltitudeTrace(old(pressure), old(bus.script));
              bus.log == old(bus.log) + t.events && bus.script == t.rest && r == t.result
      ensures pressure == Remembered(CachedPressure(old(pressure), old(bus.script)))
      ensures temperature == old(temperature) && altitude == old(altitude)
    {
      var p := GetPressure();
      if p.Err? {
        return Err(p.error);
      }
      r := Ok(AltitudeAt(p.value));
    }

    /** `get_pressure`. */
    method GetPressure() returns (r: Result<int>)
      modifies this, bus
      ensures var t := CachedPressure(old(pressure), old(bus.script));
              bus.log == old(bus.log) + t.events && bus.script == t.rest && r == t.result &&
              pressure == Remembered(t)
      ensures temperature == old(temperature) && altitude == old(altitude)
    {
      if pressure.None? {
        var p := ReadPressure();
        if p.Err? {
          return Err(p.error);
        }
        pressure := Some(p.value);
      }
      r := Ok(pressure.value);
    }

    /** `get_temperature`. */
    method GetTemperature() returns (r: Result<real>)
      modifies this, bus
      ensures var t := CachedTemperature(old(temperature), old(bus.script));
              bus.log == old(bus.log) + t.events && bus.script == t.rest && r == t.result &&
              temperature == Remembered(t)
      ensures pressure == old(pressure) && altitude == old(altitude)
    {
      if temperature.None? {
        var t := ReadTemperature();
        if t.Err? {
          return Err(t.error);
        }
        temperature := Some(t.value);
      }
      r := Ok(temperature.value);
    }

    /** `get_altitude`. */
    method GetAltitude() returns (r: Result<Altitude>)
      modifies this, bus
      ensures var t := CachedAltitude(old(altitude), old(pressure), old(bus.script));
              bus.log == old(bus.log) + t.events && bus.script == t.rest && r == t.result &&
              altitude == Remembered(t)
      ensures pressure == (if old(altitude).Some? then old(pressure)
                           else Remembered(CachedPressure(old(pressure), old(bus.script))))
      ensures temperature == old(temperature)
    {
      if altitude.None? {
        var a := ReadAltitude();
        if a.Err? {
          return Err(a.error);
        }
        altitude := Some(a.value);
      }
      r := Ok(altitude.value);
    }
  }

  // ---------------------------------------------------------------------
  // Properties of whole traces

  /** On a device whose identity register is not 0xBB, construction fails
      after the one identity read, and nothing else is written. */
  lemma OpenRejectsOtherDevices(s: seq<bv8>)
    requires |s| > 0 && s[0] != DeviceId
    ensures OpenTrace(s) == Trace([Wrote([WhoAmI]), Got([s[0]])], s[1..], Err(UnexpectedDevice))
    ensures forall e :: e in OpenTrace(s).events && e.Wrote? ==> e.bytes == [WhoAmI]
  {
  }

  /** On an LPS331AP whose status register reads 0x00 for the first time at
      the `i`-th poll: identity read, the three configuration writes, the
      trigger, then `i` busy polls each followed by a 42 ms sleep, and the
      final poll; exactly `i` sleeps in all. */
  lemma {:induction false} OpenOnDevice(s: seq<bv8>, i: nat)
    requires 1 + i < |s| && s[0] == DeviceId && s[1 + i] == 0x00
    requires forall j :: 1 <= j < 1 + i ==> s[j] != 0x00
    ensures OpenTrace(s) ==
            Trace([Wrote([WhoAmI]), Got([DeviceId])] + ConfigureEvents + [TriggerEvent] +
                  Attempts(CtrlReg2, OneShotConversionMs, s[1..1 + i]) + [Wrote([CtrlReg2]), Got([0x00])],
                  s[2 + i..], Ok(()))
    ensures Sleeps(OpenTrace(s).events) == i
  {
    var r := s[1..];
    assert forall j :: 0 <= j < i ==> r[j] == s[1 + j];
    PollStopsAtFirstReady(CtrlReg2, IsZero, OneShotConversionMs, r, i);
    assert r[..i] == s[1..1 + i] && r[i + 1..] == s[2 + i..] && r[i] == 0x00;
    var head := [Wrote([WhoAmI]), Got([DeviceId])] + ConfigureEvents + [TriggerEvent];
    assert OpenTrace(s).events == head + StatusPoll(r).events;
    SleepsAppend(head, StatusPoll(r).events);
    SleepsNone(head);
  }

  /** A conversion that never completes within the script: the poll reads
      every byte, sleeping after each, and construction fails. */
  lemma OpenNeverReady(s: seq<bv8>)
    requires |s| > 0 && s[0] == DeviceId
    requires forall j :: 1 <= j < |s| ==> s[j] != 0x00
    ensures OpenTrace(s).result == Err(Exhausted) && OpenTrace(s).rest == []
  {
    var r := s[1..];
    assert forall j :: 0 <= j < |r| ==> r[j] == s[1 + j];
    PollExhausts(CtrlReg2, IsZero, OneShotConversionMs, r);
  }

  /** After a `get_pressure` that succeeded, the next one returns the same
      value and touches the bus not at all; likewise for temperature. */
  lemma CachesAnswerWithoutTraffic(p: Option<int>, c: Option<real>, s: seq<bv8>)
    ensures var t := CachedPressure(p, s);
            t.result.Ok? ==> CachedPressure(Remembered(t), t.rest) == Trace([], t.rest, t.result)
    ensures var t := CachedTemperature(c, s);
            t.result.Ok? ==> CachedTemperature(Remembered(t), t.rest) == Trace([], t.rest, t.result)
  {
  }

  /** A first `get_altitude` reads exactly what a first `get_pressure` reads,
      leaves the same pressure cached, and is then answered from its cache. */
  lemma AltitudeReadsThroughPressure(s: seq<bv8>)
    ensures CachedAltitude(None, None, s).events == PressureTrace(s).events
    ensures CachedAltitude(None, None, s).result.Ok? <==> PressureTrace(s).result.Ok?
    ensures PressureTrace(s).result.Ok? ==>
            CachedAltitude(None, None, s).result == Ok(AltitudeAt(PressureTrace(s).result.value))
    ensures var t := CachedAltitude(None, None, s);
            t.result.Ok? ==> CachedAltitude(Remembered(t), Remembered(PressureTrace(s)), t.rest) == Trace([], t.rest, t.result)
  {
  }
}
