/** The LPS331AP pressure sensor, older driver (sensors/lps331ap.py).

    Construction writes BOOT | SWRESET to control register 2 and polls that
    register until the BOOT bit clears. A measurement writes the one-shot
    trigger, polls the status register until the data-ready bit of the
    quantity is set, then selects the first output register and reads the
    output bytes in one burst. Both decodes are integer divisions (Python 2).

    The source applies `&` and `|` to the one-character strings `read`
    returns; here each such character is the byte value it encodes.
 */
module SensorsLps331ap {
  import opened I2c
  import SnesensLps331ap

  const CtrlReg2: bv8 := 0x21
  const StatusReg: bv8 := 0x27
  const PressOutXl: bv8 := 0x28
  const PressOutL: bv8 := 0x29
  const PressOutH: bv8 := 0x2A
  const TempOutL: bv8 := 0x2B
  const TempOutH: bv8 := 0x2C

  /** Bits of control register 2. */
  const BootMask: bv8 := 0x80
  const SwresetMask: bv8 := 0x04
  const TriggerOneshot: bv8 := 0x01

  /** Bits of the status register. */
  const PressStatusMask: bv8 := 0x02
  const TempStatusMask: bv8 := 0x01

  /** The poll interval, 0.050 s, in milliseconds. */
  const TimeoutMs: nat := 50

  /** `_trigger_oneshot` on the bus. */
  const TriggerEvent: Event := Wrote([CtrlReg2, TriggerOneshot])

  // ---------------------------------------------------------------------
  // Decoding

  /** `b0 | b1 << 8 | b2 << 16` on three byte values. */
  function LittleEndian24(b0: bv8, b1: bv8, b2: bv8): (w: int)
    ensures w == b0 as int + b1 as int * 256 + b2 as int * 65536
  {
    Word24Value(b2, b1, b0);
    (b0 as bv32 | (b1 as bv32 << 8) | (b2 as bv32 << 16)) as int
  }

  /** `data[0] | data[1] << 8 | data[2] << 16`: the little-endian 24-bit
      word of the bytes read from XL, L and H. */
  function PressureWord(data: seq<bv8>): (w: int)
    requires |data| >= 3
    ensures w == data[0] as int + data[1] as int * 256 + data[2] as int * 65536
    ensures 0 <= w < 0x100_0000
  {
    LittleEndian24(data[0], data[1], data[2])
  }

  /** `_get_pressure_from_buffer`: the word floor-divided by 4096. */
  function PressureFromBuffer(data: seq<bv8>): (p: int)
    requires |data| >= 3
    ensures 0 <= p <= 4095
    ensures p * 4096 <= PressureWord(data) < p * 4096 + 4096
  {
    PressureWord(data) / 4096
  }

  /** `b0 | b1 << 8` on two byte values. */
  function LittleEndian16(b0: bv8, b1: bv8): (w: int)
    ensures w == b0 as int + b1 as int * 256
  {
    Word16Value(b1, b0);
    (b0 as bv16 | (b1 as bv16 << 8)) as int
  }

  /** `data[0] | data[1] << 8`: the little-endian 16-bit word, unsigned. */
  function TemperatureWord(data: seq<bv8>): (w: int)
    requires |data| >= 2
    ensures w == data[0] as int + data[1] as int * 256
    ensures 0 <= w < 0x1_0000
  {
    LittleEndian16(data[0], data[1])
  }

  /** `_get_temperature_from_buffer`: the unsigned word floor-divided by 480;
      no 42.5 offset is added and no sign is taken. */
  function TemperatureFromBuffer(data: seq<bv8>): (t: int)
    requires |data| >= 2
    ensures 0 <= t <= 136
    ensures t * 480 <= TemperatureWord(data) < t * 480 + 480
  {
    TemperatureWord(data) / 480
  }

  /** For the same three register bytes this driver and the `snesens`
      driver assemble the same raw pressure word. */
  lemma RawPressureAgrees(xl: bv8, l: bv8, h: bv8)
    ensures PressureWord([xl, l, h]) == SnesensLps331ap.RawPressure(xl, l, h)
    ensures PressureFromBuffer([xl, l, h]) == SnesensLps331ap.PressureOf(xl, l, h)
  {
  }

  // ---------------------------------------------------------------------
  // Traces of the bus operations

  /** The reset poll: control register 2 until its BOOT bit is clear. */
  function BootPoll(s: seq<bv8>): Trace<bv8>
  {
    Poll(CtrlReg2, MaskClear(BootMask), TimeoutMs, s)
  }

  /** The data-ready polls: the status register until bit 0x02 (pressure)
      or bit 0x01 (temperature) is set. */
  function PressurePoll(s: seq<bv8>): Trace<bv8>
  {
    Poll(StatusReg, MaskSet(PressStatusMask), TimeoutMs, s)
  }

  function TemperaturePoll(s: seq<bv8>): Trace<bv8>
  {
    Poll(StatusReg, MaskSet(TempStatusMask), TimeoutMs, s)
  }

  /** `__init__` on the bus: the reset command, then the reset poll. */
  function OpenTrace(s: seq<bv8>): (t: Trace<()>)
    ensures t.events == [Wrote([CtrlReg2, 0x84])] + BootPoll(s).events && t.rest == BootPoll(s).rest
    ensures t.result.Ok? <==> BootPoll(s).result.Ok?
  {
    var p := BootPoll(s);
    Trace([Wrote([CtrlReg2, BootMask | SwresetMask])] + p.events, p.rest,
          if p.result.Ok? then Ok(()) else Err(p.result.error))
  }

  /** A measurement on the bus: the trigger, a data-ready poll, then a burst
      read of `n` bytes from `first`. */
  function MeasureTrace(poll: Trace<bv8>, first: bv8, n: nat): (t: Trace<seq<bv8>>)
    ensures t.result.Ok? <==> poll.result.Ok? && n <= |poll.rest|
    ensures t.result.Ok? ==> |t.result.value| == n && poll.rest == t.result.value + t.rest
    ensures poll.result.Err? ==>
              t.events == [TriggerEvent] + poll.events && t.rest == poll.rest && t.result == Err(poll.result.error)
  {
    if poll.result.Err? then Trace([TriggerEvent] + poll.events, poll.rest, Err(poll.result.error))
    else
      var b := Burst(first, n, poll.rest);
      Trace([TriggerEvent] + poll.events + b.events, b.rest, b.result)
  }

  /** `read_pressure` on the bus. */
  function ReadPressureTrace(s: seq<bv8>): (t: Trace<int>)
    ensures |t.events| > 0 && t.events[0] == TriggerEvent
  {
    var m := MeasureTrace(PressurePoll(s), PressOutXl, 3);
    Trace(m.events, m.rest, if m.result.Ok? then Ok(PressureFromBuffer(m.result.value)) else Err(m.result.error))
  }

  /** `read_temperature` on the bus. */
  function ReadTemperatureTrace(s: seq<bv8>): (t: Trace<int>)
    ensures |t.events| > 0 && t.events[0] == TriggerEvent
  {
    var m := MeasureTrace(TemperaturePoll(s), TempOutL, 2);
    Trace(m.events, m.rest, if m.result.Ok? then Ok(TemperatureFromBuffer(m.result.value)) else Err(m.result.error))
  }

  // ---------------------------------------------------------------------
  // The driver

  class Lps331ap {
    const bus: Bus

    /** The object before `__init__` talks to the device. */
    constructor (bus: Bus)
      ensures this.bus == bus
    {
      this.bus := bus;
    }

    /** `LPS331AP(bus)`: reset, and wait for the boot to finish. */
    static method Open(bus: Bus) returns (r: Result<Lps331ap>)
      modifies bus
      ensures var t := OpenTrace(old(bus.script));
              bus.log == old(bus.log) + t.events && bus.script == t.rest &&
              (r.Ok? <==> t.result.Ok?) && (r.Err? ==> r.error == t.result.error)
      ensures r.Ok? ==> fresh(r.value) && r.value.bus == bus
    {
      var d := new Lps331ap(bus);
      bus.Write([CtrlReg2, BootMask | SwresetMask]);
      ghost var start := bus.script;
      while true
        invariant bus.log + BootPoll(bus.script).events == old(bus.log) + OpenTrace(start).events
        invariant BootPoll(bus.script).rest == BootPoll(start).rest
        invariant BootPoll(bus.script).result == BootPoll(start).result
        decreases |bus.script|
      {
        ghost var s := bus.script;
        ghost var log := bus.log;
        var booting := d.WaitStatusBits();
        if booting.Err? {
          return Err(booting.error);
        }
        if !booting.value {
          return Ok(d);
        }
        bus.Sleep(TimeoutMs);
        PollBusy(log, CtrlReg2, MaskClear(BootMask), TimeoutMs, s);
      }
    }

    /** `_wait_status_bits`: true while the BOOT bit of control register 2
        is set. */
    method WaitStatusBits() returns (r: Result<bool>)
      modifies bus
      ensures var s := old(bus.script);
              if s == [] then
                r == Err(Exhausted) && bus.script == s && bus.log == old(bus.log) + [Wrote([CtrlReg2])]
              else
                r == Ok(!Ready(MaskClear(BootMask), s[0])) && bus.script == s[1..] &&
                bus.log == old(bus.log) + [Wrote([CtrlReg2]), Got([s[0]])]
    {
      var ctrlReg2 := bus.ReadRegister(CtrlReg2);
      if ctrlReg2.None? {
        return Err(Exhausted);
      }
      r := Ok(ctrlReg2.value & BootMask != 0);
    }

    /** `_wait_pressure`: true while the pressure-ready bit is clear. */
    method WaitPressure() returns (r: Result<bool>)
      modifies bus
      ensures var s := old(bus.script);
              if s == [] then
                r == Err(Exhausted) && bus.script == s && bus.log == old(bus.log) + [Wrote([StatusReg])]
              else
                r == Ok(!Ready(MaskSet(PressStatusMask), s[0])) && bus.script == s[1..] &&
                bus.log == old(bus.log) + [Wrote([StatusReg]), Got([s[0]])]
    {
      var statusReg := bus.ReadRegister(StatusReg);
      if statusReg.None? {
        return Err(Exhausted);
      }
      r := Ok(!(statusReg.value & PressStatusMask != 0));
    }

    /** `_wait_temperature`: true while the temperature-ready bit is clear. */
    method WaitTemperature() returns (r: Result<bool>)
      modifies bus
      ensures var s := old(bus.script);
              if s == [] then
                r == Err(Exhausted) && bus.script == s && bus.log == old(bus.log) + [Wrote([StatusReg])]
              else
                r == Ok(!Ready(MaskSet(TempStatusMask), s[0])) && bus.script == s[1..] &&
                bus.log == old(bus.log) + [Wrote([StatusReg]), Got([s[0]])]
    {
      var statusReg := bus.ReadRegister(StatusReg);
      if statusReg.None? {
        return Err(Exhausted);
      }
      r := Ok(!(statusReg.value & TempStatusMask != 0));
    }

    /** `_trigger_oneshot`. */
    method TriggerOneshotConversion()
      modifies bus
      ensures bus.log == old(bus.log) + [TriggerEvent]
      ensures bus.script == old(bus.script)
    {
      bus.Write([CtrlReg2, TriggerOneshot]);
    }

    /** `read_pressure`: trigger, wait for pressure data, read XL, L, H in
        one burst from 0x28, decode. */
    method ReadPressure() returns (r: Result<int>)
      modifies bus
      ensures var t := ReadPressureTrace(old(bus.script));
              bus.log == old(bus.log) + t.events && bus.script == t.rest && r == t.result
    {
      TriggerOneshotConversion();
      ghost var start := bus.script;
      ghost var triggered := bus.log;
      while true
        invariant bus.log + PressurePoll(bus.script).events == triggered + PressurePoll(start).events
        invariant PressurePoll(bus.script).rest == PressurePoll(start).rest
        invariant PressurePoll(bus.script).result == PressurePoll(start).result
        decreases |bus.script|
      {
        ghost var s := bus.script;
        ghost var log := bus.log;
        var waiting := WaitPressure();
        if waiting.Err? {
          return Err(waiting.error);
        }
        if !waiting.value {
          break;
        }
        bus.Sleep(TimeoutMs);
        PollBusy(log, StatusReg, MaskSet(PressStatusMask), TimeoutMs, s);
      }
      ghost var polled := bus.log;
      assert polled == old(bus.log) + ([TriggerEvent] + PressurePoll(start).events);
      bus.Write([PressOutXl]);
      var data := bus.Read(3);
      if data.None? {
        return Err(Exhausted);
      }
      assert bus.log == polled + Burst(PressOutXl, 3, PressurePoll(start).rest).events;
      r := Ok(PressureFromBuffer(data.value));
    }

    /** `read_temperature`: trigger, wait for temperature data, read L and H
        in one burst from 0x2B, decode. */
    method ReadTemperature() returns (r: Result<int>)
      modifies bus
      ensures var t := ReadTemperatureTrace(old(bus.script));
              bus.log == old(bus.log) + t.events && bus.script == t.rest && r == t.result
    {
      TriggerOneshotConversion();
      ghost var start := bus.script;
      ghost var triggered := bus.log;
      while true
        invariant bus.log + TemperaturePoll(bus.script).events == triggered + TemperaturePoll(start).events
        invariant TemperaturePoll(bus.script).rest == TemperaturePoll(start).rest
        invariant TemperaturePoll(bus.script).result == TemperaturePoll(start).result
        decreases |bus.script|
      {
        ghost var s := bus.script;
        ghost var log := bus.log;
        var waiting := WaitTemperature();
        if waiting.Err? {
          return Err(waiting.error);
        }
        if !waiting.value {
          break;
        }
        bus.Sleep(TimeoutMs);
        PollBusy(log, StatusReg, MaskSet(TempStatusMask), TimeoutMs, s);
      }
      ghost var polled := bus.log;
      assert polled == old(bus.log) + ([TriggerEvent] + TemperaturePoll(start).events);
      bus.Write([TempOutL]);
      var data := bus.Read(2);
      if data.None? {
        return Err(Exhausted);
      }
      assert bus.log == polled + Burst(TempOutL, 2, TemperaturePoll(start).rest).events;
      r := Ok(TemperatureFromBuffer(data.value));
    }
  }

  // ---------------------------------------------------------------------
  // Properties of whole traces

  /** Construction on a device whose BOOT bit first reads clear at the
      `i`-th poll: the reset command, `i` busy polls each followed by a
      50 ms sleep, and the final poll; exactly `i` sleeps. */
  lemma OpenWaitsForBoot(s: seq<bv8>, i: nat)
    requires i < |s| && s[i] & BootMask == 0
    requires forall j :: 0 <= j < i ==> s[j] & BootMask != 0
    ensures OpenTrace(s) ==
            Trace([Wrote([CtrlReg2, 0x84])] + Attempts(CtrlReg2, TimeoutMs, s[..i]) + [Wrote([CtrlReg2]), Got([s[i]])],
                  s[i + 1..], Ok(()))
    ensures Sleeps(OpenTrace(s).events) == i
  {
    PollStopsAtFirstReady(CtrlReg2, MaskClear(BootMask), TimeoutMs, s, i);
    var reset := [Wrote([CtrlReg2, 0x84])];
    SleepsAppend(reset, BootPoll(s).events);
    SleepsNone(reset);
  }

  /** `read_pressure` on a device whose pressure-ready bit is first set in
      status byte `s[i]`: the trigger comes first, then `i` busy polls, the
      final poll, and only then the burst read of three bytes from 0x28;
      the result decodes the three bytes after the ready status. */
  lemma ReadPressureWaitsForData(s: seq<bv8>, i: nat)
    requires i + 3 < |s| && s[i] & PressStatusMask != 0
    requires forall j :: 0 <= j < i ==> s[j] & PressStatusMask == 0
    ensures ReadPressureTrace(s) ==
            Trace([TriggerEvent] + Attempts(StatusReg, TimeoutMs, s[..i]) + [Wrote([StatusReg]), Got([s[i]])] +
                  [Wrote([PressOutXl]), Got(s[i + 1..i + 4])],
                  s[i + 4..], Ok(PressureFromBuffer(s[i + 1..i + 4])))
    ensures Sleeps(ReadPressureTrace(s).events) == i
  {
    PollStopsAtFirstReady(StatusReg, MaskSet(PressStatusMask), TimeoutMs, s, i);
    assert s[i + 1..][..3] == s[i + 1..i + 4] && s[i + 1..][3..] == s[i + 4..];
    var poll := PressurePoll(s).events;
    var burst := [Wrote([PressOutXl]), Got(s[i + 1..i + 4])];
    SleepsAppend([TriggerEvent] + poll, burst);
    SleepsAppend([TriggerEvent], poll);
    SleepsNone([TriggerEvent]);
    SleepsNone(burst);
  }

  /** `read_temperature` on a device whose temperature-ready bit is first
      set in status byte `s[i]`: the trigger, `i` busy polls, the final
      poll, then the burst read of two bytes from 0x2B. */
  lemma ReadTemperatureWaitsForData(s: seq<bv8>, i: nat)
    requires i + 2 < |s| && s[i] & TempStatusMask != 0
    requires forall j :: 0 <= j < i ==> s[j] & TempStatusMask == 0
    ensures ReadTemperatureTrace(s) ==
            Trace([TriggerEvent] + Attempts(StatusReg, TimeoutMs, s[..i]) + [Wrote([StatusReg]), Got([s[i]])] +
                  [Wrote([TempOutL]), Got(s[i + 1..i + 3])],
                  s[i + 3..], Ok(TemperatureFromBuffer(s[i + 1..i + 3])))
    ensures Sleeps(ReadTemperatureTrace(s).events) == i
  {
    PollStopsAtFirstReady(StatusReg, MaskSet(TempStatusMask), TimeoutMs, s, i);
    assert s[i + 1..][..2] == s[i + 1..i + 3] && s[i + 1..][2..] == s[i + 3..];
    var poll := TemperaturePoll(s).events;
    var burst := [Wrote([TempOutL]), Got(s[i + 1..i + 3])];
    SleepsAppend([TriggerEvent] + poll, burst);
    SleepsAppend([TriggerEvent], poll);
    SleepsNone([TriggerEvent]);
    SleepsNone(burst);
  }

  /** No data register is selected unless the data-ready poll succeeded:
      when no status byte of the script is ready, `read_pressure` fails
      having written only the trigger and status selects. */
  lemma ReadPressureNeverReady(s: seq<bv8>)
    requires forall j :: 0 <= j < |s| ==> s[j] & PressStatusMask == 0
    ensures ReadPressureTrace(s).result == Err(Exhausted)
    ensures forall k :: 1 <= k < |ReadPressureTrace(s).events| && ReadPressureTrace(s).events[k].Wrote? ==>
              ReadPressureTrace(s).events[k].bytes == [StatusReg]
  {
    PollExhausts(StatusReg, MaskSet(PressStatusMask), TimeoutMs, s);
    AttemptsWritesOnly(StatusReg, TimeoutMs, s);
  }

  /** The same for `read_temperature`: when no status byte of the script
      has bit 0x01 set, the read fails having written only the trigger and
      status selects. */
  lemma ReadTemperatureNeverReady(s: seq<bv8>)
    requires forall j :: 0 <= j < |s| ==> s[j] & TempStatusMask == 0
    ensures ReadTemperatureTrace(s).result == Err(Exhausted)
    ensures forall k :: 1 <= k < |ReadTemperatureTrace(s).events| && ReadTemperatureTrace(s).events[k].Wrote? ==>
              ReadTemperatureTrace(s).events[k].bytes == [StatusReg]
  {
    PollExhausts(StatusReg, MaskSet(TempStatusMask), TimeoutMs, s);
    AttemptsWritesOnly(StatusReg, TimeoutMs, s);
  }

  /** A reset that never completes within the script: when every byte read
      back from control register 2 has the BOOT bit set, construction reads
      the whole script, sleeps after every byte, and fails. */
  lemma OpenNeverBoots(s: seq<bv8>)
    requires forall j :: 0 <= j < |s| ==> s[j] & BootMask != 0
    ensures OpenTrace(s).result == Err(Exhausted) && OpenTrace(s).rest == []
    ensures Sleeps(OpenTrace(s).events) == |s|
  {
    PollExhausts(CtrlReg2, MaskClear(BootMask), TimeoutMs, s);
    var reset := [Wrote([CtrlReg2, 0x84])];
    SleepsAppend(reset, BootPoll(s).events);
    SleepsNone(reset);
  }
}
