/** The SHT21 humidity and temperature sensor (sht21.py).

    A measurement writes a one-byte "no hold master" trigger command, waits a
    fixed conversion time, and reads three bytes: the big-endian 16-bit
    reading, whose two low bits are status bits, and a CRC-8 checksum of the
    first two bytes. The reading is converted only when the checksum matches.

    The Python code works on unbounded integers. Here the checksum register
    and the 16-bit word are 16-bit vectors: `Checksum` and `CrcShift` prove that
    the register never leaves 0..255, so a shift never reaches bit 15 and
    the bit-vector arithmetic is the integer arithmetic of the source. The
    linear scales are exact `real` arithmetic.
 */
module Sht21 {
  import opened I2c

  const SoftReset: bv8 := 0xFE
  const I2cAddress: bv8 := 0x40
  const TriggerTemperatureNoHold: bv8 := 0xF3
  const TriggerHumidityNoHold: bv8 := 0xF5
  const StatusBitsMask: bv16 := 0xFFFC
  /** P(x) = x^8 + x^5 + x^4 + 1 */
  const Polynomial: bv16 := 0x131

  /** Conversion waits, in milliseconds (0.086 s and 0.030 s), and the wait
      after the soft reset (0.050 s). */
  const TemperatureWaitMs: nat := 86
  const HumidityWaitMs: nat := 30
  const ResetWaitMs: nat := 50

  // ---------------------------------------------------------------------
  // The checksum

  /** One step of the inner loop: shift left, and XOR the polynomial in when
      bit 7 was set. When bit 7 is set the shift sets bit 8, and the
      polynomial's bit 8 clears it again, so the register stays a byte. */
  function CrcShift(crc: bv16): (r: bv16)
    requires crc < 256
    ensures r < 256
  {
    if crc & 0x80 != 0 then (crc << 1) ^ Polynomial else crc << 1
  }

  /** `k` steps of the inner loop. */
  function CrcShifts(crc: bv16, k: nat): (r: bv16)
    requires crc < 256
    ensures r < 256
    decreases k
  {
    if k == 0 then crc else CrcShift(CrcShifts(crc, k - 1))
  }

  /** One round of the outer loop: XOR the byte in, then eight steps. */
  function CrcByte(crc: bv16, b: bv8): (r: bv16)
    requires crc < 256
    ensures r < 256
  {
    CrcShifts(crc ^ b as bv16, 8)
  }

  /** `_calculate_checksum(data, number_of_bytes)` as a function: the outer
      loop as a left fold, from 0, over the first `n` bytes of `data`. */
  function Checksum(data: seq<bv8>, n: nat): (r: bv16)
    requires n <= |data|
    ensures r < 256
    decreases n
  {
    if n == 0 then 0 else CrcByte(Checksum(data, n - 1), data[n - 1])
  }

  /** The checksum of the first `n` bytes depends on those bytes only. */
  lemma {:induction false} ChecksumReadsPrefix(a: seq<bv8>, b: seq<bv8>, n: nat)
    requires n <= |a| && n <= |b|
    requires forall j :: 0 <= j < n ==> a[j] == b[j]
    ensures Checksum(a, n) == Checksum(b, n)
    decreases n
  {
    if n > 0 {
      ChecksumReadsPrefix(a, b, n - 1);
    }
  }

  /** `_calculate_checksum(data, number_of_bytes)`: the checksum of the first
      `numberOfBytes` bytes of `data`. */
  method CalculateChecksum(data: seq<bv8>, numberOfBytes: nat) returns (crc: bv16)
    requires numberOfBytes <= |data|
    ensures crc == Checksum(data, numberOfBytes)
    ensures crc < 256
    ensures numberOfBytes == 0 ==> crc == 0
  {
    crc := 0;
    for byteCtr := 0 to numberOfBytes
      invariant crc == Checksum(data, byteCtr)
    {
      crc := crc ^ data[byteCtr] as bv16;
      ghost var start := crc;
      for bit := 8 downto 0
        invariant start < 256
        invariant crc == CrcShifts(start, 8 - bit)
      {
        if crc & 0x80 != 0 {
          crc := (crc << 1) ^ Polynomial;
        } else {
          crc := crc << 1;
        }
      }
    }
  }

  /** Checksums of three short inputs. */
  lemma ChecksumExamples()
    ensures Checksum([0xDC], 1) == 0x79
    ensures Checksum([0x68, 0x3A], 2) == 0x7C
    ensures Checksum([0x4E, 0x85], 2) == 0x6B
  {
  }

  // ---------------------------------------------------------------------
  // The checksum tells apart strings that differ in one byte

  /** A step is one-to-one on bytes: bit 0 of the result tells whether the
      polynomial was XORed in, and the rest gives back the register. */
  lemma CrcShiftInjective(x: bv16, y: bv16)
    requires x < 256 && y < 256 && x != y
    ensures CrcShift(x) != CrcShift(y)
  {
  }

  lemma {:induction false} CrcShiftsInjective(x: bv16, y: bv16, k: nat)
    requires x < 256 && y < 256 && x != y
    ensures CrcShifts(x, k) != CrcShifts(y, k)
    decreases k
  {
    if k > 0 {
      CrcShiftsInjective(x, y, k - 1);
      CrcShiftInjective(CrcShifts(x, k - 1), CrcShifts(y, k - 1));
    }
  }

  lemma XorDiffers(x: bv16, y: bv16, p: bv8, q: bv8)
    requires x < 256 && y < 256
    requires (x == y && p != q) || (x != y && p == q)
    ensures x ^ p as bv16 < 256 && y ^ q as bv16 < 256
    ensures x ^ p as bv16 != y ^ q as bv16
  {
  }

  lemma ShiftsDiffer(ra: bv16, rb: bv16, u: bv16, v: bv16)
    requires u < 256 && v < 256 && u != v
    requires ra == CrcShifts(u, 8) && rb == CrcShifts(v, 8)
    ensures ra != rb
  {
    CrcShiftsInjective(u, v, 8);
  }

  /** One round tells apart two registers, or two data bytes. */
  lemma RoundsDiffer(ra: bv16, rb: bv16, x: bv16, y: bv16, p: bv8, q: bv8)
    requires x < 256 && y < 256
    requires (x == y && p != q) || (x != y && p == q)
    requires ra == CrcByte(x, p) && rb == CrcByte(y, q)
    ensures ra != rb
  {
    XorDiffers(x, y, p, q);
    ShiftsDiffer(ra, rb, x ^ p as bv16, y ^ q as bv16);
  }

  /** Once two strings that differ only in byte `i` have been checksummed
      past byte `i`, their registers differ, and stay different. */
  lemma {:induction false} ChecksumDiverges(a: seq<bv8>, b: seq<bv8>, i: nat, n: nat)
    requires |a| == |b| && i < n <= |a| && a[i] != b[i]
    requires forall j :: 0 <= j < |a| && j != i ==> a[j] == b[j]
    ensures Checksum(a, n) != Checksum(b, n)
    decreases n
  {
    if n - 1 == i {
      ChecksumReadsPrefix(a, b, i);
    } else {
      ChecksumDiverges(a, b, i, n - 1);
    }
    RoundsDiffer(Checksum(a, n), Checksum(b, n), Checksum(a, n - 1), Checksum(b, n - 1), a[n - 1], b[n - 1]);
  }

  /** Two strings of one length that differ in exactly one byte (so in
      particular in exactly one bit) have different checksums. */
  lemma DetectsOneByteErrors(a: seq<bv8>, b: seq<bv8>, i: nat)
    requires |a| == |b| && i < |a| && a[i] != b[i]
    requires forall j :: 0 <= j < |a| && j != i ==> a[j] == b[j]
    ensures Checksum(a, |a|) != Checksum(b, |b|)
  {
    ChecksumDiverges(a, b, i, |a|);
  }

  // ---------------------------------------------------------------------
  // Decoding

  lemma PlusIsOr(hi: bv8, lo: bv8)
    ensures (hi as bv16 << 8) + lo as bv16 == (hi as bv16 << 8) | lo as bv16
  {
  }

  lemma WordValue(hi: bv8, lo: bv8)
    ensures ((hi as bv16 << 8) | lo as bv16) as int == hi as int * 256 + lo as int
  {
  }

  /** `(data[0] << 8) + data[1]`: the big-endian 16-bit word of two bytes. */
  function RawWord(hi: bv8, lo: bv8): (w: bv16)
    ensures w as int == hi as int * 256 + lo as int
  {
    PlusIsOr(hi, lo);
    WordValue(hi, lo);
    (hi as bv16 << 8) + lo as bv16
  }

  /** `& _STATUS_BITS_MASK`: bits 0 and 1 cleared, every other bit kept. */
  function ClearStatusBits(w: bv16): (m: bv16)
    ensures m & 3 == 0
    ensures m | (w & 3) == w
  {
    w & StatusBitsMask
  }

  lemma MaskedBytes(hi: bv8, lo: bv8)
    ensures ClearStatusBits((hi as bv16 << 8) | lo as bv16) == (hi as bv16 << 8) | (lo & 0xFC) as bv16
  {
  }

  lemma MaskedLowByte(lo: bv8)
    ensures (lo & 0xFC) as int == lo as int - lo as int % 4
  {
  }

  lemma MaskedWordValue(hi: bv8, lo: bv8)
    ensures ClearStatusBits(RawWord(hi, lo)) as int == hi as int * 256 + lo as int - lo as int % 4
  {
    PlusIsOr(hi, lo);
    MaskedBytes(hi, lo);
    WordValue(hi, lo & 0xFC);
    MaskedLowByte(lo);
  }

  lemma MaskedWordRange(hi: int, lo: int)
    requires 0 <= hi < 256 && 0 <= lo < 256
    ensures (hi * 256 + lo - lo % 4) % 4 == 0
    ensures 0 <= hi * 256 + lo - lo % 4 <= 65532
  {
    assert hi * 256 + lo - lo % 4 == 4 * (hi * 64 + lo / 4);
  }

  /** The masked reading as the number the scale multiplies: the word
      `hi * 256 + lo` rounded down to a multiple of 4. */
  function MaskedWord(hi: bv8, lo: bv8): (m: int)
    ensures m == hi as int * 256 + lo as int - lo as int % 4
    ensures m % 4 == 0 && 0 <= m <= 65532
  {
    MaskedWordValue(hi, lo);
    MaskedWordRange(hi as int, lo as int);
    ClearStatusBits(RawWord(hi, lo)) as int
  }

  /** The temperature scale, in degrees Celsius, of a masked word. */
  function TemperatureOf(m: int): real
  {
    m as real * 175.72 / 65536.0 - 46.85
  }

  /** The relative humidity scale, in percent, of a masked word. */
  function HumidityOf(m: int): real
  {
    m as real * 125.0 / 65536.0 - 6.0
  }

  lemma ScalesAtZero()
    ensures TemperatureOf(0) == -46.85
    ensures HumidityOf(0) == -6.0
  {
  }

  lemma ScalesMonotonic(m1: int, m2: int)
    requires m1 <= m2
    ensures TemperatureOf(m1) <= TemperatureOf(m2)
    ensures HumidityOf(m1) <= HumidityOf(m2)
  {
  }

  /** `_get_temperature_from_buffer`. */
  function TemperatureFromBuffer(data: seq<bv8>): (t: real)
    requires |data| >= 2
    ensures t == TemperatureOf(data[0] as int * 256 + data[1] as int - data[1] as int % 4)
    ensures -46.85 <= t <= 128.86
  {
    TemperatureOf(MaskedWord(data[0], data[1]))
  }

  /** `_get_humidity_from_buffer`. */
  function HumidityFromBuffer(data: seq<bv8>): (h: real)
    requires |data| >= 2
    ensures h == HumidityOf(data[0] as int * 256 + data[1] as int - data[1] as int % 4)
    ensures -6.0 <= h <= 119.0
  {
    HumidityOf(MaskedWord(data[0], data[1]))
  }

  /** The value `read_temperature` returns for the three bytes it read:
      a temperature when the third byte is the checksum of the first two,
      None otherwise. */
  function TemperatureReading(data: seq<bv8>): (r: Option<real>)
    requires |data| == 3
    ensures r.Some? <==> Checksum(data, 2) == data[2] as bv16
    ensures r.Some? ==> r.value == TemperatureFromBuffer(data)
  {
    if Checksum(data, 2) == data[2] as bv16 then Some(TemperatureFromBuffer(data)) else None
  }

  /** The value `read_humidity` returns for the three bytes it read. */
  function HumidityReading(data: seq<bv8>): (r: Option<real>)
    requires |data| == 3
    ensures r.Some? <==> Checksum(data, 2) == data[2] as bv16
    ensures r.Some? ==> r.value == HumidityFromBuffer(data)
  {
    if Checksum(data, 2) == data[2] as bv16 then Some(HumidityFromBuffer(data)) else None
  }

  /** When three bytes pass the check, corrupting any one of them makes
      both readings None. */
  lemma ReadingsRejectOneCorruptByte(good: seq<bv8>, bad: seq<bv8>, i: nat)
    requires |good| == 3 && |bad| == 3 && i < 3 && good[i] != bad[i]
    requires forall j :: 0 <= j < 3 && j != i ==> good[j] == bad[j]
    requires Checksum(good, 2) == good[2] as bv16
    ensures TemperatureReading(bad) == None && HumidityReading(bad) == None
  {
    if i < 2 {
      ChecksumDiverges(good, bad, i, 2);
    } else {
      ChecksumReadsPrefix(good, bad, 2);
    }
  }

  // ---------------------------------------------------------------------
  // The constructor's soft reset

  /** The byte-valued class attributes, by name, as `self.<name>` finds them. */
  const Commands: map<string, bv8> := map[
    "_SOFT_RESET" := SoftReset,
    "_I2C_ADDRESS" := I2cAddress,
    "_TRIGGER_TEMPERATURE_NO_HOLD" := TriggerTemperatureNoHold,
    "_TRIGGER_HUMIDITY_NO_HOLD" := TriggerHumidityNoHold
  ]

  /** The reset step of the constructor when it names the reset command by
      `name`: write that command and sleep 50 ms, or fail the lookup. */
  function ResetEvents(name: string): (r: Result<seq<Event>>)
    ensures r.Ok? <==> name in Commands
    ensures r.Ok? ==> r.value == [Wrote([Commands[name]]), Slept(ResetWaitMs)]
    ensures r.Err? ==> r.error == MissingAttribute(name)
  {
    if name in Commands then Ok([Wrote([Commands[name]]), Slept(ResetWaitMs)])
    else Err(MissingAttribute(name))
  }

  /** As written, the constructor asks for `_SOFTRESET`, which the class does
      not define: construction fails before the reset is written. */
  lemma ResetAsWrittenFails()
    ensures ResetEvents("_SOFTRESET") == Err(MissingAttribute("_SOFTRESET"))
  {
  }

  /** With the attribute spelt as declared, the reset writes 0xFE. */
  lemma ResetCorrected()
    ensures ResetEvents("_SOFT_RESET") == Ok([Wrote([0xFE]), Slept(50)])
  {
  }

  // ---------------------------------------------------------------------
  // The driver

  class Sht21 {
    const bus: Bus

    /** The constructor with the soft-reset command spelt as declared. */
    constructor (bus: Bus)
      modifies bus
      ensures this.bus == bus
      ensures bus.log == old(bus.log) + ResetEvents("_SOFT_RESET").value
      ensures bus.script == old(bus.script)
    {
      this.bus := bus;
      new;
      bus.Write([SoftReset]);
      bus.Sleep(ResetWaitMs);
    }

    /** Write the trigger, wait, read the two data bytes and the checksum. */
    method Measure(command: bv8, waitMs: nat) returns (r: Result<seq<bv8>>)
      modifies bus
      ensures var s := old(bus.script);
              if |s| < 3 then
                r == Err(Exhausted) && bus.script == s &&
                bus.log == old(bus.log) + [Wrote([command]), Slept(waitMs)]
              else
                r == Ok(s[..3]) && bus.script == s[3..] &&
                bus.log == old(bus.log) + [Wrote([command]), Slept(waitMs), Got(s[..3])]
    {
      bus.Write([command]);
      bus.Sleep(waitMs);
      var data := bus.Read(3);
      if data.None? {
        return Err(Exhausted);
      }
      r := Ok(data.value);
    }

    /** `read_temperature`: one trigger 0xF3, an 86 ms wait, one 3-byte read;
        a temperature only when the checksum matches. */
    method ReadTemperature() returns (r: Result<Option<real>>)
      modifies bus
      ensures var s := old(bus.script);
              if |s| < 3 then
                r == Err(Exhausted) && bus.script == s &&
                bus.log == old(bus.log) + [Wrote([0xF3]), Slept(86)]
              else
                r == Ok(TemperatureReading(s[..3])) && bus.script == s[3..] &&
                bus.log == old(bus.log) + [Wrote([0xF3]), Slept(86), Got(s[..3])]
    {
      var data := Measure(TriggerTemperatureNoHold, TemperatureWaitMs);
      if data.Err? {
        return Err(data.error);
      }
      var crc := CalculateChecksum(data.value, 2);
      if crc == data.value[2] as bv16 {
        r := Ok(Some(TemperatureFromBuffer(data.value)));
      } else {
        r := Ok(None);
      }
    }

    /** `read_humidity`: one trigger 0xF5, a 30 ms wait, one 3-byte read;
        a humidity only when the checksum matches. */
    method ReadHumidity() returns (r: Result<Option<real>>)
      modifies bus
      ensures var s := old(bus.script);
              if |s| < 3 then
                r == Err(Exhausted) && bus.script == s &&
                bus.log == old(bus.log) + [Wrote([0xF5]), Slept(30)]
              else
                r == Ok(HumidityReading(s[..3])) && bus.script == s[3..] &&
                bus.log == old(bus.log) + [Wrote([0xF5]), Slept(30), Got(s[..3])]
    {
      var data := Measure(TriggerHumidityNoHold, HumidityWaitMs);
      if data.Err? {
        return Err(data.error);
      }
      var crc := CalculateChecksum(data.value, 2);
      if crc == data.value[2] as bv16 {
        r := Ok(Some(HumidityFromBuffer(data.value)));
      } else {
        r := Ok(None);
      }
    }
  }
}
