# I2C sensor drivers: SHT21 and LPS331AP, modelled in Dafny

This project models three Python 2 drivers for I2C sensors. It proves what
they do on the bus and what they compute from the bytes they read.

- **SHT21** (`sht21.py`) is a humidity and temperature sensor. A
  measurement writes a trigger command, waits, and reads two data bytes and
  a CRC-8 checksum. The value is decoded only when the checksum of the two
  data bytes matches the third byte.
- **LPS331AP, `snesens` driver** (`snesens/sensors/lps331ap.py`) is a
  pressure sensor driver with three cached measurements. Construction
  checks the identity register, writes a fixed configuration and starts a
  one-shot conversion. `one_shot` clears the caches and polls a status
  register until it reads 0x00. Each `get_*` reads the device only while
  its cache is empty.
- **LPS331AP, older driver** (`sensors/lps331ap.py`) resets the device and
  waits for the BOOT bit to clear. A measurement triggers a conversion,
  polls the data-ready bit, reads the output registers in one burst and
  decodes them by integer division.

The bus (module `I2c`, `i2c.dfy`) is a `Bus` object. It logs every write,
read and sleep in order, and serves reads from a finite script of bytes the
device answers with. Each driver method is tied by its `ensures` to a pure
trace function of the script: the events it logs, the script it leaves,
and its result. The lemmas about those trace functions state the
properties: the order of writes, the number of polls and sleeps, which
bytes are decoded, and when nothing is read at all.

A script that runs dry makes the read fail with `Exhausted`. This stands
for a device that never answers, since the drivers' poll loops have no
bound. It also stands for a short read, on which the Python code would fail
in `ord` or in indexing.

Files:

| file | module |
|---|---|
| `i2c.dfy` | `I2c` |
| `sht21.dfy` | `Sht21` |
| `snesens_lps331ap.dfy` | `SnesensLps331ap` |
| `sensors_lps331ap.dfy` | `SensorsLps331ap` |

## Model

| member | source | states |
|---|---|---|
| `I2c.Bus.Write` | snesens/sensors/lps331ap.py:39 | a write is logged after everything before it and consumes no script |
| `I2c.Bus.Read` | sensors/lps331ap.py:108 | a read of n bytes returns the next n script bytes and logs them, or fails with nothing consumed when fewer remain |
| `I2c.Bus.Sleep` | snesens/sensors/lps331ap.py:68 | a sleep is logged as an event with its duration |
| `I2c.Bus.ReadRegister` | snesens/sensors/lps331ap.py:72-73 | selecting a register and reading one byte logs the address then the byte, and returns the next script byte |
| `I2c.RegistersSpec` | snesens/sensors/lps331ap.py:91-98 | reading registers one at a time succeeds exactly when a byte is left for each; the bytes come back in script order, each logged after its register address |
| `I2c.Burst` | sensors/lps331ap.py:107-108 | a burst read succeeds exactly when n bytes remain, and splits the script into the n bytes read and the rest |
| `I2c.PollBusy` | snesens/sensors/lps331ap.py:67-68 | a status byte that is not ready costs one select, one read and one sleep, and the poll continues on the rest |
| `I2c.PollStopsAtFirstReady` | snesens/sensors/lps331ap.py:67-74 | a poll loop stops at the first ready status byte; it logs one round with one sleep per earlier byte and returns the ready byte |
| `I2c.PollExhausts` | sensors/lps331ap.py:104-105 | with no ready byte the loop reads the whole script, sleeps once per byte and fails |
| `I2c.PollSucceedsIffReady` | sensors/lps331ap.py:49-50 | a poll loop ends successfully exactly when some status byte is ready, and then returns a ready byte |
| `I2c.AttemptsSleeps` | sensors/lps331ap.py:49-50 | every unsuccessful poll round sleeps exactly once |
| `I2c.AttemptsWritesOnly` | sensors/lps331ap.py:62 | unsuccessful poll rounds write nothing but the status register address |
| `I2c.SleepsAppend` | snesens/sensors/lps331ap.py:67-68 | the sleeps of two event sequences add up |
| `Sht21.CrcShift` | sht21.py:41-44 | one inner-loop step keeps the register in 0..255, because the polynomial's bit 8 clears the bit the shift sets |
| `Sht21.CrcShifts` | sht21.py:40-44 | the eight inner-loop steps keep the register in 0..255 |
| `Sht21.CrcByte` | sht21.py:39-44 | one outer-loop round keeps the register in 0..255 |
| `Sht21.Checksum` | sht21.py:36-45 | the checksum of the first n bytes is a byte |
| `Sht21.CalculateChecksum` | sht21.py:32-45 | the nested loops compute the left fold of rounds over the first n bytes, from 0; zero bytes give 0 and the result is a byte |
| `Sht21.ChecksumReadsPrefix` | sht21.py:38 | the checksum of the first n bytes depends on those bytes only |
| `Sht21.ChecksumExamples` | sht21.py:32-45 | the checksums of [0xDC], [0x68, 0x3A] and [0x4E, 0x85] are 0x79, 0x7C and 0x6B |
| `Sht21.CrcShiftInjective` | sht21.py:41-44 | one inner-loop step maps different registers to different registers |
| `Sht21.CrcShiftsInjective` | sht21.py:40-44 | so do k steps |
| `Sht21.RoundsDiffer` | sht21.py:39-44 | one round maps different registers with the same byte, or one register with different bytes, to different registers |
| `Sht21.ChecksumDiverges` | sht21.py:38-44 | two inputs that differ only in byte i have different registers after every round past i |
| `Sht21.DetectsOneByteErrors` | sht21.py:32-45 | two inputs of one length that differ in exactly one byte have different checksums |
| `Sht21.RawWord` | sht21.py:55 | the assembled word is data[0]*256 + data[1] |
| `Sht21.ClearStatusBits` | sht21.py:56 | the mask clears bits 0 and 1 and keeps every other bit |
| `Sht21.MaskedWordValue` | sht21.py:55-56 | the masked word is the word minus its two low bits |
| `Sht21.MaskedWordRange` | sht21.py:56 | the masked word is a multiple of 4 in 0..65532 |
| `Sht21.MaskedWord` | sht21.py:70-71 | the masked reading is the big-endian word rounded down to a multiple of 4, in 0..65532 |
| `Sht21.ScalesAtZero` | sht21.py:57-59 | a masked word of 0 is -46.85 degrees and -6 percent |
| `Sht21.ScalesMonotonic` | sht21.py:72-74 | both scales are non-decreasing in the masked word |
| `Sht21.TemperatureFromBuffer` | sht21.py:49-60 | the temperature is the scale of the masked word, between -46.85 and 128.86 degrees |
| `Sht21.HumidityFromBuffer` | sht21.py:64-75 | the humidity is the scale of the masked word, between -6 and 119 percent |
| `Sht21.TemperatureReading` | sht21.py:82-83 | a temperature is returned exactly when the checksum of bytes 0..1 equals byte 2, and None otherwise |
| `Sht21.HumidityReading` | sht21.py:90-91 | a humidity is returned exactly when the checksum of bytes 0..1 equals byte 2, and None otherwise |
| `Sht21.ReadingsRejectOneCorruptByte` | sht21.py:82 | if three read bytes pass the check, corrupting any one of them makes both readings None |
| `Sht21.ResetEvents` | sht21.py:27-28 | the reset looks the command up by attribute name: a known name writes that command and sleeps 50 ms, an unknown one fails the lookup |
| `Sht21.ResetAsWrittenFails` | sht21.py:27 | the constructor's `_SOFTRESET` is not an attribute of the class, so construction fails |
| `Sht21.ResetCorrected` | sht21.py:8 | spelt `_SOFT_RESET`, the reset writes 0xFE and sleeps 50 ms |
| `Sht21.Sht21.constructor` | sht21.py:23-28 | construction writes the soft-reset command and sleeps 50 ms, and reads nothing |
| `Sht21.Sht21.Measure` | sht21.py:79-81 | a measurement writes its trigger once, sleeps the conversion time, then reads 3 bytes |
| `Sht21.Sht21.ReadTemperature` | sht21.py:78-83 | writes 0xF3, sleeps 86 ms, reads 3 bytes, and returns the checked temperature reading of exactly those bytes |
| `Sht21.Sht21.ReadHumidity` | sht21.py:86-91 | writes 0xF5, sleeps 30 ms, reads 3 bytes, and returns the checked humidity reading of exactly those bytes |
| `SnesensLps331ap.WhoAmITrace` | snesens/sensors/lps331ap.py:38-42 | the identity check succeeds exactly when the byte read from 0x0F is 0xBB; any other byte is an unexpected device |
| `SnesensLps331ap.OneShotTrace` | snesens/sensors/lps331ap.py:65-68 | one shot writes [0x21, 0x01] before any status poll, and succeeds exactly when the poll does |
| `SnesensLps331ap.RawPressure` | snesens/sensors/lps331ap.py:100 | the raw pressure is msb*65536 + lsb*256 + xlsb, in [0, 2^24) |
| `SnesensLps331ap.PressureOf` | snesens/sensors/lps331ap.py:101 | the pressure is the floor of the raw word over 4096, in [0, 4095] |
| `SnesensLps331ap.RawTemperatureAsWritten` | snesens/sensors/lps331ap.py:84-85 | as written the raw temperature is the unsigned word minus 65536, always in [-65536, -1] |
| `SnesensLps331ap.SignedRawTemperature` | snesens/sensors/lps331ap.py:85 | the two's-complement reading: the one number in [-32768, 32767] congruent to the word modulo 2^16 |
| `SnesensLps331ap.SignedAgreesOnlyWhenNegative` | snesens/sensors/lps331ap.py:84-86 | the unconditional subtraction equals the two's complement exactly when bit 15 is set, and is 65536 too low otherwise; likewise the temperature read as written equals the intended one exactly when bit 15 is set, and is 65536/480 degrees too low otherwise |
| `SnesensLps331ap.TemperatureAsWrittenMisreadsZero` | snesens/sensors/lps331ap.py:84-86 | a raw word of 0 means 42.5 degrees, but as written it decodes below -94 degrees |
| `SnesensLps331ap.TemperatureAsWrittenOf` | snesens/sensors/lps331ap.py:84-86 | the temperature `_read_temperature` returns is 42.5 plus the raw value as written over 480, between -94.04 and just below 42.5 degrees |
| `SnesensLps331ap.TemperatureOf` | snesens/sensors/lps331ap.py:86 | the intended temperature is 42.5 plus the signed reading over 480, between -25.77 and 110.77 degrees |
| `SnesensLps331ap.PressureTrace` | snesens/sensors/lps331ap.py:90-102 | the pressure read selects 0x28, 0x29, 0x2A in turn, reads one byte after each, and decodes exactly those bytes; it fails when fewer than 3 bytes remain |
| `SnesensLps331ap.TemperatureTrace` | snesens/sensors/lps331ap.py:77-87 | the temperature read selects 0x2B then 0x2C, reads one byte after each and decodes exactly those bytes with the unconditional subtraction, as written; it fails when fewer than 2 bytes remain |
| `SnesensLps331ap.Remembered` | snesens/sensors/lps331ap.py:115-116 | a cache is filled exactly when the read succeeded, with the value read |
| `SnesensLps331ap.Lps331ap.constructor` | snesens/sensors/lps331ap.py:23-25 | a new object starts with all three caches empty |
| `SnesensLps331ap.Lps331ap.Open` | snesens/sensors/lps331ap.py:28-35 | construction logs the identity check, then the configuration, then the one shot, stopping at the first failure; the object returned has empty caches |
| `SnesensLps331ap.Lps331ap.CheckWhoAmI` | snesens/sensors/lps331ap.py:38-42 | the identity check logs the write of [0x0F] and one byte read, and fails unless that byte is 0xBB |
| `SnesensLps331ap.Lps331ap.Configure` | snesens/sensors/lps331ap.py:45-53 | configuration writes exactly [0x20, 0x00], [0x10, 0x7A], [0x20, 0x84], in that order, and reads nothing |
| `SnesensLps331ap.Lps331ap.OneShot` | snesens/sensors/lps331ap.py:60-68 | one shot leaves all caches empty and logs the trigger followed by the status poll |
| `SnesensLps331ap.Lps331ap.WaitStatusBit` | snesens/sensors/lps331ap.py:71-74 | the status test selects 0x21, reads one byte and is true exactly when that byte is not 0x00 |
| `SnesensLps331ap.Lps331ap.ReadTemperature` | snesens/sensors/lps331ap.py:77-87 | the method does exactly what the temperature read trace says, returning the decode as written |
| `SnesensLps331ap.Lps331ap.ReadPressure` | snesens/sensors/lps331ap.py:90-102 | the method does exactly what the pressure read trace says |
| `SnesensLps331ap.Lps331ap.ReadAltitude` | snesens/sensors/lps331ap.py:105-111 | the altitude is computed from what `get_pressure` returns, which fills the pressure cache; the temperature and altitude caches are untouched |
| `SnesensLps331ap.Lps331ap.GetPressure` | snesens/sensors/lps331ap.py:114-118 | a filled cache is returned with no bus traffic; an empty one is filled by a read, or stays empty if the read fails |
| `SnesensLps331ap.Lps331ap.GetTemperature` | snesens/sensors/lps331ap.py:121-125 | the same for temperature, with the decode as written |
| `SnesensLps331ap.Lps331ap.GetAltitude` | snesens/sensors/lps331ap.py:128-132 | the same for altitude, and a first call leaves in the pressure cache what `get_pressure` would |
| `SnesensLps331ap.OpenRejectsOtherDevices` | snesens/sensors/lps331ap.py:33-34 | on a device whose identity byte is not 0xBB, construction fails after the identity read, and nothing but [0x0F] is written |
| `SnesensLps331ap.OpenOnDevice` | snesens/sensors/lps331ap.py:33-35 | on an LPS331AP whose status first reads 0x00 at poll i, construction logs the identity read, the configuration, the trigger, i busy rounds and the final poll, with exactly i sleeps |
| `SnesensLps331ap.OpenNeverReady` | snesens/sensors/lps331ap.py:67-68 | if no status byte is 0x00, construction reads the whole script and fails |
| `SnesensLps331ap.CachesAnswerWithoutTraffic` | snesens/sensors/lps331ap.py:114-125 | after a successful `get_pressure` or `get_temperature`, the next call returns the same value with no bus events |
| `SnesensLps331ap.AltitudeReadsThroughPressure` | snesens/sensors/lps331ap.py:108 | a first `get_altitude` makes the same bus accesses as a first `get_pressure`, returns the altitude of that pressure, and the next call is answered from the cache |
| `I2c.Word16Value` | snesens/sensors/lps331ap.py:84 | OR-ing a high byte shifted by 8 with a low byte, in either order, gives hi*256 + lo |
| `I2c.Word24Value` | snesens/sensors/lps331ap.py:100 | OR-ing three bytes shifted by 16, 8 and 0, in either order, gives their weighted sum |
| `SensorsLps331ap.LittleEndian24` | sensors/lps331ap.py:89 | the bitwise OR of b0, b1 shifted by 8 and b2 shifted by 16 is b0 + 256*b1 + 65536*b2 |
| `SensorsLps331ap.PressureWord` | sensors/lps331ap.py:89 | the pressure word is little-endian over the three bytes, in [0, 2^24) |
| `SensorsLps331ap.PressureFromBuffer` | sensors/lps331ap.py:87-91 | the pressure is the floor of the word over 4096, in [0, 4095] |
| `SensorsLps331ap.LittleEndian16` | sensors/lps331ap.py:96 | the bitwise OR of b0 and b1 shifted by 8 is b0 + 256*b1 |
| `SensorsLps331ap.TemperatureWord` | sensors/lps331ap.py:96 | the temperature word is little-endian and unsigned, in [0, 65536) |
| `SensorsLps331ap.TemperatureFromBuffer` | sensors/lps331ap.py:94-98 | the temperature is the floor of the word over 480, in [0, 136], with no 42.5 offset |
| `SensorsLps331ap.RawPressureAgrees` | sensors/lps331ap.py:89 | for the same three register bytes both drivers assemble the same raw pressure word and pressure |
| `SensorsLps331ap.OpenTrace` | sensors/lps331ap.py:44-50 | construction writes [0x21, 0x84] and then polls 0x21 until the BOOT bit is clear |
| `SensorsLps331ap.MeasureTrace` | sensors/lps331ap.py:104-108 | a measurement succeeds exactly when the poll succeeds and n bytes remain after it, and then yields the next n bytes; when the poll fails, nothing follows the trigger and the poll, so no data register is selected |
| `SensorsLps331ap.ReadPressureTrace` | sensors/lps331ap.py:101-102 | `read_pressure` writes the trigger before anything else |
| `SensorsLps331ap.ReadTemperatureTrace` | sensors/lps331ap.py:112-113 | `read_temperature` writes the trigger before anything else |
| `SensorsLps331ap.Lps331ap.constructor` | sensors/lps331ap.py:44 | the object is bound to its bus |
| `SensorsLps331ap.Lps331ap.Open` | sensors/lps331ap.py:44-50 | the method does exactly what the construction trace says, and returns a new object on success |
| `SensorsLps331ap.Lps331ap.WaitStatusBits` | sensors/lps331ap.py:53-57 | the reset test selects 0x21, reads one byte and is true exactly when its bit 0x80 is set |
| `SensorsLps331ap.Lps331ap.WaitPressure` | sensors/lps331ap.py:60-64 | the test selects 0x27, reads one byte and is true exactly when its bit 0x02 is clear |
| `SensorsLps331ap.Lps331ap.WaitTemperature` | sensors/lps331ap.py:67-71 | the test selects 0x27, reads one byte and is true exactly when its bit 0x01 is clear |
| `SensorsLps331ap.Lps331ap.TriggerOneshotConversion` | sensors/lps331ap.py:83-84 | the trigger writes [0x21, 0x01] and reads nothing |
| `SensorsLps331ap.Lps331ap.ReadPressure` | sensors/lps331ap.py:101-109 | the method does exactly what the `read_pressure` trace says |
| `SensorsLps331ap.Lps331ap.ReadTemperature` | sensors/lps331ap.py:112-120 | the method does exactly what the `read_temperature` trace says |
| `SensorsLps331ap.OpenWaitsForBoot` | sensors/lps331ap.py:47-50 | if the BOOT bit first reads clear at poll i, construction logs the reset, i busy rounds and the final poll, with exactly i sleeps |
| `SensorsLps331ap.ReadPressureWaitsForData` | sensors/lps331ap.py:101-109 | trigger first, then i busy polls until bit 0x02 is set, with i sleeps; only then 3 bytes are read from 0x28, and exactly those are decoded |
| `SensorsLps331ap.ReadTemperatureWaitsForData` | sensors/lps331ap.py:112-120 | trigger first, then i busy polls until bit 0x01 is set, with i sleeps; only then 2 bytes are read from 0x2B, and exactly those are decoded |
| `SensorsLps331ap.ReadPressureNeverReady` | sensors/lps331ap.py:104-108 | if the pressure-ready bit is never set, no data register is selected and the read fails |
| `SensorsLps331ap.ReadTemperatureNeverReady` | sensors/lps331ap.py:115-119 | if the temperature-ready bit is never set, no data register is selected and the read fails |
| `SensorsLps331ap.OpenNeverBoots` | sensors/lps331ap.py:47-50 | if the BOOT bit never reads clear, construction reads the whole script, sleeps after every byte and fails |

## Left out

- Opening `/dev/i2c-N`, the `ioctl` that binds the slave address, `close`,
  `__enter__` and `__exit__` are operating-system plumbing. The bus object
  stands in for them. The slave addresses are not modelled; the SHT21's
  `_I2C_ADDRESS` appears only as one of the class attributes the reset
  looks up.
- `time.sleep` is a logged event with its duration in milliseconds. No time
  passes.
- The transport never fails on a write. A read fails only when the script is
  too short. This errs in the same way for a device that never answers, a
  short read and an empty `ord`.
- The poll loops have no bound in the source. Here a loop ends when the
  script runs dry. No timeout is invented.
- The LPS331AP barometric altitude formula uses floating-point powers. It is
  not modelled: an altitude is recorded as the pressure it is computed from.
  Only its call to `get_pressure` and its caching are modelled.
- Floating-point rounding is not modelled. The SHT21 scales and the `snesens`
  temperature are computed in exact `real` arithmetic.
- The SHT21 docstrings give 46.82 and 172.72, but the code uses 46.85 and
  175.72. The model follows the code.
- The older LPS331AP driver's temperature docstring says 42.5 + ST/480. The
  code returns the unsigned word floor-divided by 480, with no offset and no
  sign, and the model follows the code.
- The older driver applies `&` and `|` to the one-character strings `read`
  returns. In Python that raises a `TypeError`. The model takes each
  character as the byte it encodes, which is evidently what is meant.
- `concat_hex` (sensors/lps331ap.py:5-7) is unused, and it fails on its
  first call because it passes a string to `chr`. It is not modelled.
- The `__main__` demo of the `snesens` driver only prints, and `__init__.py`
  only re-exports. Neither is modelled.
- `CalculateChecksum` requires `numberOfBytes <= |data|`. On a longer count
  the source fails with an `IndexError`, and that failure is not modelled.
- `snesens` construction is the static method `Open`, which returns a
  `Result`, because a Dafny constructor cannot fail. The constructor only
  allocates the object with empty caches.

## Findings

| source | as written | input that shows it | evidently intended | confidence | as-written member | corrected member |
|---|---|---|---|---|---|---|
| sht21.py:27 | the constructor writes `chr(self._SOFTRESET)`, but the class defines `_SOFT_RESET` (line 8) | any construction: the attribute lookup fails before anything is written | write 0xFE, then sleep 50 ms | high (not executed) | `Sht21.ResetAsWrittenFails` | `Sht21.ResetCorrected` |
| snesens/sensors/lps331ap.py:85 | `temperature -= 1 << 16` is unconditional, though commented "Signed int16" | bytes lsb 0x00, msb 0x00 (raw 0, 42.5 degrees) decode to -65536, that is below -94 degrees | subtract 2^16 only when bit 15 is set (two's complement) | medium (not executed) | `SnesensLps331ap.RawTemperatureAsWritten` | `SnesensLps331ap.SignedRawTemperature` |

The SHT21 constructor uses the corrected reset, because the code as
written never gets past it. The `snesens` temperature read
(`TemperatureTrace`, `Lps331ap.ReadTemperature`, `GetTemperature`) returns
what the code as written returns, `TemperatureAsWrittenOf`. The intended
decode is `TemperatureOf`. `SnesensLps331ap.SignedAgreesOnlyWhenNegative`
shows that the two agree exactly on negative readings, which covers every
temperature below 42.5 degrees, and that otherwise the read as written is
65536/480 (about 136.53) degrees too low.
