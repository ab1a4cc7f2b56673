# BMX055 driver model

A Dafny model of `bmx055.py`, a Python driver for the Bosch BMX055 combined
accelerometer / gyroscope / magnetometer on an I2C bus. The driver object owns
the bus, configures the three sub-sensors with a fixed sequence of register
writes and settle delays, reads each sub-sensor's sample registers into a
per-sensor scratch buffer, and rebuilds signed axis values from the bytes.

The model has five modules:

- `Bits` (bits.dfy): Python's `&`, `|`, `<<` and `>>` on non-negative integers.
  `&` and `|` are defined bit by bit, so "`lsb & 0xF0` clears the low nibble"
  and "`(hi << 8) | (lo >> 3)` is an addition" are proved, not assumed.
- `Decode` (decode.dfy): `conv_accl_12bit`, `conv_gyro_12bit` and the X/Y/Z
  arithmetic of `read_mag`, as functions with their ranges. It also has
  lemmas for the closed forms, the ignored bits, the worked examples and the
  comparison with two's-complement readings.
- `Protocol` (protocol.dfy): the bus events (`Write`, `Read`, `Sleep` in
  milliseconds, `Close`), the configuration table of `__init__`, and the traces
  of configuration, reads and teardown. It has lemmas on the count, order and
  delays of these traces.
- `I2C` (i2c.dfy): the bus object. It holds a register map
  `(address, register) -> byte`, an open flag and a ghost event log.
- `Driver` (driver.dfy): the `bmx055` class, with the addresses and base
  registers, the bus, and the three scratch arrays of 6, 6 and 8 entries. Each
  method states the buffer contents, the result and the new log exactly.

The decoders are modelled as the code is written, not as the sensor's data
format would suggest:

- The accelerometer uses `msb * 256`, so its values reach 61199.
- The magnetometer shifts the high byte by 8.
- The gyroscope subtracts 65546 rather than 65536, so no reading falls in
  [-10, -1]; (0xFF, 0xFF) reads -11.

Lemmas in `Decode` measure each of these against the two's-complement reading
a 12-, 13- or 16-bit sample would have.

Three more properties of the code, each stated as the code behaves:

- The accelerometer's range is [-2048, 61199], not the [-2048, 2047] of a
  12-bit reading, and (0xF0, 0x07) reads 1807 (`AcclExtremes`).
- `__del__` has no guard against a second call and catches nothing. If
  the suspend write raises, `time.sleep` and `close` do not run and the bus
  stays open.
- The code has no error handling. smbus2 exceptions propagate out of
  `__init__` and the read methods.

## Model

| member | source | states |
|---|---|---|
| Bits.And | bmx055.py:75 | `a & b` on non-negative integers; the result is at most either operand |
| Bits.Or | bmx055.py:102 | `a \| b` on non-negative integers; the result lies between the larger operand and the sum |
| Bits.HighNibble | bmx055.py:75 | for every byte, `x & 0xF0` is `(x >> 4) * 16`, so the division by 16 is exact |
| Bits.Shl | bmx055.py:102-112 | `a << k`; shifting the result back right by k gives `a` |
| Bits.Shr | bmx055.py:102-112 | `a >> k` is the floor of `a / 2^k`: `r * 2^k <= a < (r + 1) * 2^k` |
| Bits.OrDisjoint | bmx055.py:102 | `(a << k) \| b` equals `a * 2^k + b` whenever `b < 2^k` |
| Decode.ConvAccl12Bit | bmx055.py:74-78 | the accelerometer value is in [-2048, 61199]; when msb <= 7 no correction applies and it is in [0, 1807]; it is negative only when msb >= 8 |
| Decode.AcclClosedForm | bmx055.py:75-77 | the value is `msb*256 + (lsb >> 4)`, less 4096 when that exceeds 2047 |
| Decode.AcclLowNibbleIgnored | bmx055.py:75 | two lsb bytes give the same value for the same msb exactly when their high nibbles agree |
| Decode.AcclExtremes | bmx055.py:75-77 | (0x00, 0x08) gives the minimum -2048; (0xF0, 0xFF) gives the maximum 61199; (0xF0, 0x07) gives 1807 |
| Decode.AcclVersusTwelveBit | bmx055.py:74-78 | the value equals the 12-bit two's-complement reading of `msb << 4 \| lsb >> 4` exactly when msb is 0 |
| Decode.ConvGyro12Bit | bmx055.py:92-96 | the gyroscope value is in [-32778, 32767]; it is non-negative exactly when msb < 128; every negative value is <= -11 |
| Decode.GyroVersusTwosComplement | bmx055.py:93-95 | the value equals the 16-bit two's-complement reading, less 10 exactly when msb >= 128 |
| Decode.GyroInjective | bmx055.py:92-96 | distinct byte pairs never give the same gyroscope value |
| Decode.GyroExamples | bmx055.py:92-96 | (0xFF, 0xFF) gives -11; (0x00, 0x80) gives the minimum -32778; (0xFF, 0x7F) gives 32767 |
| Decode.MagRaw | bmx055.py:102 | `(hi << 8) \| (lo >> 3)` equals `hi*256 + lo/8` (the OR is an addition) |
| Decode.MagXY | bmx055.py:102-108 | X and Y are in [-4096, 57119]; when hi < 32 (every raw value below 8192) they are the 13-bit two's-complement reading of the raw value |
| Decode.MagZ | bmx055.py:110-112 | Z is in [-16384, 32543]; when hi < 128 it is the 15-bit two's-complement reading of the raw value |
| Decode.MagVersusThirteenBit | bmx055.py:102-104 | X equals the 13-bit two's-complement reading of `hi << 5 \| lo >> 3` exactly when hi is 0 |
| Decode.MagLowBitsIgnored | bmx055.py:102-112 | for X, Y and Z, two low bytes give the same value exactly when they agree above their 3 low bits |
| Decode.MagExamples | bmx055.py:102-112 | X of (0xF8, 0x0F) is 3871; Z of (0xFF, 0x7F) is -225; Z of (0xFF, 0xFF) is the maximum 32543 |
| Decode.AcclSample | bmx055.py:64-66 | defined as conv_accl_12bit of byte pairs (0,1), (2,3), (4,5); each axis is >= -2048 |
| Decode.GyroSample | bmx055.py:83-85 | defined as conv_gyro_12bit of byte pairs (0,1), (2,3), (4,5); each axis is in [-32778, 32767] |
| Decode.MagSample | bmx055.py:102-114 | defined as the X, Y and Z arithmetic on bytes (0,1), (2,3), (4,5); X and Y are >= -4096 and Z is >= -16384 |
| Decode.Scale | bmx055.py:68-70 | scaling by a positive factor keeps each axis's sign, and dividing by the factor gives the raw count back |
| Decode.MagIgnoresTrailingBytes | bmx055.py:99-114 | the magnetometer sample does not depend on buffer entries 6 and 7 |
| Protocol.AcclInitSteps | bmx055.py:26-31 | the accelerometer's 3 steps, all to its address, each followed by 100 ms |
| Protocol.GyroInitSteps | bmx055.py:34-39 | the gyroscope's 3 steps, all to its address, followed by 100, 100 and 300 ms |
| Protocol.MagInitSteps | bmx055.py:42-53 | the magnetometer's 6 steps, all to its address, each followed by 100 ms, the first two writing 0x83 then 0x01 to 0x4B |
| Protocol.InitSteps | bmx055.py:25-53 | 12 steps: the first 3 to the accelerometer, the next 3 to the gyroscope, the last 6 to the magnetometer |
| Protocol.InitTrace | bmx055.py:25-53 | the configuration trace has 24 events |
| Protocol.TeardownTrace | bmx055.py:56-59 | teardown is 3 events: the suspend write to register 0x4B first, `Close` last |
| Protocol.ReadBlock | bmx055.py:62-63 | a read loop of n registers is n reads, entry i reading register base+i of its device |
| Protocol.RegisterBlock | bmx055.py:62-63 | n bytes, and reading fewer registers gives a prefix of them |
| Protocol.SensorReadTrace | bmx055.py:116-120 | read_sensor's trace is 20 events, all reads |
| Protocol.Configure | bmx055.py:26-53 | a run of k configuration steps yields 2k events |
| Protocol.ConfigureAt | bmx055.py:26-53 | step i becomes its write at position 2i, then its delay at position 2i+1 |
| Protocol.InitTraceEvents | bmx055.py:26-53 | the configuration trace is exactly the 24 listed events: 12 writes, each followed by its delay |
| Protocol.InitTraceSplit | bmx055.py:25-53 | the configuration trace is the accelerometer block, then the gyroscope block, then the magnetometer block |
| Protocol.AcclConfigureEvents | bmx055.py:25-31 | the accelerometer block is writes 0x03 to 0x0F, 0x08 to 0x10 and 0x00 to 0x11, each followed by 100 ms |
| Protocol.GyroConfigureEvents | bmx055.py:33-39 | the gyroscope block is writes 0x04 to 0x0F, 0x07 to 0x10 and 0x00 to 0x11, followed by 100, 100 and 300 ms |
| Protocol.MagConfigureEvents | bmx055.py:41-53 | the magnetometer block is writes 0x83 then 0x01 to 0x4B, 0x00 to 0x4C, 0x84 to 0x4E, 0x04 to 0x51 and 0x16 to 0x52, each followed by 100 ms |
| Protocol.InitTraceLayout | bmx055.py:26-53 | writes sit exactly at the even positions; every delay is 100 ms except the one after the third gyroscope write, which is 300 ms |
| Protocol.InitSleepTotal | bmx055.py:26-53 | configuration requests 1400 ms of delay in all |
| Protocol.InitWrites | bmx055.py:26-52 | exactly 12 writes, in order: 3 to the accelerometer, 3 to the gyroscope and 6 to the magnetometer, with the listed registers and values |
| Protocol.InitWritesPerDevice | bmx055.py:26-52 | with distinct addresses, each device receives exactly its listed (register, value) pairs, in order |
| Protocol.AcclInitWrites | bmx055.py:26-30 | when its address differs from the other two, the accelerometer receives exactly (0x0F, 0x03), (0x10, 0x08), (0x11, 0x00) |
| Protocol.GyroInitWrites | bmx055.py:34-38 | when its address differs from the other two, the gyroscope receives exactly (0x0F, 0x04), (0x10, 0x07), (0x11, 0x00) |
| Protocol.MagInitWrites | bmx055.py:42-52 | when its address differs from the other two, the magnetometer receives exactly its six (register, value) pairs, the soft reset to 0x4B first |
| Protocol.TeardownObservations | bmx055.py:56-59 | teardown writes only (0x4B, 0x00) to the magnetometer, waits 100 ms in all and closes the bus once |
| Protocol.ReadsOfBlock | bmx055.py:62-63 | one read loop of n registers counts n reads for its device and none for any other |
| Protocol.SensorReadLayout | bmx055.py:116-120 | read_sensor issues 20 reads and nothing else: accelerometer base+0..5, then gyroscope base+0..5, then magnetometer base+0..7, each in increasing order |
| Protocol.SensorReadCounts | bmx055.py:116-120 | with distinct addresses, read_sensor reads 6, 6 and 8 registers of the three devices |
| Protocol.Lifetime | bmx055.py:26-59 | configuration, then any reads, then teardown, close the bus exactly once, as the last event; the only write after configuration is the magnetometer suspend |
| I2C.Bus.constructor | bmx055.py:9 | the bus opens with an empty log |
| I2C.Bus.WriteByteData | bmx055.py:26 | a write appends one `Write` event and changes nothing else |
| I2C.Bus.ReadByteData | bmx055.py:63 | a read returns the device's byte at that register and appends one `Read` event |
| I2C.Bus.Sleep | bmx055.py:27 | a delay appends one `Sleep` event with its duration |
| I2C.Bus.Close | bmx055.py:59 | closing marks the bus closed and appends `Close` |
| Driver.Bmx055.constructor | bmx055.py:7-53 | the fields take the given or default addresses and registers; the buffers are fresh, distinct and zeroed; the bus log is exactly the configuration trace |
| Driver.Bmx055.InitAccl | bmx055.py:25-31 | the accelerometer's three write-then-delay steps, appended in order |
| Driver.Bmx055.InitGyro | bmx055.py:33-39 | the gyroscope's three steps, the last followed by 300 ms |
| Driver.Bmx055.InitMag | bmx055.py:41-53 | the magnetometer's six steps, appended in order |
| Driver.Bmx055.Finalize | bmx055.py:56-59 | teardown appends the suspend write to register 0x4B, a 100 ms delay and `Close`, leaves the bus closed, and changes nothing else (the register map is outside its frame) |
| Driver.Bmx055.ReadRegisters | bmx055.py:62-63 | entry i of the buffer becomes register base+i of the device; the registers are read in increasing order |
| Driver.Bmx055.LogStartsWithConfiguration | bmx055.py:25-63 | for any valid driver, the log begins with the 24 configuration events and continues with reads only, so every configuration write precedes every register read |
| Driver.Bmx055.ReadsKeepValid | bmx055.py:62-63 | appending reads to a log that is the configuration followed by reads keeps that shape |
| Driver.Bmx055.ReadAccl | bmx055.py:61-72 | fills acclTmp from the 6 registers at acclReg and returns the decoded sample times g; only acclTmp and the log change; the driver invariant is kept |
| Driver.Bmx055.ReadGyro | bmx055.py:80-90 | fills gyroTmp from the 6 registers at gyroReg and returns the decoded sample times s; only gyroTmp and the log change; the driver invariant is kept |
| Driver.Bmx055.ReadMag | bmx055.py:98-114 | fills magTmp from the 8 registers at magReg and returns the decoded X, Y, Z; only magTmp and the log change; the driver invariant is kept |
| Driver.Bmx055.ReadSensor | bmx055.py:116-120 | returns (accelerometer, gyroscope, magnetometer) decoded from the current registers, leaves each scratch buffer holding its own sensor's registers, and logs the accelerometer, then gyroscope, then magnetometer reads |

## Left out

- The smbus2 transport is abstracted as a register map plus an event log. It
  is a foreign library, so its failures and exceptions are not modelled, and
  the bus number passed to `SMBus(1)` is not kept.
- Writes do not change the register map: the devices' response to
  configuration is not visible to the driver.
- Driver.Bmx055.ReadSensor: the register map stays fixed for the whole of
  one driver call, so the three samples, and the 6 or 8 bytes of each read
  loop, come from one snapshot. A real device can update its data registers
  between the 20 reads read_sensor issues one after another; that is not
  modelled. Nothing in the model changes the map between calls either.
- `time.sleep` is recorded as a requested duration in whole milliseconds.
  Real elapsed time is not modelled.
- The `* self.g` and `* self.s` scaling (`Scale`) is exact real
  multiplication. Python's floating-point rounding is not modelled.
- `conv_accl_12bit` returns a Python float because of `/ 16`. The division is
  exact, so the model returns the same value as an integer.
- The numpy `dtype=int` buffers are arrays of bytes, because only register
  bytes are ever stored in them.
- Driver.Bmx055.Finalize: it requires an open bus, so a second call is not
  modelled. Python runs `__del__` once per object, and the code has no guard
  for a second call. When the finalizer runs is not modelled, nor the path
  where the suspend write raises and the sleep and close are skipped.
- Register and address ranges (7-bit addresses, `base + i` fitting in a
  byte) are not checked, because the driver does not check them.
- The `__main__` block, the 2000-sample loop, numpy rounding and CSV/print
  output, is I/O and float rounding and is left out.
