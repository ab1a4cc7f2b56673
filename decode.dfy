/** The raw-sample decoders of the BMX055 driver: how each sub-sensor's
    register bytes are put back together into a signed axis value
    (bmx055.py, conv_accl_12bit, conv_gyro_12bit and the arithmetic of
    read_mag). They are modelled exactly as written, including the three
    places where the code departs from a plain two's-complement reading: the
    accelerometer's `msb * 256`, the magnetometer's `<< 8` and the gyroscope's
    65546. */
module Decode {
  import opened Bits

  /** One reading of the three axes. */
  datatype Vec3<T> = Vec3(x: T, y: T, z: T)

  /** Reference definition: the two's-complement reading of an unsigned value whose
      sign bit has weight `half` (2048 for 12 bits, 32768 for 16 bits). */
  function Signed(raw: nat, half: nat): (r: int)
    requires raw < 2 * half
    ensures -(half as int) <= r < half
    ensures r == raw || r == raw - 2 * half
  {
    if raw >= half then raw - 2 * half else raw
  }

  // ---------------------------------------------------------------- accelerometer

  /** conv_accl_12bit: the byte pair with the low nibble of `lsb` masked off
      (`(lsb & 0xF0) / 16`, an exact division), sign-corrected above 2047. */
  function ConvAccl12Bit(lsb: byte, msb: byte): (r: int)
    ensures -2048 <= r <= 61199
    ensures msb <= 7 ==> 0 <= r <= 1807
    ensures r < 0 ==> msb >= 8
  {
    var val := msb * 256 + And(lsb, 0xF0) / 16;
    if val > 2047 then val - 4096 else val
  }

  /** The accelerometer value is `msb*256 + (lsb >> 4)`, less 4096 above 2047. */
  lemma AcclClosedForm(lsb: byte, msb: byte)
    ensures ConvAccl12Bit(lsb, msb) ==
            (var v := msb * 256 + Shr(lsb, 4); if v > 2047 then v - 4096 else v)
  {
    HighNibble(lsb);
    ShrSmall(lsb);
    assert And(lsb, 0xF0) / 16 == lsb / 16;
  }

  /** The low nibble of `lsb` never matters, and its high nibble always does. */
  lemma AcclLowNibbleIgnored(lsb1: byte, lsb2: byte, msb: byte)
    ensures ConvAccl12Bit(lsb1, msb) == ConvAccl12Bit(lsb2, msb) <==> lsb1 / 16 == lsb2 / 16
  {
    AcclClosedForm(lsb1, msb);
    AcclClosedForm(lsb2, msb);
    ShrSmall(lsb1);
    ShrSmall(lsb2);
  }

  /** The extremes over all byte pairs: -2048 at (0x00, 0x08) and 61199 at (0xF0, 0xFF);
      with msb = 7 the largest value is 1807, reached at lsb = 0xF0. */
  lemma AcclExtremes()
    ensures ConvAccl12Bit(0x00, 0x08) == -2048
    ensures ConvAccl12Bit(0xF0, 0xFF) == 61199
    ensures ConvAccl12Bit(0xF0, 0x07) == 1807
  {
    HighNibble(0x00);
    HighNibble(0xF0);
  }

  /** Against the 12-bit two's-complement reading of the left-justified sample
      (`msb << 4 | lsb >> 4`): the code agrees with it only when msb is zero. */
  lemma AcclVersusTwelveBit(lsb: byte, msb: byte)
    ensures ConvAccl12Bit(lsb, msb) == Signed(msb * 16 + lsb / 16, 2048) <==> msb == 0
  {
    AcclClosedForm(lsb, msb);
    ShrSmall(lsb);
  }

  // ---------------------------------------------------------------- gyroscope

  /** conv_gyro_12bit: the full 16-bit byte pair, less 65546 (not 65536) above 32767.
      No result falls in [-10, -1]. */
  function ConvGyro12Bit(lsb: byte, msb: byte): (r: int)
    ensures -32778 <= r <= 32767
    ensures r >= 0 <==> msb < 128
    ensures r < 0 ==> r <= -11
  {
    var val := msb * 256 + lsb;
    if val > 32767 then val - 65546 else val
  }

  /** Against the 16-bit two's-complement reading: equal for non-negative readings,
      exactly 10 lower for negative ones. */
  lemma GyroVersusTwosComplement(lsb: byte, msb: byte)
    ensures ConvGyro12Bit(lsb, msb) ==
            Signed(msb * 256 + lsb, 32768) - (if msb >= 128 then 10 else 0)
  {
  }

  /** Different byte pairs always give different gyroscope values. */
  lemma GyroInjective(lsb1: byte, msb1: byte, lsb2: byte, msb2: byte)
    requires ConvGyro12Bit(lsb1, msb1) == ConvGyro12Bit(lsb2, msb2)
    ensures lsb1 == lsb2 && msb1 == msb2
  {
  }

  /** (0xFF, 0xFF) reads -11, not -1; the extremes are (0x00, 0x80) and (0xFF, 0x7F). */
  lemma GyroExamples()
    ensures ConvGyro12Bit(0xFF, 0xFF) == -11
    ensures ConvGyro12Bit(0x00, 0x80) == -32778
    ensures ConvGyro12Bit(0xFF, 0x7F) == 32767
  {
  }

  // ---------------------------------------------------------------- magnetometer

  /** The unsigned value `(hi << 8) | (lo >> 3)` read_mag builds for each axis. */
  function MagRaw(lo: byte, hi: byte): (r: nat)
    ensures r == hi * 256 + lo / 8
  {
    ShrSmall(lo);
    assert Pow2(8) == 256;
    OrDisjoint(hi, Shr(lo, 3), 8);
    Or(Shl(hi, 8), Shr(lo, 3))
  }

  /** read_mag's X and Y: the raw value less 8192 above 4095. */
  function MagXY(lo: byte, hi: byte): (r: int)
    ensures -4096 <= r <= 57119
    ensures hi < 32 ==> r == Signed(MagRaw(lo, hi), 4096)
  {
    var raw := MagRaw(lo, hi);
    if raw > 4095 then raw - 8192 else raw
  }

  /** read_mag's Z: the raw value less 32768 above 16383. */
  function MagZ(lo: byte, hi: byte): (r: int)
    ensures -16384 <= r <= 32543
    ensures hi < 128 ==> r == Signed(MagRaw(lo, hi), 16384)
  {
    var raw := MagRaw(lo, hi);
    if raw > 16383 then raw - 32768 else raw
  }

  /** Against the 13-bit two's-complement reading of `hi << 5 | lo >> 3`: X and Y agree
      with it only when hi is zero. */
  lemma MagVersusThirteenBit(lo: byte, hi: byte)
    ensures MagXY(lo, hi) == Signed(hi * 32 + lo / 8, 4096) <==> hi == 0
  {
  }

  /** The low three bits of `lo` never matter for X, Y or Z, and the other five always do. */
  lemma MagLowBitsIgnored(lo1: byte, lo2: byte, hi: byte)
    ensures MagXY(lo1, hi) == MagXY(lo2, hi) <==> lo1 / 8 == lo2 / 8
    ensures MagZ(lo1, hi) == MagZ(lo2, hi) <==> lo1 / 8 == lo2 / 8
  {
  }

  /** X with (0xF8, 0x0F) reads 3871 (no correction); Z with (0xFF, 0x7F) reads -225. */
  lemma MagExamples()
    ensures MagXY(0xF8, 0x0F) == 3871
    ensures MagZ(0xFF, 0x7F) == -225
    ensures MagZ(0xFF, 0xFF) == 32543
  {
    var x, z, zmax := MagRaw(0xF8, 0x0F), MagRaw(0xFF, 0x7F), MagRaw(0xFF, 0xFF);
    assert x == 3871 && z == 32543 && zmax == 65311;
  }

  // ---------------------------------------------------------------- whole samples

  /** The three accelerometer axes from the six bytes read at the base register. */
  function AcclSample(b: seq<byte>): (v: Vec3<int>)
    requires |b| == 6
    ensures v.x >= -2048 && v.y >= -2048 && v.z >= -2048
  {
    Vec3(ConvAccl12Bit(b[0], b[1]), ConvAccl12Bit(b[2], b[3]), ConvAccl12Bit(b[4], b[5]))
  }

  /** The three gyroscope axes from the six bytes read at the base register. */
  function GyroSample(b: seq<byte>): (v: Vec3<int>)
    requires |b| == 6
    ensures -32778 <= v.x <= 32767 && -32778 <= v.y <= 32767 && -32778 <= v.z <= 32767
  {
    Vec3(ConvGyro12Bit(b[0], b[1]), ConvGyro12Bit(b[2], b[3]), ConvGyro12Bit(b[4], b[5]))
  }

  /** The three magnetometer axes from the eight bytes read at the base register;
      the last two bytes are not used. */
  function MagSample(b: seq<byte>): (v: Vec3<int>)
    requires |b| == 8
    ensures v.x >= -4096 && v.y >= -4096 && v.z >= -16384
  {
    Vec3(MagXY(b[0], b[1]), MagXY(b[2], b[3]), MagZ(b[4], b[5]))
  }

  /** The magnetometer sample depends only on the first six bytes of the buffer. */
  lemma MagIgnoresTrailingBytes(b1: seq<byte>, b2: seq<byte>)
    requires |b1| == 8 && |b2| == 8 && b1[..6] == b2[..6]
    ensures MagSample(b1) == MagSample(b2)
  {
    assert forall i :: 0 <= i < 6 ==> b1[i] == b1[..6][i] && b2[i] == b2[..6][i];
  }

  /** Multiplication of a raw sample by a scale factor (`x * self.g`), in exact reals. */
  function Scale(v: Vec3<int>, k: real): (r: Vec3<real>)
    ensures k > 0.0 ==> (r.x < 0.0 <==> v.x < 0) && (r.y < 0.0 <==> v.y < 0) && (r.z < 0.0 <==> v.z < 0)
    ensures k != 0.0 ==> r.x / k == v.x as real && r.y / k == v.y as real && r.z / k == v.z as real
  {
    Vec3(v.x as real * k, v.y as real * k, v.z as real * k)
  }
}
