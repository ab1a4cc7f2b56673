/** The bmx055 driver object: the three device addresses and base registers,
    the bus it owns, and three scratch buffers (6, 6 and 8 entries) that every
    read overwrites in place before decoding. */
module Driver {
  import opened Bits
  import opened Decode
  import opened Protocol
  import I2C

  class Bmx055 {
    const i2c: I2C.Bus
    const acclAddr: int
    const gyroAddr: int
    const magAddr: int
    const acclReg: int
    const gyroReg: int
    const magReg: int

    /** The configuration trace `__init__` produced; every later event is a read. */
    ghost const initLog: seq<Event>

    const acclTmp: array<byte>
    const gyroTmp: array<byte>
    const magTmp: array<byte>

    /** Scale factors: g per count for the +/- 2g range, degree/s per count for +/- 125 degree/s. */
    const g: real := 0.00098
    const s: real := 0.0038

    /** The bus is open, the buffers have their sizes and are distinct, and the bus log is
        the full configuration sequence followed by nothing but reads. */
    ghost predicate Valid()
      reads this, i2c
    {
      && i2c.isOpen
      && acclTmp.Length == 6 && gyroTmp.Length == 6 && magTmp.Length == 8
      && acclTmp != gyroTmp && gyroTmp != magTmp && acclTmp != magTmp
      && initLog == InitTrace(acclAddr, gyroAddr, magAddr)
      && Logged(initLog, i2c.trace)
    }

    /** `__init__`: open the bus, zero the buffers, then configure the accelerometer,
        the gyroscope and the magnetometer in that order, settling after every write. */
    constructor (regs: (int, int) -> byte,
                 acclAddr: int := 0x19, gyroAddr: int := 0x69, magAddr: int := 0x13,
                 acclReg: int := 0x02, gyroReg: int := 0x02, magReg: int := 0x42)
      ensures Valid()
      ensures fresh(i2c) && fresh(acclTmp) && fresh(gyroTmp) && fresh(magTmp)
      ensures this.acclAddr == acclAddr && this.gyroAddr == gyroAddr && this.magAddr == magAddr
      ensures this.acclReg == acclReg && this.gyroReg == gyroReg && this.magReg == magReg
      ensures i2c.regs == regs
      ensures i2c.trace == initLog == InitTrace(acclAddr, gyroAddr, magAddr)
      ensures acclTmp[..] == [0, 0, 0, 0, 0, 0] && gyroTmp[..] == [0, 0, 0, 0, 0, 0]
      ensures magTmp[..] == [0, 0, 0, 0, 0, 0, 0, 0]
    {
      i2c := new I2C.Bus(regs);
      this.acclAddr, this.gyroAddr, this.magAddr := acclAddr, gyroAddr, magAddr;
      this.acclReg, this.gyroReg, this.magReg := acclReg, gyroReg, magReg;
      acclTmp := new byte[6](_ => 0);
      gyroTmp := new byte[6](_ => 0);
      magTmp := new byte[8](_ => 0);
      initLog := InitTrace(acclAddr, gyroAddr, magAddr);
      new;
      InitAccl();
      InitGyro();
      InitMag();
      InitTraceSplit(acclAddr, gyroAddr, magAddr);
      assert i2c.trace[..|initLog|] == i2c.trace && i2c.trace[|initLog|..] == [];
    }

    /** The "Init Accl" block of `__init__`: range +/- 2g, bandwidth 7.81 Hz, normal mode.
        Inline code of `__init__` in the driver; only the constructor calls it. */
    method InitAccl()
      requires i2c.isOpen
      modifies i2c`trace
      ensures i2c.trace == old(i2c.trace) + Configure(AcclInitSteps(acclAddr))
    {
      i2c.WriteByteData(acclAddr, 0x0F, 0x03);
      i2c.Sleep(100);
      i2c.WriteByteData(acclAddr, 0x10, 0x08);
      i2c.Sleep(100);
      i2c.WriteByteData(acclAddr, 0x11, 0x00);
      i2c.Sleep(100);
      AcclConfigureEvents(acclAddr);
    }

    /** The "Init Gyro" block: full scale +/- 125 degree/s, 100 Hz, normal mode, then 300 ms.
        Inline code of `__init__` in the driver; only the constructor calls it. */
    method InitGyro()
      requires i2c.isOpen
      modifies i2c`trace
      ensures i2c.trace == old(i2c.trace) + Configure(GyroInitSteps(gyroAddr))
    {
      i2c.WriteByteData(gyroAddr, 0x0F, 0x04);
      i2c.Sleep(100);
      i2c.WriteByteData(gyroAddr, 0x10, 0x07);
      i2c.Sleep(100);
      i2c.WriteByteData(gyroAddr, 0x11, 0x00);
      i2c.Sleep(300);
      GyroConfigureEvents(gyroAddr);
    }

    /** The "Init Mag" block: two-stage soft reset, normal mode at 10 Hz, X/Y/Z enabled,
        X-Y repetitions, Z repetitions. Inline code of `__init__` in the driver; only the
        constructor calls it. */
    method InitMag()
      requires i2c.isOpen
      modifies i2c`trace
      ensures i2c.trace == old(i2c.trace) + Configure(MagInitSteps(magAddr))
    {
      i2c.WriteByteData(magAddr, 0x4B, 0x83);
      i2c.Sleep(100);
      i2c.WriteByteData(magAddr, 0x4B, 0x01);
      i2c.Sleep(100);
      i2c.WriteByteData(magAddr, 0x4C, 0x00);
      i2c.Sleep(100);
      i2c.WriteByteData(magAddr, 0x4E, 0x84);
      i2c.Sleep(100);
      i2c.WriteByteData(magAddr, 0x51, 0x04);
      i2c.Sleep(100);
      i2c.WriteByteData(magAddr, 0x52, 0x16);
      i2c.Sleep(100);
      MagConfigureEvents(magAddr);
    }

    /** `__del__`: suspend the magnetometer, wait 100 ms, close the bus. */
    method Finalize()
      requires Valid()
      modifies i2c`isOpen, i2c`trace
      ensures !i2c.isOpen
      ensures i2c.trace == old(i2c.trace) + TeardownTrace(magAddr)
    {
      i2c.WriteByteData(magAddr, 0x4B, 0x00);  // suspend mode
      i2c.Sleep(100);
      i2c.Close();
    }

    /** The `for i in range(n)` loop shared by the three reads: entry i of `tmp` becomes
        register base + i of `addr`, read in increasing order. */
    method ReadRegisters(addr: int, base: int, tmp: array<byte>)
      requires i2c.isOpen
      modifies tmp, i2c`trace
      ensures tmp[..] == RegisterBlock(i2c.regs, addr, base, tmp.Length)
      ensures i2c.trace == old(i2c.trace) + ReadBlock(addr, base, tmp.Length)
    {
      for i := 0 to tmp.Length
        invariant tmp[..i] == RegisterBlock(i2c.regs, addr, base, i)
        invariant i2c.trace == old(i2c.trace) + ReadBlock(addr, base, i)
      {
        tmp[i] := i2c.ReadByteData(addr, base + i);
        assert ReadBlock(addr, base, i + 1) == ReadBlock(addr, base, i) + [Read(addr, base + i)];
      }
    }

    /** A valid driver's log is the 24 configuration events, then nothing but reads: every
        configuration write of `__init__` precedes every register read. */
    lemma LogStartsWithConfiguration()
      requires Valid()
      ensures |i2c.trace| >= 24 && i2c.trace[..24] == InitTrace(acclAddr, gyroAddr, magAddr)
      ensures OnlyReads(i2c.trace[24..])
    {
    }

    /** Appending reads keeps the configuration prefix and the reads-only suffix. */
    lemma ReadsKeepValid(before: seq<Event>, added: seq<Event>)
      requires |initLog| <= |before| && before[..|initLog|] == initLog
      requires OnlyReads(before[|initLog|..]) && OnlyReads(added)
      ensures (before + added)[..|initLog|] == initLog
      ensures OnlyReads((before + added)[|initLog|..])
    {
      assert (before + added)[|initLog|..] == before[|initLog|..] + added;
    }

    /** read_accl: fill acclTmp from the six registers at acclReg, decode, scale by g. */
    method ReadAccl() returns (v: Vec3<real>)
      requires Valid()
      modifies acclTmp, i2c`trace
      ensures Valid()
      ensures acclTmp[..] == RegisterBlock(i2c.regs, acclAddr, acclReg, 6)
      ensures v == Scale(AcclSample(acclTmp[..]), g)
      ensures i2c.trace == old(i2c.trace) + ReadBlock(acclAddr, acclReg, 6)
    {
      ReadRegisters(acclAddr, acclReg, acclTmp);
      ReadsKeepValid(old(i2c.trace), ReadBlock(acclAddr, acclReg, 6));
      var x := ConvAccl12Bit(acclTmp[0], acclTmp[1]);
      var y := ConvAccl12Bit(acclTmp[2], acclTmp[3]);
      var z := ConvAccl12Bit(acclTmp[4], acclTmp[5]);
      assert AcclSample(acclTmp[..]) == Vec3(x, y, z);
      v := Scale(Vec3(x, y, z), g);
    }

    /** read_gyro: fill gyroTmp from the six registers at gyroReg, decode, scale by s. */
    method ReadGyro() returns (v: Vec3<real>)
      requires Valid()
      modifies gyroTmp, i2c`trace
      ensures Valid()
      ensures gyroTmp[..] == RegisterBlock(i2c.regs, gyroAddr, gyroReg, 6)
      ensures v == Scale(GyroSample(gyroTmp[..]), s)
      ensures i2c.trace == old(i2c.trace) + ReadBlock(gyroAddr, gyroReg, 6)
    {
      ReadRegisters(gyroAddr, gyroReg, gyroTmp);
      ReadsKeepValid(old(i2c.trace), ReadBlock(gyroAddr, gyroReg, 6));
      var x := ConvGyro12Bit(gyroTmp[0], gyroTmp[1]);
      var y := ConvGyro12Bit(gyroTmp[2], gyroTmp[3]);
      var z := ConvGyro12Bit(gyroTmp[4], gyroTmp[5]);
      assert GyroSample(gyroTmp[..]) == Vec3(x, y, z);
      v := Scale(Vec3(x, y, z), s);
    }

    /** read_mag: fill magTmp from the eight registers at magReg and decode the first six. */
    method ReadMag() returns (v: Vec3<int>)
      requires Valid()
      modifies magTmp, i2c`trace
      ensures Valid()
      ensures magTmp[..] == RegisterBlock(i2c.regs, magAddr, magReg, 8)
      ensures v == MagSample(magTmp[..])
      ensures i2c.trace == old(i2c.trace) + ReadBlock(magAddr, magReg, 8)
    {
      ReadRegisters(magAddr, magReg, magTmp);
      ReadsKeepValid(old(i2c.trace), ReadBlock(magAddr, magReg, 8));
      var x := MagXY(magTmp[0], magTmp[1]);
      var y := MagXY(magTmp[2], magTmp[3]);
      var z := MagZ(magTmp[4], magTmp[5]);
      v := Vec3(x, y, z);
      assert MagSample(magTmp[..]) == v;
    }

    /** read_sensor: accelerometer, then gyroscope, then magnetometer. */
    method ReadSensor() returns (accl: Vec3<real>, gyro: Vec3<real>, mag: Vec3<int>)
      requires Valid()
      modifies acclTmp, gyroTmp, magTmp, i2c`trace
      ensures Valid()
      ensures accl == Scale(AcclSample(RegisterBlock(i2c.regs, acclAddr, acclReg, 6)), g)
      ensures gyro == Scale(GyroSample(RegisterBlock(i2c.regs, gyroAddr, gyroReg, 6)), s)
      ensures mag == MagSample(RegisterBlock(i2c.regs, magAddr, magReg, 8))
      ensures acclTmp[..] == RegisterBlock(i2c.regs, acclAddr, acclReg, 6)
      ensures gyroTmp[..] == RegisterBlock(i2c.regs, gyroAddr, gyroReg, 6)
      ensures magTmp[..] == RegisterBlock(i2c.regs, magAddr, magReg, 8)
      ensures i2c.trace ==
              old(i2c.trace) + SensorReadTrace(acclAddr, acclReg, gyroAddr, gyroReg, magAddr, magReg)
    {
      ghost var before, regs := i2c.trace, i2c.regs;
      accl := ReadAccl();
      assert accl == Scale(AcclSample(RegisterBlock(regs, acclAddr, acclReg, 6)), g);
      gyro := ReadGyro();
      assert gyro == Scale(GyroSample(RegisterBlock(regs, gyroAddr, gyroReg, 6)), s);
      mag := ReadMag();
      assert i2c.regs == regs;
      SensorReadAppend(before, acclAddr, acclReg, gyroAddr, gyroReg, magAddr, magReg);
    }
  }
}
