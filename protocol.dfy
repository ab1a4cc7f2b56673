/** The register protocol of the driver as a trace of bus events: the
    configuration sequence of `__init__`, the consecutive register reads of
    read_accl, read_gyro and read_mag, and the teardown of `__del__`. Sleep
    requests are kept in the same trace, in milliseconds, so that ordering
    facts between writes and delays can be stated. */
module Protocol {
  import opened Bits

  /** One observable action of the driver on the I2C bus or the clock. */
  datatype Event =
    | Write(addr: int, reg: int, val: byte)
    | Read(addr: int, reg: int)
    | Sleep(ms: nat)
    | Close

  /** One configuration step of `__init__`: a register write and the settle delay after it. */
  datatype Step = Step(addr: int, reg: int, val: byte, ms: nat)

  /** Range +/- 2g, bandwidth 7.81 Hz, normal mode. */
  function AcclInitSteps(accl: int): (steps: seq<Step>)
    ensures |steps| == 3
    ensures forall i :: 0 <= i < |steps| ==> steps[i].addr == accl && steps[i].ms == 100
  {
    [Step(accl, 0x0F, 0x03, 100), Step(accl, 0x10, 0x08, 100), Step(accl, 0x11, 0x00, 100)]
  }

  /** Full scale +/- 125 degree/s, 100 Hz, normal mode; the last step settles for 300 ms. */
  function GyroInitSteps(gyro: int): (steps: seq<Step>)
    ensures |steps| == 3
    ensures forall i :: 0 <= i < |steps| ==> steps[i].addr == gyro
    ensures steps[|steps| - 1].ms == 300 && forall i :: 0 <= i < |steps| - 1 ==> steps[i].ms == 100
  {
    [Step(gyro, 0x0F, 0x04, 100), Step(gyro, 0x10, 0x07, 100), Step(gyro, 0x11, 0x00, 300)]
  }

  /** Two-stage soft reset, normal mode at 10 Hz, X/Y/Z enabled, X-Y and Z repetitions. */
  function MagInitSteps(mag: int): (steps: seq<Step>)
    ensures |steps| == 6
    ensures forall i :: 0 <= i < |steps| ==> steps[i].addr == mag && steps[i].ms == 100
    ensures steps[0].reg == steps[1].reg == 0x4B && steps[0].val == 0x83 && steps[1].val == 0x01
  {
    [Step(mag, 0x4B, 0x83, 100), Step(mag, 0x4B, 0x01, 100), Step(mag, 0x4C, 0x00, 100),
     Step(mag, 0x4E, 0x84, 100), Step(mag, 0x51, 0x04, 100), Step(mag, 0x52, 0x16, 100)]
  }

  /** The whole configuration table: 3 accelerometer steps, 3 gyroscope steps, 6 magnetometer steps. */
  function InitSteps(accl: int, gyro: int, mag: int): (steps: seq<Step>)
    ensures |steps| == 12
    ensures forall i :: 0 <= i < |steps| ==>
              steps[i].addr == (if i < 3 then accl else if i < 6 then gyro else mag)
  {
    AcclInitSteps(accl) + GyroInitSteps(gyro) + MagInitSteps(mag)
  }

  /** The events of a run of configuration steps: each write, then its delay. */
  function Configure(steps: seq<Step>): (t: seq<Event>)
    ensures |t| == 2 * |steps|
  {
    if steps == [] then []
    else [Write(steps[0].addr, steps[0].reg, steps[0].val), Sleep(steps[0].ms)] + Configure(steps[1..])
  }

  /** Everything `__init__` does on the bus and the clock. */
  function InitTrace(accl: int, gyro: int, mag: int): (t: seq<Event>)
    ensures |t| == 24
  {
    Configure(InitSteps(accl, gyro, mag))
  }

  /** What `__del__` does: suspend the magnetometer, wait, release the bus. */
  function TeardownTrace(mag: int): (t: seq<Event>)
    ensures |t| == 3 && t[0] == Write(mag, 0x4B, 0x00) && t[|t| - 1] == Close
  {
    [Write(mag, 0x4B, 0x00), Sleep(100), Close]
  }

  /** The reads of one `for i in range(n)` loop: register base + i of `addr`, in order. */
  function ReadBlock(addr: int, base: int, n: nat): (t: seq<Event>)
    ensures |t| == n && OnlyReads(t)
    ensures forall i :: 0 <= i < n ==> t[i].addr == addr && t[i].reg == base + i
  {
    seq(n, i => Read(addr, base + i))
  }

  /** The bytes a device holds in n consecutive registers from `base`. */
  function RegisterBlock(regs: (int, int) -> byte, addr: int, base: int, n: nat): (b: seq<byte>)
    ensures |b| == n
    ensures forall m :: 0 <= m <= n ==> RegisterBlock(regs, addr, base, m) == b[..m]
  {
    seq(n, i => regs(addr, base + i))
  }

  /** The reads of read_sensor: accelerometer, then gyroscope, then magnetometer. */
  function SensorReadTrace(accl: int, acclReg: int, gyro: int, gyroReg: int, mag: int, magReg: int): (t: seq<Event>)
    ensures |t| == 20 && OnlyReads(t)
  {
    ReadBlock(accl, acclReg, 6) + ReadBlock(gyro, gyroReg, 6) + ReadBlock(mag, magReg, 8)
  }

  /** Logging the three blocks one after another logs the read_sensor trace. */
  lemma SensorReadAppend(before: seq<Event>, accl: int, acclReg: int, gyro: int, gyroReg: int, mag: int, magReg: int)
    ensures before + ReadBlock(accl, acclReg, 6) + ReadBlock(gyro, gyroReg, 6) + ReadBlock(mag, magReg, 8)
            == before + SensorReadTrace(accl, acclReg, gyro, gyroReg, mag, magReg)
  {
  }

  // ---------------------------------------------------------------- observations on traces

  /** A log that starts with `init` and continues with nothing but reads. */
  ghost predicate Logged(init: seq<Event>, t: seq<Event>)
  {
    |init| <= |t| && t[..|init|] == init && OnlyReads(t[|init|..])
  }

  predicate OnlyReads(t: seq<Event>)
  {
    forall i :: 0 <= i < |t| ==> t[i].Read?
  }

  /** The write events of a trace, in order. */
  function Writes(t: seq<Event>): (w: seq<Event>)
    ensures |w| <= |t|
    ensures forall i :: 0 <= i < |w| ==> w[i].Write?
  {
    if t == [] then []
    else (if t[0].Write? then [t[0]] else []) + Writes(t[1..])
  }

  /** The (register, value) pairs written to one device, in order. */
  function WritesTo(t: seq<Event>, addr: int): seq<(int, byte)>
  {
    if t == [] then []
    else (if t[0].Write? && t[0].addr == addr then [(t[0].reg, t[0].val)] else []) + WritesTo(t[1..], addr)
  }

  /** The number of reads addressed to one device. */
  function ReadsTo(t: seq<Event>, addr: int): nat
  {
    if t == [] then 0
    else (if t[0].Read? && t[0].addr == addr then 1 else 0) + ReadsTo(t[1..], addr)
  }

  /** The total delay requested, in milliseconds. */
  function TotalSleep(t: seq<Event>): nat
  {
    if t == [] then 0
    else (if t[0].Sleep? then t[0].ms else 0) + TotalSleep(t[1..])
  }

  function Closes(t: seq<Event>): nat
  {
    if t == [] then 0
    else (if t[0].Close? then 1 else 0) + Closes(t[1..])
  }

  // ---------------------------------------------------------------- lemmas

  lemma {:induction false} ConfigureAt(steps: seq<Step>, i: nat)
    requires i < |steps|
    ensures Configure(steps)[2 * i] == Write(steps[i].addr, steps[i].reg, steps[i].val)
    ensures Configure(steps)[2 * i + 1] == Sleep(steps[i].ms)
  {
    if i > 0 {
      ConfigureAt(steps[1..], i - 1);
    }
  }

  lemma {:induction false} ConfigureAppend(s1: seq<Step>, s2: seq<Step>)
    ensures Configure(s1 + s2) == Configure(s1) + Configure(s2)
  {
    if s1 == [] {
      assert s1 + s2 == s2;
    } else {
      assert (s1 + s2)[0] == s1[0] && (s1 + s2)[1..] == s1[1..] + s2;
      ConfigureAppend(s1[1..], s2);
    }
  }

  /** Each observation of a concatenated trace is the sum, or the concatenation, of the
      observations of its two parts. */
  lemma {:induction false} WritesAppend(t1: seq<Event>, t2: seq<Event>)
    ensures Writes(t1 + t2) == Writes(t1) + Writes(t2)
  {
    if t1 == [] {
      assert t1 + t2 == t2;
    } else {
      assert (t1 + t2)[0] == t1[0] && (t1 + t2)[1..] == t1[1..] + t2;
      WritesAppend(t1[1..], t2);
    }
  }

  lemma {:induction false} WritesToAppend(t1: seq<Event>, t2: seq<Event>, addr: int)
    ensures WritesTo(t1 + t2, addr) == WritesTo(t1, addr) + WritesTo(t2, addr)
  {
    if t1 == [] {
      assert t1 + t2 == t2;
    } else {
      assert (t1 + t2)[0] == t1[0] && (t1 + t2)[1..] == t1[1..] + t2;
      WritesToAppend(t1[1..], t2, addr);
    }
  }

  lemma {:induction false} ReadsToAppend(t1: seq<Event>, t2: seq<Event>, addr: int)
    ensures ReadsTo(t1 + t2, addr) == ReadsTo(t1, addr) + ReadsTo(t2, addr)
  {
    if t1 == [] {
      assert t1 + t2 == t2;
    } else {
      assert (t1 + t2)[0] == t1[0] && (t1 + t2)[1..] == t1[1..] + t2;
      ReadsToAppend(t1[1..], t2, addr);
    }
  }

  lemma {:induction false} TotalSleepAppend(t1: seq<Event>, t2: seq<Event>)
    ensures TotalSleep(t1 + t2) == TotalSleep(t1) + TotalSleep(t2)
  {
    if t1 == [] {
      assert t1 + t2 == t2;
    } else {
      assert (t1 + t2)[0] == t1[0] && (t1 + t2)[1..] == t1[1..] + t2;
      TotalSleepAppend(t1[1..], t2);
    }
  }

  lemma {:induction false} ClosesAppend(t1: seq<Event>, t2: seq<Event>)
    ensures Closes(t1 + t2) == Closes(t1) + Closes(t2)
  {
    if t1 == [] {
      assert t1 + t2 == t2;
    } else {
      assert (t1 + t2)[0] == t1[0] && (t1 + t2)[1..] == t1[1..] + t2;
      ClosesAppend(t1[1..], t2);
    }
  }

  /** `__init__` is 12 write-then-sleep pairs: writes at even positions, sleeps of
      100 ms after each, except 300 ms after the third gyroscope write. */
  lemma InitTraceLayout(accl: int, gyro: int, mag: int)
    ensures |InitTrace(accl, gyro, mag)| == 24
    ensures forall i :: 0 <= i < 24 ==> (InitTrace(accl, gyro, mag)[i].Write? <==> i % 2 == 0)
    ensures forall i :: 0 <= i < 24 && i % 2 == 1 ==>
              InitTrace(accl, gyro, mag)[i] == Sleep(if i == 11 then 300 else 100)
  {
    var steps := InitSteps(accl, gyro, mag);
    var t := InitTrace(accl, gyro, mag);
    forall i | 0 <= i < 24
      ensures t[i].Write? <==> i % 2 == 0
      ensures i % 2 == 1 ==> t[i] == Sleep(if i == 11 then 300 else 100)
    {
      ConfigureAt(steps, i / 2);
    }
  }

  /** The configuration trace is the three devices' runs of steps, one after another. */
  lemma InitTraceSplit(accl: int, gyro: int, mag: int)
    ensures InitTrace(accl, gyro, mag) ==
            Configure(AcclInitSteps(accl)) + Configure(GyroInitSteps(gyro)) + Configure(MagInitSteps(mag))
  {
    ConfigureAppend(AcclInitSteps(accl), GyroInitSteps(gyro));
    ConfigureAppend(AcclInitSteps(accl) + GyroInitSteps(gyro), MagInitSteps(mag));
  }

  /** Everything `__init__` does, written out: 12 writes, each followed by its delay. */
  lemma InitTraceEvents(accl: int, gyro: int, mag: int)
    ensures InitTrace(accl, gyro, mag) ==
            [Write(accl, 0x0F, 0x03), Sleep(100), Write(accl, 0x10, 0x08), Sleep(100),
             Write(accl, 0x11, 0x00), Sleep(100),
             Write(gyro, 0x0F, 0x04), Sleep(100), Write(gyro, 0x10, 0x07), Sleep(100),
             Write(gyro, 0x11, 0x00), Sleep(300),
             Write(mag, 0x4B, 0x83), Sleep(100), Write(mag, 0x4B, 0x01), Sleep(100),
             Write(mag, 0x4C, 0x00), Sleep(100), Write(mag, 0x4E, 0x84), Sleep(100),
             Write(mag, 0x51, 0x04), Sleep(100), Write(mag, 0x52, 0x16), Sleep(100)]
  {
    InitTraceSplit(accl, gyro, mag);
    AcclConfigureEvents(accl);
    GyroConfigureEvents(gyro);
    MagConfigureEvents(mag);
  }

  /** The events of the accelerometer's configuration, written out. */
  lemma AcclConfigureEvents(accl: int)
    ensures Configure(AcclInitSteps(accl)) ==
            [Write(accl, 0x0F, 0x03), Sleep(100), Write(accl, 0x10, 0x08), Sleep(100),
             Write(accl, 0x11, 0x00), Sleep(100)]
  {
    var steps := AcclInitSteps(accl);
    ConfigureAt(steps, 0); ConfigureAt(steps, 1); ConfigureAt(steps, 2);
  }

  /** The events of the gyroscope's configuration, written out. */
  lemma GyroConfigureEvents(gyro: int)
    ensures Configure(GyroInitSteps(gyro)) ==
            [Write(gyro, 0x0F, 0x04), Sleep(100), Write(gyro, 0x10, 0x07), Sleep(100),
             Write(gyro, 0x11, 0x00), Sleep(300)]
  {
    var steps := GyroInitSteps(gyro);
    ConfigureAt(steps, 0); ConfigureAt(steps, 1); ConfigureAt(steps, 2);
  }

  /** The events of the magnetometer's configuration, written out. */
  lemma MagConfigureEvents(mag: int)
    ensures Configure(MagInitSteps(mag)) ==
            [Write(mag, 0x4B, 0x83), Sleep(100), Write(mag, 0x4B, 0x01), Sleep(100),
             Write(mag, 0x4C, 0x00), Sleep(100), Write(mag, 0x4E, 0x84), Sleep(100),
             Write(mag, 0x51, 0x04), Sleep(100), Write(mag, 0x52, 0x16), Sleep(100)]
  {
    var steps := MagInitSteps(mag);
    ConfigureAt(steps, 0); ConfigureAt(steps, 1); ConfigureAt(steps, 2);
    ConfigureAt(steps, 3); ConfigureAt(steps, 4); ConfigureAt(steps, 5);
  }

  /** `__init__` requests 1.4 s of delay in all. */
  lemma InitSleepTotal(accl: int, gyro: int, mag: int)
    ensures TotalSleep(InitTrace(accl, gyro, mag)) == 1400
  {
    var sa, sg, sm := AcclInitSteps(accl), GyroInitSteps(gyro), MagInitSteps(mag);
    ConfigureAppend(sa, sg);
    ConfigureAppend(sa + sg, sm);
    TotalSleepAppend(Configure(sa), Configure(sg));
    TotalSleepAppend(Configure(sa) + Configure(sg), Configure(sm));
    SleepOfConfigure(sa);
    SleepOfConfigure(sg);
    SleepOfConfigure(sm);
    assert SumMs(sa[2..]) == 100 && SumMs(sa[1..]) == 200 && SumMs(sa) == 300;
    assert SumMs(sg[2..]) == 300 && SumMs(sg[1..]) == 400 && SumMs(sg) == 500;
    assert SumMs(sm[5..]) == 100 && SumMs(sm[4..]) == 200 && SumMs(sm[3..]) == 300;
    assert SumMs(sm[2..]) == 400 && SumMs(sm) == 600;
  }

  /** Sum of the delays of a run of steps. */
  function SumMs(steps: seq<Step>): nat
  {
    if steps == [] then 0 else steps[0].ms + SumMs(steps[1..])
  }

  lemma {:induction false} SleepOfConfigure(steps: seq<Step>)
    ensures TotalSleep(Configure(steps)) == SumMs(steps)
  {
    if steps != [] {
      var head := [Write(steps[0].addr, steps[0].reg, steps[0].val), Sleep(steps[0].ms)];
      TotalSleepAppend(head, Configure(steps[1..]));
      SleepOfConfigure(steps[1..]);
    }
  }

  /** The write events of a run of steps, one per step, in order. */
  lemma {:induction false} WritesOfConfigure(steps: seq<Step>)
    ensures Writes(Configure(steps)) == seq(|steps|, i requires 0 <= i < |steps| => Write(steps[i].addr, steps[i].reg, steps[i].val))
  {
    if steps != [] {
      var head := [Write(steps[0].addr, steps[0].reg, steps[0].val), Sleep(steps[0].ms)];
      WritesAppend(head, Configure(steps[1..]));
      assert Writes(head) == [head[0]];
      WritesOfConfigure(steps[1..]);
    }
  }

  /** `__init__` issues exactly these 12 writes, in this order: 3 to the accelerometer,
      3 to the gyroscope, then 6 to the magnetometer. */
  lemma InitWrites(accl: int, gyro: int, mag: int)
    ensures Writes(InitTrace(accl, gyro, mag)) ==
            [Write(accl, 0x0F, 0x03), Write(accl, 0x10, 0x08), Write(accl, 0x11, 0x00),
             Write(gyro, 0x0F, 0x04), Write(gyro, 0x10, 0x07), Write(gyro, 0x11, 0x00),
             Write(mag, 0x4B, 0x83), Write(mag, 0x4B, 0x01), Write(mag, 0x4C, 0x00),
             Write(mag, 0x4E, 0x84), Write(mag, 0x51, 0x04), Write(mag, 0x52, 0x16)]
  {
    WritesOfConfigure(InitSteps(accl, gyro, mag));
  }

  /** Per device, when the three addresses differ: the (register, value) pairs each one receives. */
  lemma InitWritesPerDevice(accl: int, gyro: int, mag: int)
    requires accl != gyro && gyro != mag && accl != mag
    ensures WritesTo(InitTrace(accl, gyro, mag), accl) == [(0x0F, 0x03), (0x10, 0x08), (0x11, 0x00)]
    ensures WritesTo(InitTrace(accl, gyro, mag), gyro) == [(0x0F, 0x04), (0x10, 0x07), (0x11, 0x00)]
    ensures WritesTo(InitTrace(accl, gyro, mag), mag) ==
            [(0x4B, 0x83), (0x4B, 0x01), (0x4C, 0x00), (0x4E, 0x84), (0x51, 0x04), (0x52, 0x16)]
  {
    AcclInitWrites(accl, gyro, mag);
    GyroInitWrites(accl, gyro, mag);
    MagInitWrites(accl, gyro, mag);
  }

  /** The accelerometer's share of the configuration writes. */
  lemma AcclInitWrites(accl: int, gyro: int, mag: int)
    requires accl != gyro && accl != mag
    ensures WritesTo(InitTrace(accl, gyro, mag), accl) == [(0x0F, 0x03), (0x10, 0x08), (0x11, 0x00)]
  {
    var w := Writes(InitTrace(accl, gyro, mag));
    InitWritesSplit(accl, gyro, mag, accl);
    WritesToDevice(w[..3], accl);
    WritesToOther(w[3..6], accl);
    WritesToOther(w[6..], accl);
  }

  /** The gyroscope's share of the configuration writes. */
  lemma GyroInitWrites(accl: int, gyro: int, mag: int)
    requires accl != gyro && gyro != mag
    ensures WritesTo(InitTrace(accl, gyro, mag), gyro) == [(0x0F, 0x04), (0x10, 0x07), (0x11, 0x00)]
  {
    var w := Writes(InitTrace(accl, gyro, mag));
    InitWritesSplit(accl, gyro, mag, gyro);
    WritesToOther(w[..3], gyro);
    WritesToDevice(w[3..6], gyro);
    WritesToOther(w[6..], gyro);
  }

  /** The magnetometer's share of the configuration writes. */
  lemma MagInitWrites(accl: int, gyro: int, mag: int)
    requires accl != mag && gyro != mag
    ensures WritesTo(InitTrace(accl, gyro, mag), mag) ==
            [(0x4B, 0x83), (0x4B, 0x01), (0x4C, 0x00), (0x4E, 0x84), (0x51, 0x04), (0x52, 0x16)]
  {
    var w := Writes(InitTrace(accl, gyro, mag));
    InitWritesSplit(accl, gyro, mag, mag);
    WritesToOther(w[..3], mag);
    WritesToOther(w[3..6], mag);
    WritesToDevice(w[6..], mag);
  }

  /** What one device receives during `__init__`, split along the three configuration blocks. */
  lemma InitWritesSplit(accl: int, gyro: int, mag: int, addr: int)
    ensures var w := Writes(InitTrace(accl, gyro, mag));
            && |w| == 12
            && w[..3] == [Write(accl, 0x0F, 0x03), Write(accl, 0x10, 0x08), Write(accl, 0x11, 0x00)]
            && w[3..6] == [Write(gyro, 0x0F, 0x04), Write(gyro, 0x10, 0x07), Write(gyro, 0x11, 0x00)]
            && w[6..] == [Write(mag, 0x4B, 0x83), Write(mag, 0x4B, 0x01), Write(mag, 0x4C, 0x00),
                          Write(mag, 0x4E, 0x84), Write(mag, 0x51, 0x04), Write(mag, 0x52, 0x16)]
            && WritesTo(InitTrace(accl, gyro, mag), addr) ==
               WritesTo(w[..3], addr) + WritesTo(w[3..6], addr) + WritesTo(w[6..], addr)
  {
    var t := InitTrace(accl, gyro, mag);
    InitWrites(accl, gyro, mag);
    WritesToOfWrites(t, addr);
    var w := Writes(t);
    assert w == w[..3] + w[3..6] + w[6..];
    WritesToAppend(w[..3], w[3..6], addr);
    WritesToAppend(w[..3] + w[3..6], w[6..], addr);
  }

  /** Restricting to one device can be done on the write events alone. */
  lemma {:induction false} WritesToOfWrites(t: seq<Event>, addr: int)
    ensures WritesTo(t, addr) == WritesTo(Writes(t), addr)
  {
    if t != [] {
      WritesToAppend(if t[0].Write? then [t[0]] else [], Writes(t[1..]), addr);
      WritesToOfWrites(t[1..], addr);
    }
  }

  /** The (register, value) pairs of writes that all go to `addr`. */
  lemma {:induction false} WritesToDevice(w: seq<Event>, addr: int)
    requires forall i :: 0 <= i < |w| ==> w[i].Write? && w[i].addr == addr
    ensures WritesTo(w, addr) == seq(|w|, i requires 0 <= i < |w| => (w[i].reg, w[i].val))
  {
    if w != [] {
      WritesToDevice(w[1..], addr);
      var rest := WritesTo(w[1..], addr);
      assert WritesTo(w, addr) == [(w[0].reg, w[0].val)] + rest;
      assert forall i :: 1 <= i < |w| ==> rest[i - 1] == (w[i].reg, w[i].val);
    }
  }

  /** Writes that go elsewhere contribute nothing for `addr`. */
  lemma {:induction false} WritesToOther(w: seq<Event>, addr: int)
    requires forall i :: 0 <= i < |w| ==> w[i].Write? && w[i].addr != addr
    ensures WritesTo(w, addr) == []
  {
    if w != [] {
      WritesToOther(w[1..], addr);
    }
  }

  /** read_sensor reads 20 registers: 6 of the accelerometer from its base upwards, then 6
      of the gyroscope, then 8 of the magnetometer; nothing but reads. */
  lemma SensorReadLayout(accl: int, acclReg: int, gyro: int, gyroReg: int, mag: int, magReg: int)
    ensures |SensorReadTrace(accl, acclReg, gyro, gyroReg, mag, magReg)| == 20
    ensures OnlyReads(SensorReadTrace(accl, acclReg, gyro, gyroReg, mag, magReg))
    ensures forall i :: 0 <= i < 6 ==>
              SensorReadTrace(accl, acclReg, gyro, gyroReg, mag, magReg)[i] == Read(accl, acclReg + i)
    ensures forall i :: 6 <= i < 12 ==>
              SensorReadTrace(accl, acclReg, gyro, gyroReg, mag, magReg)[i] == Read(gyro, gyroReg + (i - 6))
    ensures forall i :: 12 <= i < 20 ==>
              SensorReadTrace(accl, acclReg, gyro, gyroReg, mag, magReg)[i] == Read(mag, magReg + (i - 12))
  {
  }

  /** With distinct addresses, read_sensor reads 6, 6 and 8 registers of the three devices. */
  lemma SensorReadCounts(accl: int, acclReg: int, gyro: int, gyroReg: int, mag: int, magReg: int)
    requires accl != gyro && gyro != mag && accl != mag
    ensures ReadsTo(SensorReadTrace(accl, acclReg, gyro, gyroReg, mag, magReg), accl) == 6
    ensures ReadsTo(SensorReadTrace(accl, acclReg, gyro, gyroReg, mag, magReg), gyro) == 6
    ensures ReadsTo(SensorReadTrace(accl, acclReg, gyro, gyroReg, mag, magReg), mag) == 8
  {
    var ra, rg, rm := ReadBlock(accl, acclReg, 6), ReadBlock(gyro, gyroReg, 6), ReadBlock(mag, magReg, 8);
    forall addr | addr in {accl, gyro, mag}
      ensures ReadsTo(ra + rg + rm, addr) == ReadsTo(ra, addr) + ReadsTo(rg, addr) + ReadsTo(rm, addr)
    {
      ReadsToAppend(ra, rg, addr);
      ReadsToAppend(ra + rg, rm, addr);
    }
    ReadsOfBlock(accl, acclReg, 6, accl);
    ReadsOfBlock(accl, acclReg, 6, gyro);
    ReadsOfBlock(accl, acclReg, 6, mag);
    ReadsOfBlock(gyro, gyroReg, 6, accl);
    ReadsOfBlock(gyro, gyroReg, 6, gyro);
    ReadsOfBlock(gyro, gyroReg, 6, mag);
    ReadsOfBlock(mag, magReg, 8, accl);
    ReadsOfBlock(mag, magReg, 8, gyro);
    ReadsOfBlock(mag, magReg, 8, mag);
  }

  /** A block of n reads of `addr` counts n for that device and none for any other. */
  lemma {:induction false} ReadsOfBlock(addr: int, base: int, n: nat, other: int)
    ensures ReadsTo(ReadBlock(addr, base, n), other) == if other == addr then n else 0
  {
    if n > 0 {
      var b := ReadBlock(addr, base, n);
      assert b == ReadBlock(addr, base, n - 1) + [Read(addr, base + n - 1)];
      ReadsToAppend(ReadBlock(addr, base, n - 1), [Read(addr, base + n - 1)], other);
      ReadsOfBlock(addr, base, n - 1, other);
    }
  }

  /** Over a whole lifetime (configuration, any reads, teardown), the bus is closed once, at
      the very end, and the only write after configuration is the magnetometer suspend. */
  lemma Lifetime(accl: int, gyro: int, mag: int, afterInit: seq<Event>)
    requires OnlyReads(afterInit)
    ensures var t := InitTrace(accl, gyro, mag) + afterInit + TeardownTrace(mag);
            Closes(t) == 1 && t[|t| - 1] == Close &&
            Writes(t) == Writes(InitTrace(accl, gyro, mag)) + [Write(mag, 0x4B, 0x00)]
  {
    var init := InitTrace(accl, gyro, mag);
    WritesAppend(init, afterInit);
    WritesAppend(init + afterInit, TeardownTrace(mag));
    ClosesAppend(init, afterInit);
    ClosesAppend(init + afterInit, TeardownTrace(mag));
    NoClosesInConfigure(InitSteps(accl, gyro, mag));
    NoWritesOrClosesInReads(afterInit);
    TeardownObservations(mag);
  }

  /** `__del__` writes once (the magnetometer suspend), waits 100 ms and closes the bus once. */
  lemma TeardownObservations(mag: int)
    ensures Writes(TeardownTrace(mag)) == [Write(mag, 0x4B, 0x00)]
    ensures WritesTo(TeardownTrace(mag), mag) == [(0x4B, 0x00)]
    ensures TotalSleep(TeardownTrace(mag)) == 100
    ensures Closes(TeardownTrace(mag)) == 1
  {
    var suspend, pause, close := [Write(mag, 0x4B, 0x00)], [Sleep(100)], [Close];
    assert TeardownTrace(mag) == suspend + pause + close;
    assert suspend[1..] == pause[1..] == close[1..] == [];
    WritesAppend(suspend, pause);
    WritesAppend(suspend + pause, close);
    WritesToAppend(suspend, pause, mag);
    WritesToAppend(suspend + pause, close, mag);
    TotalSleepAppend(suspend, pause);
    TotalSleepAppend(suspend + pause, close);
    ClosesAppend(suspend, pause);
    ClosesAppend(suspend + pause, close);
  }

  lemma {:induction false} NoClosesInConfigure(steps: seq<Step>)
    ensures Closes(Configure(steps)) == 0
  {
    if steps != [] {
      var head := [Write(steps[0].addr, steps[0].reg, steps[0].val), Sleep(steps[0].ms)];
      ClosesAppend(head, Configure(steps[1..]));
      NoClosesInConfigure(steps[1..]);
    }
  }

  lemma {:induction false} NoWritesOrClosesInReads(t: seq<Event>)
    requires OnlyReads(t)
    ensures Writes(t) == [] && Closes(t) == 0
  {
    if t != [] {
      NoWritesOrClosesInReads(t[1..]);
    }
  }
}
