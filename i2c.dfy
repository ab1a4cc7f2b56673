/** The smbus2 bus object the driver owns, abstracted. The devices on the
    bus are a register map `(address, register) -> byte`; every operation
    appends one event to a ghost log. `time.sleep` requests are logged here
    too, so that writes, reads and delays share one timeline. */
module I2C {
  import opened Bits
  import opened Protocol

  class Bus {
    /** What each device answers at each register. Nothing in the driver changes
        it; the hardware may, between the driver's calls. */
    var regs: (int, int) -> byte
    var isOpen: bool
    ghost var trace: seq<Event>

    /** `SMBus(1)`: the bus is open and nothing has happened on it yet. */
    constructor (regs: (int, int) -> byte)
      ensures this.regs == regs && isOpen && trace == []
    {
      this.regs := regs;
      isOpen := true;
      trace := [];
    }

    /** `write_byte_data`: the device's reaction to the write is not modelled. */
    method WriteByteData(addr: int, reg: int, val: byte)
      requires isOpen
      modifies this`trace
      ensures trace == old(trace) + [Write(addr, reg, val)]
    {
      trace := trace + [Write(addr, reg, val)];
    }

    /** `read_byte_data`: the byte the device holds at that register. */
    method ReadByteData(addr: int, reg: int) returns (v: byte)
      requires isOpen
      modifies this`trace
      ensures v == regs(addr, reg)
      ensures trace == old(trace) + [Read(addr, reg)]
    {
      v := regs(addr, reg);
      trace := trace + [Read(addr, reg)];
    }

    /** `time.sleep(ms / 1000)`: only the requested duration is recorded. */
    method Sleep(ms: nat)
      modifies this`trace
      ensures trace == old(trace) + [Event.Sleep(ms)]
    {
      trace := trace + [Event.Sleep(ms)];
    }

    /** `close`: the bus is released. */
    method Close()
      requires isOpen
      modifies this`isOpen, this`trace
      ensures !isOpen
      ensures trace == old(trace) + [Event.Close]
    {
      isOpen := false;
      trace := trace + [Event.Close];
    }
  }
}
