/** The clocked slave of the 386 bus: states S0 to S4, the ready pulse, and the steering of half words. */
module CpuInterface {
  import CpuSim
  import MemSim

  datatype FsmState = S0 | S1 | S2 | S3 | S4

  /** The registers that drive one internal bus, memory or I/O. `address` holds bits 31 to 2. */
  datatype Port = Port(address: int, rdEnable: bool, wrData: bv32, wrMask: MemSim.Mask, wrEnable: bool)

  datatype Fsm = Fsm(
    state: FsmState, readyN: bool, dir: bool, dWr: bv16,
    laneMask: MemSim.Mask, mem: Port, io: Port)

  /** What the internal buses answer. */
  datatype Answers = Answers(memAck: bool, memValid: bool, memData: bv32, ioAck: bool)

  /** Address bit 1, which selects the upper half of a word. */
  predicate Upper(p: CpuSim.Pins) {
    p.a % 2 == 1
  }

  function HalfOf(w: bv32, upper: bool): bv16 {
    if upper then (w >> 16) as bv16 else (w & 0xffff) as bv16
  }

  function WithHalf(w: bv32, upper: bool, h: bv16): bv32 {
    if upper then (w & 0xffff) | ((h as bv32) << 16) else (w & 0xffff0000) | (h as bv32)
  }

  /** Bits 23 to 2 come from the address pins; bits 31 to 24 are never written. */
  function Latch(port: Port, p: CpuSim.Pins): Port {
    port.(address := port.address / 0x40_0000 * 0x40_0000 + p.a / 2 % 0x40_0000,
          rdEnable := port.rdEnable || !p.wr)
  }

  function Lanes(p: CpuSim.Pins): MemSim.Mask {
    MemSim.Mask(!p.bleN && !Upper(p), !p.bheN && !Upper(p), !p.bleN && Upper(p), !p.bheN && Upper(p))
  }

  function Drive(port: Port, p: CpuSim.Pins, d: bv16, lanes: MemSim.Mask): Port {
    port.(wrData := WithHalf(port.wrData, Upper(p), d), wrMask := lanes, wrEnable := true)
  }

  /** What the slave reads from the data pins: its own word while it drives them. */
  function DataPins(f: Fsm, p: CpuSim.Pins): bv16 {
    if f.dir then f.dWr else p.d
  }

  function ResetFsm(f: Fsm): Fsm {
    f.(state := S0, readyN := true, dir := false, mem := f.mem.(address := 0), io := f.io.(address := 0))
  }

  /** Whether the transfer in progress has been answered. I/O reads look at the memory's valid signal. */
  predicate Answered(p: CpuSim.Pins, b: Answers) {
    if p.wr then (if p.mio then b.memAck else b.ioAck) else b.memValid
  }

  /** One rising clock edge. */
  function Clock(f: Fsm, rst: bool, p: CpuSim.Pins, b: Answers): Fsm {
    if rst then ResetFsm(f)
    else match f.state
      case S0 =>
        var g := f.(dir := false, readyN := true);
        if p.adsN then g
        else g.(state := S1, laneMask := Lanes(p),
                mem := if p.mio then Latch(f.mem, p) else f.mem,
                io := if p.mio then f.io else Latch(f.io, p))
      case S1 =>
        var d := DataPins(f, p);
        f.(state := S2,
           mem := if p.wr && p.mio then Drive(f.mem, p, d, f.laneMask) else f.mem,
           io := if p.wr && !p.mio then Drive(f.io, p, d, f.laneMask) else f.io)
      case S2 =>
        if !Answered(p, b) then f.(state := S4)
        else if p.wr then f.(state := S3, readyN := false)
        else f.(state := S3, readyN := false, dir := true, dWr := HalfOf(b.memData, Upper(p)))
      case S3 => f.(state := S0)
      case S4 => f.(state := S2)
  }

  class CPU_INTERFACE {
    var state: FsmState
    var readyN: bool
    var dDir: bool
    var dWr: bv16
    var wrMask: MemSim.Mask
    var mem: Port
    var io: Port

    ghost function State(): Fsm
      reads this
    {
      Fsm(state, readyN, dDir, dWr, wrMask, mem, io)
    }

    /** Registers power up as zeros. */
    constructor ()
      ensures State() == Fsm(S0, false, false, 0, MemSim.NO_LANES, POWER_UP, POWER_UP)
    {
      state, readyN, dDir, dWr := S0, false, false, 0;
      wrMask, mem, io := MemSim.NO_LANES, POWER_UP, POWER_UP;
    }

    method Posedge(rst: bool, p: CpuSim.Pins, b: Answers)
      modifies this
      ensures State() == Clock(old(State()), rst, p, b)
    {
      hide HalfOf, WithHalf;
      if rst {
        state, readyN, dDir := S0, true, false;
        mem := mem.(address := 0);
        io := io.(address := 0);
        return;
      }
      match state
      case S0 =>
        dDir, readyN := false, true;
        if !p.adsN {
          if p.mio {
            mem := mem.(address := mem.address / 0x40_0000 * 0x40_0000 + p.a / 2 % 0x40_0000);
            if !p.wr { mem := mem.(rdEnable := true); }
          } else {
            io := io.(address := io.address / 0x40_0000 * 0x40_0000 + p.a / 2 % 0x40_0000);
            if !p.wr { io := io.(rdEnable := true); }
          }
          var upper := p.a % 2 == 1;
          wrMask := MemSim.Mask(!p.bleN && !upper, !p.bheN && !upper, !p.bleN && upper, !p.bheN && upper);
          state := S1;
        }
      case S1 =>
        if p.wr {
          var dRd := if dDir then dWr else p.d;
          if p.mio {
            mem := mem.(wrData := WithHalf(mem.wrData, p.a % 2 == 1, dRd), wrMask := wrMask, wrEnable := true);
          } else {
            io := io.(wrData := WithHalf(io.wrData, p.a % 2 == 1, dRd), wrMask := wrMask, wrEnable := true);
          }
        }
        state := S2;
      case S2 =>
        if p.wr {
          if (if p.mio then b.memAck else b.ioAck) {
            readyN, state := false, S3;
          } else {
            state := S4;
          }
        } else {
          if b.memValid {
            dDir := true;
            dWr := HalfOf(b.memData, p.a % 2 == 1);
            readyN, state := false, S3;
          } else {
            state := S4;
          }
        }
      case S3 => state := S0;
      case S4 => state := S2;
    }
  }

  const POWER_UP := Port(0, false, 0, MemSim.NO_LANES, false)
}
