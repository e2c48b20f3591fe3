/** The tick-driven 386 bus master: takes a request from the shared variables and turns it into pin cycles. */
module CpuSim {
  import opened Words

  datatype BusState = BUS_IDLE | BUS_C1_T2 | BUS_C2_T1 | BUS_C2_T2 | BUS_DONE

  /** The arguments of `bus_transaction`. */
  datatype Request = Request(addr: u32, data: bv16, bhe: bool, ble: bool, wr: bool, mio: bool)

  const NO_REQUEST := Request(0, 0, false, false, false, false)

  /** The variables shared with the CPU thread. `req.data` also carries the answer back. */
  datatype Shared = Shared(request: bool, completed: bool, req: Request)

  /** Pins the CPU drives. `d` is the resolved data bus; `a` has 23 bits, for address bits 23 to 1. */
  datatype Pins = Pins(
    a: int, d: bv16, adsN: bool, bheN: bool, bleN: bool,
    dc: bool, hlda: bool, lockN: bool, mio: bool, wr: bool)

  datatype Master = Master(state: BusState, latched: Request, shared: Shared, lastReset: bool, running: bool)

  /** `cpu_a = _bus_req_addr >> 1`, on the 23 address pins. */
  function AddressPins(addr: u32): int {
    addr / 2 % 0x80_0000
  }

  const RESET_PINS := Pins(0, 0, true, true, true, true, false, true, true, false)

  /** The pins of the first clock of a cycle; the data pins are not driven yet. */
  function CyclePins(p: Pins, r: Request): Pins {
    p.(a := AddressPins(r.addr), bheN := !r.bhe, bleN := !r.ble, mio := r.mio, dc := true, wr := r.wr,
       adsN := false, lockN := true)
  }

  /** One call of `apply`. */
  function Apply(m: Master, p: Pins, readyN: bool, reset: bool): (Master, Pins) {
    if !m.lastReset && reset then (m.(running := true, lastReset := true), RESET_PINS)
    else
      var n := m.(lastReset := reset);
      match m.state
      case BUS_IDLE =>
        if m.shared.request then
          (n.(shared := m.shared.(request := false), latched := m.shared.req, state := BUS_C1_T2),
           CyclePins(p, m.shared.req))
        else (n, p)
      case BUS_C1_T2 => (n.(state := BUS_C2_T1), if m.latched.wr then p.(d := m.latched.data) else p)
      case BUS_C2_T1 => (n.(state := BUS_C2_T2), p.(adsN := true))
      case BUS_C2_T2 => (n.(state := BUS_DONE), p)
      case BUS_DONE =>
        if readyN then (n.(state := BUS_C2_T1), p)
        else
          var answer := if m.latched.wr then m.shared.req.data else p.d;
          (n.(state := BUS_IDLE, shared := m.shared.(completed := true, req := m.shared.req.(data := answer))), p)
  }

  /** What `bus_transaction` stores before it waits. */
  function Post(m: Master, r: Request): Master {
    m.(shared := Shared(true, false, r))
  }

  class CPUSIM {
    var busState: BusState
    var latched: Request
    var lastReset: bool
    var running: bool
    var shared: Shared
    var pins: Pins

    ghost function State(): Master
      reads this
    {
      Master(busState, latched, shared, lastReset, running)
    }

    /** Verilated pins start at zero. */
    constructor ()
      ensures State() == POWER_UP && pins == ZERO_PINS
    {
      busState, latched, lastReset, running := BUS_IDLE, NO_REQUEST, false, false;
      shared, pins := Shared(false, false, NO_REQUEST), ZERO_PINS;
    }

    method Tick(readyN: bool, reset: bool)
      modifies this
      ensures (State(), pins) == Apply(old(State()), old(pins), readyN, reset)
    {
      if !lastReset && reset {
        running := true;
        pins := RESET_PINS;
      } else {
        match busState
        case BUS_IDLE =>
          if shared.request {
            shared := shared.(request := false);
            latched := shared.req;
            busState := BUS_C1_T2;
            pins := pins.(a := AddressPins(latched.addr), bheN := !latched.bhe, bleN := !latched.ble);
            pins := pins.(mio := latched.mio, dc := true, wr := latched.wr, adsN := false, lockN := true);
          }
        case BUS_C1_T2 =>
          busState := BUS_C2_T1;
          if latched.wr { pins := pins.(d := latched.data); }
        case BUS_C2_T1 =>
          pins := pins.(adsN := true);
          busState := BUS_C2_T2;
        case BUS_C2_T2 =>
          busState := BUS_DONE;
        case BUS_DONE =>
          if !readyN {
            if !latched.wr { shared := shared.(req := shared.req.(data := pins.d)); }
            busState := BUS_IDLE;
            shared := shared.(completed := true);
          } else {
            busState := BUS_C2_T1;
          }
      }
      lastReset := reset;
    }

    /** The CPU thread's stores in `bus_transaction`, up to its wait. */
    method BusTransaction(r: Request)
      modifies this`shared
      ensures State() == Post(old(State()), r)
    {
      shared := shared.(request := true);
      shared := shared.(completed := false);
      shared := shared.(req := r);
    }
  }

  const POWER_UP := Master(BUS_IDLE, NO_REQUEST, Shared(false, false, NO_REQUEST), false, false)
  const ZERO_PINS := Pins(0, 0, false, false, false, false, false, false, false, false)
}
