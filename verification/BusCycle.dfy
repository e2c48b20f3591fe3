/**
 * The bus master and the bus slave wired together, with a device that may answer at any tick.
 * The master polls ready every three ticks, the slave polls the device every two and holds ready low for two.
 */
module BusCycle {
  import opened Words
  import opened CpuSim
  import opened CpuInterface
  import MemSim

  datatype Link = Link(m: Master, p: Pins, f: Fsm)

  /** The data pins settle: the slave's word while it drives them. */
  function Settle(p: Pins, f: Fsm): Pins {
    p.(d := DataPins(f, p))
  }

  /** One tick outside reset: the master's `apply`, then a rising edge with the answers `b`. */
  function Tick(l: Link, b: Answers): Link {
    var (m, p) := Apply(l.m, l.p, l.f.readyN, false);
    var f := Clock(l.f, false, p, b);
    Link(m, Settle(p, f), f)
  }

  /** Every device, whatever it depends on, is some function from ticks to answers. */
  type Device = nat -> Answers

  function Run(l: Link, device: Device, n: nat): Link
    decreases n
  {
    if n == 0 then l else Tick(Run(l, device, n - 1), device(n - 1))
  }

  /** No cycle on the bus; the slave may still hold ready low and drive the data of the last read. */
  predicate Rest(l: Link) {
    l.m.state == BUS_IDLE && l.f.state == S0 && l.p.adsN
  }

  predicate Pending(l: Link) {
    Rest(l) && l.m.shared.request && !l.m.shared.completed
  }

  /** The address, direction and enable pins show the request. */
  predicate Shows(p: Pins, r: Request) {
    p.a == AddressPins(r.addr) && p.wr == r.wr && p.mio == r.mio && p.bheN == !r.bhe && p.bleN == !r.ble
  }

  predicate AnswersRequest(r: Request, b: Answers) {
    if r.wr then (if r.mio then b.memAck else b.ioAck) else b.memValid
  }

  predicate UpperHalf(addr: u32) {
    addr / 2 % 2 == 1
  }

  // ---------- Invariants of every run ----------

  /** The slave drives the data pins only after a read has been answered, until the next cycle starts. */
  predicate Driving(l: Link) {
    && (l.f.dir ==> l.f.state == S3 || l.f.state == S0)
    && (!l.f.readyN ==> l.f.state == S3 || l.f.state == S0)
    && (l.f.state == S3 ==> l.f.dir == !l.m.latched.wr && !l.f.readyN)
  }

  /** While a cycle is in flight its pins do not move. */
  predicate Showing(l: Link) {
    && (l.m.state != BUS_IDLE ==> Shows(l.p, l.m.latched))
    && (l.m.state == BUS_C1_T2 ==> !l.p.adsN)
    && (l.m.state == BUS_IDLE || l.m.state == BUS_C2_T2 || l.m.state == BUS_DONE ==> l.p.adsN)
  }

  /** The slave is active only inside a cycle, and in step with its first clocks. */
  predicate InStep(l: Link) {
    && (l.f.state != S0 ==> l.m.state != BUS_IDLE)
    && (l.f.state == S1 <==> l.m.state == BUS_C1_T2)
    && (l.m.state == BUS_C2_T1 && !l.p.adsN ==> l.f.state == S2)
  }

  /** What holds between ticks, whatever the device does and whenever requests arrive. */
  predicate Invariant(l: Link) {
    Driving(l) && Showing(l) && InStep(l)
  }

  lemma TickKeeps(l: Link, b: Answers)
    requires Invariant(l)
    ensures Invariant(Tick(l, b))
  {
    hide Tick, Driving, Showing, InStep;
    TickKeepsDriving(l, b);
    TickKeepsShowing(l, b);
    TickKeepsStep(l, b);
  }

  lemma TickKeepsDriving(l: Link, b: Answers)
    requires Invariant(l)
    ensures Driving(Tick(l, b))
  {
  }

  lemma TickKeepsShowing(l: Link, b: Answers)
    requires Invariant(l)
    ensures Showing(Tick(l, b))
  {
    hide AddressPins, Clock;
  }

  lemma TickKeepsStep(l: Link, b: Answers)
    requires Invariant(l)
    ensures InStep(Tick(l, b))
  {
  }

  /** A request may be posted whenever none is pending and no cycle is in flight. */
  lemma PostKeeps(l: Link, r: Request)
    requires Invariant(l)
    ensures Invariant(l.(m := Post(l.m, r)))
  {
  }

  lemma {:induction false} RunKeeps(l: Link, device: Device, n: nat)
    requires Invariant(l)
    ensures Invariant(Run(l, device, n))
    decreases n
  {
    hide Invariant, Tick;
    if n > 0 {
      RunKeeps(l, device, n - 1);
      TickKeeps(Run(l, device, n - 1), device(n - 1));
    }
  }

  /** What can happen between reset and the end of time: a tick with any answers, or a request from the CPU thread. */
  datatype Event = Ticked(b: Answers) | Posted(r: Request)

  function Play(l: Link, events: seq<Event>): Link
    decreases |events|
  {
    if events == [] then l
    else
      var before := Play(l, events[..|events| - 1]);
      match events[|events| - 1]
      case Ticked(b) => Tick(before, b)
      case Posted(r) => before.(m := Post(before.m, r))
  }

  /** Address bits 31 to 24 of both internal buses, which nothing ever writes, are zero. */
  predicate HighBitsZero(f: Fsm) {
    0 <= f.mem.address < 0x40_0000 && 0 <= f.io.address < 0x40_0000
  }

  lemma LatchKeepsHighBits(port: Port, p: Pins)
    requires 0 <= port.address < 0x40_0000
    ensures 0 <= Latch(port, p).address < 0x40_0000
  {
    FromQuotient(port.address, 0x40_0000, 0, port.address);
  }

  lemma ClockKeepsHighBits(f: Fsm, p: Pins, b: Answers)
    requires HighBitsZero(f)
    ensures HighBitsZero(Clock(f, false, p, b))
  {
    LatchKeepsHighBits(f.mem, p);
    LatchKeepsHighBits(f.io, p);
    hide Latch, HalfOf, WithHalf;
  }

  /** Pins that the CPU drives once and for all: data, not control; no hold; no lock. */
  predicate Constant(p: Pins) {
    p.dc && !p.hlda && p.lockN
  }

  /** In every such history the invariant holds, and the high address bits are zero. */
  lemma {:induction false} EveryHistory(l: Link, events: seq<Event>)
    requires Invariant(l) && HighBitsZero(l.f)
    ensures Invariant(Play(l, events)) && HighBitsZero(Play(l, events).f)
    decreases |events|
  {
    hide Invariant, HighBitsZero, Clock;
    if events != [] {
      var before := Play(l, events[..|events| - 1]);
      EveryHistory(l, events[..|events| - 1]);
      match events[|events| - 1]
      case Ticked(b) =>
        TickKeeps(before, b);
        ClockKeepsHighBits(before.f, Apply(before.m, before.p, before.f.readyN, false).1, b);
      case Posted(r) =>
        PostKeeps(before, r);
    }
  }

  lemma {:induction false} ConstantPins(l: Link, events: seq<Event>)
    requires Constant(l.p)
    ensures Constant(Play(l, events).p)
    decreases |events|
  {
    hide Clock, AddressPins;
    if events != [] { ConstantPins(l, events[..|events| - 1]); }
  }

  /** From acceptance to completion the request pins are the ones of the request. */
  lemma PinsStable(l: Link, b: Answers)
    requires Invariant(l) && l.m.state != BUS_IDLE
    ensures Tick(l, b).m.latched == l.m.latched && Shows(Tick(l, b).p, l.m.latched)
  {
  }

  /** In S1 the slave takes from the pins exactly the half word that was requested. */
  lemma WriteLatched(l: Link, b: Answers)
    requires Invariant(l) && l.f.state == S1 && l.m.latched.wr && l.m.latched.mio
    ensures var port, r := Tick(l, b).f.mem, l.m.latched;
            && port.wrEnable && port.wrMask == l.f.laneMask
            && HalfOf(port.wrData, UpperHalf(r.addr)) == r.data
            && HalfOf(port.wrData, !UpperHalf(r.addr)) == HalfOf(l.f.mem.wrData, !UpperHalf(r.addr))
  {
    UpperPins(l.m.latched.addr);
    HalfWritten(l.f.mem.wrData, true, l.m.latched.data);
    HalfWritten(l.f.mem.wrData, false, l.m.latched.data);
    hide HalfOf, WithHalf;
  }

  /**
   * In the clock of acceptance the slave takes the word address of the request, and raises the read enable for
   * a read, on the internal bus that the request is for, and leaves the other bus alone.
   */
  lemma AddressLatched(l: Link, b: Answers)
    requires Pending(l) && HighBitsZero(l.f)
    ensures var f, r := Tick(l, b).f, l.m.shared.req;
      && f.state == S1
      && (if r.mio then f.mem else f.io) ==
           (if r.mio then l.f.mem else l.f.io).(address := AddressPins(r.addr) / 2 % 0x40_0000,
                                                rdEnable := !r.wr || (if r.mio then l.f.mem else l.f.io).rdEnable)
      && (if r.mio then f.io else f.mem) == (if r.mio then l.f.io else l.f.mem)
      && f.laneMask == LanesOf(r)
  {
    hide AddressPins;
    UpperPins(l.m.shared.req.addr);
    hide UpperHalf;
    FromQuotient(l.f.mem.address, 0x40_0000, 0, l.f.mem.address);
    FromQuotient(l.f.io.address, 0x40_0000, 0, l.f.io.address);
  }

  /** The byte lanes that a half-word request is for. */
  function LanesOf(r: Request): MemSim.Mask {
    var upper := UpperHalf(r.addr);
    MemSim.Mask(r.ble && !upper, r.bhe && !upper, r.ble && upper, r.bhe && upper)
  }

  /** In S1 an I/O write puts its half word and lanes on the I/O bus, and nothing on the memory bus. */
  lemma IoWriteLatched(l: Link, b: Answers)
    requires Invariant(l) && l.f.state == S1 && l.m.latched.wr && !l.m.latched.mio
    ensures var port, r := Tick(l, b).f.io, l.m.latched;
            && port.wrEnable && port.wrMask == l.f.laneMask
            && HalfOf(port.wrData, UpperHalf(r.addr)) == r.data
            && HalfOf(port.wrData, !UpperHalf(r.addr)) == HalfOf(l.f.io.wrData, !UpperHalf(r.addr))
            && Tick(l, b).f.mem == l.f.mem
  {
    UpperPins(l.m.latched.addr);
    HalfWritten(l.f.io.wrData, true, l.m.latched.data);
    HalfWritten(l.f.io.wrData, false, l.m.latched.data);
    hide HalfOf, WithHalf;
  }

  /** Between cycles, and in a cycle from the slave's second clock on, nothing changes what it asks the memories for. */
  lemma PortStays(l: Link, b: Answers)
    requires Invariant(l) && l.f.state != S1 && !l.m.shared.request
    ensures Tick(l, b).f.mem == l.f.mem && Tick(l, b).f.state != S1 && !Tick(l, b).m.shared.request
  {
    hide Invariant, Apply, Clock;
    var (m, p) := Apply(l.m, l.p, l.f.readyN, false);
    NoStrobe(l);
    NoStart(l.f, p, b);
  }

  lemma NoStrobe(l: Link)
    requires Invariant(l) && !l.m.shared.request
    ensures var (m, p) := Apply(l.m, l.p, l.f.readyN, false);
            !m.shared.request && (l.f.state == S0 ==> p.adsN)
  {
    hide Shows;
  }

  lemma NoStart(f: Fsm, p: Pins, b: Answers)
    requires f.state != S1 && (f.state == S0 ==> p.adsN)
    ensures Clock(f, false, p, b).mem == f.mem && Clock(f, false, p, b).state != S1
  {
    hide HalfOf;
  }

  lemma UpperPins(addr: u32)
    ensures AddressPins(addr) % 2 == 1 <==> UpperHalf(addr)
  {
  }

  lemma HalfWritten(w: bv32, upper: bool, h: bv16)
    ensures HalfOf(WithHalf(w, upper, h), upper) == h
    ensures HalfOf(WithHalf(w, upper, h), !upper) == HalfOf(w, !upper)
  {
  }

  /** Reset, from any state of the slave: idle, not ready, not driving, both internal addresses zero. */
  lemma ResetSlave(f: Fsm, p: Pins, b: Answers)
    ensures var g := Clock(f, true, p, b);
      && g.state == S0 && g.readyN && !g.dir && g.mem.address == 0 && g.io.address == 0
      && g.mem == f.mem.(address := 0) && g.io == f.io.(address := 0)
  {
  }

  // ---------- When a cycle completes ----------

  /** The tick of the k-th time the slave looks for an answer. */
  function CheckTick(k: nat): nat {
    2 + 2 * k
  }

  /** Where the master is when the slave looks for the k-th time. */
  function Phase(k: nat): BusState {
    if k % 3 == 0 then BUS_C2_T1 else if k % 3 == 1 then BUS_DONE else BUS_C2_T2
  }

  predicate InFlight(l: Link, r: Request) {
    && l.m.state != BUS_IDLE && !l.m.shared.completed && !l.m.shared.request
    && l.m.latched == r && l.m.shared.req == r && Shows(l.p, r)
  }

  /** The slave is about to look for the k-th time. */
  predicate AtCheck(l: Link, r: Request, k: nat) {
    InFlight(l, r) && l.f.state == S2 && l.f.readyN && l.m.state == Phase(k) && (k > 0 ==> l.p.adsN)
  }

  /** The slave has gone back to S0 and the master keeps polling a ready that stays high. */
  predicate Missed(l: Link, r: Request) {
    InFlight(l, r) && l.f.state == S0 && l.f.readyN && l.p.adsN && l.m.state != BUS_C1_T2
  }

  lemma Accepts(l: Link, device: Device)
    requires Pending(l)
    ensures InFlight(Run(l, device, 1), l.m.shared.req)
    ensures AtCheck(Run(l, device, 2), l.m.shared.req, 0)
  {
    assert Run(l, device, 1) == Tick(l, device(0));
  }

  lemma CheckFails(l: Link, r: Request, k: nat, b0: Answers, b1: Answers)
    requires AtCheck(l, r, k) && !AnswersRequest(r, b0)
    ensures InFlight(Tick(l, b0), r)
    ensures AtCheck(Tick(Tick(l, b0), b1), r, k + 1)
  {
    hide AddressPins, Phase;
    PhaseStep(k);
  }

  /** Two ticks of polling take the master from one check's phase to the next one's. */
  lemma PhaseStep(k: nat)
    ensures k == 0 ==> Phase(k) == BUS_C2_T1
    ensures Phase(k) == BUS_C2_T1 ==> Phase(k + 1) == BUS_DONE
    ensures Phase(k) == BUS_DONE ==> Phase(k + 1) == BUS_C2_T2
    ensures Phase(k) == BUS_C2_T2 ==> Phase(k + 1) == BUS_C2_T1
    ensures Phase(k) == BUS_C2_T1 || Phase(k) == BUS_DONE || Phase(k) == BUS_C2_T2
  {
  }

  lemma {:induction false} ReachesCheck(l: Link, device: Device, k: nat)
    requires Pending(l)
    requires forall j | 0 <= j < k :: !AnswersRequest(l.m.shared.req, device(CheckTick(j)))
    ensures AtCheck(Run(l, device, CheckTick(k)), l.m.shared.req, k)
    ensures forall n | 0 < n <= CheckTick(k) :: InFlight(Run(l, device, n), l.m.shared.req)
    decreases k
  {
    hide AtCheck, InFlight, Tick;
    var r := l.m.shared.req;
    Accepts(l, device);
    if k == 0 {
      CheckIsInFlight(Run(l, device, 2), r, 0);
    } else {
      ReachesCheck(l, device, k - 1);
      var t := CheckTick(k - 1);
      CheckFails(Run(l, device, t), r, k - 1, device(t), device(t + 1));
      assert Run(l, device, t + 1) == Tick(Run(l, device, t), device(t));
      assert Run(l, device, t + 2) == Tick(Run(l, device, t + 1), device(t + 1));
      CheckIsInFlight(Run(l, device, t + 2), r, k);
    }
  }

  lemma CheckIsInFlight(l: Link, r: Request, k: nat)
    requires AtCheck(l, r, k)
    ensures InFlight(l, r)
  {
  }

  /** What the CPU thread finds when its transaction completes. */
  function Outcome(r: Request, b: Answers): bv16 {
    if r.wr then r.data else HalfOf(b.memData, UpperHalf(r.addr))
  }

  /** The cycle is done, with this result, and the bus is at rest. */
  predicate Completed(l: Link, r: Request, result: bv16) {
    Rest(l) && l.m.shared == Shared(false, true, r.(data := result))
  }

  /** An answer at a check with k mod 3 = 0 is seen two ticks later. */
  lemma SeenInTwo(l: Link, r: Request, k: nat, b0: Answers, b1: Answers, b2: Answers)
    requires AtCheck(l, r, k) && AnswersRequest(r, b0) && k % 3 == 0
    ensures InFlight(Tick(l, b0), r) && InFlight(Tick(Tick(l, b0), b1), r)
    ensures Completed(Tick(Tick(Tick(l, b0), b1), b2), r, Outcome(r, b0))
  {
    hide HalfOf;
    UpperPins(r.addr);
  }

  /** An answer at a check with k mod 3 = 2 is seen one tick later. */
  lemma SeenInOne(l: Link, r: Request, k: nat, b0: Answers, b1: Answers)
    requires AtCheck(l, r, k) && AnswersRequest(r, b0) && k % 3 == 2
    ensures InFlight(Tick(l, b0), r)
    ensures Completed(Tick(Tick(l, b0), b1), r, Outcome(r, b0))
  {
    hide HalfOf;
    UpperPins(r.addr);
  }

  /** An answer at a check with k mod 3 = 1 is over before the master looks. */
  lemma NotSeen(l: Link, r: Request, k: nat, b0: Answers, b1: Answers, b2: Answers)
    requires AtCheck(l, r, k) && AnswersRequest(r, b0) && k % 3 == 1
    ensures InFlight(Tick(l, b0), r) && InFlight(Tick(Tick(l, b0), b1), r)
    ensures Missed(Tick(Tick(Tick(l, b0), b1), b2), r)
  {
    hide HalfOf, AddressPins;
    var l1 := Tick(l, b0);
    assert InFlight(l1, r) && l1.f.state == S3 && l1.m.state == BUS_C2_T1 && l1.p.adsN;
    var l2 := Tick(l1, b1);
    assert InFlight(l2, r) && l2.f.state == S0 && l2.m.state == BUS_C2_T2 && l2.p.adsN;
  }

  lemma MissedStays(l: Link, r: Request, b: Answers)
    requires Missed(l, r)
    ensures Missed(Tick(l, b), r)
  {
  }

  lemma {:induction false} NeverCompletes(l: Link, r: Request, device: Device, t: nat, n: nat)
    requires t <= n && Missed(Run(l, device, t), r)
    ensures Missed(Run(l, device, n), r)
    decreases n
  {
    hide Missed, Tick;
    if t < n {
      NeverCompletes(l, r, device, t, n - 1);
      MissedStays(Run(l, device, n - 1), r, device(n - 1));
    }
  }

  /** How many ticks a transaction takes whose first answer comes at check `k`, if it ends at all. */
  function Duration(k: nat): nat {
    if k % 3 == 0 then 5 + 2 * k else 4 + 2 * k
  }

  /**
   * Exactly when a transaction completes. Let the device's first answer come at check k. If k mod 3 is 0 or 2
   * the transaction is in flight for all of its Duration(k) ticks and is then complete, with the answer of
   * that very check, and the bus is at rest. If k mod 3 is 1 it never completes, whatever happens later.
   */
  lemma FirstAnswerDecides(l: Link, device: Device, k: nat)
    requires Pending(l)
    requires forall j | 0 <= j < k :: !AnswersRequest(l.m.shared.req, device(CheckTick(j)))
    requires AnswersRequest(l.m.shared.req, device(CheckTick(k)))
    ensures var r := l.m.shared.req;
            && (k % 3 != 1 ==>
                  && (forall n | 0 < n < Duration(k) :: InFlight(Run(l, device, n), r))
                  && Completed(Run(l, device, Duration(k)), r, Outcome(r, device(CheckTick(k)))))
            && (k % 3 == 1 ==> forall n | n > 0 :: InFlight(Run(l, device, n), r))
  {
    hide AtCheck, InFlight, Missed, Completed, Tick, Outcome;
    var r, t := l.m.shared.req, CheckTick(k);
    var b0, b1, b2 := device(t), device(t + 1), device(t + 2);
    var c := Run(l, device, t);
    ReachesCheck(l, device, k);
    assert Run(l, device, t + 1) == Tick(c, b0);
    assert Run(l, device, t + 2) == Tick(Tick(c, b0), b1);
    assert Run(l, device, t + 3) == Tick(Tick(Tick(c, b0), b1), b2);
    if k % 3 == 0 {
      SeenInTwo(c, r, k, b0, b1, b2);
    } else if k % 3 == 2 {
      SeenInOne(c, r, k, b0, b1);
    } else {
      NotSeen(c, r, k, b0, b1, b2);
      forall n | n > 0 ensures InFlight(Run(l, device, n), r) {
        if n >= t + 3 {
          NeverCompletes(l, r, device, t + 3, n);
          MissedIsInFlight(Run(l, device, n), r);
        }
      }
    }
  }

  lemma MissedIsInFlight(l: Link, r: Request)
    requires Missed(l, r)
    ensures InFlight(l, r)
  {
  }

  /** A device that never answers at a check never ends the transaction. */
  lemma SilenceNeverCompletes(l: Link, device: Device, n: nat)
    requires Pending(l) && n > 0
    requires forall j: nat :: !AnswersRequest(l.m.shared.req, device(CheckTick(j)))
    ensures InFlight(Run(l, device, n), l.m.shared.req)
  {
    hide InFlight, AtCheck;
    ReachesCheck(l, device, n);
  }

  // ---------- Back to back ----------

  /** A transaction, what the device does during it, and the check at which that first answers. */
  datatype Job = Job(r: Request, device: Device, k: nat)

  ghost predicate FirstAnswered(j: Job) {
    && (forall i | 0 <= i < j.k :: !AnswersRequest(j.r, j.device(CheckTick(i))))
    && AnswersRequest(j.r, j.device(CheckTick(j.k)))
  }

  function AfterJob(l: Link, j: Job): Link {
    Run(l.(m := Post(l.m, j.r)), j.device, Duration(j.k))
  }

  function AfterJobs(l: Link, js: seq<Job>): Link
    decreases |js|
  {
    if js == [] then l else AfterJob(AfterJobs(l, js[..|js| - 1]), js[|js| - 1])
  }

  /**
   * Transactions posted one after the other, each as soon as the last is complete. The i-th again meets a bus
   * at rest and is complete after Duration(k) ticks and not before, with the answer of its own check k; so n
   * of them take the sum of their durations. The first one whose k is one more than a multiple of three
   * never ends.
   */
  lemma {:induction false} BackToBack(l: Link, js: seq<Job>, i: nat)
    requires Rest(l) && i < |js|
    requires forall j | 0 <= j <= i :: FirstAnswered(js[j])
    requires forall j | 0 <= j < i :: js[j].k % 3 != 1
    ensures var before, j := AfterJobs(l, js[..i]), js[i];
      && Rest(before)
      && (j.k % 3 != 1 ==>
            && Completed(AfterJobs(l, js[..i + 1]), j.r, Outcome(j.r, j.device(CheckTick(j.k))))
            && forall n | 0 < n < Duration(j.k) :: InFlight(Run(before.(m := Post(before.m, j.r)), j.device, n), j.r))
      && (j.k % 3 == 1 ==>
            forall n | n > 0 :: InFlight(Run(before.(m := Post(before.m, j.r)), j.device, n), j.r))
    decreases i
  {
    hide InFlight, Outcome, Tick, Run;
    if i > 0 {
      BackToBack(l, js, i - 1);
      assert js[..i - 1 + 1] == js[..i];
    }
    assert js[..i + 1][..i] == js[..i];
    var before, j := AfterJobs(l, js[..i]), js[i];
    assert FirstAnswered(j);
    FirstAnswerDecides(before.(m := Post(before.m, j.r)), j.device, j.k);
  }
}
