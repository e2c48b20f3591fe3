/** The whole simulated machine: one tick runs the bus master, the memories, the decoder and the slave in order. */
module TestBench {
  import opened CpuSim
  import opened CpuInterface
  import opened BusMaster
  import opened BusCycle
  import MemSim

  const ROM_WORDS := 0x4000

  /** Master, pins and slave as they are built: registers and pins at zero. */
  const AS_BUILT :=
    Link(CpuSim.POWER_UP, ZERO_PINS,
         Fsm(S0, false, false, 0, MemSim.NO_LANES, CpuInterface.POWER_UP, CpuInterface.POWER_UP))

  datatype Bench = Bench(
    link: Link, dec: Decoder,
    rom: MemSim.Mem, romOut: MemSim.Outputs,
    ram: MemSim.Mem, ramOut: MemSim.Outputs,
    rst: bool, cpuReset: bool)

  function RomCall(d: Decoder): MemSim.Call
    requires d.rom.address >= 0
  {
    MemSim.Call(0, d.rom.address, false, MemSim.NO_LANES, d.rom.rdEnable)
  }

  function RamCall(d: Decoder): MemSim.Call
    requires d.ram.address >= 0
  {
    MemSim.Call(d.ram.wrData, d.ram.address, d.ram.wrEnable, d.ram.wrMask, d.ram.rdEnable)
  }

  /** Neither memory is asked for the word one past its end. */
  predicate Defined(b: Bench) {
    && b.dec.rom.address >= 0 && MemSim.Defined(b.rom, RomCall(b.dec))
    && b.dec.ram.address >= 0 && MemSim.Defined(b.ram, RamCall(b.dec))
  }

  /** What the internal buses answer in this tick, once the memories have been called. */
  function Settled(b: Bench): (Decoder, MemSim.Outputs, MemSim.Outputs)
    requires Defined(b)
  {
    var romOut := MemSim.Apply(b.rom, b.romOut, RomCall(b.dec)).1;
    var ramOut := MemSim.Apply(b.ram, b.ramOut, RamCall(b.dec)).1;
    (Evaluate(b.dec, b.rst, b.link.f.mem, romOut, ramOut), romOut, ramOut)
  }

  /** The write acknowledge of the I/O bus is up outside reset. */
  function AnswersOf(b: Bench): Answers
    requires Defined(b)
  {
    var bus := Settled(b).0.bus;
    Answers(bus.ack, bus.valid, bus.data, !b.rst)
  }

  function TickBench(b: Bench): Bench
    requires Defined(b)
  {
    var (m, p) := CpuSim.Apply(b.link.m, b.link.p, b.link.f.readyN, b.cpuReset);
    var (dec, romOut, ramOut) := Settled(b);
    var f := Clock(b.link.f, b.rst, p, AnswersOf(b));
    Bench(Link(m, Settle(p, f), f), Evaluate(dec, b.rst, f.mem, romOut, ramOut),
          MemSim.Apply(b.rom, b.romOut, RomCall(b.dec)).0, romOut,
          MemSim.Apply(b.ram, b.ramOut, RamCall(b.dec)).0, ramOut,
          b.rst, b.rst)
  }

  /** The CPU thread posts a request between two ticks. */
  function PostBench(b: Bench, r: Request): Bench {
    b.(link := b.link.(m := Post(b.link.m, r)))
  }

  /** A tick, as long as no memory is accessed past its end. */
  function Next(b: Bench): Bench {
    if Defined(b) then TickBench(b) else b
  }

  /** `n` ticks in which the CPU thread posts nothing. */
  function RunBench(b: Bench, n: nat): Bench
    decreases n
  {
    if n == 0 then b else Next(RunBench(b, n - 1))
  }

  lemma {:induction false} RunBenchAppend(b: Bench, m: nat, n: nat)
    ensures RunBench(b, m + n) == RunBench(RunBench(b, m), n)
    decreases n
  {
    hide Next;
    if n > 0 {
      RunBenchAppend(b, m, n - 1);
      assert m + n - 1 == m + (n - 1);
    }
  }

  /** The memories and the decoder, seen from the link as a device. */
  function DeviceOf(b: Bench): Device {
    (n: nat) => var c := RunBench(b, n); if Defined(c) then AnswersOf(c) else Answers(false, false, 0, false)
  }

  /** The bus master and the slave inside the machine run as the link does with that device. */
  lemma {:induction false} LinkRuns(b: Bench, n: nat)
    requires !b.rst && !b.cpuReset && forall i | 0 <= i < n :: Defined(RunBench(b, i))
    ensures RunBench(b, n).link == BusCycle.Run(b.link, DeviceOf(b), n)
    ensures !RunBench(b, n).rst && !RunBench(b, n).cpuReset
    decreases n
  {
    hide TickBench, AnswersOf, Defined, BusCycle.Tick;
    if n > 0 {
      LinkRuns(b, n - 1);
      assert Defined(RunBench(b, n - 1));
      LinkTick(RunBench(b, n - 1));
    }
  }

  lemma LinkTick(b: Bench)
    requires !b.rst && !b.cpuReset && Defined(b)
    ensures TickBench(b).link == BusCycle.Tick(b.link, AnswersOf(b))
    ensures !TickBench(b).rst && !TickBench(b).cpuReset
  {
    hide CpuSim.Apply, Clock, Evaluate, MemSim.Apply;
  }

  // ---------- The test bench as the object it is ----------

  class TESTBENCH {
    const cpu: CPUSIM
    const slave: CPU_INTERFACE
    const core: BUSMASTER
    const bios: MemSim.MEMSIM
    const ram: MemSim.MEMSIM
    var rst: bool
    var cpuReset: bool
    var tickcount: nat

    ghost predicate Valid()
      reads this
    {
      bios != ram && bios.words != ram.words
    }

    ghost function Repr(): set<object> {
      {cpu, slave, core, bios, ram, bios.words, ram.words}
    }

    ghost function State(): Bench
      reads this, Repr()
    {
      Bench(Link(cpu.State(), cpu.pins, slave.State()), core.State(),
            bios.State(), bios.Out(), ram.State(), ram.Out(), rst, cpuReset)
    }

    /** A ROM of 64 KB without delay, and a RAM. */
    constructor (ramWords: nat, ramDelay: nat)
      ensures Valid() && fresh(Repr()) && tickcount == 0
      ensures bios.words.Length == ROM_WORDS && bios.delay == 0 && ram.words.Length == ramWords && ram.delay == ramDelay
      ensures var b := State();
              && b.link == AS_BUILT
              && b.dec == DARK && !b.rst && !b.cpuReset && b.rom.count == 0 && b.ram.count == 0
              && b.romOut == b.ramOut == MemSim.Outputs(false, 0, false)
    {
      cpu := new CPUSIM();
      slave := new CPU_INTERFACE();
      core := new BUSMASTER();
      bios := new MemSim.MEMSIM(ROM_WORDS, 0);
      ram := new MemSim.MEMSIM(ramWords, ramDelay);
      rst, cpuReset, tickcount := false, false, 0;
    }

    /** Both memories look at the pins the last evaluation left. */
    method CallMemories()
      requires Valid() && Defined(State())
      modifies bios, bios.words, ram, ram.words
      ensures (bios.State(), bios.Out()) == MemSim.Apply(old(bios.State()), old(bios.Out()), RomCall(core.State()))
      ensures (ram.State(), ram.Out()) == MemSim.Apply(old(ram.State()), old(ram.Out()), RamCall(core.State()))
    {
      hide MemSim.Apply;
      bios.Access(0, core.rom.address, false, MemSim.NO_LANES, core.rom.rdEnable);
      ram.Access(core.ram.wrData, core.ram.address, core.ram.wrEnable, core.ram.wrMask, core.ram.rdEnable);
    }

    /** The combinational block settles, the slave is clocked, the block settles again. */
    method Edge()
      modifies core, slave, cpu`pins
      ensures var d := Evaluate(old(core.State()), rst, old(slave.mem), bios.Out(), ram.Out());
              && slave.State() == Clock(old(slave.State()), rst, old(cpu.pins), Answers(d.bus.ack, d.bus.valid, d.bus.data, !rst))
              && core.State() == Evaluate(d, rst, slave.mem, bios.Out(), ram.Out())
              && cpu.pins == Settle(old(cpu.pins), slave.State())
    {
      hide Clock, Evaluate;
      core.Eval(rst, slave.mem, bios.Out(), ram.Out());
      slave.Posedge(rst, cpu.pins, Answers(core.bus.ack, core.bus.valid, core.bus.data, !rst));
      core.Eval(rst, slave.mem, bios.Out(), ram.Out());
      cpu.pins := cpu.pins.(d := if slave.dDir then slave.dWr else cpu.pins.d);
    }

    method Tick()
      requires Valid() && Defined(State())
      modifies this, Repr()
      ensures Valid() && rst == old(rst) && tickcount == old(tickcount) + 1
      ensures State() == TickBench(old(State()))
    {
      hide CpuSim.Apply, MemSim.Apply, Clock, Evaluate;
      cpu.Tick(slave.readyN, cpuReset);
      CallMemories();
      tickcount := tickcount + 1;
      Edge();
      cpuReset := rst;
    }

    /** `reset`: one tick with the reset input up. */
    method Reset()
      requires Valid() && Defined(State().(rst := true))
      modifies this, Repr()
      ensures Valid() && tickcount == old(tickcount) + 1
      ensures State() == TickBench(old(State()).(rst := true)).(rst := false)
    {
      rst := true;
      Tick();
      rst := false;
    }
  }
}
