/** The CPU core on what the bus shows it: the memory map as the core's memory, and a program run from the ROM. */
module RomPrograms {
  import opened Words
  import opened BusMaster
  import opened TestBench
  import opened BusReads
  import opened CpuBus
  import MemSim
  import CoreSpec
  import Fibonacci

  /** Where the simulation starts the core: `CPU_INIT_EIP` and `CPU_INIT_ESP`. */
  const START: u32 := 0xF_0000
  const STACK: u32 := 0

  /** The memory map outside RAM, as the core's byte memory: 2^24 bytes, seen all over the address space. */
  function RomView(image: seq<bv32>): CoreSpec.Memory
    requires |image| == ROM_WORDS
  {
    map a: int | 0 <= a < 0x1_0000_0000 && Mapped(a) :: MapByte(image, a) as u8
  }

  lemma ViewByte(image: seq<bv32>, addr: int)
    requires |image| == ROM_WORDS && Mapped(addr)
    ensures Mapped(Wrap(addr)) && CoreSpec.Byte(RomView(image), addr) == MapByte(image, Wrap(addr)) as u8
  {
    hide MapByte;
    var q, r := addr / 0x1_0000_0000, Wrap(addr);
    FromQuotient(addr, 0x100_0000, 0x100 * q + r / 0x100_0000, r % 0x100_0000);
  }

  /** `read_uint32` over the machine is the core's 32-bit read of that memory, in twenty ticks. */
  method ReadUint32(tb: TESTBENCH, addr: u32, ghost image: seq<bv32>) returns (v: u32)
    requires tb.Valid() && Quiet(tb.State(), image)
    requires Mapped(addr) && Mapped(addr + 1) && Mapped(addr + 2) && Mapped(addr + 3)
    modifies tb, tb.Repr()
    ensures tb.Valid() && Quiet(tb.State(), image) && SameRam(old(tb.State()), tb.State(), 20)
    ensures v == CoreSpec.ReadU32(RomView(image), addr) && tb.tickcount == old(tb.tickcount) + 20
  {
    hide Quiet, RunBench, MapByte, Mapped, SameRam, PostBench, ByteRequest, BigEndian, Wrap;
    ghost var b := tb.State();
    ViewWord(b, image, addr);
    var b3 := ReadUint8(tb, Plus(addr, 3), image);
    ghost var c1 := tb.State();
    var b2 := ReadUint8(tb, Plus(addr, 2), image);
    ghost var c2 := tb.State();
    SameRamMore(b, c1, c2, 5, 5);
    var b1 := ReadUint8(tb, Plus(addr, 1), image);
    ghost var c3 := tb.State();
    SameRamMore(b, c2, c3, 10, 5);
    var b0 := ReadUint8(tb, addr, image);
    SameRamMore(b, c3, tb.State(), 15, 5);
    v := BigEndian(b0, b1, b2, b3);
  }

  function BigEndian(b0: bv8, b1: bv8, b2: bv8, b3: bv8): u32 {
    b3 as u8 + 0x100 * b2 as u8 + 0x1_0000 * b1 as u8 + 0x100_0000 * b0 as u8
  }

  lemma ViewWord(b: Bench, image: seq<bv32>, addr: u32)
    requires Quiet(b, image)
    requires Mapped(addr) && Mapped(addr + 1) && Mapped(addr + 2) && Mapped(addr + 3)
    ensures |image| == ROM_WORDS
    ensures Mapped(Plus(addr, 1)) && Mapped(Plus(addr, 2)) && Mapped(Plus(addr, 3))
    ensures CoreSpec.ReadU32(RomView(image), addr) ==
            BigEndian(MapByte(image, addr), MapByte(image, Plus(addr, 1)), MapByte(image, Plus(addr, 2)), MapByte(image, Plus(addr, 3)))
  {
    hide Quiet, MapByte, Mapped, CoreSpec.Byte, RomView;
    QuietImage(b, image);
    ViewByte(image, addr);
    ViewByte(image, addr + 1);
    ViewByte(image, addr + 2);
    ViewByte(image, addr + 3);
    assert Wrap(addr) == addr;
  }

  lemma QuietImage(b: Bench, image: seq<bv32>)
    requires Quiet(b, image)
    ensures |image| == ROM_WORDS
  {
  }

  /** The image starts with the test program, assembled for the count `n`. */
  predicate HoldsProgram(image: seq<bv32>, n: u32)
    requires |image| == ROM_WORDS
  {
    forall i | 0 <= i < Fibonacci.LENGTH :: MemSim.ByteOf(image[i / 4], i % 4) as u8 == Fibonacci.Program(n)[i]
  }

  lemma ProgramLoaded(image: seq<bv32>, n: u32)
    requires |image| == ROM_WORDS && HoldsProgram(image, n)
    ensures Fibonacci.Loaded(RomView(image), START, n)
    ensures forall a: u32 | START <= a < START + Fibonacci.LENGTH :: Mapped(a)
  {
    hide MemSim.ByteOf, Fibonacci.Program, Mapped, MapByte, RomView, CoreSpec.Byte;
    forall i | 0 <= i < Fibonacci.LENGTH
      ensures Fibonacci.At(RomView(image), START, i) == Fibonacci.Program(n)[i]
    {
      var a: u32 := START + i;
      ProgramByte(image, i);
      ViewByte(image, a);
    }
    forall a: u32 | START <= a < START + Fibonacci.LENGTH ensures Mapped(a) { ProgramByte(image, a - START); }
  }

  lemma ProgramByte(image: seq<bv32>, i: nat)
    requires |image| == ROM_WORDS && i < Fibonacci.LENGTH
    ensures Mapped(START + i) && MapByte(image, START + i) == MemSim.ByteOf(image[i / 4], i % 4)
  {
    hide MemSim.ByteOf;
    var a: u32 := START + i;
    FromQuotient(a, 0x100_0000, 0, a);
    assert RegionOf(a) == ROM;
    assert a / 4 % ROM_WORDS == i / 4 && a % 4 == i % 4;
  }

  /** The core, started where the simulation starts it, runs the program out of the ROM image. */
  lemma FibonacciFromRom(image: seq<bv32>, n: u32, fuel: nat) returns (f: CoreSpec.Core)
    requires |image| == ROM_WORDS && HoldsProgram(image, n) && fuel > 10 + 11 * Fibonacci.LoopCount(n)
    ensures CoreSpec.Run(CoreSpec.Init(START, STACK, RomView(image)), fuel) == CoreSpec.Stopped(f)
    ensures f.regs[CoreSpec.EAX] == Fibonacci.Fib(Fibonacci.LoopCount(n) + 1) % 0x1_0000_0000
    ensures f.regs[CoreSpec.EBX] == Fibonacci.Fib(Fibonacci.LoopCount(n)) % 0x1_0000_0000
    ensures f.mem == RomView(image)
  {
    hide CoreSpec.Run, Fibonacci.Fib, RomView, Fibonacci.Loaded, Fibonacci.Program;
    ProgramLoaded(image, n);
    f := Fibonacci.WholeRun(CoreSpec.Init(START, STACK, RomView(image)), START, n, fuel);
  }
}
