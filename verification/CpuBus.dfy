/** The CPU's view of the bus: `read_uint8` and `read_uint32` over the ticking machine. */
module CpuBus {
  import opened Words
  import opened CpuSim
  import opened CpuInterface
  import opened BusMaster
  import opened BusCycle
  import opened TestBench
  import opened BusReads
  import MemSim

  // ---------- Bytes of half words of words ----------

  /** The transaction `read_uint8` makes: a memory read at the even address, with the high byte enabled and the low one not. */
  function ByteRequest(addr: u32): (r: Request)
    ensures r.addr % 2 == 0 && r.addr <= addr <= r.addr + 1 && r.bhe && !r.ble && !r.wr && r.mio && r.data == 0
  {
    Request(addr - addr % 2, 0, true, false, false, true)
  }

  /** Which byte of the half word it returns. */
  function PickByte(addr: u32, h: bv16): bv8 {
    if addr % 2 == 1 then (h >> 8) as bv8 else (h & 0xff) as bv8
  }

  /** The part of an address that reaches the 24 address lines. */
  function Lines(addr: int): int {
    addr % 0x100_0000
  }

  /** The byte the memory map holds at an address outside RAM: the image's, in both windows, or zero. */
  function MapByte(image: seq<bv32>, addr: int): bv8
    requires |image| == ROM_WORDS
  {
    var a := Lines(addr);
    if RegionOf(a) == ROM then MemSim.ByteOf(image[a / 4 % ROM_WORDS], a % 4) else 0
  }

  /** An address that does not go to RAM. */
  predicate Mapped(addr: int) {
    RegionOf(Lines(addr)) != RAM
  }

  /** The two ROM windows show the same image, byte for byte, and the holes nothing. */
  lemma Windows(image: seq<bv32>, a: int, b: int)
    requires |image| == ROM_WORDS
    ensures RegionOf(Lines(a)) == RegionOf(Lines(b)) == ROM && a % 0x1_0000 == b % 0x1_0000 ==>
              MapByte(image, a) == MapByte(image, b)
    ensures RegionOf(Lines(a)) == VIDEO_ROM || RegionOf(Lines(a)) == ISA_HOLE ==> MapByte(image, a) == 0
  {
    hide MemSim.ByteOf;
    WordInWindow(a);
    WordInWindow(b);
  }

  lemma WordInWindow(a: int)
    ensures Lines(a) / 4 % ROM_WORDS == a % 0x1_0000 / 4 && Lines(a) % 4 == a % 0x1_0000 % 4
  {
    var q, k := a / 0x1_0000, a % 0x1_0000;
    FromQuotient(a, 0x100_0000, q / 0x100, 0x1_0000 * (q % 0x100) + k);
    var l := Lines(a);
    FromQuotient(l, 4, 0x4000 * (q % 0x100) + k / 4, k % 4);
    FromQuotient(l / 4, 0x4000, q % 0x100, k / 4);
  }

  lemma HalfBytes(w: bv32)
    ensures (HalfOf(w, false) & 0xff) as bv8 == MemSim.Byte0(w)
    ensures (HalfOf(w, false) >> 8) as bv8 == MemSim.Byte1(w)
    ensures (HalfOf(w, true) & 0xff) as bv8 == MemSim.Byte2(w)
    ensures (HalfOf(w, true) >> 8) as bv8 == MemSim.Byte3(w)
  {
  }

  lemma PickedFromWord(w: bv32, addr: u32)
    ensures PickByte(addr, HalfOf(w, UpperHalf(addr - addr % 2))) == MemSim.ByteOf(w, addr % 4)
  {
    hide HalfOf, MemSim.Byte0, MemSim.Byte1, MemSim.Byte2, MemSim.Byte3;
    HalfBytes(w);
    LaneOfAddress(addr);
  }

  lemma LaneOfAddress(addr: u32)
    ensures addr % 4 == (if UpperHalf(addr - addr % 2) then 2 else 0) + addr % 2
  {
    var q := addr / 4;
    var r := addr % 4;
    FromQuotient(addr, 2, 2 * q + r / 2, r % 2);
    FromQuotient(addr - addr % 2, 2, 2 * q + r / 2, 0);
    FromQuotient(2 * q + r / 2, 2, q, r / 2);
  }

  /** The byte picked out of the half word is the byte of the memory map. */
  lemma ReadsMapByte(image: seq<bv32>, addr: u32)
    requires |image| == ROM_WORDS && Mapped(addr)
    ensures var r := ByteRequest(addr);
            && RegionOf(4 * WordAddress(r.addr)) != RAM
            && PickByte(addr, HalfOf(MapWord(image, WordAddress(r.addr)), UpperHalf(r.addr))) == MapByte(image, addr)
  {
    hide HalfOf, UpperHalf, PickByte, MemSim.ByteOf;
    WordOfByte(addr);
    MemoryMap(Lines(addr));
    PickedFromWord(MapWord(image, WordAddress(ByteRequest(addr).addr)), addr);
    ZeroByte(addr % 4);
  }

  /** The word that a byte request goes to. */
  lemma WordOfByte(addr: u32)
    ensures WordAddress(ByteRequest(addr).addr) == Lines(addr) / 4
    ensures 4 * (Lines(addr) / 4) == Lines(addr) / 4 * 4 && Lines(addr) % 4 == addr % 4
  {
    var e: u32 := addr - addr % 2;
    WordAddressOf(e);
    SameWordAddress(addr);
    var q, l := addr / 0x100_0000, Lines(addr);
    FromQuotient(addr, 4, 0x40_0000 * q + l / 4, l % 4);
    FromQuotient(addr / 4, 0x40_0000, q, l / 4);
  }

  lemma SameWordAddress(addr: u32)
    ensures (addr - addr % 2) / 4 == addr / 4
  {
    var q, r := addr / 4, addr % 4;
    FromQuotient(addr, 2, 2 * q + r / 2, r % 2);
    FromQuotient(addr - addr % 2, 4, q, r - r % 2);
  }

  lemma ZeroByte(i: MemSim.Lane)
    ensures MemSim.ByteOf(0, i) == 0
  {
  }

  // ---------- One read, any number of reads ----------

  /** A byte read of a mapped address: five ticks, the right byte, and the machine quiet again. */
  lemma ReadByte(b: Bench, image: seq<bv32>, addr: u32)
    requires Quiet(b, image) && Mapped(addr)
    ensures var c := RunBench(PostBench(b, ByteRequest(addr)), 5);
            && Quiet(c, image) && SameRam(b, c, 5)
            && c.link.m.shared.completed && !c.link.m.shared.request
            && PickByte(addr, c.link.m.shared.req.data) == MapByte(image, addr)
            && c.link.f.mem.rdEnable && c.link.f.mem.wrEnable == b.link.f.mem.wrEnable
    ensures forall n | 0 < n < 5 :: !RunBench(PostBench(b, ByteRequest(addr)), n).link.m.shared.completed
  {
    PostQuiet(b, image, ByteRequest(addr));
    hide Quiet, HalfOf, UpperHalf, PickByte, RegionOf, WordAddress, MapWord, RunBench, Shows, MapByte, Advance, TimerOf;
    ReadsMapByte(image, addr);
    ReadTransaction(PostBench(b, ByteRequest(addr)), image);
  }

  lemma PostQuiet(b: Bench, image: seq<bv32>, r: Request)
    requires Quiet(b, image)
    ensures Quiet(PostBench(b, r), image) && Pending(PostBench(b, r).link) && PostBench(b, r).link.m.shared.req == r
    ensures PostBench(b, r).ram == b.ram && TimerOf(PostBench(b, r)) == TimerOf(b)
    ensures PostBench(b, r).dec == b.dec && PostBench(b, r).link.f == b.link.f
  {
  }

  /** A call of `read_uint8`, made after the CPU thread has let some ticks go by. */
  datatype Fetch = Fetch(idle: nat, addr: u32)

  /** The machine after one call: idle ticks, the request, five ticks. */
  function AfterFetch(b: Bench, f: Fetch): Bench {
    RunBench(PostBench(RunBench(b, f.idle), ByteRequest(f.addr)), 5)
  }

  function AfterFetches(b: Bench, fs: seq<Fetch>): Bench
    decreases |fs|
  {
    if fs == [] then b else AfterFetch(AfterFetches(b, fs[..|fs| - 1]), fs[|fs| - 1])
  }

  /** What the calls return, in call order. */
  function Fetched(b: Bench, fs: seq<Fetch>): seq<bv8>
    decreases |fs|
  {
    if fs == [] then []
    else
      var last := fs[|fs| - 1];
      Fetched(b, fs[..|fs| - 1]) + [PickByte(last.addr, AfterFetches(b, fs).link.m.shared.req.data)]
  }

  lemma {:induction false} IdleTicks(b: Bench, image: seq<bv32>, n: nat)
    requires Quiet(b, image) && !b.link.m.shared.request
    ensures Quiet(RunBench(b, n), image) && RunBench(b, n).link.m.shared == b.link.m.shared
    ensures SameRam(b, RunBench(b, n), n) && RunBench(b, n).link.f.mem == b.link.f.mem
    decreases n
  {
    hide Quiet, Next, SameRam;
    if n > 0 {
      IdleTicks(b, image, n - 1);
      IdleTick(RunBench(b, n - 1), image);
      SameRamMore(b, RunBench(b, n - 1), RunBench(b, n), n - 1, 1);
    } else {
      NoTicks(b, image);
    }
  }

  lemma NoTicks(b: Bench, image: seq<bv32>)
    requires Quiet(b, image)
    ensures SameRam(b, b, 0)
  {
    AdvanceOne(b.ram.count, b.ram.delay);
  }

  /** The machine `n` ticks after the i-th call has posted its request. */
  function During(b: Bench, fs: seq<Fetch>, i: nat, n: nat): Bench
    requires i < |fs|
  {
    RunBench(PostBench(RunBench(AfterFetches(b, fs[..i]), fs[i].idle), ByteRequest(fs[i].addr)), n)
  }

  /** How many ticks the calls take. */
  function Ticks(fs: seq<Fetch>): nat
    decreases |fs|
  {
    if fs == [] then 0 else Ticks(fs[..|fs| - 1]) + fs[|fs| - 1].idle + 5
  }

  /**
   * Any number of reads of mapped addresses, with any idle time before each: every call has its answer after
   * five ticks and not before, and what the calls return, in order, is what the memory map holds.
   */
  lemma {:induction false} AllReads(b: Bench, image: seq<bv32>, fs: seq<Fetch>)
    requires Quiet(b, image) && !b.link.m.shared.request
    requires forall i | 0 <= i < |fs| :: Mapped(fs[i].addr)
    ensures |Fetched(b, fs)| == |fs|
    ensures forall i | 0 <= i < |fs| :: Fetched(b, fs)[i] == MapByte(image, fs[i].addr)
    ensures Quiet(AfterFetches(b, fs), image) && !AfterFetches(b, fs).link.m.shared.request
    ensures SameRam(b, AfterFetches(b, fs), Ticks(fs))
    ensures fs != [] ==> AfterFetches(b, fs).link.f.mem.rdEnable
    ensures AfterFetches(b, fs).link.f.mem.wrEnable == b.link.f.mem.wrEnable
    ensures forall i, n | 0 <= i < |fs| && 0 < n <= 5 :: During(b, fs, i, n).link.m.shared.completed <==> n == 5
    decreases |fs|
  {
    hide Quiet, RunBench, Mapped, PickByte, MapByte, SameRam;
    if fs == [] {
      NoTicks(b, image);
    } else {
      var rest, last := fs[..|fs| - 1], fs[|fs| - 1];
      AllReads(b, image, rest);
      var c := AfterFetches(b, rest);
      var d := RunBench(c, last.idle);
      IdleTicks(c, image, last.idle);
      ReadByte(d, image, last.addr);
      SameRamMore(b, c, d, Ticks(rest), last.idle);
      SameRamMore(b, d, AfterFetches(b, fs), Ticks(rest) + last.idle, 5);
      forall i, n | 0 <= i < |fs| && 0 < n <= 5
        ensures During(b, fs, i, n).link.m.shared.completed <==> n == 5
      {
        if i < |rest| {
          assert fs[..i] == rest[..i];
          assert During(b, fs, i, n) == During(b, rest, i, n);
        }
      }
    }
  }

  // ---------- From reset ----------

  /** The machine as built, with a ROM image loaded. */
  predicate PoweredUp(b: Bench, image: seq<bv32>) {
    && b.link == AS_BUILT
    && b.dec == DARK && !b.rst && !b.cpuReset
    && |image| == ROM_WORDS && b.rom == MemSim.Mem(image, 0, 0) && b.ram.count == 0
  }

  /** The tick inside `reset`, and the first tick after it. */
  function AfterReset(b: Bench): Bench {
    Next(Next(b.(rst := true)).(rst := false))
  }

  /** `reset` and one more tick start the CPU thread and leave the machine quiet, with nothing read. */
  lemma ResetQuiet(b: Bench, image: seq<bv32>)
    requires PoweredUp(b, image)
    ensures var c := AfterReset(b);
            && Quiet(c, image) && c.link.m.running && c.link.m.shared == b.link.m.shared
            && c.ram == b.ram && TimerOf(c) == Fresh && !c.link.f.mem.rdEnable && !c.link.f.mem.wrEnable && !c.dec.ram.wrEnable && HighBitsZero(c.link.f) && c.link.f.mem.address == 0
            && Constant(c.link.p)
  {
    ResetTick(b, image);
    FirstTick(Next(b.(rst := true)).(rst := false), image);
  }

  /** Between the two ticks: the slave is reset, the pins are not. */
  predicate HalfReset(b: Bench, image: seq<bv32>) {
    && b.link.m == CpuSim.POWER_UP && b.link.f == ResetFsm(AS_BUILT.f)
    && b.dec == DARK && !b.rst && b.cpuReset
    && |image| == ROM_WORDS && b.rom == MemSim.Mem(image, 0, 0) && b.ram.count == 0
  }

  lemma ResetTick(b: Bench, image: seq<bv32>)
    requires PoweredUp(b, image)
    ensures HalfReset(Next(b.(rst := true)).(rst := false), image)
    ensures Next(b.(rst := true)).ram == b.ram
  {
    assert Defined(b.(rst := true));
  }

  lemma FirstTick(b: Bench, image: seq<bv32>)
    requires HalfReset(b, image)
    ensures Quiet(Next(b), image) && Next(b).link.m.running && Next(b).link.m.shared == b.link.m.shared
    ensures Next(b).ram == b.ram && TimerOf(Next(b)) == Fresh && !Next(b).link.f.mem.rdEnable && !Next(b).link.f.mem.wrEnable && !Next(b).dec.ram.wrEnable
    ensures HighBitsZero(Next(b).link.f) && Next(b).link.f.mem.address == 0 && Constant(Next(b).link.p)
  {
    assert Defined(b);
  }

  /** Neither tick asks a memory for a word past its end. */
  lemma ResetDefined(b: Bench, image: seq<bv32>)
    requires PoweredUp(b, image)
    ensures Defined(b.(rst := true)) && Defined(Next(b.(rst := true)).(rst := false))
    ensures AfterReset(b) == TickBench(TickBench(b.(rst := true)).(rst := false))
  {
    ResetTick(b, image);
    hide TickBench;
  }

  /** From power-up, through reset, any sequence of reads returns the image. */
  lemma AllReadsFromReset(b: Bench, image: seq<bv32>, fs: seq<Fetch>)
    requires PoweredUp(b, image)
    requires forall i | 0 <= i < |fs| :: Mapped(fs[i].addr)
    ensures |Fetched(AfterReset(b), fs)| == |fs|
    ensures forall i | 0 <= i < |fs| :: Fetched(AfterReset(b), fs)[i] == MapByte(image, fs[i].addr)
    ensures forall i, n | 0 <= i < |fs| && 0 < n <= 5 ::
              During(AfterReset(b), fs, i, n).link.m.shared.completed <==> n == 5
  {
    hide Quiet, RunBench, Mapped, PickByte, MapByte, Next;
    ResetQuiet(b, image);
    AllReads(AfterReset(b), image, fs);
  }

  /** From reset on, in every history of ticks and requests, the invariant of the bus holds. */
  lemma EveryHistoryFromReset(b: Bench, image: seq<bv32>, events: seq<Event>)
    requires PoweredUp(b, image)
    ensures var l := Play(AfterReset(b).link, events); Invariant(l) && HighBitsZero(l.f) && Constant(l.p)
  {
    hide Next;
    ResetQuiet(b, image);
    EveryHistory(AfterReset(b).link, events);
    ConstantPins(AfterReset(b).link, events);
  }

  // ---------- The calls themselves ----------

  /** `read_uint8`: posts the transaction and lets the machine tick until it is completed. */
  method ReadUint8(tb: TESTBENCH, addr: u32, ghost image: seq<bv32>) returns (v: bv8)
    requires tb.Valid() && Quiet(tb.State(), image) && Mapped(addr)
    modifies tb, tb.Repr()
    ensures tb.Valid() && Quiet(tb.State(), image) && SameRam(old(tb.State()), tb.State(), 5)
    ensures tb.State() == RunBench(PostBench(old(tb.State()), ByteRequest(addr)), 5)
    ensures v == MapByte(image, addr) && tb.tickcount == old(tb.tickcount) + 5
  {
    hide Quiet, TickBench, Defined, PickByte, MapByte;
    ghost var b := tb.State();
    ReadByte(b, image, addr);
    tb.cpu.BusTransaction(ByteRequest(addr));
    ghost var p, n := PostBench(b, ByteRequest(addr)), 0;
    ReadDefined(b, image, addr);
    while !tb.cpu.shared.completed
      invariant 0 <= n <= 5 && tb.Valid() && tb.State() == RunBench(p, n)
      invariant tb.tickcount == old(tb.tickcount) + n
      decreases 5 - n
    {
      tb.Tick();
      n := n + 1;
    }
    v := PickByte(addr, tb.cpu.shared.req.data);
  }

  lemma ReadDefined(b: Bench, image: seq<bv32>, addr: u32)
    requires Quiet(b, image) && Mapped(addr)
    ensures var p := PostBench(b, ByteRequest(addr)); !p.link.m.shared.completed
    ensures forall n | 0 <= n < 5 :: Defined(RunBench(PostBench(b, ByteRequest(addr)), n))
  {
    PostQuiet(b, image, ByteRequest(addr));
    hide Quiet, RunBench, Defined, HalfOf, UpperHalf, RegionOf, WordAddress, MapWord, Shows, BusCycle.Run;
    QuietOutsideReset(b, image);
    var p := PostBench(b, ByteRequest(addr));
    ReadsMapByte(image, addr);
    QuietDefined(p, image);
    ReadTransaction(p, image);
  }
}
