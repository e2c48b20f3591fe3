/** Reads over the whole machine return the bytes of the ROM image, in five ticks each, for ever. */
module BusReads {
  import opened Words
  import opened CpuSim
  import opened CpuInterface
  import opened BusMaster
  import opened BusCycle
  import opened TestBench
  import MemSim

  /** The word on the internal bus for an address on the pins. */
  function WordAddress(addr: u32): int {
    AddressPins(addr) / 2 % 0x40_0000
  }

  lemma WordAddressOf(addr: u32)
    ensures WordAddress(addr) == addr / 4 % 0x40_0000
    ensures addr < 0x100_0000 ==> WordAddress(addr) == addr / 4
    ensures 0 <= WordAddress(addr) < 0x40_0000
  {
    var q := addr / 2;
    FromQuotient(q, 0x80_0000, q / 0x80_0000, q % 0x80_0000);
    assert q / 2 == addr / 4;
    var h, l := q / 0x80_0000, q % 0x80_0000;
    FromQuotient(q, 2, h * 0x40_0000 + l / 2, l % 2);
    FromQuotient(addr / 4, 0x40_0000, h, l / 2);
    FromQuotient(l / 2, 0x40_0000, 0, l / 2);
  }

  // ---------- The RAM's counter ----------

  /** The RAM's delay counter: at rest until the RAM is first asked, then going round for ever. */
  datatype Timer = Fresh | Turning(left: nat)

  function TimerOf(b: Bench): Timer {
    if IsAsked(b.dec.ram) then Turning(b.ram.count) else Fresh
  }

  predicate IsAsked(p: RamPins) {
    p.rdEnable || p.wrEnable
  }

  /** The counter `n` ticks on. */
  function Advance(t: Timer, delay: nat, n: nat): Timer {
    if t == Fresh then Fresh else Turning((t.left - n) % (delay + 1))
  }

  lemma AdvanceOne(left: nat, delay: nat)
    requires left <= delay
    ensures Advance(Turning(left), delay, 0) == Turning(left)
    ensures Advance(Turning(left), delay, 1) == Turning(if left == 0 then delay else left - 1)
  {
    FromQuotient(left, delay + 1, 0, left);
    if left == 0 {
      FromQuotient(-1, delay + 1, -1, delay);
    } else {
      FromQuotient(left - 1, delay + 1, 0, left - 1);
    }
  }

  lemma AdvanceMore(t: Timer, delay: nat, m: nat, n: nat)
    ensures Advance(Advance(t, delay, m), delay, n) == Advance(t, delay, m + n)
  {
    if t.Turning? {
      var p := delay + 1;
      var q, r := (t.left - m) / p, (t.left - m) % p;
      var q1, r1 := (r - n) / p, (r - n) % p;
      assert (q + q1) * p == q * p + q1 * p;
      FromQuotient(t.left - m - n, p, q + q1, r1);
    }
  }

  /** The same contents, the counter `n` ticks on, and still nothing written if nothing was. */
  predicate SameRam(b: Bench, c: Bench, n: nat) {
    && c.ram.words == b.ram.words && c.ram.delay == b.ram.delay
    && c.dec.ram.wrEnable == b.dec.ram.wrEnable
    && TimerOf(c) == Advance(TimerOf(b), b.ram.delay, n)
  }

  lemma SameRamMore(b: Bench, c: Bench, d: Bench, m: nat, n: nat)
    requires SameRam(b, c, m) && SameRam(c, d, n)
    ensures SameRam(b, d, m + n)
  {
    AdvanceMore(TimerOf(b), b.ram.delay, m, n);
  }

  // ---------- The machine between accesses to RAM ----------

  /** The ROM keeps its contents. */
  lemma {:induction false} RomStays(b: Bench, image: seq<bv32>, n: nat)
    requires b.rom == MemSim.Mem(image, 0, 0)
    ensures RunBench(b, n).rom == MemSim.Mem(image, 0, 0)
    decreases n
  {
    hide Evaluate, Clock, CpuSim.Apply;
    if n > 0 { RomStays(b, image, n - 1); }
  }

  /**
   * What the RAM is told to write, if the write enable is up, is there already or is no lane at all; so
   * writing it again, which goes on for ever, changes nothing.
   */
  predicate Harmless(words: seq<bv32>, p: RamPins) {
    p.wrEnable ==> 0 <= p.address < |words| && MemSim.Merge(words[p.address], p.wrData, p.wrMask) == words[p.address]
  }

  /** The memories outside reset, the ROM as loaded; both enables of the RAM may be up. */
  predicate Plain(b: Bench, image: seq<bv32>) {
    && !b.rst && !b.cpuReset && Invariant(b.link)
    && |image| == ROM_WORDS && b.rom == MemSim.Mem(image, 0, 0)
    && 0 <= b.dec.rom.address < ROM_WORDS && b.dec.ram.address >= 0
    && b.ram.count <= b.ram.delay && Harmless(b.ram.words, b.dec.ram)
    && (if IsAsked(b.dec.ram) then b.dec.ram.address < |b.ram.words| else b.ram.count == 0)
    && 0 <= b.link.f.mem.address < 0x40_0000
  }

  /** What the decoder shows to the RAM: the slave's port if that is at RAM, else no lane of word zero. */
  predicate DecoderShows(d: RamPins, port: Port) {
    if RegionOf(4 * port.address) == RAM then
      d == RamPins(port.address, port.rdEnable, port.wrEnable, port.wrMask, port.wrData)
    else d.address == 0 && d.wrMask == MemSim.NO_LANES
  }

  /** Between transactions. */
  predicate Quiet(b: Bench, image: seq<bv32>) {
    Plain(b, image) && Rest(b.link) && DecoderShows(b.dec.ram, b.link.f.mem)
  }

  /** A transaction with word `w`, which is not RAM, is in flight and the decoder shows it. */
  predicate Serving(b: Bench, image: seq<bv32>, w: int) {
    && Plain(b, image) && b.link.m.state != BUS_IDLE && b.link.m.latched.mio
    && b.link.f.mem.address == w && RegionOf(4 * w) != RAM && DecoderShows(b.dec.ram, b.link.f.mem)
    && (!b.link.m.latched.wr ==> b.link.f.mem.rdEnable)
    && (RegionOf(4 * w) == ROM ==> b.dec.rom == RomPins(RomIndex(w), b.link.f.mem.rdEnable))
  }

  /** What the memory map holds at word `w` outside RAM: the image, twice, and zeros. */
  function MapWord(image: seq<bv32>, w: int): bv32
    requires |image| == ROM_WORDS
  {
    if RegionOf(4 * w) == ROM then image[RomIndex(w)] else 0
  }

  /** The RAM's counter after a call. */
  function LeftNext(b: Bench): nat {
    if !IsAsked(b.dec.ram) then b.ram.count else if b.ram.count == 0 then b.ram.delay else b.ram.count - 1
  }

  lemma PlainDefined(b: Bench, image: seq<bv32>)
    requires Plain(b, image)
    ensures Defined(b)
    ensures MemSim.Apply(b.ram, b.ramOut, RamCall(b.dec)).0 == b.ram.(count := LeftNext(b))
    ensures MemSim.Apply(b.rom, b.romOut, RomCall(b.dec)).0 == b.rom
    ensures Advance(TimerOf(b), b.ram.delay, 1) == if IsAsked(b.dec.ram) then Turning(LeftNext(b)) else Fresh
    ensures LeftNext(b) <= b.ram.delay
  {
    hide MemSim.Merge;
    if IsAsked(b.dec.ram) { AdvanceOne(b.ram.count, b.ram.delay); }
    if b.dec.ram.wrEnable { assert b.ram.words[b.dec.ram.address := b.ram.words[b.dec.ram.address]] == b.ram.words; }
  }

  lemma NoLanes(words: seq<bv32>, p: RamPins)
    requires p.wrMask == MemSim.NO_LANES && (p.wrEnable ==> 0 <= p.address < |words|)
    ensures Harmless(words, p)
  {
    if p.wrEnable { NoBits(words[p.address], p.wrData); }
  }

  lemma NoBits(w: bv32, data: bv32)
    ensures MemSim.Merge(w, data, MemSim.NO_LANES) == w
  {
  }

  /** The decoder after a tick shows the slave's port; where that is not RAM, the RAM's enables are held. */
  lemma DecoderAfter(b: Bench)
    requires Defined(b) && !b.rst && DecoderShows(b.dec.ram, b.link.f.mem) && 0 <= Next(b).link.f.mem.address
    ensures var c := Next(b);
            && DecoderShows(c.dec.ram, c.link.f.mem) && 0 <= c.dec.rom.address < ROM_WORDS && 0 <= c.dec.ram.address
            && (RegionOf(4 * c.link.f.mem.address) != RAM ==>
                  c.dec.ram.wrEnable == b.dec.ram.wrEnable && c.dec.ram.rdEnable == b.dec.ram.rdEnable)
            && (RegionOf(4 * c.link.f.mem.address) == ROM ==>
                  c.dec.rom == RomPins(RomIndex(c.link.f.mem.address), c.link.f.mem.rdEnable))
  {
    hide Clock, CpuSim.Apply, MemSim.Apply, RegionOf;
  }

  /** Memories and decoder through a tick whose transaction, if there is one, is not with RAM. */
  predicate Calm(b: Bench, image: seq<bv32>) {
    Plain(b, image) && DecoderShows(b.dec.ram, b.link.f.mem)
  }

  predicate PortElsewhere(was: Port, now: Port) {
    0 <= now.address < 0x40_0000 && (now == was || RegionOf(4 * now.address) != RAM)
  }

  lemma CalmTick(b: Bench, image: seq<bv32>)
    requires Calm(b, image) && PortElsewhere(b.link.f.mem, Next(b).link.f.mem)
    ensures Calm(Next(b), image) && SameRam(b, Next(b), 1)
    ensures RegionOf(4 * Next(b).link.f.mem.address) == ROM ==>
              Next(b).dec.rom == RomPins(RomIndex(Next(b).link.f.mem.address), Next(b).link.f.mem.rdEnable)
  {
    hide MemSim.Merge, MemSim.Apply, Advance, Evaluate, Clock, CpuSim.Apply, RegionOf, Invariant;
    PlainDefined(b, image);
    DecoderAfter(b);
    TickKeeps(b.link, AnswersOf(b));
    LinkTick(b);
    if RegionOf(4 * Next(b).link.f.mem.address) != RAM { NoLanes(b.ram.words, Next(b).dec.ram); }
  }

  /** A tick without a request changes nothing that matters. */
  lemma IdleTick(b: Bench, image: seq<bv32>)
    requires Quiet(b, image) && !b.link.m.shared.request
    ensures Quiet(Next(b), image) && Next(b).link.m.shared == b.link.m.shared
    ensures Next(b).link.f.mem == b.link.f.mem && SameRam(b, Next(b), 1)
  {
    hide MemSim.Apply, Evaluate, Advance, MemSim.Merge, Harmless, RegionOf, SameRam;
    PlainDefined(b, image);
    LinkTick(b);
    PortStays(b.link, AnswersOf(b));
    RestStays(b.link, AnswersOf(b));
    CalmTick(b, image);
  }

  lemma RestStays(l: Link, b: Answers)
    requires Rest(l) && !l.m.shared.request
    ensures Rest(Tick(l, b)) && Tick(l, b).m.shared == l.m.shared
  {
  }

  /** A transaction with memory other than RAM. */
  predicate Outside(r: Request) {
    r.mio && RegionOf(4 * WordAddress(r.addr)) != RAM
  }

  /** The tick that accepts it. */
  lemma AcceptTick(b: Bench, image: seq<bv32>)
    requires Quiet(b, image) && Pending(b.link) && Outside(b.link.m.shared.req)
    ensures Serving(Next(b), image, WordAddress(b.link.m.shared.req.addr)) && SameRam(b, Next(b), 1)
    ensures Next(b).link.m.latched == b.link.m.shared.req && Next(b).link.f.mem.wrEnable == b.link.f.mem.wrEnable
  {
    hide MemSim.Apply, Evaluate, Advance, MemSim.Merge, Harmless, RegionOf, SameRam, WordAddress;
    PlainDefined(b, image);
    LinkTick(b);
    AcceptPort(b.link, AnswersOf(b));
    WordAddressOf(b.link.m.shared.req.addr);
    CalmTick(b, image);
  }

  /** What the slave takes from the pins of the cycle's first clock. */
  lemma AcceptPort(l: Link, b: Answers)
    requires Pending(l) && l.m.shared.req.mio && 0 <= l.f.mem.address < 0x40_0000
    ensures var t, r := Tick(l, b), l.m.shared.req;
      && t.m.latched == r && t.m.state == BUS_C1_T2
      && t.f.mem == l.f.mem.(address := WordAddress(r.addr), rdEnable := l.f.mem.rdEnable || !r.wr)
  {
    hide AddressPins;
    FromQuotient(l.f.mem.address, 0x40_0000, 0, l.f.mem.address);
  }

  /** While it is served the answer is there in every tick. */
  lemma ServedAnswer(b: Bench, image: seq<bv32>, w: int)
    requires Serving(b, image, w)
    ensures Defined(b) && AnswersRequest(b.link.m.latched, AnswersOf(b))
    ensures !b.link.m.latched.wr ==> AnswersOf(b).memData == MapWord(image, w)
  {
    hide RegionOf, Harmless;
    ServedDefined(b, image, w);
  }

  lemma ServedDefined(b: Bench, image: seq<bv32>, w: int)
    requires Serving(b, image, w)
    ensures Defined(b)
  {
    PlainDefined(b, image);
  }

  lemma ServedTick(b: Bench, image: seq<bv32>, w: int)
    requires Serving(b, image, w)
    ensures Next(b).link.m.state != BUS_IDLE ==> Serving(Next(b), image, w) && Next(b).link.m.latched == b.link.m.latched
    ensures Next(b).link.m.state == BUS_IDLE && Next(b).link.f.state == S0 ==> Quiet(Next(b), image)
    ensures SameRam(b, Next(b), 1)
    ensures !b.link.m.latched.wr ==>
              Next(b).link.f.mem.rdEnable && Next(b).link.f.mem.wrEnable == b.link.f.mem.wrEnable
  {
    hide MemSim.Apply, Evaluate, Advance, MemSim.Merge, Harmless, RegionOf, SameRam;
    PlainDefined(b, image);
    LinkTick(b);
    PortKept(b.link, AnswersOf(b));
    CalmTick(b, image);
    hide CpuSim.Apply, Clock, Invariant;
    EndRests(b.link, AnswersOf(b));
  }

  /** In a cycle the slave's port stays where it is, and a read changes nothing in it. */
  lemma PortKept(l: Link, b: Answers)
    requires Invariant(l) && l.m.state != BUS_IDLE
    ensures var t := Tick(l, b);
      && t.f.mem.address == l.f.mem.address && t.f.mem.rdEnable == l.f.mem.rdEnable
      && (!l.m.latched.wr ==> t.f.mem == l.f.mem)
      && t.m.latched == l.m.latched
  {
    hide HalfOf, WithHalf, Latch, Lanes;
  }

  lemma EndRests(l: Link, b: Answers)
    requires Invariant(l) && l.m.state != BUS_IDLE
    ensures Tick(l, b).m.state == BUS_IDLE && Tick(l, b).f.state == S0 ==> Rest(Tick(l, b))
  {
    hide HalfOf, WithHalf, Latch, Lanes, Drive;
  }

  lemma {:induction false} ServedRun(b: Bench, image: seq<bv32>, n: nat)
    requires Quiet(b, image) && Pending(b.link) && n > 0 && Outside(b.link.m.shared.req)
    requires forall i | 0 < i <= n :: BusCycle.Run(b.link, DeviceOf(b), i).m.state != BUS_IDLE
    ensures Serving(RunBench(b, n), image, WordAddress(b.link.m.shared.req.addr))
    ensures RunBench(b, n).link.m.latched == b.link.m.shared.req && SameRam(b, RunBench(b, n), n)
    ensures !b.link.m.shared.req.wr ==> RunBench(b, n).link.f.mem.wrEnable == b.link.f.mem.wrEnable
    ensures forall i | 0 <= i <= n :: Defined(RunBench(b, i))
    decreases n
  {
    hide Quiet, Serving, Defined, AnswersOf, WordAddress, Outside, SameRam, RunBench, BusCycle.Run, MapWord, Pending, Next,
         AnswersRequest;
    QuietOutsideReset(b, image);
    var w := WordAddress(b.link.m.shared.req.addr);
    QuietDefined(b, image);
    AcceptTick(b, image);
    if n > 1 {
      ServedRun(b, image, n - 1);
      LinkRuns(b, n);
      OneMore(b, n - 1);
      ServedTick(RunBench(b, n - 1), image, w);
      SameRamMore(b, RunBench(b, n - 1), RunBench(b, n), n - 1, 1);
    }
    ServedDefined(RunBench(b, n), image, w);
  }

  lemma QuietOutsideReset(b: Bench, image: seq<bv32>)
    requires Quiet(b, image)
    ensures !b.rst && !b.cpuReset && |image| == ROM_WORDS
  {
  }

  lemma QuietDefined(b: Bench, image: seq<bv32>)
    requires Quiet(b, image)
    ensures Defined(b) && RunBench(b, 0) == b && RunBench(b, 1) == Next(b)
  {
    PlainDefined(b, image);
  }

  /** What a transaction outside RAM returns. */
  function MapResult(image: seq<bv32>, r: Request): bv16
    requires |image| == ROM_WORDS
  {
    if r.wr then r.data else HalfOf(MapWord(image, WordAddress(r.addr)), UpperHalf(r.addr))
  }

  /**
   * A half-word read or write outside RAM, posted when the machine is quiet, is in flight for four ticks and
   * complete after the fifth. A read gives the half word the memory map holds, a write changes neither
   * memory, and the machine is quiet again.
   */
  lemma OutsideTransaction(b: Bench, image: seq<bv32>)
    requires Quiet(b, image) && Pending(b.link) && Outside(b.link.m.shared.req)
    ensures |image| == ROM_WORDS
    ensures var r, c := b.link.m.shared.req, RunBench(b, 5);
            && Quiet(c, image) && SameRam(b, c, 5) && c.rom == b.rom
            && Completed(c.link, r, MapResult(image, r))
            && (forall n | 0 < n < 5 :: InFlight(RunBench(b, n).link, r))
            && (!r.wr ==> c.link.f.mem.rdEnable && c.link.f.mem.wrEnable == b.link.f.mem.wrEnable)
    ensures forall n | 0 <= n < 5 :: Defined(RunBench(b, n))
  {
    hide Quiet, Serving, Defined, AnswersOf, WordAddress, Outside, Invariant, Completed, InFlight, HalfOf, MapWord,
         Pending, RunBench, BusCycle.Run, Shows, SameRam, AnswersRequest;
    QuietOutsideReset(b, image);
    var r, device := b.link.m.shared.req, DeviceOf(b);
    var w := WordAddress(r.addr);
    ReachesCheck(b.link, device, 0);
    InFlightBusy(b.link, device, r, 2);
    ServedRun(b, image, 2);
    ServedAnswer(RunBench(b, 2), image, w);
    FirstAnswerDecides(b.link, device, 0);
    InFlightBusy(b.link, device, r, 4);
    ServedRun(b, image, 4);
    forall n | 0 < n < 5 ensures InFlight(RunBench(b, n).link, r) { LinkRuns(b, n); }
    LinkRuns(b, 5);
    OneMore(b, 4);
    ServedTick(RunBench(b, 4), image, w);
    SameRamMore(b, RunBench(b, 4), RunBench(b, 5), 4, 1);
    CompletedRest(RunBench(b, 5).link, r, MapResult(image, r));
    QuietRom(b, image);
    QuietRom(RunBench(b, 5), image);
  }

  lemma QuietRom(b: Bench, image: seq<bv32>)
    requires Quiet(b, image)
    ensures b.rom == MemSim.Mem(image, 0, 0)
  {
  }

  /** The case of a read. */
  lemma ReadTransaction(b: Bench, image: seq<bv32>)
    requires Quiet(b, image) && Pending(b.link) && Outside(b.link.m.shared.req) && !b.link.m.shared.req.wr
    ensures |image| == ROM_WORDS
    ensures var r, c := b.link.m.shared.req, RunBench(b, 5);
            && Quiet(c, image) && SameRam(b, c, 5)
            && Completed(c.link, r, HalfOf(MapWord(image, WordAddress(r.addr)), UpperHalf(r.addr)))
            && forall n | 0 < n < 5 :: InFlight(RunBench(b, n).link, r)
    ensures forall n | 0 <= n < 5 :: Defined(RunBench(b, n))
    ensures RunBench(b, 5).link.f.mem.rdEnable && RunBench(b, 5).link.f.mem.wrEnable == b.link.f.mem.wrEnable
  {
    hide Quiet, Outside, Completed, InFlight, HalfOf, MapWord, Pending, RunBench, SameRam, Defined;
    OutsideTransaction(b, image);
  }

  lemma OneMore(b: Bench, n: nat)
    ensures RunBench(b, n + 1) == Next(RunBench(b, n))
  {
  }

  lemma CompletedRest(l: Link, r: Request, v: bv16)
    requires Completed(l, r, v)
    ensures l.m.state == BUS_IDLE && l.f.state == S0
  {
  }

  lemma InFlightBusy(l: Link, device: Device, r: Request, n: nat)
    requires forall i | 0 < i <= n :: InFlight(BusCycle.Run(l, device, i), r)
    ensures forall i | 0 < i <= n :: BusCycle.Run(l, device, i).m.state != BUS_IDLE
  {
  }

  // ---------- Writes to I/O ----------

  /** The slave's I/O port has the address, the half word and the lanes of the request. */
  predicate IoCarries(port: Port, r: Request) {
    port.address == WordAddress(r.addr) && port.wrEnable && port.wrMask == LanesOf(r)
    && HalfOf(port.wrData, UpperHalf(r.addr)) == r.data
  }

  /** An I/O write is in flight, `t` ticks after its acceptance. */
  predicate IoServing(b: Bench, image: seq<bv32>, r: Request, t: nat) {
    && Calm(b, image) && b.link.m.state != BUS_IDLE && b.link.m.latched == r && (b.link.f.state == S1 <==> t == 1)
    && (if t == 1 then b.link.f.io.address == WordAddress(r.addr) && b.link.f.laneMask == LanesOf(r)
        else IoCarries(b.link.f.io, r))
  }

  lemma IoAccept(b: Bench, image: seq<bv32>)
    requires Quiet(b, image) && Pending(b.link) && HighBitsZero(b.link.f)
    requires var r := b.link.m.shared.req; r.wr && !r.mio
    ensures IoServing(Next(b), image, b.link.m.shared.req, 1) && SameRam(b, Next(b), 1)
    ensures Next(b).link.f.mem == b.link.f.mem
  {
    hide MemSim.Apply, Evaluate, Advance, MemSim.Merge, Harmless, RegionOf, SameRam, LanesOf, AddressPins;
    PlainDefined(b, image);
    LinkTick(b);
    AddressLatched(b.link, AnswersOf(b));
    CalmTick(b, image);
  }

  lemma IoAnswer(b: Bench, image: seq<bv32>, r: Request, t: nat)
    requires IoServing(b, image, r, t) && r.wr && !r.mio
    ensures Defined(b) && AnswersRequest(r, AnswersOf(b))
  {
    hide RegionOf, Harmless;
    PlainDefined(b, image);
  }

  lemma IoTick(b: Bench, image: seq<bv32>, r: Request, t: nat)
    requires IoServing(b, image, r, t) && r.wr && !r.mio && t > 0
    ensures Next(b).link.m.state != BUS_IDLE ==> IoServing(Next(b), image, r, t + 1)
    ensures Next(b).link.m.state == BUS_IDLE && Next(b).link.f.state == S0 ==> Quiet(Next(b), image)
    ensures IoCarries(Next(b).link.f.io, r) && Next(b).link.f.mem == b.link.f.mem && SameRam(b, Next(b), 1)
  {
    hide MemSim.Apply, Evaluate, Advance, MemSim.Merge, Harmless, RegionOf, SameRam, LanesOf, WordAddress, Clock, CpuSim.Apply;
    PlainDefined(b, image);
    LinkTick(b);
    IoPort(b.link, AnswersOf(b));
    if t == 1 { IoWriteLatched(b.link, AnswersOf(b)); }
    CalmTick(b, image);
    hide Invariant;
    EndRests(b.link, AnswersOf(b));
  }

  /** An I/O write leaves the memory port alone, and from its second clock on the I/O port too. */
  lemma IoPort(l: Link, b: Answers)
    requires Invariant(l) && l.m.state != BUS_IDLE && l.m.latched.wr && !l.m.latched.mio
    ensures var t := Tick(l, b);
      && t.f.mem == l.f.mem && t.m.latched == l.m.latched && t.f.state != S1
      && t.f.io.address == l.f.io.address && (l.f.state != S1 ==> t.f.io == l.f.io)
  {
    hide CpuSim.Apply, Clock, Invariant;
    var (m, p) := CpuSim.Apply(l.m, l.p, l.f.readyN, false);
    PinsInCycle(l);
    IoClock(l.f, p, b);
  }

  /** Once its first clock has gone by, a cycle shows its direction and does not start another one. */
  lemma PinsInCycle(l: Link)
    requires Invariant(l) && l.m.state != BUS_IDLE
    ensures var (m, p) := CpuSim.Apply(l.m, l.p, l.f.readyN, false);
      && m.latched == l.m.latched && p.wr == l.m.latched.wr && p.mio == l.m.latched.mio && (l.f.state == S0 ==> p.adsN)
  {
    hide AddressPins;
  }

  lemma IoClock(f: Fsm, p: Pins, b: Answers)
    requires p.wr && !p.mio && (f.state == S0 ==> p.adsN)
    ensures var g := Clock(f, false, p, b);
      g.mem == f.mem && g.state != S1 && g.io.address == f.io.address && (f.state != S1 ==> g.io == f.io)
  {
    hide WithHalf;
  }

  lemma {:induction false} IoRun(b: Bench, image: seq<bv32>, n: nat)
    requires Quiet(b, image) && Pending(b.link) && HighBitsZero(b.link.f) && n > 0
    requires var r := b.link.m.shared.req; r.wr && !r.mio
    requires forall i | 0 < i <= n :: BusCycle.Run(b.link, DeviceOf(b), i).m.state != BUS_IDLE
    ensures IoServing(RunBench(b, n), image, b.link.m.shared.req, n) && SameRam(b, RunBench(b, n), n)
    ensures RunBench(b, n).link.f.mem == b.link.f.mem
    ensures forall i | 0 <= i <= n :: Defined(RunBench(b, i))
    decreases n
  {
    hide Quiet, IoServing, Defined, AnswersOf, SameRam, RunBench, BusCycle.Run, Pending, Next, AnswersRequest, HighBitsZero;
    QuietOutsideReset(b, image);
    QuietDefined(b, image);
    IoAccept(b, image);
    var r := b.link.m.shared.req;
    if n > 1 {
      IoRun(b, image, n - 1);
      LinkRuns(b, n);
      OneMore(b, n - 1);
      IoTick(RunBench(b, n - 1), image, r, n - 1);
      SameRamMore(b, RunBench(b, n - 1), RunBench(b, n), n - 1, 1);
    }
    IoAnswer(RunBench(b, n), image, r, n);
  }

  /**
   * An I/O write, posted when the machine is quiet, is complete after the fifth tick and not before. Its word
   * address, half word and lanes are then on the I/O bus, and neither memory has noticed.
   */
  lemma IoWrite(b: Bench, image: seq<bv32>)
    requires Quiet(b, image) && Pending(b.link) && HighBitsZero(b.link.f)
    requires var r := b.link.m.shared.req; r.wr && !r.mio
    ensures var r, c := b.link.m.shared.req, RunBench(b, 5);
      && Completed(c.link, r, r.data) && (forall n | 0 < n < 5 :: InFlight(RunBench(b, n).link, r))
      && IoCarries(c.link.f.io, r) && c.link.f.mem == b.link.f.mem
      && Quiet(c, image) && SameRam(b, c, 5) && c.rom == b.rom
  {
    hide Quiet, IoServing, Defined, AnswersOf, Invariant, Completed, InFlight, Pending, RunBench, BusCycle.Run, SameRam,
         AnswersRequest, HighBitsZero, IoCarries;
    QuietOutsideReset(b, image);
    var r, device := b.link.m.shared.req, DeviceOf(b);
    ReachesCheck(b.link, device, 0);
    InFlightBusy(b.link, device, r, 2);
    IoRun(b, image, 2);
    IoAnswer(RunBench(b, 2), image, r, 2);
    FirstAnswerDecides(b.link, device, 0);
    InFlightBusy(b.link, device, r, 4);
    IoRun(b, image, 4);
    forall n | 0 < n < 5 ensures InFlight(RunBench(b, n).link, r) { LinkRuns(b, n); }
    LinkRuns(b, 5);
    OneMore(b, 4);
    IoTick(RunBench(b, 4), image, r, 4);
    SameRamMore(b, RunBench(b, 4), RunBench(b, 5), 4, 1);
    CompletedRest(RunBench(b, 5).link, r, r.data);
    QuietRom(b, image);
    QuietRom(RunBench(b, 5), image);
  }
}
