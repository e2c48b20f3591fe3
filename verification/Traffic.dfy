/** All read traffic of the machine, RAM included: what every read returns, when, and which read never ends. */
module Traffic {
  import opened Words
  import opened Wrappers
  import opened CpuSim
  import opened CpuInterface
  import opened BusMaster
  import opened BusCycle
  import opened TestBench
  import opened BusReads
  import opened CpuBus
  import opened RamAccess
  import MemSim

  /** A byte of the whole memory map, RAM included. */
  function FullByte(image: seq<bv32>, words: seq<bv32>, addr: int): bv8
    requires |image| == ROM_WORDS && Readable(|words|, addr)
  {
    if Mapped(addr) then MapByte(image, addr) else MemSim.ByteOf(words[Lines(addr) / 4], Lines(addr) % 4)
  }

  /** An address of the ROM windows, the holes, or a word that is in RAM. */
  predicate Readable(size: nat, addr: int) {
    Mapped(addr) || Lines(addr) / 4 < size
  }

  // ---------- The timetable ----------

  /** How many ticks a read takes, if it ends, when the RAM's counter stands at `t`. */
  function CallTicks(delay: nat, t: Timer, addr: int): Option<nat> {
    if Mapped(addr) then Some(5)
    else if Ends(delay, CallsLeft(t, delay)) then Some(Duration(FirstReady(delay, CallsLeft(t, delay)).value))
    else None
  }

  /** Where the counter stands after it. */
  function TimerAfter(delay: nat, t: Timer, addr: int, ticks: nat): Timer
    requires ticks > 0
  {
    if Mapped(addr) then Advance(t, delay, ticks) else Advance(Turning(CallsLeft(t, delay)), delay, ticks - 1)
  }

  /** Where the counter stands after all calls, from reset, if each of them ends. */
  function TimerThen(delay: nat, fs: seq<Fetch>): Option<Timer>
    decreases |fs|
  {
    if fs == [] then Some(Fresh)
    else
      var before, f := TimerThen(delay, fs[..|fs| - 1]), fs[|fs| - 1];
      if before == None then None
      else
        var t := Advance(before.value, delay, f.idle);
        if CallTicks(delay, t, f.addr) == None then None
        else
          TicksPositive(delay, t, f.addr);
          Some(TimerAfter(delay, t, f.addr, CallTicks(delay, t, f.addr).value))
  }

  lemma TicksPositive(delay: nat, t: Timer, addr: int)
    ensures CallTicks(delay, t, addr).Some? ==> CallTicks(delay, t, addr).value > 1
  {
  }

  /** What the next call takes. */
  function NextTicks(delay: nat, fs: seq<Fetch>, f: Fetch): Option<nat>
    requires TimerThen(delay, fs).Some?
  {
    CallTicks(delay, Advance(TimerThen(delay, fs).value, delay, f.idle), f.addr)
  }

  /** The machine after all calls, each posted after its idle time and given the ticks of the timetable. */
  function After(b: Bench, delay: nat, fs: seq<Fetch>): Bench
    requires TimerThen(delay, fs).Some?
    decreases |fs|
  {
    if fs == [] then b
    else
      var rest, f := fs[..|fs| - 1], fs[|fs| - 1];
      RunBench(Posted(After(b, delay, rest), f), NextTicks(delay, rest, f).value)
  }

  /** A call is made. */
  function Posted(b: Bench, f: Fetch): Bench {
    PostBench(RunBench(b, f.idle), ByteRequest(f.addr))
  }

  // ---------- One read ----------

  /** The machine is quiet, RAM holds `words`, and its counter stands at `t`. */
  predicate Stands(b: Bench, image: seq<bv32>, words: seq<bv32>, delay: nat, t: Timer) {
    && Quiet(b, image) && NothingWritten(b) && !b.link.m.shared.request
    && b.ram.words == words && b.ram.delay == delay && TimerOf(b) == t
  }

  /** A call of any readable address: it ends as the timetable says, or never. */
  lemma Call(b: Bench, image: seq<bv32>, words: seq<bv32>, delay: nat, t: Timer, f: Fetch)
    requires Stands(b, image, words, delay, t) && Readable(|words|, f.addr)
    ensures |image| == ROM_WORDS
    ensures var u := Advance(t, delay, f.idle); var ticks := CallTicks(delay, u, f.addr);
      match ticks
      case None => forall n | n > 0 :: !RunBench(Posted(b, f), n).link.m.shared.completed
      case Some(d) =>
        var c := RunBench(Posted(b, f), d);
        && (forall n | 0 < n <= d :: RunBench(Posted(b, f), n).link.m.shared.completed <==> n == d)
        && PickByte(f.addr, c.link.m.shared.req.data) == FullByte(image, words, f.addr)
        && d > 0 && Stands(c, image, words, delay, TimerAfter(delay, u, f.addr, d))
  {
    hide Quiet, RunBench, PickByte, MapByte, Advance, TimerOf, CallsLeft, FirstReady, Mapped, PostBench;
    QuietOutsideReset(b, image);
    IdleTicks(b, image, f.idle);
    var e := RunBench(b, f.idle);
    if Mapped(f.addr) {
      ReadByte(e, image, f.addr);
    } else {
      RamCallEnds(e, image, words, f.addr);
    }
  }

  /** The same for an address in RAM, without idle time. */
  lemma RamCallEnds(b: Bench, image: seq<bv32>, words: seq<bv32>, addr: u32)
    requires Quiet(b, image) && NothingWritten(b) && b.ram.words == words && !Mapped(addr) && Readable(|words|, addr)
    ensures |image| == ROM_WORDS
    ensures var p, ticks := PostBench(b, ByteRequest(addr)), CallTicks(b.ram.delay, TimerOf(b), addr);
      match ticks
      case None => forall n | n > 0 :: !RunBench(p, n).link.m.shared.completed
      case Some(d) =>
        var c := RunBench(p, d);
        && (forall n | 0 < n <= d :: RunBench(p, n).link.m.shared.completed <==> n == d)
        && PickByte(addr, c.link.m.shared.req.data) == FullByte(image, words, addr)
        && d > 0 && Stands(c, image, words, b.ram.delay, TimerAfter(b.ram.delay, TimerOf(b), addr, d))
  {
    hide Quiet, RunBench, PickByte, MapByte, Advance, TimerOf, CallsLeft, FirstReady, RegionOf, Pending, HalfOf, WordAddress,
         Shows, UpperHalf, PostBench, Completed, InFlight, Starts, AccessTicks, ByteRequest;
    var r, p := ByteRequest(addr), PostBench(b, ByteRequest(addr));
    PostQuiet(b, image, r);
    QuietOutsideReset(b, image);
    StartsHere(b, image, words, addr);
    RamAccessEnds(p, image, r);
    ReturnsByte(image, words, addr);
    if WillEnd(p) {
      var d := AccessTicks(p);
      forall n | 0 < n < d ensures !RunBench(p, n).link.m.shared.completed { FlagDown(RunBench(p, n).link, r); }
      EndedReadQuiet(p, image, r);
      FlagUp(RunBench(p, d).link, r, AccessResult(r, words));
      TicksOf(p);
    } else {
      forall n | n > 0 ensures !RunBench(p, n).link.m.shared.completed { FlagDown(RunBench(p, n).link, r); }
    }
  }

  lemma TicksOf(b: Bench)
    requires WillEnd(b)
    ensures AccessTicks(b) == Duration(FirstReady(b.ram.delay, CallsLeft(TimerOf(b), b.ram.delay)).value)
  {
    hide FirstReady, CallsLeft, TimerOf;
  }

  lemma FlagDown(l: Link, r: Request)
    requires InFlight(l, r)
    ensures !l.m.shared.completed
  {
  }

  lemma FlagUp(l: Link, r: Request, v: bv16)
    requires Completed(l, r, v)
    ensures l.m.shared.completed && l.m.shared.req.data == v && !l.m.shared.request
  {
  }

  /** The byte picked out of the half word that comes back. */
  lemma ReturnsByte(image: seq<bv32>, words: seq<bv32>, addr: u32)
    requires |image| == ROM_WORDS && !Mapped(addr) && Readable(|words|, addr)
    ensures 0 <= WordAddress(ByteRequest(addr).addr) < |words| && !ByteRequest(addr).wr
    ensures PickByte(addr, AccessResult(ByteRequest(addr), words)) == FullByte(image, words, addr)
  {
    hide PickByte, HalfOf, WordAddress, RegionOf, MemSim.ByteOf, UpperHalf;
    WordOfByte(addr);
    PickedFromWord(words[Lines(addr) / 4], addr);
  }

  lemma StartsHere(b: Bench, image: seq<bv32>, words: seq<bv32>, addr: u32)
    requires Quiet(b, image) && NothingWritten(b) && b.ram.words == words && !Mapped(addr) && Readable(|words|, addr)
    ensures Starts(PostBench(b, ByteRequest(addr)), image, ByteRequest(addr))
    ensures WordAddress(ByteRequest(addr).addr) == Lines(addr) / 4 && Lines(addr) % 4 == addr % 4
  {
    PostQuiet(b, image, ByteRequest(addr));
    hide Quiet, WordAddress;
    WordOfByte(addr);
    MemoryMap(Lines(addr));
  }

  // ---------- After a read of RAM ----------

  lemma EndedTick(b: Bench, image: seq<bv32>, r: Request, words: seq<bv32>, delay: nat, left: nat, t: nat)
    requires t > 0 && Asked(b, r, words, delay, left, t) && !r.wr && b.rom == MemSim.Mem(image, 0, 0)
    requires |image| == ROM_WORDS
    requires Defined(b) && Next(b).link.m.state == BUS_IDLE && Next(b).link.f.state == S0
    ensures Quiet(Next(b), image) && NothingWritten(Next(b)) && Next(b).ram.words == words && Next(b).ram.delay == delay
    ensures TimerOf(Next(b)) == Turning(Left(delay, left, t + 1))
  {
    RamStep(b, r, words, delay, left, t);
    TickKeeps(b.link, AnswersOf(b));
    PhaseNext(delay, left, t + 1);
    hide RegionOf, WordAddress, AddressPins, HalfOf, WithHalf, PhaseAt, UpperHalf, MemSim.Merge, Written;
    PortSettles(b, r, words, delay, left, t);
    hide MemSim.Apply;
    RomStays(b, image, 1);
  }

  lemma LeftIs(delay: nat, left: nat, t: nat)
    requires left <= delay && t > 0
    ensures Turning(Left(delay, left, t)) == Advance(Turning(left), delay, t - 1)
  {
    var p, x := delay + 1, t - 1 - left;
    var q, r := x / p, x % p;
    if r == 0 { FromQuotient(-x, p, -q, 0); } else { FromQuotient(-x, p, -q - 1, p - r); }
    assert -x == left - (t - 1);
  }

  lemma EndedReadQuiet(b: Bench, image: seq<bv32>, r: Request)
    requires Starts(b, image, r) && !r.wr && WillEnd(b)
    ensures var c := RunBench(b, AccessTicks(b));
      && Quiet(c, image) && NothingWritten(c) && c.ram.words == b.ram.words && c.ram.delay == b.ram.delay
      && TimerOf(c) == Advance(Turning(CallsLeft(TimerOf(b), b.ram.delay)), b.ram.delay, AccessTicks(b) - 1)
  {
    hide Starts, Asked, RunBench, HalfOf, WordAddress, Left, Advance, Defined, FirstReady, CallsLeft, TimerOf, Quiet, AccessTicks;
    StartsRom(b, image, r);
    var d, left, n := b.ram.delay, CallsLeft(TimerOf(b), b.ram.delay), AccessTicks(b) - 1;
    LastAsked(b, image, r);
    RomStays(b, image, n);
    EndedTick(RunBench(b, n), image, r, b.ram.words, d, left, n);
    LeftIs(d, left, n + 1);
  }

  lemma StartsRom(b: Bench, image: seq<bv32>, r: Request)
    requires Starts(b, image, r)
    ensures |image| == ROM_WORDS && b.rom == MemSim.Mem(image, 0, 0)
  {
  }

  // ---------- Any reads, in any order ----------

  /**
   * From power-up: any sequence of byte reads of the ROM, the holes and RAM, with any idle time before each.
   * As long as the timetable lets every read end, the machine is quiet after them and RAM holds what it held.
   */
  lemma {:induction false} AfterAll(b: Bench, image: seq<bv32>, fs: seq<Fetch>)
    requires PoweredUp(b, image) && TimerThen(b.ram.delay, fs).Some?
    requires forall i | 0 <= i < |fs| :: Readable(|b.ram.words|, fs[i].addr)
    ensures Stands(After(AfterReset(b), b.ram.delay, fs), image, b.ram.words, b.ram.delay, TimerThen(b.ram.delay, fs).value)
    decreases |fs|
  {
    hide Stands, PoweredUp, RunBench, AfterReset, CallTicks, TimerAfter, Posted, Readable, FullByte, Advance;
    if fs == [] {
      StandsAfterReset(b, image);
    } else {
      var rest, f := fs[..|fs| - 1], fs[|fs| - 1];
      AfterAll(b, image, rest);
      Call(After(AfterReset(b), b.ram.delay, rest), image, b.ram.words, b.ram.delay, TimerThen(b.ram.delay, rest).value, f);
    }
  }

  lemma StandsAfterReset(b: Bench, image: seq<bv32>)
    requires PoweredUp(b, image)
    ensures Stands(AfterReset(b), image, b.ram.words, b.ram.delay, Fresh)
  {
    NotRequested(b, image);
    hide AfterReset, Quiet;
    ResetQuiet(b, image);
  }

  /**
   * After any such sequence, the next read, of any readable address and after any idle time, completes at
   * exactly the tick of the timetable with the byte of the memory map; or, if the timetable has none, never.
   */
  lemma NextRead(b: Bench, image: seq<bv32>, fs: seq<Fetch>, f: Fetch)
    requires PoweredUp(b, image) && TimerThen(b.ram.delay, fs).Some?
    requires forall i | 0 <= i < |fs| :: Readable(|b.ram.words|, fs[i].addr)
    requires Readable(|b.ram.words|, f.addr)
    ensures |image| == ROM_WORDS
    ensures var p := Posted(After(AfterReset(b), b.ram.delay, fs), f);
      match NextTicks(b.ram.delay, fs, f)
      case None => forall n | n > 0 :: !RunBench(p, n).link.m.shared.completed
      case Some(d) =>
        && (forall n | 0 < n <= d :: RunBench(p, n).link.m.shared.completed <==> n == d)
        && PickByte(f.addr, RunBench(p, d).link.m.shared.req.data) == FullByte(image, b.ram.words, f.addr)
  {
    hide Stands, PoweredUp, RunBench, AfterReset, CallTicks, TimerAfter, Posted, Readable, FullByte, Advance, PickByte;
    AfterAll(b, image, fs);
    Call(After(AfterReset(b), b.ram.delay, fs), image, b.ram.words, b.ram.delay, TimerThen(b.ram.delay, fs).value, f);
  }
}
