/** What a write to RAM leaves behind: a write enable that stays up, after which no read of RAM ever ends. */
module AfterWrites {
  import opened Words
  import opened CpuSim
  import opened CpuInterface
  import opened BusMaster
  import opened BusCycle
  import opened TestBench
  import opened BusReads
  import opened CpuBus
  import opened RamAccess
  import MemSim

  // ---------- The write enable stays up ----------

  /** A request for anything but memory past the end of RAM. */
  predicate InRange(r: Request, size: nat) {
    r.mio && RegionOf(4 * WordAddress(r.addr)) == RAM ==> WordAddress(r.addr) < size
  }

  /** Outside reset, with every address that is shown to a memory inside it. */
  predicate Sound(b: Bench) {
    && !b.rst && !b.cpuReset && Invariant(b.link) && HighBitsZero(b.link.f)
    && |b.rom.words| == ROM_WORDS && 0 <= b.dec.rom.address < ROM_WORDS
    && 0 <= b.dec.ram.address < |b.ram.words|
    && PortInRange(b.link.f.mem, |b.ram.words|)
    && (b.link.m.shared.request ==> InRange(b.link.m.shared.req, |b.ram.words|))
    && (b.link.m.state != BUS_IDLE ==> InRange(b.link.m.latched, |b.ram.words|))
  }

  predicate PortInRange(port: Port, size: nat) {
    RegionOf(4 * port.address) == RAM ==> port.address < size
  }

  /** What can happen: a tick, or a request. */
  datatype Event = Ticked | Posted(r: Request)

  function Play(b: Bench, events: seq<Event>): Bench
    decreases |events|
  {
    if events == [] then b
    else
      var before := Play(b, events[..|events| - 1]);
      match events[|events| - 1]
      case Ticked => Next(before)
      case Posted(r) => PostBench(before, r)
  }

  predicate AllInRange(events: seq<Event>, size: nat) {
    forall i | 0 <= i < |events| :: events[i].Posted? ==> InRange(events[i].r, size)
  }

  lemma SoundDefined(b: Bench)
    requires Sound(b)
    ensures Defined(b)
    ensures |MemSim.Apply(b.rom, b.romOut, RomCall(b.dec)).0.words| == |b.rom.words|
    ensures |MemSim.Apply(b.ram, b.ramOut, RamCall(b.dec)).0.words| == |b.ram.words|
  {
    hide Invariant, HighBitsZero, MemSim.Merge;
  }

  /** What the slave latches is what was requested, and the enables only ever go up. */
  lemma LinkStaysInRange(l: Link, b: Answers, size: nat)
    requires Invariant(l) && HighBitsZero(l.f) && PortInRange(l.f.mem, size)
    requires l.m.shared.request ==> InRange(l.m.shared.req, size)
    requires l.m.state != BUS_IDLE ==> InRange(l.m.latched, size)
    ensures var m := Tick(l, b);
      && PortInRange(m.f.mem, size)
      && (m.m.shared.request ==> InRange(m.m.shared.req, size))
      && (m.m.state != BUS_IDLE ==> InRange(m.m.latched, size))
      && (l.f.mem.wrEnable ==> m.f.mem.wrEnable)
  {
    var (m, p) := Apply(l.m, l.p, l.f.readyN, false);
    PinsInRange(l, size);
    hide Apply, Invariant, RegionOf, HalfOf, WithHalf;
    LatchInRange(l.f, p, b, size);
  }

  lemma PinsInRange(l: Link, size: nat)
    requires Invariant(l)
    requires l.m.shared.request ==> InRange(l.m.shared.req, size)
    requires l.m.state != BUS_IDLE ==> InRange(l.m.latched, size)
    ensures var (m, p) := Apply(l.m, l.p, l.f.readyN, false);
      && (m.shared.request ==> InRange(m.shared.req, size))
      && (m.state != BUS_IDLE ==> InRange(m.latched, size))
      && (!p.adsN && l.f.state == S0 ==> m.state != BUS_IDLE && p.a == AddressPins(m.latched.addr) && p.mio == m.latched.mio)
  {
    hide RegionOf, AddressPins;
  }

  lemma LatchInRange(f: Fsm, p: Pins, b: Answers, size: nat)
    requires HighBitsZero(f) && PortInRange(f.mem, size)
    requires !p.adsN && f.state == S0 && p.mio && RegionOf(4 * (p.a / 2 % 0x40_0000)) == RAM ==> p.a / 2 % 0x40_0000 < size
    ensures PortInRange(Clock(f, false, p, b).mem, size)
    ensures f.mem.wrEnable ==> Clock(f, false, p, b).mem.wrEnable
  {
    hide RegionOf, HalfOf, WithHalf;
    FromQuotient(f.mem.address, 0x40_0000, 0, f.mem.address);
  }

  lemma SoundTick(b: Bench)
    requires Sound(b)
    ensures Sound(Next(b)) && |Next(b).ram.words| == |b.ram.words|
    ensures b.link.f.mem.wrEnable ==> Next(b).link.f.mem.wrEnable
  {
    SoundDefined(b);
    TickKeeps(b.link, AnswersOf(b));
    LinkTick(b);
    LinkStaysInRange(b.link, AnswersOf(b), |b.ram.words|);
    KeepsHighBits(b.link, AnswersOf(b));
    hide Invariant, MemSim.Apply, Clock, CpuSim.Apply, RegionOf, InRange, BusCycle.Tick;
    DecoderInRange(b);
  }

  lemma KeepsHighBits(l: Link, b: Answers)
    requires HighBitsZero(l.f)
    ensures HighBitsZero(BusCycle.Tick(l, b).f)
  {
    hide Clock, HighBitsZero, CpuSim.Apply;
    ClockKeepsHighBits(l.f, CpuSim.Apply(l.m, l.p, l.f.readyN, false).1, b);
  }

  /** After its last evaluation the decoder shows the port, or nothing. */
  lemma DecoderInRange(b: Bench)
    requires Defined(b) && !b.rst && |b.ram.words| > 0
    requires PortInRange(TickBench(b).link.f.mem, |b.ram.words|) && 0 <= TickBench(b).link.f.mem.address
    ensures 0 <= TickBench(b).dec.rom.address < ROM_WORDS && 0 <= TickBench(b).dec.ram.address < |b.ram.words|
  {
    hide MemSim.Apply, Clock, CpuSim.Apply, RegionOf;
  }

  /** In every history of ticks and requests in range the machine stays sound, and the write enable, once up, up. */
  lemma {:induction false} EveryHistory(b: Bench, events: seq<Event>)
    requires Sound(b) && AllInRange(events, |b.ram.words|)
    ensures var c := Play(b, events);
      Sound(c) && |c.ram.words| == |b.ram.words| && (b.link.f.mem.wrEnable ==> c.link.f.mem.wrEnable)
    decreases |events|
  {
    hide Sound, Next, InRange;
    if events != [] {
      var before, e := Play(b, events[..|events| - 1]), events[|events| - 1];
      EveryHistory(b, events[..|events| - 1]);
      match e
      case Ticked => SoundTick(before);
      case Posted(r) => SoundPost(before, r);
    }
  }

  lemma SoundPost(b: Bench, r: Request)
    requires Sound(b) && InRange(r, |b.ram.words|)
    ensures Sound(PostBench(b, r))
  {
    PostKeeps(b.link, r);
    hide Invariant, InRange;
  }

  // ---------- At rest the machine is quiet ----------

  /** The slave is serving a memory transaction that has not been answered. */
  predicate Settling(l: Link) {
    (l.f.state == S1 || l.f.state == S2 || l.f.state == S4) && l.m.latched.mio
  }

  /**
   * On every course from reset: the ROM is as it was loaded, the decoder shows the slave's port, and unless a
   * memory transaction is unanswered, what the RAM is told to write is there already.
   */
  predicate OnCourse(b: Bench, image: seq<bv32>) {
    && Sound(b) && |image| == ROM_WORDS && b.rom == MemSim.Mem(image, 0, 0)
    && DecoderShows(b.dec.ram, b.link.f.mem) && EnablesFollow(b.dec.ram, b.link.f.mem)
    && b.ram.count <= b.ram.delay && (IsAsked(b.dec.ram) || b.ram.count == 0)
    && (Settling(b.link) || Harmless(b.ram.words, b.dec.ram))
  }

  predicate EnablesFollow(d: RamPins, port: Port) {
    (d.rdEnable ==> port.rdEnable) && (d.wrEnable ==> port.wrEnable)
  }

  /** When the slave's port changes, and when a transaction is settled. */
  lemma SettlesWhen(l: Link, b: Answers)
    requires Invariant(l)
    ensures var t := BusCycle.Tick(l, b);
      && (!Settling(l) && !Settling(t) ==> t.f.mem == l.f.mem)
      && (Settling(l) && !Settling(t) ==> AnswersRequest(l.m.latched, b) && t.f.mem == l.f.mem)
      && (l.f.mem.rdEnable ==> t.f.mem.rdEnable) && (l.f.mem.wrEnable ==> t.f.mem.wrEnable)
  {
    var (m, p) := CpuSim.Apply(l.m, l.p, l.f.readyN, false);
    PinsOfSettling(l);
    hide CpuSim.Apply, Invariant, HalfOf, WithHalf, Lanes, Upper;
    SlaveSettles(l.f, p, b, l.m.latched, m.latched);
  }

  /** The pins the slave sees in this clock. */
  lemma PinsOfSettling(l: Link)
    requires Invariant(l)
    ensures var (m, p) := CpuSim.Apply(l.m, l.p, l.f.readyN, false);
      && (l.f.state == S1 || l.f.state == S2 || l.f.state == S4 ==>
            m.latched == l.m.latched && p.wr == l.m.latched.wr && p.mio == l.m.latched.mio)
      && (l.f.state == S0 && !p.adsN ==> p.mio == m.latched.mio)
  {
    hide AddressPins;
  }

  lemma SlaveSettles(f: Fsm, p: Pins, b: Answers, was: Request, now: Request)
    requires f.state == S1 || f.state == S2 || f.state == S4 ==> now == was && p.wr == was.wr && p.mio == was.mio
    requires f.state == S0 && !p.adsN ==> p.mio == now.mio
    ensures var g := Clock(f, false, p, b);
      var before := (f.state == S1 || f.state == S2 || f.state == S4) && was.mio;
      var after := (g.state == S1 || g.state == S2 || g.state == S4) && now.mio;
      && (!before && !after ==> g.mem == f.mem)
      && (before && !after ==> AnswersRequest(was, b) && g.mem == f.mem)
      && (f.mem.rdEnable ==> g.mem.rdEnable) && (f.mem.wrEnable ==> g.mem.wrEnable)
  {
    hide HalfOf, WithHalf, Lanes, Upper;
  }

  lemma HarmlessCall(b: Bench)
    requires Defined(b) && Harmless(b.ram.words, b.dec.ram)
    ensures MemSim.Apply(b.ram, b.ramOut, RamCall(b.dec)).0.words == b.ram.words
  {
    hide MemSim.Merge;
    if b.dec.ram.wrEnable { assert b.ram.words[b.dec.ram.address := b.ram.words[b.dec.ram.address]] == b.ram.words; }
  }

  /** An answer that comes while the RAM is told to write says that it has just written. */
  lemma AnsweredIsWritten(b: Bench)
    requires Sound(b) && DecoderShows(b.dec.ram, b.link.f.mem) && b.link.m.latched.mio
    requires RegionOf(4 * b.link.f.mem.address) == RAM
    requires Defined(b) && AnswersRequest(b.link.m.latched, AnswersOf(b))
    ensures Harmless(MemSim.Apply(b.ram, b.ramOut, RamCall(b.dec)).0.words, b.dec.ram)
  {
    hide MemSim.Merge, Invariant, RegionOf;
    if b.dec.ram.wrEnable {
      var p := b.dec.ram;
      MemSim.MergeTwice(b.ram.words[p.address], p.wrData, p.wrMask);
    }
  }

  lemma CounterBounded(b: Bench)
    requires Defined(b) && b.ram.count <= b.ram.delay && (IsAsked(b.dec.ram) || b.ram.count == 0)
    ensures var ram := MemSim.Apply(b.ram, b.ramOut, RamCall(b.dec)).0;
      ram.count <= ram.delay && (IsAsked(b.dec.ram) || ram.count == 0)
  {
    hide MemSim.Merge;
  }

  lemma EnablesKept(b: Bench)
    requires Defined(b) && !b.rst && DecoderShows(b.dec.ram, b.link.f.mem) && EnablesFollow(b.dec.ram, b.link.f.mem)
    requires b.link.f.mem.rdEnable ==> Next(b).link.f.mem.rdEnable
    requires b.link.f.mem.wrEnable ==> Next(b).link.f.mem.wrEnable
    ensures EnablesFollow(Next(b).dec.ram, Next(b).link.f.mem)
    ensures IsAsked(b.dec.ram) ==> IsAsked(Next(b).dec.ram)
  {
    hide Clock, CpuSim.Apply, MemSim.Apply, RegionOf;
  }

  lemma CourseTick(b: Bench, image: seq<bv32>)
    requires OnCourse(b, image)
    ensures OnCourse(Next(b), image)
  {
    hide MemSim.Apply, Evaluate, MemSim.Merge, Harmless, RegionOf, Sound, Settling, AnswersRequest;
    SoundLink(b);
    SoundTick(b);
    SoundLink(Next(b));
    LinkTick(b);
    SettlesWhen(b.link, AnswersOf(b));
    DecoderAfter(b);
    EnablesKept(b);
    CounterBounded(b);
    RomStays(b, image, 1);
    OneTick(b);
    hide BusCycle.Tick;
    if !Settling(Next(b).link) { SettledIsHarmless(b, image); }
  }

  lemma OneTick(b: Bench)
    ensures RunBench(b, 1) == Next(b)
  {
    assert RunBench(b, 0) == b;
  }

  lemma SoundLink(b: Bench)
    requires Sound(b)
    ensures Defined(b) && !b.rst && !b.cpuReset && Invariant(b.link) && 0 <= b.link.f.mem.address
    ensures 0 <= b.dec.ram.address < |b.ram.words|
  {
    SoundDefined(b);
  }

  lemma SettledIsHarmless(b: Bench, image: seq<bv32>)
    requires OnCourse(b, image) && !Settling(Next(b).link)
    ensures Harmless(Next(b).ram.words, Next(b).dec.ram)
  {
    hide MemSim.Apply, Evaluate, MemSim.Merge, Harmless, RegionOf, Sound, Settling, AnswersRequest, Clock, CpuSim.Apply;
    SoundLink(b);
    SoundTick(b);
    SoundLink(Next(b));
    LinkTick(b);
    SettlesWhen(b.link, AnswersOf(b));
    DecoderAfter(b);
    hide BusCycle.Tick;
    var c := Next(b);
    if RegionOf(4 * c.link.f.mem.address) != RAM {
      NoLanes(c.ram.words, c.dec.ram);
    } else {
      assert c.dec.ram == b.dec.ram;
      if Settling(b.link) {
        SettlingMio(b.link);
        AnsweredIsWritten(b);
      } else {
        HarmlessCall(b);
      }
    }
  }

  lemma SettlingMio(l: Link)
    requires Settling(l)
    ensures l.m.latched.mio
  {
  }

  lemma {:induction false} CourseHolds(b: Bench, image: seq<bv32>, events: seq<Event>)
    requires OnCourse(b, image) && AllInRange(events, |b.ram.words|)
    ensures OnCourse(Play(b, events), image) && |Play(b, events).ram.words| == |b.ram.words|
    decreases |events|
  {
    hide OnCourse, Next, InRange;
    if events != [] {
      var before, e := Play(b, events[..|events| - 1]), events[|events| - 1];
      CourseHolds(b, image, events[..|events| - 1]);
      match e
      case Ticked => CourseTick(before, image); CourseSound(before, image); SoundTick(before);
      case Posted(r) => CoursePost(before, image, r);
    }
  }

  lemma CourseSound(b: Bench, image: seq<bv32>)
    requires OnCourse(b, image)
    ensures Sound(b)
  {
  }

  lemma CoursePost(b: Bench, image: seq<bv32>, r: Request)
    requires OnCourse(b, image) && InRange(r, |b.ram.words|)
    ensures OnCourse(PostBench(b, r), image)
  {
    hide Sound, Harmless, DecoderShows;
    SoundPost(b, r);
  }

  lemma CourseAtRest(b: Bench, image: seq<bv32>)
    requires OnCourse(b, image) && Rest(b.link)
    ensures Quiet(b, image)
  {
    hide Invariant, Harmless, RegionOf;
  }

  lemma CourseFromReset(b: Bench, image: seq<bv32>)
    requires PoweredUp(b, image) && |b.ram.words| > 0
    ensures OnCourse(AfterReset(b), image) && |AfterReset(b).ram.words| == |b.ram.words|
  {
    NotRequested(b, image);
    ResetQuiet(b, image);
    hide AfterReset;
    QuietOnCourse(AfterReset(b), image);
  }

  lemma QuietOnCourse(b: Bench, image: seq<bv32>)
    requires Quiet(b, image) && HighBitsZero(b.link.f) && b.link.f.mem.address == 0 && |b.ram.words| > 0
    requires !b.link.f.mem.rdEnable && !b.link.f.mem.wrEnable && !b.link.m.shared.request
    ensures OnCourse(b, image)
  {
    hide Invariant;
    assert RegionOf(4 * b.link.f.mem.address) == RAM;
  }

  /**
   * From power-up, after any history of ticks and requests in range that ends at rest, writes to ROM, the
   * holes and RAM included: the machine is quiet, so a byte read outside RAM completes at its fifth tick and
   * not before, with the byte the memory map held at power-up, and leaves RAM as it was.
   */
  lemma ReadAfterAnything(b: Bench, image: seq<bv32>, events: seq<Event>, addr: u32)
    requires PoweredUp(b, image) && |b.ram.words| > 0 && AllInRange(events, |b.ram.words|) && Mapped(addr)
    requires Rest(Play(AfterReset(b), events).link)
    ensures |image| == ROM_WORDS
    ensures var c := Play(AfterReset(b), events); var p := PostBench(c, ByteRequest(addr));
      && (forall n | 0 < n <= 5 :: RunBench(p, n).link.m.shared.completed <==> n == 5)
      && PickByte(addr, RunBench(p, 5).link.m.shared.req.data) == MapByte(image, addr)
      && Quiet(RunBench(p, 5), image) && RunBench(p, 5).ram.words == c.ram.words
  {
    hide OnCourse, Quiet, AfterReset, RunBench, MapByte, PickByte, Mapped, Rest, PoweredUp;
    CourseFromReset(b, image);
    CourseHolds(AfterReset(b), image, events);
    var c := Play(AfterReset(b), events);
    CourseAtRest(c, image);
    QuietOutsideReset(c, image);
    ReadByte(c, image, addr);
  }

  /**
   * After the same histories, a half-word write to a ROM window or a hole is complete after five ticks, and
   * has changed neither memory.
   */
  lemma WriteOutsideAfterAnything(b: Bench, image: seq<bv32>, events: seq<Event>, r: Request)
    requires PoweredUp(b, image) && |b.ram.words| > 0 && AllInRange(events, |b.ram.words|)
    requires Rest(Play(AfterReset(b), events).link) && Outside(r) && r.wr
    ensures var c := Play(AfterReset(b), events); var d := RunBench(PostBench(c, r), 5);
      && Completed(d.link, r, r.data) && (forall n | 0 < n < 5 :: InFlight(RunBench(PostBench(c, r), n).link, r))
      && d.ram.words == c.ram.words && d.rom == c.rom == MemSim.Mem(image, 0, 0) && Quiet(d, image)
  {
    hide OnCourse, Quiet, AfterReset, RunBench, Rest, PoweredUp, Completed, InFlight, Outside;
    CourseFromReset(b, image);
    CourseHolds(AfterReset(b), image, events);
    var c := Play(AfterReset(b), events);
    CourseAtRest(c, image);
    PostQuiet(c, image, r);
    OutsideTransaction(PostBench(c, r), image);
    QuietRom(PostBench(c, r), image);
  }

  /** And an I/O write is complete after five ticks, with its half word on the I/O bus. */
  lemma IoWriteAfterAnything(b: Bench, image: seq<bv32>, events: seq<Event>, r: Request)
    requires PoweredUp(b, image) && |b.ram.words| > 0 && AllInRange(events, |b.ram.words|)
    requires Rest(Play(AfterReset(b), events).link) && !r.mio && r.wr
    ensures var c := Play(AfterReset(b), events); var d := RunBench(PostBench(c, r), 5);
      && Completed(d.link, r, r.data) && (forall n | 0 < n < 5 :: InFlight(RunBench(PostBench(c, r), n).link, r))
      && IoCarries(d.link.f.io, r)
      && d.ram.words == c.ram.words && d.rom == c.rom == MemSim.Mem(image, 0, 0) && Quiet(d, image)
  {
    hide OnCourse, Quiet, AfterReset, RunBench, Rest, PoweredUp, Completed, InFlight, IoCarries, HighBitsZero;
    CourseFromReset(b, image);
    CourseHolds(AfterReset(b), image, events);
    var c := Play(AfterReset(b), events);
    CourseAtRest(c, image);
    CourseHighBits(c, image);
    PostQuiet(c, image, r);
    IoWrite(PostBench(c, r), image);
    QuietRom(PostBench(c, r), image);
  }

  lemma CourseHighBits(b: Bench, image: seq<bv32>)
    requires OnCourse(b, image)
    ensures HighBitsZero(b.link.f)
  {
  }

  // ---------- A read of RAM ----------

  /** A read is in flight while the write enable is still up: the RAM only acknowledges, and the slave waits. */
  predicate Overwriting(b: Bench, r: Request) {
    && AtWord(b, WordAddress(r.addr), true) && b.link.f.mem.wrEnable
    && !r.wr && InFlight(b.link, r) && b.link.f.readyN
    && (b.link.f.state == S1 || b.link.f.state == S2 || b.link.f.state == S4)
  }

  lemma OverwritingFirst(b: Bench, r: Request)
    requires Sound(b) && Rest(b.link) && b.link.f.mem.wrEnable && !r.wr && ToRam(b, r)
    ensures Overwriting(Next(PostBench(b, r)), r)
  {
    var p := PostBench(b, r);
    SoundDefined(b);
    hide AddressPins, HalfOf, RegionOf, MemSim.Merge, UpperHalf, MemSim.Apply;
    PostKeeps(b.link, r);
    TickKeeps(p.link, AnswersOf(p));
    WordAddressOf(r.addr);
  }

  lemma OverwritingCall(b: Bench, r: Request)
    requires Overwriting(b, r)
    ensures Defined(b) && !AnswersOf(b).memValid
    ensures |MemSim.Apply(b.ram, b.ramOut, RamCall(b.dec)).0.words| == |b.ram.words|
  {
    hide RegionOf, WordAddress, MemSim.Merge, Invariant;
  }

  lemma OverwritingTick(b: Bench, r: Request)
    requires Overwriting(b, r)
    ensures Overwriting(Next(b), r)
  {
    OverwritingCall(b, r);
    hide RegionOf, WordAddress, MemSim.Apply, Invariant, CpuSim.Apply, Clock, InFlight;
    TickKeeps(b.link, AnswersOf(b));
    LinkTick(b);
    StaysWaiting(b.link, AnswersOf(b), r);
  }

  /** A read that is not answered goes on waiting, and its port stays. */
  lemma StaysWaiting(l: Link, b: Answers, r: Request)
    requires InFlight(l, r) && !r.wr && !b.memValid && l.f.readyN && (l.f.state == S1 || l.f.state == S2 || l.f.state == S4)
    ensures var m := Tick(l, b);
      && InFlight(m, r) && m.f.readyN && (m.f.state == S1 || m.f.state == S2 || m.f.state == S4) && m.f.mem == l.f.mem
  {
    hide AddressPins, HalfOf, WithHalf;
  }

  /**
   * After any history of ticks and requests in which the slave's write enable has gone up, whatever else was
   * requested and however it ended: a read of RAM never completes, because a RAM asked to write does not answer.
   */
  lemma ReadAfterWriteHangs(b: Bench, events: seq<Event>, r: Request, n: nat)
    requires Sound(b) && AllInRange(events, |b.ram.words|) && Play(b, events).link.f.mem.wrEnable
    requires Rest(Play(b, events).link) && !r.wr && ToRam(b, r) && n > 0
    ensures !RunBench(PostBench(Play(b, events), r), n).link.m.shared.completed
  {
    hide Sound, Overwriting, Rest, RunBench, Invariant;
    EveryHistory(b, events);
    var c := Play(b, events);
    SameReach(b, c, r);
    Waits(c, r, n);
    NotCompleted(RunBench(PostBench(c, r), n), r);
  }

  lemma SameReach(b: Bench, c: Bench, r: Request)
    requires ToRam(b, r) && |c.ram.words| == |b.ram.words|
    ensures ToRam(c, r)
  {
  }

  lemma {:induction false} Waits(b: Bench, r: Request, n: nat)
    requires Sound(b) && Rest(b.link) && b.link.f.mem.wrEnable && !r.wr && ToRam(b, r) && n > 0
    ensures Overwriting(RunBench(PostBench(b, r), n), r)
    decreases n
  {
    hide Sound, Overwriting, Next, ToRam, Rest;
    var p := PostBench(b, r);
    OneMore(p, n - 1);
    if n == 1 {
      OverwritingFirst(b, r);
    } else {
      Waits(b, r, n - 1);
      OverwritingTick(RunBench(p, n - 1), r);
    }
  }

  lemma NotCompleted(b: Bench, r: Request)
    requires Overwriting(b, r)
    ensures !b.link.m.shared.completed
  {
  }

  // ---------- From power-up ----------

  /** From power-up: a first write to RAM completes, and after it, whatever comes between, no read of RAM does. */
  lemma WriteThenRead(b: Bench, image: seq<bv32>, r: Request, events: seq<Event>, q: Request, n: nat)
    requires PoweredUp(b, image) && ToRam(b, r) && r.wr && ToRam(b, q) && !q.wr && n > 0
    requires AllInRange(events, |b.ram.words|)
    ensures var c := RunBench(PostBench(AfterReset(b), r), 5);
      && c.link.m.shared.completed
      && (Rest(Play(c, events).link) ==> !RunBench(PostBench(Play(c, events), q), n).link.m.shared.completed)
  {
    hide Quiet, RunBench, RegionOf, WordAddress, Next, PoweredUp, Stored, Written, InFlight, TimerOf, Storing, Sound, Rest;
    NotRequested(b, image);
    ResetQuiet(b, image);
    var p := PostBench(AfterReset(b), r);
    PostQuiet(AfterReset(b), image, r);
    FirstWriteCompletes(p, image, r);
    FirstWriteSteps(p, image, r);
    var w, after := WordAddress(r.addr), Written(p.ram.words, RunBench(p, 2).link.f.mem);
    StoredForEver(RunBench(p, 3), w, after, 2);
    RunBenchAppend(p, 3, 2);
    var c := RunBench(p, 5);
    SoundAfter(b, image, r);
    WriteIsUp(c, w, after);
    WrittenSize(p, r);
    if Rest(Play(c, events).link) {
      SameReach(b, c, q);
      EveryHistory(c, events);
      ReadAfterWriteHangs(c, events, q, n);
    }
  }

  lemma WriteIsUp(b: Bench, w: int, words: seq<bv32>)
    requires Stored(b, w, words)
    ensures b.link.f.mem.wrEnable && |b.ram.words| == |words|
  {
  }

  lemma WrittenSize(p: Bench, r: Request)
    requires 0 <= RunBench(p, 2).link.f.mem.address < |p.ram.words|
    ensures |Written(p.ram.words, RunBench(p, 2).link.f.mem)| == |p.ram.words|
  {
    hide RunBench;
  }

  /** The machine is sound from the first request on. */
  lemma SoundAfter(b: Bench, image: seq<bv32>, r: Request)
    requires PoweredUp(b, image) && ToRam(b, r)
    ensures Sound(RunBench(PostBench(AfterReset(b), r), 5))
  {
    hide RunBench, Sound, AfterReset;
    SoundAtReset(b, image, r);
    SoundRun(PostBench(AfterReset(b), r), 5);
  }

  lemma SoundAtReset(b: Bench, image: seq<bv32>, r: Request)
    requires PoweredUp(b, image) && ToRam(b, r)
    ensures Sound(PostBench(AfterReset(b), r))
  {
    NotRequested(b, image);
    ResetQuiet(b, image);
    hide AfterReset;
    QuietSound(AfterReset(b), image, r);
  }

  lemma QuietSound(b: Bench, image: seq<bv32>, r: Request)
    requires Quiet(b, image) && HighBitsZero(b.link.f) && ToRam(b, r) && b.link.f.mem.address == 0
    ensures Sound(PostBench(b, r))
  {
    PostKeeps(b.link, r);
    WordAddressOf(r.addr);
    hide Invariant, WordAddress;
    assert RegionOf(4 * b.link.f.mem.address) == RAM;
  }

  lemma {:induction false} SoundRun(b: Bench, n: nat)
    requires Sound(b)
    ensures Sound(RunBench(b, n))
    decreases n
  {
    hide Sound, Next;
    if n > 0 {
      SoundRun(b, n - 1);
      SoundTick(RunBench(b, n - 1));
    }
  }
}
