/** Accesses to RAM over the whole machine: the first write, and exactly which RAM delays let an access end. */
module RamAccess {
  import opened Words
  import opened CpuSim
  import opened CpuInterface
  import opened BusMaster
  import opened BusCycle
  import opened TestBench
  import opened BusReads
  import MemSim
  import opened CpuBus
  import opened Wrappers

  // ---------- When a RAM that is asked all the time answers ----------

  /**
   * The slave looks for an answer at ticks 2, 4, 6, ... of a cycle; a RAM with `left` calls to go after tick 0
   * is ready at ticks left + 1, left + delay + 2, ... This is the number of the first look that meets one.
   */
  function FirstReady(delay: nat, left: nat): Option<nat> {
    if left % 2 == 1 then Some((left - 1) / 2)
    else if delay % 2 == 0 then Some((left + delay) / 2)
    else None
  }

  /** Whether an access comes to an end. */
  predicate Ends(delay: nat, left: nat) {
    FirstReady(delay, left).Some? && FirstReady(delay, left).value % 3 != 1
  }

  /** Ticks since the RAM was last ready, in tick `t`. */
  function PhaseAt(delay: nat, left: nat, t: nat): nat {
    (t - 1 - left) % (delay + 1)
  }

  /** Calls left before the RAM is ready, in tick `t`. */
  function Left(delay: nat, left: nat, t: nat): nat {
    var phase := PhaseAt(delay, left, t);
    if phase == 0 then 0 else delay + 1 - phase
  }

  lemma PhaseNext(delay: nat, left: nat, t: nat)
    requires left <= delay && t > 0
    ensures PhaseAt(delay, left, t) <= delay
    ensures PhaseAt(delay, left, t + 1) == if PhaseAt(delay, left, t) == delay then 0 else PhaseAt(delay, left, t) + 1
    ensures Left(delay, left, 1) == left
  {
    var p := delay + 1;
    var q, r := (t - 1 - left) / p, (t - 1 - left) % p;
    if r == delay {
      FromQuotient(t - left, p, q + 1, 0);
    } else {
      FromQuotient(t - left, p, q, r + 1);
    }
    var z: int := left;
    if z == 0 { FromQuotient(0, p, 0, 0); } else { FromQuotient(-z, p, -1, p - z); }
    assert PhaseAt(delay, left, 1) == (-z) % p;
  }

  /** The RAM is ready at the k-th look. */
  predicate ReadyAt(delay: nat, left: nat, k: nat) {
    PhaseAt(delay, left, CheckTick(k)) == 0
  }

  /** That is, when 2k + 1 and `left` leave the same remainder; `FirstReady` is the first such k, if there is any. */
  lemma FirstReadyIs(delay: nat, left: nat, k: nat)
    requires left <= delay
    ensures FirstReady(delay, left) == None ==> !ReadyAt(delay, left, k)
    ensures FirstReady(delay, left).Some? && k < FirstReady(delay, left).value ==> !ReadyAt(delay, left, k)
    ensures FirstReady(delay, left) == Some(k) ==> ReadyAt(delay, left, k)
  {
    hide ReadyAt;
    var h, l := delay / 2, left / 2;
    if left % 2 == 1 {
      assert left == 2 * l + 1 && (left - 1) / 2 == l;
      OddLeft(delay, left, l, k);
    } else if delay % 2 == 0 {
      assert left + delay == 2 * (l + h) && (left + delay) / 2 == l + h;
      EvenDelay(delay, left, l + h, k);
    } else {
      assert delay == 2 * (h + 1) - 1 && left == 2 * l;
      NoneReady(h + 1, l, k);
    }
  }

  lemma OddLeft(delay: nat, left: nat, h: nat, k: nat)
    requires left <= delay && left == 2 * h + 1
    ensures k < h ==> !ReadyAt(delay, left, k)
    ensures ReadyAt(delay, left, h)
  {
    var p, x := delay + 1, 2 * k + 1 - left;
    FromQuotient(0, p, 0, 0);
    if k < h { FromQuotient(x, p, -1, x + p); }
  }

  lemma EvenDelay(delay: nat, left: nat, h: nat, k: nat)
    requires left <= delay && left % 2 == 0 && left + delay == 2 * h
    ensures k < h ==> !ReadyAt(delay, left, k)
    ensures ReadyAt(delay, left, h)
  {
    FromQuotient(delay + 1, delay + 1, 1, 0);
    if k < h { NotYet(k, left, delay); }
  }

  lemma NoneReady(h: nat, l: nat, k: nat)
    requires h > 0
    ensures !ReadyAt(2 * h - 1, 2 * l, k)
  {
    var p, x := 2 * h, 2 * k + 1 - 2 * l;
    var q, r := x / p, x % p;
    assert x == q * p + r;
    if r == 0 {
      EvenProduct(q, h);
      FromQuotient(x, 2, k - l, 1);
    }
  }

  /** Below the next multiple only zero is one, and 2k + 1 is not the even `left`. */
  lemma NotYet(k: nat, left: nat, delay: nat)
    requires left % 2 == 0 && left <= delay && 2 * k < left + delay
    ensures (2 * k + 1 - left) % (delay + 1) != 0
  {
    var p, x, h := delay + 1, 2 * k + 1 - left, left / 2;
    assert left == 2 * h;
    assert x == 2 * (k - h) + 1;
    if x < 0 { FromQuotient(x, p, -1, x + p); } else { FromQuotient(x, p, 0, x); }
  }

  lemma EvenProduct(q: int, h: nat)
    ensures (q * (2 * h)) % 2 == 0
  {
    assert q * (2 * h) == 2 * (q * h);
    FromQuotient(2 * (q * h), 2, q * h, 0);
  }

  /** The first tick after tick 1 in which the RAM is ready: a write, asked for from tick 2 on, is stored then. */
  function StoreTick(delay: nat, left: nat): nat {
    if left == 0 then delay + 2 else left + 1
  }

  lemma FirstRound(delay: nat, left: nat, t: nat)
    requires left <= delay
    ensures 1 < t < StoreTick(delay, left) ==> PhaseAt(delay, left, t) != 0
    ensures PhaseAt(delay, left, StoreTick(delay, left)) == 0
  {
    var p, x := delay + 1, t - 1 - left;
    if left == 0 { FromQuotient(p, p, 1, 0); } else { FromQuotient(0, p, 0, 0); }
    if 1 < t < StoreTick(delay, left) {
      if x < 0 { FromQuotient(x, p, -1, x + p); } else { FromQuotient(x, p, 0, x); }
    }
  }

  // ---------- An access that meets a read already under way ----------

  /** The word a write leaves: the latched lanes over the old word. */
  function Written(words: seq<bv32>, port: Port): seq<bv32>
    requires 0 <= port.address < |words|
  {
    words[port.address := MemSim.Merge(words[port.address], port.wrData, port.wrMask)]
  }

  /** Outside reset, with the slave's memory port and the decoder at RAM word `w`. */
  predicate AtWord(b: Bench, w: int, rd: bool) {
    && !b.rst && !b.cpuReset && Invariant(b.link)
    && |b.rom.words| > 0 && b.dec.rom.address == 0
    && RegionOf(4 * w) == RAM && 0 <= w < |b.ram.words| && w < 0x40_0000
    && b.link.f.mem.address == w && b.link.f.mem.rdEnable == rd
    && b.dec.ram == RamPins(w, rd, b.link.f.mem.wrEnable, b.link.f.mem.wrMask, b.link.f.mem.wrData)
  }

  /** The slave's port has the half word and the lanes of the request. */
  predicate Carries(port: Port, r: Request) {
    HalfOf(port.wrData, UpperHalf(r.addr)) == r.data && port.wrMask == LanesOf(r)
  }

  /**
   * The machine before tick `t` of an access `r`, counted from the tick that accepts it, with `left` calls to
   * go after that one; `words` was in RAM.
   */
  predicate Asked(b: Bench, r: Request, words: seq<bv32>, delay: nat, left: nat, t: nat)
    requires t > 0
  {
    && AtWord(b, WordAddress(r.addr), true) && r.mio && b.link.m.state != BUS_IDLE && b.link.m.latched == r
    && (b.link.m.state == BUS_C1_T2 <==> t == 1)
    && b.link.f.mem.wrEnable == (r.wr && t > 1)
    && (t == 1 ==> b.link.f.laneMask == LanesOf(r))
    && (r.wr && t > 1 ==> Carries(b.link.f.mem, r))
    && b.ram.delay == delay && left <= delay && b.ram.count == Left(delay, left, t)
    && |words| == |b.ram.words|
    && b.ram.words == (if r.wr && t > StoreTick(delay, left) then Written(words, b.link.f.mem) else words)
  }

  /** No memory write has come through the slave. */
  predicate NothingWritten(b: Bench) {
    !b.link.f.mem.wrEnable && !b.dec.ram.wrEnable
  }

  /**
   * A request for a RAM word is pending and nothing has been written before. The RAM may have been read: then
   * it is at any point of its delay, still being asked for the word at which the slave's port stopped.
   */
  predicate Starts(b: Bench, image: seq<bv32>, r: Request) {
    && Quiet(b, image) && NothingWritten(b) && Pending(b.link) && r == b.link.m.shared.req && r.mio
    && RegionOf(4 * WordAddress(r.addr)) == RAM && WordAddress(r.addr) < |b.ram.words|
    && (r.wr ==> b.link.f.mem.rdEnable)
  }

  /** Calls to go for the RAM after the tick that accepts the request. */
  function CallsLeft(t: Timer, delay: nat): (left: nat)
    ensures left <= delay
  {
    match Advance(t, delay, 1)
    case Fresh => 0
    case Turning(left) => left
  }

  lemma AskedFirst(b: Bench, image: seq<bv32>, r: Request)
    requires Starts(b, image, r)
    ensures Defined(b) && Asked(Next(b), r, b.ram.words, b.ram.delay, CallsLeft(TimerOf(b), b.ram.delay), 1)
  {
    PlainDefined(b, image);
    hide AddressPins, HalfOf, RegionOf, MemSim.Merge, UpperHalf, MemSim.Apply, Advance, Left;
    TickKeeps(b.link, AnswersOf(b));
    WordAddressOf(r.addr);
    UpperPins(r.addr);
    PhaseNext(b.ram.delay, CallsLeft(TimerOf(b), b.ram.delay), 1);
    FreshStays(b.ram.delay);
  }

  lemma FreshStays(delay: nat)
    ensures Advance(Fresh, delay, 1) == Fresh
  {
  }

  /** What the RAM does with the call it gets in tick `t`. */
  lemma RamStep(b: Bench, r: Request, words: seq<bv32>, delay: nat, left: nat, t: nat)
    requires t > 0 && Asked(b, r, words, delay, left, t)
    ensures Defined(b)
    ensures var (ram, out) := MemSim.Apply(b.ram, b.ramOut, RamCall(b.dec));
            && ram.delay == delay && ram.count == Left(delay, left, t + 1) && |ram.words| == |words|
            && (if PhaseAt(delay, left, t) != 0 then !out.ack && !out.valid
                else if r.wr && t > 1 then out.ack && !out.valid
                else out.valid && !out.ack && out.data == words[WordAddress(r.addr)])
            && ram.words == (if r.wr && t + 1 > StoreTick(delay, left) then Written(words, b.link.f.mem) else words)
  {
    hide RegionOf, WordAddress, MemSim.Merge, Invariant, PhaseAt;
    PhaseNext(delay, left, t);
    FirstRound(delay, left, t);
    var w := WordAddress(r.addr);
    var port := b.link.f.mem;
    MemSim.MergeTwice(words[w], port.wrData, port.wrMask);
    assert Written(Written(words, port), port) == Written(words, port);
  }

  /** An access keeps being asked for as long as its cycle lasts. */
  lemma AskedTick(b: Bench, r: Request, words: seq<bv32>, delay: nat, left: nat, t: nat)
    requires t > 0 && Asked(b, r, words, delay, left, t)
    ensures Defined(b) && (Next(b).link.m.state != BUS_IDLE ==> Asked(Next(b), r, words, delay, left, t + 1))
    ensures t > 1 ==> (AnswersRequest(r, AnswersOf(b)) <==> PhaseAt(delay, left, t) == 0)
    ensures t > 1 && !r.wr && PhaseAt(delay, left, t) == 0 ==> AnswersOf(b).memData == words[WordAddress(r.addr)]
  {
    RamStep(b, r, words, delay, left, t);
    TickKeeps(b.link, AnswersOf(b));
    hide RegionOf, WordAddress, MemSim.Apply, AddressPins, HalfOf, WithHalf, Left, PhaseAt, UpperHalf;
    PortSettles(b, r, words, delay, left, t);
  }

  lemma PortSettles(b: Bench, r: Request, words: seq<bv32>, delay: nat, left: nat, t: nat)
    requires t > 0 && Asked(b, r, words, delay, left, t) && Defined(b)
    ensures t > 1 ==> Next(b).link.f.mem == b.link.f.mem
    ensures Next(b).link.f.mem.address == b.link.f.mem.address && Next(b).link.f.mem.rdEnable
    ensures t == 1 ==> Next(b).link.f.mem.wrEnable == r.wr
    ensures t == 1 && r.wr ==> Carries(Next(b).link.f.mem, r)
  {
    if t == 1 && r.wr {
      LinkTick(b);
      WriteLatched(b.link, AnswersOf(b));
    }
    hide RegionOf, WordAddress, MemSim.Apply, AddressPins, HalfOf, WithHalf, Evaluate, Left, Written;
  }

  lemma {:induction false} AskedRun(b: Bench, image: seq<bv32>, r: Request, n: nat)
    requires Starts(b, image, r) && n > 0
    requires forall i | 0 < i <= n :: BusCycle.Run(b.link, DeviceOf(b), i).m.state != BUS_IDLE
    ensures Asked(RunBench(b, n), r, b.ram.words, b.ram.delay, CallsLeft(TimerOf(b), b.ram.delay), n)
    ensures forall i | 0 <= i <= n :: Defined(RunBench(b, i))
    decreases n
  {
    hide Starts, Asked, Quiet, Defined, AnswersOf, WordAddress, RegionOf, PhaseAt;
    StartsQuietly(b, image, r);
    AskedFirst(b, image, r);
    OneMore(b, 0);
    if n > 1 {
      AskedRun(b, image, r, n - 1);
      LinkRuns(b, n);
      AskedTick(RunBench(b, n - 1), r, b.ram.words, b.ram.delay, CallsLeft(TimerOf(b), b.ram.delay), n - 1);
    }
    AskedTick(RunBench(b, n), r, b.ram.words, b.ram.delay, CallsLeft(TimerOf(b), b.ram.delay), n);
  }

  lemma StartsQuietly(b: Bench, image: seq<bv32>, r: Request)
    requires Starts(b, image, r)
    ensures !b.rst && !b.cpuReset && Quiet(b, image) && Pending(b.link) && r == b.link.m.shared.req && Defined(b)
  {
    PlainDefined(b, image);
  }

  /** The machine answers the request at its k-th check. */
  predicate AnsweredAt(b: Bench, r: Request, k: nat) {
    AnswersRequest(r, DeviceOf(b)(CheckTick(k)))
  }

  /** The RAM is ready at the k-th look of an access that starts here. */
  predicate ReadyFor(b: Bench, k: nat) {
    ReadyAt(b.ram.delay, CallsLeft(TimerOf(b), b.ram.delay), k)
  }

  /** The answer at the k-th check, if the cycle gets there. */
  lemma AnswerAtCheck(b: Bench, image: seq<bv32>, r: Request, k: nat)
    requires Starts(b, image, r)
    requires forall j | 0 <= j < k :: !AnsweredAt(b, r, j)
    ensures AnsweredAt(b, r, k) <==> ReadyFor(b, k)
    ensures !r.wr && ReadyFor(b, k) ==>
              DeviceOf(b)(CheckTick(k)).memData == b.ram.words[WordAddress(r.addr)]
  {
    hide Starts, Asked, Quiet, Defined, AnswersOf, WordAddress, RegionOf, PhaseAt, RunBench, BusCycle.Run, InFlight, Pending;
    StartsInRange(b, image, r);
    StartsQuietly(b, image, r);
    var t := CheckTick(k);
    forall j | 0 <= j < k ensures !AnswersRequest(r, DeviceOf(b)(CheckTick(j))) { assert !AnsweredAt(b, r, j); }
    ReachesCheck(b.link, DeviceOf(b), k);
    FlightBusy(b.link, DeviceOf(b), r, t);
    AskedRun(b, image, r, t);
    AskedTick(RunBench(b, t), r, b.ram.words, b.ram.delay, CallsLeft(TimerOf(b), b.ram.delay), t);
  }

  lemma StartsInRange(b: Bench, image: seq<bv32>, r: Request)
    requires Starts(b, image, r)
    ensures 0 <= WordAddress(r.addr) < |b.ram.words|
  {
    WordAddressOf(r.addr);
  }

  lemma FlightBusy(l: Link, device: Device, r: Request, n: nat)
    requires forall i | 0 < i <= n :: InFlight(BusCycle.Run(l, device, i), r)
    ensures forall i | 0 < i <= n :: BusCycle.Run(l, device, i).m.state != BUS_IDLE
  {
  }

  lemma {:induction false} NoAnswerBefore(b: Bench, image: seq<bv32>, r: Request, k: nat)
    requires Starts(b, image, r)
    requires forall j | 0 <= j < k :: !ReadyFor(b, j)
    ensures forall j | 0 <= j < k :: !AnsweredAt(b, r, j)
    decreases k
  {
    hide Starts, ReadyFor, AnsweredAt, WordAddress;
    if k > 0 {
      NoAnswerBefore(b, image, r, k - 1);
      AnswerAtCheck(b, image, r, k - 1);
    }
  }

  /** What the CPU thread gets back from an access to RAM. */
  function AccessResult(r: Request, words: seq<bv32>): bv16
    requires 0 <= WordAddress(r.addr) < |words|
  {
    if r.wr then r.data else HalfOf(words[WordAddress(r.addr)], UpperHalf(r.addr))
  }

  /** The look at which an access that starts here is first answered. */
  function FirstLook(b: Bench): Option<nat> {
    FirstReady(b.ram.delay, CallsLeft(TimerOf(b), b.ram.delay))
  }

  predicate WillEnd(b: Bench) {
    Ends(b.ram.delay, CallsLeft(TimerOf(b), b.ram.delay))
  }

  /** How long it then takes. */
  function AccessTicks(b: Bench): nat
    requires WillEnd(b)
  {
    Duration(FirstLook(b).value)
  }

  /**
   * An access to RAM when nothing has been written before, except a write before any read: it comes to an end
   * exactly when some look of the slave meets a RAM that is ready and the number of the first one is not one
   * more than a multiple of three. It then takes the ticks that belong to that number and gives the word that
   * was in RAM; otherwise the CPU waits for ever.
   */
  lemma RamAccessEnds(b: Bench, image: seq<bv32>, r: Request)
    requires Starts(b, image, r)
    ensures 0 <= WordAddress(r.addr) < |b.ram.words|
    ensures WillEnd(b) ==>
      && (forall n | 0 < n < AccessTicks(b) :: InFlight(RunBench(b, n).link, r))
      && Completed(RunBench(b, AccessTicks(b)).link, r, AccessResult(r, b.ram.words))
    ensures !WillEnd(b) ==> forall n | n > 0 :: InFlight(RunBench(b, n).link, r)
  {
    hide Starts, Asked, Quiet, PhaseAt, RunBench, BusCycle.Run, InFlight, Pending, HalfOf, WordAddress, Completed,
         FirstReady, CallsLeft, TimerOf;
    StartsInRange(b, image, r);
    StartsQuietly(b, image, r);
    if FirstLook(b) == None {
      forall n | n > 0 ensures InFlight(RunBench(b, n).link, r) {
        NeverReady(b, image, r, n);
      }
    } else {
      var k := FirstLook(b).value;
      FirstLookDecides(b, image, r);
      forall n | n > 0 && (k % 3 == 1 || n < Duration(k)) ensures InFlight(RunBench(b, n).link, r) {
        SameRun(b, image, r, n);
      }
      if k % 3 != 1 { LastTick(b, image, r, Duration(k)); }
    }
  }

  lemma FirstLookIs(b: Bench, k: nat)
    ensures FirstLook(b) == None ==> !ReadyFor(b, k)
    ensures FirstLook(b).Some? && k < FirstLook(b).value ==> !ReadyFor(b, k)
    ensures FirstLook(b) == Some(k) ==> ReadyFor(b, k)
  {
    hide FirstReady, ReadyAt, CallsLeft;
    FirstReadyIs(b.ram.delay, CallsLeft(TimerOf(b), b.ram.delay), k);
  }

  lemma FirstLookDecides(b: Bench, image: seq<bv32>, r: Request)
    requires Starts(b, image, r) && FirstLook(b).Some?
    ensures 0 <= WordAddress(r.addr) < |b.ram.words|
    ensures var k := FirstLook(b).value;
      && (k % 3 != 1 ==>
            && (forall n | 0 < n < Duration(k) :: InFlight(BusCycle.Run(b.link, DeviceOf(b), n), r))
            && Completed(BusCycle.Run(b.link, DeviceOf(b), Duration(k)), r, AccessResult(r, b.ram.words)))
      && (k % 3 == 1 ==> forall n | n > 0 :: InFlight(BusCycle.Run(b.link, DeviceOf(b), n), r))
  {
    hide Starts, Asked, Quiet, RunBench, BusCycle.Run, InFlight, Pending, HalfOf, WordAddress, Completed,
         FirstReady, ReadyFor, CallsLeft, TimerOf;
    StartsInRange(b, image, r);
    StartsQuietly(b, image, r);
    var device, k := DeviceOf(b), FirstLook(b).value;
    forall j | 0 <= j < k ensures !ReadyFor(b, j) { FirstLookIs(b, j); }
    FirstLookIs(b, k);
    NoAnswerBefore(b, image, r, k);
    AnswerAtCheck(b, image, r, k);
    forall j | 0 <= j < k ensures !AnswersRequest(r, device(CheckTick(j))) { assert !AnsweredAt(b, r, j); }
    FirstAnswerDecides(b.link, device, k);
  }

  lemma NeverReady(b: Bench, image: seq<bv32>, r: Request, n: nat)
    requires Starts(b, image, r) && FirstLook(b) == None && n > 0
    ensures InFlight(RunBench(b, n).link, r)
  {
    hide Starts, Asked, Quiet, RunBench, BusCycle.Run, InFlight, Pending, HalfOf, WordAddress, FirstReady, ReadyFor,
         CallsLeft, TimerOf;
    StartsQuietly(b, image, r);
    forall j: nat ensures !ReadyFor(b, j) { FirstLookIs(b, j); }
    forall j: nat ensures !AnswersRequest(r, DeviceOf(b)(CheckTick(j))) {
      NoAnswerBefore(b, image, r, j + 1);
      assert !AnsweredAt(b, r, j);
    }
    forall i | 0 < i <= n ensures InFlight(BusCycle.Run(b.link, DeviceOf(b), i), r) {
      SilenceNeverCompletes(b.link, DeviceOf(b), i);
    }
    SameRun(b, image, r, n);
  }

  /** As long as the cycle is in flight the machine's link is the run of `BusCycle`. */
  lemma SameRun(b: Bench, image: seq<bv32>, r: Request, n: nat)
    requires Starts(b, image, r) && n > 0
    requires forall i | 0 < i <= n :: InFlight(BusCycle.Run(b.link, DeviceOf(b), i), r)
    ensures RunBench(b, n).link == BusCycle.Run(b.link, DeviceOf(b), n)
  {
    hide Starts, Asked, Quiet, PhaseAt, RunBench, BusCycle.Run, InFlight, Pending, HalfOf, WordAddress, Defined;
    StartsQuietly(b, image, r);
    FlightBusy(b.link, DeviceOf(b), r, n);
    AskedRun(b, image, r, n);
    LinkRuns(b, n);
  }

  lemma LastTick(b: Bench, image: seq<bv32>, r: Request, n: nat)
    requires Starts(b, image, r) && n > 1
    requires forall i | 0 < i < n :: InFlight(BusCycle.Run(b.link, DeviceOf(b), i), r)
    ensures RunBench(b, n).link == BusCycle.Run(b.link, DeviceOf(b), n)
  {
    hide Starts, Asked, Quiet, PhaseAt, RunBench, BusCycle.Run, InFlight, Pending, HalfOf, WordAddress, Defined;
    StartsQuietly(b, image, r);
    FlightBusy(b.link, DeviceOf(b), r, n - 1);
    AskedRun(b, image, r, n - 1);
    LinkRuns(b, n);
  }

  /** The simulation as shipped gives its RAM a delay of two: after any read elsewhere, its first access never ends. */
  lemma ShippedRamHangs(b: Bench, image: seq<bv32>, r: Request, n: nat)
    requires Starts(b, image, r) && b.ram.delay == 2 && TimerOf(b) == Fresh && n > 0
    ensures InFlight(RunBench(b, n).link, r)
  {
    hide Starts, RunBench, InFlight, Completed, WillEnd, AccessResult, WordAddress, TimerOf, FirstLook, AccessTicks;
    FirstAccess(b);
    RamAccessEnds(b, image, r);
  }

  /** For a RAM that has not been asked before, the delay alone decides. */
  lemma FirstAccess(b: Bench)
    requires TimerOf(b) == Fresh
    ensures WillEnd(b) <==> b.ram.delay % 2 == 0 && b.ram.delay / 2 % 3 != 1
    ensures WillEnd(b) ==> FirstLook(b).value == b.ram.delay / 2
  {
    FreshStays(b.ram.delay);
    hide Advance;
  }

  // ---------- The first write, before anything has been read ----------

  predicate StartsWriting(b: Bench, image: seq<bv32>, r: Request) {
    && Quiet(b, image) && NothingWritten(b) && Pending(b.link) && r == b.link.m.shared.req && r.mio && r.wr
    && RegionOf(4 * WordAddress(r.addr)) == RAM && WordAddress(r.addr) < |b.ram.words|
    && !b.link.f.mem.rdEnable && TimerOf(b) == Fresh
  }

  /** The write has been accepted by the slave, which has not seen its data yet. */
  predicate Opening(b: Bench, r: Request, words: seq<bv32>) {
    && AtWord(b, WordAddress(r.addr), false) && !b.link.f.mem.wrEnable
    && b.link.f.state == S1 && b.link.m.latched == r && r.wr && r.mio && !b.link.m.shared.request
    && b.link.f.laneMask == LanesOf(r)
    && b.ram.count == 0 && b.ram.words == words
  }

  /** The write is on its way to the RAM. */
  predicate Storing(b: Bench, r: Request, words: seq<bv32>) {
    && AtWord(b, WordAddress(r.addr), false) && b.link.f.mem.wrEnable
    && b.link.f.state == S2 && b.link.m.state == BUS_C2_T1 && !b.link.m.shared.request
    && b.link.m.latched.wr && b.link.m.latched.mio
    && Carries(b.link.f.mem, r)
    && b.ram.count == 0 && b.ram.words == words
  }

  /** The RAM holds `words`, and writing them again, which goes on for ever, changes nothing. */
  predicate Stored(b: Bench, w: int, words: seq<bv32>) {
    && AtWord(b, w, b.link.f.mem.rdEnable) && b.link.f.mem.wrEnable && b.link.f.state != S1
    && !b.link.m.shared.request
    && b.ram.words == words && Written(words, b.link.f.mem) == words
  }

  lemma OpeningTick(b: Bench, image: seq<bv32>, r: Request)
    requires StartsWriting(b, image, r)
    ensures Defined(b) && Opening(Next(b), r, b.ram.words)
  {
    hide AddressPins, HalfOf, RegionOf, UpperHalf;
    PlainDefined(b, image);
    TickKeeps(b.link, AnswersOf(b));
    WordAddressOf(r.addr);
    UpperPins(r.addr);
  }

  lemma StoringTick(b: Bench, r: Request, words: seq<bv32>)
    requires Opening(b, r, words)
    ensures Defined(b) && Storing(Next(b), r, words)
  {
    TickKeeps(b.link, AnswersOf(b));
    LinkTick(b);
    WriteLatched(b.link, AnswersOf(b));
    hide RegionOf, WordAddress, AddressPins, HalfOf, WithHalf, UpperHalf;
  }

  lemma StoredTick(b: Bench, r: Request, words: seq<bv32>)
    requires Storing(b, r, words)
    ensures Defined(b) && AnswersOf(b).memAck
    ensures Stored(Next(b), WordAddress(r.addr), Written(words, b.link.f.mem))
  {
    hide RegionOf, WordAddress, AddressPins, HalfOf, WithHalf, MemSim.Merge, UpperHalf;
    var w, port := WordAddress(r.addr), b.link.f.mem;
    TickKeeps(b.link, AnswersOf(b));
    MemSim.MergeTwice(words[w], port.wrData, port.wrMask);
  }

  lemma StoredCall(b: Bench, w: int, words: seq<bv32>)
    requires Stored(b, w, words)
    ensures Defined(b) && MemSim.Apply(b.ram, b.ramOut, RamCall(b.dec)).0.words == words
  {
    hide RegionOf, MemSim.Merge, Invariant;
  }

  lemma StaysStored(b: Bench, w: int, words: seq<bv32>)
    requires Stored(b, w, words)
    ensures Defined(b) && Stored(Next(b), w, words)
  {
    StoredCall(b, w, words);
    hide RegionOf, AddressPins, HalfOf, WithHalf, MemSim.Apply, Written, Clock, CpuSim.Apply;
    StoredPort(b, w, words);
    TickKeeps(b.link, AnswersOf(b));
    hide Invariant;
    LinkTick(b);
  }

  lemma StoredPort(b: Bench, w: int, words: seq<bv32>)
    requires Stored(b, w, words) && Defined(b)
    ensures Next(b).link.f.mem == b.link.f.mem && Next(b).link.f.state != S1 && !Next(b).link.m.shared.request
  {
    hide RegionOf, Invariant, MemSim.Apply, Written, Evaluate, Clock, CpuSim.Apply;
    LinkTick(b);
    PortStays(b.link, AnswersOf(b));
  }

  lemma {:induction false} StoredForEver(b: Bench, w: int, words: seq<bv32>, n: nat)
    requires Stored(b, w, words)
    ensures Stored(RunBench(b, n), w, words)
    ensures forall i | 0 <= i <= n :: Defined(RunBench(b, i))
    decreases n
  {
    hide Stored, Next;
    if n > 0 {
      StoredForEver(b, w, words, n - 1);
      StaysStored(RunBench(b, n - 1), w, words);
    }
    StaysStored(RunBench(b, n), w, words);
  }

  /** The bytes of a half-word write: byte enables and address bit 1 select them, the rest stay. */
  function StoredByte(was: bv32, r: Request, i: MemSim.Lane): bv8 {
    if !LanesOf(r).At(i) then MemSim.ByteOf(was, i)
    else if i % 2 == 0 then (r.data & 0xff) as bv8
    else (r.data >> 8) as bv8
  }

  lemma LanesStored(w: bv32, port: Port, r: Request, i: MemSim.Lane)
    requires port.wrMask == LanesOf(r) && HalfOf(port.wrData, UpperHalf(r.addr)) == r.data
    ensures MemSim.ByteOf(MemSim.Merge(w, port.wrData, port.wrMask), i) == StoredByte(w, r, i)
  {
    hide MemSim.Merge, HalfOf, MemSim.Byte0, MemSim.Byte1, MemSim.Byte2, MemSim.Byte3;
    MemSim.MergeLanes(w, port.wrData, port.wrMask, i);
    HalfBytes(port.wrData);
  }

  /** RAM after the write: the addressed word has its selected bytes replaced, every other word is kept. */
  predicate WrittenBytes(words: seq<bv32>, r: Request, after: seq<bv32>)
    requires 0 <= WordAddress(r.addr) < |words|
  {
    var w := WordAddress(r.addr);
    && |after| == |words|
    && (forall i: MemSim.Lane :: MemSim.ByteOf(after[w], i) == StoredByte(words[w], r, i))
    && forall j | 0 <= j < |words| && j != w :: after[j] == words[j]
  }

  /** The first write after reset, of any byte enables, to RAM of any delay, is complete after five ticks. */
  lemma FirstWriteCompletes(b: Bench, image: seq<bv32>, r: Request)
    requires StartsWriting(b, image, r)
    ensures Completed(RunBench(b, 5).link, r, r.data)
    ensures forall i | 0 < i < 5 :: InFlight(RunBench(b, i).link, r)
  {
    hide StartsWriting, RunBench, Defined, WordAddress, InFlight, Completed, Pending, HalfOf, BusCycle.Run, DeviceOf,
         AnswersRequest;
    WriteStarts(b, image, r);
    FirstWriteAnswered(b, image, r);
    FirstWriteLink(b, image, r);
    FirstAnswerDecides(b.link, DeviceOf(b), 0);
  }

  lemma FirstWriteLink(b: Bench, image: seq<bv32>, r: Request)
    requires StartsWriting(b, image, r)
    ensures forall i | 0 < i <= 5 :: RunBench(b, i).link == BusCycle.Run(b.link, DeviceOf(b), i)
  {
    hide StartsWriting, RunBench, Defined, WordAddress, BusCycle.Run, DeviceOf;
    WriteStarts(b, image, r);
    FirstWriteDefined(b, image, r);
    forall i | 0 < i <= 5 ensures RunBench(b, i).link == BusCycle.Run(b.link, DeviceOf(b), i) { LinkRuns(b, i); }
  }

  /**
   * From the third tick of that write on, for ever, RAM is the old RAM with exactly the enabled bytes of the
   * addressed half word replaced, although the write enable stays up and the RAM goes on writing.
   */
  lemma FirstWriteStores(b: Bench, image: seq<bv32>, r: Request, n: nat)
    requires StartsWriting(b, image, r) && n >= 3
    ensures 0 <= WordAddress(r.addr) < |b.ram.words|
    ensures WrittenBytes(b.ram.words, r, RunBench(b, n).ram.words)
  {
    hide StartsWriting, Storing, Stored, Written, RunBench, WordAddress, WrittenBytes;
    WriteStarts(b, image, r);
    FirstWriteSteps(b, image, r);
    var c := RunBench(b, 2);
    var after := Written(b.ram.words, c.link.f.mem);
    StoredForEver(RunBench(b, 3), WordAddress(r.addr), after, n - 3);
    RunBenchAppend(b, 3, n - 3);
    StoredIs(RunBench(b, n), WordAddress(r.addr), after);
    StoringPort(c, r, b.ram.words);
    BytesWritten(c.link.f.mem, r, b.ram.words);
  }

  /** The three ticks that bring the write to the RAM, and the next two. */
  lemma FirstWriteSteps(b: Bench, image: seq<bv32>, r: Request)
    requires StartsWriting(b, image, r)
    ensures 0 <= WordAddress(r.addr) < |b.ram.words|
    ensures Storing(RunBench(b, 2), r, b.ram.words)
    ensures RunBench(b, 2).link.f.mem.address == WordAddress(r.addr)
    ensures Stored(RunBench(b, 3), WordAddress(r.addr), Written(b.ram.words, RunBench(b, 2).link.f.mem))
    ensures Defined(RunBench(b, 1)) && Defined(RunBench(b, 2)) && AnswersOf(RunBench(b, 2)).memAck
  {
    hide StartsWriting, Quiet, Opening, Stored, Written, RunBench, Next, Defined, AnswersOf, WordAddress, Pending, HalfOf,
         Invariant, RegionOf, UpperHalf;
    WriteStarts(b, image, r);
    FirstThree(b);
    OpeningTick(b, image, r);
    StoringTick(RunBench(b, 1), r, b.ram.words);
    StoredTick(RunBench(b, 2), r, b.ram.words);
  }

  lemma FirstWriteAnswered(b: Bench, image: seq<bv32>, r: Request)
    requires StartsWriting(b, image, r)
    ensures AnswersRequest(r, DeviceOf(b)(CheckTick(0)))
  {
    hide StartsWriting, Stored, Storing, Written, RunBench, Defined, AnswersOf, WordAddress, Pending, DeviceOf;
    WriteStarts(b, image, r);
    FirstWriteSteps(b, image, r);
    DeviceAt(b, 2);
  }

  lemma FirstWriteDefined(b: Bench, image: seq<bv32>, r: Request)
    requires StartsWriting(b, image, r)
    ensures Defined(RunBench(b, 0)) && Defined(RunBench(b, 1)) && Defined(RunBench(b, 2))
    ensures Defined(RunBench(b, 3)) && Defined(RunBench(b, 4))
  {
    hide StartsWriting, Stored, Storing, Written, RunBench, Defined, AnswersOf, WordAddress, Pending;
    WriteStarts(b, image, r);
    FirstThree(b);
    FirstWriteSteps(b, image, r);
    StillDefined(RunBench(b, 3), WordAddress(r.addr), Written(b.ram.words, RunBench(b, 2).link.f.mem));
    OneMore(b, 3);
  }

  lemma DeviceAt(b: Bench, n: nat)
    requires Defined(RunBench(b, n))
    ensures DeviceOf(b)(n) == AnswersOf(RunBench(b, n))
  {
    hide RunBench, AnswersOf, Defined;
  }

  lemma StillDefined(b: Bench, w: int, words: seq<bv32>)
    requires Stored(b, w, words)
    ensures Defined(b) && Defined(Next(b))
  {
    hide Stored, Next;
    StaysStored(b, w, words);
    StaysStored(Next(b), w, words);
  }

  lemma WriteStarts(b: Bench, image: seq<bv32>, r: Request)
    requires StartsWriting(b, image, r)
    ensures !b.rst && !b.cpuReset && Pending(b.link) && r == b.link.m.shared.req && r.wr && r.mio && Defined(b)
    ensures 0 <= WordAddress(r.addr) < |b.ram.words|
  {
    PlainDefined(b, image);
    WordAddressOf(r.addr);
  }

  lemma FirstThree(b: Bench)
    ensures RunBench(b, 0) == b && RunBench(b, 1) == Next(b)
    ensures RunBench(b, 2) == Next(RunBench(b, 1)) && RunBench(b, 3) == Next(RunBench(b, 2))
    ensures RunBench(RunBench(b, 3), 0) == RunBench(b, 3)
  {
  }

  lemma StoredIs(b: Bench, w: int, words: seq<bv32>)
    requires Stored(b, w, words)
    ensures b.ram.words == words
  {
  }

  lemma StoringPort(c: Bench, r: Request, words: seq<bv32>)
    requires Storing(c, r, words)
    ensures Carries(c.link.f.mem, r) && c.link.f.mem.address == WordAddress(r.addr) < |words|
  {
  }

  lemma BytesWritten(port: Port, r: Request, words: seq<bv32>)
    requires Carries(port, r) && 0 <= port.address == WordAddress(r.addr) < |words|
    ensures WrittenBytes(words, r, Written(words, port))
  {
    hide MemSim.Merge, MemSim.ByteOf, HalfOf, StoredByte, LanesOf;
    forall i: MemSim.Lane {
      LanesStored(words[port.address], port, r, i);
    }
  }

  // ---------- A write after reads ----------

  lemma EndedPort(b: Bench, r: Request, words: seq<bv32>, delay: nat, left: nat, t: nat)
    requires t > 1 && Asked(b, r, words, delay, left, t) && r.wr && t + 1 > StoreTick(delay, left)
    requires Defined(b) && Next(b).link.m.state == BUS_IDLE && Next(b).link.f.state == S0 && !Next(b).link.m.shared.request
    ensures Stored(Next(b), WordAddress(r.addr), Written(words, b.link.f.mem))
    ensures Carries(b.link.f.mem, r) && b.link.f.mem.address == WordAddress(r.addr)
  {
    RamStep(b, r, words, delay, left, t);
    TickKeeps(b.link, AnswersOf(b));
    hide RegionOf, WordAddress, MemSim.Apply, AddressPins, HalfOf, WithHalf, Left, PhaseAt, UpperHalf, StoreTick, MemSim.Merge;
    PortSettles(b, r, words, delay, left, t);
    var w, port := WordAddress(r.addr), b.link.f.mem;
    MemSim.MergeTwice(words[w], port.wrData, port.wrMask);
  }

  lemma StoredByLook(delay: nat, left: nat, k: nat)
    requires left <= delay && ReadyAt(delay, left, k)
    ensures StoreTick(delay, left) <= CheckTick(k)
  {
    hide PhaseAt;
    FirstRound(delay, left, CheckTick(k));
  }

  /**
   * A write after reads, if it comes to an end, has by then replaced exactly the enabled bytes of the
   * addressed half word, and RAM stays so for ever, although the write enable stays up.
   */
  lemma EndedWriteStores(b: Bench, image: seq<bv32>, r: Request, n: nat)
    requires Starts(b, image, r) && r.wr && WillEnd(b) && n >= AccessTicks(b)
    ensures 0 <= WordAddress(r.addr) < |b.ram.words|
    ensures WrittenBytes(b.ram.words, r, RunBench(b, n).ram.words)
  {
    hide Starts, Asked, RunBench, WordAddress, WrittenBytes, Written, Defined, FirstReady, CallsLeft, TimerOf, Stored, Carries,
         AccessTicks, StoreTick;
    var d, left, words := b.ram.delay, CallsLeft(TimerOf(b), b.ram.delay), b.ram.words;
    var t := AccessTicks(b) - 1;
    LastAsked(b, image, r);
    var c := RunBench(b, t);
    EndedPort(c, r, words, d, left, t);
    var after := Written(words, c.link.f.mem);
    BytesWritten(c.link.f.mem, r, words);
    StoredForEver(RunBench(b, t + 1), WordAddress(r.addr), after, n - t - 1);
    RunBenchAppend(b, t + 1, n - t - 1);
    StoredIs(RunBench(b, n), WordAddress(r.addr), after);
  }

  /** The last tick of an access that comes to an end. */
  lemma LastAsked(b: Bench, image: seq<bv32>, r: Request)
    requires Starts(b, image, r) && WillEnd(b)
    ensures AccessTicks(b) > 2 && 0 <= WordAddress(r.addr) < |b.ram.words|
    ensures var n, left := AccessTicks(b) - 1, CallsLeft(TimerOf(b), b.ram.delay);
      var c := RunBench(b, n);
      && Asked(c, r, b.ram.words, b.ram.delay, left, n) && Defined(c) && RunBench(b, n + 1) == Next(c)
      && StoreTick(b.ram.delay, left) < n + 1
      && Next(c).link.m.state == BUS_IDLE && Next(c).link.f.state == S0 && !Next(c).link.m.shared.request
  {
    hide Starts, Asked, PhaseAt, RunBench, BusCycle.Run, InFlight, HalfOf, WordAddress, Completed, Defined, FirstReady,
         CallsLeft, TimerOf, ReadyAt;
    var k, left := FirstLook(b).value, CallsLeft(TimerOf(b), b.ram.delay);
    var n := Duration(k) - 1;
    FirstLookDecides(b, image, r);
    FirstLookIs(b, k);
    StoredByLook(b.ram.delay, left, k);
    RamAccessEnds(b, image, r);
    FlightBusy(b.link, DeviceOf(b), r, n);
    AskedRun(b, image, r, n);
    OneMore(b, n);
    EndedLink(RunBench(b, n + 1).link, r, AccessResult(r, b.ram.words));
  }

  lemma EndedLink(l: Link, r: Request, v: bv16)
    requires Completed(l, r, v)
    ensures l.m.state == BUS_IDLE && l.f.state == S0 && !l.m.shared.request
  {
  }

  // ---------- From power-up ----------

  /** A half-word transaction with a word that is in RAM. */
  predicate ToRam(b: Bench, r: Request) {
    r.mio && RegionOf(4 * WordAddress(r.addr)) == RAM && WordAddress(r.addr) < |b.ram.words|
  }

  /**
   * From power-up, after any number of reads outside RAM but at least one, and any idle time: the first
   * access to RAM ends exactly when the RAM's delay is even and its half is not one more than a multiple of
   * three, then with the word that was in RAM at power-up, and a write has replaced exactly its enabled bytes.
   */
  lemma RamAfterReads(b: Bench, image: seq<bv32>, fs: seq<Fetch>, idle: nat, r: Request)
    requires PoweredUp(b, image) && fs != [] && ToRam(b, r)
    requires forall i | 0 <= i < |fs| :: Mapped(fs[i].addr)
    ensures 0 <= WordAddress(r.addr) < |b.ram.words|
    ensures var p, d := PostBench(RunBench(AfterFetches(AfterReset(b), fs), idle), r), b.ram.delay;
      && (d % 2 == 0 && d / 2 % 3 != 1 ==>
            && Completed(RunBench(p, Duration(d / 2)).link, r, AccessResult(r, b.ram.words))
            && (r.wr ==> forall n | n >= Duration(d / 2) :: WrittenBytes(b.ram.words, r, RunBench(p, n).ram.words)))
      && (d % 2 == 1 || d / 2 % 3 == 1 ==> forall n | n > 0 :: InFlight(RunBench(p, n).link, r))
  {
    hide Quiet, RunBench, Mapped, RegionOf, WordAddress, Next, Completed, InFlight, WrittenBytes, PoweredUp, AccessResult,
         WillEnd, FirstLook, TimerOf;
    NotRequested(b, image);
    ResetQuiet(b, image);
    AllReads(AfterReset(b), image, fs);
    var c := AfterFetches(AfterReset(b), fs);
    IdleTicks(c, image, idle);
    var e := RunBench(c, idle);
    var p := PostBench(e, r);
    PostQuiet(e, image, r);
    FreshForEver(b.ram.delay, Ticks(fs));
    FreshForEver(b.ram.delay, idle);
    FirstAccess(p);
    RamAccessEnds(p, image, r);
    if r.wr && WillEnd(p) {
      forall n | n >= Duration(b.ram.delay / 2) ensures WrittenBytes(b.ram.words, r, RunBench(p, n).ram.words) {
        EndedWriteStores(p, image, r, n);
      }
    }
  }

  lemma FreshForEver(delay: nat, n: nat)
    ensures Advance(Fresh, delay, n) == Fresh
  {
  }

  /** From power-up, when the first thing the CPU does is a write to RAM: five ticks, and RAM as it should be for ever. */
  lemma WriteAfterReset(b: Bench, image: seq<bv32>, idle: nat, r: Request, n: nat)
    requires PoweredUp(b, image) && ToRam(b, r) && r.wr && n >= 5
    ensures 0 <= WordAddress(r.addr) < |b.ram.words|
    ensures var p := PostBench(RunBench(AfterReset(b), idle), r);
      && Completed(RunBench(p, 5).link, r, r.data)
      && WrittenBytes(b.ram.words, r, RunBench(p, n).ram.words)
  {
    hide Quiet, RunBench, RegionOf, WordAddress, Next, Completed, WrittenBytes, PoweredUp;
    NotRequested(b, image);
    ResetQuiet(b, image);
    var c := AfterReset(b);
    IdleTicks(c, image, idle);
    var d := RunBench(c, idle);
    var p := PostBench(d, r);
    PostQuiet(d, image, r);
    FirstWriteCompletes(p, image, r);
    FirstWriteStores(p, image, r, n);
  }

  lemma NotRequested(b: Bench, image: seq<bv32>)
    requires PoweredUp(b, image)
    ensures !b.link.m.shared.request
  {
  }
}
