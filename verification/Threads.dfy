/**
 * The CPU thread and the whole ticking machine, interleaved: whatever the scheduler does, every read of the
 * memory map outside RAM returns what the map holds.
 */
module Threads {
  import opened Words
  import opened CpuSim
  import opened CpuInterface
  import opened BusMaster
  import opened BusCycle
  import opened TestBench
  import opened BusReads
  import CpuBus
  import Handshake

  /** The threads, the machine, and the machine as it was when the cycle in flight was accepted. */
  datatype Whole = Whole(s: Handshake.Sys, b: Bench, start: Bench)

  /** A half-word read of memory outside RAM. */
  predicate Asks(r: Request) {
    !r.wr && r.mio && RegionOf(4 * WordAddress(r.addr)) != RAM
  }

  /** What it should return. */
  function Expected(image: seq<bv32>, r: Request): bv16
    requires |image| == ROM_WORDS
  {
    HalfOf(MapWord(image, WordAddress(r.addr)), UpperHalf(r.addr))
  }

  /** A step that can be made: the ticking thread samples the pins that the machine has. */
  predicate CanStep(w: Whole, a: Handshake.Action) {
    && Handshake.Enabled(w.s, a)
    && (a.Enter? ==> Asks(a.r))
    && (a.Sample? ==> a.ready == !w.b.link.f.readyN && a.d == w.b.link.p.d)
  }

  /**
   * The machine sees the CPU thread's request when it is complete, and ticks once for every call of `apply`:
   * when it finds no request, accepts one, moves on, or completes.
   */
  function MachineStep(b: Bench, s: Handshake.Sys, a: Handshake.Action): Bench {
    match a
    case Store => if s.cpu == Handshake.Storing(7) then PostBench(b, s.current) else b
    case Look => if s.shared.request then b else Next(b)
    case Load => if s.tick == Handshake.Loading(6) then Next(b) else b
    case Advance => Next(b)
    case Sample(ready, _) => if ready then b else Next(b)
    case Complete => Next(b)
    case _ => b
  }

  function Step(w: Whole, a: Handshake.Action): Whole
    requires CanStep(w, a)
  {
    Whole(Handshake.Do(w.s, a), MachineStep(w.b, w.s, a),
          if a.Load? && w.s.tick == Handshake.Loading(6) then w.b else w.start)
  }

  // ---------- The invariant ----------

  /** The machine's bus master is the one the threads' state stands for. */
  predicate Agrees(m: Master, v: Master) {
    m.state == v.state && m.shared == v.shared && (m.state != BUS_IDLE ==> m.latched == v.latched)
  }

  /** Ticks since the cycle in flight was accepted. */
  function Since(state: BusState): nat {
    match state
    case BUS_IDLE => 0
    case BUS_C1_T2 => 1
    case BUS_C2_T1 => 2
    case BUS_C2_T2 => 3
    case BUS_DONE => 4
  }

  /** Between cycles the machine is quiet; in a cycle it is as many ticks on from a quiet start as its state says. */
  predicate OnTrack(w: Whole, image: seq<bv32>) {
    if w.b.link.m.state == BUS_IDLE then Quiet(w.b, image)
    else
      && Quiet(w.start, image) && Pending(w.start.link) && w.start.link.m.shared.req == w.s.current
      && Asks(w.s.current)
      && w.b == RunBench(w.start, Since(w.b.link.m.state))
  }

  predicate Sampled(s: Handshake.Sys, image: seq<bv32>)
    requires |image| == ROM_WORDS
  {
    && (forall i | 0 <= i < |s.issued| :: Asks(s.issued[i]))
    && |s.samples| <= |s.issued|
    && forall i | 0 <= i < |s.samples| :: s.samples[i] == Expected(image, s.issued[i])
  }

  predicate Good(w: Whole, image: seq<bv32>) {
    && |image| == ROM_WORDS && Handshake.Invariant(w.s)
    && Agrees(w.b.link.m, Handshake.Seen(w.s)) && OnTrack(w, image) && Sampled(w.s, image)
  }

  // ---------- The five ticks of a read ----------

  /** Tick `n` is one tick of the machine, and one call of `apply`. */
  predicate MasterSteps(b: Bench, n: nat) {
    var c, d := RunBench(b, n), RunBench(b, n + 1);
    d == Next(c) && d.link.m == Apply(c.link.m, c.link.p, c.link.f.readyN, false).0
  }

  lemma TickStates(b: Bench, image: seq<bv32>)
    requires Quiet(b, image) && Pending(b.link) && Asks(b.link.m.shared.req)
    ensures |image| == ROM_WORDS
    ensures RunBench(b, 1).link.m.state == BUS_C1_T2 && RunBench(b, 2).link.m.state == BUS_C2_T1
    ensures RunBench(b, 3).link.m.state == BUS_C2_T2 && RunBench(b, 4).link.m.state == BUS_DONE
    ensures forall n | 0 < n < 5 :: InFlight(RunBench(b, n).link, b.link.m.shared.req)
    ensures Quiet(RunBench(b, 5), image)
    ensures Completed(RunBench(b, 5).link, b.link.m.shared.req, Expected(image, b.link.m.shared.req))
    ensures forall n | 0 <= n < 5 :: MasterSteps(b, n)
  {
    hide Quiet, Completed, InFlight, Pending, HalfOf, MapWord, WordAddress, RegionOf, UpperHalf, Apply, Defined;
    QuietOutsideReset(b, image);
    ReadTransaction(b, image);
    forall n | 0 <= n < 5 ensures MasterSteps(b, n) {
      LinkRuns(b, n);
      OneMore(b, n);
      NextMaster(RunBench(b, n));
    }
    FirstStates(b);
  }

  lemma NextMaster(b: Bench)
    requires Defined(b) && !b.cpuReset
    ensures Next(b).link.m == Apply(b.link.m, b.link.p, b.link.f.readyN, false).0
  {
    hide Apply, Clock, Evaluate;
  }

  lemma FirstStates(b: Bench)
    requires Pending(b.link)
    requires forall n | 0 <= n < 5 :: MasterSteps(b, n)
    ensures RunBench(b, 1).link.m.state == BUS_C1_T2 && RunBench(b, 2).link.m.state == BUS_C2_T1
    ensures RunBench(b, 3).link.m.state == BUS_C2_T2 && RunBench(b, 4).link.m.state == BUS_DONE
  {
    hide Next;
    assert RunBench(b, 0) == b;
    assert MasterSteps(b, 0) && MasterSteps(b, 1) && MasterSteps(b, 2) && MasterSteps(b, 3);
  }

  /** In the last tick ready is low and the data pins hold the answer. */
  lemma AtDone(b: Bench, image: seq<bv32>)
    requires Quiet(b, image) && Pending(b.link) && Asks(b.link.m.shared.req)
    ensures |image| == ROM_WORDS
    ensures !RunBench(b, 4).link.f.readyN && RunBench(b, 4).link.p.d == Expected(image, b.link.m.shared.req)
  {
    hide Quiet, Pending, RunBench, HalfOf, MapWord, WordAddress, RegionOf, UpperHalf;
    TickStates(b, image);
    assert MasterSteps(b, 4);
  }

  // ---------- Every step ----------

  /** Steps that are none of the machine's. */
  predicate Private(s: Handshake.Sys, a: Handshake.Action) {
    match a
    case Store => s.cpu != Handshake.Storing(7)
    case Look => s.shared.request
    case Load => s.tick != Handshake.Loading(6)
    case Advance => false
    case Sample(ready, _) => ready
    case Complete => false
    case _ => true
  }

  lemma DoKeepsSampled(w: Whole, a: Handshake.Action, image: seq<bv32>)
    requires Good(w, image) && CanStep(w, a)
    ensures Sampled(Handshake.Do(w.s, a), image)
  {
    hide Expected, Quiet, Asks, Handshake.Seen, OnTrack, Agrees, Handshake.MutexHeld;
    if a.Sample? && a.ready { SampleIs(w, a, image); }
  }

  lemma SampleIs(w: Whole, a: Handshake.Action, image: seq<bv32>)
    requires Good(w, image) && CanStep(w, a) && a.Sample?
    ensures a.ready && a.d == Expected(image, w.s.current)
    ensures w.s.issued != [] && w.s.current == w.s.issued[|w.s.issued| - 1] && |w.s.samples| == |w.s.issued| - 1
  {
    hide Expected, Quiet, Asks, RunBench, Pending;
    AtDone(w.start, image);
  }

  lemma AtomicAgrees(w: Whole, a: Handshake.Action)
    requires Handshake.Invariant(w.s) && Handshake.Enabled(w.s, a)
    ensures Handshake.Alike(Handshake.Seen(Handshake.Do(w.s, a)), Handshake.AtomicStep(Handshake.Seen(w.s), w.s, a))
  {
    hide Handshake.Invariant, Handshake.Enabled, Handshake.Seen, Handshake.AtomicStep, Handshake.Do;
    if Handshake.OfCpu(a) {
      Handshake.CpuStepRefines(w.s, a);
    } else if Handshake.Taking(a) {
      Handshake.TakeStepRefines(w.s, a);
    } else {
      Handshake.AnswerStepRefines(w.s, a);
    }
  }

  lemma PrivateStep(w: Whole, a: Handshake.Action, image: seq<bv32>)
    requires Good(w, image) && CanStep(w, a) && Private(w.s, a)
    ensures var t := Step(w, a); Agrees(t.b.link.m, Handshake.Seen(t.s)) && OnTrack(t, image)
  {
    AtomicAgrees(w, a);
    CurrentStays(w.s, a);
    NoMachineStep(w, a);
    hide Handshake.AtomicStep, MachineStep, Private, Handshake.Seen, Quiet, Asks, RunBench, Pending, Sampled, Expected, Handshake.Invariant, Handshake.Do, Handshake.Enabled;
    if a.Enter? { EnterIdle(w, a, image); }
  }

  lemma NoMachineStep(w: Whole, a: Handshake.Action)
    requires Private(w.s, a)
    ensures MachineStep(w.b, w.s, a) == w.b && !(a.Load? && w.s.tick == Handshake.Loading(6))
    ensures forall m: Master :: Handshake.AtomicStep(m, w.s, a) == m
  {
  }

  lemma CurrentStays(s: Handshake.Sys, a: Handshake.Action)
    requires Handshake.Enabled(s, a)
    ensures !a.Enter? ==> Handshake.Do(s, a).current == s.current
  {
  }

  lemma EnterIdle(w: Whole, a: Handshake.Action, image: seq<bv32>)
    requires Good(w, image) && CanStep(w, a) && a.Enter?
    ensures w.b.link.m.state == BUS_IDLE
  {
    hide Quiet, Asks, RunBench, Pending;
  }

  lemma PostStep(w: Whole, a: Handshake.Action, image: seq<bv32>)
    requires Good(w, image) && CanStep(w, a) && a.Store? && w.s.cpu == Handshake.Storing(7)
    ensures var t := Step(w, a); Agrees(t.b.link.m, Handshake.Seen(t.s)) && OnTrack(t, image)
  {
    AtomicAgrees(w, a);
    StoreIdle(w, a, image);
    hide Handshake.Seen, Quiet, Asks, RunBench, Pending, Handshake.Invariant, Handshake.Do;
    CpuBus.PostQuiet(w.b, image, w.s.current);
  }

  lemma StoreIdle(w: Whole, a: Handshake.Action, image: seq<bv32>)
    requires Good(w, image) && CanStep(w, a) && a.Store?
    ensures w.b.link.m.state == BUS_IDLE && w.s.bus == BUS_IDLE && !w.b.link.m.shared.request
  {
    hide Quiet, Asks, RunBench, Pending;
  }

  lemma IdleStep(w: Whole, a: Handshake.Action, image: seq<bv32>)
    requires Good(w, image) && CanStep(w, a) && a.Look? && !w.s.shared.request
    ensures var t := Step(w, a); Agrees(t.b.link.m, Handshake.Seen(t.s)) && OnTrack(t, image)
  {
    AtomicAgrees(w, a);
    LookIdle(w, a, image);
    hide Handshake.Seen, Quiet, Asks, RunBench, Pending, Handshake.Invariant, Handshake.Do, Next;
    IdleTick(w.b, image);
    QuietRest(Next(w.b), image);
  }

  lemma QuietRest(b: Bench, image: seq<bv32>)
    requires Quiet(b, image)
    ensures Rest(b.link)
  {
  }

  lemma LookIdle(w: Whole, a: Handshake.Action, image: seq<bv32>)
    requires Good(w, image) && CanStep(w, a) && a.Look? && !w.s.shared.request
    ensures w.b.link.m.state == BUS_IDLE && !w.b.link.m.shared.request
  {
    hide Quiet, Asks, RunBench, Pending;
  }

  lemma AcceptStep(w: Whole, a: Handshake.Action, image: seq<bv32>)
    requires Good(w, image) && CanStep(w, a) && a.Load? && w.s.tick == Handshake.Loading(6)
    ensures var t := Step(w, a); Agrees(t.b.link.m, Handshake.Seen(t.s)) && OnTrack(t, image)
  {
    AtomicAgrees(w, a);
    LoadPending(w, a, image);
    hide Handshake.Seen, Quiet, Asks, RunBench, Pending, Handshake.Invariant, Next;
    TickStates(w.b, image);
    assert RunBench(w.b, 0) == w.b by { NoRun(w.b); }
    assert MasterSteps(w.b, 0);
  }

  lemma NoRun(b: Bench)
    ensures RunBench(b, 0) == b
  {
  }

  lemma LoadPending(w: Whole, a: Handshake.Action, image: seq<bv32>)
    requires Good(w, image) && CanStep(w, a) && a.Load? && w.s.tick == Handshake.Loading(6)
    ensures Quiet(w.b, image) && Pending(w.b.link) && w.b.link.m.shared.req == w.s.current && Asks(w.s.current)
    ensures Handshake.Seen(w.s).state == BUS_IDLE && Handshake.Seen(w.s).shared == w.b.link.m.shared
  {
    hide Asks, RunBench, RegionOf;
    QuietRest(w.b, image);
    hide Quiet;
  }

  lemma MoveStep(w: Whole, a: Handshake.Action, image: seq<bv32>)
    requires Good(w, image) && CanStep(w, a) && a.Advance?
    ensures var t := Step(w, a); Agrees(t.b.link.m, Handshake.Seen(t.s)) && OnTrack(t, image)
  {
    AtomicAgrees(w, a);
    AdvanceBusy(w, a, image);
    CurrentStays(w.s, a);
    var v := Handshake.Seen(w.s);
    MoveAgrees(w.b.link.m, v, w.b.link.p, w.b.link.f.readyN);
    assert Handshake.AtomicStep(v, w.s, a) == Apply(v, ZERO_PINS, true, false).0;
    hide Handshake.Seen, Handshake.AtomicStep, Handshake.Do, Handshake.Enabled, Quiet, Asks, RunBench, Pending,
         Handshake.Invariant, Next, Sampled, Expected, Completed, InFlight, Apply;
    TickStates(w.start, image);
    assert MasterSteps(w.start, Since(w.b.link.m.state));
  }

  lemma MoveAgrees(m: Master, v: Master, p: Pins, readyN: bool)
    requires Agrees(m, v) && m.state != BUS_IDLE && m.state != BUS_DONE
    ensures Agrees(Apply(m, p, readyN, false).0, Apply(v, ZERO_PINS, true, false).0)
    ensures var t := Apply(m, p, readyN, false).0;
      t.state != BUS_IDLE && Since(t.state) == Since(m.state) + 1 <= 4
  {
  }

  lemma AdvanceBusy(w: Whole, a: Handshake.Action, image: seq<bv32>)
    requires Good(w, image) && CanStep(w, a) && a.Advance?
    ensures w.b.link.m.state != BUS_IDLE && w.b.link.m.state != BUS_DONE
  {
    hide Quiet, Asks, RunBench, Pending;
  }

  lemma FinishStep(w: Whole, a: Handshake.Action, image: seq<bv32>)
    requires Good(w, image) && CanStep(w, a) && a.Complete?
    ensures var t := Step(w, a); Agrees(t.b.link.m, Handshake.Seen(t.s)) && OnTrack(t, image)
  {
    AtomicAgrees(w, a);
    CompleteDone(w, a, image);
    hide Handshake.Seen, Quiet, Asks, RunBench, Pending, Handshake.Invariant, Next, Expected;
    TickStates(w.start, image);
    AtDone(w.start, image);
    assert MasterSteps(w.start, 4);
  }

  lemma CompleteDone(w: Whole, a: Handshake.Action, image: seq<bv32>)
    requires Good(w, image) && CanStep(w, a) && a.Complete?
    ensures w.b.link.m.state == BUS_DONE && !w.s.latched.wr
    ensures Handshake.LastSample(w.s) == Expected(image, w.s.current)
    ensures Handshake.Seen(w.s) == Master(BUS_DONE, w.s.current, Shared(false, false, w.s.current), false, true)
  {
    hide Quiet, RunBench, Pending, Expected, RegionOf, WordAddress;
  }

  lemma StepKeeps(w: Whole, a: Handshake.Action, image: seq<bv32>)
    requires Good(w, image) && CanStep(w, a)
    ensures Good(Step(w, a), image)
  {
    DoKeepsSampled(w, a, image);
    Handshake.DoKeeps(w.s, a);
    hide Handshake.Seen, Handshake.Do, Handshake.Invariant, Quiet, OnTrack, Agrees, Sampled, Next;
    if Private(w.s, a) { PrivateStep(w, a, image); }
    else if a.Store? { PostStep(w, a, image); }
    else if a.Look? { IdleStep(w, a, image); }
    else if a.Load? { AcceptStep(w, a, image); }
    else if a.Advance? { MoveStep(w, a, image); }
    else if a.Sample? { SampleIs(w, a, image); }
    else { FinishStep(w, a, image); }
  }

  // ---------- Every interleaving ----------

  predicate Follows(w: Whole, acts: seq<Handshake.Action>)
    decreases |acts|
  {
    acts == [] || (CanStep(w, acts[0]) && Follows(Step(w, acts[0]), acts[1..]))
  }

  function After(w: Whole, acts: seq<Handshake.Action>): Whole
    requires Follows(w, acts)
    decreases |acts|
  {
    if acts == [] then w else After(Step(w, acts[0]), acts[1..])
  }

  lemma {:induction false} AlwaysGood(w: Whole, acts: seq<Handshake.Action>, image: seq<bv32>)
    requires Good(w, image) && Follows(w, acts)
    ensures Good(After(w, acts), image)
    decreases |acts|
  {
    hide Good, Step, CanStep;
    if acts != [] {
      StepKeeps(w, acts[0], image);
      AlwaysGood(Step(w, acts[0]), acts[1..], image);
    }
  }

  /** Both threads at their start, the machine after reset. */
  function AtReset(b: Bench): Whole {
    Whole(Handshake.START, CpuBus.AfterReset(b), CpuBus.AfterReset(b))
  }

  lemma GoodAtReset(b: Bench, image: seq<bv32>)
    requires CpuBus.PoweredUp(b, image)
    ensures |image| == ROM_WORDS && Good(AtReset(b), image)
  {
    ResetShared(b, image);
    hide CpuBus.AfterReset, Quiet;
    CpuBus.ResetQuiet(b, image);
    QuietRest(CpuBus.AfterReset(b), image);
  }

  lemma ResetShared(b: Bench, image: seq<bv32>)
    requires CpuBus.PoweredUp(b, image)
    ensures b.link.m.shared == Shared(false, false, NO_REQUEST) && |image| == ROM_WORDS
  {
  }

  /**
   * From power-up, in every interleaving of the CPU thread's accesses to the shared variables with those of
   * the ticking thread, whose ticks run the whole machine: every transaction that has returned has returned
   * the half word that the memory map holds.
   */
  lemma EveryReadInEveryInterleaving(b: Bench, image: seq<bv32>, acts: seq<Handshake.Action>)
    requires CpuBus.PoweredUp(b, image) && Follows(AtReset(b), acts)
    ensures |image| == ROM_WORDS
    ensures var s := After(AtReset(b), acts).s;
      && |s.returned| <= |s.issued|
      && forall i | 0 <= i < |s.returned| :: s.returned[i] == Expected(image, s.issued[i])
  {
    hide Expected, Good, AtReset;
    GoodAtReset(b, image);
    AlwaysGood(AtReset(b), acts, image);
    Returns(After(AtReset(b), acts), image);
  }

  /** The byte that `read_uint8` picks from such a half word is the memory map's. */
  lemma ExpectedByte(image: seq<bv32>, addr: u32)
    requires |image| == ROM_WORDS && CpuBus.Mapped(addr)
    ensures Asks(CpuBus.ByteRequest(addr))
    ensures CpuBus.PickByte(addr, Expected(image, CpuBus.ByteRequest(addr))) == CpuBus.MapByte(image, addr)
  {
    hide CpuBus.PickByte, CpuBus.MapByte, CpuBus.Mapped, HalfOf, UpperHalf, WordAddress, RegionOf, MapWord;
    CpuBus.ReadsMapByte(image, addr);
  }

  /** The step that can always be made. */
  function NextMove(w: Whole): Handshake.Action {
    var a := Handshake.NextStep(w.s);
    if a.Sample? then Handshake.Sample(!w.b.link.f.readyN, w.b.link.p.d) else a
  }

  /** No interleaving gets stuck, and the machine's pins never turn a completion away. */
  lemma NeverStuck(b: Bench, image: seq<bv32>, acts: seq<Handshake.Action>)
    requires CpuBus.PoweredUp(b, image) && Follows(AtReset(b), acts)
    ensures var w := After(AtReset(b), acts); CanStep(w, NextMove(w)) && (NextMove(w).Sample? ==> NextMove(w).ready)
  {
    hide Good, AtReset, Handshake.Enabled;
    GoodAtReset(b, image);
    AlwaysGood(AtReset(b), acts, image);
    MovesOn(After(AtReset(b), acts), image);
  }

  lemma MovesOn(w: Whole, image: seq<bv32>)
    requires Good(w, image)
    ensures CanStep(w, NextMove(w)) && (NextMove(w).Sample? ==> NextMove(w).ready)
  {
    hide OnTrack, Sampled, Handshake.Invariant;
    Handshake.CanMove(w.s);
    if NextMove(w).Sample? { SampleIs(w, NextMove(w), image); }
  }

  lemma Returns(w: Whole, image: seq<bv32>)
    requires Good(w, image)
    ensures |image| == ROM_WORDS && |w.s.returned| <= |w.s.issued|
    ensures forall i | 0 <= i < |w.s.returned| :: w.s.returned[i] == Expected(image, w.s.issued[i])
  {
    hide Expected, Quiet, OnTrack, Handshake.Stages;
  }
}
