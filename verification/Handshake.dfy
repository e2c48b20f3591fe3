/**
 * The CPU thread and the ticking thread, interleaved at every access to what they share. `bus_transaction`
 * stores its request field by field under the mutex and waits; `apply` loads it field by field under the
 * mutex, later stores the answer without it, and completes under it.
 */
module Handshake {
  import opened CpuSim

  datatype Owner = Free | CpuThread | TickThread

  /** Where the CPU thread is: `Storing(k)` has made k of its eight stores. */
  datatype CpuPc = Outside | Storing(k: nat) | Testing | Blocked | Woken

  /** Where the ticking thread is: `Loading(k)` has made k of its seven accesses. */
  datatype TickPc = Between | Looking | Loading(k: nat) | Answering | Finishing | Completing | Notifying | Unlocking

  /**
   * The shared variables, the threads, and what has happened so far: transactions issued by the CPU thread,
   * accepted by the bus master, the data pins sampled at each completion, and what has been returned.
   */
  datatype Sys = Sys(
    shared: Shared, mutex: Owner,
    cpu: CpuPc, current: Request, before: Shared,
    tick: TickPc, bus: BusState, latched: Request,
    issued: seq<Request>, accepted: seq<Request>, samples: seq<bv16>, returned: seq<bv16>)

  datatype Action =
    // the CPU thread
    | Enter(r: Request) | Store | Test | SpuriousWake | Relock
    // the ticking thread; Sample is told what the slave drives
    | Lock | Look | Load | Advance | Sample(ready: bool, d: bv16) | Answer | FinishLock | Complete | Notify | Unlock

  predicate Enabled(s: Sys, a: Action) {
    match a
    case Enter(_) => s.cpu == Outside && s.mutex == Free
    case Store => s.cpu.Storing? && s.cpu.k < 8
    case Test => s.cpu == Testing
    case SpuriousWake => s.cpu == Blocked
    case Relock => s.cpu == Woken && s.mutex == Free
    case Lock => s.tick == Between && s.bus == BUS_IDLE && s.mutex == Free
    case Look => s.tick == Looking
    case Load => s.tick.Loading? && s.tick.k < 7
    case Advance => s.tick == Between && s.bus != BUS_IDLE && s.bus != BUS_DONE
    case Sample(_, _) => s.tick == Between && s.bus == BUS_DONE
    case Answer => s.tick == Answering
    case FinishLock => s.tick == Finishing && s.mutex == Free
    case Complete => s.tick == Completing
    case Notify => s.tick == Notifying
    case Unlock => s.tick == Unlocking
  }

  /** The k-th store of `bus_transaction`. */
  function StoreField(sh: Shared, r: Request, k: nat): Shared {
    match k
    case 0 => sh.(request := true)
    case 1 => sh.(completed := false)
    case 2 => sh.(req := sh.req.(addr := r.addr))
    case 3 => sh.(req := sh.req.(data := r.data))
    case 4 => sh.(req := sh.req.(bhe := r.bhe))
    case 5 => sh.(req := sh.req.(ble := r.ble))
    case 6 => sh.(req := sh.req.(wr := r.wr))
    case _ => sh.(req := sh.req.(mio := r.mio))
  }

  /** The k-th load of `apply`; the first access clears the request. */
  function LoadField(l: Request, r: Request, k: nat): Request {
    match k
    case 0 => l
    case 1 => l.(addr := r.addr)
    case 2 => l.(data := r.data)
    case 3 => l.(bhe := r.bhe)
    case 4 => l.(ble := r.ble)
    case 5 => l.(wr := r.wr)
    case _ => l.(mio := r.mio)
  }

  function Do(s: Sys, a: Action): Sys
    requires Enabled(s, a)
  {
    match a
    case Enter(r) =>
      s.(cpu := Storing(0), mutex := CpuThread, current := r, before := s.shared, issued := s.issued + [r])
    case Store =>
      s.(shared := StoreField(s.shared, s.current, s.cpu.k),
         cpu := if s.cpu.k == 7 then Testing else Storing(s.cpu.k + 1))
    case Test =>
      if s.shared.completed then s.(cpu := Outside, mutex := Free, returned := s.returned + [s.shared.req.data])
      else s.(cpu := Blocked, mutex := Free)
    case SpuriousWake => s.(cpu := Woken)
    case Relock => s.(cpu := Testing, mutex := CpuThread)
    case Lock => s.(tick := Looking, mutex := TickThread)
    case Look => if s.shared.request then s.(tick := Loading(0)) else s.(tick := Between, mutex := Free)
    case Load =>
      var l := LoadField(s.latched, s.shared.req, s.tick.k);
      var sh := if s.tick.k == 0 then s.shared.(request := false) else s.shared;
      if s.tick.k == 6 then
        s.(shared := sh, latched := l, tick := Between, mutex := Free, bus := BUS_C1_T2, accepted := s.accepted + [l])
      else s.(shared := sh, latched := l, tick := Loading(s.tick.k + 1))
    case Advance =>
      s.(bus := if s.bus == BUS_C1_T2 then BUS_C2_T1 else if s.bus == BUS_C2_T1 then BUS_C2_T2 else BUS_DONE)
    case Sample(ready, d) =>
      if ready then s.(tick := Answering, samples := s.samples + [d]) else s.(bus := BUS_C2_T1)
    case Answer =>
      s.(shared := if s.latched.wr || s.samples == [] then s.shared
                   else s.shared.(req := s.shared.req.(data := s.samples[|s.samples| - 1])),
         bus := BUS_IDLE, tick := Finishing)
    case FinishLock => s.(tick := Completing, mutex := TickThread)
    case Complete => s.(shared := s.shared.(completed := true), tick := Notifying)
    case Notify => s.(cpu := if s.cpu == Blocked then Woken else s.cpu, tick := Unlocking)
    case Unlock => s.(tick := Between, mutex := Free)
  }

  const START := Sys(Shared(false, false, NO_REQUEST), Free, Outside, NO_REQUEST, Shared(false, false, NO_REQUEST),
                     Between, BUS_IDLE, NO_REQUEST, [], [], [], [])

  // ---------- The invariant, stage by stage ----------

  /** The first k of the eight stores have been made. */
  predicate StoredSoFar(s: Sys, k: nat) {
    && (if k > 0 then s.shared.request else !s.shared.request)
    && (k > 1 ==> !s.shared.completed)
    && (k > 2 ==> s.shared.req.addr == s.current.addr) && (k > 3 ==> s.shared.req.data == s.current.data)
    && (k > 4 ==> s.shared.req.bhe == s.current.bhe) && (k > 5 ==> s.shared.req.ble == s.current.ble)
    && (k > 6 ==> s.shared.req.wr == s.current.wr) && (k > 7 ==> s.shared.req.mio == s.current.mio)
  }

  /** The first k of the seven loads have been made. */
  predicate LoadedSoFar(s: Sys, k: nat) {
    && (k > 1 ==> s.latched.addr == s.current.addr) && (k > 2 ==> s.latched.data == s.current.data)
    && (k > 3 ==> s.latched.bhe == s.current.bhe) && (k > 4 ==> s.latched.ble == s.current.ble)
    && (k > 5 ==> s.latched.wr == s.current.wr) && (k > 6 ==> s.latched.mio == s.current.mio)
  }

  predicate Waiting(s: Sys) {
    s.cpu == Testing || s.cpu == Blocked || s.cpu == Woken
  }

  predicate TickIdle(s: Sys) {
    s.bus == BUS_IDLE && (s.tick == Between || s.tick == Looking)
  }

  /** What the transaction in progress will return, or has returned. */
  function ResultOf(r: Request, sample: bv16): bv16 {
    if r.wr then r.data else sample
  }

  /** How many transactions have been accepted, sampled and returned. */
  predicate Counts(s: Sys, accepted: int, sampled: int, returned: int) {
    |s.accepted| == accepted && |s.samples| == sampled && |s.returned| == returned
  }

  predicate AtRest(s: Sys) {
    var n := |s.issued|;
    s.cpu == Outside && TickIdle(s) && !s.shared.request && Counts(s, n, n, n)
  }

  predicate IsStoring(s: Sys) {
    var n := |s.issued|;
    && n > 0 && s.cpu.Storing? && s.cpu.k < 8 && s.bus == BUS_IDLE && s.tick == Between
    && StoredSoFar(s, s.cpu.k) && !s.before.request && Counts(s, n - 1, n - 1, n - 1)
  }

  predicate IsPending(s: Sys) {
    var n := |s.issued|;
    && n > 0 && Waiting(s) && s.bus == BUS_IDLE && (s.tick == Between || s.tick == Looking || s.tick == Loading(0))
    && s.shared == Shared(true, false, s.current) && Counts(s, n - 1, n - 1, n - 1)
  }

  predicate IsLoading(s: Sys) {
    var n := |s.issued|;
    && n > 0 && Waiting(s) && s.bus == BUS_IDLE && s.tick.Loading? && 0 < s.tick.k < 7
    && s.shared == Shared(false, false, s.current) && LoadedSoFar(s, s.tick.k) && Counts(s, n - 1, n - 1, n - 1)
  }

  predicate IsFlying(s: Sys) {
    var n := |s.issued|;
    && n > 0 && Waiting(s) && s.bus != BUS_IDLE && s.latched == s.current
    && s.shared == Shared(false, false, s.current)
    && (if s.tick == Answering then s.bus == BUS_DONE && Counts(s, n, n, n - 1)
        else s.tick == Between && Counts(s, n, n - 1, n - 1))
  }

  predicate IsAnswered(s: Sys) {
    var n := |s.issued|;
    && n > 0 && Waiting(s) && s.bus == BUS_IDLE && (s.tick == Finishing || s.tick == Completing)
    && s.latched == s.current && Counts(s, n, n, n - 1)
    && s.shared == Shared(false, false, s.current.(data := ResultOf(s.current, s.samples[n - 1])))
  }

  predicate IsUnread(s: Sys) {
    var n := |s.issued|;
    && n > 0 && Waiting(s) && s.bus == BUS_IDLE
    && (TickIdle(s) || s.tick == Notifying || s.tick == Unlocking)
    && Counts(s, n, n, n - 1)
    && s.shared == Shared(false, true, s.current.(data := ResultOf(s.current, s.samples[n - 1])))
    && (s.cpu == Blocked ==> s.tick == Notifying)
  }

  predicate Stages(s: Sys) {
    AtRest(s) || IsStoring(s) || IsPending(s) || IsLoading(s) || IsFlying(s) || IsAnswered(s) || IsUnread(s)
  }

  /** The mutex is held by whoever is inside a critical section. */
  predicate MutexHeld(s: Sys) {
    && (s.mutex == CpuThread <==> s.cpu.Storing? || s.cpu == Testing)
    && (s.mutex == TickThread <==> s.tick == Looking || s.tick.Loading? || s.tick == Completing || s.tick == Notifying
                                   || s.tick == Unlocking)
  }

  /** Counts never overtake each other, and the current transaction is the last one issued. */
  predicate InOrder(s: Sys) {
    && (s.cpu != Outside ==> |s.issued| > 0 && s.current == s.issued[|s.issued| - 1])
    && |s.returned| <= |s.samples| <= |s.accepted| <= |s.issued| <= |s.returned| + 1
  }

  /** Accepted transactions are issued ones, in order and untorn; returned values are their results, in order. */
  predicate History(s: Sys) {
    && InOrder(s)
    && (forall i | 0 <= i < |s.accepted| :: s.accepted[i] == s.issued[i])
    && (forall i | 0 <= i < |s.returned| :: s.returned[i] == ResultOf(s.issued[i], s.samples[i]))
  }

  predicate Invariant(s: Sys) {
    Stages(s) && MutexHeld(s) && History(s)
  }

  predicate OfCpu(a: Action) {
    a.Enter? || a.Store? || a.Test? || a.SpuriousWake? || a.Relock?
  }

  /** The half of the ticking thread that takes a request. */
  predicate Taking(a: Action) {
    a.Lock? || a.Look? || a.Load?
  }

  lemma DoKeepsMutex(s: Sys, a: Action)
    requires Invariant(s) && Enabled(s, a)
    ensures MutexHeld(Do(s, a))
  {
  }

  lemma CpuKeepsStages(s: Sys, a: Action)
    requires Invariant(s) && Enabled(s, a) && OfCpu(a)
    ensures Stages(Do(s, a))
  {
  }

  lemma TakeKeepsStages(s: Sys, a: Action)
    requires Invariant(s) && Enabled(s, a) && Taking(a)
    ensures Stages(Do(s, a))
  {
    hide Stages, MutexHeld, History, Do, Enabled;
    if a.Load? { LoadKeepsStages(s, a); } else { LookKeepsStages(s, a); }
  }

  lemma LoadKeepsStages(s: Sys, a: Action)
    requires Stages(s) && Enabled(s, a) && a.Load?
    ensures Stages(Do(s, a))
  {
    hide StoredSoFar, ResultOf;
  }

  lemma LookKeepsStages(s: Sys, a: Action)
    requires Stages(s) && MutexHeld(s) && Enabled(s, a) && (a.Lock? || a.Look?)
    ensures Stages(Do(s, a))
  {
    hide StoredSoFar, LoadedSoFar, ResultOf;
  }

  lemma AnswerKeepsStages(s: Sys, a: Action)
    requires Invariant(s) && Enabled(s, a) && !OfCpu(a) && !Taking(a)
    ensures Stages(Do(s, a))
  {
    hide StoredSoFar, LoadedSoFar;
  }

  predicate Accepted(s: Sys) {
    forall i | 0 <= i < |s.accepted| :: i < |s.issued| && s.accepted[i] == s.issued[i]
  }

  predicate Returned(s: Sys) {
    forall i | 0 <= i < |s.returned| ::
      i < |s.issued| && i < |s.samples| && s.returned[i] == ResultOf(s.issued[i], s.samples[i])
  }

  lemma DoKeepsAccepted(s: Sys, a: Action)
    requires Invariant(s) && Enabled(s, a)
    ensures Accepted(Do(s, a))
  {
  }

  lemma DoKeepsReturned(s: Sys, a: Action)
    requires Invariant(s) && Enabled(s, a)
    ensures Returned(Do(s, a))
  {
  }

  lemma CpuKeepsOrder(s: Sys, a: Action)
    requires Invariant(s) && Enabled(s, a) && OfCpu(a)
    ensures InOrder(Do(s, a))
  {
  }

  lemma TickKeepsOrder(s: Sys, a: Action)
    requires Invariant(s) && Enabled(s, a) && !OfCpu(a)
    ensures InOrder(Do(s, a))
  {
    hide StoredSoFar, LoadedSoFar, MutexHeld;
  }

  lemma DoKeeps(s: Sys, a: Action)
    requires Invariant(s) && Enabled(s, a)
    ensures Invariant(Do(s, a))
  {
    hide Do, Stages, MutexHeld;
    DoKeepsMutex(s, a);
    DoKeepsAccepted(s, a);
    DoKeepsReturned(s, a);
    if OfCpu(a) {
      CpuKeepsOrder(s, a);
      CpuKeepsStages(s, a);
    } else {
      TickKeepsOrder(s, a);
      if Taking(a) { TakeKeepsStages(s, a); } else { AnswerKeepsStages(s, a); }
    }
  }

  // ---------- Every interleaving ----------

  predicate Possible(s: Sys, acts: seq<Action>)
    decreases |acts|
  {
    acts == [] || (Enabled(s, acts[0]) && Possible(Do(s, acts[0]), acts[1..]))
  }

  function After(s: Sys, acts: seq<Action>): Sys
    requires Possible(s, acts)
    decreases |acts|
  {
    if acts == [] then s else After(Do(s, acts[0]), acts[1..])
  }

  lemma {:induction false} AlwaysInvariant(s: Sys, acts: seq<Action>)
    requires Invariant(s) && Possible(s, acts)
    ensures Invariant(After(s, acts))
    decreases |acts|
  {
    hide Invariant, Do, Enabled;
    if acts != [] {
      DoKeeps(s, acts[0]);
      AlwaysInvariant(Do(s, acts[0]), acts[1..]);
    }
  }

  predicate RequestPending(s: Sys) { s.shared.request }
  predicate CycleInFlight(s: Sys) { s.bus != BUS_IDLE }
  predicate CompletionUnread(s: Sys) { s.shared.completed && Waiting(s) }

  /**
   * In every interleaving, with spurious wakeups at any point: a transaction is in one phase at a time; the
   * accepted transactions are the first of the issued ones, with every field as issued; each transaction has
   * returned once, except the last one while it is under way; a read has returned the data pins sampled at its
   * own completion and a write its own data.
   */
  lemma EveryInterleaving(acts: seq<Action>)
    requires Possible(START, acts)
    ensures var s := After(START, acts);
            && !(RequestPending(s) && CycleInFlight(s)) && !(RequestPending(s) && CompletionUnread(s))
            && !(CycleInFlight(s) && CompletionUnread(s))
            && s.accepted <= s.issued
            && |s.returned| == (if s.cpu == Outside then |s.issued| else |s.issued| - 1)
            && |s.returned| <= |s.samples| <= |s.accepted|
            && forall i | 0 <= i < |s.returned| :: s.returned[i] == ResultOf(s.issued[i], s.samples[i])
  {
    AlwaysInvariant(START, acts);
  }

  /**
   * In every interleaving the unlocked store of the answer meets a CPU thread that is inside its wait with
   * nothing completed; the CPU thread stores its request only while no request is pending and the bus master
   * has nothing to do and is between two ticks; and a blocked CPU thread whose transaction is completed is about to be notified.
   */
  lemma NoRace(acts: seq<Action>)
    requires Possible(START, acts)
    ensures var s := After(START, acts);
            && (s.tick == Answering ==> Waiting(s) && !s.shared.completed && s.shared.req == s.latched == s.current)
            && (s.cpu.Storing? ==> s.bus == BUS_IDLE && s.tick == Between && !s.before.request)
            && (s.tick.Loading? ==> s.cpu == Blocked || s.cpu == Woken)
            && (s.cpu == Blocked && s.shared.completed ==> s.tick == Notifying)
  {
    AlwaysInvariant(START, acts);
  }

  /** A step that can be made next: the ticking thread's, or the CPU thread's while that one waits for the mutex. */
  function NextStep(s: Sys): Action {
    match s.tick
    case Looking => Look
    case Loading(_) => Load
    case Answering => Answer
    case Completing => Complete
    case Notifying => Notify
    case Unlocking => Unlock
    case Finishing => if s.mutex == Free then FinishLock else CpuStep(s)
    case Between =>
      if s.bus == BUS_DONE then Sample(true, 0)
      else if s.bus != BUS_IDLE then Advance
      else if s.mutex == Free then Lock
      else CpuStep(s)
  }

  function CpuStep(s: Sys): Action {
    if s.cpu.Storing? then Store else Test
  }

  /**
   * No interleaving gets stuck: without a new transaction or a spurious wakeup some thread can always move.
   * No wakeup is lost either: a completed transaction whose CPU thread is not being notified has woken it.
   */
  lemma NeverStuck(acts: seq<Action>)
    requires Possible(START, acts)
    ensures var s := After(START, acts);
            && Enabled(s, NextStep(s)) && !NextStep(s).Enter? && !NextStep(s).SpuriousWake?
            && (CompletionUnread(s) && s.tick != Notifying ==> s.cpu == Testing || s.cpu == Woken)
  {
    AlwaysInvariant(START, acts);
    CanMove(After(START, acts));
  }

  lemma CanMove(s: Sys)
    requires Invariant(s)
    ensures Enabled(s, NextStep(s)) && !NextStep(s).Enter? && !NextStep(s).SpuriousWake?
    ensures CompletionUnread(s) && s.tick != Notifying ==> s.cpu == Testing || s.cpu == Woken
  {
  }

  // ---------- The same protocol, one transaction step at a time ----------

  /**
   * The bus master of `CpuSim` that this state stands for: stores count when the last one is made, loads
   * when the last one is made, and a completion when `m_bus_completed` is set.
   */
  function Seen(s: Sys): Master {
    if s.cpu.Storing? then Master(s.bus, s.latched, s.before, false, true)
    else if s.tick.Loading? && s.tick.k > 0 then
      Master(BUS_IDLE, NO_REQUEST, Shared(true, false, s.current), false, true)
    else if s.tick == Answering || s.tick == Finishing || s.tick == Completing then
      Master(BUS_DONE, s.latched, Shared(false, false, s.current), false, true)
    else Master(s.bus, s.latched, s.shared, false, true)
  }

  /** Two masters that differ at most in what an idle one remembers of its last cycle. */
  predicate Alike(m: Master, n: Master) {
    m == n || (m.state == n.state == BUS_IDLE && m.shared == n.shared && m.lastReset == n.lastReset && m.running == n.running)
  }

  /** The pins as far as `apply` reads them. */
  function DataOnPins(d: bv16): Pins {
    ZERO_PINS.(d := d)
  }

  function LastSample(s: Sys): bv16 {
    if s.samples == [] then 0 else s.samples[|s.samples| - 1]
  }

  /**
   * The atomic step a thread's step stands for: the last store is `Post`; the last load, every private step,
   * an unready sample and a completion are one `Apply` each; all other steps are none.
   */
  function AtomicStep(m: Master, s: Sys, a: Action): Master {
    match a
    case Store => if s.cpu == Storing(7) then Post(m, s.current) else m
    case Load => if s.tick == Loading(6) then Apply(m, ZERO_PINS, true, false).0 else m
    case Advance => Apply(m, ZERO_PINS, true, false).0
    case Sample(ready, d) => if ready then m else Apply(m, DataOnPins(d), true, false).0
    case Complete => Apply(m, DataOnPins(LastSample(s)), false, false).0
    case _ => m
  }

  lemma CpuStepRefines(s: Sys, a: Action)
    requires Invariant(s) && Enabled(s, a) && OfCpu(a)
    ensures Alike(Seen(Do(s, a)), AtomicStep(Seen(s), s, a))
  {
  }

  lemma TakeStepRefines(s: Sys, a: Action)
    requires Invariant(s) && Enabled(s, a) && Taking(a)
    ensures Alike(Seen(Do(s, a)), AtomicStep(Seen(s), s, a))
  {
  }

  lemma AnswerStepRefines(s: Sys, a: Action)
    requires Invariant(s) && Enabled(s, a) && !OfCpu(a) && !Taking(a)
    ensures Alike(Seen(Do(s, a)), AtomicStep(Seen(s), s, a))
  {
  }

  lemma AlikeStays(m: Master, n: Master, s: Sys, a: Action)
    requires Alike(m, n)
    ensures Alike(AtomicStep(m, s, a), AtomicStep(n, s, a))
  {
    hide AddressPins;
  }

  /** The simple protocol, run along an interleaving. */
  function AtomicRun(m: Master, s: Sys, acts: seq<Action>): Master
    requires Possible(s, acts)
    decreases |acts|
  {
    if acts == [] then m else AtomicRun(AtomicStep(m, s, acts[0]), Do(s, acts[0]), acts[1..])
  }

  /** Every interleaving of the two threads looks like a run of the simple protocol, in which nothing interleaves. */
  lemma {:induction false} RunRefines(s: Sys, m: Master, acts: seq<Action>)
    requires Invariant(s) && Possible(s, acts) && Alike(Seen(s), m)
    ensures Alike(Seen(After(s, acts)), AtomicRun(m, s, acts))
    decreases |acts|
  {
    hide Invariant, Do, Enabled, Seen, Alike, AtomicStep;
    if acts != [] {
      var a := acts[0];
      var t := Do(s, a);
      DoKeeps(s, a);
      if a.Enter? || a.Store? || a.Test? || a.SpuriousWake? || a.Relock? {
        CpuStepRefines(s, a);
      } else {
        if Taking(a) { TakeStepRefines(s, a); } else { AnswerStepRefines(s, a); }
      }
      AlikeStays(Seen(s), m, s, a);
      AlikeTransitive(Seen(t), AtomicStep(Seen(s), s, a), AtomicStep(m, s, a));
      RunRefines(t, AtomicStep(m, s, a), acts[1..]);
    }
  }

  lemma AlikeTransitive(l: Master, m: Master, n: Master)
    requires Alike(l, m) && Alike(m, n)
    ensures Alike(l, n)
  {
  }
}
