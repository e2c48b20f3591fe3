/** The reset debouncer and sequencer: sample register, ring with one zero, lock-delay counter. */
module Debounce {

  const NR_SAMPLES := 10
  const DELAY_CC := 100

  datatype Input = Input(noisy: bool, locked: bool)

  /** Registers, least significant bit first. */
  datatype Regs = Regs(samples: seq<bool>, ring: seq<bool>, cnt: int) {
    predicate WellFormed() {
      |samples| == NR_SAMPLES && |ring| == DELAY_CC
    }
  }

  /** `rst_edge`: the nine newest samples are ones and the tenth is not. */
  predicate Edge(s: Regs)
    requires s.WellFormed()
  {
    (forall i | 0 <= i < NR_SAMPLES - 1 :: s.samples[i]) && !s.samples[NR_SAMPLES - 1]
  }

  /** `clean_async_rst`. */
  predicate AsyncRst(s: Regs)
    requires s.WellFormed()
  {
    s.cnt / 128 % 2 == 1 || s.ring[DELAY_CC - 1]
  }

  /** What the ring contributes to `clean_pll_rst`. */
  predicate RingPllRst(s: Regs)
    requires s.WellFormed()
  {
    !s.ring[DELAY_CC - 2] || !s.ring[DELAY_CC - 3] || !s.ring[DELAY_CC - 4]
  }

  function Rotate(ring: seq<bool>): (r: seq<bool>)
    requires |ring| == DELAY_CC
    ensures |r| == DELAY_CC
  {
    [ring[DELAY_CC - 1]] + ring[..DELAY_CC - 1]
  }

  function Clock(s: Regs, i: Input): (t: Regs)
    requires s.WellFormed()
    ensures t.WellFormed()
  {
    Regs([i.noisy] + s.samples[..NR_SAMPLES - 1],
         if Edge(s) || s.ring[DELAY_CC - 1] then Rotate(s.ring) else s.ring,
         if !i.locked then 228 else if s.cnt / 128 % 2 == 1 then s.cnt - 1 else s.cnt)
  }

  /** The ring with its only zero at position `p`. */
  function OneZero(p: int): (r: seq<bool>)
    ensures |r| == DELAY_CC && forall i | 0 <= i < DELAY_CC :: r[i] <==> i != p
  {
    seq(DELAY_CC, i => i != p)
  }

  /** The sample register has no initial value in the source; it is taken to start at zero. */
  const POWER_UP :=
    Regs([false, false, false, false, false, false, false, false, false, false], OneZero(DELAY_CC - 1), 228)

  class DEBOUNCE_RST {
    var rstSamples: seq<bool>
    var rstDebounceDelayLoop: seq<bool>
    var rstCntDelay: int

    ghost function State(): Regs
      reads this
    {
      Regs(rstSamples, rstDebounceDelayLoop, rstCntDelay)
    }

    constructor ()
      ensures State() == POWER_UP
    {
      rstSamples := POWER_UP.samples;
      rstDebounceDelayLoop := POWER_UP.ring;
      rstCntDelay := POWER_UP.cnt;
    }

    /** All three clocked blocks; every right-hand side reads the values before the edge. */
    method Posedge(noisyRst: bool, pllLocked: bool)
      requires State().WellFormed()
      modifies this
      ensures State() == Clock(old(State()), Input(noisyRst, pllLocked))
    {
      var andN1 := forall i | 0 <= i < NR_SAMPLES - 1 :: rstSamples[i];
      var andN := forall i | 0 <= i < NR_SAMPLES :: rstSamples[i];
      var rstEdge := andN1 && !andN;
      if rstEdge || rstDebounceDelayLoop[DELAY_CC - 1] {
        rstDebounceDelayLoop := Rotate(rstDebounceDelayLoop);
      }
      rstSamples := [noisyRst] + rstSamples[..NR_SAMPLES - 1];
      if !pllLocked {
        rstCntDelay := 228;
      } else if rstCntDelay / 128 % 2 == 1 {
        rstCntDelay := rstCntDelay - 1;
      }
    }
  }

  // ---------- Traces ----------

  /** The registers after a trace of inputs. */
  function After(tr: seq<Input>): (s: Regs)
    ensures s.WellFormed()
  {
    if tr == [] then POWER_UP else Clock(After(tr[..|tr| - 1]), tr[|tr| - 1])
  }

  /** How many of the last inputs are ones. */
  function Ones(tr: seq<Input>): nat {
    if tr == [] || !tr[|tr| - 1].noisy then 0 else 1 + Ones(tr[..|tr| - 1])
  }

  /** For how many clocks the PLL has been locked without a break. */
  function LockedFor(tr: seq<Input>): nat {
    if tr == [] || !tr[|tr| - 1].locked then 0 else 1 + LockedFor(tr[..|tr| - 1])
  }

  /** The input `i` clocks before the last one; before the trace it was zero. */
  predicate Back(tr: seq<Input>, i: nat) {
    i < |tr| && tr[|tr| - 1 - i].noisy
  }

  /** The register holds the newest ten inputs. */
  lemma {:induction false} SamplesAre(tr: seq<Input>, i: nat)
    requires i < NR_SAMPLES
    ensures After(tr).samples[i] == Back(tr, i)
  {
    if tr != [] && i > 0 { SamplesAre(tr[..|tr| - 1], i - 1); }
  }

  lemma {:induction false} OnesAre(tr: seq<Input>, n: nat)
    ensures Ones(tr) >= n <==> forall i: nat | i < n :: Back(tr, i)
  {
    if n > 0 {
      if Back(tr, 0) {
        var rest := tr[..|tr| - 1];
        OnesAre(rest, n - 1);
        forall i: nat ensures Back(rest, i) <==> Back(tr, i + 1) {}
        assert (forall i: nat | i < n - 1 :: Back(rest, i)) <==> (forall i: nat | i < n :: Back(tr, i)) by {
          if forall i: nat | i < n - 1 :: Back(rest, i) {
            forall i: nat | i < n ensures Back(tr, i) { if i > 0 { assert Back(rest, i - 1); } }
          }
        }
      }
    }
  }

  /** The edge detector fires exactly when the run of ones that the trace ends in is nine long. */
  lemma EdgeAtNine(tr: seq<Input>)
    ensures Edge(After(tr)) <==> Ones(tr) == NR_SAMPLES - 1
  {
    forall i | 0 <= i < NR_SAMPLES
      ensures After(tr).samples[i] == Back(tr, i)
    {
      SamplesAre(tr, i);
    }
    OnesAre(tr, NR_SAMPLES - 1);
    OnesAre(tr, NR_SAMPLES);
  }

  /** Over a run of ones that starts at `p`, it fires at the ninth one and at no other point. */
  lemma {:induction false} OncePerRun(tr: seq<Input>, p: nat, q: nat)
    requires p <= q <= |tr| && (p == 0 || !tr[p - 1].noisy) && forall i | p <= i < q :: tr[i].noisy
    ensures Edge(After(tr[..q])) <==> q - p == NR_SAMPLES - 1
  {
    RunLength(tr, p, q);
    EdgeAtNine(tr[..q]);
  }

  lemma {:induction false} RunLength(tr: seq<Input>, p: nat, q: nat)
    requires p <= q <= |tr| && (p == 0 || !tr[p - 1].noisy) && forall i | p <= i < q :: tr[i].noisy
    ensures Ones(tr[..q]) == q - p
    decreases q
  {
    if q > p {
      RunLength(tr, p, q - 1);
      assert tr[..q][..q - 1] == tr[..q - 1];
    }
  }

  // ---------- The ring ----------

  /** Where the ring's zero is: it leaves the last place when the edge fires and then goes once round. */
  function Position(tr: seq<Input>): (p: nat)
    ensures p < DELAY_CC
  {
    if tr == [] then DELAY_CC - 1
    else
      var rest := tr[..|tr| - 1];
      var p := Position(rest);
      if p < DELAY_CC - 1 then p + 1
      else if Ones(rest) == NR_SAMPLES - 1 then 0
      else p
  }

  lemma RotateZero(p: nat)
    requires p < DELAY_CC
    ensures Rotate(OneZero(p)) == OneZero((p + 1) % DELAY_CC)
  {
  }

  /** After every trace the ring holds exactly one zero. */
  lemma {:induction false} RingAlways(tr: seq<Input>)
    ensures After(tr).ring == OneZero(Position(tr))
  {
    if tr != [] {
      var rest := tr[..|tr| - 1];
      RingAlways(rest);
      EdgeAtNine(rest);
      RotateZero(Position(rest));
    }
  }

  /**
   * From the landed state, an edge starts a flight: whatever the inputs, `j` clocks later the zero is at
   * place j - 1, up to the landing after 100 clocks.
   */
  lemma {:induction false} Flight(tr: seq<Input>, more: seq<Input>)
    requires Position(tr) == DELAY_CC - 1 && Ones(tr) == NR_SAMPLES - 1 && 0 < |more| <= DELAY_CC
    ensures Position(tr + more) == |more| - 1
    decreases |more|
  {
    var all := tr + more;
    if |more| > 1 {
      Flight(tr, more[..|more| - 1]);
      assert all[..|all| - 1] == tr + more[..|more| - 1];
    } else {
      assert all[..|all| - 1] == tr;
    }
  }

  /**
   * So the ring keeps reset active for exactly the 99 clocks after the trigger, asks for a PLL reset in
   * exactly the last three of them, and takes no notice of further edges.
   */
  lemma FlightOutputs(tr: seq<Input>, more: seq<Input>)
    requires Position(tr) == DELAY_CC - 1 && Ones(tr) == NR_SAMPLES - 1 && 0 < |more| <= DELAY_CC
    ensures After(tr + more).ring[DELAY_CC - 1] <==> |more| <= 99
    ensures RingPllRst(After(tr + more)) <==> 97 <= |more| <= 99
  {
    Flight(tr, more);
    RingAlways(tr + more);
  }

  // ---------- The counter ----------

  /** The counter stays in 127 to 228 and shows for how long the PLL has been locked. */
  lemma {:induction false} CounterAlways(tr: seq<Input>)
    ensures After(tr).cnt == if LockedFor(tr) < 101 then 228 - LockedFor(tr) else 127
  {
    if tr != [] { CounterAlways(tr[..|tr| - 1]); }
  }

  /** Reset is released exactly when the PLL has been locked for 101 clocks and no flight is under way. */
  lemma ResetExactly(tr: seq<Input>)
    ensures AsyncRst(After(tr)) <==> LockedFor(tr) < 101 || Position(tr) != DELAY_CC - 1
  {
    CounterAlways(tr);
    RingAlways(tr);
  }
}
