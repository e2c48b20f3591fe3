/** The button module: one pulse for a press, then a lockout. */
module Button {
  import opened Words

  // ---------- The width function ----------

  /** The number of times a value can be halved before it is zero. */
  function Halvings(v: nat): nat {
    if v == 0 then 0 else 1 + Halvings(v / 2)
  }

  /** `log2`: its loop halves value - 1 until nothing is left. */
  method Log2(n: nat) returns (w: nat)
    requires n >= 1
    ensures w == Halvings(n - 1)
    ensures n >= 2 ==> w > 0 && Pow2(w - 1) < n <= Pow2(w)
  {
    var value := n - 1;
    w := 0;
    while value > 0
      invariant value >= 0
      invariant w + Halvings(value) == Halvings(n - 1)
    {
      value := value / 2;
      w := w + 1;
    }
    if n >= 2 { Bracket(n); }
  }

  /** For n from two on, the width w has 2^(w-1) < n <= 2^w. */
  lemma {:induction false} Bracket(n: nat)
    requires n >= 2
    ensures Halvings(n - 1) > 0 && Pow2(Halvings(n - 1) - 1) < n <= Pow2(Halvings(n - 1))
  {
    if n > 2 {
      var m := (n - 1) / 2 + 1;
      assert m - 1 == (n - 1) / 2;
      Bracket(m);
    } else {
      assert Halvings(1) == 1;
    }
  }

  /** What the counter register holds of the delay. */
  function Limit(n: nat): nat
    requires n >= 2
  {
    n % Pow2(Halvings(n - 1))
  }

  ghost predicate IsPowerOfTwo(n: nat) {
    exists k: nat :: n == Pow2(k)
  }

  /** The delay fits the counter unless it is a power of two, of which nothing is left. */
  lemma LimitFits(n: nat)
    requires n >= 2
    ensures Limit(n) == if IsPowerOfTwo(n) then 0 else n
  {
    var w := Halvings(n - 1);
    Bracket(n);
    if n == Pow2(w) {
      FromQuotient(n, n, 1, 0);
    } else {
      FromQuotient(n, Pow2(w), 0, n);
      if k: nat :| n == Pow2(k) {
        if k < w { Pow2Grows(k, w - 1); } else { Pow2Grows(w, k); }
        assert false;
      }
    }
  }

  lemma {:induction false} Pow2Grows(a: nat, b: nat)
    requires a <= b
    ensures Pow2(a) <= Pow2(b)
    decreases b
  {
    if a < b { Pow2Grows(a, b - 1); }
  }

  // ---------- The module ----------

  datatype State = Idle | Down | Wait

  datatype Regs = Regs(state: State, count: nat, pressed: bool)

  const RESET := Regs(Idle, 0, false)

  /** One clock without reset; `width` is the counter's, `limit` what it holds of the delay. */
  function Next(s: Regs, limit: nat, width: nat, input: bool): Regs {
    match s.state
    case Idle => if input then Regs(Down, s.count, true) else Regs(Idle, s.count, false)
    case Down => Regs(if input then Down else Wait, s.count, false)
    case Wait =>
      if s.count >= limit then Regs(Idle, 0, false)
      else Regs(Wait, (s.count + 1) % Pow2(width), false)
  }

  class BUTTON {
    const delayCycles: nat
    const width: nat
    var state: State
    var count: nat
    var pressed: bool

    ghost function Registers(): Regs
      reads this
    {
      Regs(state, count, pressed)
    }

    constructor (delayCycles: nat)
      requires delayCycles >= 2
      ensures this.delayCycles == delayCycles && width == Halvings(delayCycles - 1) && Registers() == RESET
    {
      var w := Log2(delayCycles);
      this.delayCycles := delayCycles;
      width := w;
      state, count, pressed := Idle, 0, false;
    }

    method Posedge(buttonInput: bool, reset: bool)
      modifies this
      ensures Registers() == if reset then RESET
                             else Next(old(Registers()), delayCycles % Pow2(width), width, buttonInput)
    {
      if reset {
        state, count, pressed := Idle, 0, false;
        return;
      }
      var nextPressed, nextCount, nextState := false, count, Idle;
      match state {
        case Idle =>
          if buttonInput {
            nextState, nextPressed := Down, true;
          }
        case Down =>
          nextState := if buttonInput then Down else Wait;
        case Wait =>
          if count >= delayCycles % Pow2(width) {
            nextState, nextCount := Idle, 0;
          } else {
            nextState, nextCount := Wait, (count + 1) % Pow2(width);
          }
      }
      state, count, pressed := nextState, nextCount, nextPressed;
    }
  }

  // ---------- Traces ----------

  /** The registers of a button with delay `n` after a trace of inputs from reset. */
  function After(n: nat, inputs: seq<bool>): Regs
    requires n >= 2
  {
    if inputs == [] then RESET
    else Next(After(n, inputs[..|inputs| - 1]), Limit(n), Halvings(n - 1), inputs[|inputs| - 1])
  }

  /** `pressed` is up after clock `i`. */
  predicate Pulse(n: nat, inputs: seq<bool>, i: nat)
    requires n >= 2 && i < |inputs|
  {
    After(n, inputs[..i + 1]).pressed
  }

  /** How many clocks must pass before the next pulse can be seen. */
  function Cooling(s: Regs, limit: nat): int {
    match s.state
    case Idle => 1
    case Down => limit + 3
    case Wait => limit - s.count + 2
  }

  lemma {:induction false} CountBounded(n: nat, inputs: seq<bool>)
    requires n >= 2
    ensures var s := After(n, inputs); s.count <= Limit(n) && (s.state != Wait ==> s.count == 0)
    decreases |inputs|
  {
    if inputs != [] {
      CountBounded(n, inputs[..|inputs| - 1]);
      NoWrap(n, After(n, inputs[..|inputs| - 1]).count);
    }
  }

  lemma NoWrap(n: nat, c: nat)
    requires n >= 2 && c <= Limit(n)
    ensures c < Limit(n) ==> (c + 1) % Pow2(Halvings(n - 1)) == c + 1
  {
    var p := Pow2(Halvings(n - 1));
    if c < Limit(n) { FromQuotient(c + 1, p, 0, c + 1); }
  }

  /** After a pulse the machine cools by at most one a clock. */
  lemma {:induction false} CoolsSlowly(n: nat, inputs: seq<bool>, i: nat, j: nat)
    requires n >= 2 && i <= j < |inputs| && Pulse(n, inputs, i)
    ensures Cooling(After(n, inputs[..j + 1]), Limit(n)) >= Limit(n) + 3 - (j - i)
    decreases j
  {
    var before := inputs[..j];
    assert inputs[..j + 1][..j] == before;
    if j > i {
      CoolsSlowly(n, inputs, i, j - 1);
      CountBounded(n, before);
      NoWrap(n, After(n, before).count);
    }
  }

  /** For every trace, two pulses are at least Limit + 3 clocks apart; in particular never on adjacent clocks. */
  lemma PulsesApart(n: nat, inputs: seq<bool>, i: nat, j: nat)
    requires n >= 2 && i < j < |inputs| && Pulse(n, inputs, i) && Pulse(n, inputs, j)
    ensures j - i >= Limit(n) + 3
  {
    CoolsSlowly(n, inputs, i, j - 1);
    assert inputs[..j + 1][..j] == inputs[..j];
  }

  /** The fastest trace: press, release, wait, press. */
  function Fastest(n: nat): (inputs: seq<bool>)
    requires n >= 2
    ensures |inputs| == Limit(n) + 4
  {
    [true] + seq(Limit(n) + 2, _ => false) + [true]
  }

  lemma {:induction false} WaitsOut(n: nat, k: nat)
    requires n >= 2 && k <= Limit(n)
    ensures After(n, Fastest(n)[..k + 2]) == Regs(Wait, k, false)
  {
    var f := Fastest(n);
    assert f[..k + 2][..k + 1] == f[..k + 1];
    if k > 0 {
      WaitsOut(n, k - 1);
      NoWrap(n, k - 1);
    } else {
      assert f[..1][..0] == [];
      assert After(n, f[..1]) == Regs(Down, 0, true);
    }
  }

  /** And that distance is reached. */
  lemma PulsesThatClose(n: nat)
    requires n >= 2
    ensures Pulse(n, Fastest(n), 0) && Pulse(n, Fastest(n), Limit(n) + 3)
  {
    var f, l := Fastest(n), Limit(n);
    assert f[..1][..0] == [];
    WaitsOut(n, l);
    assert f[..l + 3][..l + 2] == f[..l + 2];
    assert f[..l + 4][..l + 3] == f[..l + 3];
  }

  /** No two pulses of any trace are closer than `gap`. */
  ghost predicate KeepsApart(n: nat, gap: nat)
    requires n >= 2
  {
    forall inputs: seq<bool>, i: nat, j: nat |
      i < j < |inputs| && Pulse(n, inputs, i) && Pulse(n, inputs, j) :: j - i >= gap
  }

  /** The lockout lasts as long as the module promises exactly when the delay is not a power of two. */
  lemma LockoutHolds(n: nat)
    requires n >= 2
    ensures KeepsApart(n, n + 3) <==> !IsPowerOfTwo(n)
  {
    LimitFits(n);
    forall inputs: seq<bool>, i: nat, j: nat |
      i < j < |inputs| && Pulse(n, inputs, i) && Pulse(n, inputs, j)
      ensures j - i >= Limit(n) + 3
    {
      PulsesApart(n, inputs, i, j);
    }
    PulsesThatClose(n);
  }

  // ---------- Exactly when a pulse comes ----------

  /** Since clock `p` the button has been released, and the wait after the release has run out, by clock `i`. */
  ghost predicate Recovered(inputs: seq<bool>, limit: nat, p: int, i: int) {
    exists r: nat :: p < r && r + limit + 2 <= i && r < |inputs| && !inputs[r]
  }

  /** The button has been held since the pulse at `p`. */
  ghost predicate Held(n: nat, inputs: seq<bool>, p: nat, i: nat)
    requires n >= 2 && i <= |inputs|
  {
    p < i && Pulse(n, inputs, p) && forall j | p < j < i :: inputs[j]
  }

  /** What the registers before clock `i` say about the trace so far. */
  ghost predicate Tells(n: nat, inputs: seq<bool>, i: nat)
    requires n >= 2 && i <= |inputs|
  {
    var s := After(n, inputs[..i]);
    match s.state
    case Idle => forall p: nat | p < i && Pulse(n, inputs, p) :: Recovered(inputs, Limit(n), p, i)
    case Down => exists p: nat :: Held(n, inputs, p, i)
    case Wait => s.count < i && s.count <= Limit(n)
                 && var r: nat := i - 1 - s.count; !inputs[r] && exists p: nat :: Held(n, inputs, p, r)
  }

  lemma PulseIs(n: nat, inputs: seq<bool>, i: nat)
    requires n >= 2 && i < |inputs|
    ensures After(n, inputs[..i + 1]) == Next(After(n, inputs[..i]), Limit(n), Halvings(n - 1), inputs[i])
    ensures Pulse(n, inputs, i) <==> After(n, inputs[..i]).state == Idle && inputs[i]
  {
    assert inputs[..i + 1][..i] == inputs[..i];
  }

  lemma {:induction false} AlwaysTells(n: nat, inputs: seq<bool>, i: nat)
    requires n >= 2 && i <= |inputs|
    ensures Tells(n, inputs, i)
    decreases i
  {
    if i > 0 {
      AlwaysTells(n, inputs, i - 1);
      PulseIs(n, inputs, i - 1);
      CountBounded(n, inputs[..i - 1]);
      NoWrap(n, After(n, inputs[..i - 1]).count);
      TellsNext(n, inputs, i - 1);
    }
  }

  lemma TellsNext(n: nat, inputs: seq<bool>, i: nat)
    requires n >= 2 && i < |inputs| && Tells(n, inputs, i)
    requires After(n, inputs[..i + 1]) == Next(After(n, inputs[..i]), Limit(n), Halvings(n - 1), inputs[i])
    requires Pulse(n, inputs, i) <==> After(n, inputs[..i]).state == Idle && inputs[i]
    requires var s := After(n, inputs[..i]); s.count < Limit(n) ==> (s.count + 1) % Pow2(Halvings(n - 1)) == s.count + 1
    requires var s := After(n, inputs[..i]); s.state != Wait ==> s.count == 0
    ensures Tells(n, inputs, i + 1)
  {
    hide After, Pulse, Limit;
    var s := After(n, inputs[..i]);
    match s.state
    case Idle =>
      if inputs[i] {
        assert Held(n, inputs, i, i + 1);
      } else {
        forall p: nat | p < i + 1 && Pulse(n, inputs, p) ensures Recovered(inputs, Limit(n), p, i + 1) {
          assert Recovered(inputs, Limit(n), p, i);
        }
      }
    case Down =>
      var p: nat :| Held(n, inputs, p, i);
      if inputs[i] { assert Held(n, inputs, p, i + 1); }
    case Wait =>
      if s.count >= Limit(n) {
        var r := i - 1 - s.count;
        var p: nat :| Held(n, inputs, p, r);
        OnlyLast(n, inputs, p, r, i);
        forall q: nat | q < i + 1 && Pulse(n, inputs, q) ensures Recovered(inputs, Limit(n), q, i + 1) {
          assert q < r;
        }
      }
  }

  /** A pulse finds the machine idle, so none comes while it is held or waits. */
  lemma OnlyLast(n: nat, inputs: seq<bool>, p: nat, r: nat, i: nat)
    requires n >= 2 && r < i < |inputs| && Held(n, inputs, p, r) && !inputs[r]
    requires After(n, inputs[..i]).state == Wait && i - 1 - After(n, inputs[..i]).count == r
    ensures forall q: nat | q < i + 1 && Pulse(n, inputs, q) :: q < r
  {
    forall q: nat | q < i + 1 && Pulse(n, inputs, q) ensures q < r {
      PulseIs(n, inputs, q);
      if q == i { assert false; }
      if r <= q { WaitSince(n, inputs, r, i, q); }
    }
  }

  /** A wait that has counted since `r` was a wait all that time. */
  lemma {:induction false} WaitSince(n: nat, inputs: seq<bool>, r: nat, i: nat, q: nat)
    requires n >= 2 && r < i <= |inputs| && r <= q < i && !inputs[r]
    requires After(n, inputs[..i]).state == Wait && After(n, inputs[..i]).count == i - 1 - r
    ensures !Pulse(n, inputs, q)
    decreases i
  {
    hide Halvings, Pow2, Limit, Pulse;
    PulseIs(n, inputs, i - 1);
    CountBounded(n, inputs[..i - 1]);
    NoWrap(n, After(n, inputs[..i - 1]).count);
    if q < i - 1 { WaitSince(n, inputs, r, i - 1, q); }
  }

  /**
   * For every trace: `pressed` comes up exactly when the input is high and, since every earlier pulse, the
   * button has been released and the wait has then run out. So a button that is held gives one pulse.
   */
  lemma PulseExactly(n: nat, inputs: seq<bool>, i: nat)
    requires n >= 2 && i < |inputs|
    ensures Pulse(n, inputs, i) <==>
      inputs[i] && forall p: nat | p < i && Pulse(n, inputs, p) :: Recovered(inputs, Limit(n), p, i)
  {
    hide After, Pulse, Limit;
    AlwaysTells(n, inputs, i);
    PulseIs(n, inputs, i);
    var s := After(n, inputs[..i]);
    if s.state == Down {
      var p: nat :| Held(n, inputs, p, i);
      assert !Recovered(inputs, Limit(n), p, i);
    } else if s.state == Wait {
      var r := i - 1 - s.count;
      var p: nat :| Held(n, inputs, p, r);
      assert !Recovered(inputs, Limit(n), p, i);
    }
  }

  /** Between two pulses there is a clock with the button up. */
  lemma ReleasedBetween(n: nat, inputs: seq<bool>, i: nat, j: nat)
    requires n >= 2 && i < j < |inputs| && Pulse(n, inputs, i) && Pulse(n, inputs, j)
    ensures exists r: nat :: i < r < j && !inputs[r]
  {
    hide Pulse, Limit;
    PulseExactly(n, inputs, j);
    assert Recovered(inputs, Limit(n), i, j);
  }
}
