/** Programs of stack instructions refine a stack of words, although they write half words and read bytes. */
module Stack {
  import opened Words
  import opened CoreSpec
  import opened Wrappers
  import opened Instructions

  const MODULUS := 0x1_0000_0000
  const MAX_DEPTH := 0x4000_0000

  // ---------- Aligned words ----------

  function Stored(m: Memory, a: u32, b0: u8, b1: u8, b2: u8, b3: u8): Memory {
    m[a := b0][a + 1 := b1][a + 2 := b2][a + 3 := b3]
  }

  lemma StoredBytes(m: Memory, a: u32, b0: u8, b1: u8, b2: u8, b3: u8)
    requires a + 3 < MODULUS
    ensures var n := Stored(m, a, b0, b1, b2, b3);
            && Byte(n, a) == b0 && Byte(n, a + 1) == b1 && Byte(n, a + 2) == b2 && Byte(n, a + 3) == b3
            && forall x: u32 | x < a || a + 4 <= x :: Byte(n, x) == Byte(m, x)
  {
  }

  lemma TwoHalves(m: Memory, a: u32, v: u32)
    requires a % 4 == 0
    ensures a + 3 < MODULUS
    ensures WriteU32(m, a, v) == Stored(m, a, v % 0x100, v / 0x100 % 0x100, v / 0x1_0000 % 0x100, v / 0x100_0000)
  {
    HalvesAreBytes(v);
  }

  /** Storing an aligned word: the word reads back, and no other byte moves. */
  lemma StoreWord(m: Memory, a: u32, v: u32)
    requires a % 4 == 0
    ensures Word(WriteU32(m, a, v), a) == v
    ensures forall x: u32 | x < a || a + 4 <= x :: Byte(WriteU32(m, a, v), x) == Byte(m, x)
  {
    hide Word, WriteU32, Byte, Stored;
    TwoHalves(m, a, v);
    StoredBytes(m, a, v % 0x100, v / 0x100 % 0x100, v / 0x1_0000 % 0x100, v / 0x100_0000);
    WordFromBytes(WriteU32(m, a, v), a, v);
  }

  lemma HalvesAreBytes(v: u32)
    ensures v % 0x1_0000 % 0x100 == v % 0x100
    ensures v % 0x1_0000 / 0x100 == v / 0x100 % 0x100
    ensures v / 0x1_0000 / 0x100 == v / 0x100_0000
  {
    var h, l := v / 0x1_0000, v % 0x1_0000;
    var q, r := l / 0x100, l % 0x100;
    FromQuotient(v, 0x100, 0x100 * h + q, r);
    FromQuotient(0x100 * h + q, 0x100, h, q);
    FromQuotient(v, 0x100_0000, h / 0x100, 0x1_0000 * (h % 0x100) + l);
  }

  /** Equal bytes make equal words. */
  lemma SameWord(m: Memory, n: Memory, a: u32)
    requires a % 4 == 0 && forall x: u32 | a <= x < a + 4 :: Byte(m, x) == Byte(n, x)
    ensures Word(m, a) == Word(n, a)
  {
    assert a + 3 < MODULUS;
    assert ReadU32(m, a) == ReadU32(n, a);
  }

  // ---------- Where the words of a stack lie ----------

  /** The address of the `d`-th word below `base`. */
  function Slot(base: u32, d: nat): u32 {
    Wrap(base - 4 * d)
  }

  /** How far a byte lies below `base`, going round the end of the address space. */
  function Below(base: u32, x: u32): u32 {
    Wrap(base - 1 - x)
  }

  lemma SlotValue(base: u32, d: nat)
    requires base % 4 == 0 && d <= MAX_DEPTH
    ensures Slot(base, d) == if base >= 4 * d then base - 4 * d else base - 4 * d + MODULUS
    ensures Slot(base, d) % 4 == 0
  {
    if base >= 4 * d {
      FromQuotient(base - 4 * d, MODULUS, 0, base - 4 * d);
    } else {
      FromQuotient(base - 4 * d, MODULUS, -1, base - 4 * d + MODULUS);
    }
  }

  lemma BelowValue(base: u32, x: u32)
    ensures Below(base, x) == if base > x then base - 1 - x else base - 1 - x + MODULUS
  {
    if base > x {
      FromQuotient(base - 1 - x, MODULUS, 0, base - 1 - x);
    } else {
      FromQuotient(base - 1 - x, MODULUS, -1, base - 1 - x + MODULUS);
    }
  }

  /** The bytes of the `d`-th word are the four at distances 4(d-1) to 4d-1. */
  lemma SlotBytes(base: u32, d: nat, x: u32)
    requires base % 4 == 0 && 0 < d <= MAX_DEPTH
    ensures Slot(base, d) <= x < Slot(base, d) + 4 <==> 4 * (d - 1) <= Below(base, x) < 4 * d
  {
    SlotValue(base, d);
    BelowValue(base, x);
  }

  /** Only bytes at distances in [from, to) below `base` may differ between `m` and `n`. */
  ghost predicate SameOutside(m: Memory, n: Memory, base: u32, from: int, to: int) {
    forall x: u32 | !(from <= Below(base, x) < to) :: Byte(m, x) == Byte(n, x)
  }

  /** The core's stack, below `base`, holds the words `stack`, the last one on top. */
  ghost predicate Represents(s: Core, base: u32, stack: seq<u32>) {
    && base % 4 == 0
    && |stack| <= MAX_DEPTH
    && s.regs[ESP] == Slot(base, |stack|)
    && forall i | 0 <= i < |stack| :: Word(s.mem, Slot(base, i + 1)) == stack[i]
  }

  // ---------- The abstract machine ----------

  datatype StackOp = PushReg(r: Reg) | PushImm(v: u32) | PopReg(r: Reg)

  /** Registers and a stack of words, nothing else. Its esp is not used: the depth of the stack stands for it. */
  datatype Abs = Abs(regs: Registers, stack: seq<u32>)

  /** Pops need something to pop, pushes room; pops into esp are not stack operations. */
  predicate CanDo(depth: nat, op: StackOp) {
    if op.PopReg? then 0 < depth <= MAX_DEPTH && op.r != ESP else depth < MAX_DEPTH
  }

  /** What a push puts on the stack: `push esp` stores the pointer after it has moved. */
  function Pushed(a: Abs, base: u32, op: StackOp): u32
    requires !op.PopReg?
  {
    if op.PushImm? then op.v
    else if op.r == ESP then Slot(base, |a.stack| + 1)
    else a.regs[op.r]
  }

  function AbsStep(a: Abs, base: u32, op: StackOp): (b: Abs)
    requires CanDo(|a.stack|, op)
    ensures |b.stack| == After(|a.stack|, op)
  {
    if op.PopReg? then Abs(a.regs[op.r := a.stack[|a.stack| - 1]], a.stack[..|a.stack| - 1])
    else a.(stack := a.stack + [Pushed(a, base, op)])
  }

  function After(depth: nat, op: StackOp): nat
    requires CanDo(depth, op)
  {
    if op.PopReg? then depth - 1 else depth + 1
  }

  /** The sequence stays between the empty stack and the full one. */
  predicate Fits(depth: nat, ops: seq<StackOp>)
    decreases |ops|
  {
    ops == [] || (CanDo(depth, ops[0]) && Fits(After(depth, ops[0]), ops[1..]))
  }

  function Deepest(depth: nat, ops: seq<StackOp>): (d: nat)
    requires Fits(depth, ops)
    ensures d >= depth
    decreases |ops|
  {
    if ops == [] then depth else Max(depth, Deepest(After(depth, ops[0]), ops[1..]))
  }

  function Shallowest(depth: nat, ops: seq<StackOp>): (d: nat)
    requires Fits(depth, ops)
    ensures d <= depth
    decreases |ops|
  {
    if ops == [] then depth else Min(depth, Shallowest(After(depth, ops[0]), ops[1..]))
  }

  function Max(a: nat, b: nat): nat { if a < b then b else a }

  function Min(a: nat, b: nat): nat { if a < b then a else b }

  function AbsAll(a: Abs, base: u32, ops: seq<StackOp>): Abs
    requires Fits(|a.stack|, ops)
    decreases |ops|
  {
    if ops == [] then a else AbsAll(AbsStep(a, base, ops[0]), base, ops[1..])
  }

  /** Words below the shallowest point stay, and so does every register that is not popped into. */
  lemma {:induction false} AbsKeeps(a: Abs, base: u32, ops: seq<StackOp>, d: nat)
    requires Fits(|a.stack|, ops) && d <= Shallowest(|a.stack|, ops)
    ensures var b := AbsAll(a, base, ops);
            && d <= |b.stack| && b.stack[..d] == a.stack[..d]
            && forall r: Reg | PopReg(r) !in ops :: b.regs[r] == a.regs[r]
    decreases |ops|
  {
    if ops != [] { AbsKeeps(AbsStep(a, base, ops[0]), base, ops[1..], d); }
  }

  // ---------- One instruction ----------

  /** The core's stack and registers are those of the abstract machine, its esp at the top word. */
  ghost predicate Refines(s: Core, base: u32, a: Abs) {
    Represents(s, base, a.stack) && s.regs == a.regs[ESP := Slot(base, |a.stack|)]
  }

  function HandlerOf(op: StackOp): Handler {
    match op
    case PushReg(r) => Push(r)
    case PushImm(_) => PushImm32
    case PopReg(r) => Pop(r)
  }

  /** The operand of an immediate push is where it is fetched from. */
  predicate Operands(s: Core, op: StackOp) {
    op.PushImm? ==> Word(s.mem, s.eip) == op.v
  }

  lemma PushRefines(s: Core, base: u32, a: Abs, op: StackOp)
    requires Refines(s, base, a) && CanDo(|a.stack|, op) && !op.PopReg? && Operands(s, op)
    ensures Refines(Exec(s, HandlerOf(op)), base, AbsStep(a, base, op))
    ensures SameOutside(s.mem, Exec(s, HandlerOf(op)).mem, base, 4 * |a.stack|, 4 * |a.stack| + 4)
  {
    hide Word, WriteU32, Byte, Slot, Below;
    var t, d := Exec(s, HandlerOf(op)), |a.stack| + 1;
    PushWrites(s, base, a, op);
    var x := Slot(base, d);
    SlotValue(base, d);
    StoreWord(s.mem, x, Pushed(a, base, op));
    forall y: u32 ensures x <= y < x + 4 <==> 4 * (d - 1) <= Below(base, y) < 4 * d {
      SlotBytes(base, d, y);
    }
    LowerWordsStay(s.mem, t.mem, base, a.stack);
  }

  lemma PushWrites(s: Core, base: u32, a: Abs, op: StackOp)
    requires s.regs == a.regs[ESP := Slot(base, |a.stack|)] && !op.PopReg? && Operands(s, op)
    ensures Exec(s, HandlerOf(op)).mem == WriteU32(s.mem, Slot(base, |a.stack| + 1), Pushed(a, base, op))
    ensures Exec(s, HandlerOf(op)).regs == a.regs[ESP := Slot(base, |a.stack| + 1)]
  {
    hide Word, WriteU32, Slot;
    NextSlot(base, |a.stack|);
    var x := Slot(base, |a.stack| + 1);
    assert s.regs[ESP := x] == a.regs[ESP := x];
  }

  lemma NextSlot(base: u32, d: nat)
    ensures Plus(Slot(base, d), -4) == Slot(base, d + 1)
    ensures d > 0 ==> Plus(Slot(base, d), 4) == Slot(base, d - 1)
  {
    WrapWrap(base - 4 * d, -4);
    WrapWrap(base - 4 * d, 4);
  }

  lemma LowerWordsStay(m: Memory, n: Memory, base: u32, stack: seq<u32>)
    requires base % 4 == 0 && |stack| <= MAX_DEPTH && SameOutside(m, n, base, 4 * |stack|, 4 * |stack| + 4)
    requires forall i | 0 <= i < |stack| :: Word(m, Slot(base, i + 1)) == stack[i]
    ensures forall i | 0 <= i < |stack| :: Word(n, Slot(base, i + 1)) == stack[i]
  {
    hide Word, Byte, Slot, Below;
    forall i | 0 <= i < |stack| ensures Word(n, Slot(base, i + 1)) == stack[i] {
      SlotStays(m, n, base, i + 1, 4 * |stack|, 4 * |stack| + 4);
    }
  }

  /** A word whose bytes lie outside the changed range keeps its value. */
  lemma SlotStays(m: Memory, n: Memory, base: u32, d: nat, from: int, to: int)
    requires base % 4 == 0 && 0 < d <= MAX_DEPTH && SameOutside(m, n, base, from, to)
    requires 4 * d <= from || to <= 4 * (d - 1)
    ensures Word(m, Slot(base, d)) == Word(n, Slot(base, d))
  {
    hide Word, Byte, Slot, Below;
    var a := Slot(base, d);
    SlotValue(base, d);
    forall x: u32 | a <= x < a + 4 ensures Byte(m, x) == Byte(n, x) {
      SlotBytes(base, d, x);
    }
    SameWord(m, n, a);
  }

  lemma PopRefines(s: Core, base: u32, a: Abs, op: StackOp)
    requires Refines(s, base, a) && CanDo(|a.stack|, op) && op.PopReg?
    ensures Refines(Exec(s, HandlerOf(op)), base, AbsStep(a, base, op))
    ensures Exec(s, HandlerOf(op)).mem == s.mem
  {
    hide Word, Slot;
    NextSlot(base, |a.stack|);
  }

  lemma StepRefines(s: Core, base: u32, a: Abs, op: StackOp)
    requires Refines(s, base, a) && CanDo(|a.stack|, op) && Operands(s, op)
    ensures var t, b := Exec(s, HandlerOf(op)), AbsStep(a, base, op);
            && Refines(t, base, b)
            && SameOutside(s.mem, t.mem, base, 4 * Min(|a.stack|, |b.stack|), 4 * Max(|a.stack|, |b.stack|))
            && t.eip == Wrap(s.eip + OperandLength(op))
  {
    hide Word, WriteU32, Byte, Refines;
    if op.PopReg? { PopRefines(s, base, a, op); } else { PushRefines(s, base, a, op); }
    LengthOf(s, op);
  }

  lemma LengthOf(s: Core, op: StackOp)
    ensures Exec(s, HandlerOf(op)).eip == Wrap(s.eip + OperandLength(op))
  {
    hide Word, WriteU32;
    WrapWrap(s.eip, 0);
  }

  // ---------- Programs ----------

  function OperandLength(op: StackOp): nat {
    if op.PushImm? then 4 else 0
  }

  /** An operation as it is encoded. */
  function Code(op: StackOp): (c: seq<u8>)
    ensures |c| == 1 + OperandLength(op)
  {
    match op
    case PushReg(r) => [0x50 + r]
    case PopReg(r) => [0x58 + r]
    case PushImm(v) => [0x68, v % 0x100, v / 0x100 % 0x100, v / 0x1_0000 % 0x100, v / 0x100_0000]
  }

  function CodeOf(ops: seq<StackOp>): seq<u8>
    decreases |ops|
  {
    if ops == [] then [] else Code(ops[0]) + CodeOf(ops[1..])
  }

  /** The code lies at `at`, which is not zero, and does not wrap around. */
  predicate Placed(m: Memory, at: int, code: seq<u8>) {
    && 1 <= at && at + |code| <= MODULUS
    && forall i | 0 <= i < |code| :: CodeByte(m, at, i) == code[i]
  }

  function CodeByte(m: Memory, at: int, i: nat): u8 {
    Byte(m, at + i)
  }

  /** No byte of the code lies at a distance in [from, to) below `base`. */
  ghost predicate Apart(base: u32, at: int, length: nat, from: int, to: int) {
    forall x: u32 | at <= x < at + length :: !(from <= Below(base, x) < to)
  }

  lemma CodeStays(m: Memory, n: Memory, base: u32, at: int, code: seq<u8>, from: int, to: int)
    requires Placed(m, at, code) && SameOutside(m, n, base, from, to) && Apart(base, at, |code|, from, to)
    ensures Placed(n, at, code)
  {
    hide Below, Byte;
    forall i | 0 <= i < |code| ensures CodeByte(n, at, i) == code[i] {
      assert CodeByte(m, at, i) == code[i];
      var x: u32 := at + i;
      assert Byte(n, x) == Byte(m, x);
    }
  }

  lemma PlacedParts(m: Memory, at: int, c: seq<u8>, d: seq<u8>)
    requires Placed(m, at, c + d)
    ensures Placed(m, at, c) && (at + |c| < MODULUS || d == []) && Placed(m, at + |c|, d)
  {
    hide Byte;
    forall i | 0 <= i < |c| ensures CodeByte(m, at, i) == c[i] {
      assert CodeByte(m, at, i) == (c + d)[i];
    }
    forall i | 0 <= i < |d| ensures CodeByte(m, at + |c|, i) == d[i] {
      assert CodeByte(m, at, |c| + i) == (c + d)[|c| + i];
    }
  }

  /** One operation, fetched. */
  lemma RunOne(s: Core, base: u32, a: Abs, op: StackOp) returns (t: Core)
    requires Refines(s, base, a) && CanDo(|a.stack|, op) && Placed(s.mem, s.eip, Code(op))
    ensures Goes(s, 1, t) && t.eip == Wrap(s.eip + |Code(op)|)
    ensures Refines(t, base, AbsStep(a, base, op))
    ensures SameOutside(s.mem, t.mem, base, 4 * Min(|a.stack|, After(|a.stack|, op)), 4 * Max(|a.stack|, After(|a.stack|, op)))
  {
    hide Exec, Run, Step, Word, Byte, AbsStep, Refines, Placed, SameOutside, Table, Code, HandlerOf, Operands, After;
    Opcode(s, op);
    var u := Skip(s, 1);
    t := Instruction(s, HandlerOf(op));
    Fetched(s, op);
    SameButEip(s, u, base, a);
    StepRefines(u, base, a, op);
    WrapWrap(s.eip + 1, OperandLength(op));
  }

  lemma SameButEip(s: Core, t: Core, base: u32, a: Abs)
    requires Refines(s, base, a) && t.regs == s.regs && t.mem == s.mem
    ensures Refines(t, base, a)
  {
    hide Word, Slot;
  }

  lemma Opcode(s: Core, op: StackOp)
    requires Placed(s.mem, s.eip, Code(op))
    ensures s.eip != 0 && Byte(s.mem, s.eip) != 0
    ensures Table(Byte(s.mem, s.eip)) == Some(HandlerOf(op)) && !HandlerOf(op).Xchg?
  {
    hide Byte;
    assert CodeByte(s.mem, s.eip, 0) == Code(op)[0];
  }

  lemma Fetched(s: Core, op: StackOp)
    requires Placed(s.mem, s.eip, Code(op))
    ensures Operands(Skip(s, 1), op)
  {
    hide Byte, Word;
    if op.PushImm? {
      var e: u32 := s.eip + 1;
      assert Plus(s.eip, 1) == e;
      assert CodeByte(s.mem, s.eip, 1) == Code(op)[1] && CodeByte(s.mem, s.eip, 2) == Code(op)[2];
      assert CodeByte(s.mem, s.eip, 3) == Code(op)[3] && CodeByte(s.mem, s.eip, 4) == Code(op)[4];
      WordFromBytes(s.mem, e, op.v);
    }
  }

  /**
   * A program of pushes of any register, immediate pushes and pops into any register but esp, anywhere in
   * memory where the stack does not reach it, runs to its end, one instruction an operation. Registers and
   * stack are then those of the abstract machine, esp is at its top word, and only bytes between the
   * shallowest and the deepest point the program reaches may have changed.
   */
  lemma {:induction false} SequenceRefines(s: Core, base: u32, a: Abs, ops: seq<StackOp>) returns (t: Core)
    requires Refines(s, base, a) && Fits(|a.stack|, ops) && Placed(s.mem, s.eip, CodeOf(ops))
    requires Apart(base, s.eip, |CodeOf(ops)|, 4 * Shallowest(|a.stack|, ops), 4 * Deepest(|a.stack|, ops))
    ensures Goes(s, |ops|, t) && t.eip == Wrap(s.eip + |CodeOf(ops)|)
    ensures Refines(t, base, AbsAll(a, base, ops))
    ensures SameOutside(s.mem, t.mem, base, 4 * Shallowest(|a.stack|, ops), 4 * Deepest(|a.stack|, ops))
    decreases |ops|
  {
    hide Refines, SameOutside, Placed, Apart, Run, Code, Pushed;
    var lo, hi := 4 * Shallowest(|a.stack|, ops), 4 * Deepest(|a.stack|, ops);
    if ops == [] {
      t := s;
      NothingRun(s);
      NothingMoves(s.mem, base, lo, hi);
    } else {
      var op, rest := ops[0], ops[1..];
      var b := AbsStep(a, base, op);
      PlacedParts(s.mem, s.eip, Code(op), CodeOf(rest));
      var u := RunOne(s, base, a, op);
      Widen(s.mem, u.mem, base, 4 * Min(|a.stack|, |b.stack|), 4 * Max(|a.stack|, |b.stack|), lo, hi);
      if rest == [] {
        t := u;
      } else {
        RestPlaced(s, u, base, op, rest, lo, hi);
        NarrowApart(base, u.eip, |CodeOf(rest)|, lo, hi, 4 * Shallowest(|b.stack|, rest), 4 * Deepest(|b.stack|, rest));
        t := SequenceRefines(u, base, b, rest);
        GoesOn(s, 1, u, |rest|, t);
        Widen(u.mem, t.mem, base, 4 * Shallowest(|b.stack|, rest), 4 * Deepest(|b.stack|, rest), lo, hi);
        ChangesAdd(s.mem, u.mem, t.mem, base, lo, hi);
      }
    }
  }

  lemma NothingRun(s: Core)
    ensures Goes(s, 0, s) && s.eip == Wrap(s.eip)
  {
  }

  /** The rest of the program is still there after its first operation. */
  lemma RestPlaced(s: Core, u: Core, base: u32, op: StackOp, rest: seq<StackOp>, lo: int, hi: int)
    requires rest != [] && Placed(s.mem, s.eip, Code(op) + CodeOf(rest))
    requires u.eip == Wrap(s.eip + |Code(op)|) && SameOutside(s.mem, u.mem, base, lo, hi)
    requires Apart(base, s.eip, |Code(op) + CodeOf(rest)|, lo, hi)
    ensures u.eip == s.eip + |Code(op)| && Placed(u.mem, u.eip, CodeOf(rest))
    ensures Apart(base, u.eip, |CodeOf(rest)|, lo, hi)
  {
    hide Code, SameOutside, Below, Byte;
    PlacedParts(s.mem, s.eip, Code(op), CodeOf(rest));
    CodeStays(s.mem, u.mem, base, s.eip + |Code(op)|, CodeOf(rest), lo, hi);
  }

  lemma NarrowApart(base: u32, at: int, length: nat, from: int, to: int, f: int, t: int)
    requires Apart(base, at, length, from, to) && from <= f && t <= to
    ensures Apart(base, at, length, f, t)
  {
    hide Below;
  }

  lemma NothingMoves(m: Memory, base: u32, from: int, to: int)
    ensures SameOutside(m, m, base, from, to)
  {
  }

  lemma Widen(m: Memory, n: Memory, base: u32, f: int, t: int, from: int, to: int)
    requires SameOutside(m, n, base, f, t) && from <= f && t <= to
    ensures SameOutside(m, n, base, from, to)
  {
  }

  lemma ChangesAdd(m: Memory, n: Memory, p: Memory, base: u32, from: int, to: int)
    requires SameOutside(m, n, base, from, to) && SameOutside(n, p, base, from, to)
    ensures SameOutside(m, p, base, from, to)
  {
  }

  /** What is pushed last is popped first, whatever aligned pointer the stack starts from. */
  lemma PushThenPop(s: Core, r: Reg)
    requires s.regs[ESP] % 4 == 0
    ensures Exec(Exec(s, Push(r)), Pop(r)).regs == s.regs
  {
    hide Word, WriteU32, Byte, Exec, Slot, Plus;
    var t := Exec(s, Push(r));
    PushDoes(s, r);
    PopDoes(t, r);
    StoreWord(s.mem, t.regs[ESP], t.regs[r]);
    UpAgain(s.regs[ESP]);
    assert t.regs[r := t.regs[r]] == t.regs;
  }

  lemma PushDoes(s: Core, r: Reg)
    requires s.regs[ESP] % 4 == 0
    ensures var t := Exec(s, Push(r));
            && t.regs == s.regs[ESP := Plus(s.regs[ESP], -4)] && t.regs[ESP] % 4 == 0
            && t.mem == WriteU32(s.mem, t.regs[ESP], t.regs[r])
  {
    hide Word, WriteU32;
    SlotValue(s.regs[ESP], 1);
  }

  lemma PopDoes(s: Core, r: Reg)
    ensures var regs := s.regs[r := Word(s.mem, s.regs[ESP])];
            Exec(s, Pop(r)).regs == regs[ESP := Plus(regs[ESP], 4)]
  {
    hide Word;
  }

  lemma UpAgain(esp: u32)
    ensures Plus(Plus(esp, -4), 4) == esp
  {
    PlusPlus(esp, -4, 4);
  }

  // ---------- Frames ----------

  /** `push ebp; mov ebp, esp` as encoded. */
  const ENTER: seq<u8> := [0x55, 0x89, 0xe5]
  const LEAVE: seq<u8> := [0xc9]

  lemma EnterFrame(s: Core) returns (t: Core)
    requires s.regs[ESP] % 4 == 0 && Placed(s.mem, s.eip, ENTER) && Apart(s.regs[ESP], s.eip, |ENTER|, 0, 4)
    ensures Goes(s, 2, t) && t.eip == Wrap(s.eip + 3)
    ensures Refines(t, s.regs[ESP], Abs(s.regs[EBP := Slot(s.regs[ESP], 1)], [s.regs[EBP]]))
    ensures SameOutside(s.mem, t.mem, s.regs[ESP], 0, 4)
  {
    hide Run, Word, Byte, Exec, Slot, SameOutside, Refines, Below;
    var base, a := s.regs[ESP], Abs(s.regs, []);
    var op := PushReg(EBP);
    assert ENTER == Code(op) + [0x89, 0xe5];
    PlacedParts(s.mem, s.eip, Code(op), [0x89, 0xe5]);
    EmptyStack(s);
    var u := RunOne(s, base, a, op);
    CodeStays(s.mem, u.mem, base, s.eip, ENTER, 0, 4);
    PlacedParts(u.mem, s.eip, Code(op), [0x89, 0xe5]);
    assert u.eip == s.eip + 1;
    t := MovEbpEsp(u);
    GoesOn(s, 1, u, 1, t);
    MovRefines(u, t, base, AbsStep(a, base, op));
    assert AbsStep(a, base, op) == Abs(s.regs, [s.regs[EBP]]);
  }

  lemma EmptyStack(s: Core)
    requires s.regs[ESP] % 4 == 0
    ensures Refines(s, s.regs[ESP], Abs(s.regs, []))
  {
    SlotAtZero(s.regs[ESP]);
  }

  lemma MovEbpEsp(s: Core) returns (t: Core)
    requires Placed(s.mem, s.eip, [0x89, 0xe5])
    ensures Goes(s, 1, t) && t.regs == s.regs[EBP := s.regs[ESP]] && t.eip == Wrap(s.eip + 2) && t.mem == s.mem
  {
    hide Run, Byte, Exec, Step;
    assert CodeByte(s.mem, s.eip, 0) == 0x89 && CodeByte(s.mem, s.eip, 1) == 0xe5;
    t := Instruction(s, MovRmR);
    assert Plus(s.eip, 1) == s.eip + 1;
    ExecMovModrm(Skip(s, 1));
    WrapWrap(s.eip + 1, 1);
  }

  lemma ExecMovModrm(s: Core)
    requires Byte(s.mem, s.eip) == 0xe5
    ensures var t := Exec(s, MovRmR);
            t.regs == s.regs[EBP := s.regs[ESP]] && t.mem == s.mem && t.eip == Plus(s.eip, 1)
  {
    var d := Decode(s);
    assert d.mod == 3 && d.R == ESP && d.M == EBP;
  }

  lemma MovRefines(s: Core, t: Core, base: u32, a: Abs)
    requires Refines(s, base, a) && t.regs == s.regs[EBP := s.regs[ESP]] && t.mem == s.mem
    ensures Refines(t, base, Abs(a.regs[EBP := Slot(base, |a.stack|)], a.stack))
  {
    hide Word, Slot;
  }

  /** `leave` undoes a frame as long as ebp is kept, and restores ebp exactly when the saved word is kept. */
  lemma LeaveRestores(s: Core, body: Core)
    requires s.regs[ESP] % 4 == 0 && body.regs[EBP] == Slot(s.regs[ESP], 1)
    ensures var t := Exec(body, Leave);
            && t.regs[ESP] == s.regs[ESP]
            && (t.regs[EBP] == s.regs[EBP] <==> Word(body.mem, Slot(s.regs[ESP], 1)) == s.regs[EBP])
            && t.mem == body.mem && t.eip == body.eip
            && forall r: Reg | r != ESP && r != EBP :: t.regs[r] == body.regs[r]
  {
    hide Word, Exec;
    var esp: int := s.regs[ESP];
    WrapWrap(esp - 4, 4);
    LeaveState(body);
  }

  lemma LeaveState(s: Core)
    ensures Exec(s, Leave).regs == s.regs[EBP := Word(s.mem, s.regs[EBP])][ESP := Plus(s.regs[EBP], 4)]
    ensures Exec(s, Leave).mem == s.mem && Exec(s, Leave).eip == s.eip
  {
    hide Word;
  }

  lemma SlotAtZero(base: u32)
    ensures Slot(base, 0) == base
  {
  }

  /**
   * A whole function with a frame: entry, a body of stack operations that keeps to its own words and does not
   * pop into ebp, and `leave`, run from its code. esp and ebp are as before, and every other register is what
   * the body makes of it on the abstract machine.
   */
  lemma BalancedFrame(s: Core, ops: seq<StackOp>) returns (t: Core)
    requires s.regs[ESP] % 4 == 0 && Fits(1, ops) && Shallowest(1, ops) >= 1 && PopReg(EBP) !in ops
    requires Placed(s.mem, s.eip, ENTER + CodeOf(ops) + LEAVE)
    requires Apart(s.regs[ESP], s.eip, |ENTER + CodeOf(ops) + LEAVE|, 0, 4 * Deepest(1, ops))
    ensures Goes(s, 2 + |ops| + 1, t) && t.eip == Wrap(s.eip + |ENTER + CodeOf(ops) + LEAVE|)
    ensures t.regs[ESP] == s.regs[ESP] && t.regs[EBP] == s.regs[EBP]
    ensures var body := AbsAll(Abs(s.regs[EBP := Slot(s.regs[ESP], 1)], [s.regs[EBP]]), s.regs[ESP], ops);
            forall r: Reg | r != ESP && r != EBP :: t.regs[r] == body.regs[r]
    ensures SameOutside(s.mem, t.mem, s.regs[ESP], 0, 4 * Deepest(1, ops))
  {
    hide Run, Word, Byte, Exec, Slot, SameOutside, Refines, Below, Placed, Apart, CodeOf, Shallowest, Deepest, Fits;
    var base, code, top := s.regs[ESP], CodeOf(ops), 4 * Deepest(1, ops);
    var a := Abs(s.regs[EBP := Slot(base, 1)], [s.regs[EBP]]);
    var u, v := EnterAndBody(s, ops);
    AbsKeeps(a, base, ops, 1);
    var b := AbsAll(a, base, ops);
    assert b.regs[EBP] == Slot(base, 1);
    assert b.stack[0] == b.stack[..1][0] == s.regs[EBP];
    BottomWord(v, base, b);
    t := DoLeave(v);
    LeaveRestores(s, Skip(v, 1));
    GoesOn(s, 2 + |ops|, v, 1, t);
    WrapWrap(s.eip + 3 + |code|, 1);
  }

  /** Up to the `leave`, which is still there. */
  lemma EnterAndBody(s: Core, ops: seq<StackOp>) returns (u: Core, v: Core)
    requires s.regs[ESP] % 4 == 0 && Fits(1, ops)
    requires Placed(s.mem, s.eip, ENTER + CodeOf(ops) + LEAVE)
    requires Apart(s.regs[ESP], s.eip, |ENTER + CodeOf(ops) + LEAVE|, 0, 4 * Deepest(1, ops))
    ensures Goes(s, 2 + |ops|, v) && v.eip == Wrap(s.eip + 3 + |CodeOf(ops)|) && Placed(v.mem, v.eip, LEAVE)
    ensures Refines(v, s.regs[ESP], AbsAll(Abs(s.regs[EBP := Slot(s.regs[ESP], 1)], [s.regs[EBP]]), s.regs[ESP], ops))
    ensures SameOutside(s.mem, v.mem, s.regs[ESP], 0, 4 * Deepest(1, ops))
  {
    hide Run, Word, Byte, Exec, Slot, SameOutside, Refines, Below, Placed, Apart, CodeOf, Shallowest, Deepest, Fits, AbsAll;
    var base, code, top := s.regs[ESP], CodeOf(ops), 4 * Deepest(1, ops);
    var a := Abs(s.regs[EBP := Slot(base, 1)], [s.regs[EBP]]);
    assert ENTER + code + LEAVE == ENTER + (code + LEAVE);
    Parts(s.mem, base, s.eip, ENTER, code + LEAVE, 0, top);
    NarrowApart(base, s.eip, 3, 0, top, 0, 4);
    u := EnterFrame(s);
    Widen(s.mem, u.mem, base, 0, 4, 0, top);
    InRange(s.mem, s.eip, ENTER, code + LEAVE);
    CodeStays(s.mem, u.mem, base, s.eip + 3, code + LEAVE, 0, top);
    Parts(u.mem, base, u.eip, code, LEAVE, 0, top);
    NarrowApart(base, u.eip, |code|, 0, top, 4 * Shallowest(1, ops), top);
    v := SequenceRefines(u, base, a, ops);
    Widen(u.mem, v.mem, base, 4 * Shallowest(1, ops), top, 0, top);
    InRange(u.mem, u.eip, code, LEAVE);
    CodeStays(u.mem, v.mem, base, u.eip + |code|, LEAVE, 0, top);
    GoesOn(s, 2, u, |ops|, v);
    ChangesAdd(s.mem, u.mem, v.mem, base, 0, top);
  }

  lemma Parts(m: Memory, base: u32, at: int, c: seq<u8>, d: seq<u8>, from: int, to: int)
    requires Placed(m, at, c + d) && Apart(base, at, |c + d|, from, to)
    ensures Placed(m, at, c) && Placed(m, at + |c|, d)
    ensures Apart(base, at, |c|, from, to) && Apart(base, at + |c|, |d|, from, to)
  {
    hide Below, Byte;
    PlacedParts(m, at, c, d);
  }

  lemma InRange(m: Memory, at: int, c: seq<u8>, d: seq<u8>)
    requires Placed(m, at, c + d) && d != []
    ensures Wrap(at + |c|) == at + |c|
  {
    hide Byte;
  }

  lemma BottomWord(s: Core, base: u32, a: Abs)
    requires Refines(s, base, a) && |a.stack| > 0
    ensures Word(s.mem, Slot(base, 1)) == a.stack[0]
    ensures forall r: Reg | r != ESP :: s.regs[r] == a.regs[r]
  {
    hide Word, Slot;
  }

  lemma DoLeave(s: Core) returns (t: Core)
    requires Placed(s.mem, s.eip, LEAVE)
    ensures Goes(s, 1, t) && t == Exec(Skip(s, 1), Leave)
  {
    hide Run, Byte, Exec, Step;
    assert CodeByte(s.mem, s.eip, 0) == 0xc9;
    t := Instruction(s, Leave);
  }
}
