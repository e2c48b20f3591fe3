/** What every program keeps: the flags it can ever see, and the fields its decoder can ever hold. */
module CoreRuns {
  import opened Words
  import opened CoreSpec
  import opened Wrappers

  // ---------- Flags ----------

  /** ZF is the only flag that is ever set. */
  predicate OnlyZF(s: Core) {
    s.eflags == 0 || s.eflags == ZF
  }

  lemma SetZF(e: bv32, on: bool)
    requires e == 0 || e == ZF
    ensures SetFlag(e, on, ZF) == if on then ZF else 0
  {
  }

  lemma ExecOnlyZF(s: Core, h: Handler)
    requires OnlyZF(s) && Fetched(s, h)
    ensures OnlyZF(Exec(s, h))
  {
    hide Byte, Word, ReadU32, WriteU32, WriteU8, Result, Operand, Plus;
    SetZF(s.eflags, true);
    SetZF(s.eflags, false);
  }

  /** ModRM fields as the machine starts them or as its decoder splits them. */
  predicate Decoded(s: Core) {
    s.modrm == 64 * s.mod + 8 * s.R + s.M && 0 <= s.mod < 4
  }

  lemma ExecDecoded(s: Core, h: Handler)
    requires Decoded(s) && Fetched(s, h)
    ensures Decoded(Exec(s, h))
  {
    hide Byte, Word, ReadU32, WriteU32, WriteU8, Result, SetFlag, Operand, Plus;
    SplitByte(Byte(s.mem, s.eip));
    assert Decoded(Decode(s));
  }

  lemma SplitByte(b: u8)
    ensures b == 64 * (b / 64) + 8 * ((b / 8) % 8) + b % 8
    ensures b / 64 < 4
  {
    assert b / 64 == b / 8 / 8;
  }

  /** Every state of every program started by `init` has eflags in {0, ZF} and a consistent ModRM split. */
  lemma EveryRun(eip: u32, esp: u32, mem: Memory, n: nat)
    ensures Run(Init(eip, esp, mem), n) != Crashed ==>
      var s := Run(Init(eip, esp, mem), n).core; OnlyZF(s) && Decoded(s)
  {
    RunKeeps(Init(eip, esp, mem), n);
  }

  lemma {:induction false} RunKeeps(s: Core, n: nat)
    requires OnlyZF(s) && Decoded(s)
    ensures Run(s, n) != Crashed ==> OnlyZF(Run(s, n).core) && Decoded(Run(s, n).core)
    decreases n
  {
    if n > 0 && Step(s).Going? {
      StepKeeps(s);
      RunKeeps(Step(s).core, n - 1);
    }
  }

  lemma StepKeeps(s: Core)
    requires OnlyZF(s) && Decoded(s) && Step(s).Going?
    ensures OnlyZF(Step(s).core) && Decoded(Step(s).core)
  {
    hide Exec;
    var t, h := Skip(s, 1), Table(Byte(s.mem, s.eip)).value;
    OpcodeBehind(s);
    ExecOnlyZF(t, h);
    ExecDecoded(t, h);
  }

  // ---------- The carry that is never there ----------

  /** The same operation without its carry. */
  function DropCarry(op: Alu): Alu {
    if op == ADC then ADD else if op == SBB then SUB else op
  }

  /** The core with every ADC replaced by an ADD and every SBB by a SUB, wherever they are decoded. */
  function ExecNoCarry(s: Core, h: Handler): Core
    requires Fetched(s, h)
  {
    match h
    case RmR(op) => ExecRmR(s, DropCarry(op))
    case RRm(op) => ExecRRm(s, DropCarry(op))
    case EaxImm(op) => ExecEaxImm(s, DropCarry(op))
    case Group81 => GroupImmediate(Decode(s), DropCarry(GroupOp(Decode(s).R)), true)
    case Group83 => GroupImmediate(Decode(s), DropCarry(GroupOp(Decode(s).R)), false)
    case _ => Exec(s, h)
  }

  function StepNoCarry(s: Core): Outcome {
    if s.eip == 0 then Stopped(s)
    else
      var opcode, t := Byte(s.mem, s.eip), Skip(s, 1);
      OpcodeBehind(s);
      if opcode == 0 then Stopped(t)
      else match Table(opcode)
        case None => Crashed
        case Some(h) => Going(ExecNoCarry(t, h))
  }

  function RunNoCarry(s: Core, n: nat): Outcome
    decreases n
  {
    if n == 0 then Going(s)
    else match StepNoCarry(s)
      case Going(t) => RunNoCarry(t, n - 1)
      case out => out
  }

  /** Every program, from every start `init` can give, runs the same on the core without a carry. */
  lemma CarryNeverCounts(eip: u32, esp: u32, mem: Memory, n: nat)
    ensures Run(Init(eip, esp, mem), n) == RunNoCarry(Init(eip, esp, mem), n)
  {
    RunsAlike(Init(eip, esp, mem), n);
  }

  lemma {:induction false} RunsAlike(s: Core, n: nat)
    requires OnlyZF(s)
    ensures Run(s, n) == RunNoCarry(s, n)
    decreases n
  {
    hide Exec, ExecNoCarry;
    if n > 0 && s.eip != 0 && Byte(s.mem, s.eip) != 0 && Table(Byte(s.mem, s.eip)).Some? {
      var t, h := Skip(s, 1), Table(Byte(s.mem, s.eip)).value;
      OpcodeBehind(s);
      ExecAlike(t, h);
      ExecOnlyZF(t, h);
      RunsAlike(Exec(t, h), n - 1);
    }
  }

  lemma ExecAlike(s: Core, h: Handler)
    requires OnlyZF(s) && Fetched(s, h)
    ensures Exec(s, h) == ExecNoCarry(s, h)
  {
    hide Result, Operand, ReadU32, Word, WriteU32;
    assert GetFlag(s.eflags, CF) == 0;
    forall op: Alu, x: u32, y: u32 ensures Result(op, x, y, 0) == Result(DropCarry(op), x, y, 0) {
      ResultAlike(op, x, y);
    }
  }

  lemma ResultAlike(op: Alu, x: u32, y: u32)
    ensures Result(op, x, y, 0) == Result(DropCarry(op), x, y, 0)
  {
  }

  // ---------- xchg ----------

  /** The three exclusive-ors swap eax with another register and touch nothing else. */
  lemma XchgSwaps(s: Core)
    requires Fetched(s, Xchg)
    ensures var r := OwnOpcode(s) - 0x90;
            1 <= r <= 7 &&
            ExecXchg(s) == s.(regs := s.regs[EAX := s.regs[r]][r := s.regs[EAX]])
  {
    var r := OwnOpcode(s) - 0x90;
    var a, b := s.regs[EAX], s.regs[r];
    XorSwap(a, b);
    var x := Logic32(Xor, a, b);
    assert ExecXchg(s).regs == s.regs[EAX := x][r := Logic32(Xor, b, x)][EAX := Logic32(Xor, x, Logic32(Xor, b, x))];
    assert ExecXchg(s).regs == s.regs[EAX := b][r := a];
  }

  lemma XorSwap(a: u32, b: u32)
    ensures Logic32(Xor, b, Logic32(Xor, a, b)) == a
    ensures Logic32(Xor, Logic32(Xor, a, b), a) == b
  {
    Pow2Values();
    XorSwapBits(a, b, 32);
  }

  lemma XorSwapBits(a: nat, b: nat, n: nat)
    requires a < Pow2(n) && b < Pow2(n)
    ensures Bits(Xor, b, Bits(Xor, a, b, n), n) == a
    ensures Bits(Xor, Bits(Xor, a, b, n), a, n) == b
  {
    XorCancels(a, b, n);
    XorCancels(b, a, n);
    XorCommutes(a, b, n);
  }

  lemma {:induction false} XorCommutes(a: nat, b: nat, n: nat)
    ensures Bits(Xor, a, b, n) == Bits(Xor, b, a, n)
  {
    if n > 0 { XorCommutes(a / 2, b / 2, n - 1); }
  }

  // ---------- Group FF ----------

  /** Group FF re-enters the table once, at an inc or a dec of the register M names; no other R re-enters it. */
  lemma GroupFFRedispatch(s: Core)
    ensures var d := Decode(s);
            Table(0x40 + d.M) == Some(Inc(d.M)) && Table(0x48 + d.M) == Some(Dec(d.M)) &&
            ExecGroupFF(s) == (if d.R == 0 then Skip(Exec(d, Inc(d.M)), 1)
                               else if d.R == 1 then Skip(Exec(d, Dec(d.M)), 1)
                               else d)
  {
  }
}
