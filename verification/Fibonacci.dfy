/** The shipped test program, run by the core: for any loop count and any place in memory. */
module Fibonacci {
  import opened Words
  import opened CoreSpec
  import opened Instructions

  function Fib(n: nat): nat {
    if n < 2 then n else Fib(n - 1) + Fib(n - 2)
  }

  const LENGTH := 38
  const LOOP := 0x14
  const EXIT := 0x25

  /** test/fibonacci.asm as assembled, with `n` in place of the nine. */
  function Program(n: u32): (code: seq<u8>)
    ensures |code| == LENGTH
  {
    [0x66, 0x31, 0xdb,
     0x66, 0xb9, n % 0x100, n / 0x100 % 0x100, n / 0x1_0000 % 0x100, n / 0x100_0000,
     0x66, 0x31, 0xd2,
     0x66, 0xb8, 0x01, 0x00, 0x00, 0x00,
     0xeb, 0x00,
     0x66, 0x89, 0xda,
     0x66, 0x89, 0xc3,
     0x66, 0x01, 0xd0,
     0x66, 0x49,
     0x66, 0x83, 0xf9, 0x00,
     0x75, 0xef,
     0xf4]
  }

  /** The program lies at `base`, which is not zero, and does not wrap around. */
  predicate Loaded(mem: Memory, base: u32, n: u32) {
    && 1 <= base <= 0x1_0000_0000 - LENGTH
    && forall i | 0 <= i < LENGTH :: At(mem, base, i) == Program(n)[i]
  }

  function At(mem: Memory, base: u32, i: nat): u8 {
    Byte(mem, base + i)
  }

  // ---------- The program's own instructions ----------

  lemma DoXorSelf(s: Core, r: Reg) returns (t: Core)
    requires 0 < s.eip <= 0xffff_ffff - 3 && Byte(s.mem, s.eip) == 0x66
    requires Byte(s.mem, s.eip + 1) == 0x31 && Byte(s.mem, s.eip + 2) == 0xc0 + 9 * r
    ensures Goes(s, 2, t) && Is(t, s.regs[r := 0], s.eip + 3, s.eflags, s.mem)
  {
    hide Exec, Run, Step, Byte;
    t := Prefixed(s, RmR(XOR));
    ExecXorSelf(Skip(s, 2), r);
  }

  lemma DoMovImmediate(s: Core, r: Reg, v: u32) returns (t: Core)
    requires 0 < s.eip <= 0xffff_ffff - 6 && Byte(s.mem, s.eip) == 0x66 && Byte(s.mem, s.eip + 1) == 0xb8 + r
    requires Byte(s.mem, s.eip + 2) == v % 0x100 && Byte(s.mem, s.eip + 3) == v / 0x100 % 0x100
    requires Byte(s.mem, s.eip + 4) == v / 0x1_0000 % 0x100 && Byte(s.mem, s.eip + 5) == v / 0x100_0000
    ensures Goes(s, 2, t) && Is(t, s.regs[r := v], s.eip + 6, s.eflags, s.mem)
  {
    hide Exec, Run, Step, Byte;
    t := Prefixed(s, MovImm(r));
    ExecMovImmediate(Skip(s, 2), r, v);
  }

  lemma DoJumpOn(s: Core) returns (t: Core)
    requires 0 < s.eip <= 0xffff_ffff - 2 && Byte(s.mem, s.eip) == 0xeb && Byte(s.mem, s.eip + 1) == 0
    ensures Goes(s, 1, t) && Is(t, s.regs, s.eip + 2, s.eflags, s.mem)
  {
    hide Exec, Run, Step, Byte;
    t := Instruction(s, Jmp8);
    ExecJumpOn(Skip(s, 1));
  }

  lemma DoMovRegisters(s: Core, dst: Reg, src: Reg) returns (t: Core)
    requires 0 < s.eip <= 0xffff_ffff - 3 && Byte(s.mem, s.eip) == 0x66
    requires Byte(s.mem, s.eip + 1) == 0x89 && Byte(s.mem, s.eip + 2) == 0xc0 + 8 * src + dst
    ensures Goes(s, 2, t) && Is(t, s.regs[dst := s.regs[src]], s.eip + 3, s.eflags, s.mem)
  {
    hide Exec, Run, Step, Byte;
    t := Prefixed(s, MovRmR);
    ExecMovRegisters(Skip(s, 2), dst, src);
  }

  lemma DoAddRegisters(s: Core, dst: Reg, src: Reg) returns (t: Core)
    requires 0 < s.eip <= 0xffff_ffff - 3 && Byte(s.mem, s.eip) == 0x66
    requires Byte(s.mem, s.eip + 1) == 0x01 && Byte(s.mem, s.eip + 2) == 0xc0 + 8 * src + dst
    ensures Goes(s, 2, t)
    ensures Is(t, s.regs[dst := Plus(s.regs[dst], s.regs[src])], s.eip + 3, s.eflags, s.mem)
  {
    hide Exec, Run, Step, Byte;
    t := Prefixed(s, RmR(ADD));
    ExecAddRegisters(Skip(s, 2), dst, src);
  }

  lemma DoDec(s: Core, r: Reg) returns (t: Core)
    requires 0 < s.eip <= 0xffff_ffff - 2 && Byte(s.mem, s.eip) == 0x66 && Byte(s.mem, s.eip + 1) == 0x48 + r
    ensures Goes(s, 2, t) && Is(t, s.regs[r := Plus(s.regs[r], -1)], s.eip + 2, s.eflags, s.mem)
  {
    hide Run, Step, Byte;
    t := Prefixed(s, Dec(r));
  }

  lemma DoCompareZero(s: Core, r: Reg) returns (t: Core)
    requires 0 < s.eip <= 0xffff_ffff - 4 && Byte(s.mem, s.eip) == 0x66 && Byte(s.mem, s.eip + 1) == 0x83
    requires Byte(s.mem, s.eip + 2) == 0xf8 + r && Byte(s.mem, s.eip + 3) == 0
    ensures Goes(s, 2, t) && Is(t, s.regs, s.eip + 4, SetFlag(s.eflags, s.regs[r] == 0, ZF), s.mem)
  {
    hide Exec, Run, Step, Byte;
    t := Prefixed(s, Group83);
    ExecCompareZero(Skip(s, 2), r);
  }

  lemma DoJneBack(s: Core, zero: bool, e: bv32) returns (t: Core)
    requires 0x10 < s.eip <= 0xffff_ffff - 2 && Byte(s.mem, s.eip) == 0x75 && Byte(s.mem, s.eip + 1) == 0xef
    requires s.eflags == SetFlag(e, zero, ZF)
    ensures Goes(s, 1, t) && Is(t, s.regs, if zero then s.eip + 2 else s.eip - 0xf, s.eflags, s.mem)
  {
    hide Exec, Run, Step, Byte;
    t := Instruction(s, Jne);
    ExecJneBack(Skip(s, 1), zero, e);
  }

  lemma DoHlt(s: Core) returns (t: Core)
    requires 0 < s.eip && Byte(s.mem, s.eip) == 0xf4
    ensures Goes(s, 1, t) && Is(t, s.regs, 0, s.eflags, s.mem)
  {
    hide Run, Step, Byte;
    t := Instruction(s, Hlt);
  }

  // ---------- One pass, all passes, the whole run ----------

  lemma PrologueBytes(m: Memory, base: u32, n: u32)
    requires Loaded(m, base, n)
    ensures At(m, base, 0) == 0x66 && At(m, base, 1) == 0x31 && At(m, base, 2) == 0xdb
    ensures At(m, base, 3) == 0x66 && At(m, base, 4) == 0xb9 && At(m, base, 5) == n % 0x100
    ensures At(m, base, 6) == n / 0x100 % 0x100 && At(m, base, 7) == n / 0x1_0000 % 0x100
    ensures At(m, base, 8) == n / 0x100_0000 && At(m, base, 9) == 0x66
    ensures At(m, base, 10) == 0x31 && At(m, base, 11) == 0xd2 && At(m, base, 12) == 0x66
    ensures At(m, base, 13) == 0xb8 && At(m, base, 14) == 1 && At(m, base, 15) == 0
    ensures At(m, base, 16) == 0 && At(m, base, 17) == 0
    ensures At(m, base, 18) == 0xeb && At(m, base, 19) == 0
  {
    hide At;
  }

  lemma LoopBytes(m: Memory, base: u32, n: u32)
    requires Loaded(m, base, n)
    ensures At(m, base, 0x14) == 0x66 && At(m, base, 0x15) == 0x89 && At(m, base, 0x16) == 0xda
    ensures At(m, base, 0x17) == 0x66 && At(m, base, 0x18) == 0x89 && At(m, base, 0x19) == 0xc3
    ensures At(m, base, 0x1a) == 0x66 && At(m, base, 0x1b) == 0x01 && At(m, base, 0x1c) == 0xd0
    ensures At(m, base, 0x1d) == 0x66 && At(m, base, 0x1e) == 0x49
    ensures At(m, base, 0x1f) == 0x66 && At(m, base, 0x20) == 0x83
    ensures At(m, base, 0x21) == 0xf9 && At(m, base, 0x22) == 0
    ensures At(m, base, 0x23) == 0x75 && At(m, base, 0x24) == 0xef && At(m, base, 0x25) == 0xf4
  {
    hide At;
  }

  /** What one pass of the loop does to the registers. */
  function AfterPass(r: Registers): Registers {
    r[EDX := r[EBX]][EBX := r[EAX]][EAX := Plus(r[EAX], r[EBX])][ECX := Plus(r[ECX], -1)]
  }

  /** One pass of the loop: eleven instructions. */
  lemma Pass(s: Core, base: u32, n: u32) returns (t: Core)
    requires Loaded(s.mem, base, n) && s.eip == base + LOOP
    ensures var c := Plus(s.regs[ECX], -1);
            Is(t, AfterPass(s.regs), base + if c == 0 then EXIT else LOOP, SetFlag(s.eflags, c == 0, ZF), s.mem)
    ensures Goes(s, 11, t)
  {
    hide Run, Byte, Program, SetFlag;
    LoopBytes(s.mem, base, n);
    var s1 := DoMovRegisters(s, EDX, EBX);
    var s2 := DoMovRegisters(s1, EBX, EAX);
    GoesOn(s, 2, s1, 2, s2);
    var s3 := DoAddRegisters(s2, EAX, EDX);
    GoesOn(s, 4, s2, 2, s3);
    var s4 := DoDec(s3, ECX);
    GoesOn(s, 6, s3, 2, s4);
    var s5 := DoCompareZero(s4, ECX);
    GoesOn(s, 8, s4, 2, s5);
    t := DoJneBack(s5, s4.regs[ECX] == 0, s4.eflags);
    GoesOn(s, 10, s5, 1, t);
    assert t.regs == AfterPass(s.regs);
  }

  lemma Prologue(s: Core, base: u32, n: u32) returns (t: Core)
    requires Loaded(s.mem, base, n) && s.eip == base
    ensures Is(t, s.regs[EBX := 0][ECX := n][EDX := 0][EAX := 1], base + LOOP, s.eflags, s.mem)
    ensures Goes(s, 9, t)
  {
    hide Run, Byte, Program;
    PrologueBytes(s.mem, base, n);
    var s1 := DoXorSelf(s, EBX);
    var s2 := DoMovImmediate(s1, ECX, n);
    GoesOn(s, 2, s1, 2, s2);
    var s3 := DoXorSelf(s2, EDX);
    GoesOn(s, 4, s2, 2, s3);
    var s4 := DoMovImmediate(s3, EAX, 1);
    GoesOn(s, 6, s3, 2, s4);
    t := DoJumpOn(s4);
    GoesOn(s, 8, s4, 1, t);
  }

  /** What a 32-bit register keeps of a Fibonacci number. */
  function FibWord(n: nat): u32 {
    Wrap(Fib(n))
  }

  lemma FibWordStep(n: nat)
    ensures FibWord(n + 2) == Plus(FibWord(n + 1), FibWord(n))
  {
    hide Fib;
    assert Fib(n + 2) == Fib(n + 1) + Fib(n) by { FibStep(n); }
  }

  lemma FibStep(n: nat)
    ensures Fib(n + 2) == Fib(n + 1) + Fib(n)
  {
  }

  /** Registers after `i` passes of which at least one has run. */
  function Computed(r: Registers, i: nat): Registers
    requires i > 0
  {
    r[EAX := FibWord(i + 1)][EBX := FibWord(i)][ECX := 0][EDX := FibWord(i - 1)]
  }

  lemma CountDown(left: nat)
    requires 0 < left <= 0x1_0000_0000
    ensures Plus(Wrap(left), -1) == Wrap(left - 1)
    ensures Wrap(left - 1) == 0 <==> left == 1
  {
  }

  function WithZF(e: bv32): (r: bv32)
    ensures GetFlag(r, ZF) == 1
  {
    assert (e | ZF) & ZF != 0;
    e | ZF
  }

  lemma FlagAbsorbed(e: bv32, on: bool)
    ensures WithZF(SetFlag(e, on, ZF)) == WithZF(e)
    ensures SetFlag(e, true, ZF) == WithZF(e)
  {
  }

  lemma PassComputes(r: Registers, i: nat, left: nat)
    requires left > 0 && r[EAX] == FibWord(i + 1) && r[EBX] == FibWord(i)
    ensures AfterPass(r)[EAX] == FibWord(i + 2) && AfterPass(r)[EBX] == FibWord(i + 1)
    ensures AfterPass(r)[ECX] == Plus(r[ECX], -1)
    ensures AfterPass(r)[ECX] == 0 ==> AfterPass(r) == Computed(r, i + 1)
    ensures Computed(AfterPass(r), i + left) == Computed(r, i + left)
  {
    hide FibWord, Plus;
    FibWordStep(i);
  }

  /** `left` more passes, after `i` have run. ecx counts down modulo 2^32, so zero stands for 2^32 passes. */
  lemma {:induction false} Passes(s: Core, base: u32, n: u32, i: nat, left: nat) returns (t: Core)
    requires Loaded(s.mem, base, n) && s.eip == base + LOOP
    requires 0 < left <= 0x1_0000_0000 && s.regs[ECX] == Wrap(left)
    requires s.regs[EAX] == FibWord(i + 1) && s.regs[EBX] == FibWord(i)
    ensures Goes(s, 11 * left, t)
    ensures Is(t, Computed(s.regs, i + left), base + EXIT, WithZF(s.eflags), s.mem)
    decreases left
  {
    hide Run, FibWord, Byte, Program, Loaded, Wrap, Computed, WithZF;
    var u := OnePass(s, base, n, i, left);
    if left == 1 {
      t := u;
    } else {
      t := Passes(u, base, n, i + 1, left - 1);
      GoesOn(s, 11, u, 11 * (left - 1), t);
    }
  }

  lemma OnePass(s: Core, base: u32, n: u32, i: nat, left: nat) returns (u: Core)
    requires Loaded(s.mem, base, n) && s.eip == base + LOOP
    requires 0 < left <= 0x1_0000_0000 && s.regs[ECX] == Wrap(left)
    requires s.regs[EAX] == FibWord(i + 1) && s.regs[EBX] == FibWord(i)
    ensures u.mem == s.mem && WithZF(u.eflags) == WithZF(s.eflags)
    ensures left == 1 ==> Is(u, Computed(s.regs, i + 1), base + EXIT, WithZF(s.eflags), s.mem)
    ensures left > 1 ==> u.eip == base + LOOP && u.regs[ECX] == Wrap(left - 1)
    ensures left > 1 ==> u.regs[EAX] == FibWord(i + 2) && u.regs[EBX] == FibWord(i + 1)
    ensures left > 1 ==> Computed(u.regs, i + left) == Computed(s.regs, i + left)
    ensures Goes(s, 11, u)
  {
    hide Run, FibWord, Byte, Program, Loaded, Plus, Wrap, SetFlag, AfterPass, Computed, WithZF, GetFlag;
    u := Pass(s, base, n);
    CountDown(left);
    FlagAbsorbed(s.eflags, left == 1);
    PassComputes(s.regs, i, left);
  }

  /** How often the loop runs: the count register is decremented before it is tested. */
  function LoopCount(n: u32): nat {
    if n == 0 then 0x1_0000_0000 else n
  }

  /**
   * The whole run, for every count `n`, every place in memory and every starting register file and flags:
   * it stops with eip zero after 9 + 11 N + 1 instructions, N = n or 2^32, with the Fibonacci numbers of
   * N + 1 and N modulo 2^32 in eax and ebx, zero in ecx and ZF set; memory and the other registers keep
   * their values. More fuel changes nothing.
   */
  lemma WholeRun(s: Core, base: u32, n: u32, fuel: nat) returns (f: Core)
    requires Loaded(s.mem, base, n) && s.eip == base && fuel > 10 + 11 * LoopCount(n)
    ensures Run(s, fuel) == Stopped(f) && Goes(s, 10 + 11 * LoopCount(n), f)
    ensures f.regs[EAX] == Fib(LoopCount(n) + 1) % 0x1_0000_0000
    ensures f.regs[EBX] == Fib(LoopCount(n)) % 0x1_0000_0000
    ensures f.regs[ECX] == 0 && f.eip == 0 && GetFlag(f.eflags, ZF) == 1
    ensures f.mem == s.mem && forall r | 4 <= r < 8 :: f.regs[r] == s.regs[r]
  {
    hide Run, Fib, Byte, Program;
    var count := LoopCount(n);
    var t := Prologue(s, base, n);
    FirstFibs();
    var u := Passes(t, base, n, 0, count);
    GoesOn(s, 9, t, 11 * count, u);
    LoopBytes(s.mem, base, n);
    f := DoHlt(u);
    GoesOn(s, 9 + 11 * count, u, 1, f);
    StopsAtZero(f, fuel - (10 + 11 * count));
    RunAppend(s, 10 + 11 * count, fuel - (10 + 11 * count));
  }

  lemma FirstFibs()
    ensures Fib(0) == 0 && Fib(1) == 1
  {
  }

  lemma StopsAtZero(s: Core, n: nat)
    requires s.eip == 0 && n > 0
    ensures Run(s, n) == Stopped(s)
  {
  }

  /** The program as shipped computes the tenth Fibonacci number. */
  lemma ShippedRun(s: Core, base: u32) returns (f: Core)
    requires Loaded(s.mem, base, 9) && s.eip == base
    ensures Run(s, 110) == Stopped(f) && f.regs[EAX] == 55 && f.regs[EBX] == 34
  {
    hide Run, Byte, Program;
    f := WholeRun(s, base, 9, 110);
    assert Fib(9) == 34 && Fib(10) == 55;
  }
}
