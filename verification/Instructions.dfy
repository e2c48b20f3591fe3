/** Single instructions, fetched and executed: what a run of the core does at a given opcode. */
module Instructions {
  import opened Words
  import opened CoreSpec
  import opened Wrappers

  /** `s` goes to `t` in `n` instructions. */
  predicate Goes(s: Core, n: nat, t: Core) {
    Run(s, n) == Going(t)
  }

  lemma GoesOn(s: Core, m: nat, t: Core, n: nat, u: Core)
    requires Goes(s, m, t) && Goes(t, n, u)
    ensures Goes(s, m + n, u)
  {
    RunAppend(s, m, n);
  }

  // ---------- Fetching ----------

  /** One instruction whose handler is `h`. */
  lemma Instruction(s: Core, h: Handler) returns (t: Core)
    requires s.eip != 0 && Byte(s.mem, s.eip) != 0 && Table(Byte(s.mem, s.eip)) == Some(h) && !h.Xchg?
    ensures Goes(s, 1, t) && t == Exec(Skip(s, 1), h)
  {
    hide Exec;
    t := Exec(Skip(s, 1), h);
    assert Run(s, 1) == match Step(s) case Going(u) => Run(u, 0) case out => out;
  }

  /** A 66 prefix, which is executed as a nop, then an instruction. */
  lemma Prefixed(s: Core, h: Handler) returns (t: Core)
    requires s.eip != 0 && s.eip < 0xffff_ffff
    requires Byte(s.mem, s.eip) == 0x66 && Byte(s.mem, s.eip + 1) != 0
    requires Table(Byte(s.mem, s.eip + 1)) == Some(h) && !h.Xchg?
    ensures Goes(s, 2, t) && t == Exec(Skip(s, 2), h)
  {
    hide Exec, Run, Step, Table, Byte, Plus;
    SkipTwice(s);
    NopIsNop(Skip(s, 1));
    var u := Instruction(s, Nop);
    t := Instruction(u, h);
    GoesOn(s, 1, u, 1, t);
  }

  lemma NopIsNop(s: Core)
    ensures Exec(s, Nop) == s
    ensures Table(0x66) == Some(Nop)
  {
  }

  lemma SkipTwice(s: Core)
    requires s.eip < 0xffff_ffff
    ensures Skip(s, 1).eip == s.eip + 1
    ensures Skip(Skip(s, 1), 1) == Skip(s, 2)
  {
    WrapWrap(s.eip + 1, 1);
  }

  /** Everything of a state except what its ModRM decoder last saw. */
  predicate Is(s: Core, regs: Registers, eip: int, eflags: bv32, mem: Memory) {
    s.regs == regs && s.eip == eip && s.eflags == eflags && s.mem == mem
  }

  // ---------- Executing ----------

  lemma ExecXorSelf(s: Core, r: Reg)
    requires Byte(s.mem, s.eip) == 0xc0 + 9 * r && s.eip < 0xffff_ffff
    ensures Is(Exec(s, RmR(XOR)), s.regs[r := 0], s.eip + 1, s.eflags, s.mem)
  {
    hide Byte;
    var d := Decode(s);
    assert d.mod == 3 && d.R == r && d.M == r;
    hide Decode, IntoRegister;
    XorInto(d, r);
  }

  lemma XorInto(d: Core, r: Reg)
    ensures IntoRegister(d, XOR, r, d.regs[r]) == d.(regs := d.regs[r := 0])
  {
    hide Bits;
    var x, width := d.regs[r], 32;
    XorSelf(x, width);
  }

  lemma ExecAddRegisters(s: Core, dst: Reg, src: Reg)
    requires Byte(s.mem, s.eip) == 0xc0 + 8 * src + dst && s.eip < 0xffff_ffff
    ensures Is(Exec(s, RmR(ADD)), s.regs[dst := Plus(s.regs[dst], s.regs[src])], s.eip + 1, s.eflags, s.mem)
  {
    hide Byte;
    var d := Decode(s);
    assert d.mod == 3 && d.R == src && d.M == dst;
    hide Decode, IntoRegister;
    AddInto(d, dst, d.regs[src]);
  }

  lemma AddInto(d: Core, r: Reg, y: u32)
    ensures IntoRegister(d, ADD, r, y) == d.(regs := d.regs[r := Plus(d.regs[r], y)])
  {
  }

  lemma ExecMovRegisters(s: Core, dst: Reg, src: Reg)
    requires Byte(s.mem, s.eip) == 0xc0 + 8 * src + dst && s.eip < 0xffff_ffff
    ensures Is(Exec(s, MovRmR), s.regs[dst := s.regs[src]], s.eip + 1, s.eflags, s.mem)
  {
    var d := Decode(s);
    assert d.mod == 3 && d.R == src && d.M == dst;
  }

  lemma ExecMovImmediate(s: Core, r: Reg, v: u32)
    requires s.eip + 4 <= 0xffff_ffff
    requires Byte(s.mem, s.eip) == v % 0x100 && Byte(s.mem, s.eip + 1) == v / 0x100 % 0x100
    requires Byte(s.mem, s.eip + 2) == v / 0x1_0000 % 0x100 && Byte(s.mem, s.eip + 3) == v / 0x100_0000
    ensures Is(Exec(s, MovImm(r)), s.regs[r := v], s.eip + 4, s.eflags, s.mem)
  {
    hide Byte, Word;
    WordFromBytes(s.mem, s.eip, v);
    assert Plus(s.eip, 4) == s.eip + 4;
  }

  lemma ExecCompareZero(s: Core, r: Reg)
    requires Byte(s.mem, s.eip) == 0xf8 + r && Byte(s.mem, s.eip + 1) == 0 && s.eip + 2 <= 0xffff_ffff
    ensures Is(Exec(s, Group83), s.regs, s.eip + 2, SetFlag(s.eflags, s.regs[r] == 0, ZF), s.mem)
  {
    hide Byte;
    var d := Decode(s);
    assert d.R == 7 && d.M == r;
    assert Exec(s, Group83) == GroupImmediate(d, CMP, false);
    assert Plus(s.eip, 1) == s.eip + 1;
  }

  lemma ExecJneBack(s: Core, zero: bool, e: bv32)
    requires Byte(s.mem, s.eip) == 0xef && 0x10 <= s.eip < 0xffff_ffff && s.eflags == SetFlag(e, zero, ZF)
    ensures Is(Exec(s, Jne), s.regs, if zero then s.eip + 1 else s.eip - 0x10, s.eflags, s.mem)
  {
    assert GetFlag(s.eflags, ZF) == if zero then 1 else 0;
  }

  lemma ExecJumpOn(s: Core)
    requires Byte(s.mem, s.eip) == 0 && s.eip < 0xffff_ffff
    ensures Exec(s, Jmp8) == s.(eip := s.eip + 1)
  {
    hide Byte;
  }
}
