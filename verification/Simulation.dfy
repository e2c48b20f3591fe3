/** The core and the ticking machine together: the test program, every byte of it fetched over the bus. */
module Simulation {
  import opened Words
  import opened Wrappers
  import opened CoreSpec
  import opened Instructions
  import opened CpuCore
  import opened Fibonacci
  import opened RomPrograms
  import BusMaster
  import TestBench
  import BusReads
  import CpuBus
  import MemSim

  // ---------- Instructions that read nothing but their own bytes ----------

  /** How many bytes an instruction is, opcode included; zero for those that may read or write elsewhere. */
  function Length(h: Handler): nat {
    match h
    case RmR(_) => 2
    case MovRmR => 2
    case MovImm(_) => 5
    case Jne => 2
    case Jmp8 => 2
    case Group83 => 3
    case Inc(_) => 1
    case Dec(_) => 1
    case Nop => 1
    case Hlt => 1
    case _ => 0
  }

  /** The instruction at eip is one of them; a ModRM byte must name two registers. */
  predicate CodeOnly(m: Memory, eip: u32) {
    && eip != 0 && Byte(m, eip) != 0 && Table(Byte(m, eip)).Some?
    && var h := Table(Byte(m, eip)).value;
       Length(h) > 0 && (h.RmR? || h.MovRmR? ==> Byte(m, eip + 1) >= 0xc0)
  }

  function LengthAt(m: Memory, eip: u32): nat
    requires CodeOnly(m, eip)
  {
    Length(Table(Byte(m, eip)).value)
  }

  /** Two memories agree on the instruction at eip. */
  predicate SameCode(m: Memory, n: Memory, eip: u32, length: nat) {
    forall i | 0 <= i < length :: CodeByte(m, eip, i) == CodeByte(n, eip, i)
  }

  function CodeByte(m: Memory, eip: u32, i: nat): u8 {
    Byte(m, eip + i)
  }

  /** Such an instruction does the same in every memory that agrees with this one on its bytes. */
  lemma StepIsLocal(s: Core, m: Memory)
    requires CodeOnly(s.mem, s.eip) && SameCode(s.mem, m, s.eip, LengthAt(s.mem, s.eip))
    ensures Step(s).Going? && Step(s).core.mem == s.mem
    ensures Step(s.(mem := m)) == Going(Step(s).core.(mem := m))
  {
    hide Exec, Byte;
    var h := Table(Byte(s.mem, s.eip)).value;
    assert CodeByte(m, s.eip, 0) == CodeByte(s.mem, s.eip, 0);
    if Length(h) > 1 { assert CodeByte(m, s.eip, 1) == CodeByte(s.mem, s.eip, 1); }
    if Length(h) > 2 { assert CodeByte(m, s.eip, 2) == CodeByte(s.mem, s.eip, 2); }
    if Length(h) > 3 {
      assert CodeByte(m, s.eip, 3) == CodeByte(s.mem, s.eip, 3) && CodeByte(m, s.eip, 4) == CodeByte(s.mem, s.eip, 4);
    }
    SkippedBytes(s.mem, s.eip);
    SkippedBytes(m, s.eip);
    OpcodeBehind(s);
    OpcodeBehind(s.(mem := m));
    ExecIsLocal(Skip(s, 1), h, m);
  }

  lemma SkippedBytes(m: Memory, eip: u32)
    ensures Byte(m, Plus(eip, 1) + 0) == CodeByte(m, eip, 1) && Byte(m, Plus(eip, 1) + 1) == CodeByte(m, eip, 2)
    ensures Byte(m, Plus(eip, 1) + 2) == CodeByte(m, eip, 3) && Byte(m, Plus(eip, 1) + 3) == CodeByte(m, eip, 4)
  {
    WrapWrap(eip + 1, 0);
    WrapWrap(eip + 1, 1);
    WrapWrap(eip + 1, 2);
    WrapWrap(eip + 1, 3);
  }

  lemma ExecIsLocal(s: Core, h: Handler, m: Memory)
    requires Length(h) > 0
    requires Length(h) > 1 ==> Byte(m, s.eip + 0) == Byte(s.mem, s.eip + 0)
    requires Length(h) > 2 ==> Byte(m, s.eip + 1) == Byte(s.mem, s.eip + 1)
    requires Length(h) > 3 ==> Byte(m, s.eip + 2) == Byte(s.mem, s.eip + 2) && Byte(m, s.eip + 3) == Byte(s.mem, s.eip + 3)
    requires h.RmR? || h.MovRmR? ==> Byte(s.mem, s.eip) >= 0xc0
    ensures Exec(s, h).mem == s.mem && Exec(s.(mem := m), h) == Exec(s, h).(mem := m)
  {
    hide Byte, Result, SetFlag, SwapEndian32, ReadU32, WriteU32;
    if h.MovImm? { assert ReadU32(m, s.eip) == ReadU32(s.mem, s.eip) by { SameReadU32(m, s.mem, s.eip); } }
    if h.Group83? { assert Byte(m, Plus(s.eip, 1)) == Byte(s.mem, Plus(s.eip, 1)) by { SecondByte(m, s.eip); SecondByte(s.mem, s.eip); } }
  }

  lemma SecondByte(m: Memory, eip: u32)
    ensures Byte(m, Plus(eip, 1)) == Byte(m, eip + 1)
  {
    WrapWrap(eip + 1, 0);
  }

  lemma SameReadU32(m: Memory, n: Memory, a: u32)
    requires Byte(m, a) == Byte(n, a) && Byte(m, a + 1) == Byte(n, a + 1)
    requires Byte(m, a + 2) == Byte(n, a + 2) && Byte(m, a + 3) == Byte(n, a + 3)
    ensures ReadU32(m, a) == ReadU32(n, a)
  {
    hide Byte;
  }

  // ---------- One instruction over the bus ----------

  /** Everything that has come over the bus is what the memory map holds. */
  predicate Delivered(got: Memory, view: Memory) {
    forall a: u32 | a in got :: got[a] == Byte(view, a)
  }

  /** The address of the i-th read after the opcode: `read_uint32` starts with the last byte. */
  function ReadAt(h: Handler, eip: u32, i: nat): u32 {
    Plus(eip, if h.MovImm? then Length(h) - i else i)
  }

  lemma AllDelivered(got: Memory, view: Memory, eip: u32, h: Handler)
    requires Delivered(got, view) && eip in got && forall i | 1 <= i < Length(h) :: ReadAt(h, eip, i) in got
    ensures SameCode(view, got, eip, Length(h))
  {
    hide Plus;
    forall i | 0 <= i < Length(h) ensures CodeByte(view, eip, i) == CodeByte(got, eip, i) {
      if i > 0 { assert ReadAt(h, eip, if h.MovImm? then Length(h) - i else i) == Plus(eip, i); }
      DeliveredAt(got, view, eip, i);
    }
  }

  lemma DeliveredAt(got: Memory, view: Memory, eip: u32, i: nat)
    requires Delivered(got, view) && (if i == 0 then eip else Plus(eip, i)) in got
    ensures CodeByte(view, eip, i) == CodeByte(got, eip, i)
  {
    var a: u32 := Plus(eip, i);
    assert a in got && got[a] == Byte(view, a);
    WrapWrap(eip + i, 0);
  }

  /** The bytes of the instruction lie outside RAM. */
  predicate CodeMapped(eip: u32, length: nat) {
    forall i | 0 <= i < length :: MappedAt(eip, i)
  }

  predicate MappedAt(eip: u32, i: nat) {
    CpuBus.Mapped(eip + i)
  }

  /** Fetches one instruction byte by byte over the bus, five ticks a byte. */
  method FetchInstruction(tb: TestBench.TESTBENCH, eip: u32, ghost image: seq<bv32>) returns (got: Memory)
    requires tb.Valid() && BusReads.Quiet(tb.State(), image)
    requires |image| == TestBench.ROM_WORDS && CodeOnly(RomView(image), eip)
    requires CodeMapped(eip, LengthAt(RomView(image), eip))
    modifies tb, tb.Repr()
    ensures tb.Valid() && BusReads.Quiet(tb.State(), image)
    ensures SameCode(RomView(image), got, eip, LengthAt(RomView(image), eip))
    ensures tb.tickcount == old(tb.tickcount) + 5 * LengthAt(RomView(image), eip)
  {
    hide BusReads.Quiet, RomView, Byte, CpuBus.Mapped, Plus, Delivered, Table;
    ghost var view := RomView(image);
    assert MappedAt(eip, 0);
    var v := FetchByte(tb, eip, 0, image);
    var h := Table(v).value;
    got := map[eip := v];
    FirstDelivered(got, view, eip);
    var i := 1;
    while i < Length(h)
      invariant 1 <= i <= Length(h) && v == Byte(view, eip)
      invariant tb.Valid() && BusReads.Quiet(tb.State(), image) && tb.tickcount == old(tb.tickcount) + 5 * i
      invariant Delivered(got, view) && eip in got && forall j | 1 <= j < i :: ReadAt(h, eip, j) in got
    {
      var k := if h.MovImm? then Length(h) - i else i;
      assert MappedAt(eip, k);
      var w := FetchByte(tb, eip, k, image);
      MoreDelivered(got, view, ReadAt(h, eip, i), w);
      got := got[ReadAt(h, eip, i) := w];
      i := i + 1;
    }
    AllDelivered(got, view, eip, h);
  }

  lemma FirstDelivered(got: Memory, view: Memory, a: u32)
    requires got == map[a := Byte(view, a)]
    ensures Delivered(got, view)
  {
  }

  lemma MoreDelivered(got: Memory, view: Memory, a: u32, v: u8)
    requires Delivered(got, view) && v == Byte(view, a)
    ensures Delivered(got[a := v], view)
  {
    hide Byte;
  }

  /**
   * Fetches one instruction over the bus and lets the core execute it on the bytes that came, and on nothing
   * else. The core does what it does in the memory map.
   */
  method FetchAndExecute(tb: TestBench.TESTBENCH, cpu: CPUCORE, ghost image: seq<bv32>)
    requires tb.Valid() && BusReads.Quiet(tb.State(), image) && cpu.Valid()
    requires {cpu, cpu.registers} !! tb.Repr() + {tb}
    requires |image| == TestBench.ROM_WORDS && CodeOnly(RomView(image), cpu.eip)
    requires CodeMapped(cpu.eip, LengthAt(RomView(image), cpu.eip))
    modifies tb, tb.Repr(), cpu, cpu.registers
    ensures tb.Valid() && BusReads.Quiet(tb.State(), image) && cpu.Valid()
    ensures Step(old(cpu.State()).(mem := RomView(image))) == Going(cpu.State().(mem := RomView(image)))
    ensures tb.tickcount == old(tb.tickcount) + 5 * LengthAt(RomView(image), old(cpu.eip))
  {
    hide BusReads.Quiet, RomView, Step, Byte, CoreSpec.Run, SameCode, CodeOnly, CodeMapped;
    ghost var s := cpu.State();
    var got := FetchInstruction(tb, cpu.eip, image);
    StepIsLocal(s.(mem := RomView(image)), got);
    RunOnce(s.(mem := got));
    cpu.memory := got;
    var more, crashed := cpu.Run(1);
  }

  /** The byte at eip + k. */
  method FetchByte(tb: TestBench.TESTBENCH, eip: u32, k: nat, ghost image: seq<bv32>) returns (v: u8)
    requires tb.Valid() && BusReads.Quiet(tb.State(), image) && |image| == TestBench.ROM_WORDS
    requires CpuBus.Mapped(eip + k)
    modifies tb, tb.Repr()
    ensures tb.Valid() && BusReads.Quiet(tb.State(), image) && tb.tickcount == old(tb.tickcount) + 5
    ensures v == Byte(RomView(image), eip + k) == Byte(RomView(image), Plus(eip, k))
  {
    hide BusReads.Quiet, BusReads.SameRam, RomView, CpuBus.Mapped, CpuBus.MapByte, TestBench.RunBench, TestBench.PostBench;
    ViewByte(image, eip + k);
    WrapWrap(eip + k, 0);
    var b := CpuBus.ReadUint8(tb, Plus(eip, k), image);
    v := b as u8;
  }

  lemma RunOnce(s: Core)
    requires Step(s).Going?
    ensures CoreSpec.Run(s, 1) == Step(s)
  {
    hide Step;
    assert CoreSpec.Run(s, 1) == match Step(s) case Going(u) => CoreSpec.Run(u, 0) case out => out;
  }

  // ---------- The test program, instruction by instruction ----------

  /** The offsets at which an instruction of the program starts, prefixes counted as instructions. */
  predicate Boundary(off: int) {
    || off == 0 || off == 1 || off == 3 || off == 4 || off == 9 || off == 10 || off == 12 || off == 13 || off == 18
    || off == 20 || off == 21 || off == 23 || off == 24 || off == 26 || off == 27 || off == 29 || off == 30 || off == 31
    || off == 32 || off == 35 || off == 37
  }

  /** The core is at an instruction of the program, with the count where the program keeps it. */
  predicate OnPath(s: Core, base: u32, n: u32) {
    var off := s.eip - base;
    && Boundary(off)
    && (9 <= off < LOOP ==> s.regs[ECX] == n)
    && (off == 35 ==> (GetFlag(s.eflags, ZF) == 1 <==> s.regs[ECX] == 0))
  }

  /** How many bytes of code are still to be fetched. */
  function BytesLeft(s: Core, base: u32, n: u32): int {
    var off := s.eip - base;
    if s.eip == 0 then 0
    else if off < LOOP then LOOP - off + 17 * LoopCount(n) + 1
    else if off <= 30 then EXIT - off + 17 * (LoopCount(s.regs[ECX]) - 1) + 1
    else if off < EXIT then EXIT - off + 17 * (s.regs[ECX] as int) + 1
    else 1
  }

  /** What the step at a boundary does: its handler, and where it goes with which count. */
  predicate Steps(s: Core, h: Handler, t: Core) {
    && Byte(s.mem, s.eip) != 0 && Table(Byte(s.mem, s.eip)) == Some(h)
    && s.eip != 0 && Step(s) == Going(t) && t.mem == s.mem
    && (h.RmR? || h.MovRmR? ==> Byte(s.mem, s.eip + 1) >= 0xc0)
  }

  lemma StepIs(s: Core, h: Handler) returns (t: Core)
    requires s.eip != 0 && Byte(s.mem, s.eip) != 0 && Table(Byte(s.mem, s.eip)) == Some(h) && !h.Xchg?
    ensures Step(s) == Going(t) && t == Exec(Skip(s, 1), h)
  {
    hide Exec;
    t := Exec(Skip(s, 1), h);
  }

  lemma Prefix(s: Core) returns (t: Core)
    requires 0 < s.eip < 0xffff_ffff && Byte(s.mem, s.eip) == 0x66
    ensures Steps(s, Nop, t) && Is(t, s.regs, s.eip + 1, s.eflags, s.mem)
  {
    hide Exec, Byte;
    NopIsNop(Skip(s, 1));
    t := StepIs(s, Nop);
  }

  lemma Xor(s: Core, r: Reg) returns (t: Core)
    requires 0 < s.eip < 0xffff_fffe && Byte(s.mem, s.eip) == 0x31 && Byte(s.mem, s.eip + 1) == 0xc0 + 9 * r
    ensures Steps(s, RmR(XOR), t) && Is(t, s.regs[r := 0], s.eip + 2, s.eflags, s.mem)
  {
    hide Exec, Byte;
    t := StepIs(s, RmR(XOR));
    ExecXorSelf(Skip(s, 1), r);
  }

  lemma MovImmediate(s: Core, r: Reg, v: u32) returns (t: Core)
    requires 0 < s.eip <= 0xffff_ffff - 5 && Byte(s.mem, s.eip) == 0xb8 + r
    requires Byte(s.mem, s.eip + 1) == v % 0x100 && Byte(s.mem, s.eip + 2) == v / 0x100 % 0x100
    requires Byte(s.mem, s.eip + 3) == v / 0x1_0000 % 0x100 && Byte(s.mem, s.eip + 4) == v / 0x100_0000
    ensures Steps(s, MovImm(r), t) && Is(t, s.regs[r := v], s.eip + 5, s.eflags, s.mem)
  {
    hide Exec, Byte;
    t := StepIs(s, MovImm(r));
    ExecMovImmediate(Skip(s, 1), r, v);
  }

  lemma JumpOn(s: Core) returns (t: Core)
    requires 0 < s.eip < 0xffff_fffe && Byte(s.mem, s.eip) == 0xeb && Byte(s.mem, s.eip + 1) == 0
    ensures Steps(s, Jmp8, t) && Is(t, s.regs, s.eip + 2, s.eflags, s.mem)
  {
    hide Exec, Byte;
    t := StepIs(s, Jmp8);
    ExecJumpOn(Skip(s, 1));
  }

  lemma MovRegisters(s: Core, dst: Reg, src: Reg) returns (t: Core)
    requires 0 < s.eip < 0xffff_fffe && Byte(s.mem, s.eip) == 0x89 && Byte(s.mem, s.eip + 1) == 0xc0 + 8 * src + dst
    ensures Steps(s, MovRmR, t) && Is(t, s.regs[dst := s.regs[src]], s.eip + 2, s.eflags, s.mem)
  {
    hide Exec, Byte;
    t := StepIs(s, MovRmR);
    ExecMovRegisters(Skip(s, 1), dst, src);
  }

  lemma AddRegisters(s: Core, dst: Reg, src: Reg) returns (t: Core)
    requires 0 < s.eip < 0xffff_fffe && Byte(s.mem, s.eip) == 0x01 && Byte(s.mem, s.eip + 1) == 0xc0 + 8 * src + dst
    ensures Steps(s, RmR(ADD), t)
    ensures Is(t, s.regs[dst := Plus(s.regs[dst], s.regs[src])], s.eip + 2, s.eflags, s.mem)
  {
    hide Exec, Byte;
    t := StepIs(s, RmR(ADD));
    ExecAddRegisters(Skip(s, 1), dst, src);
  }

  lemma Decrement(s: Core, r: Reg) returns (t: Core)
    requires 0 < s.eip < 0xffff_ffff && Byte(s.mem, s.eip) == 0x48 + r
    ensures Steps(s, Dec(r), t) && Is(t, s.regs[r := Plus(s.regs[r], -1)], s.eip + 1, s.eflags, s.mem)
  {
    hide Byte;
    t := StepIs(s, Dec(r));
  }

  lemma CompareZero(s: Core, r: Reg) returns (t: Core)
    requires 0 < s.eip < 0xffff_fffd && Byte(s.mem, s.eip) == 0x83
    requires Byte(s.mem, s.eip + 1) == 0xf8 + r && Byte(s.mem, s.eip + 2) == 0
    ensures Steps(s, Group83, t) && Is(t, s.regs, s.eip + 3, SetFlag(s.eflags, s.regs[r] == 0, ZF), s.mem)
  {
    hide Exec, Byte;
    t := StepIs(s, Group83);
    ExecCompareZero(Skip(s, 1), r);
  }

  lemma JumpBack(s: Core) returns (t: Core)
    requires 0x10 < s.eip < 0xffff_fffe && Byte(s.mem, s.eip) == 0x75 && Byte(s.mem, s.eip + 1) == 0xef
    ensures Steps(s, Jne, t)
    ensures Is(t, s.regs, if GetFlag(s.eflags, ZF) == 1 then s.eip + 2 else s.eip - 0xf, s.eflags, s.mem)
  {
    hide Exec, Byte, GetFlag;
    t := StepIs(s, Jne);
    ExecJneEither(Skip(s, 1));
  }

  lemma ExecJneEither(s: Core)
    requires Byte(s.mem, s.eip) == 0xef && 0x10 <= s.eip < 0xffff_ffff
    ensures Is(Exec(s, Jne), s.regs, if GetFlag(s.eflags, ZF) == 1 then s.eip + 1 else s.eip - 0x10, s.eflags, s.mem)
  {
  }

  lemma Halt(s: Core) returns (t: Core)
    requires 0 < s.eip && Byte(s.mem, s.eip) == 0xf4
    ensures Steps(s, Hlt, t) && Is(t, s.regs, 0, s.eflags, s.mem)
  {
    hide Byte;
    t := StepIs(s, Hlt);
  }

  lemma FlagTells(e: bv32, on: bool)
    ensures GetFlag(SetFlag(e, on, ZF), ZF) == 1 <==> on
  {
  }

  /** Up to the loop. */
  lemma PrologueStep(s: Core, base: u32, n: u32) returns (h: Handler, t: Core)
    requires Loaded(s.mem, base, n) && OnPath(s, base, n) && s.eip - base < LOOP
    ensures Steps(s, h, t) && OnPath(t, base, n) && Length(h) > 0 && t.eip == s.eip + Length(h) && t.eip <= base + LOOP
    ensures t.eip == base + LOOP ==> t.regs[ECX] == n
  {
    hide Byte, Steps, GetFlag;
    if s.eip - base < 9 { h, t := FirstStep(s, base, n); } else { h, t := SecondStep(s, base, n); }
  }

  lemma FirstStep(s: Core, base: u32, n: u32) returns (h: Handler, t: Core)
    requires Loaded(s.mem, base, n) && OnPath(s, base, n) && s.eip - base < 9
    ensures Steps(s, h, t) && Length(h) > 0 && t.eip == s.eip + Length(h) && OnPath(t, base, n) && t.eip <= base + 9
  {
    hide Byte, Steps, GetFlag, Program;
    var off := s.eip - base;
    PrologueBytes(s.mem, base, n);
    if off == 1 {
      h := RmR(XOR);
      t := Xor(s, EBX);
    } else if off == 4 {
      h := MovImm(ECX);
      t := MovImmediate(s, ECX, n);
    } else {
      h := Nop;
      t := Prefix(s);
    }
  }

  lemma SecondStep(s: Core, base: u32, n: u32) returns (h: Handler, t: Core)
    requires Loaded(s.mem, base, n) && OnPath(s, base, n) && 9 <= s.eip - base < LOOP
    ensures Steps(s, h, t) && Length(h) > 0 && t.eip == s.eip + Length(h) && OnPath(t, base, n) && t.eip <= base + LOOP
    ensures t.regs[ECX] == n
  {
    hide Byte, Steps, GetFlag, Program;
    var off := s.eip - base;
    PrologueBytes(s.mem, base, n);
    if off == 10 {
      h := RmR(XOR);
      t := Xor(s, EDX);
    } else if off == 13 {
      h := MovImm(EAX);
      t := MovImmediate(s, EAX, 1);
    } else if off == 18 {
      h := Jmp8;
      t := JumpOn(s);
    } else {
      h := Nop;
      t := Prefix(s);
    }
  }

  /** In the loop, up to the decrement. */
  lemma UpperStep(s: Core, base: u32, n: u32) returns (h: Handler, t: Core)
    requires Loaded(s.mem, base, n) && OnPath(s, base, n) && LOOP <= s.eip - base < 30
    ensures Steps(s, h, t) && OnPath(t, base, n) && Length(h) > 0 && t.eip == s.eip + Length(h) && t.eip <= base + 30
    ensures t.regs[ECX] == s.regs[ECX]
  {
    hide Byte, Steps, GetFlag, Plus;
    var off := s.eip - base;
    LoopBytes(s.mem, base, n);
    if off in {20, 23, 26, 29} {
      h := Nop;
      t := Prefix(s);
    } else if off == 21 {
      h := MovRmR;
      t := MovRegisters(s, EDX, EBX);
    } else if off == 24 {
      h := MovRmR;
      t := MovRegisters(s, EBX, EAX);
    } else {
      h := RmR(ADD);
      t := AddRegisters(s, EAX, EDX);
    }
  }

  /** From the decrement to the halt. */
  lemma LowerStep(s: Core, base: u32, n: u32) returns (h: Handler, t: Core)
    requires Loaded(s.mem, base, n) && OnPath(s, base, n) && 30 <= s.eip - base
    ensures Steps(s, h, t)
    ensures if s.eip - base == 37 then t.eip == 0 else OnPath(t, base, n)
    ensures s.eip - base == 30 ==> Length(h) == 1 && t.eip == base + 31 && t.regs[ECX] == Plus(s.regs[ECX], -1)
    ensures s.eip - base == 31 ==> Length(h) == 1 && t.eip == base + 32 && t.regs[ECX] == s.regs[ECX]
    ensures s.eip - base == 32 ==> Length(h) == 3 && t.eip == base + 35 && t.regs[ECX] == s.regs[ECX]
    ensures s.eip - base == 35 ==> Length(h) == 2 && t.regs[ECX] == s.regs[ECX]
    ensures s.eip - base == 35 ==> t.eip == base + if s.regs[ECX] == 0 then EXIT else LOOP
    ensures s.eip - base == 37 ==> Length(h) == 1
  {
    hide Byte, Steps, GetFlag, Plus, SetFlag;
    var off := s.eip - base;
    LoopBytes(s.mem, base, n);
    if off == 30 {
      h := Dec(ECX);
      t := Decrement(s, ECX);
    } else if off == 31 {
      h := Nop;
      t := Prefix(s);
    } else if off == 32 {
      h := Group83;
      t := CompareZero(s, ECX);
      FlagTells(s.eflags, s.regs[ECX] == 0);
    } else if off == 35 {
      h := Jne;
      t := JumpBack(s);
    } else {
      h := Hlt;
      t := Halt(s);
    }
  }

  /** Every step stays on the path or halts, and fetches as many bytes as there are then fewer left. */
  lemma StepOnPath(s: Core, base: u32, n: u32) returns (h: Handler, t: Core)
    requires Loaded(s.mem, base, n) && OnPath(s, base, n)
    ensures Steps(s, h, t) && (t.eip == 0 || OnPath(t, base, n))
    ensures 0 < Length(h) <= s.eip - base + Length(h) <= LENGTH
    ensures BytesLeft(t, base, n) == BytesLeft(s, base, n) - Length(h)
  {
    hide Steps, GetFlag;
    var off := s.eip - base;
    if off < LOOP {
      h, t := PrologueStep(s, base, n);
    } else if off < 30 {
      h, t := UpperStep(s, base, n);
    } else {
      h, t := LowerStep(s, base, n);
      CountedDown(s.regs[ECX]);
    }
  }

  lemma CountedDown(ecx: u32)
    ensures Plus(ecx, -1) == LoopCount(ecx) - 1
  {
  }

  // ---------- The whole run ----------

  lemma {:induction false} RunMore(s: Core, j: nat, t: Core)
    requires CoreSpec.Run(s, j).Going? && Step(CoreSpec.Run(s, j).core) == Going(t)
    ensures CoreSpec.Run(s, j + 1) == Going(t)
  {
    hide CoreSpec.Run, Step;
    RunAppend(s, j, 1);
    RunOnce(CoreSpec.Run(s, j).core);
  }

  lemma CodeReady(s: Core, image: seq<bv32>, n: u32, h: Handler, t: Core)
    requires |image| == TestBench.ROM_WORDS && HoldsProgram(image, n) && s.mem == RomView(image)
    requires Steps(s, h, t) && 0 < Length(h) && START <= s.eip && s.eip - START + Length(h) <= LENGTH
    ensures CodeOnly(s.mem, s.eip) && LengthAt(s.mem, s.eip) == Length(h) && CodeMapped(s.eip, Length(h))
  {
    hide RomView, HoldsProgram, Byte, CpuBus.Mapped, Steps, CodeOnly, LengthAt, Loaded;
    IsCode(s, h, t);
    ProgramLoaded(image, n);
    forall i | 0 <= i < Length(h) ensures MappedAt(s.eip, i) {
      var a: u32 := s.eip + i;
      assert CpuBus.Mapped(a);
    }
  }

  lemma IsCode(s: Core, h: Handler, t: Core)
    requires Steps(s, h, t) && 0 < Length(h)
    ensures CodeOnly(s.mem, s.eip) && LengthAt(s.mem, s.eip) == Length(h)
  {
    hide Byte, Table, Step;
  }

  /** Where the core stands: `j` instructions into the run from `s`, and on the program's path or halted. */
  ghost predicate Reached(s: Core, j: nat, t: Core, n: u32) {
    CoreSpec.Run(s, j) == Going(t) && (t.eip == 0 || OnPath(t, START, n)) && t.mem == s.mem
  }

  /**
   * The core runs the test program to its halt with the whole machine ticking under it, every byte fetched
   * over the bus from the ROM: F(N + 1) and F(N) in eax and ebx, after five ticks for each of the
   * 20 + 17 N + 1 bytes, N being the count or 2^32.
   */
  method RunProgram(tb: TestBench.TESTBENCH, cpu: CPUCORE, ghost image: seq<bv32>, ghost n: u32)
    requires tb.Valid() && BusReads.Quiet(tb.State(), image) && cpu.Valid()
    requires {cpu, cpu.registers} !! tb.Repr() + {tb}
    requires |image| == TestBench.ROM_WORDS && HoldsProgram(image, n)
    requires cpu.State().(mem := RomView(image)) == CoreSpec.Init(START, STACK, RomView(image))
    modifies tb, tb.Repr(), cpu, cpu.registers
    ensures tb.Valid() && BusReads.Quiet(tb.State(), image) && cpu.Valid()
    ensures cpu.eip == 0 && cpu.registers[ECX] == 0 && GetFlag(cpu.eflags, ZF) == 1
    ensures cpu.registers[EAX] == Fib(LoopCount(n) + 1) % 0x1_0000_0000
    ensures cpu.registers[EBX] == Fib(LoopCount(n)) % 0x1_0000_0000
    ensures tb.tickcount == old(tb.tickcount) + 5 * (20 + 17 * LoopCount(n) + 1)
  {
    hide BusReads.Quiet, RomView, Step, Byte, CoreSpec.Run, CodeOnly, CodeMapped, Steps, OnPath, BytesLeft, HoldsProgram, Loaded,
         Reached, Fib, GetFlag;
    ghost var view := RomView(image);
    ghost var s := cpu.State().(mem := view);
    ghost var j := 0;
    ghost var all := BytesLeft(s, START, n);
    ProgramLoaded(image, n);
    AtStart(s, n);
    while cpu.eip != 0
      invariant tb.Valid() && BusReads.Quiet(tb.State(), image) && cpu.Valid()
      invariant Reached(s, j, cpu.State().(mem := view), n)
      invariant tb.tickcount == old(tb.tickcount) + 5 * (all - BytesLeft(cpu.State().(mem := view), START, n))
      decreases BytesLeft(cpu.State().(mem := view), START, n)
    {
      ghost var t := cpu.State().(mem := view);
      OnPathStill(s, j, t, n);
      ghost var h, u := StepOnPath(t, START, n);
      CodeReady(t, image, n, h, u);
      FetchAndExecute(tb, cpu, image);
      ReachedNext(s, j, t, h, u, n);
      j := j + 1;
      LeftBounded(u, n);
    }
    Finished(s, j, cpu.State().(mem := view), n);
  }

  lemma AtStart(s: Core, n: u32)
    requires s == CoreSpec.Init(START, STACK, s.mem)
    ensures Reached(s, 0, s, n) && BytesLeft(s, START, n) == 20 + 17 * LoopCount(n) + 1
  {
    hide GetFlag;
  }

  lemma OnPathStill(s: Core, j: nat, t: Core, n: u32)
    requires Reached(s, j, t, n) && t.eip != 0
    ensures OnPath(t, START, n) && START <= t.eip && t.mem == s.mem && CoreSpec.Run(s, j) == Going(t)
    ensures BytesLeft(t, START, n) > 0
  {
    hide GetFlag;
  }

  lemma ReachedNext(s: Core, j: nat, t: Core, h: Handler, u: Core, n: u32)
    requires Reached(s, j, t, n) && Steps(t, h, u) && (u.eip == 0 || OnPath(u, START, n))
    ensures Step(t) == Going(u) && Reached(s, j + 1, u, n)
  {
    hide GetFlag, OnPath, Step, CoreSpec.Run;
    RunMore(s, j, u);
  }

  lemma LeftBounded(t: Core, n: u32)
    requires t.eip == 0 || OnPath(t, START, n)
    ensures BytesLeft(t, START, n) >= 0
  {
    hide GetFlag;
  }

  /** The halted core is the one that the theorem about the whole run speaks of. */
  lemma Finished(s: Core, j: nat, t: Core, n: u32)
    requires s == CoreSpec.Init(START, STACK, s.mem) && Loaded(s.mem, START, n) && Reached(s, j, t, n) && t.eip == 0
    ensures t.regs[EAX] == Fib(LoopCount(n) + 1) % 0x1_0000_0000 && t.regs[EBX] == Fib(LoopCount(n)) % 0x1_0000_0000
    ensures t.regs[ECX] == 0 && GetFlag(t.eflags, ZF) == 1 && BytesLeft(t, START, n) == 0
  {
    hide CoreSpec.Run, Fib, Loaded, GetFlag;
    var fuel := j + 11 + 11 * LoopCount(n);
    var f := WholeRun(s, START, n, fuel);
    RunAppend(s, j, fuel - j);
    StopsAtZero(t, fuel - j);
  }

  // ---------- The simulator ----------

  /** What the simulator is given starts with the test program. */
  predicate FileHoldsProgram(file: seq<bv8>, n: u32) {
    |file| >= LENGTH && forall i | 0 <= i < LENGTH :: file[i] as u8 == Program(n)[i]
  }

  lemma ImageHoldsProgram(file: seq<bv8>, n: u32)
    requires FileHoldsProgram(file, n)
    ensures HoldsProgram(MemSim.Image(file, TestBench.ROM_WORDS), n)
  {
    hide Program, MemSim.ImageWord, MemSim.ByteOf;
    forall i | 0 <= i < LENGTH
      ensures MemSim.ByteOf(MemSim.Image(file, TestBench.ROM_WORDS)[i / 4], i % 4) as u8 == Program(n)[i]
    {
      MemSim.ImageBytes(file, TestBench.ROM_WORDS, i);
      assert file[i] as u8 == Program(n)[i];
    }
  }

  /** Builds the machine, loads the file into the ROM, resets, and lets the tick after reset go by. */
  method Boot(file: seq<bv8>) returns (tb: TestBench.TESTBENCH)
    ensures tb.Valid() && fresh(tb) && fresh(tb.Repr()) && tb.tickcount == 2
    ensures BusReads.Quiet(tb.State(), MemSim.Image(file, TestBench.ROM_WORDS))
  {
    hide BusReads.Quiet, TestBench.TickBench, TestBench.Defined, MemSim.Image, CpuBus.AfterReset, CpuBus.PoweredUp;
    ghost var image := MemSim.Image(file, TestBench.ROM_WORDS);
    tb := new TestBench.TESTBENCH(640 * 1024 / 4, 2);
    var nr := tb.bios.Load(file);
    ghost var b := tb.State();
    Loads(b, image);
    CpuBus.ResetDefined(b, image);
    CpuBus.ResetQuiet(b, image);
    tb.Reset();
    tb.Tick();
  }

  lemma Loads(b: TestBench.Bench, image: seq<bv32>)
    requires |image| == TestBench.ROM_WORDS && b.rom == MemSim.Mem(image, 0, 0) && b.ram.count == 0
    requires b.link == TestBench.AS_BUILT && b.dec == BusMaster.DARK && !b.rst && !b.cpuReset
    ensures CpuBus.PoweredUp(b, image)
  {
  }

  /** `main` with a file that starts with the test program: the core runs to its halt, and this is what it leaves. */
  method Simulate(file: seq<bv8>, ghost n: u32) returns (tb: TestBench.TESTBENCH, cpu: CPUCORE)
    requires FileHoldsProgram(file, n)
    ensures cpu.Valid() && cpu.eip == 0
    ensures cpu.registers[EAX] == Fib(LoopCount(n) + 1) % 0x1_0000_0000
    ensures cpu.registers[EBX] == Fib(LoopCount(n)) % 0x1_0000_0000
    ensures tb.tickcount == 2 + 5 * (20 + 17 * LoopCount(n) + 1)
  {
    hide BusReads.Quiet, RomView, HoldsProgram, Fib, MemSim.Image;
    tb := Boot(file);
    cpu := new CPUCORE(map[]);
    cpu.Init(START, STACK);
    ImageHoldsProgram(file, n);
    RunProgram(tb, cpu, MemSim.Image(file, TestBench.ROM_WORDS), n);
  }
}
