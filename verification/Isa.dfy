/**
 * What the core does with an instruction, told from its bytes: for every installed opcode, every operand and
 * every state, the step from one fetch to the next. Arithmetic is told by its laws, not by its code.
 */
module Isa {
  import opened Words
  import opened Wrappers
  import opened CoreSpec
  import opened Instructions
  import CoreRuns
  import Stack

  // ---------- The bytes ----------

  function Fetched(s: Core, i: nat): u8 {
    Byte(s.mem, s.eip + i)
  }

  /** The core is about to fetch this code. */
  predicate Fetches(s: Core, code: seq<u8>) {
    s.eip != 0 && forall i | 0 <= i < |code| :: Fetched(s, i) == code[i]
  }

  /** Four bytes, the first least significant. */
  function Little(m: Memory, a: int): u32 {
    Byte(m, a) + 0x100 * Byte(m, a + 1) + 0x1_0000 * Byte(m, a + 2) + 0x100_0000 * Byte(m, a + 3)
  }

  /** Four bytes, the first most significant. */
  function Big(m: Memory, a: int): u32 {
    Byte(m, a + 3) + 0x100 * Byte(m, a + 2) + 0x1_0000 * Byte(m, a + 1) + 0x100_0000 * Byte(m, a)
  }

  function Modrm(form: nat, r: Reg, b: Reg): u8
    requires form < 4
  {
    64 * form + 8 * r + b
  }

  /** The memory operand: the base register, plus a byte, or plus a little-endian word. */
  function Target(s: Core, form: nat, base: Reg): u32
    requires form < 3
  {
    if form == 0 then s.regs[base]
    else if form == 1 then Wrap(s.regs[base] + Fetched(s, 2))
    else Wrap(s.regs[base] + Little(s.mem, s.eip + 2))
  }

  /** Bytes of an instruction with such an operand. */
  function Size(form: nat): nat {
    if form == 1 then 3 else if form == 2 then 6 else 2
  }

  lemma BytesAfterOpcode(m: Memory, eip: u32, i: int)
    ensures Byte(m, Plus(eip, 1) + i) == Byte(m, eip + 1 + i)
  {
    WrapWrap(eip + 1, i);
  }

  lemma LittleIs(m: Memory, a: u32)
    ensures Word(m, a) == Little(m, a) && ReadU32(m, a) == Big(m, a)
  {
    hide Byte;
    SwapBytes(Byte(m, a), Byte(m, a + 1), Byte(m, a + 2), Byte(m, a + 3));
  }

  lemma LittleAt(m: Memory, a: int)
    ensures Little(m, Wrap(a)) == Little(m, a) && Big(m, Wrap(a)) == Big(m, a)
  {
    hide Byte;
    WrapWrap(a, 0);
    ByteAt(m, a, 0);
    ByteAt(m, a, 1);
    ByteAt(m, a, 2);
    ByteAt(m, a, 3);
  }

  lemma ByteAt(m: Memory, a: int, i: int)
    ensures Byte(m, Wrap(a) + i) == Byte(m, a + i)
  {
    WrapWrap(a, i);
  }

  // ---------- The laws of the operations ----------

  predicate Bit(x: nat, i: nat) {
    x / Pow2(i) % 2 == 1
  }

  /** The carry flag, bit 0. */
  function Carry(e: bv32): int {
    if e & 1 != 0 then 1 else 0
  }

  /** Operation number `k`, as opcodes and the R field of the groups count them, makes `v` of `x` and `y`. */
  predicate Computes(k: nat, carry: int, x: u32, y: u32, v: u32)
    requires k < 7
  {
    if k == 0 then v == (x + y) % 0x1_0000_0000
    else if k == 1 then forall i: nat | i < 32 :: Bit(v, i) <==> Bit(x, i) || Bit(y, i)
    else if k == 2 then v == (x + y + carry) % 0x1_0000_0000
    else if k == 3 then (v + y + carry) % 0x1_0000_0000 == x
    else if k == 4 then forall i: nat | i < 32 :: Bit(v, i) <==> Bit(x, i) && Bit(y, i)
    else if k == 5 then (v + y) % 0x1_0000_0000 == x
    else forall i: nat | i < 32 :: Bit(v, i) <==> Bit(x, i) != Bit(y, i)
  }

  /** The zero flag, bit 6. */
  predicate Zero(e: bv32) {
    e & 64 != 0
  }

  /** A comparison: the zero flag says whether the operands are equal, every other flag stays. */
  predicate Compared(e: bv32, f: bv32, equal: bool) {
    (Zero(f) <==> equal) && f & 0xffff_ffbf == e & 0xffff_ffbf
  }

  lemma BitStep(x: nat, i: nat)
    ensures Bit(x, 0) <==> x % 2 == 1
    ensures i > 0 ==> (Bit(x, i) <==> Bit(x / 2, i - 1))
  {
    if i > 0 { HalvedQuotient(x, Pow2(i - 1)); }
  }

  lemma BitsStep(op: Logic, x: nat, y: nat, n: nat)
    requires n > 0
    ensures Bits(op, x, y, n) / 2 == Bits(op, x / 2, y / 2, n - 1)
    ensures Bits(op, x, y, n) % 2 == 1 <==> OnBit(op, x % 2 == 1, y % 2 == 1)
  {
    var low := if OnBit(op, x % 2 == 1, y % 2 == 1) then 1 else 0;
    var rest := Bits(op, x / 2, y / 2, n - 1);
    FromQuotient(2 * rest + low, 2, rest, low);
  }

  lemma {:induction false} BitOfLogic(op: Logic, x: nat, y: nat, n: nat, i: nat)
    requires i < n
    ensures Bit(Bits(op, x, y, n), i) <==> OnBit(op, Bit(x, i), Bit(y, i))
    decreases n
  {
    hide Bit, Bits, OnBit;
    BitsStep(op, x, y, n);
    BitStep(Bits(op, x, y, n), i);
    BitStep(x, i);
    BitStep(y, i);
    if i > 0 { BitOfLogic(op, x / 2, y / 2, n - 1, i - 1); }
  }

  lemma LogicBits(op: Logic, x: u32, y: u32)
    ensures forall i: nat | i < 32 :: Bit(Logic32(op, x, y), i) <==> OnBit(op, Bit(x, i), Bit(y, i))
  {
    hide Bits, Bit, OnBit;
    var width := 32;
    forall i: nat | i < width ensures Bit(Logic32(op, x, y), i) <==> OnBit(op, Bit(x, i), Bit(y, i)) {
      BitOfLogic(op, x, y, width, i);
    }
  }

  lemma ResultComputes(k: Reg, carry: int, x: u32, y: u32)
    requires k < 7
    ensures Computes(k, carry, x, y, Result(GroupOp(k), x, y, carry))
  {
    hide Logic32, Bit;
    LogicBits(And, x, y);
    LogicBits(Or, x, y);
    LogicBits(Xor, x, y);
    Undone(x, y);
    Undone(x, y + carry);
  }

  lemma Undone(x: u32, d: int)
    ensures (Wrap(x - d) + d) % 0x1_0000_0000 == x
  {
    WrapWrap(x - d, d);
  }

  lemma CarryIs(e: bv32)
    ensures GetFlag(e, CF) == Carry(e)
  {
  }

  lemma ZeroIs(e: bv32)
    ensures GetFlag(e, ZF) == if Zero(e) then 1 else 0
  {
  }

  lemma ComparedIs(e: bv32, equal: bool)
    ensures Compared(e, SetFlag(e, equal, ZF), equal)
  {
  }

  // ---------- Fetch and dispatch ----------

  lemma Dispatched(s: Core, code: seq<u8>, h: Handler) returns (t: Core)
    requires |code| > 0 && Fetches(s, code) && code[0] != 0 && Table(code[0]) == Some(h) && !h.Xchg?
    ensures Step(s) == Going(t) && t == Exec(Skip(s, 1), h)
  {
    hide Exec, Table;
    assert Fetched(s, 0) == code[0];
    t := Exec(Skip(s, 1), h);
  }

  lemma TableOfAlu(k: Reg)
    ensures Table(8 * k + 1) == Some(RmR(GroupOp(k))) && Table(8 * k + 5) == Some(EaxImm(GroupOp(k)))
    ensures Table(8 * k + 3) == if k == 7 then Some(RmR(CMP)) else Some(RRm(GroupOp(k)))
  {
  }

  /** A ModRM byte behind the opcode, decoded. */
  lemma DecodesTo(s: Core, opcode: u8, form: nat, r: Reg, b: Reg)
    requires form < 4 && Fetches(s, [opcode, Modrm(form, r, b)])
    ensures var d := Decode(Skip(s, 1)); d == Skip(s, 1).(modrm := Modrm(form, r, b), mod := form, R := r, M := b)
  {
    BytesAfterOpcode(s.mem, s.eip, 0);
    hide Byte;
    assert Fetched(s, 1) == Modrm(form, r, b);
    FieldsOf(form, r, b);
  }

  lemma FieldsOf(form: nat, r: Reg, b: Reg)
    requires form < 4
    ensures Modrm(form, r, b) / 64 == form && Modrm(form, r, b) / 8 % 8 == r && Modrm(form, r, b) % 8 == b
  {
    FromQuotient(Modrm(form, r, b), 64, form, 8 * r + b);
    FromQuotient(Modrm(form, r, b), 8, 8 * form + r, b);
    FromQuotient(8 * form + r, 8, form, r);
  }

  // ---------- Arithmetic on registers ----------

  /** Nothing but register `r`, and eip, which has moved by `n`. */
  predicate OnlyRegister(s: Core, t: Core, r: Reg, n: nat) {
    && (forall q: Reg | q != r :: t.regs[q] == s.regs[q])
    && t.eflags == s.eflags && t.mem == s.mem && t.eip == Wrap(s.eip + n)
  }

  /** Nothing but the flags, and eip, which has moved by `n`. */
  predicate OnlyFlags(s: Core, t: Core, n: nat) {
    t.regs == s.regs && t.mem == s.mem && t.eip == Wrap(s.eip + n)
  }

  lemma IntoRegisterIs(d: Core, k: Reg, dst: Reg, y: u32)
    requires k < 7
    ensures var t := IntoRegister(d, GroupOp(k), dst, y);
            && Computes(k, Carry(d.eflags), d.regs[dst], y, t.regs[dst])
            && t == d.(regs := d.regs[dst := t.regs[dst]])
  {
    hide Result, Computes, GetFlag, Carry, GroupOp;
    OnlySevenCompares(k);
    CarryIs(d.eflags);
    ResultComputes(k, Carry(d.eflags), d.regs[dst], y);
  }

  /** `op r/m32, r32` and `op r32, r/m32` between two registers. */
  lemma AluRegisters(s: Core, k: Reg, dst: Reg, src: Reg, reversed: bool) returns (t: Core)
    requires k < 7
    requires Fetches(s, if reversed then [8 * k + 3, Modrm(3, dst, src)] else [8 * k + 1, Modrm(3, src, dst)])
    ensures Step(s) == Going(t) && OnlyRegister(s, t, dst, 2)
    ensures Computes(k, Carry(s.eflags), s.regs[dst], s.regs[src], t.regs[dst])
  {
    TableOfAlu(k);
    hide Table, Step, GroupOp, Computes, Decode, IntoRegister, Carry, Byte;
    var d := Decode(Skip(s, 1));
    WrapWrap(s.eip + 1, 1);
    if reversed {
      t := Dispatched(s, [8 * k + 3, Modrm(3, dst, src)], RRm(GroupOp(k)));
      DecodesTo(s, 8 * k + 3, 3, dst, src);
    } else {
      t := Dispatched(s, [8 * k + 1, Modrm(3, src, dst)], RmR(GroupOp(k)));
      DecodesTo(s, 8 * k + 1, 3, src, dst);
    }
    IntoRegisterIs(d, k, dst, s.regs[src]);
  }

  /** The register form of the comparisons tests a pointer: it clears the zero flag whatever the operands are. */
  lemma CompareRegisters(s: Core, dst: Reg, src: Reg, reversed: bool) returns (t: Core)
    requires Fetches(s, [if reversed then 0x3b else 0x39, Modrm(3, src, dst)])
    ensures Step(s) == Going(t) && OnlyFlags(s, t, 2) && Compared(s.eflags, t.eflags, false)
  {
    hide Step, SetFlag, Decode, Byte, Compared;
    var opcode: u8 := if reversed then 0x3b else 0x39;
    t := Dispatched(s, [opcode, Modrm(3, src, dst)], RmR(CMP));
    DecodesTo(s, opcode, 3, src, dst);
    ComparedIs(s.eflags, false);
    WrapWrap(s.eip + 1, 1);
  }

  lemma WithImmediateIs(d: Core, k: Reg, r: Reg, y: u32)
    ensures var t := WithImmediate(d, GroupOp(k), r, y);
            if k == 7 then t == d.(eflags := t.eflags) && Compared(d.eflags, t.eflags, d.regs[r] == y)
            else && Computes(k, Carry(d.eflags), d.regs[r], y, t.regs[r])
                 && t == d.(regs := d.regs[r := t.regs[r]])
  {
    hide Result, Computes, GetFlag, Carry, SetFlag, Compared, GroupOp;
    OnlySevenCompares(k);
    CarryIs(d.eflags);
    ComparedIs(d.eflags, d.regs[r] == y);
    if k < 7 { ResultComputes(k, Carry(d.eflags), d.regs[r], y); }
  }

  /** What an operation with an immediate leaves. */
  predicate ImmediateDone(s: Core, t: Core, k: Reg, r: Reg, y: u32, n: nat) {
    if k == 7 then OnlyFlags(s, t, n) && Compared(s.eflags, t.eflags, s.regs[r] == y)
    else OnlyRegister(s, t, r, n) && Computes(k, Carry(s.eflags), s.regs[r], y, t.regs[r])
  }

  /** `op eax, imm32`: the immediate starts one byte late, and eip stops on it. */
  lemma AluEax(s: Core, k: Reg) returns (t: Core)
    requires Fetches(s, [8 * k + 5])
    ensures Step(s) == Going(t) && ImmediateDone(s, t, k, EAX, Little(s.mem, s.eip + 2), 2)
  {
    TableOfAlu(k);
    hide Table, Step, GroupOp, Computes, Compared, WithImmediate, Carry, Little, Big, Word;
    t := Dispatched(s, [8 * k + 5], EaxImm(GroupOp(k)));
    PlusPlus(s.eip, 1, 1);
    var d := Skip(Skip(s, 1), 1);
    LittleIs(s.mem, d.eip);
    LittleAt(s.mem, s.eip + 2);
    WithImmediateIs(d, k, EAX, Little(s.mem, s.eip + 2));
  }

  /** Groups 81 and 83: the operation is the R field and the operand always a register, whatever the form says. */
  lemma AluGroup(s: Core, k: Reg, r: Reg, form: nat, wide: bool) returns (t: Core)
    requires form < 4 && Fetches(s, [if wide then 0x81 else 0x83, Modrm(form, k, r)])
    ensures Step(s) == Going(t)
    ensures ImmediateDone(s, t, k, r, if wide then Little(s.mem, s.eip + 2) else Fetched(s, 2), 3)
  {
    hide Step, GroupOp, Computes, Compared, WithImmediate, Carry, Little, Big, Word, Decode, Byte;
    var opcode: u8 := if wide then 0x81 else 0x83;
    var h := if wide then Group81 else Group83;
    t := Dispatched(s, [opcode, Modrm(form, k, r)], h);
    DecodesTo(s, opcode, form, k, r);
    var d := Decode(Skip(s, 1));
    GroupIs(s, d, k, r, wide);
  }

  lemma GroupIs(s: Core, d: Core, k: Reg, r: Reg, wide: bool)
    requires d == Skip(s, 1).(modrm := d.modrm, mod := d.mod, R := k, M := r)
    ensures ImmediateDone(s, GroupImmediate(d, GroupOp(k), wide), k, r,
                          if wide then Little(s.mem, s.eip + 2) else Fetched(s, 2), 3)
  {
    hide GroupOp, Computes, Compared, WithImmediate, Carry, Little, Big, Word, Byte;
    PlusPlus(s.eip, 1, 1);
    PlusPlus(s.eip, 2, 1);
    var e := Skip(d, 1);
    LittleIs(s.mem, e.eip);
    LittleAt(s.mem, s.eip + 2);
    BytesAfterTwo(s.mem, s.eip);
    WithImmediateIs(e, k, r, if wide then Little(s.mem, s.eip + 2) else Fetched(s, 2));
  }

  lemma BytesAfterTwo(m: Memory, eip: u32)
    ensures Byte(m, Plus(eip, 2)) == Byte(m, eip + 2)
  {
    WrapWrap(eip + 2, 0);
  }

  // ---------- Memory operands ----------

  /** The word at `a` rounded down to four is `v`, little-endian, and no other byte has changed. */
  predicate Overwritten(m: Memory, n: Memory, a: u32, v: u32) {
    var b := a - a % 4;
    Little(n, b) == v && forall x: u32 | x < b || b + 4 <= x :: Byte(n, x) == Byte(m, x)
  }

  lemma WriteOverwrites(m: Memory, a: u32, v: u32)
    ensures Overwritten(m, WriteU32(m, a, v), a, v)
  {
    hide Byte, Little, Word;
    var b: u32 := AlignDown(a, 4);
    assert b == a - a % 4;
    SameWrite(m, a, b, v);
    Stack.StoreWord(m, b, v);
    LittleIs(WriteU32(m, a, v), b);
  }

  lemma SameWrite(m: Memory, a: u32, b: u32, v: u32)
    requires b == AlignDown(a, 4)
    ensures WriteU32(m, a, v) == WriteU32(m, b, v)
  {
    hide PutHalf;
    assert AlignDown(b, 4) == b;
  }

  /** The operand address, computed where the core computes it. */
  lemma OperandIs(s: Core, d: Core, form: nat, base: Reg)
    requires form < 3 && d == Skip(s, 1).(modrm := d.modrm, mod := form, R := d.R, M := base)
    ensures Operand(d) == Target(s, form, base)
    ensures Wrap(d.eip + FormLength(form)) == Wrap(s.eip + Size(form))
  {
    hide Word, Little, Byte, Big, Wrap;
    WrapWrap(s.eip + 1, FormLength(form));
    if form == 1 {
      BytesAfterOpcode(s.mem, s.eip, 1);
    } else if form == 2 {
      PlusPlus(s.eip, 1, 1);
      LittleIs(s.mem, Plus(s.eip, 2));
      LittleAt(s.mem, s.eip + 2);
    }
  }

  /** Memory at the operand has changed, eip has moved past it, and nothing else. */
  predicate OnlyMemory(s: Core, t: Core, a: u32, v: u32, n: nat) {
    Overwritten(s.mem, t.mem, a, v) && t.regs == s.regs && t.eflags == s.eflags && t.eip == Wrap(s.eip + n)
  }

  /** `op [..], r32`: the old operand is read with its first byte on top, the result is stored in an aligned word. */
  lemma AluIntoMemory(s: Core, k: Reg, form: nat, src: Reg, base: Reg) returns (t: Core, v: u32)
    requires k < 7 && form < 3 && Fetches(s, [8 * k + 1, Modrm(form, src, base)])
    ensures Step(s) == Going(t)
    ensures var a := Target(s, form, base);
            Computes(k, Carry(s.eflags), Big(s.mem, a), s.regs[src], v) && OnlyMemory(s, t, a, v, Size(form))
  {
    TableOfAlu(k);
    hide Table, Step, GroupOp, Computes, Decode, Carry, Byte, Operand, Target, Result, GetFlag, WriteU32, ReadU32, Overwritten,
         Little, Big;
    t := Dispatched(s, [8 * k + 1, Modrm(form, src, base)], RmR(GroupOp(k)));
    DecodesTo(s, 8 * k + 1, form, src, base);
    OperandIs(s, Decode(Skip(s, 1)), form, base);
    var a := Target(s, form, base);
    LittleIs(s.mem, a);
    CarryIs(s.eflags);
    ResultComputes(k, Carry(s.eflags), Big(s.mem, a), s.regs[src]);
    v := Result(GroupOp(k), Big(s.mem, a), s.regs[src], Carry(s.eflags));
    WriteOverwrites(s.mem, a, v);
    OnlySevenCompares(k);
  }

  lemma OnlySevenCompares(k: Reg)
    ensures GroupOp(k) == CMP <==> k == 7
  {
  }

  /** `cmp [..], r32`, under either opcode: compares the operand, first byte on top, with the register. */
  lemma CompareMemory(s: Core, form: nat, src: Reg, base: Reg, reversed: bool) returns (t: Core)
    requires form < 3 && Fetches(s, [if reversed then 0x3b else 0x39, Modrm(form, src, base)])
    ensures Step(s) == Going(t) && OnlyFlags(s, t, Size(form))
    ensures Compared(s.eflags, t.eflags, Big(s.mem, Target(s, form, base)) == s.regs[src])
  {
    hide Step, Decode, Byte, Operand, Target, SetFlag, ReadU32, Compared, Big, Little;
    var opcode: u8 := if reversed then 0x3b else 0x39;
    t := Dispatched(s, [opcode, Modrm(form, src, base)], RmR(CMP));
    DecodesTo(s, opcode, form, src, base);
    OperandIs(s, Decode(Skip(s, 1)), form, base);
    var a := Target(s, form, base);
    LittleIs(s.mem, a);
    ComparedIs(s.eflags, Big(s.mem, a) == s.regs[src]);
  }

  /** `op r32, [..]`: the operand is read with its first byte on top. */
  lemma AluFromMemory(s: Core, k: Reg, form: nat, dst: Reg, base: Reg) returns (t: Core)
    requires k < 7 && form < 3 && Fetches(s, [8 * k + 3, Modrm(form, dst, base)])
    ensures Step(s) == Going(t) && OnlyRegister(s, t, dst, Size(form))
    ensures Computes(k, Carry(s.eflags), s.regs[dst], Big(s.mem, Target(s, form, base)), t.regs[dst])
  {
    TableOfAlu(k);
    hide Table, Step, GroupOp, Computes, Decode, Carry, Byte, Operand, Target, ReadU32, IntoRegister, Big, Little;
    t := Dispatched(s, [8 * k + 3, Modrm(form, dst, base)], RRm(GroupOp(k)));
    DecodesTo(s, 8 * k + 3, form, dst, base);
    OperandIs(s, Decode(Skip(s, 1)), form, base);
    var a := Target(s, form, base);
    LittleIs(s.mem, a);
    IntoRegisterIs(Decode(Skip(s, 1)), k, dst, Big(s.mem, a));
  }

  // ---------- Moves ----------

  /** `mov [..], r32`. With a 32-bit displacement the store goes to the base register itself. */
  lemma MovStore(s: Core, form: nat, src: Reg, base: Reg) returns (t: Core)
    requires form < 3 && Fetches(s, [0x89, Modrm(form, src, base)])
    ensures Step(s) == Going(t)
    ensures OnlyMemory(s, t, if form == 2 then s.regs[base] else Target(s, form, base), s.regs[src], Size(form))
  {
    hide Step, Decode, Byte, Operand, Target, WriteU32, Overwritten, Fetches, Modrm, Exec;
    t := Dispatched(s, [0x89, Modrm(form, src, base)], MovRmR);
    DecodesTo(s, 0x89, form, src, base);
    OperandIs(s, Decode(Skip(s, 1)), form, base);
    StoreDone(Skip(s, 1), form, src, base);
    WriteOverwrites(s.mem, if form == 2 then s.regs[base] else Target(s, form, base), s.regs[src]);
  }

  lemma StoreDone(u: Core, form: nat, src: Reg, base: Reg)
    requires form < 3
    requires var d := Decode(u); d == u.(modrm := d.modrm, mod := form, R := src, M := base)
    ensures var t := Exec(u, MovRmR);
            && t.mem == WriteU32(u.mem, if form == 2 then u.regs[base] else Operand(Decode(u)), u.regs[src])
            && t.regs == u.regs && t.eflags == u.eflags && t.eip == Wrap(u.eip + FormLength(form))
  {
    hide Decode, Operand, WriteU32;
  }

  /** `mov r32, [..]`: the operand is read with its first byte on top. */
  lemma MovLoad(s: Core, form: nat, dst: Reg, base: Reg) returns (t: Core)
    requires form < 3 && Fetches(s, [0x8b, Modrm(form, dst, base)])
    ensures Step(s) == Going(t) && OnlyRegister(s, t, dst, Size(form))
    ensures t.regs[dst] == Big(s.mem, Target(s, form, base))
  {
    hide Step, Decode, Byte, Operand, Target, ReadU32, Big, Little;
    t := Dispatched(s, [0x8b, Modrm(form, dst, base)], MovRRm);
    DecodesTo(s, 0x8b, form, dst, base);
    OperandIs(s, Decode(Skip(s, 1)), form, base);
    LittleIs(s.mem, Target(s, form, base));
  }

  /** `mov` between registers, either way round. */
  lemma MovRegisters(s: Core, dst: Reg, src: Reg, reversed: bool) returns (t: Core)
    requires Fetches(s, if reversed then [0x8b, Modrm(3, dst, src)] else [0x89, Modrm(3, src, dst)])
    ensures Step(s) == Going(t) && OnlyRegister(s, t, dst, 2) && t.regs[dst] == s.regs[src]
  {
    hide Step, Decode, Byte;
    WrapWrap(s.eip + 1, 1);
    if reversed {
      t := Dispatched(s, [0x8b, Modrm(3, dst, src)], MovRRm);
      DecodesTo(s, 0x8b, 3, dst, src);
    } else {
      t := Dispatched(s, [0x89, Modrm(3, src, dst)], MovRmR);
      DecodesTo(s, 0x89, 3, src, dst);
    }
  }

  /** `mov r32, imm32`. */
  lemma MovImmediate(s: Core, r: Reg) returns (t: Core)
    requires Fetches(s, [0xb8 + r])
    ensures Step(s) == Going(t) && OnlyRegister(s, t, r, 5) && t.regs[r] == Little(s.mem, s.eip + 1)
  {
    hide Step, Word, Little, Big;
    t := Dispatched(s, [0xb8 + r], MovImm(r));
    NextWord(s);
    PlusPlus(s.eip, 1, 4);
  }

  lemma NextWord(s: Core)
    ensures Word(s.mem, Skip(s, 1).eip) == Little(s.mem, s.eip + 1)
  {
    hide Word, Little, Big;
    LittleIs(s.mem, Plus(s.eip, 1));
    LittleAt(s.mem, s.eip + 1);
  }

  // ---------- Jumps ----------

  /** Nothing but eip. */
  predicate GoesTo(s: Core, t: Core, eip: int) {
    t.regs == s.regs && t.eflags == s.eflags && t.mem == s.mem && t.eip == Wrap(eip)
  }

  /** A byte as a signed displacement. */
  function Signed(b: u8): int {
    if b < 128 then b else b - 256
  }

  /**
   * `je`, `jne` and `jmp` with a byte: je jumps exactly if the zero flag is set, jne exactly if it is clear,
   * jmp always, to the next instruction plus the signed byte.
   */
  lemma JumpShort(s: Core, opcode: u8) returns (t: Core)
    requires (opcode == 0x74 || opcode == 0x75 || opcode == 0xeb) && Fetches(s, [opcode])
    ensures Step(s) == Going(t)
    ensures var taken := if opcode == 0x74 then Zero(s.eflags) else if opcode == 0x75 then !Zero(s.eflags) else true;
            GoesTo(s, t, s.eip + 2 + if taken then Signed(Fetched(s, 1)) else 0)
  {
    hide Step, Byte, GetFlag, Zero;
    t := Dispatched(s, [opcode], if opcode == 0x74 then Je else if opcode == 0x75 then Jne else Jmp8);
    ZeroIs(s.eflags);
    BytesAfterOpcode(s.mem, s.eip, 0);
    PlusPlus(s.eip, 1, 1);
    PlusPlus(s.eip, 1, Signed(Fetched(s, 1)) + 1);
  }

  /** `jmp` with a word: to the displacement plus two, counted from the opcode, so not from the next instruction. */
  lemma JumpNear(s: Core) returns (t: Core)
    requires Fetches(s, [0xe9])
    ensures Step(s) == Going(t) && GoesTo(s, t, s.eip + 2 + Little(s.mem, s.eip + 1))
  {
    hide Step, Word, Little, Big;
    t := Dispatched(s, [0xe9], Jmp32);
    NextWord(s);
    PlusPlus(s.eip, 1, Little(s.mem, s.eip + 1) + 1);
  }

  /** `call` goes where that jump goes, and pushes the address of its displacement. */
  lemma CallNear(s: Core) returns (t: Core)
    requires Fetches(s, [0xe8])
    ensures Step(s) == Going(t) && t.eip == Wrap(s.eip + 2 + Little(s.mem, s.eip + 1)) && t.eflags == s.eflags
    ensures t.regs == s.regs[ESP := Plus(s.regs[ESP], -4)]
    ensures Overwritten(s.mem, t.mem, Plus(s.regs[ESP], -4), Wrap(s.eip + 1))
  {
    hide Step, Word, Little, Big, WriteU32, Overwritten;
    t := Dispatched(s, [0xe8], Call);
    NextWord(s);
    PlusPlus(s.eip, 1, Little(s.mem, s.eip + 1) + 1);
    WriteOverwrites(s.mem, Plus(s.regs[ESP], -4), Plus(s.eip, 1));
  }

  /** `ret` goes to the word at esp, and leaves esp where it is. */
  lemma Return(s: Core) returns (t: Core)
    requires Fetches(s, [0xc3])
    ensures Step(s) == Going(t) && GoesTo(s, t, Little(s.mem, s.regs[ESP]))
  {
    hide Step, Word, Little, Big;
    t := Dispatched(s, [0xc3], Ret);
    LittleIs(s.mem, s.regs[ESP]);
    WrapWrap(Little(s.mem, s.regs[ESP]), 0);
  }

  /** `nop` and the two prefixes. */
  lemma Nothing(s: Core, opcode: u8) returns (t: Core)
    requires (opcode == 0x90 || opcode == 0x66 || opcode == 0x67) && Fetches(s, [opcode])
    ensures Step(s) == Going(t) && GoesTo(s, t, s.eip + 1)
  {
    hide Step;
    t := Dispatched(s, [opcode], Nop);
  }

  /** `hlt` leaves eip zero, which ends the run. */
  lemma Halt(s: Core) returns (t: Core)
    requires Fetches(s, [0xf4])
    ensures Step(s) == Going(t) && GoesTo(s, t, 0) && Step(t) == Stopped(t)
  {
    t := Dispatched(s, [0xf4], Hlt);
  }

  // ---------- One register ----------

  /** `inc` and `dec`, which leave the flags alone. */
  lemma Count(s: Core, r: Reg, down: bool) returns (t: Core)
    requires Fetches(s, [if down then 0x48 + r else 0x40 + r])
    ensures Step(s) == Going(t) && OnlyRegister(s, t, r, 1)
    ensures t.regs[r] == Plus(s.regs[r], if down then -1 else 1)
  {
    hide Step;
    t := Dispatched(s, [if down then 0x48 + r else 0x40 + r], if down then Dec(r) else Inc(r));
  }

  /** Group FF: `inc` and `dec` again, on a register whatever the form says; the other members do nothing. */
  lemma GroupFFCounts(s: Core, form: nat, op: Reg, r: Reg) returns (t: Core)
    requires form < 4 && Fetches(s, [0xff, Modrm(form, op, r)])
    ensures Step(s) == Going(t)
    ensures if op < 2 then OnlyRegister(s, t, r, 2) && t.regs[r] == Plus(s.regs[r], if op == 1 then -1 else 1)
            else GoesTo(s, t, s.eip + 1)
  {
    hide Step, Decode, Byte;
    t := Dispatched(s, [0xff, Modrm(form, op, r)], GroupFF);
    DecodesTo(s, 0xff, form, op, r);
    PlusPlus(s.eip, 1, 1);
  }

  /** `xchg eax, r32` swaps. */
  lemma Exchange(s: Core, r: Reg) returns (t: Core)
    requires 1 <= r && Fetches(s, [0x90 + r])
    ensures Step(s) == Going(t) && t.eflags == s.eflags && t.mem == s.mem && t.eip == Wrap(s.eip + 1)
    ensures t.regs == s.regs[EAX := s.regs[r]][r := s.regs[EAX]]
  {
    hide Exec, Byte, ExecXchg;
    assert Fetched(s, 0) == 0x90 + r;
    OpcodeBehind(s);
    TableOfXchg(r);
    t := ExecXchg(Skip(s, 1));
    ExecOfXchg(Skip(s, 1));
    CoreRuns.XchgSwaps(Skip(s, 1));
  }

  lemma TableOfXchg(r: Reg)
    requires 1 <= r
    ensures Table(0x90 + r) == Some(Xchg)
  {
  }

  lemma ExecOfXchg(s: Core)
    requires CoreSpec.Fetched(s, Xchg)
    ensures Exec(s, Xchg) == ExecXchg(s)
  {
    hide ExecXchg;
  }

  // ---------- The stack ----------

  /** `push r32`; `push esp` stores the pointer after it has moved. */
  lemma Push(s: Core, r: Reg) returns (t: Core)
    requires Fetches(s, [0x50 + r])
    ensures Step(s) == Going(t) && t.eflags == s.eflags && t.eip == Wrap(s.eip + 1)
    ensures t.regs == s.regs[ESP := Plus(s.regs[ESP], -4)]
    ensures Overwritten(s.mem, t.mem, t.regs[ESP], t.regs[r])
  {
    hide Step, WriteU32, Overwritten;
    t := Dispatched(s, [0x50 + r], CoreSpec.Push(r));
    WriteOverwrites(s.mem, t.regs[ESP], t.regs[r]);
  }

  /** `pop r32`; `pop esp` loads the word and then adds four to it. */
  lemma Pop(s: Core, r: Reg) returns (t: Core)
    requires Fetches(s, [0x58 + r])
    ensures Step(s) == Going(t) && t.eflags == s.eflags && t.mem == s.mem && t.eip == Wrap(s.eip + 1)
    ensures var v := Little(s.mem, s.regs[ESP]);
            t.regs == s.regs[r := v][ESP := Plus(if r == ESP then v else s.regs[ESP], 4)]
  {
    hide Step, Word, Little, Big;
    t := Dispatched(s, [0x58 + r], CoreSpec.Pop(r));
    LittleIs(s.mem, s.regs[ESP]);
  }

  /** `push imm32`. */
  lemma PushWordImmediate(s: Core) returns (t: Core)
    requires Fetches(s, [0x68])
    ensures Step(s) == Going(t) && t.eflags == s.eflags && t.eip == Wrap(s.eip + 5)
    ensures t.regs == s.regs[ESP := Plus(s.regs[ESP], -4)]
    ensures Overwritten(s.mem, t.mem, t.regs[ESP], Little(s.mem, s.eip + 1))
  {
    hide Step, Word, Little, Big, WriteU32, Overwritten;
    t := Dispatched(s, [0x68], PushImm32);
    NextWord(s);
    PlusPlus(s.eip, 1, 4);
    WriteOverwrites(s.mem, t.regs[ESP], Little(s.mem, s.eip + 1));
  }

  /** `push imm8` moves esp by four and stores one byte there, zero if that place is odd. */
  lemma PushByteImmediate(s: Core) returns (t: Core)
    requires Fetches(s, [0x6a])
    ensures Step(s) == Going(t) && t.eflags == s.eflags && t.eip == Wrap(s.eip + 2)
    ensures t.regs == s.regs[ESP := Plus(s.regs[ESP], -4)]
    ensures Byte(t.mem, t.regs[ESP]) == if t.regs[ESP] % 2 == 1 then 0 else Fetched(s, 1)
    ensures forall x: u32 | x != t.regs[ESP] :: Byte(t.mem, x) == Byte(s.mem, x)
  {
    hide Step, Byte, WriteU8;
    t := Dispatched(s, [0x6a], PushImm8);
    BytesAfterOpcode(s.mem, s.eip, 0);
    PlusPlus(s.eip, 1, 1);
    OneByte(s.mem, t.regs[ESP], Fetched(s, 1));
  }

  lemma OneByte(m: Memory, a: u32, v: u8)
    ensures Byte(WriteU8(m, a, v), a) == if a % 2 == 1 then 0 else v
    ensures forall x: u32 | x != a :: Byte(WriteU8(m, a, v), x) == Byte(m, x)
  {
  }

  /** `leave`: ebp is the word at ebp, esp lies above it. */
  lemma LeaveFrame(s: Core) returns (t: Core)
    requires Fetches(s, [0xc9])
    ensures Step(s) == Going(t) && t.eflags == s.eflags && t.mem == s.mem && t.eip == Wrap(s.eip + 1)
    ensures t.regs == s.regs[EBP := Little(s.mem, s.regs[EBP])][ESP := Plus(s.regs[EBP], 4)]
  {
    hide Step, Word, Little, Big;
    t := Dispatched(s, [0xc9], Leave);
    LittleIs(s.mem, s.regs[EBP]);
  }

  // ---------- Where a run ends ----------

  /** The opcodes that have a handler. */
  predicate Installed(opcode: u8) {
    || (opcode < 0x40 && (opcode % 8 == 1 || opcode % 8 == 3 || opcode % 8 == 5))
    || 0x40 <= opcode < 0x60
    || 0x66 <= opcode <= 0x68 || opcode == 0x6a || 0x74 <= opcode <= 0x75
    || opcode == 0x81 || opcode == 0x83 || opcode == 0x89 || opcode == 0x8b
    || 0x90 <= opcode < 0x98 || 0xb8 <= opcode < 0xc0
    || opcode == 0xc3 || opcode == 0xc9 || opcode == 0xe8 || opcode == 0xe9 || opcode == 0xeb
    || opcode == 0xf4 || opcode == 0xff
  }

  /**
   * A step stops at eip zero, and at opcode zero, with eip past it; it crashes at exactly the opcodes without
   * a handler, and otherwise goes on.
   */
  lemma StepEnds(s: Core)
    ensures Step(s) == Stopped(s) <==> s.eip == 0
    ensures s.eip != 0 && Fetched(s, 0) == 0 ==> Step(s) == Stopped(s.(eip := Wrap(s.eip + 1)))
    ensures Step(s) == Crashed <==> s.eip != 0 && Fetched(s, 0) != 0 && !Installed(Fetched(s, 0))
    ensures Step(s).Going? <==> s.eip != 0 && Installed(Fetched(s, 0))
  {
    hide Exec, Byte;
    InstalledIs(Byte(s.mem, s.eip));
    NextDiffers(s.eip);
  }

  lemma InstalledIs(opcode: u8)
    ensures Table(opcode).Some? <==> Installed(opcode)
  {
  }

  lemma NextDiffers(eip: u32)
    ensures Wrap(eip + 1) != eip
  {
  }
}
