/** What one instruction of the simulated x86 core does, as a function of the core's state. */
module CoreSpec {
  import opened Words
  import opened Wrappers

  type Reg = x: int | 0 <= x < 8
  type Registers = s: seq<u32> | |s| == 8 witness [0, 0, 0, 0, 0, 0, 0, 0]

  const EAX: Reg := 0
  const ECX: Reg := 1
  const EDX: Reg := 2
  const EBX: Reg := 3
  const ESP: Reg := 4
  const EBP: Reg := 5

  const CF: bv32 := 1
  const ZF: bv32 := 64

  /** Byte memory behind the bus; an address that is not a key reads as zero. */
  type Memory = map<int, u8>

  datatype Core = Core(
    regs: Registers, eip: u32, eflags: bv32,
    modrm: u8, mod: int, R: Reg, M: Reg,
    mem: Memory)

  // ---------- Memory as `CPUBUS` presents it ----------

  function Byte(m: Memory, addr: int): u8 {
    var a := Wrap(addr);
    if a in m then m[a] else 0
  }

  /** `read_uint32`: the byte at `addr` comes out on top. */
  function ReadU32(m: Memory, addr: u32): u32 {
    Byte(m, addr + 3) + 0x100 * Byte(m, addr + 2) + 0x1_0000 * Byte(m, addr + 1) + 0x100_0000 * Byte(m, addr)
  }

  function SwapEndian32(d: u32): u32 {
    (d / 0x100_0000) + (d / 0x1_0000 % 0x100) * 0x100 + (d / 0x100 % 0x100) * 0x1_0000 + (d % 0x100) * 0x100_0000
  }

  /** The word at `addr` in the byte order of the machine. */
  function Word(m: Memory, addr: u32): u32 {
    SwapEndian32(ReadU32(m, addr))
  }

  lemma SwapBytes(b0: u8, b1: u8, b2: u8, b3: u8)
    ensures SwapEndian32(0x100_0000 * b0 + 0x1_0000 * b1 + 0x100 * b2 + b3)
         == 0x100_0000 * b3 + 0x1_0000 * b2 + 0x100 * b1 + b0
  {
    var w := 0x100_0000 * b0 + 0x1_0000 * b1 + 0x100 * b2 + b3;
    FromQuotient(w, 0x100_0000, b0, 0x1_0000 * b1 + 0x100 * b2 + b3);
    FromQuotient(w, 0x1_0000, 0x100 * b0 + b1, 0x100 * b2 + b3);
    FromQuotient(w, 0x100, 0x1_0000 * b0 + 0x100 * b1 + b2, b3);
    FromQuotient(0x100 * b0 + b1, 0x100, b0, b1);
    FromQuotient(0x1_0000 * b0 + 0x100 * b1 + b2, 0x100, 0x100 * b0 + b1, b2);
  }

  lemma FourBytes(v: u32)
    ensures v == 0x100_0000 * (v / 0x100_0000) + 0x1_0000 * (v / 0x1_0000 % 0x100) + 0x100 * (v / 0x100 % 0x100) + v % 0x100
  {
    assert v / 0x1_0000 / 0x100 == v / 0x100_0000;
    assert v / 0x100 / 0x100 == v / 0x1_0000;
  }

  /** A word is its four bytes, least significant first. */
  lemma WordFromBytes(m: Memory, a: u32, v: u32)
    requires Byte(m, a) == v % 0x100 && Byte(m, a + 1) == v / 0x100 % 0x100
    requires Byte(m, a + 2) == v / 0x1_0000 % 0x100 && Byte(m, a + 3) == v / 0x100_0000
    ensures Word(m, a) == v
  {
    SwapBytes(Byte(m, a), Byte(m, a + 1), Byte(m, a + 2), Byte(m, a + 3));
    FourBytes(v);
  }

  function PutHalf(m: Memory, addr: u32, half: u16): Memory
    requires addr % 2 == 0
  {
    m[addr := half % 0x100][addr + 1 := half / 0x100]
  }

  lemma AlignedRoom(a: u32)
    requires a % 4 == 0
    ensures a % 2 == 0 && (a + 2) % 2 == 0 && a + 3 < 0x1_0000_0000
  {
    var q := a / 4;
    FromQuotient(a, 2, 2 * q, 0);
    FromQuotient(a + 2, 2, 2 * q + 1, 0);
  }

  /** `write_uint32`: two half words at the address rounded down to a multiple of four. */
  function WriteU32(m: Memory, addr: u32, data: u32): Memory {
    var a := AlignDown(addr, 4);
    AlignedRoom(a);
    PutHalf(PutHalf(m, a, data % 0x1_0000), a + 2, data / 0x1_0000)
  }

  /** `write_uint8`: at an odd address the shifted byte is lost in the 8-bit parameter and zero is stored. */
  function WriteU8(m: Memory, addr: u32, data: u8): Memory {
    m[addr := if addr % 2 == 1 then 0 else data]
  }

  // ---------- Flags and arithmetic ----------

  datatype Alu = ADD | OR | ADC | SBB | AND | SUB | XOR | CMP

  function SetFlag(eflags: bv32, on: bool, flag: bv32): bv32 {
    if on then eflags | flag else eflags & !flag
  }

  function GetFlag(eflags: bv32, flag: bv32): int {
    if eflags & flag == 0 then 0 else 1
  }

  function Result(op: Alu, x: u32, y: u32, carry: int): u32 {
    match op
    case ADD => Wrap(x + y)
    case OR  => Logic32(Or, x, y)
    case ADC => Wrap(x + y + carry)
    case SBB => Wrap(x - (y + carry))
    case AND => Logic32(And, x, y)
    case SUB => Wrap(x - y)
    case XOR => Logic32(Xor, x, y)
    case CMP => x
  }

  /** The immediate groups select their operation with the R field. */
  function GroupOp(r: Reg): Alu {
    [ADD, OR, ADC, SBB, AND, SUB, XOR, CMP][r]
  }

  // ---------- The dispatch table ----------

  datatype Handler =
    | RmR(op: Alu) | RRm(op: Alu) | EaxImm(op: Alu)
    | Inc(r: Reg) | Dec(r: Reg) | Push(r: Reg) | Pop(r: Reg)
    | PushImm32 | PushImm8
    | Je | Jne
    | Group81 | Group83
    | MovRmR | MovRRm | MovImm(r: Reg)
    | Nop | Xchg
    | Ret | Leave | Call | Jmp32 | Jmp8 | Hlt
    | GroupFF

  function Table(opcode: u8): Option<Handler> {
    if 0x40 <= opcode <= 0x47 then Some(Inc(opcode - 0x40))
    else if 0x48 <= opcode <= 0x4f then Some(Dec(opcode - 0x48))
    else if 0x50 <= opcode <= 0x57 then Some(Push(opcode - 0x50))
    else if 0x58 <= opcode <= 0x5f then Some(Pop(opcode - 0x58))
    else if 0xb8 <= opcode <= 0xbf then Some(MovImm(opcode - 0xb8))
    else if 0x91 <= opcode <= 0x97 then Some(Xchg)
    else match opcode
      case 0x01 => Some(RmR(ADD)) case 0x03 => Some(RRm(ADD)) case 0x05 => Some(EaxImm(ADD))
      case 0x09 => Some(RmR(OR))  case 0x0b => Some(RRm(OR))  case 0x0d => Some(EaxImm(OR))
      case 0x11 => Some(RmR(ADC)) case 0x13 => Some(RRm(ADC)) case 0x15 => Some(EaxImm(ADC))
      case 0x19 => Some(RmR(SBB)) case 0x1b => Some(RRm(SBB)) case 0x1d => Some(EaxImm(SBB))
      case 0x21 => Some(RmR(AND)) case 0x23 => Some(RRm(AND)) case 0x25 => Some(EaxImm(AND))
      case 0x29 => Some(RmR(SUB)) case 0x2b => Some(RRm(SUB)) case 0x2d => Some(EaxImm(SUB))
      case 0x31 => Some(RmR(XOR)) case 0x33 => Some(RRm(XOR)) case 0x35 => Some(EaxImm(XOR))
      case 0x39 => Some(RmR(CMP)) case 0x3b => Some(RmR(CMP)) case 0x3d => Some(EaxImm(CMP))
      case 0x66 => Some(Nop) case 0x67 => Some(Nop)
      case 0x68 => Some(PushImm32) case 0x6a => Some(PushImm8)
      case 0x74 => Some(Je) case 0x75 => Some(Jne)
      case 0x81 => Some(Group81) case 0x83 => Some(Group83)
      case 0x89 => Some(MovRmR) case 0x8b => Some(MovRRm)
      case 0x90 => Some(Nop)
      case 0xc3 => Some(Ret) case 0xc9 => Some(Leave)
      case 0xe8 => Some(Call) case 0xe9 => Some(Jmp32) case 0xeb => Some(Jmp8)
      case 0xf4 => Some(Hlt)
      case 0xff => Some(GroupFF)
      case _ => None
  }

  // ---------- The handlers ----------

  function Set(s: Core, r: Reg, v: u32): Core {
    s.(regs := s.regs[r := v])
  }

  function Skip(s: Core, n: int): Core {
    s.(eip := Plus(s.eip, n))
  }

  /** Reads the ModRM byte at eip, without moving eip. */
  function Decode(s: Core): Core {
    var b := Byte(s.mem, s.eip);
    s.(modrm := b, mod := b / 64, R := (b / 8) % 8, M := b % 8)
  }

  /** Bytes from the ModRM byte to the next instruction. */
  function FormLength(mod: int): int {
    if mod == 1 then 2 else if mod == 2 then 5 else 1
  }

  /** The memory operand of forms 0 to 2; `s` has been decoded and its eip is at the ModRM byte. */
  function Operand(s: Core): u32 {
    if s.mod == 1 then Plus(s.regs[s.M], Byte(s.mem, s.eip + 1))
    else if s.mod == 2 then Plus(s.regs[s.M], Word(s.mem, Plus(s.eip, 1)))
    else s.regs[s.M]
  }

  function Compare(s: Core, x: u32, y: u32): Core {
    s.(eflags := SetFlag(s.eflags, x == y, ZF))
  }

  /** `calc_r32_rm32`. Its comparison tests a pointer, which is never null, so it clears ZF. */
  function IntoRegister(s: Core, op: Alu, dst: Reg, y: u32): Core {
    if op == CMP then s.(eflags := SetFlag(s.eflags, false, ZF))
    else Set(s, dst, Result(op, s.regs[dst], y, GetFlag(s.eflags, CF)))
  }

  function IntoMemory(s: Core, op: Alu, addr: u32): Core {
    var x, y := ReadU32(s.mem, addr), s.regs[s.R];
    if op == CMP then Compare(s, x, y)
    else s.(mem := WriteU32(s.mem, addr, Result(op, x, y, GetFlag(s.eflags, CF))))
  }

  function ExecRmR(s: Core, op: Alu): Core {
    var d := Decode(s);
    var t := if d.mod == 3 then IntoRegister(d, op, d.M, d.regs[d.R]) else IntoMemory(d, op, Operand(d));
    Skip(t, FormLength(d.mod))
  }

  function ExecRRm(s: Core, op: Alu): Core {
    var d := Decode(s);
    var y := if d.mod == 3 then d.regs[d.M] else ReadU32(d.mem, Operand(d));
    Skip(IntoRegister(d, op, d.R, y), FormLength(d.mod))
  }

  /** Arithmetic on a register with an immediate: comparisons set ZF, the rest write the register. */
  function WithImmediate(s: Core, op: Alu, r: Reg, imm: u32): Core {
    if op == CMP then Compare(s, s.regs[r], imm)
    else Set(s, r, Result(op, s.regs[r], imm, GetFlag(s.eflags, CF)))
  }

  /** `template_eax_imm32` takes its immediate one byte late and stays on it. */
  function ExecEaxImm(s: Core, op: Alu): Core {
    var t := Skip(s, 1);
    WithImmediate(t, op, EAX, Word(t.mem, t.eip))
  }

  /** `*_rm32_imm`: both widths advance eip by two. */
  function GroupImmediate(s: Core, op: Alu, wide: bool): Core {
    var t := Skip(s, 1);
    var imm: u32 := if wide then Word(t.mem, t.eip) else Byte(t.mem, t.eip);
    Skip(WithImmediate(t, op, t.M, imm), 1)
  }

  function PushWord(s: Core, v: u32): Core {
    s.(mem := WriteU32(s.mem, s.regs[ESP], v))
  }

  function ExecPush(s: Core, r: Reg): Core {
    var t := Set(s, ESP, Plus(s.regs[ESP], -4));
    PushWord(t, t.regs[r])
  }

  function ExecPop(s: Core, r: Reg): Core {
    var t := Set(s, r, Word(s.mem, s.regs[ESP]));
    Set(t, ESP, Plus(t.regs[ESP], 4))
  }

  /** The immediate is fetched before the write, which may land on it. */
  function ExecPushImm32(s: Core): Core {
    var imm := Word(s.mem, s.eip);
    Skip(PushWord(Set(s, ESP, Plus(s.regs[ESP], -4)), imm), 4)
  }

  function ExecPushImm8(s: Core): Core {
    var imm := Byte(s.mem, s.eip);
    var t := Set(s, ESP, Plus(s.regs[ESP], -4));
    Skip(t.(mem := WriteU8(t.mem, t.regs[ESP], imm)), 1)
  }

  function Signed8(b: u8): int {
    if b < 0x80 then b else b - 0x100
  }

  function ExecJump8(s: Core, taken: bool): Core {
    Skip(s, (if taken then Signed8(Byte(s.mem, s.eip)) else 0) + 1)
  }

  function ExecMovRmR(s: Core): Core {
    var d := Decode(s);
    var t :=
      if d.mod == 3 then Set(d, d.M, d.regs[d.R])
      else // with a 32-bit displacement the store ignores the displacement
        d.(mem := WriteU32(d.mem, if d.mod == 2 then d.regs[d.M] else Operand(d), d.regs[d.R]));
    Skip(t, FormLength(d.mod))
  }

  function ExecMovRRm(s: Core): Core {
    var d := Decode(s);
    Skip(Set(d, d.R, if d.mod == 3 then d.regs[d.M] else ReadU32(d.mem, Operand(d))), FormLength(d.mod))
  }

  function ExecMovImm(s: Core, r: Reg): Core {
    Skip(Set(s, r, Word(s.mem, s.eip)), 4)
  }

  /** Where `xchg_eax_r32` finds the opcode that brought it there. */
  function OwnOpcode(s: Core): u8 {
    Byte(s.mem, s.eip - 1)
  }

  predicate Fetched(s: Core, h: Handler) {
    h.Xchg? ==> 0x91 <= OwnOpcode(s) <= 0x97
  }

  function ExecXchg(s: Core): Core
    requires Fetched(s, Xchg)
  {
    var r := OwnOpcode(s) - 0x90;
    var t1 := Set(s, EAX, Logic32(Xor, s.regs[EAX], s.regs[r]));
    var t2 := Set(t1, r, Logic32(Xor, t1.regs[r], t1.regs[EAX]));
    Set(t2, EAX, Logic32(Xor, t2.regs[EAX], t2.regs[r]))
  }

  function ExecJmp32(s: Core): Core {
    Skip(s, Word(s.mem, s.eip) + 1)
  }

  function ExecCall(s: Core): Core {
    var rel := Word(s.mem, s.eip);
    Skip(PushWord(Set(s, ESP, Plus(s.regs[ESP], -4)), s.eip), rel + 1)
  }

  function ExecLeave(s: Core): Core {
    ExecPop(Set(s, ESP, s.regs[EBP]), EBP)
  }

  /** Group FF goes back through the table with an inc or a dec; its other members do nothing at all. */
  function ExecGroupFF(s: Core): Core {
    var d := Decode(s);
    if d.R == 0 then Skip(Set(d, d.M, Plus(d.regs[d.M], 1)), 1)
    else if d.R == 1 then Skip(Set(d, d.M, Plus(d.regs[d.M], -1)), 1)
    else d
  }

  function Exec(s: Core, h: Handler): Core
    requires Fetched(s, h)
  {
    match h
    case RmR(op) => ExecRmR(s, op)
    case RRm(op) => ExecRRm(s, op)
    case EaxImm(op) => ExecEaxImm(s, op)
    case Inc(r) => Set(s, r, Plus(s.regs[r], 1))
    case Dec(r) => Set(s, r, Plus(s.regs[r], -1))
    case Push(r) => ExecPush(s, r)
    case Pop(r) => ExecPop(s, r)
    case PushImm32 => ExecPushImm32(s)
    case PushImm8 => ExecPushImm8(s)
    case Je => ExecJump8(s, GetFlag(s.eflags, ZF) == 1)
    case Jne => ExecJump8(s, GetFlag(s.eflags, ZF) == 0)
    case Group81 => GroupImmediate(Decode(s), GroupOp(Decode(s).R), true)
    case Group83 => GroupImmediate(Decode(s), GroupOp(Decode(s).R), false)
    case MovRmR => ExecMovRmR(s)
    case MovRRm => ExecMovRRm(s)
    case MovImm(r) => ExecMovImm(s, r)
    case Nop => s
    case Xchg => ExecXchg(s)
    case Ret => s.(eip := Word(s.mem, s.regs[ESP]))
    case Leave => ExecLeave(s)
    case Call => ExecCall(s)
    case Jmp32 => ExecJmp32(s)
    case Jmp8 => ExecJump8(s, true)
    case Hlt => s.(eip := 0)
    case GroupFF => ExecGroupFF(s)
  }

  // ---------- The run loop ----------

  /** `Stopped`: the loop of `run` is left. `Crashed`: an empty table entry was called. */
  datatype Outcome = Going(core: Core) | Stopped(core: Core) | Crashed

  lemma OpcodeBehind(s: Core)
    ensures OwnOpcode(Skip(s, 1)) == Byte(s.mem, s.eip)
  {
    WrapWrap(s.eip + 1, -1);
  }

  /** `execute_opcode`. */
  function Dispatch(s: Core, opcode: u8): Outcome
    requires OwnOpcode(s) == opcode
  {
    match Table(opcode)
    case None => Crashed
    case Some(h) => Going(Exec(s, h))
  }

  function Step(s: Core): Outcome {
    if s.eip == 0 then Stopped(s)
    else
      var opcode := Byte(s.mem, s.eip);
      OpcodeBehind(s);
      if opcode == 0 then Stopped(Skip(s, 1)) else Dispatch(Skip(s, 1), opcode)
  }

  function Run(s: Core, n: nat): Outcome
    decreases n
  {
    if n == 0 then Going(s)
    else match Step(s)
      case Going(t) => Run(t, n - 1)
      case out => out
  }

  function Init(eip: u32, esp: u32, mem: Memory): Core {
    Core([0, 0, 0, 0, esp, 0, 0, 0], eip, 0, 0, 0, 0, 0, mem)
  }

  lemma {:induction false} RunAppend(s: Core, m: nat, n: nat)
    requires Run(s, m).Going?
    ensures Run(s, m + n) == Run(Run(s, m).core, n)
    decreases m
  {
    hide Step;
    if m > 0 {
      RunAppend(Step(s).core, m - 1, n);
      assert m + n - 1 == (m - 1) + n;
    }
  }
}
