/** The simulated x86 core as the object its methods update, proved against `CoreSpec`. */
module CpuCore {
  import opened Words
  import opened CoreSpec

  class CPUCORE {
    const registers: array<u32>
    var eflags: bv32
    var eip: u32
    var modrm: u8
    var mod: int
    var R: Reg
    var M: Reg
    var memory: Memory // what the bus gives back and takes

    ghost predicate Valid()
      reads this
    {
      registers.Length == 8
    }

    ghost function State(): Core
      reads this, registers
      requires Valid()
    {
      Core(registers[..], eip, eflags, modrm, mod, R, M, memory)
    }

    constructor (mem: Memory)
      ensures Valid() && fresh(registers) && memory == mem
    {
      registers := new u32[8](_ => 0);
      eflags, eip, modrm, mod, R, M := 0, 0, 0, 0, 0, 0;
      memory := mem;
    }

    method Init(eip: u32, esp: u32)
      requires Valid()
      modifies this, registers
      ensures Valid()
      ensures State() == CoreSpec.Init(eip, esp, old(memory))
      ensures forall r: Reg :: registers[r] == if r == ESP then esp else 0
      ensures eflags == 0 && this.eip == eip && modrm == 0 && mod == 0 && R == 0 && M == 0 && memory == old(memory)
    {
      var i := 0;
      while i < 8
        invariant 0 <= i <= 8 && Valid()
        modifies registers
        invariant forall j | 0 <= j < i :: registers[j] == 0
      {
        registers[i] := 0;
        i := i + 1;
      }
      registers[ESP] := esp;
      eflags := 0;
      this.eip := eip;
      modrm, mod, R, M := 0, 0, 0, 0;
      assert registers[..] == [0, 0, 0, 0, esp, 0, 0, 0];
    }

    /** The masks and shifts of `calc_modrm` cut the byte into its three fields. */
    method CalcModrm()
      requires Valid()
      modifies this`mod, this`R, this`M
      ensures mod == modrm / 64 && R == modrm / 8 % 8 && M == modrm % 8
    {
      var top, mid, low, bits := 0xc0, 0x38, 0x07, 8;
      ModField(modrm, top, bits);
      RField(modrm, mid, bits);
      MaskThree(modrm, low, bits);
      mod := Bits(And, modrm, top, bits) / 64;
      R := Bits(And, modrm, mid, bits) / 8;
      M := Bits(And, modrm, low, bits);
    }

    method ReadModrm()
      requires Valid()
      modifies this`modrm, this`mod, this`R, this`M
      ensures Valid() && State() == Decode(old(State()))
    {
      modrm := Byte(memory, eip);
      CalcModrm();
    }

    /** eip += n */
    method Advance(n: int)
      requires Valid()
      modifies this`eip
      ensures State() == Skip(old(State()), n)
    {
      eip := Plus(eip, n);
    }

    method SetRegister(r: Reg, v: u32)
      requires Valid()
      modifies registers
      ensures State() == Set(old(State()), r, v)
    {
      registers[r] := v;
    }

    // ---------- Templates ----------

    /** Advancing eip around the arithmetic is advancing it once, afterwards. */
    lemma AroundMemory(d: Core, op: Alu, addr: u32, n: int)
      ensures Skip(IntoMemory(Skip(d, 1), op, addr), n) == Skip(IntoMemory(d, op, addr), n + 1)
      ensures IntoMemory(Skip(d, 1), op, addr) == Skip(IntoMemory(d, op, addr), 1)
    {
      hide ReadU32, WriteU32, Result, SetFlag, Plus;
      PlusPlus(d.eip, 1, n);
    }

    lemma AroundRegister(d: Core, op: Alu, r: Reg, y: u32, n: int)
      ensures Skip(IntoRegister(Skip(d, 1), op, r, y), n) == Skip(IntoRegister(d, op, r, y), n + 1)
      ensures IntoRegister(Skip(d, 1), op, r, y) == Skip(IntoRegister(d, op, r, y), 1)
    {
      hide Result, SetFlag, Plus;
      PlusPlus(d.eip, 1, n);
    }

    /** The memory operand, computed with eip on the displacement. */
    lemma OperandValue(d: Core)
      ensures Operand(d) == if d.mod == 1 then Plus(d.regs[d.M], Byte(d.mem, Plus(d.eip, 1)))
                            else if d.mod == 2 then Plus(d.regs[d.M], SwapEndian32(ReadU32(d.mem, Plus(d.eip, 1))))
                            else d.regs[d.M]
    {
      WrapWrap(d.eip + 1, 0);
    }

    lemma ModRange(s: Core)
      ensures 0 <= Decode(s).mod < 4
    {
    }

    method TemplateRm32R32(op: Alu)
      requires Valid()
      modifies this, registers
      ensures Valid()
      ensures State() == ExecRmR(old(State()), op)
    {
      hide SwapEndian32, ReadU32, Byte, IntoMemory, IntoRegister, Operand, Decode, Plus;
      ReadModrm();
      ghost var d := State();
      OperandValue(d);
      ModRange(old(State()));
      if mod == 0 {
        Advance(1);
        var addr := registers[M];
        CalcRm32R32Case0to2(addr, ReadU32(memory, addr), op);
        AroundMemory(d, op, addr, 0);
      } else if mod == 1 {
        Advance(1);
        var imm8 := Byte(memory, eip);
        var addr := Plus(registers[M], imm8);
        CalcRm32R32Case0to2(addr, ReadU32(memory, addr), op);
        Advance(1);
        AroundMemory(d, op, addr, 1);
      } else if mod == 2 {
        Advance(1);
        var imm32 := SwapEndian32(ReadU32(memory, eip));
        var addr := Plus(registers[M], imm32);
        CalcRm32R32Case0to2(addr, ReadU32(memory, addr), op);
        Advance(4);
        AroundMemory(d, op, addr, 4);
      } else {
        Advance(1);
        var y := registers[R];
        CalcR32Rm32(M, y, op);
        AroundRegister(d, op, d.M, y, 0);
      }
    }

    method CalcRm32R32Case0to2(addr: u32, dst: u32, op: Alu)
      requires Valid() && dst == ReadU32(memory, addr)
      modifies this`memory, this`eflags
      ensures Valid() && State() == IntoMemory(old(State()), op, addr)
    {
      hide ReadU32, WriteU32, Result, SetFlag, GetFlag;
      if op == CMP {
        eflags := SetFlag(eflags, Minus(dst, registers[R]) == 0, ZF);
      } else {
        memory := WriteU32(memory, addr, Result(op, dst, registers[R], GetFlag(eflags, CF)));
      }
    }

    method TemplateR32Rm32(op: Alu)
      requires Valid()
      modifies this, registers
      ensures Valid()
      ensures State() == ExecRRm(old(State()), op)
    {
      hide SwapEndian32, ReadU32, Byte, IntoRegister, Operand, Decode, Plus;
      ReadModrm();
      ghost var d := State();
      OperandValue(d);
      ModRange(old(State()));
      if mod == 0 {
        Advance(1);
        var src := ReadU32(memory, registers[M]);
        CalcR32Rm32(R, src, op);
        AroundRegister(d, op, d.R, src, 0);
      } else if mod == 1 {
        Advance(1);
        var imm8 := Byte(memory, eip);
        var src := ReadU32(memory, Plus(registers[M], imm8));
        CalcR32Rm32(R, src, op);
        Advance(1);
        AroundRegister(d, op, d.R, src, 1);
      } else if mod == 2 {
        Advance(1);
        var imm32 := SwapEndian32(ReadU32(memory, eip));
        var src := ReadU32(memory, Plus(registers[M], imm32));
        CalcR32Rm32(R, src, op);
        Advance(4);
        AroundRegister(d, op, d.R, src, 4);
      } else {
        Advance(1);
        var src := registers[M];
        CalcR32Rm32(R, src, op);
        AroundRegister(d, op, d.R, src, 0);
      }
    }

    /** The destination is always a register; CMP negates a pointer, which is not null. */
    method CalcR32Rm32(dst: Reg, src: u32, op: Alu)
      requires Valid()
      modifies registers, this`eflags
      ensures State() == IntoRegister(old(State()), op, dst, src)
    {
      if op == CMP {
        eflags := SetFlag(eflags, false, ZF);
      } else {
        registers[dst] := Result(op, registers[dst], src, GetFlag(eflags, CF));
      }
    }

    method TemplateEaxImm32(op: Alu)
      requires Valid()
      modifies this, registers
      ensures Valid()
      ensures State() == ExecEaxImm(old(State()), op)
    {
      Advance(1);
      var imm := SwapEndian32(ReadU32(memory, eip));
      Immediate(EAX, imm, op);
    }

    method Immediate(r: Reg, imm: u32, op: Alu)
      requires Valid()
      modifies registers, this`eflags
      ensures State() == WithImmediate(old(State()), op, r, imm)
    {
      if op == CMP {
        eflags := SetFlag(eflags, Minus(registers[r], imm) == 0, ZF);
      } else {
        registers[r] := Result(op, registers[r], imm, GetFlag(eflags, CF));
      }
    }

    /** `opcode_81` and `opcode_83`. */
    method Group(wide: bool)
      requires Valid()
      modifies this, registers
      ensures Valid()
      ensures State() == Exec(old(State()), if wide then Group81 else Group83)
    {
      ReadModrm();
      Rm32Imm(GroupOp(R), wide);
    }

    method Rm32Imm(op: Alu, wide: bool)
      requires Valid()
      modifies this, registers
      ensures Valid()
      ensures State() == GroupImmediate(old(State()), op, wide)
    {
      Advance(1);
      if wide {
        Immediate(M, SwapEndian32(ReadU32(memory, eip)), op);
      } else {
        Immediate(M, Byte(memory, eip), op);
      }
      Advance(1);
    }

    // ---------- Stack ----------

    method Push(r: Reg)
      requires Valid()
      modifies registers, this`memory
      ensures State() == ExecPush(old(State()), r)
    {
      hide SwapEndian32, ReadU32, WriteU32, Plus, Byte;
      SetRegister(ESP, Plus(registers[ESP], -4));
      memory := WriteU32(memory, registers[ESP], registers[r]);
    }

    method Pop(r: Reg)
      requires Valid()
      modifies registers
      ensures State() == ExecPop(old(State()), r)
    {
      hide SwapEndian32, ReadU32, WriteU32, Plus, Byte;
      SetRegister(r, ReadU32(memory, registers[ESP]));
      SetRegister(r, SwapEndian32(registers[r]));
      SetRegister(ESP, Plus(registers[ESP], 4));
    }
  
    method PushImm32()
      requires Valid()
      modifies this, registers
      ensures Valid() && State() == ExecPushImm32(old(State()))
    {
      hide SwapEndian32, ReadU32, WriteU32, Plus, Byte;
      var imm32 := SwapEndian32(ReadU32(memory, eip));
      SetRegister(ESP, Plus(registers[ESP], -4));
      memory := WriteU32(memory, registers[ESP], imm32);
      Advance(4);
    }

    method PushImm8()
      requires Valid()
      modifies this, registers
      ensures Valid() && State() == ExecPushImm8(old(State()))
    {
      hide SwapEndian32, ReadU32, WriteU32, Plus, Byte;
      var imm8 := Byte(memory, eip);
      SetRegister(ESP, Plus(registers[ESP], -4));
      memory := WriteU8(memory, registers[ESP], imm8);
      Advance(1);
    }

    method Leave()
      requires Valid()
      modifies registers
      ensures State() == ExecLeave(old(State()))
    {
      SetRegister(ESP, registers[EBP]);
      Pop(EBP);
    }

    // ---------- Control ----------

    /** `je_imm8`, `jne_imm8` and `jmp_imm8`, with their condition. */
    method JumpImm8(taken: bool)
      requires Valid()
      modifies this`eip
      ensures State() == ExecJump8(old(State()), taken)
    {
      hide SwapEndian32, ReadU32, WriteU32, Plus, Byte;
      var imm8 := Signed8(Byte(memory, eip));
      ghost var before := eip;
      if taken {
        Advance(imm8);
        PlusPlus(before, imm8, 1);
      }
      Advance(1);
    }

    method JmpImm32()
      requires Valid()
      modifies this`eip
      ensures State() == ExecJmp32(old(State()))
    {
      hide SwapEndian32, ReadU32, WriteU32, Plus, Byte;
      var imm32 := SwapEndian32(ReadU32(memory, eip));
      PlusPlus(eip, imm32, 1);
      Advance(imm32);
      Advance(1);
    }

    method CallImm32()
      requires Valid()
      modifies this, registers
      ensures Valid() && State() == ExecCall(old(State()))
    {
      hide SwapEndian32, ReadU32, WriteU32, Plus, Byte;
      var imm32 := SwapEndian32(ReadU32(memory, eip));
      SetRegister(ESP, Plus(registers[ESP], -4));
      memory := WriteU32(memory, registers[ESP], eip);
      PlusPlus(eip, imm32, 1);
      Advance(imm32);
      Advance(1);
    }

    method Ret()
      requires Valid()
      modifies this`eip
      ensures State() == Exec(old(State()), CoreSpec.Ret)
    {
      hide SwapEndian32, ReadU32, WriteU32, Plus, Byte;
      eip := ReadU32(memory, registers[ESP]);
      eip := SwapEndian32(eip);
    }

    // ---------- Moves ----------

    method MovRm32R32()
      requires Valid()
      modifies this, registers
      ensures Valid() && State() == ExecMovRmR(old(State()))
    {
      hide SwapEndian32, ReadU32, WriteU32, Byte, Operand, Decode, Plus;
      ReadModrm();
      ghost var d := State();
      OperandValue(d);
      ModRange(old(State()));
      forall n ensures Plus(Plus(d.eip, 1), n) == Plus(d.eip, n + 1) { PlusPlus(d.eip, 1, n); }
      if mod == 0 {
        Advance(1);
        memory := WriteU32(memory, registers[M], registers[R]);
      } else if mod == 1 {
        Advance(1);
        var imm8 := Byte(memory, eip);
        memory := WriteU32(memory, Plus(registers[M], imm8), registers[R]);
        Advance(1);
      } else if mod == 2 {
        Advance(1);
        memory := WriteU32(memory, registers[M], registers[R]);
        Advance(4);
      } else {
        Advance(1);
        SetRegister(M, registers[R]);
      }
    }

    method MovR32Rm32()
      requires Valid()
      modifies this, registers
      ensures Valid() && State() == ExecMovRRm(old(State()))
    {
      hide SwapEndian32, ReadU32, WriteU32, Byte, Operand, Decode, Plus;
      ReadModrm();
      ghost var d := State();
      OperandValue(d);
      ModRange(old(State()));
      forall n ensures Plus(Plus(d.eip, 1), n) == Plus(d.eip, n + 1) { PlusPlus(d.eip, 1, n); }
      if mod == 0 {
        Advance(1);
        SetRegister(R, ReadU32(memory, registers[M]));
      } else if mod == 1 {
        Advance(1);
        var imm8 := Byte(memory, eip);
        SetRegister(R, ReadU32(memory, Plus(registers[M], imm8)));
        Advance(1);
      } else if mod == 2 {
        Advance(1);
        var imm32 := SwapEndian32(ReadU32(memory, eip));
        SetRegister(R, ReadU32(memory, Plus(registers[M], imm32)));
        Advance(4);
      } else {
        Advance(1);
        SetRegister(R, registers[M]);
      }
    }

    method MovImm32(r: Reg)
      requires Valid()
      modifies this, registers
      ensures Valid() && State() == ExecMovImm(old(State()), r)
    {
      hide SwapEndian32, ReadU32, WriteU32, Plus, Byte;
      SetRegister(r, SwapEndian32(ReadU32(memory, eip)));
      Advance(4);
    }

    /** Swaps by three exclusive-ors, with an index taken from the opcode it reads again. */
    method XchgEaxR32()
      requires Valid() && Fetched(State(), Xchg)
      modifies registers
      ensures State() == ExecXchg(old(State()))
    {
      var r := Byte(memory, eip - 1) - 0x90;
      registers[EAX] := Logic32(Xor, registers[EAX], registers[r]);
      registers[r] := Logic32(Xor, registers[r], registers[EAX]);
      registers[EAX] := Logic32(Xor, registers[EAX], registers[r]);
    }

    // ---------- Dispatch ----------

    /** Calls a handler; group FF calls it once more, with an inc or a dec. */
    method Execute(h: Handler)
      requires Valid() && Fetched(State(), h)
      modifies this, registers
      ensures Valid() && State() == Exec(old(State()), h)
      decreases if h.GroupFF? then 1 else 0
    {
      hide ExecRmR, ExecRRm, ExecEaxImm, GroupImmediate, ExecGroupFF, Decode, Plus, Byte, OwnOpcode, GroupOp, Table;
      match h
      case RmR(op) => TemplateRm32R32(op);
      case RRm(op) => TemplateR32Rm32(op);
      case EaxImm(op) => TemplateEaxImm32(op);
      case Inc(r) => SetRegister(r, Plus(registers[r], 1));
      case Dec(r) => SetRegister(r, Plus(registers[r], -1));
      case Group81 => Group(true);
      case Group83 => Group(false);
      case GroupFF => OpcodeFF();
      case _ => ExecuteOther(h);
    }

    /** The handlers that do no arithmetic. */
    method ExecuteOther(h: Handler)
      requires Valid() && Fetched(State(), h)
      requires !h.RmR? && !h.RRm? && !h.EaxImm? && !h.Inc? && !h.Dec? && !h.Group81? && !h.Group83? && !h.GroupFF?
      modifies this, registers
      ensures Valid() && State() == Exec(old(State()), h)
    {
      hide ExecPush, ExecPop, ExecPushImm32, ExecPushImm8, ExecJump8, ExecMovRmR, ExecMovRRm, ExecMovImm, ExecXchg,
           ExecLeave, ExecCall, ExecJmp32, Word, OwnOpcode, Table;
      match h
      case Push(r) => Push(r);
      case Pop(r) => Pop(r);
      case PushImm32 => PushImm32();
      case PushImm8 => PushImm8();
      case Je => JumpImm8(GetFlag(eflags, ZF) != 0);
      case Jne => JumpImm8(GetFlag(eflags, ZF) == 0);
      case MovRmR => MovRm32R32();
      case MovRRm => MovR32Rm32();
      case MovImm(r) => MovImm32(r);
      case Nop =>
      case Xchg => XchgEaxR32();
      case Ret => Ret();
      case Leave => Leave();
      case Call => CallImm32();
      case Jmp32 => JmpImm32();
      case Jmp8 => JumpImm8(true);
      case Hlt => eip := 0;
    }

    method OpcodeFF()
      requires Valid()
      modifies this, registers
      ensures Valid() && State() == ExecGroupFF(old(State()))
      decreases 1, 0
    {
      ReadModrm();
      if R == 0 {
        Execute(Table(0x40 + M).value);
        Advance(1);
      } else if R == 1 {
        Execute(Table(0x48 + M).value);
        Advance(1);
      }
    }

    /** `run`, for at most `fuel` instructions; `more` says that the loop was not left. */
    method Run(fuel: nat) returns (more: bool, crashed: bool)
      requires Valid()
      modifies this, registers
      ensures Valid()
      ensures crashed <==> CoreSpec.Run(old(State()), fuel) == Crashed
      ensures !crashed ==>
        CoreSpec.Run(old(State()), fuel) == if more then Going(State()) else Stopped(State())
    {
      hide Byte, Exec, Decode;
      more, crashed := true, false;
      var left := fuel;
      while more && left > 0 && eip != 0
        invariant Valid() && 0 <= left
        invariant crashed ==> CoreSpec.Run(old(State()), fuel) == Crashed
        invariant !crashed && more ==> CoreSpec.Run(old(State()), fuel) == CoreSpec.Run(State(), left)
        invariant !crashed && !more ==> CoreSpec.Run(old(State()), fuel) == Stopped(State())
        invariant crashed ==> !more
        decreases if more then left else 0
      {
        ghost var s := State();
        OpcodeBehind(s);
        var opcode := Byte(memory, eip);
        Advance(1);
        if opcode == 0 {
          more := false;
        } else if Table(opcode).None? {
          more, crashed := false, true;
        } else {
          Execute(Table(opcode).value);
          left := left - 1;
        }
      }
      if more && left > 0 { more := false; }
    }
  }
}
