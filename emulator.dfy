/**
 * The emulator as the source has it: sixteen registers and the memory are
 * arrays updated in place. Every method is proved to do what the
 * corresponding function of `Semantics` says to the state it started from.
 */
module Emulator {

  import opened Wrappers
  import opened Encoding
  import opened Semantics

  class Emulator {

    const registers: array<U64>
    const ram: array<Byte>

    ghost predicate Valid() {
      registers.Length == RegisterCount && ram.Length == RamSize
    }

    /** The machine value the arrays hold. */
    function State(): Machine
      reads registers, ram
    {
      Machine(registers[..], ram[..])
    }

    /** The method's outcome `r` is the outcome `s` of the semantics, and on success the arrays hold its machine. */
    ghost predicate Matches(r: Result<(), Fault>, s: Result<Machine, Fault>)
      reads registers, ram
    {
      s == if r.Ok? then Ok(State()) else Err(r.error)
    }

    constructor Init(registers: array<U64>, ram: array<Byte>)
      ensures this.registers == registers && this.ram == ram
    {
      this.registers := registers;
      this.ram := ram;
    }

    /** `Emulator::new`: copy the image to the start of a zeroed memory and point SP at its last byte. */
    static method New(bin: seq<Byte>) returns (r: Result<Emulator, Fault>)
      ensures r.Ok? <==> Load(bin).Ok?
      ensures r.Err? ==> r.error == OutOfBounds
      ensures r.Ok? ==> && fresh(r.value) && fresh(r.value.registers) && fresh(r.value.ram)
                        && r.value.Valid() && r.value.State() == Load(bin).value
    {
      var ram := new Byte[RamSize](_ => 0);
      var i := 0;
      while i < |bin|
        invariant 0 <= i <= |bin| && i <= RamSize
        invariant forall j :: 0 <= j < i ==> ram[j] == bin[j]
        invariant forall j :: i <= j < RamSize ==> ram[j] == 0
      {
        if i >= RamSize {
          return Err(OutOfBounds);
        }
        ram[i] := bin[i];
        i := i + 1;
      }
      var registers := new U64[RegisterCount](_ => 0);
      registers[StackReg] := (RamSize - 1) as U64;
      var e := new Emulator.Init(registers, ram);
      assert ram[..] == bin + Zeros(RamSize - |bin|);
      assert registers[..] == seq(RegisterCount, i => if i == StackReg then (RamSize - 1) as U64 else 0);
      return Ok(e);
    }

    /** The bytes at `at .. at + w - 1`, one index at a time, combined big-endian. */
    method Gather(at: nat, w: Width) returns (r: Result<nat, Fault>)
      requires Valid()
      ensures r.Ok? <==> at + w <= RamSize
      ensures r.Err? ==> r.error == OutOfBounds
      ensures r.Ok? ==> r.value == FromBigEndian(ram[at..at + w])
    {
      var value := 0;
      var k := 0;
      while k < w
        invariant 0 <= k <= w
        invariant k == 0 ==> value == 0
        invariant k > 0 ==> at + k <= RamSize && value == FromBigEndian(ram[at..at + k])
      {
        if at + k >= RamSize {
          return Err(OutOfBounds);
        }
        assert ram[at..at + k + 1][..k] == ram[at..at + k];
        assert k == 0 ==> FromBigEndian(ram[at..at + k]) == 0;
        value := value * 256 + ram[at + k] as nat;
        k := k + 1;
      }
      return Ok(value);
    }

    /** `read_byte` … `read_obyte`. */
    method Read(addr: nat, w: Width) returns (r: Result<U64, Fault>)
      requires Valid()
      ensures r == ReadMem(ram[..], addr, w)
    {
      var value :- Gather(addr, w);
      WidthFits(w);
      assert ram[..][addr..addr + w] == ram[addr..addr + w];
      return Ok(value as U64);
    }

    /** `read_next_byte` … `read_next_obyte`. */
    method ReadNext(w: Width) returns (r: Result<U64, Fault>)
      requires Valid()
      modifies registers
      ensures r.Ok? ==> Fetch(old(State()), w) == Ok(Fetched(r.value, State())) && (r.value as nat) < Pow256(w)
      ensures r.Err? ==> Fetch(old(State()), w) == Err(r.error)
    {
      var pc := registers[CounterReg] as nat;
      var value :- Gather(pc, w);
      WidthFits(w);
      registers[CounterReg] := (pc + w) as U64;
      assert old(ram[..])[pc..pc + w] == ram[pc..pc + w];
      return Ok(value as U64);
    }

    /** `write_byte` … `write_obyte`: the big-endian bytes of the value, one index at a time. */
    method Write(addr: nat, v: U64, w: Width) returns (r: Result<(), Fault>)
      requires Valid()
      modifies ram
      ensures var s := WriteMem(old(ram[..]), addr, v, w);
        && (r.Ok? <==> s.Ok?)
        && (r.Ok? ==> ram[..] == s.value)
        && (r.Err? ==> r.error == s.error)
    {
      var bytes := BigEndian(v as nat, w);
      var k := 0;
      while k < w
        invariant 0 <= k <= w && (k == 0 || addr + k <= RamSize)
        invariant forall j :: 0 <= j < RamSize ==> ram[j] == if addr <= j < addr + k then bytes[j - addr] else old(ram[j])
      {
        if addr + k >= RamSize {
          return Err(OutOfBounds);
        }
        ram[addr + k] := bytes[k];
        k := k + 1;
      }
      assert ram[..] == old(ram[..])[..addr] + bytes + old(ram[..])[addr + w..];
      return Ok(());
    }

    /** `push`: the little-endian bytes of the value go to `sp - w + 1 .. sp`, then SP drops by `w`. */
    method Push(v: U64, w: Width) returns (r: Result<(), Fault>)
      requires Valid()
      modifies registers, ram
      ensures Matches(r, PushStack(old(State()), v, w))
    {
      ghost var m := State();
      var sp := registers[StackReg] as nat;
      if sp < w {
        return Err(Overflow);
      }
      var offset := sp - w + 1;
      var bytes := LittleEndian(v as nat, 8);
      LittleEndianPrefix(v as nat, 8, w);
      r := Store(offset, bytes, w);
      if r.Err? {
        return;
      }
      registers[StackReg] := (sp - w) as U64;
      assert bytes[..w] == LittleEndian(v as nat, w);
      assert registers[..] == m.regs[StackReg := (sp - w) as U64];
    }

    /** The loop of `push`: the first `w` of `bytes` into memory from `offset` on. */
    method Store(offset: nat, bytes: seq<Byte>, w: Width) returns (r: Result<(), Fault>)
      requires Valid() && w <= |bytes|
      modifies ram
      ensures r.Ok? <==> offset + w <= RamSize
      ensures r.Err? ==> r.error == OutOfBounds
      ensures r.Ok? ==> ram[..] == old(ram[..])[..offset] + bytes[..w] + old(ram[..])[offset + w..]
    {
      var i := 0;
      while i < w
        invariant 0 <= i <= w
        invariant i == 0 || offset + i <= RamSize
        invariant forall j :: 0 <= j < RamSize ==> ram[j] == if offset <= j < offset + i then bytes[j - offset] else old(ram[j])
      {
        if offset + i >= RamSize {
          return Err(OutOfBounds);
        }
        ram[offset + i] := bytes[i];
        i := i + 1;
      }
      assert ram[..] == old(ram[..])[..offset] + bytes[..w] + old(ram[..])[offset + w..];
      return Ok(());
    }

    /** `pop`: the bytes at `sp + 1 .. sp + w` into a zeroed 8-byte buffer, read little-endian; SP rises by `w`. */
    method Pop(w: Width) returns (r: Result<U64, Fault>)
      requires Valid()
      modifies registers
      ensures r.Ok? ==> PopStack(old(State()), w) == Ok(Fetched(r.value, State()))
      ensures r.Err? ==> PopStack(old(State()), w) == Err(r.error)
    {
      ghost var m := State();
      var sp := registers[StackReg] as nat;
      assert sp == m.Sp() as nat;
      var read := ReadAbove(sp, w);
      if read.Err? {
        assert PopStack(m, w).Err?;
        return Err(read.error);
      }
      var buffer := read.value;
      PaddedWindow(m.ram, sp + 1, w, buffer);
      PopStackOk(m, w, FromLittleEndian(buffer));
      var value := FromLittleEndian(buffer) as U64;
      registers[StackReg] := (sp + w) as U64;
      assert registers[..] == m.regs[StackReg := (sp + w) as U64];
      assert State() == m.With(StackReg, (sp + w) as U64);
      return Ok(value);
    }

    /** The loop of `pop`: byte `sp + 1 + j` of memory into byte `j` of a zeroed buffer, for `j < w`. */
    method ReadAbove(sp: nat, w: Width) returns (r: Result<seq<Byte>, Fault>)
      requires Valid() && sp < U64Limit
      ensures r.Ok? <==> sp + w < RamSize
      ensures r.Err? ==> r.error == if sp + 1 == U64Limit then Overflow else OutOfBounds
      ensures r.Ok? ==> |r.value| == 8 && forall j :: 0 <= j < 8 ==> r.value[j] == if j < w then ram[sp + 1 + j] else 0
    {
      var buffer: seq<Byte> := Zeros(8);
      var i := 0;
      while i < w
        invariant 0 <= i <= w && |buffer| == 8
        invariant i > 0 ==> sp + i < RamSize
        invariant forall j :: 0 <= j < 8 ==> buffer[j] == if j < i then ram[sp + 1 + j] else 0
      {
        if sp + i + 1 >= U64Limit {
          return Err(Overflow);
        }
        if sp + i + 1 >= RamSize {
          return Err(OutOfBounds);
        }
        buffer := buffer[i := ram[sp + i + 1]];
        i := i + 1;
      }
      return Ok(buffer);
    }

    // -------------------------------------------------------------------
    // Instructions; each starts just after its opcode byte was read

    method ExecMoveRegister() returns (r: Result<(), Fault>)
      requires Valid()
      modifies registers
      ensures Matches(r, Semantics.ExecMoveRegister(old(State())))
    {
      var operand :- ReadNext(1);
      var destination, source := operand as nat / 16, operand as nat % 16;
      registers[destination] := registers[source];
      return Ok(());
    }

    method ExecMoveLiteral() returns (r: Result<(), Fault>)
      requires Valid()
      modifies registers
      ensures Matches(r, Semantics.ExecMoveLiteral(old(State())))
    {
      var tag :- ReadNext(1);
      var register :- ReadNext(1);
      match TagWidth(tag as int)
      case None =>
        return Err(BadTypeTag);
      case Some(w) =>
        var value :- ReadNext(w);
        if register as nat >= RegisterCount {
          return Err(BadRegister);
        }
        registers[register] := value;
        return Ok(());
    }

    method ExecReadAbsolute() returns (r: Result<(), Fault>)
      requires Valid()
      modifies registers
      ensures Matches(r, Semantics.ExecReadAbsolute(old(State())))
    {
      var tag :- ReadNext(1);
      var register :- ReadNext(1);
      var address :- ReadNext(8);
      ghost var n := State();
      match TagWidth(tag as int)
      case None =>
        return Err(BadTypeTag);
      case Some(w) =>
        var value :- Read(address as nat, w);
        if register as nat >= RegisterCount {
          return Err(BadRegister);
        }
        registers[register] := value;
        assert registers[..] == n.regs[register as nat := value];
        return Ok(());
    }

    method ExecReadIndirect() returns (r: Result<(), Fault>)
      requires Valid()
      modifies registers
      ensures Matches(r, Semantics.ExecReadIndirect(old(State())))
    {
      var tag :- ReadNext(1);
      var packed :- ReadNext(1);
      var destination, addressRegister := packed as nat / 16, packed as nat % 16;
      match TagWidth(tag as int)
      case None =>
        return Ok(());
      case Some(w) =>
        var value :- Read(registers[addressRegister] as nat, w);
        registers[destination] := value;
        return Ok(());
    }

    method ExecWriteAbsolute() returns (r: Result<(), Fault>)
      requires Valid()
      modifies registers, ram
      ensures Matches(r, Semantics.ExecWriteAbsolute(old(State())))
    {
      var tag :- ReadNext(1);
      var register :- ReadNext(1);
      var address :- ReadNext(8);
      match TagWidth(tag as int)
      case None =>
        return Ok(());
      case Some(w) =>
        if register as nat >= RegisterCount {
          return Err(BadRegister);
        }
        r := Write(address as nat, registers[register], w);
    }

    method ExecWriteIndirect() returns (r: Result<(), Fault>)
      requires Valid()
      modifies registers, ram
      ensures Matches(r, Semantics.ExecWriteIndirect(old(State())))
    {
      var tag :- ReadNext(1);
      var packed :- ReadNext(1);
      var source, addressRegister := packed as nat / 16, packed as nat % 16;
      match TagWidth(tag as int)
      case None =>
        return Ok(());
      case Some(w) =>
        r := Write(registers[addressRegister] as nat, registers[source], w);
    }

    method ExecPushRegister() returns (r: Result<(), Fault>)
      requires Valid()
      modifies registers, ram
      ensures Matches(r, Semantics.ExecPushRegister(old(State())))
    {
      var tag :- ReadNext(1);
      var register :- ReadNext(1);
      match TagWidth(tag as int)
      case None =>
        return Ok(());
      case Some(w) =>
        if register as nat >= RegisterCount {
          return Err(BadRegister);
        }
        r := Push(registers[register], w);
    }

    method ExecPushLiteral() returns (r: Result<(), Fault>)
      requires Valid()
      modifies registers, ram
      ensures Matches(r, Semantics.ExecPushLiteral(old(State())))
    {
      var tag :- ReadNext(1);
      match TagWidth(tag as int)
      case None =>
        return Ok(());
      case Some(w) =>
        var value :- ReadNext(w);
        r := Push(value, w);
    }

    method ExecPop() returns (r: Result<(), Fault>)
      requires Valid()
      modifies registers
      ensures Matches(r, Semantics.ExecPop(old(State())))
    {
      var tag :- ReadNext(1);
      var register :- ReadNext(1);
      match TagWidth(tag as int)
      case None =>
        return Ok(());
      case Some(w) =>
        var value :- Pop(w);
        if register as nat >= RegisterCount {
          return Err(BadRegister);
        }
        registers[register] := value;
        return Ok(());
    }

    method ExecJump() returns (r: Result<(), Fault>)
      requires Valid()
      modifies registers
      ensures Matches(r, Semantics.ExecJump(old(State())))
    {
      var address :- ReadNext(8);
      registers[CounterReg] := address;
      return Ok(());
    }

    method ExecJumpRegister() returns (r: Result<(), Fault>)
      requires Valid()
      modifies registers
      ensures Matches(r, Semantics.ExecJumpRegister(old(State())))
    {
      var register :- ReadNext(1);
      if register as nat >= RegisterCount {
        return Err(BadRegister);
      }
      registers[CounterReg] := registers[register];
      return Ok(());
    }

    method ExecJumpIf() returns (r: Result<(), Fault>)
      requires Valid()
      modifies registers
      ensures Matches(r, Semantics.ExecJumpIf(old(State())))
    {
      var condition :- ReadNext(1);
      var address :- ReadNext(8);
      if condition == registers[2] {
        registers[CounterReg] := address;
      }
      return Ok(());
    }

    method ExecJumpRegisterIf() returns (r: Result<(), Fault>)
      requires Valid()
      modifies registers
      ensures Matches(r, Semantics.ExecJumpRegisterIf(old(State())))
    {
      var condition :- ReadNext(1);
      var register :- ReadNext(1);
      if condition == registers[2] {
        if register as nat >= RegisterCount {
          return Err(BadRegister);
        }
        registers[CounterReg] := registers[register];
      }
      return Ok(());
    }

    /** Opcode 14, `add`: register 2 := register 0 + register 1, a fault on overflow. */
    method ExecAdd() returns (r: Result<(), Fault>)
      requires Valid()
      modifies registers
      ensures Matches(r, Semantics.ExecAlu(OpAdd, old(State())))
    {
      var sum := registers[0] as int + registers[1] as int;
      if sum >= U64Limit {
        return Err(Overflow);
      }
      registers[2] := sum as U64;
      return Ok(());
    }

    /** Opcode 15, `sub`: register 2 := register 0 - register 1, a fault below zero. */
    method ExecSub() returns (r: Result<(), Fault>)
      requires Valid()
      modifies registers
      ensures Matches(r, Semantics.ExecAlu(OpSub, old(State())))
    {
      var a, b := registers[0], registers[1];
      if a < b {
        return Err(Overflow);
      }
      registers[2] := a - b;
      return Ok(());
    }

    /** Opcode 16, `mul`: register 2 := register 0 * register 1, a fault on overflow. */
    method ExecMul() returns (r: Result<(), Fault>)
      requires Valid()
      modifies registers
      ensures Matches(r, Semantics.ExecAlu(OpMul, old(State())))
    {
      var product := registers[0] as int * registers[1] as int;
      if product >= U64Limit {
        return Err(Overflow);
      }
      registers[2] := product as U64;
      return Ok(());
    }

    /** Opcode 17, `div`: quotient to register 2, remainder to register 3, a fault on a zero divisor. */
    method ExecDiv() returns (r: Result<(), Fault>)
      requires Valid()
      modifies registers
      ensures Matches(r, Semantics.ExecAlu(OpDiv, old(State())))
    {
      var a, b := registers[0], registers[1];
      if b == 0 {
        return Err(DivideByZero);
      }
      registers[2] := a / b;
      registers[3] := a % b;
      return Ok(());
    }

    /** Opcodes 18..23: comparisons and bitwise operations of registers 0 and 1. */
    method ExecLogic(op: Byte) returns (r: Result<(), Fault>)
      requires Valid() && OpEqual <= op <= OpXor
      modifies registers
      ensures Matches(r, Semantics.ExecAlu(op, old(State())))
    {
      var a, b := registers[0], registers[1];
      if op == OpEqual {
        registers[2] := if a == b then 1 else 0;
      } else if op == OpLess {
        registers[2] := if a < b then 1 else 0;
      } else if op == OpNot {
        registers[2] := BitNot(a);
      } else if op == OpAnd {
        registers[2] := BitAnd(a, b);
      } else if op == OpOr {
        registers[2] := BitOr(a, b);
      } else {
        registers[2] := BitXor(a, b);
      }
      return Ok(());
    }

    /** The `match instruction` of `run`. */
    method Execute(code: Byte) returns (r: Result<(), Fault>)
      requires Valid()
      modifies registers, ram
      ensures Matches(r, Semantics.Execute(code, old(State())))
    {
      if code == OpMoveRegister {
        r := ExecMoveRegister();
      } else if code == OpMoveLiteral {
        r := ExecMoveLiteral();
      } else if code == OpReadAbsolute {
        r := ExecReadAbsolute();
      } else if code == OpReadIndirect {
        r := ExecReadIndirect();
      } else if code == OpWriteAbsolute {
        r := ExecWriteAbsolute();
      } else if code == OpWriteIndirect {
        r := ExecWriteIndirect();
      } else if code == OpPushRegister {
        r := ExecPushRegister();
      } else if code == OpPushLiteral {
        r := ExecPushLiteral();
      } else if code == OpPop {
        r := ExecPop();
      } else if code == OpJump {
        r := ExecJump();
      } else if code == OpJumpRegister {
        r := ExecJumpRegister();
      } else if code == OpJumpIf {
        r := ExecJumpIf();
      } else if code == OpJumpRegisterIf {
        r := ExecJumpRegisterIf();
      } else if code == OpAdd {
        r := ExecAdd();
      } else if code == OpSub {
        r := ExecSub();
      } else if code == OpMul {
        r := ExecMul();
      } else if code == OpDiv {
        r := ExecDiv();
      } else if OpEqual <= code <= OpXor {
        r := ExecLogic(code);
      } else {
        r := Ok(());
      }
    }

    /** One pass of `run`'s loop body, before the stop test. */
    method Step() returns (r: Result<(), Fault>)
      requires Valid()
      modifies registers, ram
      ensures Matches(r, Semantics.Step(old(State())))
    {
      var op :- ReadNext(1);
      r := Execute(op as Byte);
    }

    /** `run`, for at most `fuel` cycles: it stops after the first cycle that leaves PC above 50. */
    method Run(fuel: nat) returns (r: Result<Stop, Fault>)
      requires Valid()
      modifies registers, ram
      ensures var s := Semantics.Run(old(State()), fuel);
        && (r.Ok? <==> s.Ok?)
        && (r.Ok? ==> r.value == s.value.0 && State() == s.value.1)
        && (r.Err? ==> r.error == s.error)
    {
      var i := 0;
      while i < fuel
        invariant 0 <= i <= fuel && Valid()
        invariant Loop(Cycle, old(State()), i) == Ok((OutOfFuel, State()))
      {
        ghost var before := State();
        var cycle := Step();
        if cycle.Err? {
          RunFaultsAfter(old(State()), before, i, fuel, cycle.error);
          return Err(cycle.error);
        }
        ghost var next := State();
        assert next.Pc() == registers[CounterReg];
        if registers[CounterReg] as nat > HaltAbove {
          RunHaltsAfter(old(State()), before, next, i, fuel);
          return Ok(Halted);
        }
        LoopGrow(Cycle, old(State()), before, next, i);
        i := i + 1;
      }
      return Ok(OutOfFuel);
    }
  }

  /** What `PopStack` gives when the `w` bytes above the stack pointer are in memory. */
  lemma PopStackOk(m: Machine, w: Width, v: nat)
    requires m.Valid() && m.Sp() as nat + w < RamSize
    requires v == FromLittleEndian(m.ram[m.Sp() as nat + 1..m.Sp() as nat + 1 + w])
    ensures v < U64Limit
    ensures PopStack(m, w) == Ok(Fetched(v as U64, m.With(StackReg, (m.Sp() as nat + w) as U64)))
  {
    assert PopStack(m, w).Ok? && PopStack(m, w).value.value as nat == v;
  }

  /** A buffer holding `w` bytes of `ram` from `at`, then zeros, has the little-endian value of those bytes. */
  lemma PaddedWindow(ram: seq<Byte>, at: nat, w: nat, buffer: seq<Byte>)
    requires at + w <= |ram| && w <= |buffer|
    requires forall j :: 0 <= j < |buffer| ==> buffer[j] == if j < w then ram[at + j] else 0
    ensures FromLittleEndian(buffer) == FromLittleEndian(ram[at..at + w])
  {
    var window := ram[at..at + w];
    assert buffer == window + Zeros(|buffer| - w);
    FromLittleEndianZeroPadded(window, |buffer| - w);
  }
}
