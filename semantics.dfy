/**
 * The emulator's behaviour as functions over a machine value: sixteen
 * 64-bit registers (14 is the program counter, 15 the stack pointer) and
 * a 320,000-byte memory. Each function follows the order in which the
 * emulator reads operands and touches state, so that the first fault it
 * meets is the one the emulator would panic with. `+`, `-` and `*` on
 * registers fault on overflow, as in a debug build.
 */
module Semantics {

  import opened Wrappers
  import opened Encoding

  const RamSize: nat := 320000
  const RegisterCount: nat := 16
  const CounterReg: nat := 14
  const StackReg: nat := 15
  /** `run` stops after the first instruction that leaves the program counter above this. */
  const HaltAbove: nat := 50
  const MaxU64: U64 := 0xFFFF_FFFF_FFFF_FFFF

  /** Why the emulator panics. */
  datatype Fault =
    | OutOfBounds    // a memory index at or past RamSize
    | BadRegister    // a register index of 16 or more
    | BadTypeTag     // a type tag above 3 where the emulator hits `unreachable!()`
    | DivideByZero
    | Overflow       // u64 arithmetic overflow

  datatype Machine = Machine(regs: seq<U64>, ram: seq<Byte>) {

    ghost predicate Valid() {
      |regs| == RegisterCount && |ram| == RamSize
    }

    function Pc(): U64
      requires Valid()
    {
      regs[CounterReg]
    }

    function Sp(): U64
      requires Valid()
    {
      regs[StackReg]
    }

    /** The same machine with register `i` set to `v`. */
    function With(i: nat, v: U64): (r: Machine)
      requires Valid() && i < RegisterCount
      ensures r.Valid() && r.ram == ram && r.regs[i] == v
    {
      this.(regs := regs[i := v])
    }
  }

  /** An operand read from memory and the machine after reading it. */
  datatype Fetched = Fetched(value: U64, next: Machine)

  lemma WidthFits(w: Width)
    ensures Pow256(w) <= U64Limit
  {
    Pow256Of8();
    assert Pow256(4) == 0x1_0000_0000;
  }

  // ---------------------------------------------------------------------
  // Memory, operand fetch and the stack

  /** `read_next_*`: the value of width `w` at the program counter, which then moves past it. */
  function Fetch(m: Machine, w: Width): (r: Result<Fetched, Fault>)
    requires m.Valid()
    ensures r.Ok? <==> m.Pc() as nat + w <= RamSize
    ensures r.Err? ==> r.error == OutOfBounds
    ensures r.Ok? ==> r.value.next.Valid()
  {
    var pc := m.regs[CounterReg] as nat;
    if pc + w <= RamSize then
      WidthFits(w);
      Ok(Fetched(FromBigEndian(m.ram[pc..pc + w]) as U64, m.With(CounterReg, (pc + w) as U64)))
    else
      Err(OutOfBounds)
  }

  /** `read_byte` … `read_obyte`: the value of width `w` at `addr`. */
  function ReadMem(ram: seq<Byte>, addr: nat, w: Width): (r: Result<U64, Fault>)
    ensures r.Ok? <==> addr + w <= |ram|
    ensures r.Err? ==> r.error == OutOfBounds
  {
    if addr + w <= |ram| then
      WidthFits(w);
      Ok(FromBigEndian(ram[addr..addr + w]) as U64)
    else
      Err(OutOfBounds)
  }

  /** `write_byte` … `write_obyte`: store the low `w` bytes of `v` at `addr`. */
  function WriteMem(ram: seq<Byte>, addr: nat, v: U64, w: Width): (r: Result<seq<Byte>, Fault>)
    ensures r.Ok? <==> addr + w <= |ram|
    ensures r.Err? ==> r.error == OutOfBounds
    ensures r.Ok? ==> |r.value| == |ram|
  {
    if addr + w <= |ram| then Ok(ram[..addr] + BigEndian(v as nat, w) + ram[addr + w..])
    else Err(OutOfBounds)
  }

  /** `push`: store the low `w` bytes of `v` just below the stack pointer's old position, then lower it. */
  function PushStack(m: Machine, v: U64, w: Width): (r: Result<Machine, Fault>)
    requires m.Valid()
    ensures r.Err? <==> m.Sp() as nat < w || m.Sp() as nat >= RamSize
    ensures r.Err? ==> r.error == (if m.Sp() as nat < w then Overflow else OutOfBounds)
    ensures r.Ok? ==> r.value.Valid()
  {
    var sp := m.regs[StackReg] as nat;
    if sp < w then Err(Overflow)
    else if sp >= RamSize then Err(OutOfBounds)
    else Ok(Machine(m.regs[StackReg := (sp - w) as U64], m.ram[..sp - w + 1] + LittleEndian(v as nat, w) + m.ram[sp + 1..]))
  }

  /** `pop`: the `w` bytes just above the stack pointer, zero-extended, then raise it. */
  function PopStack(m: Machine, w: Width): (r: Result<Fetched, Fault>)
    requires m.Valid()
    ensures r.Err? <==> m.Sp() as nat + w >= RamSize
    ensures r.Err? ==> r.error == (if m.Sp() == MaxU64 then Overflow else OutOfBounds)
    ensures r.Ok? ==> r.value.next.Valid()
  {
    var sp := m.regs[StackReg] as nat;
    if sp + 1 >= U64Limit then Err(Overflow)
    else if sp + w >= RamSize then Err(OutOfBounds)
    else
      WidthFits(w);
      Ok(Fetched(FromLittleEndian(m.ram[sp + 1..sp + 1 + w]) as U64, m.With(StackReg, (sp + w) as U64)))
  }

  /** Reading register `i`: an index of 16 or more is out of bounds. */
  function Reg(m: Machine, i: nat): (r: Result<U64, Fault>)
    requires m.Valid()
    ensures r.Ok? <==> i < RegisterCount
    ensures r.Ok? ==> r.value == m.regs[i]
    ensures r.Err? ==> r.error == BadRegister
  {
    if i < RegisterCount then Ok(m.regs[i]) else Err(BadRegister)
  }

  /** Writing register `i`: an index of 16 or more is out of bounds. */
  function SetReg(m: Machine, i: nat, v: U64): (r: Result<Machine, Fault>)
    requires m.Valid()
    ensures r.Ok? <==> i < RegisterCount
    ensures r.Ok? ==> r.value == m.With(i, v)
    ensures r.Err? ==> r.error == BadRegister
  {
    if i < RegisterCount then Ok(m.With(i, v)) else Err(BadRegister)
  }

  // ---------------------------------------------------------------------
  // What the helpers above do

  /** Each `read_next_*` returns the big-endian value at the program counter and moves it on by exactly `w`. */
  lemma FetchReads(m: Machine, w: Width)
    requires m.Valid() && Fetch(m, w).Ok?
    ensures var pc, f := m.Pc() as nat, Fetch(m, w).value;
      && BigEndian(f.value as nat, w) == m.ram[pc..pc + w]
      && f.next.Pc() as nat == pc + w
      && f.next.ram == m.ram
      && forall i :: 0 <= i < RegisterCount && i != CounterReg ==> f.next.regs[i] == m.regs[i]
  {
    var pc := m.Pc() as nat;
    var bytes := m.ram[pc..pc + w];
    var f := Fetch(m, w).value;
    assert f.next == m.With(CounterReg, (pc + w) as U64);
    assert f.value as nat == FromBigEndian(bytes);
    FromBigEndianRoundTrip(bytes);
    assert |bytes| == w;
  }

  /** `read_*` decodes the `w` bytes at the address big-endian. */
  lemma ReadMemReads(ram: seq<Byte>, addr: nat, w: Width)
    requires ReadMem(ram, addr, w).Ok?
    ensures ReadMem(ram, addr, w).value as nat < Pow256(w)
    ensures BigEndian(ReadMem(ram, addr, w).value as nat, w) == ram[addr..addr + w]
  {
    FromBigEndianRoundTrip(ram[addr..addr + w]);
  }

  /** `write_*` stores big-endian in exactly the `w` bytes at the address. */
  lemma WriteMemWrites(ram: seq<Byte>, addr: nat, v: U64, w: Width)
    requires WriteMem(ram, addr, v, w).Ok?
    ensures var after := WriteMem(ram, addr, v, w).value;
      && after[addr..addr + w] == BigEndian(v as nat, w)
      && forall i :: 0 <= i < |ram| && !(addr <= i < addr + w) ==> after[i] == ram[i]
  {
  }

  /** Writing width `w` and reading it back at the same address gives the value reduced to `w` bytes. */
  lemma WriteThenRead(ram: seq<Byte>, addr: nat, v: U64, w: Width)
    requires addr + w <= |ram|
    ensures var after := WriteMem(ram, addr, v, w).value;
      ReadMem(after, addr, w).Ok? && ReadMem(after, addr, w).value as nat == v as nat % Pow256(w)
  {
    var after := WriteMem(ram, addr, v, w).value;
    WriteMemWrites(ram, addr, v, w);
    BigEndianRoundTrip(v as nat, w);
  }

  /** A write leaves a read of a window it does not overlap unchanged. */
  lemma WriteThenReadElsewhere(ram: seq<Byte>, addr: nat, v: U64, w: Width, other: nat, u: Width)
    requires addr + w <= |ram| && (other + u <= addr || addr + w <= other)
    ensures ReadMem(WriteMem(ram, addr, v, w).value, other, u) == ReadMem(ram, other, u)
  {
    var after := WriteMem(ram, addr, v, w).value;
    WriteMemWrites(ram, addr, v, w);
    if other + u <= |ram| {
      assert after[other..other + u] == ram[other..other + u];
    }
  }

  /** `push` puts the low `w` bytes of `v` little-endian at `sp - w + 1 .. sp` and lowers SP by `w`. */
  lemma PushStackWrites(m: Machine, v: U64, w: Width)
    requires m.Valid() && PushStack(m, v, w).Ok?
    ensures var sp, after := m.Sp() as nat, PushStack(m, v, w).value;
      && after.regs == m.regs[StackReg := (sp - w) as U64]
      && after.ram[sp - w + 1..sp + 1] == LittleEndian(v as nat, w)
      && forall i :: 0 <= i < RamSize && !(sp - w < i <= sp) ==> after.ram[i] == m.ram[i]
  {
  }

  /** `pop` decodes the `w` bytes at `sp + 1 .. sp + w` little-endian and raises SP by `w`. */
  lemma PopStackReads(m: Machine, w: Width)
    requires m.Valid() && PopStack(m, w).Ok?
    ensures var sp, p := m.Sp() as nat, PopStack(m, w).value;
      && p.next == m.With(StackReg, (sp + w) as U64)
      && (p.value as nat) < Pow256(w)
      && LittleEndian(p.value as nat, w) == m.ram[sp + 1..sp + 1 + w]
  {
    var sp := m.Sp() as nat;
    FromLittleEndianRoundTrip(m.ram[sp + 1..sp + 1 + w]);
  }

  /** A value below `256^w` with the same low `w` bytes as `v` is `v` reduced modulo `256^w`. */
  lemma SameLittleEndian(a: nat, v: nat, w: nat)
    requires a < Pow256(w) && LittleEndian(a, w) == LittleEndian(v, w)
    ensures a == v % Pow256(w)
  {
    LittleEndianRoundTrip(v, w);
    LittleEndianRoundTrip(a, w);
    ModUnique(a, Pow256(w), 0, a);
  }

  /**
   * Popping right after pushing returns the value reduced to `w` bytes and
   * restores every register; memory differs only in the pushed window.
   */
  lemma PushThenPop(m: Machine, v: U64, w: Width)
    requires m.Valid() && PushStack(m, v, w).Ok?
    ensures var p := PopStack(PushStack(m, v, w).value, w);
      && p.Ok?
      && p.value.value as nat == v as nat % Pow256(w)
      && p.value.next.regs == m.regs
      && forall i :: 0 <= i < RamSize && !(m.Sp() as nat - w < i <= m.Sp() as nat) ==> p.value.next.ram[i] == m.ram[i]
  {
    PushStackWrites(m, v, w);
    PopAfterPush(m, PushStack(m, v, w).value, v, w);
  }

  /** `PushThenPop` on any machine `pushed` that holds what `push` leaves. */
  lemma PopAfterPush(m: Machine, pushed: Machine, v: U64, w: Width)
    requires m.Valid() && pushed.Valid() && w <= m.Sp() as nat < RamSize
    requires pushed.regs == m.regs[StackReg := (m.Sp() as nat - w) as U64]
    requires pushed.ram[m.Sp() as nat - w + 1..m.Sp() as nat + 1] == LittleEndian(v as nat, w)
    ensures var p := PopStack(pushed, w);
      && p.Ok?
      && p.value.value as nat == v as nat % Pow256(w)
      && p.value.next.regs == m.regs
      && p.value.next.ram == pushed.ram
  {
    var sp := m.Sp() as nat;
    assert pushed.Sp() as nat == sp - w;
    var p := PopStack(pushed, w).value;
    PopStackReads(pushed, w);
    assert LittleEndian(p.value as nat, w) == LittleEndian(v as nat, w);
    SameLittleEndian(p.value as nat, v as nat, w);
    assert p.next.regs == pushed.regs[StackReg := sp as U64];
    Restored(m.regs, StackReg, (sp - w) as U64);
  }

  /** Writing an entry of a sequence and then writing back its old value gives the sequence back. */
  lemma Restored(s: seq<U64>, i: nat, a: U64)
    requires i < |s|
    ensures s[i := a][i := s[i]] == s
  {
  }

  // ---------------------------------------------------------------------
  // Instructions; `m` is the machine just after the opcode byte was read

  /** Opcode 1: the register in the high nibble gets the value of the one in the low nibble. */
  function ExecMoveRegister(m: Machine): (r: Result<Machine, Fault>)
    requires m.Valid()
    ensures r.Ok? ==> r.value.Valid()
  {
    var operand :- Fetch(m, 1);
    var n := operand.next;
    Ok(n.With(operand.value as nat / 16, n.regs[operand.value as nat % 16]))
  }

  /** Opcode 2: a register gets a literal of the tagged width, zero-extended. */
  function ExecMoveLiteral(m: Machine): (r: Result<Machine, Fault>)
    requires m.Valid()
    ensures r.Ok? ==> r.value.Valid()
  {
    var tag :- Fetch(m, 1);
    var register :- Fetch(tag.next, 1);
    match TagWidth(tag.value as int)
    case None => Err(BadTypeTag)
    case Some(w) =>
      var literal :- Fetch(register.next, w);
      SetReg(literal.next, register.value as nat, literal.value)
  }

  /** Opcode 3: a register gets the value of the tagged width at an absolute address. */
  function ExecReadAbsolute(m: Machine): (r: Result<Machine, Fault>)
    requires m.Valid()
    ensures r.Ok? ==> r.value.Valid()
  {
    var tag :- Fetch(m, 1);
    var register :- Fetch(tag.next, 1);
    var address :- Fetch(register.next, 8);
    var n := address.next;
    match TagWidth(tag.value as int)
    case None => Err(BadTypeTag)
    case Some(w) =>
      var value :- ReadMem(n.ram, address.value as nat, w);
      SetReg(n, register.value as nat, value)
  }

  /** Opcode 4: like opcode 3, with the address taken from the register in the low nibble. */
  function ExecReadIndirect(m: Machine): (r: Result<Machine, Fault>)
    requires m.Valid()
    ensures r.Ok? ==> r.value.Valid()
  {
    var tag :- Fetch(m, 1);
    var registers :- Fetch(tag.next, 1);
    var n := registers.next;
    var destination, addressRegister := registers.value as nat / 16, registers.value as nat % 16;
    match TagWidth(tag.value as int)
    case None => Ok(n)
    case Some(w) =>
      var value :- ReadMem(n.ram, n.regs[addressRegister] as nat, w);
      Ok(n.With(destination, value))
  }

  /** Opcode 5: the low bytes of a register go to an absolute address, big-endian. */
  function ExecWriteAbsolute(m: Machine): (r: Result<Machine, Fault>)
    requires m.Valid()
    ensures r.Ok? ==> r.value.Valid()
  {
    var tag :- Fetch(m, 1);
    var register :- Fetch(tag.next, 1);
    var address :- Fetch(register.next, 8);
    var n := address.next;
    match TagWidth(tag.value as int)
    case None => Ok(n)
    case Some(w) =>
      var value :- Reg(n, register.value as nat);
      var ram :- WriteMem(n.ram, address.value as nat, value, w);
      Ok(n.(ram := ram))
  }

  /** Opcode 6: like opcode 5, with the value from the high nibble and the address from the low nibble. */
  function ExecWriteIndirect(m: Machine): (r: Result<Machine, Fault>)
    requires m.Valid()
    ensures r.Ok? ==> r.value.Valid()
  {
    var tag :- Fetch(m, 1);
    var registers :- Fetch(tag.next, 1);
    var n := registers.next;
    var source, addressRegister := registers.value as nat / 16, registers.value as nat % 16;
    match TagWidth(tag.value as int)
    case None => Ok(n)
    case Some(w) =>
      var ram :- WriteMem(n.ram, n.regs[addressRegister] as nat, n.regs[source], w);
      Ok(n.(ram := ram))
  }

  /** Opcode 7: push the low bytes of a register. */
  function ExecPushRegister(m: Machine): (r: Result<Machine, Fault>)
    requires m.Valid()
    ensures r.Ok? ==> r.value.Valid()
  {
    var tag :- Fetch(m, 1);
    var register :- Fetch(tag.next, 1);
    var n := register.next;
    match TagWidth(tag.value as int)
    case None => Ok(n)
    case Some(w) =>
      var value :- Reg(n, register.value as nat);
      PushStack(n, value, w)
  }

  /** Opcode 8: push a literal of the tagged width. */
  function ExecPushLiteral(m: Machine): (r: Result<Machine, Fault>)
    requires m.Valid()
    ensures r.Ok? ==> r.value.Valid()
  {
    var tag :- Fetch(m, 1);
    match TagWidth(tag.value as int)
    case None => Ok(tag.next)
    case Some(w) =>
      var literal :- Fetch(tag.next, w);
      PushStack(literal.next, literal.value, w)
  }

  /** Opcode 9: pop a value of the tagged width into a register. */
  function ExecPop(m: Machine): (r: Result<Machine, Fault>)
    requires m.Valid()
    ensures r.Ok? ==> r.value.Valid()
  {
    var tag :- Fetch(m, 1);
    var register :- Fetch(tag.next, 1);
    var n := register.next;
    match TagWidth(tag.value as int)
    case None => Ok(n)
    case Some(w) =>
      var popped :- PopStack(n, w);
      SetReg(popped.next, register.value as nat, popped.value)
  }

  /** Opcode 10: jump to an absolute address. */
  function ExecJump(m: Machine): (r: Result<Machine, Fault>)
    requires m.Valid()
    ensures r.Ok? ==> r.value.Valid()
  {
    var address :- Fetch(m, 8);
    Ok(address.next.With(CounterReg, address.value))
  }

  /** Opcode 11: jump to the address held in a register. */
  function ExecJumpRegister(m: Machine): (r: Result<Machine, Fault>)
    requires m.Valid()
    ensures r.Ok? ==> r.value.Valid()
  {
    var register :- Fetch(m, 1);
    var target :- Reg(register.next, register.value as nat);
    Ok(register.next.With(CounterReg, target))
  }

  /** Opcode 12: jump to an absolute address when register 2 equals the condition byte. */
  function ExecJumpIf(m: Machine): (r: Result<Machine, Fault>)
    requires m.Valid()
    ensures r.Ok? ==> r.value.Valid()
  {
    var condition :- Fetch(m, 1);
    var address :- Fetch(condition.next, 8);
    var n := address.next;
    if condition.value == n.regs[2] then Ok(n.With(CounterReg, address.value)) else Ok(n)
  }

  /** Opcode 13: jump to the address held in a register when register 2 equals the condition byte. */
  function ExecJumpRegisterIf(m: Machine): (r: Result<Machine, Fault>)
    requires m.Valid()
    ensures r.Ok? ==> r.value.Valid()
  {
    var condition :- Fetch(m, 1);
    var register :- Fetch(condition.next, 1);
    var n := register.next;
    if condition.value == n.regs[2] then
      var target :- Reg(n, register.value as nat);
      Ok(n.With(CounterReg, target))
    else
      Ok(n)
  }

  /** `!x` on a 64-bit word: every bit flipped, which is `u64::MAX - x`. */
  function BitNot(x: U64): U64 {
    (MaxU64 as int - x as int) as U64
  }

  function BitAnd(x: U64, y: U64): U64 {
    ((x as bv64) & (y as bv64)) as U64
  }

  function BitOr(x: U64, y: U64): U64 {
    ((x as bv64) | (y as bv64)) as U64
  }

  function BitXor(x: U64, y: U64): U64 {
    ((x as bv64) ^ (y as bv64)) as U64
  }

  /** Opcodes 14..23: operands in registers 0 and 1, result in register 2 (and the remainder of `div` in 3). */
  function ExecAlu(op: Byte, m: Machine): (r: Result<Machine, Fault>)
    requires m.Valid() && OpAdd <= op <= OpXor
    ensures r.Ok? ==> r.value.Valid()
  {
    var a, b := m.regs[0] as int, m.regs[1] as int;
    if op == OpAdd then
      if a + b < U64Limit then Ok(m.With(2, (a + b) as U64)) else Err(Overflow)
    else if op == OpSub then
      if a >= b then Ok(m.With(2, (a - b) as U64)) else Err(Overflow)
    else if op == OpMul then
      if a * b < U64Limit then Ok(m.With(2, (a * b) as U64)) else Err(Overflow)
    else if op == OpDiv then
      if b == 0 then Err(DivideByZero) else Ok(m.With(2, (a / b) as U64).With(3, (a % b) as U64))
    else if op == OpEqual then
      Ok(m.With(2, if a == b then 1 else 0))
    else if op == OpLess then
      Ok(m.With(2, if a < b then 1 else 0))
    else if op == OpNot then
      Ok(m.With(2, BitNot(m.regs[0])))
    else if op == OpAnd then
      Ok(m.With(2, BitAnd(m.regs[0], m.regs[1])))
    else if op == OpOr then
      Ok(m.With(2, BitOr(m.regs[0], m.regs[1])))
    else
      Ok(m.With(2, BitXor(m.regs[0], m.regs[1])))
  }

  /** Decode and execute opcode `code`; `n` is the machine just after the opcode byte was read. */
  function Execute(code: Byte, n: Machine): (r: Result<Machine, Fault>)
    requires n.Valid()
    ensures r.Ok? ==> r.value.Valid()
  {
    if OpAdd <= code <= OpXor then ExecAlu(code, n)
    else if code == OpMoveRegister then ExecMoveRegister(n)
    else if code == OpMoveLiteral then ExecMoveLiteral(n)
    else if code == OpReadAbsolute then ExecReadAbsolute(n)
    else if code == OpReadIndirect then ExecReadIndirect(n)
    else if code == OpWriteAbsolute then ExecWriteAbsolute(n)
    else if code == OpWriteIndirect then ExecWriteIndirect(n)
    else if code == OpPushRegister then ExecPushRegister(n)
    else if code == OpPushLiteral then ExecPushLiteral(n)
    else if code == OpPop then ExecPop(n)
    else if code == OpJump then ExecJump(n)
    else if code == OpJumpRegister then ExecJumpRegister(n)
    else if code == OpJumpIf then ExecJumpIf(n)
    else if code == OpJumpRegisterIf then ExecJumpRegisterIf(n)
    else Ok(n)
  }

  /** One fetch-decode-execute cycle. Opcode 0 and opcodes above 23 only consume their own byte. */
  function Step(m: Machine): (r: Result<Machine, Fault>)
    requires m.Valid()
    ensures r.Ok? ==> r.value.Valid()
  {
    var op :- Fetch(m, 1);
    Execute(op.value as Byte, op.next)
  }

  /** Why `Run` returned without a fault. */
  datatype Stop = Halted | OutOfFuel

  /**
   * `run`, cut off after `fuel` cycles: it halts after the first cycle
   * that leaves the program counter above `HaltAbove`.
   */
  ghost function Run(m: Machine, fuel: nat): (r: Result<(Stop, Machine), Fault>)
    requires m.Valid()
    ensures r.Ok? ==> r.value.1.Valid()
  {
    CycleKeepsValid();
    LoopValid(Cycle, m, fuel);
    Loop(Cycle, m, fuel)
  }

  /** `Step` made total, so that it can be passed to `Loop`. */
  ghost function Cycle(m: Machine): Result<Machine, Fault> {
    if m.Valid() then Step(m) else Err(OutOfBounds)
  }

  /**
   * `run`'s loop for an arbitrary cycle function `next`: at most `fuel`
   * cycles, stopping at the first fault or at the first well-formed
   * machine whose program counter is above `HaltAbove`. Facts proved
   * about it hold for `Run` without unfolding the instruction semantics.
   */
  ghost function Loop(next: Machine -> Result<Machine, Fault>, m: Machine, fuel: nat): Result<(Stop, Machine), Fault>
    decreases fuel, 1
  {
    if fuel == 0 then Ok((OutOfFuel, m)) else LoopCycle(next, m, fuel)
  }

  /** `Loop` with fuel left: one cycle, then the stop test, then the rest of the loop. */
  ghost function LoopCycle(next: Machine -> Result<Machine, Fault>, m: Machine, fuel: nat): Result<(Stop, Machine), Fault>
    requires fuel > 0
    decreases fuel, 0
  {
    match next(m)
    case Err(e) => Err(e)
    case Ok(n) => if n.Valid() && n.Pc() as nat > HaltAbove then Ok((Halted, n)) else Loop(next, n, fuel - 1)
  }

  /** A cycle never turns a well-formed machine into a malformed one. */
  lemma CycleKeepsValid()
    ensures forall m: Machine :: m.Valid() && Cycle(m).Ok? ==> Cycle(m).value.Valid()
  {
  }

  /** A loop whose cycles keep machines well-formed ends in a well-formed machine. */
  lemma {:induction false} LoopValid(next: Machine -> Result<Machine, Fault>, m: Machine, fuel: nat)
    requires m.Valid()
    requires forall x: Machine :: x.Valid() && next(x).Ok? ==> next(x).value.Valid()
    ensures Loop(next, m, fuel).Ok? ==> Loop(next, m, fuel).value.1.Valid()
    decreases fuel
  {
    if fuel > 0 && next(m).Ok? {
      LoopValid(next, next(m).value, fuel - 1);
    }
  }

  /** A first cycle that faults ends the loop with that fault. */
  lemma LoopFaults(next: Machine -> Result<Machine, Fault>, m: Machine, e: Fault, fuel: nat)
    requires fuel > 0 && next(m) == Err(e)
    ensures Loop(next, m, fuel) == Err(e)
  {
  }

  /** A first cycle that ends above `HaltAbove` ends the loop there. */
  lemma LoopHalts(next: Machine -> Result<Machine, Fault>, m: Machine, n: Machine, fuel: nat)
    requires fuel > 0 && next(m) == Ok(n) && n.Valid() && n.Pc() as nat > HaltAbove
    ensures Loop(next, m, fuel) == Ok((Halted, n))
  {
  }

  /** A first cycle that does not stop the loop is followed by the rest of the loop. */
  lemma LoopContinues(next: Machine -> Result<Machine, Fault>, m: Machine, n: Machine, fuel: nat)
    requires fuel > 0 && next(m) == Ok(n) && !(n.Valid() && n.Pc() as nat > HaltAbove)
    ensures Loop(next, m, fuel) == Loop(next, n, fuel - 1)
  {
  }

  /** A loop stops without a fault only in a well-formed machine above `HaltAbove`. */
  lemma {:induction false} LoopHaltsAbove(next: Machine -> Result<Machine, Fault>, m: Machine, fuel: nat)
    requires Loop(next, m, fuel).Ok? && Loop(next, m, fuel).value.0 == Halted
    ensures Loop(next, m, fuel).value.1.Valid() && Loop(next, m, fuel).value.1.Pc() as nat > HaltAbove
    decreases fuel
  {
    var n := next(m).value;
    if !(n.Valid() && n.Pc() as nat > HaltAbove) {
      LoopHaltsAbove(next, n, fuel - 1);
    }
  }

  /** A run that continues from `a` to `b` in `i` cycles and then faults in `b` ends in that fault. */
  lemma RunFaultsAfter(a: Machine, b: Machine, i: nat, fuel: nat, e: Fault)
    requires a.Valid() && b.Valid() && i < fuel
    requires Loop(Cycle, a, i) == Ok((OutOfFuel, b)) && Step(b) == Err(e)
    ensures Run(a, fuel) == Err(e)
  {
    LoopSplit(Cycle, a, b, i, fuel);
    LoopFaults(Cycle, b, e, fuel - i);
  }

  /** A run that continues from `a` to `b` in `i` cycles and then steps above `HaltAbove` halts there. */
  lemma RunHaltsAfter(a: Machine, b: Machine, c: Machine, i: nat, fuel: nat)
    requires a.Valid() && b.Valid() && i < fuel
    requires Loop(Cycle, a, i) == Ok((OutOfFuel, b)) && Step(b) == Ok(c) && c.Pc() as nat > HaltAbove
    ensures Run(a, fuel) == Ok((Halted, c))
  {
    LoopSplit(Cycle, a, b, i, fuel);
    LoopHalts(Cycle, b, c, fuel - i);
  }

  /** A loop that ran out of fuel in `b` after `n` cycles, followed by one more continuing cycle. */
  lemma {:induction false} LoopGrow(next: Machine -> Result<Machine, Fault>, a: Machine, b: Machine, c: Machine, n: nat)
    requires Loop(next, a, n) == Ok((OutOfFuel, b))
    requires next(b) == Ok(c) && !(c.Valid() && c.Pc() as nat > HaltAbove)
    ensures Loop(next, a, n + 1) == Ok((OutOfFuel, c))
    decreases n
  {
    if n > 0 {
      LoopGrow(next, next(a).value, b, c, n - 1);
    } else {
      assert Loop(next, c, 0) == Ok((OutOfFuel, c));
    }
  }

  /** A loop given `fuel` cycles is the loop given `n` of them, continued from where those ran out. */
  lemma {:induction false} LoopSplit(next: Machine -> Result<Machine, Fault>, a: Machine, b: Machine, n: nat, fuel: nat)
    requires Loop(next, a, n) == Ok((OutOfFuel, b)) && n <= fuel
    ensures Loop(next, a, fuel) == Loop(next, b, fuel - n)
    decreases n
  {
    if n > 0 {
      LoopSplit(next, next(a).value, b, n - 1, fuel - 1);
    }
  }

  /** A loop that halted or faulted ends the same way with more fuel. */
  lemma {:induction false} LoopMoreFuel(next: Machine -> Result<Machine, Fault>, m: Machine, fuel: nat, more: nat)
    requires fuel <= more
    requires Loop(next, m, fuel).Err? || Loop(next, m, fuel).value.0 == Halted
    ensures Loop(next, m, more) == Loop(next, m, fuel)
    decreases fuel
  {
    if next(m).Ok? {
      var n := next(m).value;
      if !(n.Valid() && n.Pc() as nat > HaltAbove) {
        LoopMoreFuel(next, n, fuel - 1, more - 1);
      }
    }
  }

  /** `Emulator::new`: the image at address 0, the rest of memory zero, SP at the last byte, every other register 0. */
  function Load(bin: seq<Byte>): (r: Result<Machine, Fault>)
    ensures r.Ok? <==> |bin| <= RamSize
    ensures r.Err? ==> r.error == OutOfBounds
    ensures r.Ok? ==>
      && r.value.Valid()
      && r.value.ram[..|bin|] == bin
      && (forall i :: |bin| <= i < RamSize ==> r.value.ram[i] == 0)
      && r.value.Sp() as nat == RamSize - 1
      && forall i :: 0 <= i < StackReg ==> r.value.regs[i] == 0
  {
    if |bin| <= RamSize then
      Ok(Machine(seq(RegisterCount, i => if i == StackReg then (RamSize - 1) as U64 else 0), bin + Zeros(RamSize - |bin|)))
    else
      Err(OutOfBounds)
  }
}
