/**
 * What one cycle does to a machine whose memory holds a given
 * instruction at the program counter, opcode by opcode, and what `Run`
 * guarantees over many cycles.
 */
module StepFacts {

  import opened Wrappers
  import opened Encoding
  import opened Semantics

  /** `ram` holds `bytes` starting at `at`. */
  ghost predicate Holds(ram: seq<Byte>, at: nat, bytes: seq<Byte>) {
    at + |bytes| <= |ram| && ram[at..at + |bytes|] == bytes
  }

  /** The machine with its program counter moved `k` bytes on. */
  function Advance(m: Machine, k: nat): (r: Machine)
    requires m.Valid() && m.Pc() as nat + k <= RamSize
    ensures r.Valid() && r.Pc() as nat == m.Pc() as nat + k && r.ram == m.ram
  {
    m.With(CounterReg, (m.Pc() as nat + k) as U64)
  }

  lemma HoldsPart(ram: seq<Byte>, at: nat, bytes: seq<Byte>, k: nat, len: nat)
    requires Holds(ram, at, bytes) && k + len <= |bytes|
    ensures Holds(ram, at + k, bytes[k..k + len])
  {
    forall j | k <= j < k + len
      ensures ram[at + j] == bytes[j]
    {
      assert ram[at..at + |bytes|][j] == bytes[j];
    }
    assert ram[at + k..at + k + len] == bytes[k..k + len];
  }

  /** The bytes after an instruction's first `|head|` bytes. */
  lemma HoldsTail(ram: seq<Byte>, at: nat, head: seq<Byte>, tail: seq<Byte>)
    requires Holds(ram, at, head + tail)
    ensures Holds(ram, at + |head|, tail)
  {
    var all := head + tail;
    assert all[|head|..] == tail;
    assert ram[at..at + |all|][|head|..] == ram[at + |head|..at + |head| + |tail|];
  }

  lemma BigEndianByte(b: Byte)
    ensures BigEndian(b as nat, 1) == [b]
  {
  }

  /** Fetching a value whose big-endian bytes sit at the program counter yields it. */
  lemma FetchValue(m: Machine, w: Width, v: nat)
    requires m.Valid() && v < Pow256(w) && Holds(m.ram, m.Pc() as nat, BigEndian(v, w))
    ensures Fetch(m, w).Ok? && Fetch(m, w).value.value as nat == v
    ensures Fetch(m, w).value.next == Advance(m, w)
  {
    BigEndianInRange(v, w);
  }

  lemma FetchByte(m: Machine, b: Byte)
    requires m.Valid() && Holds(m.ram, m.Pc() as nat, [b])
    ensures Fetch(m, 1) == Ok(Fetched(b as U64, Advance(m, 1)))
  {
    BigEndianByte(b);
    FetchValue(m, 1, b as nat);
  }

  lemma AdvanceTwice(m: Machine, j: nat, k: nat)
    requires m.Valid() && m.Pc() as nat + j + k <= RamSize
    ensures Advance(Advance(m, j), k) == Advance(m, j + k)
  {
    assert Advance(Advance(m, j), k).regs == Advance(m, j + k).regs;
  }

  /** Fetch the opcode and the operand bytes of an instruction laid out as `bytes`. */
  lemma FetchPrefix(m: Machine, bytes: seq<Byte>, k: nat)
    requires m.Valid() && Holds(m.ram, m.Pc() as nat, bytes) && k < |bytes|
    ensures Fetch(Advance(m, k), 1) == Ok(Fetched(bytes[k] as U64, Advance(m, k + 1)))
  {
    HoldsPart(m.ram, m.Pc() as nat, bytes, k, 1);
    assert bytes[k..k + 1] == [bytes[k]];
    FetchByte(Advance(m, k), bytes[k]);
    AdvanceTwice(m, k, 1);
  }

  /** Fetch the big-endian value of width `w` at byte `k` of the instruction. */
  lemma FetchWordAt(m: Machine, bytes: seq<Byte>, k: nat, w: Width, v: nat)
    requires m.Valid() && Holds(m.ram, m.Pc() as nat, bytes) && k + w <= |bytes|
    requires v < Pow256(w) && bytes[k..k + w] == BigEndian(v, w)
    ensures Fetch(Advance(m, k), w).Ok? && Fetch(Advance(m, k), w).value.value as nat == v
    ensures Fetch(Advance(m, k), w).value.next == Advance(m, k + w)
  {
    HoldsPart(m.ram, m.Pc() as nat, bytes, k, w);
    FetchValue(Advance(m, k), w, v);
    AdvanceTwice(m, k, w);
  }

  /** Moving the program counter and then setting it is setting it. */
  lemma SetCounterAfterAdvance(m: Machine, k: nat, pc: U64)
    requires m.Valid() && m.Pc() as nat + k <= RamSize
    ensures Advance(m, k).With(CounterReg, pc) == m.With(CounterReg, pc)
  {
    assert Advance(m, k).With(CounterReg, pc).regs == m.With(CounterReg, pc).regs;
  }

  /** A cycle fetches the opcode and hands the operands to `Execute`. */
  lemma StepOpens(m: Machine, op: Byte, operands: seq<Byte>)
    requires m.Valid() && Holds(m.ram, m.Pc() as nat, [op] + operands)
    ensures Step(m) == Execute(op, Advance(m, 1))
    ensures Holds(m.ram, m.Pc() as nat + 1, operands)
  {
    FetchPrefix(m, [op] + operands, 0);
    assert Advance(m, 0) == m;
    HoldsTail(m.ram, m.Pc() as nat, [op], operands);
  }

  // ---------------------------------------------------------------------
  // Each instruction's operands, read from the machine just after its opcode

  lemma ExecMoveRegisterAt(n: Machine, destination: nat, source: nat)
    requires n.Valid() && destination < 16 && source < 16
    requires Holds(n.ram, n.Pc() as nat, [(destination * 16 + source) as Byte])
    ensures ExecMoveRegister(n) == Ok(Advance(n, 1).With(destination, Advance(n, 1).regs[source]))
  {
    FetchByte(n, (destination * 16 + source) as Byte);
  }

  lemma ExecMoveLiteralAt(n: Machine, tag: Byte, register: Byte, w: Width, v: U64)
    requires n.Valid() && TagWidth(tag as int) == Some(w) && register < 16 && (v as nat) < Pow256(w)
    requires Holds(n.ram, n.Pc() as nat, [tag, register] + BigEndian(v as nat, w))
    ensures ExecMoveLiteral(n) == Ok(Advance(n, 2 + w).With(register as nat, v))
  {
    var bytes := [tag, register] + BigEndian(v as nat, w);
    FetchPrefix(n, bytes, 0);
    assert Advance(n, 0) == n;
    FetchPrefix(n, bytes, 1);
    assert bytes[2..2 + w] == BigEndian(v as nat, w);
    FetchWordAt(n, bytes, 2, w, v as nat);
  }

  lemma ExecBadTagAt(n: Machine, op: Byte, tag: Byte, register: Byte, rest: seq<Byte>)
    requires n.Valid() && (op == OpMoveLiteral || op == OpReadAbsolute) && tag >= 4
    requires |rest| == (if op == OpReadAbsolute then 8 else 0)
    requires Holds(n.ram, n.Pc() as nat, [tag, register] + rest)
    ensures Execute(op, n) == Err(BadTypeTag)
  {
    var bytes := [tag, register] + rest;
    FetchPrefix(n, bytes, 0);
    assert Advance(n, 0) == n;
    FetchPrefix(n, bytes, 1);
    if op == OpReadAbsolute {
      assert Execute(op, n) == ExecReadAbsolute(n);
      HoldsPart(n.ram, n.Pc() as nat, bytes, 2, 8);
      FromBigEndianRoundTrip(bytes[2..10]);
      Pow256Of8();
      FetchWordAt(n, bytes, 2, 8, FromBigEndian(bytes[2..10]));
    } else {
      assert Execute(op, n) == ExecMoveLiteral(n);
    }
  }

  lemma ExecReadAbsoluteAt(n: Machine, tag: Byte, register: Byte, w: Width, address: nat)
    requires n.Valid() && TagWidth(tag as int) == Some(w) && register < 16 && address + w <= RamSize
    requires Holds(n.ram, n.Pc() as nat, [tag, register] + BigEndian(address, 8))
    ensures ExecReadAbsolute(n) == Ok(Advance(n, 10).With(register as nat, ReadMem(n.ram, address, w).value))
  {
    var bytes := [tag, register] + BigEndian(address, 8);
    FetchPrefix(n, bytes, 0);
    assert Advance(n, 0) == n;
    FetchPrefix(n, bytes, 1);
    assert bytes[2..2 + 8] == BigEndian(address, 8);
    Pow256Of8();
    FetchWordAt(n, bytes, 2, 8, address);
    assert Fetch(Advance(n, 2), 8) == Ok(Fetched(address as U64, Advance(n, 10)));
    assert ReadMem(Advance(n, 10).ram, address, w).Ok?;
  }

  lemma ExecReadIndirectAt(n: Machine, tag: Byte, destination: nat, source: nat, w: Width)
    requires n.Valid() && TagWidth(tag as int) == Some(w) && destination < 16 && source < 16
    requires Holds(n.ram, n.Pc() as nat, [tag, (destination * 16 + source) as Byte])
    requires Advance(n, 2).regs[source] as nat + w <= RamSize
    ensures ExecReadIndirect(n)
         == Ok(Advance(n, 2).With(destination, ReadMem(n.ram, Advance(n, 2).regs[source] as nat, w).value))
  {
    var packed := (destination * 16 + source) as Byte;
    assert packed as nat / 16 == destination && packed as nat % 16 == source;
    FetchPrefix(n, [tag, packed], 0);
    assert Advance(n, 0) == n;
    FetchPrefix(n, [tag, packed], 1);
    var address := Advance(n, 2).regs[source] as nat;
    assert ReadMem(Advance(n, 2).ram, address, w).Ok?;
  }

  lemma ExecWriteAbsoluteAt(n: Machine, tag: Byte, register: Byte, w: Width, address: nat)
    requires n.Valid() && TagWidth(tag as int) == Some(w) && register < 16 && address + w <= RamSize
    requires Holds(n.ram, n.Pc() as nat, [tag, register] + BigEndian(address, 8))
    ensures ExecWriteAbsolute(n)
         == Ok(Advance(n, 10).(ram := WriteMem(n.ram, address, Advance(n, 10).regs[register], w).value))
  {
    var bytes := [tag, register] + BigEndian(address, 8);
    FetchPrefix(n, bytes, 0);
    assert Advance(n, 0) == n;
    FetchPrefix(n, bytes, 1);
    assert bytes[2..2 + 8] == BigEndian(address, 8);
    Pow256Of8();
    FetchWordAt(n, bytes, 2, 8, address);
    assert Fetch(Advance(n, 2), 8) == Ok(Fetched(address as U64, Advance(n, 10)));
    var last := Advance(n, 10);
    assert Reg(last, register as nat) == Ok(last.regs[register]);
    assert WriteMem(last.ram, address, last.regs[register], w).Ok?;
  }

  lemma ExecWriteIndirectAt(n: Machine, tag: Byte, source: nat, target: nat, w: Width)
    requires n.Valid() && TagWidth(tag as int) == Some(w) && source < 16 && target < 16
    requires Holds(n.ram, n.Pc() as nat, [tag, (source * 16 + target) as Byte])
    requires Advance(n, 2).regs[target] as nat + w <= RamSize
    ensures ExecWriteIndirect(n)
         == Ok(Advance(n, 2).(ram := WriteMem(n.ram, Advance(n, 2).regs[target] as nat, Advance(n, 2).regs[source], w).value))
  {
    var packed := (source * 16 + target) as Byte;
    assert packed as nat / 16 == source && packed as nat % 16 == target;
    FetchPrefix(n, [tag, packed], 0);
    assert Advance(n, 0) == n;
    FetchPrefix(n, [tag, packed], 1);
  }

  lemma ExecIgnoredTagAt(n: Machine, op: Byte, tag: Byte, rest: seq<Byte>)
    requires n.Valid() && tag >= 4
    requires op == OpReadIndirect || op == OpWriteIndirect || op == OpPushRegister || op == OpPop
             || op == OpWriteAbsolute || op == OpPushLiteral
    requires |rest| == (if op == OpWriteAbsolute then 9 else if op == OpPushLiteral then 0 else 1)
    requires Holds(n.ram, n.Pc() as nat, [tag] + rest)
    ensures Execute(op, n) == Ok(Advance(n, 1 + |rest|))
  {
    var bytes := [tag] + rest;
    FetchPrefix(n, bytes, 0);
    assert Advance(n, 0) == n;
    if op == OpPushLiteral {
      assert Execute(op, n) == ExecPushLiteral(n);
    } else if op == OpWriteAbsolute {
      assert Execute(op, n) == ExecWriteAbsolute(n);
      WriteAbsoluteIgnoredTag(n, tag, rest);
    } else {
      FetchPrefix(n, bytes, 1);
      if op == OpReadIndirect {
        assert Execute(op, n) == ExecReadIndirect(n);
      } else if op == OpWriteIndirect {
        assert Execute(op, n) == ExecWriteIndirect(n);
      } else if op == OpPushRegister {
        assert Execute(op, n) == ExecPushRegister(n);
      } else {
        assert Execute(op, n) == ExecPop(n);
      }
    }
  }

  /** `write` with an unknown type tag still reads the register and address operands, then does nothing. */
  lemma WriteAbsoluteIgnoredTag(n: Machine, tag: Byte, rest: seq<Byte>)
    requires n.Valid() && tag >= 4 && |rest| == 9
    requires Holds(n.ram, n.Pc() as nat, [tag] + rest)
    ensures ExecWriteAbsolute(n) == Ok(Advance(n, 10))
  {
    var bytes := [tag] + rest;
    FetchPrefix(n, bytes, 0);
    assert Advance(n, 0) == n;
    FetchPrefix(n, bytes, 1);
    HoldsPart(n.ram, n.Pc() as nat, bytes, 2, 8);
    FromBigEndianRoundTrip(bytes[2..10]);
    Pow256Of8();
    FetchWordAt(n, bytes, 2, 8, FromBigEndian(bytes[2..10]));
    assert TagWidth(tag as int) == None;
  }

  lemma ExecPushRegisterAt(n: Machine, tag: Byte, register: Byte, w: Width)
    requires n.Valid() && TagWidth(tag as int) == Some(w) && register < 16
    requires Holds(n.ram, n.Pc() as nat, [tag, register])
    ensures ExecPushRegister(n) == PushStack(Advance(n, 2), Advance(n, 2).regs[register], w)
  {
    FetchPrefix(n, [tag, register], 0);
    assert Advance(n, 0) == n;
    FetchPrefix(n, [tag, register], 1);
  }

  lemma ExecPushLiteralAt(n: Machine, tag: Byte, w: Width, v: U64)
    requires n.Valid() && TagWidth(tag as int) == Some(w) && (v as nat) < Pow256(w)
    requires Holds(n.ram, n.Pc() as nat, [tag] + BigEndian(v as nat, w))
    ensures ExecPushLiteral(n) == PushStack(Advance(n, 1 + w), v, w)
  {
    var literal := BigEndian(v as nat, w);
    var bytes := [tag] + literal;
    FetchPrefix(n, bytes, 0);
    assert Advance(n, 0) == n;
    assert bytes[1..] == literal;
    assert bytes[1..1 + w] == literal by { assert |bytes| == 1 + w; }
    FetchWordAt(n, bytes, 1, w, v as nat);
    assert Fetch(Advance(n, 1), w) == Ok(Fetched(v, Advance(n, 1 + w)));
  }

  lemma ExecPopAt(n: Machine, tag: Byte, register: Byte, w: Width)
    requires n.Valid() && TagWidth(tag as int) == Some(w) && register < 16
    requires Holds(n.ram, n.Pc() as nat, [tag, register])
    ensures var p := PopStack(Advance(n, 2), w);
      ExecPop(n) == if p.Ok? then Ok(p.value.next.With(register as nat, p.value.value)) else Err(p.error)
  {
    FetchPrefix(n, [tag, register], 0);
    assert Advance(n, 0) == n;
    FetchPrefix(n, [tag, register], 1);
  }

  lemma ExecJumpAt(n: Machine, address: U64)
    requires n.Valid() && Holds(n.ram, n.Pc() as nat, BigEndian(address as nat, 8))
    ensures ExecJump(n) == Ok(n.With(CounterReg, address))
  {
    Pow256Of8();
    FetchValue(n, 8, address as nat);
    SetCounterAfterAdvance(n, 8, address);
  }

  lemma ExecJumpIfAt(n: Machine, condition: Byte, address: U64)
    requires n.Valid() && Holds(n.ram, n.Pc() as nat, [condition] + BigEndian(address as nat, 8))
    ensures ExecJumpIf(n) == Ok(if condition as U64 == n.regs[2] then n.With(CounterReg, address) else Advance(n, 9))
  {
    var bytes := [condition] + BigEndian(address as nat, 8);
    FetchPrefix(n, bytes, 0);
    assert Advance(n, 0) == n;
    assert bytes[1..1 + 8] == BigEndian(address as nat, 8);
    Pow256Of8();
    FetchWordAt(n, bytes, 1, 8, address as nat);
    SetCounterAfterAdvance(n, 9, address);
  }

  lemma ExecJumpRegisterAt(n: Machine, register: Byte)
    requires n.Valid() && register < 16 && Holds(n.ram, n.Pc() as nat, [register])
    ensures ExecJumpRegister(n) == Ok(n.With(CounterReg, Advance(n, 1).regs[register]))
  {
    FetchByte(n, register);
    SetCounterAfterAdvance(n, 1, Advance(n, 1).regs[register]);
  }

  lemma ExecJumpRegisterIfAt(n: Machine, condition: Byte, register: Byte)
    requires n.Valid() && register < 16 && Holds(n.ram, n.Pc() as nat, [condition, register])
    ensures ExecJumpRegisterIf(n)
         == Ok(if condition as U64 == n.regs[2] then n.With(CounterReg, Advance(n, 2).regs[register]) else Advance(n, 2))
  {
    FetchPrefix(n, [condition, register], 0);
    assert Advance(n, 0) == n;
    FetchPrefix(n, [condition, register], 1);
    SetCounterAfterAdvance(n, 2, Advance(n, 2).regs[register]);
  }

  // ---------------------------------------------------------------------
  // One lemma per instruction form

  /** Opcode 0 and opcodes above 23 only move the program counter past themselves. */
  lemma StepNop(m: Machine, op: Byte)
    requires m.Valid() && Holds(m.ram, m.Pc() as nat, [op]) && (op == OpNop || op > OpXor)
    ensures Step(m) == Ok(Advance(m, 1))
  {
    assert [op] + [] == [op];
    StepOpens(m, op, []);
  }

  /** `move <register> <register>`: the destination gets the source as it is after the fetch. */
  lemma StepMoveRegister(m: Machine, destination: nat, source: nat)
    requires m.Valid() && destination < 16 && source < 16
    requires Holds(m.ram, m.Pc() as nat, [OpMoveRegister] + [(destination * 16 + source) as Byte])
    ensures Step(m) == Ok(Advance(m, 2).With(destination, Advance(m, 2).regs[source]))
    ensures var n := Step(m).value;
      && n.ram == m.ram
      && n.regs[destination] == (if source == CounterReg then Advance(m, 2).Pc() else m.regs[source])
      && forall i :: 0 <= i < RegisterCount && i != destination ==> n.regs[i] == Advance(m, 2).regs[i]
  {
    StepOpens(m, OpMoveRegister, [(destination * 16 + source) as Byte]);
    ExecMoveRegisterAt(Advance(m, 1), destination, source);
    AdvanceTwice(m, 1, 1);
  }

  /** `move <type> <register> <literal>`: the register gets the literal, zero-extended. */
  lemma StepMoveLiteral(m: Machine, tag: Byte, register: Byte, w: Width, v: U64)
    requires m.Valid() && TagWidth(tag as int) == Some(w) && register < 16 && (v as nat) < Pow256(w)
    requires Holds(m.ram, m.Pc() as nat, [OpMoveLiteral] + ([tag, register] + BigEndian(v as nat, w)))
    ensures Step(m) == Ok(Advance(m, 3 + w).With(register as nat, v))
  {
    StepOpens(m, OpMoveLiteral, [tag, register] + BigEndian(v as nat, w));
    ExecMoveLiteralAt(Advance(m, 1), tag, register, w, v);
    AdvanceTwice(m, 1, 2 + w);
  }

  /** `move` and `read` with an unknown type tag fault once their operands are read. */
  lemma StepBadTypeTag(m: Machine, op: Byte, tag: Byte, register: Byte, rest: seq<Byte>)
    requires m.Valid() && (op == OpMoveLiteral || op == OpReadAbsolute) && tag >= 4
    requires |rest| == (if op == OpReadAbsolute then 8 else 0)
    requires Holds(m.ram, m.Pc() as nat, [op] + ([tag, register] + rest))
    ensures Step(m) == Err(BadTypeTag)
  {
    StepOpens(m, op, [tag, register] + rest);
    ExecBadTagAt(Advance(m, 1), op, tag, register, rest);
  }

  /** `read <type> <register> <address>`: the register gets the big-endian value stored at the address. */
  lemma StepReadAbsolute(m: Machine, tag: Byte, register: Byte, w: Width, address: nat)
    requires m.Valid() && TagWidth(tag as int) == Some(w) && register < 16 && address + w <= RamSize
    requires Holds(m.ram, m.Pc() as nat, [OpReadAbsolute] + ([tag, register] + BigEndian(address, 8)))
    ensures Step(m) == Ok(Advance(m, 11).With(register as nat, ReadMem(m.ram, address, w).value))
    ensures BigEndian(Step(m).value.regs[register] as nat, w) == m.ram[address..address + w]
  {
    StepOpens(m, OpReadAbsolute, [tag, register] + BigEndian(address, 8));
    ExecReadAbsoluteAt(Advance(m, 1), tag, register, w, address);
    AdvanceTwice(m, 1, 10);
    ReadMemReads(m.ram, address, w);
  }

  /** `read <type> <register> <register>`: the address comes from a register, read after the fetch. */
  lemma StepReadIndirect(m: Machine, tag: Byte, destination: nat, source: nat, w: Width)
    requires m.Valid() && TagWidth(tag as int) == Some(w) && destination < 16 && source < 16
    requires Holds(m.ram, m.Pc() as nat, [OpReadIndirect] + [tag, (destination * 16 + source) as Byte])
    requires Advance(m, 3).regs[source] as nat + w <= RamSize
    ensures var address := Advance(m, 3).regs[source] as nat;
      && Step(m) == Ok(Advance(m, 3).With(destination, ReadMem(m.ram, address, w).value))
      && BigEndian(Step(m).value.regs[destination] as nat, w) == m.ram[address..address + w]
  {
    StepOpens(m, OpReadIndirect, [tag, (destination * 16 + source) as Byte]);
    AdvanceTwice(m, 1, 2);
    ExecReadIndirectAt(Advance(m, 1), tag, destination, source, w);
    ReadMemReads(m.ram, Advance(m, 3).regs[source] as nat, w);
  }

  /** `write <type> <register> <address>`: the register's low bytes land at the address, big-endian. */
  lemma StepWriteAbsolute(m: Machine, tag: Byte, register: Byte, w: Width, address: nat)
    requires m.Valid() && TagWidth(tag as int) == Some(w) && register < 16 && address + w <= RamSize
    requires Holds(m.ram, m.Pc() as nat, [OpWriteAbsolute] + ([tag, register] + BigEndian(address, 8)))
    ensures Step(m).Ok?
    ensures var n := Step(m).value;
      && n.regs == Advance(m, 11).regs
      && n.ram[address..address + w] == BigEndian(Advance(m, 11).regs[register] as nat, w)
      && forall i :: 0 <= i < RamSize && !(address <= i < address + w) ==> n.ram[i] == m.ram[i]
  {
    StepOpens(m, OpWriteAbsolute, [tag, register] + BigEndian(address, 8));
    assert Execute(OpWriteAbsolute, Advance(m, 1)) == ExecWriteAbsolute(Advance(m, 1));
    ExecWriteAbsoluteAt(Advance(m, 1), tag, register, w, address);
    AdvanceTwice(m, 1, 10);
    var last := Advance(m, 11);
    WriteMemWrites(m.ram, address, last.regs[register], w);
    assert Step(m) == Ok(last.(ram := WriteMem(m.ram, address, last.regs[register], w).value));
  }

  /** `write <type> <register> <register>`: value from the high nibble, address from the low nibble. */
  lemma StepWriteIndirect(m: Machine, tag: Byte, source: nat, target: nat, w: Width)
    requires m.Valid() && TagWidth(tag as int) == Some(w) && source < 16 && target < 16
    requires Holds(m.ram, m.Pc() as nat, [OpWriteIndirect] + [tag, (source * 16 + target) as Byte])
    requires Advance(m, 3).regs[target] as nat + w <= RamSize
    ensures Step(m).Ok?
    ensures var n := Step(m).value; var address := Advance(m, 3).regs[target] as nat;
      && n.regs == Advance(m, 3).regs
      && n.ram[address..address + w] == BigEndian(Advance(m, 3).regs[source] as nat, w)
      && forall i :: 0 <= i < RamSize && !(address <= i < address + w) ==> n.ram[i] == m.ram[i]
  {
    StepOpens(m, OpWriteIndirect, [tag, (source * 16 + target) as Byte]);
    AdvanceTwice(m, 1, 2);
    ExecWriteIndirectAt(Advance(m, 1), tag, source, target, w);
    WriteMemWrites(m.ram, Advance(m, 3).regs[target] as nat, Advance(m, 3).regs[source], w);
  }

  /** `read`, `write`, `push` and `pop` forms that ignore an unknown tag consume their operands and nothing else. */
  lemma StepIgnoredTag(m: Machine, op: Byte, tag: Byte, rest: seq<Byte>)
    requires m.Valid() && tag >= 4
    requires op == OpReadIndirect || op == OpWriteIndirect || op == OpPushRegister || op == OpPop
             || op == OpWriteAbsolute || op == OpPushLiteral
    requires |rest| == (if op == OpWriteAbsolute then 9 else if op == OpPushLiteral then 0 else 1)
    requires Holds(m.ram, m.Pc() as nat, [op] + ([tag] + rest))
    ensures Step(m) == Ok(Advance(m, 2 + |rest|))
  {
    StepOpens(m, op, [tag] + rest);
    ExecIgnoredTagAt(Advance(m, 1), op, tag, rest);
    AdvanceTwice(m, 1, 1 + |rest|);
  }

  /** `push <type> <register>`: the register's value goes on the stack. */
  lemma StepPushRegister(m: Machine, tag: Byte, register: Byte, w: Width)
    requires m.Valid() && TagWidth(tag as int) == Some(w) && register < 16
    requires Holds(m.ram, m.Pc() as nat, [OpPushRegister] + [tag, register])
    ensures Step(m) == PushStack(Advance(m, 3), Advance(m, 3).regs[register], w)
  {
    StepOpens(m, OpPushRegister, [tag, register]);
    ExecPushRegisterAt(Advance(m, 1), tag, register, w);
    AdvanceTwice(m, 1, 2);
  }

  /** `push <type> <literal>`: the literal goes on the stack. */
  lemma StepPushLiteral(m: Machine, tag: Byte, w: Width, v: U64)
    requires m.Valid() && TagWidth(tag as int) == Some(w) && (v as nat) < Pow256(w)
    requires Holds(m.ram, m.Pc() as nat, [OpPushLiteral] + ([tag] + BigEndian(v as nat, w)))
    ensures Step(m) == PushStack(Advance(m, 2 + w), v, w)
  {
    StepOpens(m, OpPushLiteral, [tag] + BigEndian(v as nat, w));
    assert Execute(OpPushLiteral, Advance(m, 1)) == ExecPushLiteral(Advance(m, 1));
    ExecPushLiteralAt(Advance(m, 1), tag, w, v);
    AdvanceTwice(m, 1, 1 + w);
  }

  /** `pop <type> <register>`: the value on top of the stack goes to the register. */
  lemma StepPop(m: Machine, tag: Byte, register: Byte, w: Width)
    requires m.Valid() && TagWidth(tag as int) == Some(w) && register < 16
    requires Holds(m.ram, m.Pc() as nat, [OpPop] + [tag, register])
    ensures var p := PopStack(Advance(m, 3), w);
      Step(m) == if p.Ok? then Ok(p.value.next.With(register as nat, p.value.value)) else Err(p.error)
  {
    StepOpens(m, OpPop, [tag, register]);
    ExecPopAt(Advance(m, 1), tag, register, w);
    AdvanceTwice(m, 1, 2);
  }

  /** `jump <address>`: the program counter becomes the address. */
  lemma StepJump(m: Machine, address: U64)
    requires m.Valid() && Holds(m.ram, m.Pc() as nat, [OpJump] + BigEndian(address as nat, 8))
    ensures Step(m) == Ok(m.With(CounterReg, address))
  {
    StepOpens(m, OpJump, BigEndian(address as nat, 8));
    ExecJumpAt(Advance(m, 1), address);
    SetCounterAfterAdvance(m, 1, address);
  }

  /** `jump <address> <condition>`: taken exactly when register 2 equals the condition. */
  lemma StepJumpIf(m: Machine, condition: Byte, address: U64)
    requires m.Valid() && Holds(m.ram, m.Pc() as nat, [OpJumpIf] + ([condition] + BigEndian(address as nat, 8)))
    ensures Step(m) == Ok(if condition as U64 == m.regs[2] then m.With(CounterReg, address) else Advance(m, 10))
  {
    StepOpens(m, OpJumpIf, [condition] + BigEndian(address as nat, 8));
    assert Execute(OpJumpIf, Advance(m, 1)) == ExecJumpIf(Advance(m, 1));
    ExecJumpIfAt(Advance(m, 1), condition, address);
    SetCounterAfterAdvance(m, 1, address);
    AdvanceTwice(m, 1, 9);
  }

  /** `jump <register>`: the program counter becomes the register's value as it is after the fetch. */
  lemma StepJumpRegister(m: Machine, register: Byte)
    requires m.Valid() && register < 16 && Holds(m.ram, m.Pc() as nat, [OpJumpRegister] + [register])
    ensures Step(m) == Ok(m.With(CounterReg, Advance(m, 2).regs[register]))
  {
    StepOpens(m, OpJumpRegister, [register]);
    ExecJumpRegisterAt(Advance(m, 1), register);
    AdvanceTwice(m, 1, 1);
    SetCounterAfterAdvance(m, 1, Advance(m, 2).regs[register]);
  }

  /** `jump <register> <condition>`: taken exactly when register 2 equals the condition. */
  lemma StepJumpRegisterIf(m: Machine, condition: Byte, register: Byte)
    requires m.Valid() && register < 16 && Holds(m.ram, m.Pc() as nat, [OpJumpRegisterIf] + [condition, register])
    ensures Step(m) == Ok(if condition as U64 == m.regs[2] then m.With(CounterReg, Advance(m, 3).regs[register])
                         else Advance(m, 3))
  {
    StepOpens(m, OpJumpRegisterIf, [condition, register]);
    assert Execute(OpJumpRegisterIf, Advance(m, 1)) == ExecJumpRegisterIf(Advance(m, 1));
    ExecJumpRegisterIfAt(Advance(m, 1), condition, register);
    AdvanceTwice(m, 1, 2);
    assert Advance(m, 1).regs[2] == m.regs[2];
    SetCounterAfterAdvance(m, 1, Advance(m, 3).regs[register]);
  }

  /** Opcodes 14..23 run the ALU operation they name on the machine after the opcode fetch. */
  lemma StepAlu(m: Machine, op: Byte)
    requires m.Valid() && OpAdd <= op <= OpXor && Holds(m.ram, m.Pc() as nat, [op])
    ensures Step(m) == ExecAlu(op, Advance(m, 1))
  {
    assert [op] + [] == [op];
    StepOpens(m, op, []);
    ExecuteAlu(op, Advance(m, 1));
  }

  lemma ExecuteAlu(op: Byte, n: Machine)
    requires n.Valid() && OpAdd <= op <= OpXor
    ensures Execute(op, n) == ExecAlu(op, n)
  {
  }

  /** An arithmetic opcode leaves memory and every register but 2, 3 and the program counter alone. */
  lemma StepAluFrame(m: Machine, op: Byte)
    requires m.Valid() && OpAdd <= op <= OpXor && Holds(m.ram, m.Pc() as nat, [op])
    ensures Step(m).Ok? ==>
      && Step(m).value.ram == m.ram
      && Step(m).value.Pc() as nat == m.Pc() as nat + 1
      && (op != OpDiv ==> Step(m).value.regs[3] == m.regs[3])
      && forall i :: 0 <= i < RegisterCount && i != 2 && i != 3 && i != CounterReg ==> Step(m).value.regs[i] == m.regs[i]
  {
    FetchPrefix(m, [op], 0);
    assert Advance(m, 0) == m;
  }

  /** `add`, `sub`, `mul`: register 2 gets the exact result, and a result outside u64 is an overflow. */
  lemma StepArithmetic(m: Machine, op: Byte)
    requires m.Valid() && (op == OpAdd || op == OpSub || op == OpMul) && Holds(m.ram, m.Pc() as nat, [op])
    ensures var a, b := m.regs[0] as int, m.regs[1] as int;
      var exact := if op == OpAdd then a + b else if op == OpSub then a - b else a * b;
      && (Step(m).Ok? <==> 0 <= exact < U64Limit)
      && (Step(m).Err? ==> Step(m).error == Overflow)
      && (Step(m).Ok? ==> Step(m).value.regs[2] as int == exact)
  {
    FetchPrefix(m, [op], 0);
    assert Advance(m, 0) == m;
  }

  /** `div`: register 2 and 3 get quotient and remainder; a zero divisor faults. */
  lemma StepDivide(m: Machine)
    requires m.Valid() && Holds(m.ram, m.Pc() as nat, [OpDiv])
    ensures Step(m).Ok? <==> m.regs[1] != 0
    ensures Step(m).Err? ==> Step(m).error == DivideByZero
    ensures Step(m).Ok? ==>
      var n := Step(m).value;
      && n.regs[2] as int * m.regs[1] as int + n.regs[3] as int == m.regs[0] as int
      && n.regs[3] < m.regs[1]
  {
    FetchPrefix(m, [OpDiv], 0);
    assert Advance(m, 0) == m;
  }

  /** `equal` and `less`: register 2 is 1 when the comparison holds and 0 otherwise. */
  lemma StepCompare(m: Machine, op: Byte)
    requires m.Valid() && (op == OpEqual || op == OpLess) && Holds(m.ram, m.Pc() as nat, [op])
    ensures Step(m).Ok?
    ensures Step(m).value.regs[2] == 0 || Step(m).value.regs[2] == 1
    ensures Step(m).value.regs[2] == 1 <==> if op == OpEqual then m.regs[0] == m.regs[1] else m.regs[0] < m.regs[1]
  {
    FetchPrefix(m, [op], 0);
    assert Advance(m, 0) == m;
  }

  /** `not` puts the bitwise complement of register 0 in register 2 and never faults. */
  lemma StepNot(m: Machine)
    requires m.Valid() && Holds(m.ram, m.Pc() as nat, [OpNot])
    ensures Step(m).Ok?
    ensures Step(m).value.regs[2] as int == MaxU64 as int - m.regs[0] as int
  {
    FetchPrefix(m, [OpNot], 0);
    assert Advance(m, 0) == m;
  }

  // ---------------------------------------------------------------------
  // Many cycles

  /** `run` only stops without a fault once the program counter is above 50. */
  lemma RunHalts(m: Machine, fuel: nat)
    requires m.Valid() && Run(m, fuel).Ok? && Run(m, fuel).value.0 == Halted
    ensures Run(m, fuel).value.1.Pc() as nat > HaltAbove
  {
    LoopHaltsAbove(Cycle, m, fuel);
  }

  /** A cycle that leaves the program counter at or below 50 is followed by the rest of the run. */
  lemma RunContinues(m: Machine, fuel: nat)
    requires m.Valid() && fuel > 0 && Step(m).Ok? && Step(m).value.Pc() as nat <= HaltAbove
    ensures Run(m, fuel) == Run(Step(m).value, fuel - 1)
  {
    LoopContinues(Cycle, m, Step(m).value, fuel);
  }

  /**
   * A run that has halted within `fuel` cycles halts in the same state with
   * any larger budget: the fuel bound only cuts off runs still going.
   */
  lemma HaltedMoreFuel(m: Machine, fuel: nat, more: nat)
    requires m.Valid() && fuel <= more
    requires Run(m, fuel).Ok? && Run(m, fuel).value.0 == Halted
    ensures Run(m, more) == Run(m, fuel)
  {
    LoopMoreFuel(Cycle, m, fuel, more);
  }

  /** A run that has faulted within `fuel` cycles faults the same way with any larger budget. */
  lemma FaultMoreFuel(m: Machine, fuel: nat, more: nat)
    requires m.Valid() && fuel <= more
    requires Run(m, fuel).Err?
    ensures Run(m, more) == Run(m, fuel)
  {
    LoopMoreFuel(Cycle, m, fuel, more);
  }

  /** A program counter at or below 50 over zero bytes up to address 50 slides to address 51 and halts. */
  lemma {:induction false} ZeroSlide(m: Machine)
    requires m.Valid() && m.Pc() as nat <= HaltAbove
    requires forall i :: m.Pc() as nat <= i <= HaltAbove ==> m.ram[i] == 0
    ensures Run(m, HaltAbove + 1 - m.Pc() as nat) == Ok((Halted, m.With(CounterReg, (HaltAbove + 1) as U64)))
    decreases HaltAbove - m.Pc() as nat
  {
    var pc := m.Pc() as nat;
    assert m.ram[pc..pc + 1] == [0];
    StepNop(m, 0);
    var n := Advance(m, 1);
    if pc < HaltAbove {
      LoopContinues(Cycle, m, n, HaltAbove + 1 - pc);
      ZeroSlide(n);
      assert n.With(CounterReg, (HaltAbove + 1) as U64) == m.With(CounterReg, (HaltAbove + 1) as U64);
    } else {
      LoopHalts(Cycle, m, n, 1);
    }
  }
}
