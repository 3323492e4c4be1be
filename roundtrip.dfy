/**
 * The assembler and the emulator agree: the bytes an encoder emits for a
 * line, placed at the program counter, are executed by one cycle as the
 * line's mnemonic means, consuming exactly those bytes (or jumping).
 */
module RoundTrip {

  import opened Wrappers
  import opened Encoding
  import opened Semantics
  import opened StepFacts
  import opened Assembler

  /** The width of type name `typ`. */
  function WidthOf(typ: string): Width
    requires TypeIndex(typ).Some?
  {
    TagWidth(TypeIndex(typ).value as int).value
  }

  /** `move <reg> <reg>`: the destination gets the source; the assembler counts one byte more than it writes. */
  lemma MoveRegisterRoundTrip(m: Machine, destination: string, source: string)
    requires m.Valid() && RegisterIndex(destination).Some? && RegisterIndex(source).Some?
    requires MoveInstruction([destination, source]).Ok?
    requires Holds(m.ram, m.Pc() as nat, MoveInstruction([destination, source]).value.bytes)
    ensures var d, s := RegisterIndex(destination).value as nat, RegisterIndex(source).value as nat;
      Step(m) == Ok(Advance(m, 2).With(d, Advance(m, 2).regs[s]))
    ensures var e := MoveInstruction([destination, source]).value;
      |e.bytes| == 2 && e.count == |e.bytes| + 1
  {
    var d, s := RegisterIndex(destination).value, RegisterIndex(source).value;
    assert MoveInstruction([destination, source]) == Ok(Encoded([OpMoveRegister, Pack(d, s)], 3));
    assert [OpMoveRegister, Pack(d, s)] == [OpMoveRegister] + [(d as nat * 16 + s as nat) as Byte];
    StepMoveRegister(m, d as nat, s as nat);
  }

  /** The literal operand of a `move` of type `typ`: a `byte` may also be a character. */
  function MoveOperand(typ: string, literal: string): nat
    requires TypeIndex(typ).Some?
    requires typ == "byte" ==> ByteLiteral(literal).Ok?
    requires typ != "byte" ==> ParseUnsigned(literal, Pow256(WidthOf(typ))).Some?
  {
    if typ == "byte" then ByteLiteral(literal).value as nat else ParseUnsigned(literal, Pow256(WidthOf(typ))).value
  }

  /** `move byte <reg> <literal>` emits the opcode, tag 0, the register and the byte (a numeral or a character). */
  lemma MoveByteEncoding(register: string, literal: string)
    requires RegisterIndex(register).Some? && ByteLiteral(literal).Ok?
    ensures MoveInstruction(["byte", register, literal]) ==
      Ok(Encoded([OpMoveLiteral, 0, RegisterIndex(register).value, ByteLiteral(literal).value], 4))
  {
  }

  /** `move dbyte|qbyte|obyte <reg> <numeral>` emits the opcode, the tag, the register and the value big-endian in the type's width. */
  lemma MoveWordEncoding(typ: string, register: string, literal: string)
    requires (typ == "dbyte" || typ == "qbyte" || typ == "obyte") && RegisterIndex(register).Some?
    requires ParseUnsigned(literal, Pow256(WidthOf(typ))).Some?
    ensures var w := WidthOf(typ);
      MoveInstruction([typ, register, literal]) ==
      Ok(Encoded([OpMoveLiteral, TypeIndex(typ).value, RegisterIndex(register).value] + BigEndian(ParseUnsigned(literal, Pow256(w)).value, w), 3 + w as nat))
  {
    if typ == "dbyte" {
      MoveDbyteEncoding(register, literal);
    } else if typ == "qbyte" {
      MoveQbyteEncoding(register, literal);
    } else {
      MoveObyteEncoding(register, literal);
    }
  }

  lemma MoveDbyteEncoding(register: string, literal: string)
    requires RegisterIndex(register).Some? && ParseUnsigned(literal, Pow256(2)).Some?
    ensures MoveInstruction(["dbyte", register, literal]) ==
      Ok(Encoded([OpMoveLiteral, 1, RegisterIndex(register).value] + BigEndian(ParseUnsigned(literal, Pow256(2)).value, 2), 5))
  {
    assert RegisterIndex("dbyte").None? && "dbyte" != "byte";
  }

  lemma MoveQbyteEncoding(register: string, literal: string)
    requires RegisterIndex(register).Some? && ParseUnsigned(literal, Pow256(4)).Some?
    ensures MoveInstruction(["qbyte", register, literal]) ==
      Ok(Encoded([OpMoveLiteral, 2, RegisterIndex(register).value] + BigEndian(ParseUnsigned(literal, Pow256(4)).value, 4), 7))
  {
    assert RegisterIndex("qbyte").None? && "qbyte" != "byte" && "qbyte" != "dbyte";
  }

  lemma MoveObyteEncoding(register: string, literal: string)
    requires RegisterIndex(register).Some? && ParseUnsigned(literal, Pow256(8)).Some?
    ensures MoveInstruction(["obyte", register, literal]) ==
      Ok(Encoded([OpMoveLiteral, 3, RegisterIndex(register).value] + BigEndian(ParseUnsigned(literal, Pow256(8)).value, 8), 11))
  {
    assert RegisterIndex("obyte").None? && "obyte" != "byte" && "obyte" != "dbyte" && "obyte" != "qbyte";
  }

  /** `move <type> <reg> <literal>`: the register gets the literal, and exactly the emitted bytes are consumed. */
  lemma MoveLiteralRoundTrip(m: Machine, typ: string, register: string, literal: string)
    requires m.Valid() && TypeIndex(typ).Some? && RegisterIndex(register).Some?
    requires typ == "byte" ==> ByteLiteral(literal).Ok?
    requires typ != "byte" ==> ParseUnsigned(literal, Pow256(WidthOf(typ))).Some?
    requires MoveInstruction([typ, register, literal]).Ok?
    requires Holds(m.ram, m.Pc() as nat, MoveInstruction([typ, register, literal]).value.bytes)
    ensures var e := MoveInstruction([typ, register, literal]).value;
      |e.bytes| == e.count == 3 + WidthOf(typ)
    ensures var w, value := WidthOf(typ), MoveOperand(typ, literal);
      && value < U64Limit
      && Step(m) == Ok(Advance(m, 3 + w).With(RegisterIndex(register).value as nat, value as U64))
  {
    var w, v, tag, r := WidthOf(typ), MoveOperand(typ, literal), TypeIndex(typ).value, RegisterIndex(register).value;
    WidthFits(w);
    if typ == "byte" {
      MoveByteEncoding(register, literal);
      MoveByteStep(m, r, v as Byte);
    } else {
      MoveWordEncoding(typ, register, literal);
      MoveWordStep(m, tag, r, w, v as U64);
    }
  }

  lemma MoveByteStep(m: Machine, register: Byte, b: Byte)
    requires m.Valid() && register < 16 && Holds(m.ram, m.Pc() as nat, [OpMoveLiteral, 0, register, b])
    ensures Step(m) == Ok(Advance(m, 4).With(register as nat, b as U64))
  {
    BigEndianByte(b);
    assert [OpMoveLiteral, 0, register, b] == [OpMoveLiteral] + ([0, register] + BigEndian(b as nat, 1));
    StepMoveLiteral(m, 0, register, 1, b as U64);
  }

  lemma MoveWordStep(m: Machine, tag: Byte, register: Byte, w: Width, v: U64)
    requires m.Valid() && TagWidth(tag as int) == Some(w) && register < 16 && (v as nat) < Pow256(w)
    requires Holds(m.ram, m.Pc() as nat, [OpMoveLiteral, tag, register] + BigEndian(v as nat, w))
    ensures Step(m) == Ok(Advance(m, 3 + w).With(register as nat, v))
  {
    assert [OpMoveLiteral, tag, register] + BigEndian(v as nat, w) == [OpMoveLiteral] + ([tag, register] + BigEndian(v as nat, w));
    StepMoveLiteral(m, tag, register, w, v);
  }

  /** `read <type> <reg> <address>`: the register gets the big-endian value stored at the address. */
  lemma ReadAbsoluteRoundTrip(m: Machine, typ: string, register: string, address: string)
    requires m.Valid() && TypeIndex(typ).Some? && RegisterIndex(register).Some?
    requires RegisterIndex(address).None? && ParseUnsigned(address, U64Limit).Some?
    requires ParseUnsigned(address, U64Limit).value + WidthOf(typ) <= RamSize
    requires ReadInstruction([typ, register, address]).Ok?
    requires Holds(m.ram, m.Pc() as nat, ReadInstruction([typ, register, address]).value.bytes)
    ensures var r, a, w := RegisterIndex(register).value as nat, ParseUnsigned(address, U64Limit).value, WidthOf(typ);
      && Step(m) == Ok(Advance(m, 11).With(r, ReadMem(m.ram, a, w).value))
      && BigEndian(Step(m).value.regs[r] as nat, w) == m.ram[a..a + w]
  {
    var w, tag, r, a := WidthOf(typ), TypeIndex(typ).value, RegisterIndex(register).value, ParseUnsigned(address, U64Limit).value;
    AbsoluteEncoding(OpReadAbsolute, typ, register, address);
    StepReadAbsolute(m, tag, r, w, a);
  }

  /** `read`/`write <type> <reg> <address>` emit the opcode, the tag, the register and the address as 8 bytes big-endian. */
  lemma AbsoluteEncoding(op: Byte, typ: string, register: string, address: string)
    requires op == OpReadAbsolute || op == OpWriteAbsolute
    requires TypeIndex(typ).Some? && RegisterIndex(register).Some?
    requires RegisterIndex(address).None? && ParseUnsigned(address, U64Limit).Some?
    ensures var e := if op == OpReadAbsolute then ReadInstruction([typ, register, address]) else WriteInstruction([typ, register, address]);
      e == Ok(Encoded([op] + ([TypeIndex(typ).value, RegisterIndex(register).value] + BigEndian(ParseUnsigned(address, U64Limit).value, 8)), 11))
  {
    var tag, r, a := TypeIndex(typ).value, RegisterIndex(register).value, ParseUnsigned(address, U64Limit).value;
    assert [op, tag, r] + BigEndian(a, 8) == [op] + ([tag, r] + BigEndian(a, 8));
  }

  /** `read <type> <reg> <reg>`: the address comes from the second register. */
  lemma ReadIndirectRoundTrip(m: Machine, typ: string, destination: string, source: string)
    requires m.Valid() && TypeIndex(typ).Some? && RegisterIndex(destination).Some? && RegisterIndex(source).Some?
    requires ReadInstruction([typ, destination, source]).Ok?
    requires Holds(m.ram, m.Pc() as nat, ReadInstruction([typ, destination, source]).value.bytes)
    requires Advance(m, 3).regs[RegisterIndex(source).value] as nat + WidthOf(typ) <= RamSize
    ensures var d, s, w := RegisterIndex(destination).value as nat, RegisterIndex(source).value as nat, WidthOf(typ);
      var a := Advance(m, 3).regs[s] as nat;
      && Step(m) == Ok(Advance(m, 3).With(d, ReadMem(m.ram, a, w).value))
      && BigEndian(Step(m).value.regs[d] as nat, w) == m.ram[a..a + w]
  {
    var w, tag, d, s := WidthOf(typ), TypeIndex(typ).value, RegisterIndex(destination).value, RegisterIndex(source).value;
    assert ReadInstruction([typ, destination, source]) == Ok(Encoded([OpReadIndirect, tag, Pack(d, s)], 3));
    assert [OpReadIndirect, tag, Pack(d, s)] == [OpReadIndirect] + [tag, (d as nat * 16 + s as nat) as Byte];
    StepReadIndirect(m, tag, d as nat, s as nat, w);
  }

  /** `write <type> <reg> <address>`: the register's low bytes land at the address; nothing else in memory changes. */
  lemma WriteAbsoluteRoundTrip(m: Machine, typ: string, register: string, address: string)
    requires m.Valid() && TypeIndex(typ).Some? && RegisterIndex(register).Some?
    requires RegisterIndex(address).None? && ParseUnsigned(address, U64Limit).Some?
    requires ParseUnsigned(address, U64Limit).value + WidthOf(typ) <= RamSize
    requires WriteInstruction([typ, register, address]).Ok?
    requires Holds(m.ram, m.Pc() as nat, WriteInstruction([typ, register, address]).value.bytes)
    ensures Step(m).Ok?
    ensures var r, a, w := RegisterIndex(register).value as nat, ParseUnsigned(address, U64Limit).value, WidthOf(typ);
      var n := Step(m).value;
      && n.regs == Advance(m, 11).regs
      && n.ram[a..a + w] == BigEndian(Advance(m, 11).regs[r] as nat, w)
      && forall i :: 0 <= i < RamSize && !(a <= i < a + w) ==> n.ram[i] == m.ram[i]
  {
    var w, tag, r, a := WidthOf(typ), TypeIndex(typ).value, RegisterIndex(register).value, ParseUnsigned(address, U64Limit).value;
    AbsoluteEncoding(OpWriteAbsolute, typ, register, address);
    StepWriteAbsolute(m, tag, r, w, a);
  }

  /** `write <type> <reg> <reg>`: the first register's low bytes land at the address held by the second. */
  lemma WriteIndirectRoundTrip(m: Machine, typ: string, source: string, target: string)
    requires m.Valid() && TypeIndex(typ).Some? && RegisterIndex(source).Some? && RegisterIndex(target).Some?
    requires WriteInstruction([typ, source, target]).Ok?
    requires Holds(m.ram, m.Pc() as nat, WriteInstruction([typ, source, target]).value.bytes)
    requires Advance(m, 3).regs[RegisterIndex(target).value] as nat + WidthOf(typ) <= RamSize
    ensures Step(m).Ok?
    ensures var s, t, w := RegisterIndex(source).value as nat, RegisterIndex(target).value as nat, WidthOf(typ);
      var n := Step(m).value; var a := Advance(m, 3).regs[t] as nat;
      && n.regs == Advance(m, 3).regs
      && n.ram[a..a + w] == BigEndian(Advance(m, 3).regs[s] as nat, w)
      && forall i :: 0 <= i < RamSize && !(a <= i < a + w) ==> n.ram[i] == m.ram[i]
  {
    var w, tag, s, t := WidthOf(typ), TypeIndex(typ).value, RegisterIndex(source).value, RegisterIndex(target).value;
    assert WriteInstruction([typ, source, target]) == Ok(Encoded([OpWriteIndirect, tag, Pack(s, t)], 3));
    assert [OpWriteIndirect, tag, Pack(s, t)] == [OpWriteIndirect] + [tag, (s as nat * 16 + t as nat) as Byte];
    StepWriteIndirect(m, tag, s as nat, t as nat, w);
  }

  /** `push <type> <reg>`: the register's value goes on the stack. */
  lemma PushRegisterRoundTrip(m: Machine, typ: string, register: string)
    requires m.Valid() && TypeIndex(typ).Some? && RegisterIndex(register).Some?
    requires PushInstruction([typ, register]).Ok?
    requires Holds(m.ram, m.Pc() as nat, PushInstruction([typ, register]).value.bytes)
    ensures var r := RegisterIndex(register).value as nat;
      Step(m) == PushStack(Advance(m, 3), Advance(m, 3).regs[r], WidthOf(typ))
  {
    var w, tag, r := WidthOf(typ), TypeIndex(typ).value, RegisterIndex(register).value;
    assert PushInstruction([typ, register]) == Ok(Encoded([OpPushRegister, tag, r], 3));
    assert [OpPushRegister, tag, r] == [OpPushRegister] + [tag, r];
    StepPushRegister(m, tag, r, w);
  }

  /** `push <type> <literal>` emits the opcode, the tag and the literal big-endian in the type's width. */
  lemma PushLiteralEncoding(typ: string, literal: string)
    requires TypeIndex(typ).Some? && RegisterIndex(literal).None?
    requires PushInstruction([typ, literal]).Ok?
    ensures var w := WidthOf(typ);
      && ParseUnsigned(literal, Pow256(w)).Some?
      && PushInstruction([typ, literal]) ==
         Ok(Encoded([OpPushLiteral, TypeIndex(typ).value] + BigEndian(ParseUnsigned(literal, Pow256(w)).value, w), 2 + w as nat))
  {
    if typ == "byte" {
      var v := ParseUnsigned(literal, Pow256(1)).value;
      assert TypeIndex(typ) == Some(0);
      BigEndianByte(v as Byte);
      assert [OpPushLiteral, 0, v as Byte] == [OpPushLiteral, 0] + BigEndian(v, 1);
    } else if typ == "dbyte" {
      assert TypeIndex(typ) == Some(1);
    } else if typ == "qbyte" {
      assert TypeIndex(typ) == Some(2);
    } else {
      assert TypeIndex(typ) == Some(3);
    }
  }

  /** `push <type> <literal>`: the literal goes on the stack, and exactly the emitted bytes are consumed. */
  lemma PushLiteralRoundTrip(m: Machine, typ: string, literal: string)
    requires m.Valid() && TypeIndex(typ).Some? && RegisterIndex(literal).None?
    requires PushInstruction([typ, literal]).Ok?
    requires Holds(m.ram, m.Pc() as nat, PushInstruction([typ, literal]).value.bytes)
    ensures var w := WidthOf(typ);
      && ParseUnsigned(literal, Pow256(w)).Some?
      && var v := ParseUnsigned(literal, Pow256(w)).value;
      && v < U64Limit
      && Step(m) == PushStack(Advance(m, 2 + w), v as U64, w)
    ensures |PushInstruction([typ, literal]).value.bytes| == 2 + WidthOf(typ)
  {
    var w, tag := WidthOf(typ), TypeIndex(typ).value;
    PushLiteralEncoding(typ, literal);
    WidthFits(w);
    PushLiteralStep(m, tag, w, ParseUnsigned(literal, Pow256(w)).value as U64);
  }

  lemma PushLiteralStep(m: Machine, tag: Byte, w: Width, v: U64)
    requires m.Valid() && TagWidth(tag as int) == Some(w) && (v as nat) < Pow256(w)
    requires Holds(m.ram, m.Pc() as nat, [OpPushLiteral, tag] + BigEndian(v as nat, w))
    ensures Step(m) == PushStack(Advance(m, 2 + w), v, w)
  {
    assert [OpPushLiteral, tag] + BigEndian(v as nat, w) == [OpPushLiteral] + ([tag] + BigEndian(v as nat, w));
    StepPushLiteral(m, tag, w, v);
  }

  /** `pop <type> <reg>`: the value on top of the stack goes to the register. */
  lemma PopRoundTrip(m: Machine, typ: string, register: string)
    requires m.Valid() && TypeIndex(typ).Some? && RegisterIndex(register).Some?
    requires PopInstruction([typ, register]).Ok?
    requires Holds(m.ram, m.Pc() as nat, PopInstruction([typ, register]).value.bytes)
    ensures var p := PopStack(Advance(m, 3), WidthOf(typ)); var r := RegisterIndex(register).value as nat;
      Step(m) == if p.Ok? then Ok(p.value.next.With(r, p.value.value)) else Err(p.error)
  {
    var w, tag, r := WidthOf(typ), TypeIndex(typ).value, RegisterIndex(register).value;
    assert PopInstruction([typ, register]) == Ok(Encoded([OpPop, tag, r], 3));
    assert [OpPop, tag, r] == [OpPop] + [tag, r];
    StepPop(m, tag, r, w);
  }

  /** `jump <address>`: the program counter becomes the address. */
  lemma JumpAddressRoundTrip(m: Machine, target: string, offset: nat)
    requires m.Valid() && ParseUnsigned(target, U64Limit).Some?
    requires JumpInstruction([target], offset).Ok?
    requires Holds(m.ram, m.Pc() as nat, JumpInstruction([target], offset).value.bytes)
    ensures Step(m) == Ok(m.With(CounterReg, ParseUnsigned(target, U64Limit).value as U64))
  {
    var a := ParseUnsigned(target, U64Limit).value;
    assert JumpInstruction([target], offset) == Ok(JumpEncoded([OpJump] + BigEndian(a, 8), 9, None));
    StepJump(m, a as U64);
  }

  /**
   * `jump <address> <condition>`: taken exactly when register 2 holds the
   * condition as 0 or 1; the assembler advances its offset 9 bytes more
   * than the 10 it writes.
   */
  lemma JumpAddressIfRoundTrip(m: Machine, target: string, condition: string, offset: nat)
    requires m.Valid() && ParseUnsigned(target, U64Limit).Some? && (condition == "true" || condition == "false")
    requires JumpInstruction([target, condition], offset).Ok?
    requires Holds(m.ram, m.Pc() as nat, JumpInstruction([target, condition], offset).value.bytes)
    ensures var c: U64 := if condition == "true" then 1 else 0;
      Step(m) == Ok(if m.regs[2] == c then m.With(CounterReg, ParseUnsigned(target, U64Limit).value as U64) else Advance(m, 10))
    ensures var j := JumpInstruction([target, condition], offset).value;
      |j.bytes| == 10 && j.advance == |j.bytes| + 9
  {
    var a := ParseUnsigned(target, U64Limit).value;
    var c: Byte := if condition == "true" then 1 else 0;
    JumpAddressIfEncoding(target, condition, offset);
    StepJumpIf(m, c, a as U64);
  }

  lemma JumpAddressIfEncoding(target: string, condition: string, offset: nat)
    requires ParseUnsigned(target, U64Limit).Some? && (condition == "true" || condition == "false")
    ensures var a := ParseUnsigned(target, U64Limit).value; var c: Byte := if condition == "true" then 1 else 0;
      JumpInstruction([target, condition], offset) == Ok(JumpEncoded([OpJumpIf] + ([c] + BigEndian(a as U64 as nat, 8)), 19, None))
  {
    var a := ParseUnsigned(target, U64Limit).value;
    var c: Byte := if condition == "true" then 1 else 0;
    assert Condition(condition) == Ok(c);
    assert [OpJumpIf, c] + BigEndian(a, 8) == [OpJumpIf] + ([c] + BigEndian(a as U64 as nat, 8));
  }

  /** `jump <register>`: the program counter becomes the register's value as it is after the fetch. */
  lemma JumpRegisterRoundTrip(m: Machine, target: string, offset: nat)
    requires m.Valid() && RegisterIndex(target).Some? && ParseUnsigned(target, U64Limit).None?
    requires JumpInstruction([target], offset).Ok?
    requires Holds(m.ram, m.Pc() as nat, JumpInstruction([target], offset).value.bytes)
    ensures Step(m) == Ok(m.With(CounterReg, Advance(m, 2).regs[RegisterIndex(target).value]))
  {
    var r := RegisterIndex(target).value;
    assert JumpInstruction([target], offset) == Ok(JumpEncoded([OpJumpRegister, r], 2, None));
    assert [OpJumpRegister, r] == [OpJumpRegister] + [r];
    StepJumpRegister(m, r);
  }

  /** `jump <register> <condition>`: taken exactly when register 2 holds the condition as 0 or 1. */
  lemma JumpRegisterIfRoundTrip(m: Machine, target: string, condition: string, offset: nat)
    requires m.Valid() && RegisterIndex(target).Some? && ParseUnsigned(target, U64Limit).None?
    requires condition == "true" || condition == "false"
    requires JumpInstruction([target, condition], offset).Ok?
    requires Holds(m.ram, m.Pc() as nat, JumpInstruction([target, condition], offset).value.bytes)
    ensures var c: U64 := if condition == "true" then 1 else 0; var r := RegisterIndex(target).value;
      Step(m) == Ok(if m.regs[2] == c then m.With(CounterReg, Advance(m, 3).regs[r]) else Advance(m, 3))
  {
    var r := RegisterIndex(target).value;
    var c: Byte := if condition == "true" then 1 else 0;
    assert JumpInstruction([target, condition], offset) == Ok(JumpEncoded([OpJumpRegisterIf, c, r], 3, None));
    assert [OpJumpRegisterIf, c, r] == [OpJumpRegisterIf] + [c, r];
    StepJumpRegisterIf(m, c, r);
  }

  /**
   * `jump <label>`: once pass 3 has written the label's address over the
   * placeholder, the program counter becomes that address.
   */
  lemma JumpLabelRoundTrip(m: Machine, name: string, offset: nat, address: nat)
    requires m.Valid() && ParseUnsigned(name, U64Limit).None? && RegisterIndex(name).None?
    requires JumpInstruction([name], offset).Ok? && address < U64Limit
    requires var j := JumpInstruction([name], offset).value;
      Holds(m.ram, m.Pc() as nat, j.bytes[..j.reference.value.patchAt - offset] + BigEndian(address, 8))
    ensures Step(m) == Ok(m.With(CounterReg, address as U64))
  {
    assert JumpInstruction([name], offset) == Ok(JumpEncoded([OpJump] + Zeros(8), 9, Some(Reference(name, offset + 1))));
    assert ([OpJump] + Zeros(8))[..1] == [OpJump];
    StepJump(m, address as U64);
  }

  /** `jump <name> <condition>`: after pass 3, taken to the name's address exactly when register 2 holds the condition. */
  lemma JumpLabelIfRoundTrip(m: Machine, name: string, condition: string, offset: nat, address: nat)
    requires m.Valid() && ParseUnsigned(name, U64Limit).None? && RegisterIndex(name).None?
    requires condition == "true" || condition == "false"
    requires JumpInstruction([name, condition], offset).Ok? && address < U64Limit
    requires var j := JumpInstruction([name, condition], offset).value;
      Holds(m.ram, m.Pc() as nat, j.bytes[..j.reference.value.patchAt - offset] + BigEndian(address, 8))
    ensures var c: U64 := if condition == "true" then 1 else 0;
      Step(m) == Ok(if m.regs[2] == c then m.With(CounterReg, address as U64) else Advance(m, 10))
  {
    var c: Byte := if condition == "true" then 1 else 0;
    assert JumpInstruction([name, condition], offset) ==
      Ok(JumpEncoded([OpJumpIf, c] + Zeros(8), 10, Some(Reference(name, offset + 2))));
    assert ([OpJumpIf, c] + Zeros(8))[..2] + BigEndian(address, 8) == [OpJumpIf] + ([c] + BigEndian(address as U64 as nat, 8));
    StepJumpIf(m, c, address as U64);
  }

  /** `add` … `xor`: the one emitted byte is the opcode of the ALU operation the mnemonic names. */
  lemma AluRoundTrip(m: Machine, mnemonic: string)
    requires m.Valid() && AluInstruction(mnemonic).Some?
    requires Holds(m.ram, m.Pc() as nat, AluInstruction(mnemonic).value.bytes)
    ensures var op := AluInstruction(mnemonic).value.bytes[0];
      && AluMnemonics[op - OpAdd] == mnemonic
      && Step(m) == ExecAlu(op, Advance(m, 1))
  {
    var e := AluInstruction(mnemonic).value;
    assert e.bytes == [e.bytes[0]];
    StepAlu(m, e.bytes[0]);
  }
}
