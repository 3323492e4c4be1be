/**
 * Whole programs: a few assembled sources, what pass 2 and pass 3 make of
 * them, and what running the result does.
 */
module Scenarios {

  import opened Wrappers
  import opened Encoding
  import opened Semantics
  import opened StepFacts
  import opened Assembler
  import opened AssemblerDriver
  import opened RoundTrip

  /** A `move byte <reg> <n>` line appends the 4 bytes of opcode 2. */
  lemma MoveByteLine(st: Pass2, register: string, n: nat)
    requires RegisterIndex(register).Some? && n < 256
    ensures AssembleLine(st, ["move", "byte", register, Decimal(n)]) ==
      Ok(Emit(st, Encoded([OpMoveLiteral, 0, RegisterIndex(register).value, n as Byte], 4)))
  {
    ParseDecimal(n, 256);
    assert ["move", "byte", register, Decimal(n)][1..] == ["byte", register, Decimal(n)];
    MoveByteEncoding(register, Decimal(n));
  }

  const AddSource: seq<seq<string>> := [["move", "byte", "a", "5"], ["move", "byte", "b", "3"], ["add"]]
  const AddBinary: seq<Byte> := [OpMoveLiteral, 0, 0, 5, OpMoveLiteral, 0, 1, 3, OpAdd]

  /** The add program's pass-2 state after each line. */
  const AddAfter1 := Pass2([OpMoveLiteral, 0, 0, 5], 4, map[], map[])
  const AddAfter2 := Pass2([OpMoveLiteral, 0, 0, 5, OpMoveLiteral, 0, 1, 3], 8, map[], map[])
  const AddAfter3 := Pass2(AddBinary, 9, map[], map[])

  lemma AddLine1()
    ensures AssembleLine(Start, AddSource[0]) == Ok(AddAfter1)
  {
    assert Decimal(5) == "5" && RegisterIndex("a") == Some(0);
    MoveByteLine(Start, "a", 5);
    assert AddSource[0] == ["move", "byte", "a", Decimal(5)];
    assert Emit(Start, Encoded([OpMoveLiteral, 0, 0, 5], 4)) == AddAfter1;
  }

  lemma AddLine2()
    ensures AssembleLine(AddAfter1, AddSource[1]) == Ok(AddAfter2)
  {
    assert Decimal(3) == "3" && RegisterIndex("b") == Some(1);
    MoveByteLine(AddAfter1, "b", 3);
    assert AddSource[1] == ["move", "byte", "b", Decimal(3)];
    assert Emit(AddAfter1, Encoded([OpMoveLiteral, 0, 1, 3], 4)) == AddAfter2;
  }

  lemma AddLine3()
    ensures AssembleLine(AddAfter2, AddSource[2]) == Ok(AddAfter3)
  {
    assert AluInstruction("add") == Some(Encoded([OpAdd], 1));
    assert AddSource[2] == ["add"] && AddAfter2.out + [OpAdd] == AddBinary;
  }

  /** Pass 2 of the add program: nine bytes, no labels. */
  lemma AddAssembles()
    ensures AssembleLines(Start, AddSource) == Ok(AddAfter3)
  {
    AddLine1();
    AddLine2();
    AddLine3();
    assert AssembleLines(AddAfter3, AddSource[3..]) == Ok(AddAfter3);
    assert AddSource[2..][1..] == AddSource[3..];
    assert AssembleLines(AddAfter2, AddSource[2..]) == Ok(AddAfter3);
    assert AddSource[1..][1..] == AddSource[2..];
    assert AssembleLines(AddAfter1, AddSource[1..]) == Ok(AddAfter3);
  }

  /** Loading the add program: the bytes at address 0, zeros after them. */
  lemma AddLoads()
    ensures Load(AddBinary).Ok?
    ensures var m := Load(AddBinary).value;
      && Holds(m.ram, 0, [OpMoveLiteral] + ([0, 0] + BigEndian(5, 1)))
      && Holds(m.ram, 4, [OpMoveLiteral] + ([0, 1] + BigEndian(3, 1)))
      && Holds(m.ram, 8, [OpAdd])
      && m.Pc() == 0
      && forall i :: 9 <= i <= HaltAbove ==> m.ram[i] == 0
  {
    var m := Load(AddBinary).value;
    BigEndianByte(5);
    BigEndianByte(3);
    assert m.ram[..9] == AddBinary;
    assert m.ram[0..4] == AddBinary[0..4];
    assert m.ram[4..8] == AddBinary[4..8];
    assert m.ram[8..9] == AddBinary[8..9];
  }

  /** `move byte <reg> <b>` at the program counter sets that register alone and moves on by 4. */
  lemma MoveByteRuns(m: Machine, register: Byte, b: Byte)
    requires m.Valid() && register < 16 && register as nat != CounterReg
    requires Holds(m.ram, m.Pc() as nat, [OpMoveLiteral] + ([0, register] + BigEndian(b as nat, 1)))
    ensures Step(m).Ok?
    ensures var n := Step(m).value;
      && n.ram == m.ram && n.Pc() as nat == m.Pc() as nat + 4 && n.regs[register] == b as U64
      && forall i :: 0 <= i < RegisterCount && i != register as nat && i != CounterReg ==> n.regs[i] == m.regs[i]
  {
    StepMoveLiteral(m, 0, register, 1, b as U64);
  }

  /**
   * An `add` at the program counter, followed by zeros up to address 50:
   * register 2 gets the sum and the run halts with the program counter at 51.
   */
  lemma AddRunsOn(m: Machine, fuel: nat)
    requires m.Valid() && Holds(m.ram, m.Pc() as nat, [OpAdd]) && m.Pc() as nat < HaltAbove
    requires m.regs[0] as nat + m.regs[1] as nat < U64Limit
    requires forall i :: m.Pc() as nat < i <= HaltAbove ==> m.ram[i] == 0
    requires fuel == HaltAbove + 1 - m.Pc() as nat
    ensures var r := Run(m, fuel);
      && r.Ok? && r.value.0 == Halted
      && r.value.1.regs[0] == m.regs[0] && r.value.1.regs[1] == m.regs[1]
      && r.value.1.regs[2] as nat == m.regs[0] as nat + m.regs[1] as nat
      && r.value.1.Pc() as nat == HaltAbove + 1
  {
    StepArithmetic(m, OpAdd);
    StepAluFrame(m, OpAdd);
    var n := Step(m).value;
    RunContinues(m, fuel);
    ZeroSlide(n);
  }

  /**
   * Running the add program: two literal moves and an `add` leave 5 + 3 in
   * register 2; the zero bytes after it then carry the program counter
   * past 50, 45 cycles in all.
   */
  lemma AddRunsFrom(m0: Machine)
    requires m0.Valid() && m0.Pc() == 0
    requires Holds(m0.ram, 0, [OpMoveLiteral] + ([0, 0] + BigEndian(5, 1)))
    requires Holds(m0.ram, 4, [OpMoveLiteral] + ([0, 1] + BigEndian(3, 1)))
    requires Holds(m0.ram, 8, [OpAdd])
    requires forall i :: 9 <= i <= HaltAbove ==> m0.ram[i] == 0
    ensures var r := Run(m0, 45);
      && r.Ok? && r.value.0 == Halted
      && r.value.1.regs[0] == 5 && r.value.1.regs[1] == 3 && r.value.1.regs[2] == 8
      && r.value.1.Pc() as nat == HaltAbove + 1
  {
    MoveByteRuns(m0, 0, 5);
    var m1 := Step(m0).value;
    RunContinues(m0, 45);
    MoveByteRuns(m1, 1, 3);
    var m2 := Step(m1).value;
    RunContinues(m1, 44);
    AddRunsOn(m2, 43);
  }

  lemma AddRuns()
    ensures Load(AddBinary).Ok?
    ensures var r := Run(Load(AddBinary).value, 45);
      && r.Ok? && r.value.0 == Halted
      && r.value.1.regs[0] == 5 && r.value.1.regs[1] == 3 && r.value.1.regs[2] == 8
  {
    AddLoads();
    AddRunsFrom(Load(AddBinary).value);
  }

  /** With no pending references, pass 3 leaves the output as it is. */
  lemma NothingToPatch(before: seq<Byte>, after: seq<Byte>, found: map<string, nat>)
    ensures Backpatched(before, after, found, map[]) <==> after == before
  {
    if Backpatched(before, after, found, map[]) {
      assert |after| == |before|;
      forall i | 0 <= i < |after|
        ensures after[i] == before[i]
      {
        assert Untouched(map[], {}, i);
      }
    }
  }

  /** The add program is what the assembler produces, and the only thing. */
  lemma AddProgram(bin: seq<Byte>)
    ensures Assembles(AddSource, bin) <==> bin == AddBinary
  {
    AddAssembles();
    NothingToPatch(AddBinary, bin, map[]);
  }

  // ---------------------------------------------------------------------
  // A forward jump to a label

  const JumpSource: seq<seq<string>> :=
    [["jump", "skip"], ["move", "byte", "a", "1"], [":skip"], ["move", "byte", "b", "2"], ["add"]]

  /** Pass 2 output: the jump's address is still an 8-byte zero placeholder at offset 1. */
  const JumpUnpatched: seq<Byte> :=
    [OpJump, 0, 0, 0, 0, 0, 0, 0, 0, OpMoveLiteral, 0, 0, 1, OpMoveLiteral, 0, 1, 2, OpAdd]

  /** Pass 3 output: the placeholder holds 13, the offset of `:skip`. */
  const JumpBinary: seq<Byte> :=
    [OpJump, 0, 0, 0, 0, 0, 0, 0, 13, OpMoveLiteral, 0, 0, 1, OpMoveLiteral, 0, 1, 2, OpAdd]

  const JumpAfter1 := Pass2(JumpUnpatched[..9], 9, map[], map["skip" := 1])
  const JumpAfter2 := Pass2(JumpUnpatched[..13], 13, map[], map["skip" := 1])
  const JumpAfter3 := Pass2(JumpUnpatched[..13], 13, map["skip" := 13], map["skip" := 1])
  const JumpAfter4 := Pass2(JumpUnpatched[..17], 17, map["skip" := 13], map["skip" := 1])
  const JumpAfter5 := Pass2(JumpUnpatched, 18, map["skip" := 13], map["skip" := 1])

  lemma JumpLine1()
    ensures AssembleLine(Start, JumpSource[0]) == Ok(JumpAfter1)
  {
    assert JumpSource[0] == ["jump", "skip"] && JumpSource[0][1..] == ["skip"];
    assert !IsDigit("skip"[0]);
    assert ParseUnsigned("skip", U64Limit).None?;
    assert RegisterIndex("skip").None?;
    assert JumpInstruction(["skip"], 0) == Ok(JumpEncoded([OpJump] + Zeros(8), 9, Some(Reference("skip", 1))));
    assert [] + ([OpJump] + Zeros(8)) == JumpUnpatched[..9];
  }

  lemma JumpLine2()
    ensures AssembleLine(JumpAfter1, JumpSource[1]) == Ok(JumpAfter2)
  {
    assert Decimal(1) == "1" && RegisterIndex("a") == Some(0);
    MoveByteLine(JumpAfter1, "a", 1);
    assert JumpSource[1] == ["move", "byte", "a", Decimal(1)];
    assert JumpAfter1.out + [OpMoveLiteral, 0, 0, 1] == JumpUnpatched[..13];
  }

  lemma JumpLine3()
    ensures AssembleLine(JumpAfter2, JumpSource[2]) == Ok(JumpAfter3)
  {
    assert JumpSource[2] == [":skip"] && ":skip"[1..] == "skip";
    assert AluInstruction(":skip").None? && TypeIndex(":skip").None?;
  }

  lemma JumpLine4()
    ensures AssembleLine(JumpAfter3, JumpSource[3]) == Ok(JumpAfter4)
  {
    assert Decimal(2) == "2" && RegisterIndex("b") == Some(1);
    MoveByteLine(JumpAfter3, "b", 2);
    assert JumpSource[3] == ["move", "byte", "b", Decimal(2)];
    assert JumpAfter3.out + [OpMoveLiteral, 0, 1, 2] == JumpUnpatched[..17];
  }

  lemma JumpLine5()
    ensures AssembleLine(JumpAfter4, JumpSource[4]) == Ok(JumpAfter5)
  {
    assert AluInstruction("add") == Some(Encoded([OpAdd], 1));
    assert JumpSource[4] == ["add"] && JumpAfter4.out + [OpAdd] == JumpUnpatched;
  }

  /** Pass 2 of the jump program: `skip` found at 13, mentioned with its placeholder at 1. */
  lemma JumpAssembles()
    ensures AssembleLines(Start, JumpSource) == Ok(JumpAfter5)
  {
    JumpLine1();
    JumpLine2();
    JumpLine3();
    JumpLine4();
    JumpLine5();
    assert JumpSource[4..][1..] == JumpSource[5..] == [];
    assert AssembleLines(JumpAfter4, JumpSource[4..]) == Ok(JumpAfter5);
    assert JumpSource[3..][1..] == JumpSource[4..];
    assert AssembleLines(JumpAfter3, JumpSource[3..]) == Ok(JumpAfter5);
    assert JumpSource[2..][1..] == JumpSource[3..];
    assert AssembleLines(JumpAfter2, JumpSource[2..]) == Ok(JumpAfter5);
    assert JumpSource[1..][1..] == JumpSource[2..];
    assert AssembleLines(JumpAfter1, JumpSource[1..]) == Ok(JumpAfter5);
  }

  lemma ThirteenBigEndian()
    ensures BigEndian(13, 8) == [0, 0, 0, 0, 0, 0, 0, 13]
  {
  }

  /** Pass 2 and pass 3 output differ only in the placeholder. */
  lemma JumpOutsidePlaceholder()
    ensures |JumpUnpatched| == |JumpBinary| == 18
    ensures forall i :: 0 <= i < 18 && !(1 <= i < 9) ==> JumpUnpatched[i] == JumpBinary[i]
  {
    assert JumpUnpatched[..1] == JumpBinary[..1] && JumpUnpatched[9..] == JumpBinary[9..];
    forall i | 0 <= i < 18 && !(1 <= i < 9)
      ensures JumpUnpatched[i] == JumpBinary[i]
    {
      if i == 0 {
        assert JumpUnpatched[..1][0] == JumpUnpatched[0];
      } else {
        assert JumpUnpatched[9..][i - 9] == JumpUnpatched[i] && JumpBinary[9..][i - 9] == JumpBinary[i];
      }
    }
  }

  /** Pass 3 on the jump program's pass-2 output yields exactly `JumpBinary`. */
  lemma JumpPatch(bin: seq<Byte>)
    ensures Backpatched(JumpUnpatched, bin, map["skip" := 13], map["skip" := 1]) <==> bin == JumpBinary
  {
    if Backpatched(JumpUnpatched, bin, map["skip" := 13], map["skip" := 1]) {
      OnePlaceholder(JumpUnpatched, bin, map["skip" := 13], "skip", 1);
      JumpPatchOnly(bin);
    }
    if bin == JumpBinary {
      JumpPatchHolds();
    }
  }

  lemma JumpPatchOnly(bin: seq<Byte>)
    requires |bin| == 18 && bin[1..9] == BigEndian(13, 8)
    requires forall i :: 0 <= i < 18 && !(1 <= i < 9) ==> bin[i] == JumpUnpatched[i]
    ensures bin == JumpBinary
  {
    ThirteenBigEndian();
    JumpOutsidePlaceholder();
    assert JumpBinary[1..9] == BigEndian(13, 8);
    SameOutsideAndInside(bin, JumpBinary, 1, 8);
  }

  /** Two sequences of one length that agree inside a window and outside it are equal. */
  lemma SameOutsideAndInside(a: seq<Byte>, b: seq<Byte>, at: nat, k: nat)
    requires |a| == |b| && at + k <= |a| && a[at..at + k] == b[at..at + k]
    requires forall i :: 0 <= i < |a| && !(at <= i < at + k) ==> a[i] == b[i]
    ensures a == b
  {
    forall i | 0 <= i < |a|
      ensures a[i] == b[i]
    {
      if at <= i < at + k {
        assert a[at..at + k][i - at] == b[at..at + k][i - at];
      }
    }
  }

  /** With one pending reference inside the output, pass 3 rewrites just its 8 bytes. */
  lemma OnePlaceholder(before: seq<Byte>, after: seq<Byte>, found: map<string, nat>, name: string, at: nat)
    requires name in found && at + 8 <= |before|
    requires Backpatched(before, after, found, map[name := at])
    ensures |after| == |before| && after[at..at + 8] == BigEndian(found[name], 8)
    ensures forall i :: 0 <= i < |after| && !(at <= i < at + 8) ==> after[i] == before[i]
  {
    var mentioned := map[name := at];
    assert mentioned.Keys == {name};
    forall i | 0 <= i < |after| && !(at <= i < at + 8)
      ensures after[i] == before[i]
    {
      assert Untouched(mentioned, {name}, i);
    }
  }

  lemma JumpPatchHolds()
    ensures Backpatched(JumpUnpatched, JumpBinary, map["skip" := 13], map["skip" := 1])
  {
    var found, mentioned := map["skip" := 13], map["skip" := 1];
    ThirteenBigEndian();
    JumpOutsidePlaceholder();
    assert JumpBinary[1..9] == [0, 0, 0, 0, 0, 0, 0, 13];
    assert mentioned.Keys == {"skip"};
    forall i | 0 <= i < 18 && Untouched(mentioned, {"skip"}, i)
      ensures JumpBinary[i] == JumpUnpatched[i]
    {
      assert !(1 <= i < 9);
    }
  }

  /** The jump program assembles to `JumpBinary`, and only to it. */
  lemma JumpProgram(bin: seq<Byte>)
    ensures Assembles(JumpSource, bin) <==> bin == JumpBinary
  {
    JumpAssembles();
    JumpPatch(bin);
  }

  /** Loading the jump program: the patched jump, the two moves, `add`, then zeros. */
  lemma JumpLoads()
    ensures Load(JumpBinary).Ok?
    ensures var m := Load(JumpBinary).value;
      && Holds(m.ram, 0, [OpJump] + BigEndian(13, 8))
      && Holds(m.ram, 13, [OpMoveLiteral] + ([0, 1] + BigEndian(2, 1)))
      && Holds(m.ram, 17, [OpAdd])
      && m.Pc() == 0 && m.regs[0] == 0
      && forall i :: 18 <= i <= HaltAbove ==> m.ram[i] == 0
  {
    var m := Load(JumpBinary).value;
    ThirteenBigEndian();
    BigEndianByte(2);
    assert m.ram[..18] == JumpBinary;
    assert m.ram[0..9] == JumpBinary[0..9];
    assert m.ram[13..17] == JumpBinary[13..17];
    assert m.ram[17..18] == JumpBinary[17..18];
  }

  /**
   * Running the jump program: the jump lands on `:skip`, so the first
   * move never runs and register 2 ends as 0 + 2.
   */
  lemma JumpRunsFrom(m0: Machine)
    requires m0.Valid() && m0.Pc() == 0 && m0.regs[0] == 0
    requires Holds(m0.ram, 0, [OpJump] + BigEndian(13, 8))
    requires Holds(m0.ram, 13, [OpMoveLiteral] + ([0, 1] + BigEndian(2, 1)))
    requires Holds(m0.ram, 17, [OpAdd])
    requires forall i :: 18 <= i <= HaltAbove ==> m0.ram[i] == 0
    ensures var r := Run(m0, 36);
      && r.Ok? && r.value.0 == Halted
      && r.value.1.regs[0] == 0 && r.value.1.regs[1] == 2 && r.value.1.regs[2] == 2
  {
    StepJump(m0, 13);
    var m1 := Step(m0).value;
    RunContinues(m0, 36);
    MoveByteRuns(m1, 1, 2);
    var m2 := Step(m1).value;
    RunContinues(m1, 35);
    AddRunsOn(m2, 34);
  }

  lemma JumpRuns()
    ensures Load(JumpBinary).Ok?
    ensures var r := Run(Load(JumpBinary).value, 36);
      && r.Ok? && r.value.0 == Halted
      && r.value.1.regs[0] == 0 && r.value.1.regs[1] == 2 && r.value.1.regs[2] == 2
  {
    JumpLoads();
    JumpRunsFrom(Load(JumpBinary).value);
  }

  // ---------------------------------------------------------------------
  // A label written with its colon in the jump

  const ColonSource: seq<seq<string>> := [["jump", ":end"], [":end"]]

  const ColonAfter1 := Pass2([OpJump] + Zeros(8), 9, map[], map[":end" := 1])
  const ColonAfter2 := Pass2([OpJump] + Zeros(8), 9, map["end" := 9], map[":end" := 1])

  lemma ColonLines()
    ensures AssembleLine(Start, ColonSource[0]) == Ok(ColonAfter1)
    ensures AssembleLine(ColonAfter1, ColonSource[1]) == Ok(ColonAfter2)
  {
    assert ColonSource[0] == ["jump", ":end"] && ColonSource[0][1..] == [":end"] && !IsDigit(":end"[0]);
    assert ParseUnsigned(":end", U64Limit).None? && RegisterIndex(":end").None?;
    assert [] + ([OpJump] + Zeros(8)) == [OpJump] + Zeros(8);
    assert ColonSource[1] == [":end"] && ":end"[1..] == "end";
    assert AluInstruction(":end").None? && TypeIndex(":end").None?;
  }

  /**
   * `jump :end` records the reference under the name `:end`, while the
   * declaration `:end` is stored as `end`: pass 3 finds no such label,
   * so no binary is the assembly of this source.
   */
  lemma ColonTargetUndeclared()
    ensures AssembleLines(Start, ColonSource) == Ok(ColonAfter2)
    ensures forall bin :: !Assembles(ColonSource, bin)
  {
    ColonLines();
    assert ColonSource[1..][1..] == [];
    assert AssembleLines(ColonAfter1, ColonSource[1..]) == Ok(ColonAfter2);
    assert ":end" in ColonAfter2.mentioned && ":end" !in ColonAfter2.found;
  }

  // ---------------------------------------------------------------------
  // The empty program

  /** With nothing loaded, 51 zero bytes carry the program counter past 50. */
  lemma EmptyRuns()
    ensures Load([]).Ok?
    ensures Run(Load([]).value, HaltAbove + 1) == Ok((Halted, Load([]).value.With(CounterReg, (HaltAbove + 1) as U64)))
  {
    var m := Load([]).value;
    assert m.Pc() == 0;
    assert forall i :: 0 <= i <= HaltAbove ==> m.ram[i] == 0;
    ZeroSlide(m);
  }
}
