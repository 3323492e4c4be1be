/**
 * Three ways in which the assembler's bookkeeping departs from the
 * encoding it emits, each shown on a concrete source, and a corrected
 * pass 2 and pass 3 with the intended properties proved:
 *
 *  - `move <reg> <reg>` writes 2 bytes but moves the offset by 3;
 *  - `jump <address> <condition>` writes 10 bytes but moves it by 19;
 *  - pending references are keyed by label name, so a second jump to
 *    the same label drops the first one's patch site.
 */
module Corrected {

  import opened Wrappers
  import opened Encoding
  import opened Assembler
  import opened AssemblerDriver

  // ---------------------------------------------------------------------
  // The code as written

  const MoveThenLabel: seq<seq<string>> := [["move", "a", "b"], [":x"]]

  const MoveAfter1 := Pass2([OpMoveRegister, 0x01], 3, map[], map[])
  const MoveAfter2 := Pass2([OpMoveRegister, 0x01], 3, map["x" := 3], map[])

  lemma MoveThenLabelLines()
    ensures AssembleLine(Start, MoveThenLabel[0]) == Ok(MoveAfter1)
    ensures AssembleLine(MoveAfter1, MoveThenLabel[1]) == Ok(MoveAfter2)
  {
    assert MoveThenLabel[0] == ["move", "a", "b"] && MoveThenLabel[0][1..] == ["a", "b"];
    assert RegisterIndex("a") == Some(0) && RegisterIndex("b") == Some(1);
    assert Pack(0, 1) == 0x01 && Register("b") == Ok(1);
    assert MoveInstruction(["a", "b"]) == Ok(Encoded([OpMoveRegister, 0x01], 3));
    assert Emit(Start, Encoded([OpMoveRegister, 0x01], 3)) == MoveAfter1;
    assert MoveThenLabel[1] == [":x"] && ":x"[1..] == "x";
    assert AluInstruction(":x").None? && TypeIndex(":x").None?;
  }

  /** The label after `move a b` is recorded at 3, one past the end of the 2 bytes written. */
  lemma MoveRegisterMiscount()
    ensures AssembleLines(Start, MoveThenLabel) == Ok(MoveAfter2)
    ensures MoveAfter2.found["x"] == |MoveAfter2.out| + 1
  {
    MoveThenLabelLines();
    assert MoveThenLabel[1..][1..] == [];
    assert AssembleLines(MoveAfter1, MoveThenLabel[1..]) == Ok(MoveAfter2);
  }

  const JumpIfThenLabel: seq<seq<string>> := [["jump", "0", "true"], [":x"]]

  const JumpIfAfter1 := Pass2([OpJumpIf, 1] + Zeros(8), 19, map[], map[])
  const JumpIfAfter2 := Pass2([OpJumpIf, 1] + Zeros(8), 19, map["x" := 19], map[])

  lemma ZeroBigEndian()
    ensures BigEndian(0, 8) == Zeros(8)
  {
  }

  lemma JumpIfThenLabelLines()
    ensures AssembleLine(Start, JumpIfThenLabel[0]) == Ok(JumpIfAfter1)
    ensures AssembleLine(JumpIfAfter1, JumpIfThenLabel[1]) == Ok(JumpIfAfter2)
  {
    assert JumpIfThenLabel[0] == ["jump", "0", "true"] && JumpIfThenLabel[0][1..] == ["0", "true"];
    assert ParseUnsigned("0", U64Limit) == Some(0);
    assert Condition("true") == Ok(1);
    ZeroBigEndian();
    assert JumpInstruction(["0", "true"], 0) == Ok(JumpEncoded([OpJumpIf, 1] + Zeros(8), 19, None));
    assert [] + ([OpJumpIf, 1] + Zeros(8)) == [OpJumpIf, 1] + Zeros(8);
    assert JumpIfThenLabel[1] == [":x"] && ":x"[1..] == "x";
    assert AluInstruction(":x").None? && TypeIndex(":x").None?;
  }

  /** The label after `jump 0 true` is recorded at 19, nine past the end of the 10 bytes written. */
  lemma JumpIfMiscount()
    ensures AssembleLines(Start, JumpIfThenLabel) == Ok(JumpIfAfter2)
    ensures |JumpIfAfter2.out| == 10 && JumpIfAfter2.found["x"] == 19
  {
    JumpIfThenLabelLines();
    assert JumpIfThenLabel[1..][1..] == [];
    assert AssembleLines(JumpIfAfter1, JumpIfThenLabel[1..]) == Ok(JumpIfAfter2);
  }

  const TwoJumps: seq<seq<string>> := [["jump", "x"], ["jump", "x"], [":x"]]

  const TwoJumpsOut: seq<Byte> := [OpJump] + Zeros(8) + [OpJump] + Zeros(8)

  const TwoJumpsAfter1 := Pass2([OpJump] + Zeros(8), 9, map[], map["x" := 1])
  const TwoJumpsAfter2 := Pass2(TwoJumpsOut, 18, map[], map["x" := 10])
  const TwoJumpsAfter3 := Pass2(TwoJumpsOut, 18, map["x" := 18], map["x" := 10])

  lemma TwoJumpsEachLine()
    ensures AssembleLine(Start, TwoJumps[0]) == Ok(TwoJumpsAfter1)
    ensures AssembleLine(TwoJumpsAfter1, TwoJumps[1]) == Ok(TwoJumpsAfter2)
    ensures AssembleLine(TwoJumpsAfter2, TwoJumps[2]) == Ok(TwoJumpsAfter3)
  {
    assert !IsDigit("x"[0]) && ParseUnsigned("x", U64Limit).None? && RegisterIndex("x").None?;
    assert TwoJumps[0] == TwoJumps[1] == ["jump", "x"] && TwoJumps[0][1..] == ["x"];
    assert JumpInstruction(["x"], 0) == Ok(JumpEncoded([OpJump] + Zeros(8), 9, Some(Reference("x", 1))));
    assert [] + ([OpJump] + Zeros(8)) == [OpJump] + Zeros(8);
    assert JumpInstruction(["x"], 9) == Ok(JumpEncoded([OpJump] + Zeros(8), 9, Some(Reference("x", 10))));
    assert map["x" := 1]["x" := 10] == map["x" := 10];
    assert TwoJumpsAfter1.out + ([OpJump] + Zeros(8)) == TwoJumpsOut;
    assert TwoJumps[2] == [":x"] && ":x"[1..] == "x";
    assert AluInstruction(":x").None? && TypeIndex(":x").None?;
  }

  /** Two jumps to `x`: pass 2 keeps only the second placeholder, at 10. */
  lemma TwoJumpsLines()
    ensures AssembleLines(Start, TwoJumps) == Ok(TwoJumpsAfter3)
  {
    TwoJumpsEachLine();
    assert TwoJumps[2..][1..] == [];
    assert AssembleLines(TwoJumpsAfter2, TwoJumps[2..]) == Ok(TwoJumpsAfter3);
    assert TwoJumps[1..][1..] == TwoJumps[2..];
    assert AssembleLines(TwoJumpsAfter1, TwoJumps[1..]) == Ok(TwoJumpsAfter3);
  }

  /** Whatever pass 3 makes of `TwoJumps`, the first jump still targets address 0. */
  lemma CollapsedReference(bin: seq<Byte>)
    requires Assembles(TwoJumps, bin)
    ensures |bin| == 18 && bin[1..9] == Zeros(8) && bin[10..18] == BigEndian(18, 8)
  {
    TwoJumpsLines();
    var mentioned := map["x" := 10];
    assert mentioned.Keys == {"x"};
    assert Backpatched(TwoJumpsOut, bin, map["x" := 18], mentioned);
    assert bin[mentioned["x"]..mentioned["x"] + 8] == BigEndian(18, 8);
    forall i | 1 <= i < 9
      ensures bin[i] == 0
    {
      assert Untouched(mentioned, {"x"}, i);
      assert TwoJumpsOut[i] == Zeros(8)[i - 1];
    }
  }

  // ---------------------------------------------------------------------
  // The corrected assembler

  /**
   * Corrected pass-2 state: the offset advances by the bytes actually
   * written, and every reference is kept, in source order.
   */
  datatype Fixed = Fixed(out: seq<Byte>, offset: nat, found: map<string, nat>, sites: seq<Reference>)

  const FixedStart := Fixed([], 0, map[], [])

  /** The reference a `jump` line records, if any. */
  function JumpReference(tokens: seq<string>, offset: nat): (r: Option<Reference>)
    ensures r.Some? ==> |tokens| > 1 && tokens[0] == "jump" && JumpInstruction(tokens[1..], offset).Ok?
  {
    if |tokens| > 0 && tokens[0] == "jump" && JumpInstruction(tokens[1..], offset).Ok? then
      JumpInstruction(tokens[1..], offset).value.reference
    else None
  }

  /** One line: the encoders and dispatch of `AssembleLine`, with the corrected bookkeeping. */
  function FixedLine(st: Fixed, tokens: seq<string>): (r: Result<Fixed, AsmError>)
    ensures r.Ok? ==> st.out <= r.value.out && r.value.offset - st.offset == |r.value.out| - |st.out|
  {
    var next :- AssembleLine(Pass2(st.out, st.offset, st.found, map[]), tokens);
    var sites := match JumpReference(tokens, st.offset)
      case Some(reference) => st.sites + [reference]
      case None => st.sites;
    Ok(Fixed(next.out, st.offset + (|next.out| - |st.out|), next.found, sites))
  }

  function FixedLines(st: Fixed, lines: seq<seq<string>>): Result<Fixed, AsmError>
    decreases |lines|
  {
    if lines == [] then Ok(st)
    else
      var next :- FixedLine(st, lines[0]);
      FixedLines(next, lines[1..])
  }

  /** Site `k` lies inside `out` and comes before every later site. */
  ghost predicate SitesInOrder(out: seq<Byte>, sites: seq<Reference>) {
    && (forall k :: 0 <= k < |sites| ==> sites[k].patchAt + 8 <= |out|)
    && (forall k, l :: 0 <= k < l < |sites| ==> sites[k].patchAt + 8 <= sites[l].patchAt)
  }

  /**
   * What the corrected pass 2 keeps: the offset is the output length,
   * labels lie at or below it, and the sites are ordered, inside the
   * output and still hold their zero placeholders.
   */
  ghost predicate FixedConsistent(st: Fixed) {
    && st.offset == |st.out|
    && (forall name :: name in st.found ==> st.found[name] <= st.offset)
    && SitesInOrder(st.out, st.sites)
    && (forall k :: 0 <= k < |st.sites| ==> st.out[st.sites[k].patchAt..st.sites[k].patchAt + 8] == Zeros(8))
  }

  /** A `jump` line's output is the jump's bytes appended. */
  lemma JumpLineOut(st: Pass2, tokens: seq<string>)
    requires |tokens| > 0 && tokens[0] == "jump" && AssembleLine(st, tokens).Ok?
    ensures JumpInstruction(tokens[1..], st.offset).Ok?
    ensures AssembleLine(st, tokens).value.out == st.out + JumpInstruction(tokens[1..], st.offset).value.bytes
  {
  }

  /** Sites inside the output stay in place, with their placeholders, as the output grows. */
  lemma SitesKept(out: seq<Byte>, longer: seq<Byte>, sites: seq<Reference>)
    requires out <= longer && SitesInOrder(out, sites)
    requires forall k :: 0 <= k < |sites| ==> out[sites[k].patchAt..sites[k].patchAt + 8] == Zeros(8)
    ensures SitesInOrder(longer, sites)
    ensures forall k :: 0 <= k < |sites| ==> longer[sites[k].patchAt..sites[k].patchAt + 8] == Zeros(8)
  {
    forall k | 0 <= k < |sites|
      ensures longer[sites[k].patchAt..sites[k].patchAt + 8] == Zeros(8)
    {
      var at := sites[k].patchAt;
      assert longer[at..at + 8] == out[at..at + 8];
    }
  }

  /** A site appended at the very end of the output keeps the sites in order. */
  lemma SiteAppended(out: seq<Byte>, longer: seq<Byte>, sites: seq<Reference>, reference: Reference)
    requires SitesInOrder(out, sites) && out <= longer && reference.patchAt >= |out| && reference.patchAt + 8 <= |longer|
    ensures SitesInOrder(longer, sites + [reference])
  {
    var all := sites + [reference];
    forall k, l | 0 <= k < l < |all|
      ensures all[k].patchAt + 8 <= all[l].patchAt
    {
      if l == |sites| {
        assert all[k] == sites[k];
      } else {
        assert all[k] == sites[k] && all[l] == sites[l];
      }
    }
  }

  /** A line records a label, if at all, at the offset it starts from. */
  lemma FoundAtOffset(st: Pass2, tokens: seq<string>)
    requires AssembleLine(st, tokens).Ok?
    ensures var found := AssembleLine(st, tokens).value.found;
      forall name :: name in found ==> (name in st.found && found[name] == st.found[name]) || found[name] == st.offset
  {
  }

  /** Growing the output, keeping labels within it, and appending at most one added site at its end keeps `FixedConsistent`. */
  lemma GrowConsistent(st: Fixed, r: Fixed, added: Option<Reference>)
    requires FixedConsistent(st) && st.out <= r.out && r.offset == |r.out|
    requires forall name :: name in r.found ==> r.found[name] <= r.offset
    requires added.None? ==> r.sites == st.sites
    requires added.Some? ==> && r.sites == st.sites + [added.value]
                             && |st.out| <= added.value.patchAt && added.value.patchAt + 8 == |r.out|
                             && r.out[added.value.patchAt..|r.out|] == Zeros(8)
    ensures FixedConsistent(r)
  {
    SitesKept(st.out, r.out, st.sites);
    if added.Some? {
      SiteAppended(st.out, r.out, st.sites, added.value);
      forall k | 0 <= k < |r.sites|
        ensures r.out[r.sites[k].patchAt..r.sites[k].patchAt + 8] == Zeros(8)
      {
        if k < |st.sites| {
          assert r.sites[k] == st.sites[k];
        }
      }
    }
  }

  lemma FixedLineConsistent(st: Fixed, tokens: seq<string>)
    requires FixedConsistent(st) && FixedLine(st, tokens).Ok?
    ensures FixedConsistent(FixedLine(st, tokens).value)
  {
    var before := Pass2(st.out, st.offset, st.found, map[]);
    var r := FixedLine(st, tokens).value;
    FoundAtOffset(before, tokens);
    var added := JumpReference(tokens, st.offset);
    if added.Some? {
      JumpLineOut(before, tokens);
      var j := JumpInstruction(tokens[1..], st.offset).value;
      assert r.out[added.value.patchAt..|r.out|] == j.bytes[|j.bytes| - 8..];
    }
    GrowConsistent(st, r, added);
  }

  /** The corrected pass 2 keeps `FixedConsistent` from any state that has it. */
  lemma {:induction false} FixedLinesConsistent(st: Fixed, lines: seq<seq<string>>)
    requires FixedConsistent(st) && FixedLines(st, lines).Ok?
    ensures FixedConsistent(FixedLines(st, lines).value)
    decreases |lines|
  {
    if lines != [] {
      FixedLineConsistent(st, lines[0]);
      FixedLinesConsistent(FixedLine(st, lines[0]).value, lines[1..]);
    }
  }

  /** Corrected pass 3: patch every site in order; an undeclared label is an error. */
  function FixedPatch(out: seq<Byte>, found: map<string, nat>, sites: seq<Reference>): (r: Result<seq<Byte>, AsmError>)
    ensures r.Ok? <==> forall k :: 0 <= k < |sites| ==> sites[k].name in found
    ensures r.Err? ==> r.error.UndeclaredLabel? && exists k :: 0 <= k < |sites| && sites[k].name == r.error.name && r.error.name !in found
    decreases |sites|
  {
    if sites == [] then Ok(out)
    else if sites[0].name !in found then Err(UndeclaredLabel(sites[0].name))
    else
      var result := FixedPatch(Overwrite(out, sites[0].patchAt, BigEndian(found[sites[0].name], 8)), found, sites[1..]);
      assert result.Err? ==> exists k :: 0 <= k < |sites[1..]| && sites[1..][k].name == result.error.name;
      result
  }

  /** Byte `i` lies in none of the sites. */
  ghost predicate OutsideSites(sites: seq<Reference>, i: int) {
    forall k :: 0 <= k < |sites| ==> !(sites[k].patchAt <= i < sites[k].patchAt + 8)
  }

  /** The sites after the first all lie beyond the first one's bytes. */
  lemma RestBeyondFirst(out: seq<Byte>, sites: seq<Reference>, i: int)
    requires SitesInOrder(out, sites) && |sites| > 0 && i < sites[0].patchAt + 8
    ensures OutsideSites(sites[1..], i)
  {
    forall k | 0 <= k < |sites[1..]|
      ensures !(sites[1..][k].patchAt <= i < sites[1..][k].patchAt + 8)
    {
      assert sites[1..][k] == sites[k + 1];
    }
  }

  /**
   * With the sites ordered and inside the output, pass 3 keeps the length,
   * writes each site's label address into its 8 bytes, and leaves every
   * other byte alone.
   */
  lemma {:induction false} FixedPatchCorrect(out: seq<Byte>, found: map<string, nat>, sites: seq<Reference>)
    requires SitesInOrder(out, sites) && FixedPatch(out, found, sites).Ok?
    ensures var r := FixedPatch(out, found, sites).value;
      && |r| == |out|
      && (forall k :: 0 <= k < |sites| ==> r[sites[k].patchAt..sites[k].patchAt + 8] == BigEndian(found[sites[k].name], 8))
      && (forall i :: 0 <= i < |out| && OutsideSites(sites, i) ==> r[i] == out[i])
    decreases |sites|
  {
    if sites != [] {
      var at := sites[0].patchAt;
      var next := Overwrite(out, at, BigEndian(found[sites[0].name], 8));
      var rest := sites[1..];
      assert SitesInOrder(next, rest) by {
        assert forall k :: 0 <= k < |rest| ==> rest[k] == sites[k + 1];
      }
      FixedPatchCorrect(next, found, rest);
      var r := FixedPatch(out, found, sites).value;
      assert r == FixedPatch(next, found, rest).value;
      forall i | at <= i < at + 8
        ensures r[i] == next[i]
      {
        RestBeyondFirst(out, sites, i);
      }
      assert r[at..at + 8] == next[at..at + 8];
      forall k | 0 < k < |sites|
        ensures r[sites[k].patchAt..sites[k].patchAt + 8] == BigEndian(found[sites[k].name], 8)
      {
        assert sites[k] == rest[k - 1];
      }
      forall i | 0 <= i < |out| && OutsideSites(sites, i)
        ensures r[i] == out[i]
      {
        assert !(at <= i < at + 8);
        assert OutsideSites(rest, i) by {
          forall k | 0 <= k < |rest|
            ensures !(rest[k].patchAt <= i < rest[k].patchAt + 8)
          {
            assert rest[k] == sites[k + 1];
          }
        }
      }
    }
  }

  /** The corrected assembler: corrected pass 2, then corrected pass 3. */
  function FixedAssemble(lines: seq<seq<string>>): (r: Result<seq<Byte>, AsmError>)
  {
    var st :- FixedLines(FixedStart, lines);
    FixedPatch(st.out, st.found, st.sites)
  }

  /**
   * The corrected assembler's output has every reference, repeated or
   * not, holding its label's address; the offset of every label is a
   * position in the output.
   */
  lemma FixedAssembleCorrect(lines: seq<seq<string>>)
    requires FixedAssemble(lines).Ok?
    ensures var st := FixedLines(FixedStart, lines).value; var bin := FixedAssemble(lines).value;
      && st.offset == |st.out| == |bin|
      && (forall name :: name in st.found ==> st.found[name] <= |bin|)
      && (forall k :: 0 <= k < |st.sites| ==>
            st.sites[k].name in st.found && st.sites[k].patchAt + 8 <= |bin| &&
            bin[st.sites[k].patchAt..st.sites[k].patchAt + 8] == BigEndian(st.found[st.sites[k].name], 8))
  {
    var st := FixedLines(FixedStart, lines).value;
    FixedLinesConsistent(FixedStart, lines);
    FixedPatchCorrect(st.out, st.found, st.sites);
  }

  // ---------------------------------------------------------------------
  // The three sources again, under the corrected assembler

  /** After `move a b` the label is recorded at 2, the end of the bytes written. */
  lemma MoveThenLabelFixed()
    ensures FixedLines(FixedStart, MoveThenLabel) == Ok(Fixed([OpMoveRegister, 0x01], 2, map["x" := 2], []))
  {
    MoveThenLabelLines();
    assert MoveThenLabel[0][0] == "move";
    var f1 := Fixed([OpMoveRegister, 0x01], 2, map[], []);
    assert FixedLine(FixedStart, MoveThenLabel[0]) == Ok(f1);
    assert MoveThenLabel[1] == [":x"] && ":x"[1..] == "x";
    assert AluInstruction(":x").None? && TypeIndex(":x").None?;
    assert AssembleLine(Pass2(f1.out, 2, map[], map[]), MoveThenLabel[1]) == Ok(Pass2(f1.out, 2, map["x" := 2], map[]));
    assert FixedLine(f1, MoveThenLabel[1]) == Ok(f1.(found := map["x" := 2]));
    assert MoveThenLabel[1..][1..] == [];
  }

  /** After `jump 0 true` the label is recorded at 10, the end of the bytes written. */
  lemma JumpIfThenLabelFixed()
    ensures FixedLines(FixedStart, JumpIfThenLabel) == Ok(Fixed(JumpIfAfter1.out, 10, map["x" := 10], []))
  {
    JumpIfThenLabelLines();
    assert JumpIfThenLabel[0] == ["jump", "0", "true"] && JumpIfThenLabel[0][1..] == ["0", "true"];
    assert JumpInstruction(["0", "true"], 0).value.reference.None?;
    var f1 := Fixed(JumpIfAfter1.out, 10, map[], []);
    assert FixedLine(FixedStart, JumpIfThenLabel[0]) == Ok(f1);
    assert JumpIfThenLabel[1] == [":x"] && ":x"[1..] == "x";
    assert AluInstruction(":x").None? && TypeIndex(":x").None?;
    assert AssembleLine(Pass2(f1.out, 10, map[], map[]), JumpIfThenLabel[1]) == Ok(Pass2(f1.out, 10, map["x" := 10], map[]));
    assert FixedLine(f1, JumpIfThenLabel[1]) == Ok(f1.(found := map["x" := 10]));
    assert JumpIfThenLabel[1..][1..] == [];
  }

  const TwoJumpsFixed := Fixed(TwoJumpsOut, 18, map["x" := 18], [Reference("x", 1), Reference("x", 10)])

  lemma TwoJumpsFixedLines()
    ensures FixedLines(FixedStart, TwoJumps) == Ok(TwoJumpsFixed)
  {
    TwoJumpsEachLine();
    assert TwoJumps[0] == TwoJumps[1] == ["jump", "x"] && TwoJumps[0][1..] == ["x"];
    assert JumpReference(TwoJumps[0], 0) == Some(Reference("x", 1));
    var f1 := Fixed(TwoJumpsAfter1.out, 9, map[], [Reference("x", 1)]);
    assert Pass2(FixedStart.out, FixedStart.offset, FixedStart.found, map[]) == Start;
    assert FixedStart.sites + [Reference("x", 1)] == f1.sites && |TwoJumpsAfter1.out| == 9;
    assert FixedLine(FixedStart, TwoJumps[0]) == Ok(f1);
    assert JumpInstruction(["x"], 9) == Ok(JumpEncoded([OpJump] + Zeros(8), 9, Some(Reference("x", 10))));
    assert AssembleLine(Pass2(f1.out, 9, map[], map[]), TwoJumps[1]) == Ok(Pass2(TwoJumpsOut, 18, map[], map["x" := 10]));
    assert JumpReference(TwoJumps[1], 9) == Some(Reference("x", 10));
    var f2 := Fixed(TwoJumpsOut, 18, map[], [Reference("x", 1), Reference("x", 10)]);
    assert f1.sites + [Reference("x", 10)] == f2.sites && |TwoJumpsOut| == 18;
    assert FixedLine(f1, TwoJumps[1]) == Ok(f2);
    assert TwoJumps[2] == [":x"] && ":x"[1..] == "x";
    assert AluInstruction(":x").None? && TypeIndex(":x").None?;
    assert AssembleLine(Pass2(f2.out, 18, map[], map[]), TwoJumps[2]) == Ok(Pass2(TwoJumpsOut, 18, map["x" := 18], map[]));
    assert FixedLine(f2, TwoJumps[2]) == Ok(TwoJumpsFixed);
    assert TwoJumps[2..][1..] == [];
    assert FixedLines(f2, TwoJumps[2..]) == Ok(TwoJumpsFixed);
    assert TwoJumps[1..][1..] == TwoJumps[2..];
    assert FixedLines(f1, TwoJumps[1..]) == Ok(TwoJumpsFixed);
  }

  /** Both jumps to `x` are patched with its address 18. */
  lemma TwoJumpsBothPatched()
    ensures FixedAssemble(TwoJumps).Ok?
    ensures var bin := FixedAssemble(TwoJumps).value;
      |bin| == 18 && bin[1..9] == BigEndian(18, 8) && bin[10..18] == BigEndian(18, 8)
  {
    TwoJumpsFixedLines();
    var sites := TwoJumpsFixed.sites;
    assert sites[0] == Reference("x", 1) && sites[1] == Reference("x", 10);
    FixedAssembleCorrect(TwoJumps);
  }
}
