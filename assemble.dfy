/**
 * The assembler's driver: pass 2 walks the lines updating the output,
 * the byte offset and both label tables in place; pass 3 then overwrites
 * each pending 8-byte placeholder with its label's big-endian address.
 */
module AssemblerDriver {

  import opened Wrappers
  import opened Encoding
  import opened Assembler

  /** Pass 2 as the source runs it: one loop over the lines, state in local variables. */
  method AssembleLinesInPlace(lines: seq<seq<string>>) returns (r: Result<Pass2, AsmError>)
    ensures r == AssembleLines(Start, lines)
  {
    var out: seq<Byte> := [];
    var offset: nat := 0;
    var found: map<string, nat> := map[];
    var mentioned: map<string, nat> := map[];
    var i := 0;
    while i < |lines|
      invariant 0 <= i <= |lines|
      invariant AssembleLines(Start, lines) == AssembleLines(Pass2(out, offset, found, mentioned), lines[i..])
    {
      var before := Pass2(out, offset, found, mentioned);
      assert lines[i..][0] == lines[i] && lines[i..][1..] == lines[i + 1..];
      var next :- AssembleLineInPlace(before, lines[i]);
      out, offset, found, mentioned := next.out, next.offset, next.found, next.mentioned;
      i := i + 1;
    }
    return Ok(Pass2(out, offset, found, mentioned));
  }

  /** The body of the pass-2 loop for one line: dispatch on the first token and update the state. */
  method AssembleLineInPlace(st: Pass2, tokens: seq<string>) returns (r: Result<Pass2, AsmError>)
    ensures r == AssembleLine(st, tokens)
  {
    var out, offset, found, mentioned := st.out, st.offset, st.found, st.mentioned;
    if |tokens| > 0 {
      var word, words := tokens[0], tokens[1..];
      var e: Encoded;
      if word == "move" {
        e :- MoveInstruction(words);
      } else if word == "read" {
        e :- ReadInstruction(words);
      } else if word == "write" {
        e :- WriteInstruction(words);
      } else if word == "push" {
        e :- PushInstruction(words);
      } else if word == "pop" {
        e :- PopInstruction(words);
      } else if word == "jump" {
        var j :- JumpInstruction(words, offset);
        out := out + j.bytes;
        if j.reference.Some? {
          mentioned := mentioned[j.reference.value.name := j.reference.value.patchAt];
        }
        offset := offset + j.advance;
        return Ok(Pass2(out, offset, found, mentioned));
      } else if AluInstruction(word).Some? {
        e := AluInstruction(word).value;
      } else if TypeIndex(word).Some? {
        e :- DataDirective(word, words);
      } else {
        if IsLabel(word) {
          found := found[word[1..] := offset];
        }
        return Ok(Pass2(out, offset, found, mentioned));
      }
      out, offset := out + e.bytes, offset + e.count;
    }
    return Ok(Pass2(out, offset, found, mentioned));
  }

  /**
   * `seek_write`: put `bytes` at position `at`, first extending the output
   * with zero bytes when the window reaches past its end.
   */
  function Overwrite(s: seq<Byte>, at: nat, bytes: seq<Byte>): (r: seq<Byte>)
    ensures |r| == if at + |bytes| <= |s| then |s| else at + |bytes|
    ensures r[at..at + |bytes|] == bytes
    ensures forall i :: 0 <= i < |r| && !(at <= i < at + |bytes|) ==> r[i] == if i < |s| then s[i] else 0
  {
    var padded := if at + |bytes| <= |s| then s else s + Zeros(at + |bytes| - |s|);
    padded[..at] + bytes + padded[at + |bytes|..]
  }

  /** No two pending placeholders overlap. */
  ghost predicate Disjoint(mentioned: map<string, nat>) {
    forall a, b :: a in mentioned && b in mentioned && a != b ==>
      mentioned[a] + 8 <= mentioned[b] || mentioned[b] + 8 <= mentioned[a]
  }

  /** Byte `i` lies in no placeholder of the labels in `names`. */
  ghost predicate Untouched(mentioned: map<string, nat>, names: set<string>, i: int) {
    forall name :: name in names && name in mentioned ==> !(mentioned[name] <= i < mentioned[name] + 8)
  }

  /**
   * `after` is `before` with the placeholder of every label in `names`
   * holding that label's address, big-endian, extended by zeros when a
   * placeholder ends past `before`; every other byte is as it was.
   */
  ghost predicate PatchedOn(before: seq<Byte>, after: seq<Byte>, found: map<string, nat>,
                            mentioned: map<string, nat>, names: set<string>)
    requires names <= mentioned.Keys && names <= found.Keys
  {
    && |before| <= |after|
    && (forall name :: name in names ==> mentioned[name] + 8 <= |after|)
    && (|after| == |before| || exists name :: name in names && mentioned[name] + 8 == |after|)
    && (forall name :: name in names ==>
          after[mentioned[name]..mentioned[name] + 8] == BigEndian(found[name], 8))
    && (forall i :: 0 <= i < |after| && Untouched(mentioned, names, i) ==>
          after[i] == if i < |before| then before[i] else 0)
  }

  /** Pass 3 done: every pending placeholder resolved. */
  ghost predicate Backpatched(before: seq<Byte>, after: seq<Byte>, found: map<string, nat>, mentioned: map<string, nat>)
    requires mentioned.Keys <= found.Keys
  {
    PatchedOn(before, after, found, mentioned, mentioned.Keys)
  }

  /**
   * Pass 3. The source walks a hash map, so the order of the labels is
   * left open here: any order gives the same bytes, because the
   * placeholders do not overlap.
   */
  method Backpatch(out: seq<Byte>, found: map<string, nat>, mentioned: map<string, nat>)
    returns (r: Result<seq<Byte>, AsmError>)
    requires Disjoint(mentioned)
    ensures r.Ok? <==> mentioned.Keys <= found.Keys
    ensures r.Ok? ==> Backpatched(out, r.value, found, mentioned)
    ensures r.Err? ==> r.error.UndeclaredLabel? && r.error.name in mentioned && r.error.name !in found
  {
    var patched := out;
    var pending := mentioned.Keys;
    ghost var done: set<string> := {};
    while pending != {}
      invariant pending + done == mentioned.Keys && pending !! done
      invariant done <= found.Keys
      invariant PatchedOn(out, patched, found, mentioned, done)
      decreases pending
    {
      var name :| name in pending;
      if name !in found {
        return Err(UndeclaredLabel(name));
      }
      var at := mentioned[name];
      var next := Overwrite(patched, at, BigEndian(found[name], 8));
      PatchStep(out, patched, next, found, mentioned, done, name);
      patched := next;
      pending := pending - {name};
      done := done + {name};
    }
    return Ok(patched);
  }

  /** Patching one more placeholder, disjoint from those done, extends `PatchedOn` to it. */
  lemma PatchStep(out: seq<Byte>, patched: seq<Byte>, next: seq<Byte>, found: map<string, nat>,
                  mentioned: map<string, nat>, done: set<string>, name: string)
    requires Disjoint(mentioned) && done <= mentioned.Keys && done <= found.Keys
    requires name in mentioned && name in found && name !in done
    requires PatchedOn(out, patched, found, mentioned, done)
    requires next == Overwrite(patched, mentioned[name], BigEndian(found[name], 8))
    ensures PatchedOn(out, next, found, mentioned, done + {name})
  {
    var at := mentioned[name];
    var names := done + {name};
    forall other | other in done
      ensures next[mentioned[other]..mentioned[other] + 8] == BigEndian(found[other], 8)
    {
      var o := mentioned[other];
      forall j | 0 <= j < 8
        ensures next[o + j] == BigEndian(found[other], 8)[j]
      {
        assert !(at <= o + j < at + 8);
        assert patched[o..o + 8][j] == patched[o + j];
      }
    }
    forall i | 0 <= i < |next| && Untouched(mentioned, names, i)
      ensures next[i] == if i < |out| then out[i] else 0
    {
      assert !(at <= i < at + 8);
      if i < |patched| {
        assert Untouched(mentioned, done, i);
      }
    }
    if |next| != |out| {
      if |next| == |patched| {
        var last :| last in done && mentioned[last] + 8 == |patched|;
        assert last in names;
      } else {
        assert mentioned[name] + 8 == |next|;
      }
    }
  }

  /**
   * `bin` is what the assembler produces for `lines`: pass 2 succeeds,
   * every pending label is declared, and pass 3 has patched them all.
   */
  ghost predicate Assembles(lines: seq<seq<string>>, bin: seq<Byte>) {
    && AssembleLines(Start, lines).Ok?
    && var st := AssembleLines(Start, lines).value;
    && st.mentioned.Keys <= st.found.Keys
    && Backpatched(st.out, bin, st.found, st.mentioned)
  }

  /** The whole assembler: pass 2, then pass 3. */
  method Assemble(lines: seq<seq<string>>) returns (r: Result<seq<Byte>, AsmError>)
    ensures r.Ok? <==> (AssembleLines(Start, lines).Ok? &&
      AssembleLines(Start, lines).value.mentioned.Keys <= AssembleLines(Start, lines).value.found.Keys)
    ensures r.Ok? ==> Assembles(lines, r.value)
    ensures AssembleLines(Start, lines).Err? ==> r == Err(AssembleLines(Start, lines).error)
    ensures AssembleLines(Start, lines).Ok? && r.Err? ==>
      && r.error.UndeclaredLabel?
      && r.error.name in AssembleLines(Start, lines).value.mentioned
      && r.error.name !in AssembleLines(Start, lines).value.found
  {
    var st :- AssembleLinesInPlace(lines);
    StartConsistent();
    AssembleLinesConsistent(Start, lines);
    r := Backpatch(st.out, st.found, st.mentioned);
  }
}
