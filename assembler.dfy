/**
 * The assembler's pure parts: operand lookup and literal parsing, one
 * encoder per mnemonic, and the effect of one source line on the pass-2
 * state (output so far, running byte offset, declared labels, pending
 * label references).
 *
 * A source line is the list of its whitespace-separated tokens; comments
 * are already stripped. Every `unwrap()`/`unreachable!()` of the source
 * becomes an `Err` naming the offending token.
 */
module Assembler {

  import opened Wrappers
  import opened Encoding

  datatype AsmError =
    | MissingOperand                  // an operand token is absent
    | UnknownRegister(token: string)  // not a register name where one is required
    | UnknownType(token: string)      // not a type name where one is required
    | BadNumber(token: string)        // not a decimal numeral of the operand's width
    | BadCondition(token: string)     // neither `true` nor `false`
    | UndeclaredLabel(name: string)   // a jump target never declared (pass 3)

  /** Bytes one encoder writes and the count it returns to the caller. */
  datatype Encoded = Encoded(bytes: seq<Byte>, count: nat)

  /** A pending label reference: the label and the offset of its 8-byte placeholder. */
  datatype Reference = Reference(name: string, patchAt: nat)

  /** What one `jump` line writes, how far it moves the offset, and the reference it records. */
  datatype JumpEncoded = JumpEncoded(bytes: seq<Byte>, advance: nat, reference: Option<Reference>)

  // ---------------------------------------------------------------------
  // Operand names

  /** Register names by index; 14 is the program counter, 15 the stack pointer. */
  const RegisterNames: seq<string> :=
    ["a", "b", "c", "d", "e", "f", "g", "h", "i", "j", "k", "l", "m", "n", "pc", "sp"]

  /** Type names by tag. */
  const TypeNames: seq<string> := ["byte", "dbyte", "qbyte", "obyte"]

  function RegisterIndex(name: string): (r: Option<Byte>)
    ensures r.Some? ==> r.value < 16 && RegisterNames[r.value] == name
    ensures r.None? ==> forall i :: 0 <= i < |RegisterNames| ==> RegisterNames[i] != name
  {
    match name
    case "a" => Some(0)
    case "b" => Some(1)
    case "c" => Some(2)
    case "d" => Some(3)
    case "e" => Some(4)
    case "f" => Some(5)
    case "g" => Some(6)
    case "h" => Some(7)
    case "i" => Some(8)
    case "j" => Some(9)
    case "k" => Some(10)
    case "l" => Some(11)
    case "m" => Some(12)
    case "n" => Some(13)
    case "pc" => Some(14)
    case "sp" => Some(15)
    case _ => None
  }

  function TypeIndex(name: string): (r: Option<Byte>)
    ensures r.Some? ==> r.value < 4 && TypeNames[r.value] == name
    ensures r.None? ==> forall i :: 0 <= i < |TypeNames| ==> TypeNames[i] != name
  {
    match name
    case "byte" => Some(0)
    case "dbyte" => Some(1)
    case "qbyte" => Some(2)
    case "obyte" => Some(3)
    case _ => None
  }

  // ---------------------------------------------------------------------
  // Literals

  predicate IsDigit(c: char) {
    '0' <= c <= '9'
  }

  predicate AllDigits(s: string) {
    forall i :: 0 <= i < |s| ==> IsDigit(s[i])
  }

  /** The value of a string of decimal digits. */
  function DigitsValue(s: string): nat
    requires AllDigits(s)
  {
    if s == [] then 0 else DigitsValue(s[..|s| - 1]) * 10 + (s[|s| - 1] as int - '0' as int)
  }

  /**
   * `str::parse` for an unsigned integer type with `limit` values: an
   * optional `+` followed by at least one decimal digit, in range.
   */
  function ParseUnsigned(token: string, limit: nat): (r: Option<nat>)
    ensures r.Some? ==> r.value < limit
  {
    var digits := if |token| > 1 && token[0] == '+' then token[1..] else token;
    if digits != [] && AllDigits(digits) && DigitsValue(digits) < limit then Some(DigitsValue(digits))
    else None
  }

  /** The shortest decimal numeral of `n`. */
  function Decimal(n: nat): (r: string)
    ensures |r| > 0 && AllDigits(r)
  {
    var digit := ('0' as int + n % 10) as char;
    if n < 10 then [digit] else Decimal(n / 10) + [digit]
  }

  lemma {:induction false} DecimalValue(n: nat)
    ensures DigitsValue(Decimal(n)) == n
  {
    var d := Decimal(n);
    if n >= 10 {
      assert d[..|d| - 1] == Decimal(n / 10);
      DecimalValue(n / 10);
    }
  }

  /** Every number in range is read back from its decimal numeral; none out of range is. */
  lemma ParseDecimal(n: nat, limit: nat)
    ensures ParseUnsigned(Decimal(n), limit) == if n < limit then Some(n) else None
  {
    DecimalValue(n);
    assert Decimal(n)[0] != '+';
  }

  /** `str::parse::<bool>`. */
  function ParseBool(token: string): (r: Option<bool>)
    ensures r == Some(true) <==> token == "true"
    ensures r == Some(false) <==> token == "false"
  {
    if token == "true" then Some(true) else if token == "false" then Some(false) else None
  }

  function Register(token: string): (r: Result<Byte, AsmError>)
    ensures r.Ok? <==> RegisterIndex(token).Some?
    ensures r.Ok? ==> r.value < 16 && r.value == RegisterIndex(token).value
    ensures r.Err? ==> r.error == UnknownRegister(token)
  {
    match RegisterIndex(token)
    case Some(i) => Ok(i)
    case None => Err(UnknownRegister(token))
  }

  function TypeTag(token: string): (r: Result<Byte, AsmError>)
    ensures r.Ok? <==> TypeIndex(token).Some?
    ensures r.Ok? ==> r.value < 4 && r.value == TypeIndex(token).value
    ensures r.Err? ==> r.error == UnknownType(token)
  {
    match TypeIndex(token)
    case Some(i) => Ok(i)
    case None => Err(UnknownType(token))
  }

  function Literal(token: string, limit: nat): (r: Result<nat, AsmError>)
    ensures r.Ok? <==> ParseUnsigned(token, limit).Some?
    ensures r.Ok? ==> r.value < limit && r.value == ParseUnsigned(token, limit).value
    ensures r.Err? ==> r.error == BadNumber(token)
  {
    match ParseUnsigned(token, limit)
    case Some(v) => Ok(v)
    case None => Err(BadNumber(token))
  }

  /** The byte a jump condition stores: `bool as u8`. */
  function Condition(token: string): (r: Result<Byte, AsmError>)
    ensures r == Ok(1) <==> token == "true"
    ensures r == Ok(0) <==> token == "false"
    ensures r.Err? ==> r.error == BadCondition(token)
  {
    match ParseBool(token)
    case Some(b) => Ok(if b then 1 else 0)
    case None => Err(BadCondition(token))
  }

  /**
   * The byte literal of `move byte`: the numeral's value, or else the
   * code of the token's first character truncated to 8 bits (`char as u8`).
   */
  function ByteLiteral(token: string): (r: Result<Byte, AsmError>)
    ensures ParseUnsigned(token, 256).Some? ==> r == Ok(ParseUnsigned(token, 256).value as Byte)
    ensures ParseUnsigned(token, 256).None? && token != [] ==> r == Ok((token[0] as int % 256) as Byte)
  {
    match ParseUnsigned(token, 256)
    case Some(v) => Ok(v as Byte)
    case None => if token == [] then Err(BadNumber(token)) else Ok((token[0] as int % 256) as Byte)
  }

  /** Two register indices packed into one byte: the first in the high nibble. */
  function Pack(high: Byte, low: Byte): (r: Byte)
    requires high < 16 && low < 16
    ensures r as int / 16 == high as int && r as int % 16 == low as int
  {
    (high as int * 16 + low as int) as Byte
  }

  // ---------------------------------------------------------------------
  // Encoders; `words` are the tokens after the mnemonic

  /** `move <reg> <reg>` (opcode 1) or `move <type> <reg> <literal>` (opcode 2). */
  function MoveInstruction(words: seq<string>): (r: Result<Encoded, AsmError>)
    ensures r.Ok? ==> |words| >= 2 && |r.value.bytes| >= 2
    ensures r.Ok? && r.value.bytes[0] == OpMoveRegister ==> |r.value.bytes| == 2 && r.value.count == 3
    ensures r.Ok? && r.value.bytes[0] != OpMoveRegister ==>
      r.value.bytes[0] == OpMoveLiteral && |r.value.bytes| == r.value.count
    ensures r.Ok? ==> (r.value.bytes[0] == OpMoveRegister <==> RegisterIndex(words[0]).Some?)
  {
    if |words| < 1 then Err(MissingOperand)
    else
      match RegisterIndex(words[0])
      case Some(destination) =>
        if |words| < 2 then Err(MissingOperand)
        else
          var source :- Register(words[1]);
          Ok(Encoded([OpMoveRegister, Pack(destination, source)], 3))
      case None =>
        if |words| < 2 then Err(MissingOperand)
        else
          var register :- Register(words[1]);
          if words[0] == "byte" then
            if |words| < 3 then Err(MissingOperand)
            else
              var value :- ByteLiteral(words[2]);
              Ok(Encoded([OpMoveLiteral, 0, register, value], 4))
          else if words[0] == "dbyte" then
            if |words| < 3 then Err(MissingOperand)
            else
              var value :- Literal(words[2], Pow256(2));
              Ok(Encoded([OpMoveLiteral, 1, register] + BigEndian(value, 2), 5))
          else if words[0] == "qbyte" then
            if |words| < 3 then Err(MissingOperand)
            else
              var value :- Literal(words[2], Pow256(4));
              Ok(Encoded([OpMoveLiteral, 2, register] + BigEndian(value, 4), 7))
          else if words[0] == "obyte" then
            if |words| < 3 then Err(MissingOperand)
            else
              var value :- Literal(words[2], Pow256(8));
              Ok(Encoded([OpMoveLiteral, 3, register] + BigEndian(value, 8), 11))
          else Err(UnknownType(words[0]))
  }

  /** `read <type> <reg> <reg>` (opcode 4) or `read <type> <reg> <address>` (opcode 3). */
  function ReadInstruction(words: seq<string>): (r: Result<Encoded, AsmError>)
    ensures r.Ok? ==> |words| >= 3 && |r.value.bytes| == r.value.count >= 3
    ensures r.Ok? && RegisterIndex(words[2]).Some? ==> r.value.bytes[0] == OpReadIndirect && r.value.count == 3
    ensures r.Ok? && RegisterIndex(words[2]).None? ==> r.value.bytes[0] == OpReadAbsolute && r.value.count == 11
  {
    if |words| < 2 then Err(MissingOperand)
    else
      var register :- Register(words[1]);
      if |words| < 3 then Err(MissingOperand)
      else
        match RegisterIndex(words[2])
        case Some(addressRegister) =>
          var tag :- TypeTag(words[0]);
          Ok(Encoded([OpReadIndirect, tag, Pack(register, addressRegister)], 3))
        case None =>
          var address :- Literal(words[2], U64Limit);
          var tag :- TypeTag(words[0]);
          Ok(Encoded([OpReadAbsolute, tag, register] + BigEndian(address, 8), 11))
  }

  /** `write <type> <reg> <reg>` (opcode 6) or `write <type> <reg> <address>` (opcode 5). */
  function WriteInstruction(words: seq<string>): (r: Result<Encoded, AsmError>)
    ensures r.Ok? ==> |words| >= 3 && |r.value.bytes| == r.value.count >= 3
    ensures r.Ok? && RegisterIndex(words[2]).Some? ==> r.value.bytes[0] == OpWriteIndirect && r.value.count == 3
    ensures r.Ok? && RegisterIndex(words[2]).None? ==> r.value.bytes[0] == OpWriteAbsolute && r.value.count == 11
  {
    if |words| < 1 then Err(MissingOperand)
    else
      var tag :- TypeTag(words[0]);
      if |words| < 2 then Err(MissingOperand)
      else
        var register :- Register(words[1]);
        if |words| < 3 then Err(MissingOperand)
        else
          match RegisterIndex(words[2])
          case Some(addressRegister) =>
            Ok(Encoded([OpWriteIndirect, tag, Pack(register, addressRegister)], 3))
          case None =>
            var address :- Literal(words[2], U64Limit);
            Ok(Encoded([OpWriteAbsolute, tag, register] + BigEndian(address, 8), 11))
  }

  /** `push <type> <reg>` (opcode 7) or `push <type> <literal>` (opcode 8). */
  function PushInstruction(words: seq<string>): (r: Result<Encoded, AsmError>)
    ensures r.Ok? ==> |words| >= 2 && |r.value.bytes| == r.value.count >= 3
    ensures r.Ok? && RegisterIndex(words[1]).Some? ==> r.value.bytes[0] == OpPushRegister && r.value.count == 3
    ensures r.Ok? && RegisterIndex(words[1]).None? ==>
      r.value.bytes[0] == OpPushLiteral && TypeIndex(words[0]).Some? &&
      r.value.count == 2 + TagWidth(TypeIndex(words[0]).value as int).value
  {
    if |words| < 2 then Err(MissingOperand)
    else
      match RegisterIndex(words[1])
      case Some(register) =>
        var tag :- TypeTag(words[0]);
        Ok(Encoded([OpPushRegister, tag, register], 3))
      case None =>
        if words[0] == "byte" then
          var value :- Literal(words[1], Pow256(1));
          Ok(Encoded([OpPushLiteral, 0, value as Byte], 3))
        else if words[0] == "dbyte" then
          var value :- Literal(words[1], Pow256(2));
          Ok(Encoded([OpPushLiteral, 1] + BigEndian(value, 2), 4))
        else if words[0] == "qbyte" then
          var value :- Literal(words[1], Pow256(4));
          Ok(Encoded([OpPushLiteral, 2] + BigEndian(value, 4), 6))
        else if words[0] == "obyte" then
          var value :- Literal(words[1], Pow256(8));
          Ok(Encoded([OpPushLiteral, 3] + BigEndian(value, 8), 10))
        else Err(UnknownType(words[0]))
  }

  /** `pop <type> <reg>` (opcode 9). */
  function PopInstruction(words: seq<string>): (r: Result<Encoded, AsmError>)
    ensures r.Ok? <==> |words| >= 2 && TypeIndex(words[0]).Some? && RegisterIndex(words[1]).Some?
    ensures r.Ok? ==> |r.value.bytes| == r.value.count == 3 && r.value.bytes[0] == OpPop
    ensures r.Ok? ==> r.value.bytes == [OpPop, TypeIndex(words[0]).value as Byte, RegisterIndex(words[1]).value as Byte]
  {
    if |words| < 2 then Err(MissingOperand)
    else
      var tag :- TypeTag(words[0]);
      var register :- Register(words[1]);
      Ok(Encoded([OpPop, tag, register], 3))
  }

  /**
   * `jump <target> [<condition>]`. A numeral is an absolute address, then a
   * register name, and any other token is a label whose 8-byte address is
   * left as a zero placeholder and recorded as a pending reference.
   */
  function JumpInstruction(words: seq<string>, offset: nat): (r: Result<JumpEncoded, AsmError>)
    ensures r.Ok? ==> |words| >= 1
    ensures r.Ok? && ParseUnsigned(words[0], U64Limit).Some? ==>
      r.value.reference.None? &&
      (if |words| >= 2 then |r.value.bytes| == 10 && r.value.advance == 19
       else |r.value.bytes| == r.value.advance == 9)
    ensures r.Ok? && ParseUnsigned(words[0], U64Limit).None? ==> |r.value.bytes| == r.value.advance
    ensures r.Ok? && r.value.reference.Some? ==> |r.value.bytes| >= 9
    ensures r.Ok? ==> (r.value.reference.Some? <==> ParseUnsigned(words[0], U64Limit).None? && RegisterIndex(words[0]).None?)
    ensures r.Ok? && r.value.reference.Some? ==>
      var reference := r.value.reference.value;
      && reference.name == words[0]
      && ParseUnsigned(words[0], U64Limit).None? && RegisterIndex(words[0]).None?
      && reference.patchAt + 8 == offset + |r.value.bytes|
      && r.value.bytes[|r.value.bytes| - 8..] == Zeros(8)
  {
    if |words| < 1 then Err(MissingOperand)
    else
      var target := words[0];
      match ParseUnsigned(target, U64Limit)
      case Some(address) =>
        if |words| >= 2 then
          var condition :- Condition(words[1]);
          Ok(JumpEncoded([OpJumpIf, condition] + BigEndian(address, 8), 10 + 9, None))
        else
          Ok(JumpEncoded([OpJump] + BigEndian(address, 8), 9, None))
      case None =>
        match RegisterIndex(target)
        case Some(register) =>
          if |words| >= 2 then
            var condition :- Condition(words[1]);
            Ok(JumpEncoded([OpJumpRegisterIf, condition, register], 3, None))
          else
            Ok(JumpEncoded([OpJumpRegister, register], 2, None))
        case None =>
          if |words| >= 2 then
            var condition :- Condition(words[1]);
            Ok(JumpEncoded([OpJumpIf, condition] + Zeros(8), 10, Some(Reference(target, offset + 2))))
          else
            Ok(JumpEncoded([OpJump] + Zeros(8), 9, Some(Reference(target, offset + 1))))
  }

  /** ALU mnemonics by opcode, starting at `OpAdd`. */
  const AluMnemonics: seq<string> := ["add", "sub", "mul", "div", "equal", "less", "not", "and", "or", "xor"]

  /** `add` … `xor`: the single opcode byte 14..23, count 1. */
  function AluInstruction(mnemonic: string): (r: Option<Encoded>)
    ensures r.Some? ==> |r.value.bytes| == r.value.count == 1
    ensures r.Some? ==> OpAdd <= r.value.bytes[0] <= OpXor && AluMnemonics[r.value.bytes[0] - OpAdd] == mnemonic
    ensures r.None? ==> forall i :: 0 <= i < |AluMnemonics| ==> AluMnemonics[i] != mnemonic
  {
    match mnemonic
    case "add" => Some(Encoded([OpAdd], 1))
    case "sub" => Some(Encoded([OpSub], 1))
    case "mul" => Some(Encoded([OpMul], 1))
    case "div" => Some(Encoded([OpDiv], 1))
    case "equal" => Some(Encoded([OpEqual], 1))
    case "less" => Some(Encoded([OpLess], 1))
    case "not" => Some(Encoded([OpNot], 1))
    case "and" => Some(Encoded([OpAnd], 1))
    case "or" => Some(Encoded([OpOr], 1))
    case "xor" => Some(Encoded([OpXor], 1))
    case _ => None
  }

  /** The raw data lines `byte`/`dbyte`/`qbyte`/`obyte <numeral>`: the value alone, big-endian. */
  function DataDirective(directive: string, words: seq<string>): (r: Result<Encoded, AsmError>)
    requires TypeIndex(directive).Some?
    ensures r.Ok? ==> |r.value.bytes| == r.value.count == TagWidth(TypeIndex(directive).value as int).value
    ensures r.Ok? ==>
      |words| >= 1 && ParseUnsigned(words[0], Pow256(r.value.count)).Some? &&
      FromBigEndian(r.value.bytes) == ParseUnsigned(words[0], Pow256(r.value.count)).value
  {
    if |words| < 1 then Err(MissingOperand)
    else
      var width := TagWidth(TypeIndex(directive).value as int).value;
      var value :- Literal(words[0], Pow256(width));
      BigEndianInRange(value, width);
      if directive == "byte" then Ok(Encoded(BigEndian(value, 1), 1))
      else if directive == "dbyte" then Ok(Encoded(BigEndian(value, 2), 2))
      else if directive == "qbyte" then Ok(Encoded(BigEndian(value, 4), 4))
      else Ok(Encoded(BigEndian(value, 8), 8))
  }

  // ---------------------------------------------------------------------
  // Pass 2: one line at a time

  /**
   * The state pass 2 carries from line to line: the bytes written so far,
   * the running byte offset, declared labels (name -> offset) and pending
   * references (name -> offset of the placeholder to patch).
   */
  datatype Pass2 = Pass2(out: seq<Byte>, offset: nat, found: map<string, nat>, mentioned: map<string, nat>)

  const Start: Pass2 := Pass2([], 0, map[], map[])

  /** Append an encoder's bytes and advance the offset by the count it returned. */
  function Emit(st: Pass2, e: Encoded): Pass2 {
    st.(out := st.out + e.bytes, offset := st.offset + e.count)
  }

  /**
   * How many more bytes a line's offset increment claims than it writes:
   * 1 for `move <reg> <reg>`, 9 for `jump <address> <condition>`, 0 otherwise.
   */
  function LineSlack(tokens: seq<string>): nat {
    if |tokens| >= 2 && tokens[0] == "move" && RegisterIndex(tokens[1]).Some? then 1
    else if |tokens| >= 3 && tokens[0] == "jump" && ParseUnsigned(tokens[1], U64Limit).Some? then 9
    else 0
  }

  /** A token that declares a label: it starts with a colon. */
  predicate IsLabel(word: string) {
    |word| > 0 && word[0] == ':'
  }

  /** A word that starts with a colon is no mnemonic and no type name. */
  lemma LabelIsNoMnemonic(word: string)
    ensures IsLabel(word) ==>
      && word != "move" && word != "read" && word != "write" && word != "push" && word != "pop" && word != "jump"
      && AluInstruction(word).None? && TypeIndex(word).None?
  {
  }

  /** The effect of one source line on the pass-2 state. */
  function AssembleLine(st: Pass2, tokens: seq<string>): (r: Result<Pass2, AsmError>)
    ensures r.Ok? ==> st.out <= r.value.out && st.offset <= r.value.offset
    ensures r.Ok? ==> r.value.offset - st.offset == |r.value.out| - |st.out| + LineSlack(tokens)
    ensures r.Ok? && |tokens| > 0 && tokens[0] == "jump" ==> r.value.found == st.found
    ensures r.Ok? && (|tokens| == 0 || tokens[0] != "jump") ==> r.value.mentioned == st.mentioned
    ensures r.Ok? && |tokens| > 0 && IsLabel(tokens[0]) ==> r.value == st.(found := st.found[tokens[0][1..] := st.offset])
    ensures r.Ok? && (|tokens| == 0 || !IsLabel(tokens[0])) ==> r.value.found == st.found
    ensures r.Ok? && |tokens| > 0 && tokens[0] == "jump" ==>
      && JumpInstruction(tokens[1..], st.offset).Ok?
      && r.value.mentioned == match JumpInstruction(tokens[1..], st.offset).value.reference
           case Some(x) => st.mentioned[x.name := x.patchAt]
           case None => st.mentioned
  {
    if tokens == [] then Ok(st)
    else
      var word, words := tokens[0], tokens[1..];
      LabelIsNoMnemonic(word);
      if word == "move" then
        var e :- MoveInstruction(words);
        Ok(Emit(st, e))
      else if word == "read" then
        var e :- ReadInstruction(words);
        Ok(Emit(st, e))
      else if word == "write" then
        var e :- WriteInstruction(words);
        Ok(Emit(st, e))
      else if word == "push" then
        var e :- PushInstruction(words);
        Ok(Emit(st, e))
      else if word == "pop" then
        var e :- PopInstruction(words);
        Ok(Emit(st, e))
      else if word == "jump" then
        var j :- JumpInstruction(words, st.offset);
        var mentioned := match j.reference
          case Some(reference) => st.mentioned[reference.name := reference.patchAt]
          case None => st.mentioned;
        Ok(Pass2(st.out + j.bytes, st.offset + j.advance, st.found, mentioned))
      else if AluInstruction(word).Some? then
        Ok(Emit(st, AluInstruction(word).value))
      else if TypeIndex(word).Some? then
        var e :- DataDirective(word, words);
        Ok(Emit(st, e))
      else if IsLabel(word) then
        Ok(st.(found := st.found[word[1..] := st.offset]))
      else
        Ok(st)
  }

  /** Pass 2 over the remaining lines, from state `st`. */
  function AssembleLines(st: Pass2, lines: seq<seq<string>>): Result<Pass2, AsmError>
    decreases |lines|
  {
    if lines == [] then Ok(st)
    else
      var next :- AssembleLine(st, lines[0]);
      AssembleLines(next, lines[1..])
  }

  /** The sum of the slack of every line. */
  function TotalSlack(lines: seq<seq<string>>): nat {
    if lines == [] then 0 else LineSlack(lines[0]) + TotalSlack(lines[1..])
  }

  /**
   * What pass 2 maintains: the offset never lags the output, every
   * pending placeholder lies below the offset, no two placeholders
   * overlap, and every label lies at or below the offset.
   */
  ghost predicate Consistent(st: Pass2) {
    && |st.out| <= st.offset
    && (forall name :: name in st.mentioned ==> st.mentioned[name] + 8 <= st.offset)
    && (forall a, b :: a in st.mentioned && b in st.mentioned && a != b ==>
          st.mentioned[a] + 8 <= st.mentioned[b] || st.mentioned[b] + 8 <= st.mentioned[a])
    && (forall name :: name in st.found ==> st.found[name] <= st.offset)
  }

  lemma StartConsistent()
    ensures Consistent(Start)
  {
  }

  lemma AssembleLineConsistent(st: Pass2, tokens: seq<string>)
    requires Consistent(st) && AssembleLine(st, tokens).Ok?
    ensures Consistent(AssembleLine(st, tokens).value)
  {
  }

  /** Pass 2 keeps `Consistent` and only ever appends to the output. */
  lemma {:induction false} AssembleLinesConsistent(st: Pass2, lines: seq<seq<string>>)
    requires Consistent(st) && AssembleLines(st, lines).Ok?
    ensures Consistent(AssembleLines(st, lines).value)
    ensures st.out <= AssembleLines(st, lines).value.out
    decreases |lines|
  {
    if lines != [] {
      AssembleLineConsistent(st, lines[0]);
      AssembleLinesConsistent(AssembleLine(st, lines[0]).value, lines[1..]);
    }
  }

  /** After pass 2 the offset exceeds the output length by exactly the total slack. */
  lemma {:induction false} AssembleLinesSlack(st: Pass2, lines: seq<seq<string>>)
    requires |st.out| <= st.offset && AssembleLines(st, lines).Ok?
    ensures AssembleLines(st, lines).value.offset - |AssembleLines(st, lines).value.out|
         == st.offset - |st.out| + TotalSlack(lines)
    decreases |lines|
  {
    if lines != [] {
      AssembleLinesSlack(AssembleLine(st, lines[0]).value, lines[1..]);
    }
  }

  /** Without a register-to-register move or a conditional jump to an address, the offset is the output length. */
  lemma {:induction false} OffsetMatchesOutput(lines: seq<seq<string>>)
    requires forall i :: 0 <= i < |lines| ==> LineSlack(lines[i]) == 0
    requires AssembleLines(Start, lines).Ok?
    ensures AssembleLines(Start, lines).value.offset == |AssembleLines(Start, lines).value.out|
  {
    NoSlack(lines);
    AssembleLinesSlack(Start, lines);
  }

  lemma {:induction false} NoSlack(lines: seq<seq<string>>)
    requires forall i :: 0 <= i < |lines| ==> LineSlack(lines[i]) == 0
    ensures TotalSlack(lines) == 0
  {
    if lines != [] {
      assert LineSlack(lines[0]) == 0;
      NoSlack(lines[1..]);
    }
  }
}
