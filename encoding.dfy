/**
 * The byte-level contract shared by the assembler and the emulator:
 * byte and 64-bit word ranges, the four operand widths selected by a
 * type tag, and big-endian / little-endian conversions.
 */
module Encoding {

  import opened Wrappers

  newtype Byte = x: int | 0 <= x < 256

  /** Values of Rust's `u64`. */
  newtype U64 = x: int | 0 <= x < 0x1_0000_0000_0000_0000

  const U64Limit: nat := 0x1_0000_0000_0000_0000

  /** The operand widths selected by the type tags byte, dbyte, qbyte and obyte. */
  type Width = w: nat | w == 1 || w == 2 || w == 4 || w == 8 witness 1

  // ---------------------------------------------------------------------
  // Opcodes (the first byte of every instruction)

  const OpNop: Byte := 0
  const OpMoveRegister: Byte := 1     // move <reg> <reg>
  const OpMoveLiteral: Byte := 2      // move <type> <reg> <literal>
  const OpReadAbsolute: Byte := 3     // read <type> <reg> <address>
  const OpReadIndirect: Byte := 4     // read <type> <reg> <reg>
  const OpWriteAbsolute: Byte := 5    // write <type> <reg> <address>
  const OpWriteIndirect: Byte := 6    // write <type> <reg> <reg>
  const OpPushRegister: Byte := 7     // push <type> <reg>
  const OpPushLiteral: Byte := 8      // push <type> <literal>
  const OpPop: Byte := 9              // pop <type> <reg>
  const OpJump: Byte := 10            // jump <address>
  const OpJumpRegister: Byte := 11    // jump <reg>
  const OpJumpIf: Byte := 12          // jump <address> <condition>
  const OpJumpRegisterIf: Byte := 13  // jump <reg> <condition>
  const OpAdd: Byte := 14
  const OpSub: Byte := 15
  const OpMul: Byte := 16
  const OpDiv: Byte := 17
  const OpEqual: Byte := 18
  const OpLess: Byte := 19
  const OpNot: Byte := 20
  const OpAnd: Byte := 21
  const OpOr: Byte := 22
  const OpXor: Byte := 23

  /** 256 to the power n: the number of values that fit in n bytes. */
  function Pow256(n: nat): (r: nat)
    ensures r > 0
  {
    if n == 0 then 1 else 256 * Pow256(n - 1)
  }

  lemma Pow256Of8()
    ensures Pow256(8) == U64Limit
  {
  }

  /** Width in bytes of a type tag (0..3), as stored by every `move`, `read`, `write`, `push` and `pop`. */
  function TagWidth(tag: int): (r: Option<Width>)
    ensures r.Some? <==> 0 <= tag < 4
    ensures r.Some? ==> r.value == Pow2(tag)
  {
    if tag == 0 then Some(1)
    else if tag == 1 then Some(2)
    else if tag == 2 then Some(4)
    else if tag == 3 then Some(8)
    else None
  }

  function Pow2(n: nat): nat {
    if n == 0 then 1 else 2 * Pow2(n - 1)
  }

  function Zeros(n: nat): (r: seq<Byte>)
    ensures |r| == n && forall i :: 0 <= i < n ==> r[i] == 0
  {
    seq(n, _ => 0)
  }

  /** The low `w` bytes of `v`, most significant first (`to_be_bytes`). */
  function BigEndian(v: nat, w: nat): (r: seq<Byte>)
    ensures |r| == w
  {
    if w == 0 then [] else BigEndian(v / 256, w - 1) + [(v % 256) as Byte]
  }

  /** The number whose big-endian bytes are `s` (`from_be_bytes`). */
  function FromBigEndian(s: seq<Byte>): (r: nat)
    ensures r < Pow256(|s|)
  {
    if s == [] then 0 else FromBigEndian(s[..|s| - 1]) * 256 + s[|s| - 1] as nat
  }

  /** The low `w` bytes of `v`, least significant first (`to_le_bytes`). */
  function LittleEndian(v: nat, w: nat): (r: seq<Byte>)
    ensures |r| == w
  {
    if w == 0 then [] else [(v % 256) as Byte] + LittleEndian(v / 256, w - 1)
  }

  /** The number whose little-endian bytes are `s` (`from_le_bytes`). */
  function FromLittleEndian(s: seq<Byte>): (r: nat)
    ensures r < Pow256(|s|)
  {
    if s == [] then 0 else s[0] as nat + 256 * FromLittleEndian(s[1..])
  }

  // ---------------------------------------------------------------------
  // Arithmetic helpers

  /** The remainder is determined by any decomposition with a remainder in range. */
  lemma ModUnique(v: nat, d: nat, q: nat, s: nat)
    requires d > 0 && v == d * q + s && s < d
    ensures v % d == s && v / d == q
  {
    var q', s' := v / d, v % d;
    if q' < q {
      MulStep(d, q', q);
      assert false;
    } else if q < q' {
      MulStep(d, q, q');
      assert false;
    }
  }

  lemma MulStep(d: nat, a: nat, b: nat)
    requires a < b
    ensures d * a + d <= d * b
  {
    var k := b - a - 1;
    assert b == a + 1 + k;
    assert d * (a + 1 + k) == d * a + d + d * k;
  }

  /** `v % (256 * p)` splits into the low byte and the next digits modulo `p`. */
  lemma ModSplit(v: nat, p: nat)
    requires p > 0
    ensures v % (256 * p) == (v / 256) % p * 256 + v % 256
  {
    var q, r := v / 256, v % 256;
    var a, b := q / p, q % p;
    assert v == (256 * p) * a + (256 * b + r) by {
      assert q == p * a + b;
      assert 256 * (p * a + b) == (256 * p) * a + 256 * b;
    }
    ModUnique(v, 256 * p, a, 256 * b + r);
  }

  /** Dividing by 256 and then by `p` is dividing by `256 * p`. */
  lemma DivDiv(v: nat, p: nat)
    requires p > 0
    ensures v / 256 / p == v / (256 * p)
  {
    var q, r := v / 256, v % 256;
    var a, b := q / p, q % p;
    assert v == (256 * p) * a + (256 * b + r) by {
      assert q == p * a + b;
      assert 256 * (p * a + b) == (256 * p) * a + 256 * b;
    }
    ModUnique(v, 256 * p, a, 256 * b + r);
  }

  // ---------------------------------------------------------------------
  // Round trips

  /** Decoding the big-endian bytes of `v` gives back `v` reduced to `w` bytes. */
  lemma {:induction false} BigEndianRoundTrip(v: nat, w: nat)
    ensures FromBigEndian(BigEndian(v, w)) == v % Pow256(w)
  {
    if w > 0 {
      var s := BigEndian(v, w);
      assert s[..w - 1] == BigEndian(v / 256, w - 1);
      BigEndianRoundTrip(v / 256, w - 1);
      ModSplit(v, Pow256(w - 1));
    }
  }

  /** A value below `Pow256(w)` survives encoding at width `w` unchanged. */
  lemma BigEndianInRange(v: nat, w: nat)
    requires v < Pow256(w)
    ensures FromBigEndian(BigEndian(v, w)) == v
  {
    BigEndianRoundTrip(v, w);
  }

  /** Encoding the decoded value of `s` at the width of `s` gives back `s`. */
  lemma {:induction false} FromBigEndianRoundTrip(s: seq<Byte>)
    ensures BigEndian(FromBigEndian(s), |s|) == s
  {
    if s != [] {
      var init, last := s[..|s| - 1], s[|s| - 1];
      var n := FromBigEndian(s);
      assert n == FromBigEndian(init) * 256 + last as nat;
      assert n / 256 == FromBigEndian(init) && n % 256 == last as nat;
      FromBigEndianRoundTrip(init);
      assert s == init + [last];
    }
  }

  /** Decoding the little-endian bytes of `v` gives back `v` reduced to `w` bytes. */
  lemma {:induction false} LittleEndianRoundTrip(v: nat, w: nat)
    ensures FromLittleEndian(LittleEndian(v, w)) == v % Pow256(w)
  {
    if w > 0 {
      var s := LittleEndian(v, w);
      assert s[1..] == LittleEndian(v / 256, w - 1);
      LittleEndianRoundTrip(v / 256, w - 1);
      ModSplit(v, Pow256(w - 1));
    }
  }

  /** Encoding the decoded value of `s` at the width of `s` gives back `s`. */
  lemma {:induction false} FromLittleEndianRoundTrip(s: seq<Byte>)
    ensures LittleEndian(FromLittleEndian(s), |s|) == s
  {
    if s != [] {
      var n := FromLittleEndian(s);
      assert n % 256 == s[0] as nat && n / 256 == FromLittleEndian(s[1..]);
      FromLittleEndianRoundTrip(s[1..]);
      assert s == [s[0]] + s[1..];
    }
  }

  /** Zero bytes above the most significant one do not change a little-endian value. */
  lemma {:induction false} FromLittleEndianZeroPadded(s: seq<Byte>, k: nat)
    ensures FromLittleEndian(s + Zeros(k)) == FromLittleEndian(s)
  {
    if s == [] {
      assert s + Zeros(k) == Zeros(k);
      ZerosValue(k);
    } else {
      assert (s + Zeros(k))[1..] == s[1..] + Zeros(k);
      FromLittleEndianZeroPadded(s[1..], k);
    }
  }

  lemma {:induction false} ZerosValue(k: nat)
    ensures FromLittleEndian(Zeros(k)) == 0
  {
    if k > 0 {
      assert Zeros(k)[1..] == Zeros(k - 1);
      ZerosValue(k - 1);
    }
  }

  /** The first `w` little-endian bytes of `v` at any larger width are its `w`-byte encoding. */
  lemma {:induction false} LittleEndianPrefix(v: nat, n: nat, w: nat)
    requires w <= n
    ensures LittleEndian(v, n)[..w] == LittleEndian(v, w)
  {
    if w > 0 {
      LittleEndianPrefix(v / 256, n - 1, w - 1);
      assert LittleEndian(v, n)[..w] == [(v % 256) as Byte] + LittleEndian(v / 256, n - 1)[..w - 1];
    }
  }

  /** Byte `i` of the little-endian encoding is digit `i` of `v` in base 256. */
  lemma {:induction false} LittleEndianAt(v: nat, w: nat, i: nat)
    requires i < w
    ensures LittleEndian(v, w)[i] as nat == v / Pow256(i) % 256
  {
    if i > 0 {
      LittleEndianAt(v / 256, w - 1, i - 1);
      DivDiv(v, Pow256(i - 1));
    }
  }

  /** Byte `i` of the big-endian encoding is digit `w - 1 - i` of `v` in base 256. */
  lemma {:induction false} BigEndianAt(v: nat, w: nat, i: nat)
    requires i < w
    ensures BigEndian(v, w)[i] as nat == v / Pow256(w - 1 - i) % 256
  {
    if i < w - 1 {
      BigEndianAt(v / 256, w - 1, i);
      DivDiv(v, Pow256(w - 2 - i));
    }
  }

  /**
   * The stack's little-endian layout is the memory's big-endian layout
   * read backwards: the same bytes, in the opposite order.
   */
  lemma LittleEndianReversesBigEndian(v: nat, w: nat, i: nat)
    requires i < w
    ensures LittleEndian(v, w)[i] == BigEndian(v, w)[w - 1 - i]
  {
    LittleEndianAt(v, w, i);
    BigEndianAt(v, w, w - 1 - i);
  }
}
