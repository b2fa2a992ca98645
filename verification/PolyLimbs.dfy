/** The 5 x 26-bit limb arithmetic of poly1305-donna-32. */
module PolyLimbs {
  import opened Words
  import opened LittleEndian
  import opened PolySpec

  const M26: nat := 0x400_0000
  const M32: nat := 0x1_0000_0000
  const M64: nat := 0x1_0000_0000_0000_0000

  /** What a uint32_t or uint64_t keeps of a result. */
  function U32(x: int): (r: nat)
    ensures r < M32
  {
    x % M32
  }

  function U64(x: int): (r: nat)
    ensures r < M64
  {
    x % M64
  }

  datatype Limbs = Limbs(l0: nat, l1: nat, l2: nat, l3: nat, l4: nat)

  function Val(h: Limbs): nat {
    h.l0 + M26 * h.l1 + M26 * M26 * h.l2 + M26 * M26 * M26 * h.l3 + M26 * M26 * M26 * M26 * h.l4
  }

  /** The accumulator between blocks: only the second limb may exceed 26 bits. */
  predicate Between(h: Limbs) {
    h.l0 < M26 && h.l1 < M26 + 64 && h.l2 < M26 && h.l3 < M26 && h.l4 < M26
  }

  /** The clamped key. */
  predicate Clamped(r: Limbs) {
    r.l0 <= 0x3ffffff && r.l1 <= 0x3ffff03 && r.l2 <= 0x3ffc0ff && r.l3 <= 0x3f03fff && r.l4 <= 0x00fffff
  }

  // ---- loading -------------------------------------------------------------------------

  lemma Pow2Values()
    ensures Pow2(8) == 0x100 && Pow2(14) == 0x4000 && Pow2(16) == 0x1_0000 && Pow2(20) == 0x10_0000
    ensures Pow2(24) == 0x100_0000 && Pow2(26) == M26 && Pow2(12) == 0x1000 && Pow2(18) == 0x4_0000
    ensures Pow2(6) == 64 && Pow2(2) == 4 && Pow2(32) == M32
  {
    assert Pow2(2) == 4 && Pow2(4) == 16 && Pow2(6) == 64 && Pow2(8) == 0x100;
    assert Pow2(10) == 0x400 && Pow2(12) == 0x1000 && Pow2(14) == 0x4000 && Pow2(16) == 0x1_0000;
    assert Pow2(18) == 0x4_0000 && Pow2(20) == 0x10_0000 && Pow2(22) == 0x40_0000 && Pow2(24) == 0x100_0000;
    assert Pow2(26) == M26 && Pow2(28) == 4 * M26 && Pow2(30) == 16 * M26;
  }

  lemma OrBytes(b0: Byte, b1: Byte, b2: Byte, b3: Byte)
    ensures Or(Or(Or(b0, b1 * 0x100), b2 * 0x1_0000), b3 * 0x100_0000)
         == b0 + 0x100 * b1 + 0x1_0000 * b2 + 0x100_0000 * b3
  {
    hide Or;
    Pow2Values();
    OrSum(b0, b1, 8);
    OrSum(b0 + 0x100 * b1, b2, 16);
    OrSum(b0 + 0x100 * b1 + 0x1_0000 * b2, b3, 24);
  }

  /** Byte i as a plain number. */
  function At(m: seq<Byte>, i: nat): (b: int)
    requires i < |m|
    ensures 0 <= b < 256
  {
    m[i]
  }

  /** LE_LOAD32 */
  function Load32(m: seq<Byte>, i: nat): (r: nat)
    requires i + 4 <= |m|
    ensures r == At(m, i) + 0x100 * At(m, i + 1) + 0x1_0000 * At(m, i + 2) + 0x100_0000 * At(m, i + 3) < M32
  {
    OrBytes(m[i], m[i + 1], m[i + 2], m[i + 3]);
    Or(Or(Or(At(m, i), At(m, i + 1) * 0x100), At(m, i + 2) * 0x1_0000), At(m, i + 3) * 0x100_0000)
  }

  lemma And26(x: nat)
    ensures And(x, 0x3ffffff) == x % M26
  {
    Pow2Values();
    AndLow(x, 26);
  }

  lemma {:induction false} LeNum16(m: seq<Byte>)
    requires |m| == 16
    ensures LeNum(m) == LeNum(m[..4]) + M32 * LeNum(m[4..8]) + M32 * M32 * LeNum(m[8..12]) + M32 * M32 * M32 * LeNum(m[12..])
  {
    hide LeNum;
    Pow2Values();
    assert m == m[..4] + m[4..] && m[4..] == m[4..8] + m[8..] && m[8..] == m[8..12] + m[12..];
    LeNumConcat(m[..4], m[4..]);
    LeNumConcat(m[4..8], m[8..]);
    LeNumConcat(m[8..12], m[12..]);
  }

  lemma {:induction false} LeNum4(m: seq<Byte>)
    requires |m| == 4
    ensures LeNum(m) == At(m, 0) + 0x100 * At(m, 1) + 0x1_0000 * At(m, 2) + 0x100_0000 * At(m, 3)
  {
    assert LeNum(m[1..]) == m[1] + 256 * LeNum(m[2..]) by { assert m[1..][1..] == m[2..]; }
    assert LeNum(m[2..]) == m[2] + 256 * LeNum(m[3..]) by { assert m[2..][1..] == m[3..]; }
    assert LeNum(m[3..]) == m[3] by { assert m[3..][1..] == []; }
  }

  /** A block, cut into limbs; hibit is the byte 1 behind a full block. */
  function BlockLimbs(m: seq<Byte>, hibit: nat): (b: Limbs)
    requires |m| == 16
  {
    Limbs(And(Load32(m, 0), 0x3ffffff),
          And(Load32(m, 3) / 4, 0x3ffffff),
          And(Load32(m, 6) / 16, 0x3ffffff),
          And(Load32(m, 9) / 64, 0x3ffffff),
          Or(Load32(m, 12) / 256, hibit))
  }

  predicate IsByte(x: int) { 0 <= x < 256 }

  lemma Cut0(a: int, b: int, c: int, d: int)
    requires IsByte(a) && IsByte(b) && IsByte(c) && IsByte(d)
    ensures (a + 0x100 * b + 0x1_0000 * c + 0x100_0000 * d) % M26 == a + 0x100 * b + 0x1_0000 * c + 0x100_0000 * (d % 4)
  {
    ModIs(a + 0x100 * b + 0x1_0000 * c + 0x100_0000 * d, M26, d / 4, a + 0x100 * b + 0x1_0000 * c + 0x100_0000 * (d % 4));
  }

  lemma Cut1(a: int, b: int, c: int, d: int)
    requires IsByte(a) && IsByte(b) && IsByte(c) && IsByte(d)
    ensures (a + 0x100 * b + 0x1_0000 * c + 0x100_0000 * d) / 4 % M26 == a / 4 + 0x40 * b + 0x4000 * c + 0x40_0000 * (d % 16)
  {
    var x := a / 4 + 0x40 * b + 0x4000 * c + 0x40_0000 * d;
    ModIs(a + 0x100 * b + 0x1_0000 * c + 0x100_0000 * d, 4, x, a % 4);
    ModIs(x, M26, d / 16, a / 4 + 0x40 * b + 0x4000 * c + 0x40_0000 * (d % 16));
  }

  lemma Cut2(a: int, b: int, c: int, d: int)
    requires IsByte(a) && IsByte(b) && IsByte(c) && IsByte(d)
    ensures (a + 0x100 * b + 0x1_0000 * c + 0x100_0000 * d) / 16 % M26 == a / 16 + 0x10 * b + 0x1000 * c + 0x10_0000 * (d % 64)
  {
    var x := a / 16 + 0x10 * b + 0x1000 * c + 0x10_0000 * d;
    ModIs(a + 0x100 * b + 0x1_0000 * c + 0x100_0000 * d, 16, x, a % 16);
    ModIs(x, M26, d / 64, a / 16 + 0x10 * b + 0x1000 * c + 0x10_0000 * (d % 64));
  }

  lemma Cut3(a: int, b: int, c: int, d: int)
    requires IsByte(a) && IsByte(b) && IsByte(c) && IsByte(d)
    ensures (a + 0x100 * b + 0x1_0000 * c + 0x100_0000 * d) / 64 % M26 == a / 64 + 4 * b + 0x400 * c + 0x4_0000 * d
  {
    var x := a / 64 + 4 * b + 0x400 * c + 0x4_0000 * d;
    ModIs(a + 0x100 * b + 0x1_0000 * c + 0x100_0000 * d, 64, x, a % 64);
    ModIs(x, M26, 0, x);
  }

  lemma Cut4(a: int, b: int, c: int, d: int)
    requires IsByte(a) && IsByte(b) && IsByte(c) && IsByte(d)
    ensures (a + 0x100 * b + 0x1_0000 * c + 0x100_0000 * d) / 256 == b + 0x100 * c + 0x1_0000 * d
  {
    ModIs(a + 0x100 * b + 0x1_0000 * c + 0x100_0000 * d, 256, b + 0x100 * c + 0x1_0000 * d, a);
  }

  lemma {:induction false} CutLow(m: seq<Byte>)
    requires |m| == 16
    ensures And(Load32(m, 0), 0x3ffffff) == At(m, 0) + 0x100 * At(m, 1) + 0x1_0000 * At(m, 2) + 0x100_0000 * (At(m, 3) % 4)
    ensures And(Load32(m, 3) / 4, 0x3ffffff) == At(m, 3) / 4 + 0x40 * At(m, 4) + 0x4000 * At(m, 5) + 0x40_0000 * (At(m, 6) % 16)
  {
    hide And, Load32, At;
    And26(Load32(m, 0));
    Cut0(At(m, 0), At(m, 1), At(m, 2), At(m, 3));
    And26(Load32(m, 3) / 4);
    Cut1(At(m, 3), At(m, 4), At(m, 5), At(m, 6));
  }

  lemma {:induction false} CutMid(m: seq<Byte>)
    requires |m| == 16
    ensures And(Load32(m, 6) / 16, 0x3ffffff) == At(m, 6) / 16 + 0x10 * At(m, 7) + 0x1000 * At(m, 8) + 0x10_0000 * (At(m, 9) % 64)
    ensures And(Load32(m, 9) / 64, 0x3ffffff) == At(m, 9) / 64 + 4 * At(m, 10) + 0x400 * At(m, 11) + 0x4_0000 * At(m, 12)
  {
    hide And, Load32, At;
    And26(Load32(m, 6) / 16);
    Cut2(At(m, 6), At(m, 7), At(m, 8), At(m, 9));
    And26(Load32(m, 9) / 64);
    Cut3(At(m, 9), At(m, 10), At(m, 11), At(m, 12));
  }

  lemma {:induction false} CutHigh(m: seq<Byte>, hibit: nat)
    requires |m| == 16 && (hibit == 0 || hibit == 0x100_0000)
    ensures Or(Load32(m, 12) / 256, hibit) == At(m, 13) + 0x100 * At(m, 14) + 0x1_0000 * At(m, 15) + hibit
  {
    hide Or;
    Cut4(At(m, 12), At(m, 13), At(m, 14), At(m, 15));
    TopLimb(Load32(m, 12) / 256, hibit);
  }

  /** The limbs in terms of the bytes. */
  lemma {:induction false} BlockCut(m: seq<Byte>, hibit: nat)
    requires |m| == 16 && (hibit == 0 || hibit == 0x100_0000)
    ensures var b := BlockLimbs(m, hibit);
            && b.l0 == At(m, 0) + 0x100 * At(m, 1) + 0x1_0000 * At(m, 2) + 0x100_0000 * (At(m, 3) % 4)
            && b.l1 == At(m, 3) / 4 + 0x40 * At(m, 4) + 0x4000 * At(m, 5) + 0x40_0000 * (At(m, 6) % 16)
            && b.l2 == At(m, 6) / 16 + 0x10 * At(m, 7) + 0x1000 * At(m, 8) + 0x10_0000 * (At(m, 9) % 64)
            && b.l3 == At(m, 9) / 64 + 4 * At(m, 10) + 0x400 * At(m, 11) + 0x4_0000 * At(m, 12)
            && b.l4 == At(m, 13) + 0x100 * At(m, 14) + 0x1_0000 * At(m, 15) + hibit
  {
    hide And, Or;
    CutLow(m);
    CutMid(m);
    CutHigh(m, hibit);
  }

  lemma {:induction false} LeNumAt(m: seq<Byte>)
    requires |m| == 16
    ensures LeNum(m) ==
      At(m, 0) + 0x100 * At(m, 1) + 0x1_0000 * At(m, 2) + 0x100_0000 * At(m, 3)
      + M32 * (At(m, 4) + 0x100 * At(m, 5) + 0x1_0000 * At(m, 6) + 0x100_0000 * At(m, 7))
      + M32 * M32 * (At(m, 8) + 0x100 * At(m, 9) + 0x1_0000 * At(m, 10) + 0x100_0000 * At(m, 11))
      + M32 * M32 * M32 * (At(m, 12) + 0x100 * At(m, 13) + 0x1_0000 * At(m, 14) + 0x100_0000 * At(m, 15))
  {
    hide Or;
    hide LeNum;
    LeNum16(m);
    LeNum4(m[..4]);
    LeNum4(m[4..8]);
    LeNum4(m[8..12]);
    LeNum4(m[12..]);
  }

  lemma {:induction false} BlockSum(b: Limbs, m: seq<Byte>, hibit: nat, q3: int, r3: int, q6: int, r6: int, q9: int, r9: int)
    requires |m| == 16 && (hibit == 0 || hibit == 0x100_0000)
    requires At(m, 3) == 4 * q3 + r3 && At(m, 6) == 16 * q6 + r6 && At(m, 9) == 64 * q9 + r9
    requires b.l0 == At(m, 0) + 0x100 * At(m, 1) + 0x1_0000 * At(m, 2) + 0x100_0000 * r3
    requires b.l1 == q3 + 0x40 * At(m, 4) + 0x4000 * At(m, 5) + 0x40_0000 * r6
    requires b.l2 == q6 + 0x10 * At(m, 7) + 0x1000 * At(m, 8) + 0x10_0000 * r9
    requires b.l3 == q9 + 4 * At(m, 10) + 0x400 * At(m, 11) + 0x4_0000 * At(m, 12)
    requires b.l4 == At(m, 13) + 0x100 * At(m, 14) + 0x1_0000 * At(m, 15) + hibit
    ensures Val(b) == LeNum(m) + (if hibit == 0 then 0 else TWO128)
  {
    hide LeNum, At, Val;
    LeNumAt(m);
    LowLimbs(b.l0, b.l1, At(m, 0), At(m, 1), At(m, 2), At(m, 3), At(m, 4), At(m, 5), q3, r3, r6);
    HighLimbs(b.l2, b.l3, b.l4, q6, At(m, 7), At(m, 8), At(m, 9), At(m, 10), At(m, 11), At(m, 12),
              At(m, 13), At(m, 14), At(m, 15), q9, r9, hibit);
    AllLimbs(b, At(m, 0) + 0x100 * At(m, 1) + 0x1_0000 * At(m, 2) + 0x100_0000 * At(m, 3),
             At(m, 4) + 0x100 * At(m, 5), At(m, 6), At(m, 7),
             At(m, 8) + 0x100 * At(m, 9) + 0x1_0000 * At(m, 10) + 0x100_0000 * At(m, 11),
             At(m, 12) + 0x100 * At(m, 13) + 0x1_0000 * At(m, 14) + 0x100_0000 * At(m, 15), q6, r6, hibit);
  }

  lemma AllLimbs(b: Limbs, w0: int, w1: int, m6: int, m7: int, w2: int, w3: int, q6: int, r6: int, hibit: nat)
    requires m6 == 16 * q6 + r6 && (hibit == 0 || hibit == 0x100_0000)
    requires b.l0 + M26 * b.l1 == w0 + M32 * (w1 + 0x1_0000 * r6)
    requires b.l2 + M26 * b.l3 + M26 * M26 * b.l4 == q6 + 0x10 * m7 + 0x1000 * w2 + 0x1000 * M32 * w3 + M26 * M26 * hibit
    ensures Val(b) == w0 + M32 * (w1 + 0x1_0000 * m6 + 0x100_0000 * m7) + M32 * M32 * w2 + M32 * M32 * M32 * w3
                      + (if hibit == 0 then 0 else TWO128)
  {
  }

  lemma LowLimbs(l0: int, l1: int, m0: int, m1: int, m2: int, m3: int, m4: int, m5: int, q3: int, r3: int, r6: int)
    requires m3 == 4 * q3 + r3 && l0 == m0 + 0x100 * m1 + 0x1_0000 * m2 + 0x100_0000 * r3
    requires l1 == q3 + 0x40 * m4 + 0x4000 * m5 + 0x40_0000 * r6
    ensures l0 + M26 * l1 == m0 + 0x100 * m1 + 0x1_0000 * m2 + 0x100_0000 * m3 + M32 * (m4 + 0x100 * m5 + 0x1_0000 * r6)
  {
  }

  lemma HighLimbs(l2: int, l3: int, l4: int, q6: int, m7: int, m8: int, m9: int, m10: int, m11: int, m12: int,
                  m13: int, m14: int, m15: int, q9: int, r9: int, hibit: int)
    requires m9 == 64 * q9 + r9 && l2 == q6 + 0x10 * m7 + 0x1000 * m8 + 0x10_0000 * r9
    requires l3 == q9 + 4 * m10 + 0x400 * m11 + 0x4_0000 * m12
    requires l4 == m13 + 0x100 * m14 + 0x1_0000 * m15 + hibit
    ensures l2 + M26 * l3 + M26 * M26 * l4
         == q6 + 0x10 * m7 + 0x1000 * (m8 + 0x100 * m9 + 0x1_0000 * m10 + 0x100_0000 * m11)
            + 0x1000 * M32 * (m12 + 0x100 * m13 + 0x1_0000 * m14 + 0x100_0000 * m15) + M26 * M26 * hibit
  {
  }

  lemma {:induction false} BlockVal(m: seq<Byte>, hibit: nat)
    requires |m| == 16 && (hibit == 0 || hibit == 0x100_0000)
    ensures var b := BlockLimbs(m, hibit);
            && Val(b) == LeNum(m) + (if hibit == 0 then 0 else TWO128)
            && b.l0 < M26 && b.l1 < M26 && b.l2 < M26 && b.l3 < M26 && b.l4 < 0x200_0000
  {
    hide And, Or, LeNum, BlockLimbs, Val;
    BlockCut(m, hibit);
    Straddle(At(m, 3), 4);
    Straddle(At(m, 6), 16);
    Straddle(At(m, 9), 64);
    BlockSum(BlockLimbs(m, hibit), m, hibit, At(m, 3) / 4, At(m, 3) % 4, At(m, 6) / 16, At(m, 6) % 16, At(m, 9) / 64, At(m, 9) % 64);
  }

  /** The two parts of a byte that lies across a limb boundary. */
  lemma Straddle(b: int, k: int)
    requires k > 0
    ensures b == k * (b / k) + b % k
  {
  }

  lemma TopLimb(x: nat, hibit: nat)
    requires x < 0x100_0000 && (hibit == 0 || hibit == 0x100_0000)
    ensures Or(x, hibit) == x + hibit
  {
    Pow2Values();
    OrSum(x, if hibit == 0 then 0 else 1, 24);
  }

  // ---- multiplying ---------------------------------------------------------------------

  /** The column sums of h * r, with s1 .. s4 for the limbs of r that are folded down
      from 2^130. */
  function ColumnsWith(h: Limbs, r: Limbs, s1: nat, s2: nat, s3: nat, s4: nat): Limbs {
    Limbs(Dot(h, r.l0, s4, s3, s2, s1),
          Dot(h, r.l1, r.l0, s4, s3, s2),
          Dot(h, r.l2, r.l1, r.l0, s4, s3),
          Dot(h, r.l3, r.l2, r.l1, r.l0, s4),
          Dot(h, r.l4, r.l3, r.l2, r.l1, r.l0))
  }

  function Dot(h: Limbs, a: nat, b: nat, c: nat, d: nat, e: nat): nat {
    h.l0 * a + h.l1 * b + h.l2 * c + h.l3 * d + h.l4 * e
  }

  function Columns(h: Limbs, r: Limbs): Limbs {
    ColumnsWith(h, r, r.l1 * 5, r.l2 * 5, r.l3 * 5, r.l4 * 5)
  }

  /** How often 2^130 - 5 was dropped in the columns. */
  function Folded(h: Limbs, r: Limbs): int {
    (h.l1 * r.l4 + h.l2 * r.l3 + h.l3 * r.l2 + h.l4 * r.l1)
    + M26 * (h.l2 * r.l4 + h.l3 * r.l3 + h.l4 * r.l2)
    + M26 * M26 * (h.l3 * r.l4 + h.l4 * r.l3)
    + M26 * M26 * M26 * (h.l4 * r.l4)
  }

  /** x times a number in limbs, column by column. */
  lemma Scale(x: int, r: Limbs)
    ensures x * Val(r) == x * r.l0 + M26 * (x * r.l1) + M26 * M26 * (x * r.l2)
                          + M26 * M26 * M26 * (x * r.l3) + M26 * M26 * M26 * M26 * (x * r.l4)
  {
    Spread(x, r.l0, M26 * r.l1 + M26 * M26 * r.l2 + M26 * M26 * M26 * r.l3 + M26 * M26 * M26 * M26 * r.l4);
    Spread(x, M26 * r.l1, M26 * M26 * r.l2 + M26 * M26 * M26 * r.l3 + M26 * M26 * M26 * M26 * r.l4);
    Spread(x, M26 * M26 * r.l2, M26 * M26 * M26 * r.l3 + M26 * M26 * M26 * M26 * r.l4);
    Spread(x, M26 * M26 * M26 * r.l3, M26 * M26 * M26 * M26 * r.l4);
    Pull(x, M26, r.l1);
    Pull(x, M26 * M26, r.l2);
    Pull(x, M26 * M26 * M26, r.l3);
    Pull(x, M26 * M26 * M26 * M26, r.l4);
  }

  lemma Spread(x: int, a: int, b: int)
    ensures x * (a + b) == x * a + x * b
  {
  }

  lemma Pull(x: int, c: int, y: int)
    ensures x * (c * y) == c * (x * y)
  {
  }

  /** The columns stand for the product, modulo 2^130 - 5. */
  lemma ColumnsVal(h: Limbs, r: Limbs)
    ensures Val(h) * Val(r) == Val(Columns(h, r)) + P * Folded(h, r)
  {
    hide Val, Columns, Folded, LongProduct;
    Multiply(h, r);
    Fold(h, r);
  }

  /** All twenty-five products, each in its place. */
  function LongProduct(h: Limbs, r: Limbs): int {
    h.l0 * r.l0
    + M26 * (h.l0 * r.l1 + h.l1 * r.l0)
    + M26 * M26 * (h.l0 * r.l2 + h.l1 * r.l1 + h.l2 * r.l0)
    + M26 * M26 * M26 * (h.l0 * r.l3 + h.l1 * r.l2 + h.l2 * r.l1 + h.l3 * r.l0)
    + M26 * M26 * M26 * M26 * (h.l0 * r.l4 + h.l1 * r.l3 + h.l2 * r.l2 + h.l3 * r.l1 + h.l4 * r.l0)
    + M26 * M26 * M26 * M26 * M26 * (h.l1 * r.l4 + h.l2 * r.l3 + h.l3 * r.l2 + h.l4 * r.l1)
    + M26 * M26 * M26 * M26 * M26 * M26 * (h.l2 * r.l4 + h.l3 * r.l3 + h.l4 * r.l2)
    + M26 * M26 * M26 * M26 * M26 * M26 * M26 * (h.l3 * r.l4 + h.l4 * r.l3)
    + M26 * M26 * M26 * M26 * M26 * M26 * M26 * M26 * (h.l4 * r.l4)
  }

  lemma Multiply(h: Limbs, r: Limbs)
    ensures Val(h) * Val(r) == LongProduct(h, r)
  {
    hide Val;
    Scale(h.l0, r);
    Scale(h.l1, r);
    Scale(h.l2, r);
    Scale(h.l3, r);
    Scale(h.l4, r);
    Distribute5(h, Val(r));
  }

  lemma Fold(h: Limbs, r: Limbs)
    ensures LongProduct(h, r) == Val(Columns(h, r)) + P * Folded(h, r)
  {
    Five(h, r);
  }

  lemma Distribute5(h: Limbs, v: int)
    ensures Val(h) * v == h.l0 * v + M26 * (h.l1 * v) + M26 * M26 * (h.l2 * v)
                          + M26 * M26 * M26 * (h.l3 * v) + M26 * M26 * M26 * M26 * (h.l4 * v)
  {
    Scale(v, h);
  }

  lemma Five(h: Limbs, r: Limbs)
    ensures h.l1 * (r.l4 * 5) == 5 * (h.l1 * r.l4) && h.l2 * (r.l4 * 5) == 5 * (h.l2 * r.l4)
    ensures h.l3 * (r.l4 * 5) == 5 * (h.l3 * r.l4) && h.l4 * (r.l4 * 5) == 5 * (h.l4 * r.l4)
    ensures h.l2 * (r.l3 * 5) == 5 * (h.l2 * r.l3) && h.l3 * (r.l3 * 5) == 5 * (h.l3 * r.l3)
    ensures h.l4 * (r.l3 * 5) == 5 * (h.l4 * r.l3) && h.l3 * (r.l2 * 5) == 5 * (h.l3 * r.l2)
    ensures h.l4 * (r.l2 * 5) == 5 * (h.l4 * r.l2) && h.l4 * (r.l1 * 5) == 5 * (h.l4 * r.l1)
  {
  }

  // ---- one block -----------------------------------------------------------------------

  /** h += block, in 32-bit variables. */
  function Added(h: Limbs, b: Limbs): Limbs {
    Limbs(U32(h.l0 + b.l0), U32(h.l1 + b.l1), U32(h.l2 + b.l2), U32(h.l3 + b.l3), U32(h.l4 + b.l4))
  }

  /** d0 .. d4, in 64-bit variables, with s1 .. s4 in 32-bit ones. */
  function Multiplied(h: Limbs, r: Limbs): Limbs {
    var d := ColumnsWith(h, r, U32(r.l1 * 5), U32(r.l2 * 5), U32(r.l3 * 5), U32(r.l4 * 5));
    Limbs(U64(d.l0), U64(d.l1), U64(d.l2), U64(d.l3), U64(d.l4))
  }

  /** The delayed carries behind the multiplication. */
  function Carried(d: Limbs): Limbs {
    var c := U32(d.l0 / M26);
    var h0 := And(U32(d.l0), 0x3ffffff);
    var d1 := U64(d.l1 + c);
    var c := U32(d1 / M26);
    var h1 := And(U32(d1), 0x3ffffff);
    var d2 := U64(d.l2 + c);
    var c := U32(d2 / M26);
    var h2 := And(U32(d2), 0x3ffffff);
    var d3 := U64(d.l3 + c);
    var c := U32(d3 / M26);
    var h3 := And(U32(d3), 0x3ffffff);
    var d4 := U64(d.l4 + c);
    var c := U32(d4 / M26);
    var h4 := And(U32(d4), 0x3ffffff);
    var h0 := U32(h0 + U32(c * 5));
    var c := h0 / M26;
    var h0 := And(h0, 0x3ffffff);
    var h1 := U32(h1 + c);
    Limbs(h0, h1, h2, h3, h4)
  }

  const H: nat := 0x800_0040

  predicate Small(h: Limbs) {
    h.l0 < H && h.l1 < H && h.l2 < H && h.l3 < H && h.l4 < H
  }

  lemma AddedExact(h: Limbs, b: Limbs)
    requires Between(h) && b.l0 < M26 && b.l1 < M26 && b.l2 < M26 && b.l3 < M26 && b.l4 < 0x200_0000
    ensures Added(h, b) == Limbs(h.l0 + b.l0, h.l1 + b.l1, h.l2 + b.l2, h.l3 + b.l3, h.l4 + b.l4)
    ensures Small(Added(h, b))
    ensures Val(Added(h, b)) == Val(h) + Val(b)
  {
  }

  lemma MulLe(a: int, b: int, x: int, y: int)
    requires 0 <= a <= x && 0 <= b <= y
    ensures 0 <= a * b <= x * y
  {
  }

  /** What the columns are at most: enough to keep every carry within 32 bits. */
  predicate ColumnsFit(d: Limbs) {
    && d.l0 < 0x400_0000_0000_0000 - M32 && d.l1 < 0x400_0000_0000_0000 - M32 && d.l2 < 0x400_0000_0000_0000 - M32
    && d.l3 < 0x400_0000_0000_0000 - M32 && d.l4 < 0xC0_0000_0000_0000 - M32
  }

  lemma ColumnsBound(h: Limbs, r: Limbs)
    requires Small(h) && Clamped(r)
    ensures ColumnsFit(Columns(h, r))
  {
    RowBound(h.l0, r);
    RowBound(h.l1, r);
    RowBound(h.l2, r);
    RowBound(h.l3, r);
    RowBound(h.l4, r);
    Five(h, r);
  }

  lemma RowBound(x: nat, r: Limbs)
    requires x < H && Clamped(r)
    ensures x * r.l0 <= H * 0x3ffffff && x * r.l1 <= H * 0x3ffff03 && x * r.l2 <= H * 0x3ffc0ff
    ensures x * r.l3 <= H * 0x3f03fff && x * r.l4 <= H * 0x00fffff
  {
    MulLe(x, r.l0, H, 0x3ffffff);
    MulLe(x, r.l1, H, 0x3ffff03);
    MulLe(x, r.l2, H, 0x3ffc0ff);
    MulLe(x, r.l3, H, 0x3f03fff);
    MulLe(x, r.l4, H, 0x00fffff);
  }

  /** No 64-bit sum and no s1 .. s4 wraps around. */
  lemma MultipliedExact(h: Limbs, r: Limbs)
    requires Small(h) && Clamped(r)
    ensures Multiplied(h, r) == Columns(h, r) && ColumnsFit(Columns(h, r))
  {
    ColumnsBound(h, r);
    hide U32, U64, ColumnsWith;
    var d := Columns(h, r);
    Fits32(r.l1 * 5);
    Fits32(r.l2 * 5);
    Fits32(r.l3 * 5);
    Fits32(r.l4 * 5);
    Fits64(d.l0);
    Fits64(d.l1);
    Fits64(d.l2);
    Fits64(d.l3);
    Fits64(d.l4);
  }

  lemma Fits32(x: int)
    requires 0 <= x < M32
    ensures U32(x) == x
  {
  }

  lemma Fits64(x: int)
    requires 0 <= x < M64
    ensures U64(x) == x
  {
  }

  lemma Low26(x: nat)
    ensures And(U32(x), 0x3ffffff) == x % M26
  {
    hide And;
    And26(U32(x));
    ModOfMod(x);
  }

  lemma ModOfMod(x: nat)
    ensures x % M32 % M26 == x % M26
  {
    var q, y := x / M32, x % M32;
    ModIs(x, M26, 64 * q + y / M26, y % M26);
  }

  // The same carries on unbounded numbers.
  function D1(d: Limbs): nat { d.l1 + d.l0 / M26 }
  function D2(d: Limbs): nat { d.l2 + D1(d) / M26 }
  function D3(d: Limbs): nat { d.l3 + D2(d) / M26 }
  function D4(d: Limbs): nat { d.l4 + D3(d) / M26 }
  function Wrapped(d: Limbs): nat { d.l0 % M26 + 5 * (D4(d) / M26) }

  function CarriedIdeal(d: Limbs): Limbs {
    Limbs(Wrapped(d) % M26, D1(d) % M26 + Wrapped(d) / M26, D2(d) % M26, D3(d) % M26, D4(d) % M26)
  }

  lemma CarriesFit(d: Limbs)
    requires ColumnsFit(d)
    ensures d.l0 / M26 < M32 && D1(d) < M64 && D1(d) / M26 < M32 && D2(d) < M64 && D2(d) / M26 < M32
    ensures D3(d) < M64 && D3(d) / M26 < M32 && D4(d) < 0xC0_0000_0000_0000 && 5 * (D4(d) / M26) < M32 - M26
    ensures Wrapped(d) < M32 && Wrapped(d) / M26 < 64
  {
  }

  lemma CarriedExact(d: Limbs)
    requires ColumnsFit(d)
    ensures Carried(d) == CarriedIdeal(d)
  {
    hide And, U32, U64;
    CarriesFit(d);
    Low26(d.l0);
    Low26(D1(d));
    Low26(D2(d));
    Low26(D3(d));
    Low26(D4(d));
    And26(Wrapped(d));
    Fits32(d.l0 / M26);
    Fits64(D1(d));
    Fits32(D1(d) / M26);
    Fits64(D2(d));
    Fits32(D2(d) / M26);
    Fits64(D3(d));
    Fits32(D3(d) / M26);
    Fits64(D4(d));
    Fits32(D4(d) / M26);
    Fits32(5 * (D4(d) / M26));
    Fits32(Wrapped(d));
    Fits32(D1(d) % M26 + Wrapped(d) / M26);
  }

  /** The carries keep the value modulo 2^130 - 5 and leave an accumulator as between
      blocks. */
  lemma CarriedVal(d: Limbs)
    requires ColumnsFit(d)
    ensures Between(CarriedIdeal(d))
    ensures Val(d) == Val(CarriedIdeal(d)) + P * (D4(d) / M26)
  {
    CarriesFit(d);
    Straddle(d.l0, M26);
    Straddle(D1(d), M26);
    Straddle(D2(d), M26);
    Straddle(D3(d), M26);
    Straddle(D4(d), M26);
    Straddle(Wrapped(d), M26);
  }

  /** One iteration of the block loop. */
  function Round(h: Limbs, r: Limbs, m: seq<Byte>, hibit: nat): Limbs
    requires |m| == 16
  {
    Carried(Multiplied(Added(h, BlockLimbs(m, hibit)), r))
  }

  /** One block: the limbs stand for (h + block) * r modulo 2^130 - 5. */
  lemma RoundVal(h: Limbs, r: Limbs, m: seq<Byte>, hibit: nat)
    requires Between(h) && Clamped(r) && |m| == 16 && (hibit == 0 || hibit == 0x100_0000)
    ensures Between(Round(h, r, m, hibit))
    ensures Val(Round(h, r, m, hibit)) % P == (Val(h) + LeNum(m) + (if hibit == 0 then 0 else TWO128)) * Val(r) % P
  {
    hide And, Or, LeNum, Val, Columns, Carried, CarriedIdeal, Multiplied, Added, BlockLimbs, D4, Folded;
    var b := BlockLimbs(m, hibit);
    BlockVal(m, hibit);
    var g := Added(h, b);
    AddedExact(h, b);
    var d := Multiplied(g, r);
    MultipliedExact(g, r);
    var o := Carried(d);
    CarriedExact(d);
    CarriedVal(d);
    ColumnsVal(g, r);
    ModShift(P, Val(o), D4(d) / M26);
    ModShift(P, Val(d), Folded(g, r));
  }
}
