/** poly1305_init: loading the key and clamping it in one step. */
module PolyKey {
  import opened Words
  import opened LittleEndian
  import opened PolySpec
  import opened PolyLimbs

  // ---- the key -------------------------------------------------------------------------

  /** r, loaded and clamped in one step by the masks. */
  function KeyLimbs(k: seq<Byte>): Limbs
    requires |k| == 16
  {
    Limbs(And(Load32(k, 0), 0x3ffffff),
          And(Load32(k, 3) / 4, 0x3ffff03),
          And(Load32(k, 6) / 16, 0x3ffc0ff),
          And(Load32(k, 9) / 64, 0x3f03fff),
          And(Load32(k, 12) / 256, 0x00fffff))
  }

  /** A mask with two runs of ones, of length a from bit k and of length b from bit 0. */
  lemma TwoRuns(x: nat, m: nat, k: nat, a: nat, b: nat)
    requires m < Pow2(k) && Pow2(b) <= Pow2(k)
    ensures And(x * Pow2(k) + m, (Pow2(a) - 1) * Pow2(k) + (Pow2(b) - 1)) == (x % Pow2(a)) * Pow2(k) + m % Pow2(b)
  {
    hide And;
    AndSplit(x, m, Pow2(a) - 1, Pow2(b) - 1, k);
    AndLow(x, a);
    AndLow(m, b);
  }

  lemma Runs1(x: nat, m: nat)
    requires m < 0x100
    ensures And(x * 0x100 + m, 0x3ffff03) == (x % 0x4_0000) * 0x100 + m % 4
  {
    hide And;
    Pow2Values();
    TwoRuns(x, m, 8, 18, 2);
  }

  lemma Runs2(x: nat, m: nat)
    requires m < 0x4000
    ensures And(x * 0x4000 + m, 0x3ffc0ff) == (x % 0x1000) * 0x4000 + m % 0x100
  {
    hide And;
    Pow2Values();
    TwoRuns(x, m, 14, 12, 8);
  }

  lemma Runs3(x: nat, m: nat)
    requires m < 0x10_0000
    ensures And(x * 0x10_0000 + m, 0x3f03fff) == (x % 0x40) * 0x10_0000 + m % 0x4000
  {
    hide And;
    Pow2Values();
    TwoRuns(x, m, 20, 6, 14);
  }

  lemma Runs4(x: nat)
    ensures And(x, 0x00fffff) == x % 0x10_0000
  {
    hide And;
    Pow2Values();
    AndLow(x, 20);
  }

  // Bytes a .. d of the key, with the bits at the cuts split off.

  lemma Mask1(y: nat, a: int, b: int, c: int, d: int)
    requires IsByte(a) && IsByte(b) && IsByte(c) && IsByte(d)
    requires y == (a + 0x100 * b + 0x1_0000 * c + 0x100_0000 * d) / 4
    ensures And(y, 0x3ffff03) == a % 16 / 4 + 0x40 * (b / 4 * 4) + 0x4000 * c + 0x40_0000 * (d % 16)
  {
    hide And;
    var x, m := b / 4 + 0x40 * c + 0x4000 * d, a / 4 + 0x40 * (b % 4);
    ModIs(a + 0x100 * b + 0x1_0000 * c + 0x100_0000 * d, 4, x * 0x100 + m, a % 4);
    assert y == x * 0x100 + m;
    Runs1(x, m);
    ModIs(x, 0x4_0000, d / 16, b / 4 + 0x40 * c + 0x4000 * (d % 16));
    ModIs(m, 4, a / 16 + 0x10 * (b % 4), a % 16 / 4);
  }

  lemma Mask2(y: nat, a: int, b: int, c: int, d: int)
    requires IsByte(a) && IsByte(b) && IsByte(c) && IsByte(d)
    requires y == (a + 0x100 * b + 0x1_0000 * c + 0x100_0000 * d) / 16
    ensures And(y, 0x3ffc0ff) == a / 16 + 0x10 * (b % 16) + 0x1000 * (c / 4 * 4) + 0x10_0000 * (d % 64)
  {
    hide And;
    var x, m := c / 4 + 0x40 * d, a / 16 + 0x10 * b + 0x1000 * (c % 4);
    ModIs(a + 0x100 * b + 0x1_0000 * c + 0x100_0000 * d, 16, x * 0x4000 + m, a % 16);
    assert y == x * 0x4000 + m;
    Runs2(x, m);
    ModIs(x, 0x1000, d / 64, c / 4 + 0x40 * (d % 64));
    ModIs(m, 0x100, b / 16 + 0x10 * (c % 4), a / 16 + 0x10 * (b % 16));
  }

  lemma Mask3(y: nat, a: int, b: int, c: int, d: int)
    requires IsByte(a) && IsByte(b) && IsByte(c) && IsByte(d)
    requires y == (a + 0x100 * b + 0x1_0000 * c + 0x100_0000 * d) / 64
    ensures And(y, 0x3f03fff) == a / 64 + 4 * b + 0x400 * (c % 16) + 0x4_0000 * (d / 4 * 4)
  {
    hide And;
    var x, m := d / 4, a / 64 + 4 * b + 0x400 * c + 0x4_0000 * (d % 4);
    ModIs(a + 0x100 * b + 0x1_0000 * c + 0x100_0000 * d, 64, x * 0x10_0000 + m, a % 64);
    assert y == x * 0x10_0000 + m;
    Runs3(x, m);
    ModIs(x, 0x40, 0, x);
    ModIs(m, 0x4000, c / 16 + 0x10 * (d % 4), a / 64 + 4 * b + 0x400 * (c % 16));
  }

  lemma Mask4(y: nat, a: int, b: int, c: int, d: int)
    requires IsByte(a) && IsByte(b) && IsByte(c) && IsByte(d)
    requires y == (a + 0x100 * b + 0x1_0000 * c + 0x100_0000 * d) / 256
    ensures And(y, 0x00fffff) == b + 0x100 * c + 0x1_0000 * (d % 16)
  {
    hide And;
    Cut4(a, b, c, d);
    Runs4(y);
    ModIs(y, 0x10_0000, d / 16, b + 0x100 * c + 0x1_0000 * (d % 16));
  }

  /** The masks are the clamp of section 2.5.1 of RFC 8439. */
  lemma {:induction false} KeyLimbsClamp(k: seq<Byte>)
    requires |k| == 16
    ensures Clamped(KeyLimbs(k))
    ensures Val(KeyLimbs(k)) == LeNum(Clamp(k))
  {
    hide And, Or, LeNum, Val, BlockLimbs, KeyLimbs, Clamp, At, Clamped;
    KeyClamped(k);
    KeyLimbsSame(k);
    BlockVal(Clamp(k), 0);
  }

  lemma {:induction false} KeyClamped(k: seq<Byte>)
    requires |k| == 16
    ensures Clamped(KeyLimbs(k))
  {
    hide And, Or, KeyLimbs, At;
    KeyCut(k);
  }

  lemma {:induction false} KeyLimbsSame(k: seq<Byte>)
    requires |k| == 16
    ensures KeyLimbs(k) == BlockLimbs(Clamp(k), 0)
  {
    hide And, Or, BlockLimbs, KeyLimbs, Clamp, At;
    KeyCut(k);
    ClampAt(k);
    BlockCut(Clamp(k), 0);
  }

  lemma {:induction false} ClampAt(k: seq<Byte>)
    requires |k| == 16
    ensures var c := Clamp(k);
            && At(c, 0) == At(k, 0) && At(c, 1) == At(k, 1) && At(c, 2) == At(k, 2) && At(c, 3) == At(k, 3) % 16
            && At(c, 4) == At(k, 4) / 4 * 4 && At(c, 5) == At(k, 5) && At(c, 6) == At(k, 6) && At(c, 7) == At(k, 7) % 16
            && At(c, 8) == At(k, 8) / 4 * 4 && At(c, 9) == At(k, 9) && At(c, 10) == At(k, 10) && At(c, 11) == At(k, 11) % 16
            && At(c, 12) == At(k, 12) / 4 * 4 && At(c, 13) == At(k, 13) && At(c, 14) == At(k, 14) && At(c, 15) == At(k, 15) % 16
  {
  }

  lemma {:induction false} KeyCut(k: seq<Byte>)
    requires |k| == 16
    ensures var r := KeyLimbs(k);
            && r.l0 == At(k, 0) + 0x100 * At(k, 1) + 0x1_0000 * At(k, 2) + 0x100_0000 * (At(k, 3) % 4)
            && r.l1 == At(k, 3) % 16 / 4 + 0x40 * (At(k, 4) / 4 * 4) + 0x4000 * At(k, 5) + 0x40_0000 * (At(k, 6) % 16)
            && r.l2 == At(k, 6) / 16 + 0x10 * (At(k, 7) % 16) + 0x1000 * (At(k, 8) / 4 * 4) + 0x10_0000 * (At(k, 9) % 64)
            && r.l3 == At(k, 9) / 64 + 4 * At(k, 10) + 0x400 * (At(k, 11) % 16) + 0x4_0000 * (At(k, 12) / 4 * 4)
            && r.l4 == At(k, 13) + 0x100 * At(k, 14) + 0x1_0000 * (At(k, 15) % 16)
  {
    hide And, Or, At, Load32;
    And26(Load32(k, 0));
    Cut0(At(k, 0), At(k, 1), At(k, 2), At(k, 3));
    Mask1(Load32(k, 3) / 4, At(k, 3), At(k, 4), At(k, 5), At(k, 6));
    Mask2(Load32(k, 6) / 16, At(k, 6), At(k, 7), At(k, 8), At(k, 9));
    Mask3(Load32(k, 9) / 64, At(k, 9), At(k, 10), At(k, 11), At(k, 12));
    Mask4(Load32(k, 12) / 256, At(k, 12), At(k, 13), At(k, 14), At(k, 15));
  }
}
