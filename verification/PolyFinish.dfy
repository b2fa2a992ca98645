/** poly1305_finish: full reduction, repacking into 32-bit words, and the final add. */
module PolyFinish {
  import opened Words
  import opened LittleEndian
  import opened PolySpec
  import opened PolyLimbs

  // ---- the carry pass ------------------------------------------------------------------

  predicate Reduced26(h: Limbs) {
    h.l0 < M26 && h.l1 < M26 && h.l2 < M26 && h.l3 < M26 && h.l4 < M26
  }

  function CarryPass(h: Limbs): Limbs {
    var c := h.l1 / M26;
    var h1 := And(h.l1, 0x3ffffff);
    var h2 := U32(h.l2 + c);
    var c := h2 / M26;
    var h2 := And(h2, 0x3ffffff);
    var h3 := U32(h.l3 + c);
    var c := h3 / M26;
    var h3 := And(h3, 0x3ffffff);
    var h4 := U32(h.l4 + c);
    var c := h4 / M26;
    var h4 := And(h4, 0x3ffffff);
    var h0 := U32(h.l0 + U32(c * 5));
    var c := h0 / M26;
    var h0 := And(h0, 0x3ffffff);
    var h1 := U32(h1 + c);
    Limbs(h0, h1, h2, h3, h4)
  }

  /** One pass is enough: if the second limb carries out, what is left of it is small,
      so the carry that may come back into it cannot carry again. */
  lemma CarryPassReduces(h: Limbs)
    requires Between(h)
    ensures Reduced26(CarryPass(h))
    ensures Val(CarryPass(h)) % P == Val(h) % P
  {
    hide And, U32, Val;
    var c1, h1 := h.l1 / M26, h.l1 % M26;
    And26(h.l1);
    var h2 := h.l2 + c1;
    Fits32(h2);
    And26(h2);
    var h3 := h.l3 + h2 / M26;
    Fits32(h3);
    And26(h3);
    var h4 := h.l4 + h3 / M26;
    Fits32(h4);
    And26(h4);
    var c4 := h4 / M26;
    var h0 := h.l0 + c4 * 5;
    Fits32(c4 * 5);
    Fits32(h0);
    And26(h0);
    Fits32(h1 + h0 / M26);
    var o := Limbs(h0 % M26, h1 + h0 / M26, h2 % M26, h3 % M26, h4 % M26);
    assert CarryPass(h) == o;
    PassVal(h, o, c1, h2, h3, h4, h0);
    ModShift(P, Val(o), c4);
  }

  lemma PassVal(h: Limbs, o: Limbs, c1: int, h2: int, h3: int, h4: int, h0: int)
    requires c1 == h.l1 / M26 && h2 == h.l2 + c1 && h3 == h.l3 + h2 / M26 && h4 == h.l4 + h3 / M26
    requires h0 == h.l0 + h4 / M26 * 5
    requires o == Limbs(h0 % M26, h.l1 % M26 + h0 / M26, h2 % M26, h3 % M26, h4 % M26)
    ensures Val(h) == Val(o) + P * (h4 / M26)
  {
    Straddle(h.l1, M26);
    Straddle(h2, M26);
    Straddle(h3, M26);
    Straddle(h4, M26);
    Straddle(h0, M26);
  }

  // ---- the masked subtraction ------------------------------------------------------------

  /** (h & mask) | g, with g already masked by the complement. */
  function Select(mask: nat, h: nat, g: nat): nat
    requires mask < M32
  {
    Or(And(h, M32 - 1 - mask), And(g, mask))
  }

  lemma SelectEither(h: nat, g: nat)
    requires h < M32 && g < M32
    ensures Select(0, h, g) == h
    ensures Select(M32 - 1, h, g) == g
  {
    hide And, Or;
    Pow2Values();
    AndLow(h, 32);
    AndLow(g, 32);
    AndZero(g);
    AndZero(h);
    OrZero(g);
    OrSum0(h);
  }

  lemma {:induction false} OrSum0(x: nat)
    ensures Or(x, 0) == x
    decreases x
  {
    if x != 0 { OrSum0(x / 2); }
  }

  /** h + 5 with carries, minus 2^130: below zero exactly when h < 2^130 - 5. */
  function MinusP(h: Limbs): Limbs {
    var g0 := U32(h.l0 + 5);
    var c := g0 / M26;
    var g0 := And(g0, 0x3ffffff);
    var g1 := U32(h.l1 + c);
    var c := g1 / M26;
    var g1 := And(g1, 0x3ffffff);
    var g2 := U32(h.l2 + c);
    var c := g2 / M26;
    var g2 := And(g2, 0x3ffffff);
    var g3 := U32(h.l3 + c);
    var c := g3 / M26;
    var g3 := And(g3, 0x3ffffff);
    var g4 := U32(h.l4 + c - M26);
    Limbs(g0, g1, g2, g3, g4)
  }

  lemma MinusPIs(h: Limbs)
    requires Reduced26(h)
    ensures var g := MinusP(h);
            && g.l0 < M26 && g.l1 < M26 && g.l2 < M26 && g.l3 < M26 && g.l4 < M32
            && (if Val(h) < P then g.l4 >= 0x8000_0000 else g.l4 == 0 && Val(g) == Val(h) - P)
  {
    hide And, U32, Val;
    var g0 := h.l0 + 5;
    Fits32(g0);
    And26(g0);
    var g1 := h.l1 + g0 / M26;
    Fits32(g1);
    And26(g1);
    var g2 := h.l2 + g1 / M26;
    Fits32(g2);
    And26(g2);
    var g3 := h.l3 + g2 / M26;
    Fits32(g3);
    And26(g3);
    var top := h.l4 + g3 / M26 - M26;
    TopWraps(top);
    assert MinusP(h) == Limbs(g0 % M26, g1 % M26, g2 % M26, g3 % M26, U32(top));
    MinusPVal(h, g0, g1, g2, g3, top);
  }

  lemma TopWraps(top: int)
    requires 0 - M26 <= top <= 0
    ensures U32(top) == if top < 0 then top + M32 else 0
  {
  }

  lemma MinusPVal(h: Limbs, g0: int, g1: int, g2: int, g3: int, top: int)
    requires Reduced26(h)
    requires g0 == h.l0 + 5 && g1 == h.l1 + g0 / M26 && g2 == h.l2 + g1 / M26 && g3 == h.l3 + g2 / M26
    requires top == h.l4 + g3 / M26 - M26
    ensures 0 - M26 <= top <= 0
    ensures top < 0 <==> Val(h) < P
    ensures top == 0 ==> Val(Limbs(g0 % M26, g1 % M26, g2 % M26, g3 % M26, 0)) == Val(h) - P
  {
    Straddle(g0, M26);
    Straddle(g1, M26);
    Straddle(g2, M26);
    Straddle(g3, M26);
    var l := Limbs(g0 % M26, g1 % M26, g2 % M26, g3 % M26, 0);
    PlusFive(h, l, g0 / M26, g1 / M26, g2 / M26, g3 / M26, top);
    hide Val;
  }

  lemma PlusFive(h: Limbs, l: Limbs, q0: int, q1: int, q2: int, q3: int, top: int)
    requires Reduced26(h) && Reduced26(l) && l.l4 == 0
    requires h.l0 + 5 == M26 * q0 + l.l0 && h.l1 + q0 == M26 * q1 + l.l1 && h.l2 + q1 == M26 * q2 + l.l2
    requires h.l3 + q2 == M26 * q3 + l.l3 && top == h.l4 + q3 - M26
    ensures 0 - M26 <= top <= 0
    ensures top < 0 <==> Val(h) < P
    ensures top == 0 ==> Val(l) == Val(h) - P
  {
    PlusFiveSum(h, l, q0, q1, q2, q3, top);
    LowBound(l);
    LowBound(h.(l4 := 0));
    assert Val(h) == Val(h.(l4 := 0)) + M26 * M26 * M26 * M26 * h.l4;
    hide Val;
  }

  lemma PlusFiveSum(h: Limbs, l: Limbs, q0: int, q1: int, q2: int, q3: int, top: int)
    requires l.l4 == 0
    requires h.l0 + 5 == M26 * q0 + l.l0 && h.l1 + q0 == M26 * q1 + l.l1 && h.l2 + q1 == M26 * q2 + l.l2
    requires h.l3 + q2 == M26 * q3 + l.l3 && top == h.l4 + q3 - M26
    ensures Val(h) + 5 == Val(l) + M26 * M26 * M26 * M26 * (top + M26)
  {
  }

  lemma LowBound(l: Limbs)
    requires Reduced26(l) && l.l4 == 0
    ensures 0 <= Val(l) < M26 * M26 * M26 * M26
  {
  }

  function FullReduce(h: Limbs): Limbs {
    var g := MinusP(h);
    var mask := U32(g.l4 / 0x8000_0000 - 1);
    Limbs(Select(mask, h.l0, g.l0), Select(mask, h.l1, g.l1), Select(mask, h.l2, g.l2),
          Select(mask, h.l3, g.l3), Select(mask, h.l4, g.l4))
  }

  /** The masked select picks the representative in [0, 2^130 - 5). */
  lemma FullReduceIs(h: Limbs)
    requires Reduced26(h)
    ensures Reduced26(FullReduce(h)) && Val(FullReduce(h)) == Val(h) % P
  {
    hide Select, MinusP, Val;
    var g := MinusP(h);
    MinusPIs(h);
    SelectEither(h.l0, g.l0);
    SelectEither(h.l1, g.l1);
    SelectEither(h.l2, g.l2);
    SelectEither(h.l3, g.l3);
    SelectEither(h.l4, g.l4);
    ReducedBound(h);
    if Val(h) < P {
      assert g.l4 / 0x8000_0000 == 1;
      assert FullReduce(h) == h;
      ModIs(Val(h), P, 0, Val(h));
    } else {
      assert U32(0 - 1) == M32 - 1;
      assert FullReduce(h) == g;
      ModIs(Val(h), P, 1, Val(h) - P);
    }
  }

  lemma ReducedBound(h: Limbs)
    requires Reduced26(h)
    ensures Val(h) < 2 * P
  {
  }

  // ---- packing and the final add -----------------------------------------------------------

  datatype Words4 = Words4(w0: nat, w1: nat, w2: nat, w3: nat)

  function WordsVal(w: Words4): nat {
    w.w0 + M32 * w.w1 + M32 * M32 * w.w2 + M32 * M32 * M32 * w.w3
  }

  predicate Are32(w: Words4) {
    w.w0 < M32 && w.w1 < M32 && w.w2 < M32 && w.w3 < M32
  }

  /** Five 26-bit limbs into four 32-bit words. */
  function Pack(h: Limbs): Words4 {
    Words4(Or(h.l0, U32(h.l1 * M26)),
           Or(h.l1 / 64, U32(h.l2 * 0x10_0000)),
           Or(h.l2 / 0x1000, U32(h.l3 * 0x4000)),
           Or(h.l3 / 0x4_0000, U32(h.l4 * 0x100)))
  }

  /** x << k in 32 bits drops the high bits of x. */
  lemma ShiftedOut(x: nat, p: nat, q: nat)
    requires p * q == M32 && p > 0 && q > 0
    ensures U32(x * p) == (x % q) * p
  {
    var d, m := x / q, x % q;
    assert x == q * d + m;
    assert x * p == M32 * d + m * p by {
      assert (q * d) * p == (p * q) * d;
    }
    assert m * p < M32 by { assert m * p <= (q - 1) * p; }
    ModIs(x * p, M32, d, m * p);
  }

  lemma PackWord(low: nat, x: nat, k: nat, p: nat, q: nat)
    requires p == Pow2(k) && p * q == M32 && q > 0 && low < p
    ensures Or(low, U32(x * p)) == low + (x % q) * p
  {
    hide Or, U32;
    ShiftedOut(x, p, q);
    OrSum(low, x % q, k);
  }

  /** The words hold the low 128 bits. */
  lemma PackVal(h: Limbs)
    requires Reduced26(h)
    ensures Are32(Pack(h)) && WordsVal(Pack(h)) == Val(h) % TWO128
  {
    hide Or, U32, Val, WordsVal;
    Pow2Values();
    PackWord(h.l0, h.l1, 26, M26, 64);
    PackWord(h.l1 / 64, h.l2, 20, 0x10_0000, 0x1000);
    PackWord(h.l2 / 0x1000, h.l3, 14, 0x4000, 0x4_0000);
    PackWord(h.l3 / 0x4_0000, h.l4, 8, 0x100, 0x100_0000);
    PackSum(h, Pack(h));
  }

  lemma PackSum(h: Limbs, w: Words4)
    requires Reduced26(h)
    requires w == Words4(h.l0 + (h.l1 % 64) * M26, h.l1 / 64 + (h.l2 % 0x1000) * 0x10_0000,
                         h.l2 / 0x1000 + (h.l3 % 0x4_0000) * 0x4000, h.l3 / 0x4_0000 + (h.l4 % 0x100_0000) * 0x100)
    ensures Are32(w) && WordsVal(w) == Val(h) % TWO128
  {
    Straddle(h.l1, 64);
    Straddle(h.l2, 0x1000);
    Straddle(h.l3, 0x4_0000);
    Straddle(h.l4, 0x100_0000);
    PackCross(h, w, h.l1 / 64, h.l1 % 64, h.l2 / 0x1000, h.l2 % 0x1000, h.l3 / 0x4_0000, h.l3 % 0x4_0000,
              h.l4 / 0x100_0000, h.l4 % 0x100_0000);
    hide Val, WordsVal;
    ModIs(Val(h), TWO128, h.l4 / 0x100_0000, WordsVal(w));
  }

  lemma PackCross(h: Limbs, w: Words4, q1: nat, r1: nat, q2: nat, r2: nat, q3: nat, r3: nat, q4: nat, r4: nat)
    requires h.l1 == 64 * q1 + r1 && h.l2 == 0x1000 * q2 + r2 && h.l3 == 0x4_0000 * q3 + r3 && h.l4 == 0x100_0000 * q4 + r4
    requires w == Words4(h.l0 + r1 * M26, q1 + r2 * 0x10_0000, q2 + r3 * 0x4000, q3 + r4 * 0x100)
    requires Are32(w)
    ensures Val(h) == TWO128 * q4 + WordsVal(w) && WordsVal(w) < TWO128
  {
  }

  /** Word by word with a 64-bit carry. */
  function AddPad(f: Words4, s: Words4): Words4 {
    var t := U64(f.w0 + s.w0);
    var f0 := U32(t);
    var t := U64(f.w1 + s.w1 + t / M32);
    var f1 := U32(t);
    var t := U64(f.w2 + s.w2 + t / M32);
    var f2 := U32(t);
    var t := U64(f.w3 + s.w3 + t / M32);
    var f3 := U32(t);
    Words4(f0, f1, f2, f3)
  }

  /** Nothing is lost in 64 bits: the carries. */
  lemma AddPadIs(f: Words4, s: Words4) returns (q0: int, q1: int, q2: int, q3: int)
    requires Are32(f) && Are32(s)
    ensures Are32(AddPad(f, s))
    ensures f.w0 + s.w0 == M32 * q0 + AddPad(f, s).w0 && f.w1 + s.w1 + q0 == M32 * q1 + AddPad(f, s).w1
    ensures f.w2 + s.w2 + q1 == M32 * q2 + AddPad(f, s).w2 && f.w3 + s.w3 + q2 == M32 * q3 + AddPad(f, s).w3
  {
    q0 := (f.w0 + s.w0) / M32;
    q1 := (f.w1 + s.w1 + q0) / M32;
    q2 := (f.w2 + s.w2 + q1) / M32;
    q3 := (f.w3 + s.w3 + q2) / M32;
    hide U64;
    Fits64(f.w0 + s.w0);
    Fits64(f.w1 + s.w1 + q0);
    Fits64(f.w2 + s.w2 + q1);
    Fits64(f.w3 + s.w3 + q2);
  }

  lemma AddPadVal(f: Words4, s: Words4)
    requires Are32(f) && Are32(s)
    ensures Are32(AddPad(f, s)) && WordsVal(AddPad(f, s)) == (WordsVal(f) + WordsVal(s)) % TWO128
  {
    hide WordsVal, AddPad;
    var q0, q1, q2, q3 := AddPadIs(f, s);
    WordsSum(f, s, AddPad(f, s), q0, q1, q2, q3);
    ModIs(WordsVal(f) + WordsVal(s), TWO128, q3, WordsVal(AddPad(f, s)));
  }

  lemma WordsSum(f: Words4, s: Words4, w: Words4, q0: int, q1: int, q2: int, q3: int)
    requires Are32(w)
    requires f.w0 + s.w0 == M32 * q0 + w.w0 && f.w1 + s.w1 + q0 == M32 * q1 + w.w1
    requires f.w2 + s.w2 + q1 == M32 * q2 + w.w2 && f.w3 + s.w3 + q2 == M32 * q3 + w.w3
    ensures WordsVal(f) + WordsVal(s) == TWO128 * q3 + WordsVal(w)
    ensures WordsVal(w) < TWO128
  {
  }

  /** LE_STORE32 */
  function Store32(v: nat): (s: seq<Byte>)
    requires v < M32
    ensures |s| == 4
  {
    [v % 256, v / 0x100 % 256, v / 0x1_0000 % 256, v / 0x100_0000 % 256]
  }

  lemma {:induction false} Store32Num(v: nat)
    requires v < M32
    ensures LeNum(Store32(v)) == v
  {
    hide LeNum;
    LeNum4(Store32(v));
    var q1, q2, q3 := v / 0x100, v / 0x100 / 0x100, v / 0x100 / 0x100 / 0x100;
    Straddle(v, 0x100);
    Straddle(q1, 0x100);
    Straddle(q2, 0x100);
    ModIs(v, 0x1_0000, q2, 0x100 * (q1 % 0x100) + v % 0x100);
    ModIs(v, 0x100_0000, q3, 0x1_0000 * (q2 % 0x100) + 0x100 * (q1 % 0x100) + v % 0x100);
  }

  function Stored(w: Words4): (s: seq<Byte>)
    requires Are32(w)
    ensures |s| == 16
  {
    Store32(w.w0) + Store32(w.w1) + Store32(w.w2) + Store32(w.w3)
  }

  lemma {:induction false} StoredNum(w: Words4)
    requires Are32(w)
    ensures LeNum(Stored(w)) == WordsVal(w)
  {
    hide LeNum, Store32;
    var s := Stored(w);
    assert s[..4] == Store32(w.w0) && s[4..8] == Store32(w.w1) && s[8..12] == Store32(w.w2) && s[12..] == Store32(w.w3);
    LeNum16(s);
    Store32Num(w.w0);
    Store32Num(w.w1);
    Store32Num(w.w2);
    Store32Num(w.w3);
  }

  lemma {:induction false} SixteenBytes(s: seq<Byte>)
    requires |s| == 16
    ensures s == LeBytes(LeNum(s), 16)
  {
    LeNumBound(s);
    LeBytesRoundTrip(LeNum(s), 16);
    LeNumInjective(s, LeBytes(LeNum(s), 16));
  }

  /** From the accumulator to the tag: (h mod 2^130 - 5) + s, modulo 2^128, little-endian. */
  method TagOf(h: Limbs, pad: Words4) returns (tag: seq<Byte>)
    requires Between(h) && Are32(pad)
    ensures tag == LeBytes((Val(h) % P + WordsVal(pad)) % TWO128, 16)
  {
    hide CarryPass, FullReduce, Pack, AddPad, Val, WordsVal, Stored, LeNum, LeBytes;
    CarryPassReduces(h);
    var h1 := CarryPass(h);
    FullReduceIs(h1);
    var h2 := FullReduce(h1);
    PackVal(h2);
    var f := Pack(h2);
    AddPadVal(f, pad);
    var g := AddPad(f, pad);
    tag := Stored(g);
    StoredNum(g);
    SixteenBytes(tag);
    ModAdd(Val(h2), WordsVal(pad));
  }

  lemma ModAdd(x: int, y: int)
    ensures (x % TWO128 + y) % TWO128 == (x + y) % TWO128
  {
    var z := x % TWO128 + y;
    assert x + y == TWO128 * (x / TWO128 + z / TWO128) + z % TWO128;
    ModIs(x + y, TWO128, x / TWO128 + z / TWO128, z % TWO128);
  }
}
