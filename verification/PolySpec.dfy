/** Poly1305 as in section 2.5 of RFC 8439: arithmetic on integers modulo 2^130 - 5. */
module PolySpec {
  import opened Words
  import opened LittleEndian

  const P: nat := 0x3_ffff_ffff_ffff_ffff_ffff_ffff_ffff_fffb
  const TWO128: nat := 0x1_0000_0000_0000_0000_0000_0000_0000_0000

  /** A block is its bytes followed by a byte 1. */
  function BlockNum(block: seq<Byte>): nat {
    LeNum(block + [1])
  }

  /** Absorb a message from accumulator `acc`: blocks of 16 bytes, the last one may be
      shorter. */
  function Absorb(acc: nat, r: nat, msg: seq<Byte>): nat
    decreases |msg|
  {
    if msg == [] then acc
    else if |msg| <= 16 then (acc + BlockNum(msg)) * r % P
    else Absorb((acc + BlockNum(msg[..16])) * r % P, r, msg[16..])
  }

  /** Clear the top four bits of bytes 3, 7, 11, 15 and the low two of 4, 8, 12. */
  function Clamp(k: seq<Byte>): (c: seq<Byte>)
    requires |k| == 16
    ensures |c| == 16
  {
    seq(16, i requires 0 <= i < 16 =>
      if i % 4 == 3 then k[i] % 16 else if i % 4 == 0 && i > 0 then k[i] / 4 * 4 else k[i])
  }

  function Tag(key: seq<Byte>, msg: seq<Byte>): (t: seq<Byte>)
    requires |key| == 32
    ensures |t| == 16
  {
    var r, s := LeNum(Clamp(key[..16])), LeNum(key[16..]);
    LeBytes((Absorb(0, r, msg) + s) % TWO128, 16)
  }

  // ---- arithmetic modulo p ---------------------------------------------------------------

  lemma {:induction false} ModShift(p: nat, x: int, q: int)
    requires p > 0
    ensures (x + p * q) % p == x % p
  {
    var d := x / p;
    assert x == p * d + x % p;
    assert p * (d + q) == p * d + p * q;
    ModIs(x + p * q, p, d + q, x % p);
  }

  lemma {:induction false} ModMul(p: nat, x: int, y: int, r: int)
    requires p > 0 && x % p == y % p
    ensures (x * r) % p == (y * r) % p
  {
    var c, d := x / p, y / p;
    assert x == p * c + x % p && y == p * d + y % p;
    MulShift(p, x, y, c - d, r);
    ModShift(p, y * r, (c - d) * r);
  }

  lemma {:induction false} MulShift(p: nat, x: int, y: int, k: int, r: int)
    requires x == y + p * k
    ensures x * r == y * r + p * (k * r)
  {
    assert x * r == y * r + (p * k) * r;
    assert (p * k) * r == p * (k * r);
  }

  lemma {:induction false} ModStep(p: nat, x: int, acc: int, n: int, r: int)
    requires p > 0 && x % p == acc % p
    ensures ((x + n) * r) % p == ((acc + n) * r) % p
  {
    var c, d := x / p, acc / p;
    assert x == p * c + x % p && acc == p * d + acc % p;
    assert p * (c - d) == p * c - p * d;
    ModShift(p, acc + n, c - d);
    ModMul(p, x + n, acc + n, r);
  }
}
