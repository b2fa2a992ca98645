/** poly1305_init, _blocks, _update, _finish and _pad16: the streaming context. */
module PolyStream {
  import opened Words
  import opened LittleEndian
  import opened PolySpec
  import opened PolyLimbs
  import opened PolyFinish
  import opened PolyKey

  // ---- what the block loop computes ------------------------------------------------------

  const HIBIT: nat := 0x100_0000

  /** The limbs after every full block of m; a tail shorter than a block is not read. */
  function Rounds(h: Limbs, r: Limbs, m: seq<Byte>, hibit: nat): Limbs
    decreases |m|
  {
    if |m| < 16 then h else Rounds(Round(h, r, m[..16], hibit), r, m[16..], hibit)
  }

  lemma {:induction false} RoundsConcat(h: Limbs, r: Limbs, a: seq<Byte>, b: seq<Byte>)
    requires |a| % 16 == 0
    ensures Rounds(h, r, a + b, HIBIT) == Rounds(Rounds(h, r, a, HIBIT), r, b, HIBIT)
    decreases |a|
  {
    hide Round;
    if |a| < 16 {
      assert a + b == b;
    } else {
      assert (a + b)[..16] == a[..16] && (a + b)[16..] == a[16..] + b;
      RoundsConcat(Round(h, r, a[..16], HIBIT), r, a[16..], b);
    }
  }

  /** A full block with the byte 1 behind it. */
  lemma {:induction false} FullBlock(m: seq<Byte>)
    requires |m| == 16
    ensures BlockNum(m) == LeNum(m) + TWO128
  {
    assert LeNum([1]) == 1;
    hide LeNum, Pow2;
    LeNumConcat(m, [1]);
    Pow2At128();
  }

  lemma Pow2At128()
    ensures Pow2(128) == TWO128
  {
    Pow2Values();
    Pow2Add8(32);
    Pow2Add8(40);
    Pow2Add8(48);
    Pow2Add8(56);
    Pow2Add8(64);
    Pow2Add8(72);
    Pow2Add8(80);
    Pow2Add8(88);
    Pow2Add8(96);
    Pow2Add8(104);
    Pow2Add8(112);
    Pow2Add8(120);
  }

  /** For any number of blocks the limbs stand for the accumulator of the standard, and
      only the second limb may exceed 26 bits. */
  lemma {:induction false} RoundsAbsorb(h: Limbs, r: Limbs, acc: nat, m: seq<Byte>)
    requires Between(h) && Clamped(r) && |m| % 16 == 0 && Val(h) % P == acc % P
    ensures Between(Rounds(h, r, m, HIBIT))
    ensures Val(Rounds(h, r, m, HIBIT)) % P == Absorb(acc, Val(r), m) % P
    decreases |m|
  {
    hide Round, Val, BlockNum, Absorb;
    if |m| < 16 {
      AbsorbNone(acc, Val(r), m);
    } else {
      BlockStep(h, r, acc, m[..16]);
      AbsorbFirst(acc, Val(r), m);
      RoundsAbsorb(Round(h, r, m[..16], HIBIT), r, (acc + BlockNum(m[..16])) * Val(r) % P, m[16..]);
    }
  }

  lemma {:induction false} BlockStep(h: Limbs, r: Limbs, acc: nat, m: seq<Byte>)
    requires Between(h) && Clamped(r) && |m| == 16 && Val(h) % P == acc % P
    ensures Between(Round(h, r, m, HIBIT))
    ensures Val(Round(h, r, m, HIBIT)) % P == ((acc + BlockNum(m)) * Val(r) % P) % P
  {
    hide Round, Val, LeNum, BlockNum;
    RoundVal(h, r, m, HIBIT);
    FullBlock(m);
    ModStep(P, Val(h), acc, BlockNum(m), Val(r));
    ModTwice((acc + BlockNum(m)) * Val(r));
  }

  lemma ModTwice(x: int)
    ensures x % P % P == x % P
  {
    ModIs(x % P, P, 0, x % P);
  }

  lemma {:induction false} AbsorbNone(acc: nat, r: nat, m: seq<Byte>)
    requires |m| < 16 && |m| % 16 == 0
    ensures Absorb(acc, r, m) == acc
  {
  }

  lemma {:induction false} AbsorbFirst(acc: nat, r: nat, m: seq<Byte>)
    requires |m| >= 16
    ensures Absorb(acc, r, m) == Absorb((acc + BlockNum(m[..16])) * r % P, r, m[16..])
  {
    hide BlockNum;
    if |m| == 16 {
      assert m[..16] == m && m[16..] == [];
    }
  }

  lemma {:induction false} AbsorbConcat(acc: nat, r: nat, a: seq<Byte>, b: seq<Byte>)
    requires |a| % 16 == 0
    ensures Absorb(acc, r, a + b) == Absorb(Absorb(acc, r, a), r, b)
    decreases |a|
  {
    hide BlockNum, Absorb;
    if |a| < 16 {
      assert a + b == b;
      AbsorbNone(acc, r, a);
    } else {
      assert (a + b)[..16] == a[..16] && (a + b)[16..] == a[16..] + b;
      AbsorbFirst(acc, r, a);
      AbsorbFirst(acc, r, a + b);
      AbsorbConcat((acc + BlockNum(a[..16])) * r % P, r, a[16..], b);
    }
  }

  /** The last block: a byte 1 and zeros behind the message, and no high bit. */
  function Ended(tail: seq<Byte>): (block: seq<Byte>)
    requires |tail| < 16
    ensures |block| == 16
  {
    tail + [1] + seq(15 - |tail|, _ => 0)
  }

  lemma {:induction false} ZerosNum(n: nat)
    ensures LeNum(seq(n, _ => 0)) == 0
    decreases n
  {
    if n == 0 {
    } else {
      var z: seq<Byte> := seq(n, _ => 0);
      assert z[1..] == seq(n - 1, _ => 0);
      ZerosNum(n - 1);
    }
  }

  lemma {:induction false} EndedNum(tail: seq<Byte>)
    requires |tail| < 16
    ensures LeNum(Ended(tail)) == BlockNum(tail)
  {
    LeNumConcat(tail + [1], seq(15 - |tail|, _ => 0));
    ZerosNum(15 - |tail|);
  }

  // ---- the context -----------------------------------------------------------------------

  function Zero(): Limbs { Limbs(0, 0, 0, 0, 0) }

  function PadWords(k: seq<Byte>): (w: Words4)
    requires |k| == 16
    ensures Are32(w)
  {
    Words4(Load32(k, 0), Load32(k, 4), Load32(k, 8), Load32(k, 12))
  }

  lemma {:induction false} PadWordsNum(k: seq<Byte>)
    requires |k| == 16
    ensures WordsVal(PadWords(k)) == LeNum(k)
  {
    hide LeNum;
    LeNumAt(k);
  }

  /** h and the buffered bytes are those of one-shot absorption of msg. */
  ghost predicate Absorbed(r: Limbs, h: Limbs, buffered: seq<Byte>, msg: seq<Byte>) {
    && |buffered| < 16
    && |buffered| <= |msg|
    && (|msg| - |buffered|) % 16 == 0
    && buffered == msg[|msg| - |buffered|..]
    && h == Rounds(Zero(), r, msg[..|msg| - |buffered|], HIBIT)
  }

  /** Bytes that do not fill the buffer only extend it. */
  lemma {:induction false} Buffering(r: Limbs, h: Limbs, buffered: seq<Byte>, msg: seq<Byte>, m: seq<Byte>)
    requires Absorbed(r, h, buffered, msg) && |buffered| + |m| < 16
    ensures Absorbed(r, h, buffered + m, msg + m)
  {
    hide Rounds;
    var k := |msg| - |buffered|;
    assert (msg + m)[..k] == msg[..k] && (msg + m)[k..] == msg[k..] + m;
  }

  /** Bytes that end on a block boundary go through the block loop with what was buffered. */
  lemma {:induction false} Filling(r: Limbs, h: Limbs, buffered: seq<Byte>, msg: seq<Byte>, m: seq<Byte>)
    requires Absorbed(r, h, buffered, msg) && (|buffered| + |m|) % 16 == 0
    ensures Absorbed(r, Rounds(h, r, buffered + m, HIBIT), [], msg + m)
  {
    hide Rounds;
    var k := |msg| - |buffered|;
    assert msg + m == msg[..k] + (buffered + m);
    RoundsConcat(Zero(), r, msg[..k], buffered + m);
    assert (msg + m)[..|msg + m|] == msg + m;
  }

  lemma {:induction false} Buffered(x: nat, y: nat, n: nat)
    requires x < 16 && y < 16 && x <= n && y <= n && (n - x) % 16 == 0 && (n - y) % 16 == 0
    ensures x == y
  {
  }

  /** The context is a function of the key and the message. */
  lemma {:induction false} AbsorbedUnique(r: Limbs, h: Limbs, h': Limbs, buffered: seq<Byte>, buffered': seq<Byte>, msg: seq<Byte>)
    requires Absorbed(r, h, buffered, msg) && Absorbed(r, h', buffered', msg)
    ensures h == h' && buffered == buffered'
  {
    hide Rounds;
    Buffered(|buffered|, |buffered'|, |msg|);
  }

  lemma {:induction false} AbsorbBelow(acc: nat, r: nat, m: seq<Byte>)
    requires acc < P
    ensures Absorb(acc, r, m) < P
    decreases |m|
  {
    hide BlockNum;
    if |m| > 16 {
      AbsorbBelow((acc + BlockNum(m[..16])) * r % P, r, m[16..]);
    }
  }

  lemma {:induction false} LastBlock(h: Limbs, r: Limbs, acc: nat, tail: seq<Byte>)
    requires Between(h) && Clamped(r) && 0 < |tail| < 16 && Val(h) % P == acc % P
    ensures Between(Round(h, r, Ended(tail), 0))
    ensures Val(Round(h, r, Ended(tail), 0)) % P == Absorb(acc, Val(r), tail)
  {
    hide Round, Val, LeNum, BlockNum, Ended;
    RoundVal(h, r, Ended(tail), 0);
    EndedNum(tail);
    ModStep(P, Val(h), acc, BlockNum(tail), Val(r));
  }

  /** The accumulator once the last block, if there is one, has been absorbed. */
  function Last(r: Limbs, h: Limbs, buffered: seq<Byte>): Limbs
    requires |buffered| < 16
  {
    if buffered == [] then h else Round(h, r, Ended(buffered), 0)
  }

  lemma {:induction false} Finishing(r: Limbs, h: Limbs, buffered: seq<Byte>, msg: seq<Byte>)
    requires Clamped(r) && Absorbed(r, h, buffered, msg)
    ensures Between(Last(r, h, buffered))
    ensures Val(Last(r, h, buffered)) % P == Absorb(0, Val(r), msg)
  {
    assert Val(Zero()) == 0;
    hide Rounds, Round, Val, Ended, BlockNum, Absorb;
    var k := |msg| - |buffered|;
    var acc := Absorb(0, Val(r), msg[..k]);
    RoundsAbsorb(Zero(), r, 0, msg[..k]);
    assert msg == msg[..k] + buffered;
    AbsorbConcat(0, Val(r), msg[..k], buffered);
    AbsorbBelow(0, Val(r), msg[..k]);
    if buffered == [] {
      AbsorbNone(acc, Val(r), buffered);
      ModIs(acc, P, 0, acc);
    } else {
      LastBlock(h, r, acc, buffered);
    }
  }

  class Context {
    var r: Limbs
    var h: Limbs
    var pad: Words4
    var leftover: nat
    const buffer: array<Byte>
    /** What the context stands for: the key, and the concatenation of all updates. */
    ghost const key: seq<Byte>
    ghost var msg: seq<Byte>

    ghost predicate Keyed()
      reads this
    {
      |key| == 32 && r == KeyLimbs(key[..16]) && pad == PadWords(key[16..])
    }

    ghost predicate Valid()
      reads this, buffer
    {
      && Keyed()
      && buffer.Length == 16
      && leftover < 16
      && Absorbed(r, h, buffer[..leftover], msg)
    }

    constructor (k: seq<Byte>)
      requires |k| == 32
      ensures Valid() && key == k && msg == [] && fresh(buffer)
    {
      r := KeyLimbs(k[..16]);
      h := Zero();
      pad := PadWords(k[16..]);
      leftover := 0;
      buffer := new Byte[16];
      key, msg := k, [];
    }

    method Blocks(m: seq<Byte>, finalBlock: bool)
      modifies this`h
      ensures h == Rounds(old(h), r, m, if finalBlock then 0 else HIBIT)
    {
      hide Round;
      var hibit := if finalBlock then 0 else HIBIT;
      var i := 0;
      while |m| - i >= 16
        invariant i <= |m|
        invariant Rounds(h, r, m[i..], hibit) == Rounds(old(h), r, m, hibit)
      {
        assert m[i..][..16] == m[i..i + 16] && m[i..][16..] == m[i + 16..];
        h := Round(h, r, m[i..i + 16], hibit);
        i := i + 16;
      }
    }

    /** memcpy behind the buffered bytes. */
    method Append(m: seq<Byte>)
      requires buffer.Length == 16 && leftover + |m| <= 16
      modifies this`leftover, buffer
      ensures leftover == old(leftover) + |m|
      ensures buffer[..leftover] == old(buffer[..leftover]) + m
    {
      for i := 0 to |m|
        modifies buffer
        invariant buffer[..leftover + i] == old(buffer[..leftover]) + m[..i]
      {
        buffer[leftover + i] := m[i];
      }
      leftover := leftover + |m|;
      assert m[..|m|] == m;
    }

    /** Top up a buffer that holds something; `rest` is what the block did not need. */
    method Drain(m: seq<Byte>) returns (rest: seq<Byte>)
      requires Valid() && leftover > 0
      modifies this`h, this`leftover, this`msg, buffer
      ensures Valid() && msg + rest == old(msg) + m
      ensures rest == [] || leftover == 0
    {
      hide Rounds, Absorbed, KeyLimbs, PadWords;
      ghost var buffered, was := buffer[..leftover], msg;
      var want := if 16 - leftover > |m| then |m| else 16 - leftover;
      Append(m[..want]);
      msg := msg + m[..want];
      rest := m[want..];
      assert msg + rest == was + m by { assert m == m[..want] + m[want..]; }
      if leftover < 16 {
        Buffering(r, h, buffered, was, m[..want]);
      } else {
        Filling(r, h, buffered, was, m[..want]);
        assert buffer[..] == buffer[..leftover];
        Blocks(buffer[..], false);
        leftover := 0;
        assert buffer[..leftover] == [];
      }
    }

    /** poly1305_update: the context becomes that of the longer message. */
    method Update(m: seq<Byte>)
      requires Valid()
      modifies this`h, this`leftover, this`msg, buffer
      ensures Valid() && msg == old(msg) + m
    {
      hide Rounds, Absorbed, KeyLimbs, PadWords;
      var rest := m;
      if leftover > 0 {
        rest := Drain(m);
        if rest == [] { return; }
      }
      if |rest| >= 16 {
        rest := Bulk(rest);
      }
      if rest != [] {
        ghost var was := msg;
        assert buffer[..leftover] == [];
        Buffering(r, h, [], was, rest);
        assert [] + rest == rest;
        Append(rest);
        msg := msg + rest;
      }
    }

    /** Whole blocks straight from the input. */
    method Bulk(m: seq<Byte>) returns (rest: seq<Byte>)
      requires Valid() && leftover == 0
      modifies this`h, this`msg
      ensures Valid() && msg + rest == old(msg) + m && |rest| < 16
    {
      hide Rounds, Absorbed, KeyLimbs, PadWords;
      var whole := |m| - |m| % 16;
      assert buffer[..leftover] == [];
      Filling(r, h, [], msg, m[..whole]);
      assert [] + m[..whole] == m[..whole];
      Blocks(m[..whole], false);
      msg := msg + m[..whole];
      rest := m[whole..];
      assert m == m[..whole] + m[whole..];
    }

    /** poly1305_finish: the tag of section 2.5 of RFC 8439 over everything absorbed. */
    method Finish() returns (tag: seq<Byte>)
      requires Valid()
      modifies this`h, buffer
      ensures tag == Tag(key, msg)
    {
      hide Rounds, Round, Absorbed, KeyLimbs, PadWords, Val, WordsVal, LeNum, Absorb, LeBytes, Clamp, Ended;
      ghost var buffered := buffer[..leftover];
      KeyLimbsClamp(key[..16]);
      PadWordsNum(key[16..]);
      Finishing(r, h, buffered, msg);
      assert leftover == |buffered|;
      if leftover > 0 {
        End();
        Blocks(buffer[..], true);
        OneRound(old(h), r, Ended(buffered), 0);
      }
      tag := TagOf(h, pad);
    }

    method End()
      requires buffer.Length == 16 && 0 < leftover < 16
      modifies buffer
      ensures buffer[..] == Ended(old(buffer[..leftover]))
    {
      var i := leftover;
      buffer[i] := 1;
      i := i + 1;
      while i < 16
        invariant leftover < i <= 16
        invariant buffer[..i] == old(buffer[..leftover]) + [1] + seq(i - leftover - 1, _ => 0)
      {
        buffer[i] := 0;
        i := i + 1;
      }
      assert buffer[..] == buffer[..16];
    }

    /** poly1305_pad16 */
    method Pad16(already: nat)
      requires Valid()
      modifies this`h, this`leftover, this`msg, buffer
      ensures Valid() && msg == old(msg) + Padding(already)
    {
      var pad := (16 - already % 16) % 16;
      if pad > 0 {
        Update(seq(pad, _ => 0));
      }
    }
  }

  lemma {:induction false} OneRound(h: Limbs, r: Limbs, m: seq<Byte>, hibit: nat)
    requires |m| == 16
    ensures Rounds(h, r, m, hibit) == Round(h, r, m, hibit)
  {
    hide Round;
    assert m[..16] == m;
  }

  /** Zeros up to the next multiple of 16. */
  function Padding(n: nat): (z: seq<Byte>)
    ensures (n + |z|) % 16 == 0 && |z| < 16
    ensures forall i :: 0 <= i < |z| ==> z[i] == 0
  {
    seq((16 - n % 16) % 16, _ => 0)
  }

  /** Chunking does not matter: two contexts with the same key whose updates add up to the
      same bytes agree on everything later calls read. */
  lemma SameContext(a: Context, b: Context)
    requires a.Valid() && b.Valid() && a.key == b.key && a.msg == b.msg
    ensures a.r == b.r && a.h == b.h && a.pad == b.pad && a.leftover == b.leftover
    ensures a.buffer[..a.leftover] == b.buffer[..b.leftover]
  {
    hide Absorbed, KeyLimbs, PadWords;
    AbsorbedUnique(a.r, a.h, b.h, a.buffer[..a.leftover], b.buffer[..b.leftover], a.msg);
  }
}
