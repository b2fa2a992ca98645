/** Numbers as bytes, least significant first. */
module LittleEndian {
  import opened Words

  /** The number that bytes stand for, least significant first. */
  function LeNum(s: seq<Byte>): (n: nat) {
    if s == [] then 0 else s[0] + 256 * LeNum(s[1..])
  }

  function LeBytes(n: nat, len: nat): (s: seq<Byte>)
    ensures |s| == len
  {
    if len == 0 then [] else [n % 256] + LeBytes(n / 256, len - 1)
  }

  lemma {:induction false} LeNumConcat(a: seq<Byte>, b: seq<Byte>)
    ensures LeNum(a + b) == LeNum(a) + Pow2(8 * |a|) * LeNum(b)
    decreases |a|
  {
    if a == [] {
      assert a + b == b;
    } else {
      assert (a + b)[1..] == a[1..] + b;
      LeNumConcat(a[1..], b);
      Pow2Add8(8 * |a[1..]|);
      Regroup(Pow2(8 * |a[1..]|), LeNum(b));
      assert 8 * |a| == 8 * |a[1..]| + 8;
      assert LeNum(a + b) == (a + b)[0] + 256 * LeNum(a[1..] + b);
    }
  }

  lemma Regroup(p: nat, n: nat)
    ensures 256 * (p * n) == (256 * p) * n
  {
  }

  lemma Pow2Add8(k: nat)
    ensures Pow2(k + 8) == 256 * Pow2(k)
  {
    assert Pow2(k + 2) == 2 * Pow2(k + 1) == 4 * Pow2(k);
    assert Pow2(k + 4) == 2 * Pow2(k + 3) == 4 * Pow2(k + 2);
    assert Pow2(k + 6) == 2 * Pow2(k + 5) == 4 * Pow2(k + 4);
    assert Pow2(k + 8) == 2 * Pow2(k + 7) == 4 * Pow2(k + 6);
  }

  lemma {:induction false} LeNumBound(s: seq<Byte>)
    ensures LeNum(s) < Pow2(8 * |s|)
    decreases |s|
  {
    if s == [] {
    } else {
      LeNumBound(s[1..]);
      Pow2Add8(8 * |s[1..]|);
    }
  }

  lemma {:induction false} LeBytesRoundTrip(n: nat, len: nat)
    requires n < Pow2(8 * len)
    ensures LeNum(LeBytes(n, len)) == n
    decreases len
  {
    if len == 0 {
    } else {
      Pow2Add8(8 * (len - 1));
      LeBytesRoundTrip(n / 256, len - 1);
      assert LeBytes(n, len)[1..] == LeBytes(n / 256, len - 1);
    }
  }

  /** Bytes determine the number and back. */
  lemma {:induction false} LeNumInjective(a: seq<Byte>, b: seq<Byte>)
    requires |a| == |b| && LeNum(a) == LeNum(b)
    ensures a == b
    decreases |a|
  {
    if a == [] {
    } else {
      LeNumInjective(a[1..], b[1..]);
      assert a == [a[0]] + a[1..] && b == [b[0]] + b[1..];
    }
  }
}
