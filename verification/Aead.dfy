/** The AEAD construction of section 2.8 of RFC 8439. */
module Aead {
  import opened Wrappers
  import opened Words
  import opened LittleEndian
  import opened PolySpec
  import opened PolyLimbs
  import opened PolyFinish
  import opened PolyStream
  import opened ChaCha20
  import Memory

  // ---- bytes as numbers --------------------------------------------------------------------

  function Nums(s: seq<Octet>): (r: seq<Byte>)
    ensures |r| == |s|
  {
    seq(|s|, i requires 0 <= i < |s| => s[i] as Byte)
  }

  function Octets(s: seq<Byte>): (r: seq<Octet>)
    ensures |r| == |s|
  {
    seq(|s|, i requires 0 <= i < |s| => s[i] as Octet)
  }

  lemma {:induction false} NumsInjective(s: seq<Octet>, t: seq<Octet>)
    requires Nums(s) == Nums(t)
    ensures s == t
  {
    forall i | 0 <= i < |s| ensures s[i] == t[i] {
      assert Nums(s)[i] == Nums(t)[i];
      SameOctet(s[i], t[i]);
    }
  }

  lemma SameOctet(x: Octet, y: Octet)
    requires x as Byte == y as Byte
    ensures x == y
  {
    assert (x as Byte) as Octet == x && (y as Byte) as Octet == y;
  }

  // ---- the construction ------------------------------------------------------------------

  /** What the MAC is taken over. */
  function MacData(aad: seq<Byte>, ct: seq<Byte>): seq<Byte> {
    aad + Padding(|aad|) + ct + Padding(|ct|) + LeBytes(|aad|, 8) + LeBytes(|ct|, 8)
  }

  function OneTimeKey(key: seq<Octet>, nonce: seq<Octet>): (k: seq<Octet>)
    requires |key| == 32 && |nonce| == 12
    ensures |k| == 32
  {
    Block(key, 0, nonce)[..32]
  }

  function Mac(key: seq<Octet>, nonce: seq<Octet>, aad: seq<Octet>, ct: seq<Octet>): (t: seq<Octet>)
    requires |key| == 32 && |nonce| == 12
    ensures |t| == 16
  {
    Octets(Tag(Nums(OneTimeKey(key, nonce)), MacData(Nums(aad), Nums(ct))))
  }

  function Seal(key: seq<Octet>, nonce: seq<Octet>, aad: seq<Octet>, msg: seq<Octet>): (c: seq<Octet>)
    requires |key| == 32 && |nonce| == 12
    ensures |c| == |msg| + 16
  {
    var ct := Crypt(key, 1, nonce, msg);
    ct + Mac(key, nonce, aad, ct)
  }

  function Open(key: seq<Octet>, nonce: seq<Octet>, aad: seq<Octet>, c: seq<Octet>): Option<seq<Octet>>
    requires |key| == 32 && |nonce| == 12
  {
    if |c| < 16 then None
    else
      var ct := c[..|c| - 16];
      if Mac(key, nonce, aad, ct) != c[|c| - 16..] then None
      else Some(Crypt(key, 1, nonce, ct))
  }

  lemma {:induction false} OpenSealed(key: seq<Octet>, nonce: seq<Octet>, aad: seq<Octet>, msg: seq<Octet>)
    requires |key| == 32 && |nonce| == 12
    ensures Open(key, nonce, aad, Seal(key, nonce, aad, msg)) == Some(msg)
  {
    hide Crypt, Mac;
    var ct := Crypt(key, 1, nonce, msg);
    var c := ct + Mac(key, nonce, aad, ct);
    assert c[..|c| - 16] == ct && c[|c| - 16..] == Mac(key, nonce, aad, ct);
    CryptTwice(key, 1, nonce, msg);
  }

  /** Whatever is accepted is exactly what encrypting the result would have produced. */
  lemma {:induction false} AcceptedIsSealed(key: seq<Octet>, nonce: seq<Octet>, aad: seq<Octet>, c: seq<Octet>)
    requires |key| == 32 && |nonce| == 12
    requires Open(key, nonce, aad, c).Some?
    ensures Seal(key, nonce, aad, Open(key, nonce, aad, c).value) == c
  {
    hide Crypt, Mac;
    var ct := c[..|c| - 16];
    CryptTwice(key, 1, nonce, ct);
    assert c == ct + c[|c| - 16..];
  }

  // ---- the framing is injective ------------------------------------------------------------

  lemma {:induction false} LengthsDetermined(n: nat, m: nat)
    requires n < M64 && m < M64 && LeBytes(n, 8) == LeBytes(m, 8)
    ensures n == m
  {
    assert Pow2(64) == M64 by { Pow2At64(); }
    hide LeBytes, Pow2;
    LeBytesRoundTrip(n, 8);
    LeBytesRoundTrip(m, 8);
  }

  lemma Pow2At64()
    ensures Pow2(64) == M64
  {
    Pow2Values();
    Pow2Add8(32);
    Pow2Add8(40);
    Pow2Add8(48);
    Pow2Add8(56);
  }

  /** Two pairs with the same padded MAC input are the same pair. */
  lemma {:induction false} MacDataInjective(aad: seq<Byte>, ct: seq<Byte>, aad': seq<Byte>, ct': seq<Byte>)
    requires |aad| < M64 && |ct| < M64 && |aad'| < M64 && |ct'| < M64
    requires MacData(aad, ct) == MacData(aad', ct')
    ensures aad == aad' && ct == ct'
  {
    hide LeBytes, Padding;
    MacDataParts(aad, ct);
    MacDataParts(aad', ct');
    LengthsDetermined(|aad|, |aad'|);
    LengthsDetermined(|ct|, |ct'|);
  }

  lemma {:induction false} MacInputInjective(aad: seq<Octet>, ct: seq<Octet>, aad': seq<Octet>, ct': seq<Octet>)
    requires |aad| < M64 && |ct| < M64 && |aad'| < M64 && |ct'| < M64
    requires MacData(Nums(aad), Nums(ct)) == MacData(Nums(aad'), Nums(ct'))
    ensures aad == aad' && ct == ct'
  {
    hide Nums, MacData;
    MacDataInjective(Nums(aad), Nums(ct), Nums(aad'), Nums(ct'));
    NumsInjective(aad, aad');
    NumsInjective(ct, ct');
  }

  lemma {:induction false} MacDataParts(aad: seq<Byte>, ct: seq<Byte>)
    ensures var d := MacData(aad, ct);
            var at := |aad| + |Padding(|aad|)|;
            && |d| >= 16 && at + |ct| <= |d|
            && d[|d| - 8..] == LeBytes(|ct|, 8) && d[|d| - 16..|d| - 8] == LeBytes(|aad|, 8)
            && d[..|aad|] == aad && d[at..at + |ct|] == ct
  {
    hide LeBytes, Padding;
    var p, q, x, y := Padding(|aad|), Padding(|ct|), LeBytes(|aad|, 8), LeBytes(|ct|, 8);
    var d := MacData(aad, ct);
    assert d == aad + (p + ct + q + x + y);
    assert d == (aad + p) + ct + (q + x + y);
    assert d == (aad + p + ct + q + x) + y;
    assert d == (aad + p + ct + q) + x + y;
  }

  // ---- the code ----------------------------------------------------------------------------

  /** LE_STORE64 */
  function Store64(v: nat): (s: seq<Byte>)
    requires v < M64
    ensures |s| == 8
  {
    Store32(U32(v)) + Store32(U32(v / M32))
  }

  lemma {:induction false} Store64Is(v: nat)
    requires v < M64
    ensures Store64(v) == LeBytes(v, 8)
  {
    var lo, hi := U32(v), U32(v / M32);
    assert v == lo + M32 * hi;
    Pow2At64();
    Pow2Values();
    hide LeNum, LeBytes, Store32, U32, Pow2;
    Store32Num(lo);
    Store32Num(hi);
    LeNumConcat(Store32(lo), Store32(hi));
    LeBytesRoundTrip(v, 8);
    LeNumInjective(Store64(v), LeBytes(v, 8));
  }

  lemma OrNone(diff: Octet, x: Octet, y: Octet)
    ensures diff | (x ^ y) == 0 <==> diff == 0 && x == y
  {
  }

  /** constant_time_eq16 */
  method Equal16(a: seq<Octet>, b: seq<Octet>) returns (equal: bool)
    requires |a| == 16 && |b| == 16
    ensures equal <==> a == b
  {
    var diff: Octet := 0;
    for i := 0 to 16
      invariant diff == 0 <==> a[..i] == b[..i]
    {
      assert a[..i + 1] == a[..i] + [a[i]] && b[..i + 1] == b[..i] + [b[i]];
      OrNone(diff, a[i], b[i]);
      diff := diff | (a[i] ^ b[i]);
    }
    assert a[..16] == a && b[..16] == b;
    equal := diff == 0;
  }

  method Padded(pctx: Context, s: seq<Byte>)
    requires pctx.Valid()
    modifies pctx`h, pctx`leftover, pctx`msg, pctx.buffer
    ensures pctx.Valid() && pctx.msg == old(pctx.msg) + s + Padding(|s|)
  {
    hide Padding, Absorbed, PadWords;
    if s != [] {
      pctx.Update(s);
    }
    assert pctx.msg == old(pctx.msg) + s;
    pctx.Pad16(|s|);
  }

  method MacOf(otk: seq<Byte>, aad: seq<Byte>, ct: seq<Byte>) returns (tag: seq<Byte>)
    requires |otk| == 32 && |aad| < M64 && |ct| < M64
    ensures tag == Tag(otk, MacData(aad, ct))
  {
    hide LeBytes, Padding, Store64, Tag, Absorbed, PadWords;
    var pctx := new Context(otk);
    Padded(pctx, aad);
    Padded(pctx, ct);
    Store64Is(|aad|);
    Store64Is(|ct|);
    pctx.Update(Store64(|aad|) + Store64(|ct|));
    Framed(aad, Padding(|aad|), ct, Padding(|ct|), Store64(|aad|), Store64(|ct|));
    tag := pctx.Finish();
  }

  lemma {:induction false} Framed(a: seq<Byte>, p: seq<Byte>, c: seq<Byte>, q: seq<Byte>, x: seq<Byte>, y: seq<Byte>)
    ensures [] + a + p + c + q + (x + y) == a + p + c + q + x + y
  {
    assert [] + a == a;
  }

  /** chacha20poly1305_ietf_encrypt; msg may be out, and may be null when it is empty. */
  method Encrypt(out: array<Octet>, aad: seq<Octet>, msg: array?<Octet>, msgLen: nat, key: seq<Octet>, nonce: seq<Octet>)
    returns (rc: int)
    requires |key| == 32 && |nonce| == 12 && |aad| < M64 && msgLen < M64
    requires msgLen + 16 <= out.Length && (msg != null ==> msgLen <= msg.Length)
    modifies out
    ensures rc == 0
    ensures out[..msgLen + 16] == Seal(key, nonce, aad, old(Plain(msg, msgLen)))
    ensures out[msgLen + 16..] == old(out[msgLen + 16..])
  {
    hide Block, Crypt, Tag, MacData, Nums, Octets;
    var otk := BlockInto(key, 0, nonce);
    XorInto(out, msg, msgLen, key, 1, nonce);
    var t := MacOf(Nums(otk[..32]), Nums(aad), Nums(out[..msgLen]));
    var tag := Octets(t);
    ghost var mid := out[..];
    Memory.Copy(out, msgLen, tag);
    Placed(old(out[..]), mid, out[..], msgLen, tag);
    return 0;
  }

  /** The tag goes behind the ciphertext, and what is behind it stays. */
  lemma {:induction false} Placed(before: seq<Octet>, mid: seq<Octet>, after: seq<Octet>, n: nat, tag: seq<Octet>)
    requires n + 16 <= |before| == |mid| && |tag| == 16
    requires mid[n..] == before[n..] && after == mid[..n] + tag + mid[n + 16..]
    ensures |after| == |before| && after[..n + 16] == mid[..n] + tag && after[n + 16..] == before[n + 16..]
  {
    assert mid[n + 16..] == mid[n..][16..] && before[n + 16..] == before[n..][16..];
  }

  /** chacha20poly1305_ietf_decrypt; input may be out. */
  method Decrypt(out: array<Octet>, aad: seq<Octet>, input: array<Octet>, inLen: nat, key: seq<Octet>, nonce: seq<Octet>)
    returns (rc: int)
    requires |key| == 32 && |nonce| == 12 && |aad| < M64 && inLen < M64
    requires inLen <= input.Length && inLen - 16 <= out.Length
    modifies out
    ensures rc == 0 || rc == -1
    ensures rc == 0 <==> Open(key, nonce, aad, old(input[..inLen])).Some?
    ensures rc == 0 ==> Some(out[..inLen - 16]) == Open(key, nonce, aad, old(input[..inLen]))
                        && out[inLen - 16..] == old(out[inLen - 16..])
    ensures rc != 0 ==> out[..] == old(out[..])
  {
    hide Block, Crypt, Tag, MacData, Nums, Octets;
    if inLen < 16 { return -1; }
    var ctLen := inLen - 16;
    var otk := BlockInto(key, 0, nonce);
    var t := MacOf(Nums(otk[..32]), Nums(aad), Nums(input[..ctLen]));
    var tag := Octets(t);
    assert input[..inLen][..ctLen] == input[..ctLen];
    assert input[..inLen][ctLen..] == input[ctLen..inLen];
    var ok := Equal16(tag, input[ctLen..inLen]);
    if !ok { return -1; }
    XorInto(out, input, ctLen, key, 1, nonce);
    return 0;
  }
}
