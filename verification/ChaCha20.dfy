/** chacha20_block and chacha20_xor, against sections 2.1 to 2.4 of RFC 8439. */
module ChaCha20 {
  import opened Words

  // ---- section 2.1 and 2.3: the state as a 4 x 4 matrix, row by row -------------------------

  /** uint32_t and uint8_t */
  type Word = bv32
  type Octet = bv8

  /** One column of the matrix. */
  datatype Quad = Quad(a: Word, b: Word, c: Word, d: Word)

  function Plus(x: Word, y: Word): Word { x + y }

  function Minus(x: Word, y: Word): Word { x - y }

  function XorWord(x: Word, y: Word): Word { x ^ y }

  /** ROTL32: two shifts and an or. */
  function Rotl(v: Word, n: Word): Word
    requires 0 < n < 32
  {
    (v << n) | (v >> (32 - n))
  }

  lemma {:induction false} RotlParts(v: Word)
    ensures Rotl(v, 16) == v.RotateLeft(16) && Rotl(v, 12) == v.RotateLeft(12)
    ensures Rotl(v, 8) == v.RotateLeft(8) && Rotl(v, 7) == v.RotateLeft(7)
  {
  }

  /** One line of QR: x += y, z ^= x, and z is rotated. */
  function Mix(x: Word, y: Word, z: Word, n: Word): (Word, Word)
    requires 0 < n < 32
  {
    (x + y, Rotl(z ^ (x + y), n))
  }

  function Quarter(q: Quad): Quad {
    var (a, d) := Mix(q.a, q.b, q.d, 16);
    var (c, b) := Mix(q.c, d, q.b, 12);
    var (a, d) := Mix(a, b, d, 8);
    var (c, b) := Mix(c, d, b, 7);
    Quad(a, b, c, d)
  }

  /** The inverse, from the last line to the first. */
  function Unmix(x: Word, y: Word, z: Word, n: Word): (Word, Word)
    requires 0 < n < 32
  {
    (x - y, Rotl(z, n) ^ x)
  }

  function Unquarter(q: Quad): Quad {
    var (c, b) := Unmix(q.c, q.d, q.b, 25);
    var (a, d) := Unmix(q.a, b, q.d, 24);
    var (c, b) := Unmix(c, d, b, 20);
    var (a, d) := Unmix(a, b, d, 16);
    Quad(a, b, c, d)
  }

  lemma MixIs(x: Word, y: Word, z: Word, n: Word)
    requires 0 < n < 32
    ensures Mix(x, y, z, n) == (Plus(x, y), Rotl(XorWord(z, Plus(x, y)), n))
  {
    hide Rotl;
  }

  lemma UnmixIs(x: Word, y: Word, z: Word, n: Word)
    requires 0 < n < 32
    ensures Unmix(x, y, z, n) == (Minus(x, y), XorWord(Rotl(z, n), x))
  {
    hide Rotl;
  }

  lemma PlusBack(x: Word, y: Word)
    ensures Minus(Plus(x, y), y) == x
  {
    assert Minus(x + y, y) == x;
  }

  lemma MinusBack(x: Word, y: Word)
    ensures Plus(Minus(x, y), y) == x
  {
    assert Plus(x - y, y) == x;
  }

  lemma XorBack(x: Word, y: Word)
    ensures XorWord(XorWord(x, y), y) == x
  {
  }

  lemma R16(v: Word)
    ensures Rotl(Rotl(v, 16), 16) == v
  {
  }

  lemma R12(v: Word)
    ensures Rotl(Rotl(v, 12), 20) == v
  {
  }

  lemma R20(v: Word)
    ensures Rotl(Rotl(v, 20), 12) == v
  {
  }

  lemma R8(v: Word)
    ensures Rotl(Rotl(v, 8), 24) == v
  {
  }

  lemma R24(v: Word)
    ensures Rotl(Rotl(v, 24), 8) == v
  {
  }

  lemma R7(v: Word)
    ensures Rotl(Rotl(v, 7), 25) == v
  {
  }

  lemma R25(v: Word)
    ensures Rotl(Rotl(v, 25), 7) == v
  {
  }

  /** Rotations by m and n cancel. */
  predicate Opposite(m: Word, n: Word) {
    (m == 16 && n == 16) || (m == 12 && n == 20) || (m == 8 && n == 24) || (m == 7 && n == 25)
  }

  lemma RotlBack(v: Word, m: Word, n: Word)
    requires Opposite(m, n)
    ensures Rotl(Rotl(v, m), n) == v && Rotl(Rotl(v, n), m) == v
  {
    hide Rotl;
    if m == 16 {
      R16(v);
    } else if m == 12 {
      R12(v);
      R20(v);
    } else if m == 8 {
      R8(v);
      R24(v);
    } else {
      R7(v);
      R25(v);
    }
  }

  lemma UnmixMix(x: Word, y: Word, z: Word, m: Word, n: Word)
    requires Opposite(m, n)
    ensures var p := Mix(x, y, z, m); Unmix(p.0, y, p.1, n) == (x, z)
  {
    hide Rotl, Mix, Unmix, Plus, Minus, XorWord;
    MixIs(x, y, z, m);
    UnmixIs(Plus(x, y), y, Rotl(XorWord(z, Plus(x, y)), m), n);
    PlusBack(x, y);
    RotlBack(XorWord(z, Plus(x, y)), m, n);
    XorBack(z, Plus(x, y));
  }

  lemma MixUnmix(x: Word, y: Word, z: Word, m: Word, n: Word)
    requires Opposite(m, n)
    ensures var p := Unmix(x, y, z, n); Mix(p.0, y, p.1, m) == (x, z)
  {
    hide Rotl, Mix, Unmix, Plus, Minus, XorWord;
    UnmixIs(x, y, z, n);
    MixIs(Minus(x, y), y, XorWord(Rotl(z, n), x), m);
    MinusBack(x, y);
    XorBack(Rotl(z, n), x);
    RotlBack(z, m, n);
  }

  /** The quarter round is a bijection, undone by other rotations. */
  lemma QuarterBack(q: Quad)
    ensures Unquarter(Quarter(q)) == q
  {
    hide Mix, Unmix;
    var (a, d) := Mix(q.a, q.b, q.d, 16);
    var (c, b) := Mix(q.c, d, q.b, 12);
    var (a', d') := Mix(a, b, d, 8);
    UnmixMix(q.a, q.b, q.d, 16, 16);
    UnmixMix(q.c, d, q.b, 12, 20);
    UnmixMix(a, b, d, 8, 24);
    UnmixMix(c, d', b, 7, 25);
  }

  lemma BackQuarter(q: Quad)
    ensures Quarter(Unquarter(q)) == q
  {
    hide Mix, Unmix;
    var (c, b) := Unmix(q.c, q.d, q.b, 25);
    var (a, d) := Unmix(q.a, b, q.d, 24);
    var (c', b') := Unmix(c, d, b, 20);
    MixUnmix(q.c, q.d, q.b, 7, 25);
    MixUnmix(q.a, b, q.d, 8, 24);
    MixUnmix(c, d, b, 12, 20);
    MixUnmix(a, b', d, 16, 16);
  }

  type Matrix = s: seq<Word> | |s| == 16 witness seq(16, _ => 0)

  datatype Columns = Columns(p: Quad, q: Quad, r: Quad, t: Quad)

  function ColumnsOf(s: Matrix): Columns {
    Columns(Quad(s[0], s[4], s[8], s[12]), Quad(s[1], s[5], s[9], s[13]),
            Quad(s[2], s[6], s[10], s[14]), Quad(s[3], s[7], s[11], s[15]))
  }

  function FromColumns(c: Columns): Matrix {
    [c.p.a, c.q.a, c.r.a, c.t.a, c.p.b, c.q.b, c.r.b, c.t.b, c.p.c, c.q.c, c.r.c, c.t.c, c.p.d, c.q.d, c.r.d, c.t.d]
  }

  lemma {:induction false} ColumnsBack(c: Columns)
    ensures ColumnsOf(FromColumns(c)) == c
  {
  }

  function Quarters(c: Columns): Columns {
    Columns(Quarter(c.p), Quarter(c.q), Quarter(c.r), Quarter(c.t))
  }

  /** Row i turned left by i places, so that diagonals become columns, and back. */
  function Turned(c: Columns): Columns {
    Columns(Quad(c.p.a, c.q.b, c.r.c, c.t.d), Quad(c.q.a, c.r.b, c.t.c, c.p.d),
            Quad(c.r.a, c.t.b, c.p.c, c.q.d), Quad(c.t.a, c.p.b, c.q.c, c.r.d))
  }

  function Unturned(c: Columns): Columns {
    Columns(Quad(c.p.a, c.t.b, c.r.c, c.q.d), Quad(c.q.a, c.p.b, c.t.c, c.r.d),
            Quad(c.r.a, c.q.b, c.p.c, c.t.d), Quad(c.t.a, c.r.b, c.q.c, c.p.d))
  }

  /** A quarter round on every column, then one on every diagonal. */
  function DoubleRound(c: Columns): Columns {
    Unturned(Quarters(Turned(Quarters(c))))
  }

  function DoubleRounds(c: Columns, n: nat): Columns {
    if n == 0 then c else DoubleRound(DoubleRounds(c, n - 1))
  }

  /** The constants "expand 32-byte k". */
  function Sigma(): (s: seq<Word>)
    ensures |s| == 4
  {
    [0x61707865, 0x3320646e, 0x79622d32, 0x6b206574]
  }

  function LoadWord(s: seq<Octet>, i: nat): Word
    requires i + 4 <= |s|
  {
    (s[i] as Word) | ((s[i + 1] as Word) << 8) | ((s[i + 2] as Word) << 16) | ((s[i + 3] as Word) << 24)
  }

  function LoadWords(s: seq<Octet>, n: nat): (w: seq<Word>)
    requires 4 * n <= |s|
    ensures |w| == n
  {
    seq(n, i requires 0 <= i < n => LoadWord(s, 4 * i))
  }

  /** Constants, key, counter, nonce. */
  function InitialState(key: seq<Octet>, counter: Word, nonce: seq<Octet>): Matrix
    requires |key| == 32 && |nonce| == 12
  {
    Sigma() + LoadWords(key, 8) + [counter] + LoadWords(nonce, 3)
  }

  function LowByte(v: Word): Octet {
    (v & 0xff) as Octet
  }

  function StoreWord(v: Word): (s: seq<Octet>)
    ensures |s| == 4
  {
    [LowByte(v), LowByte(v >> 8), LowByte(v >> 16), LowByte(v >> 24)]
  }

  /** Words in sequence, each least significant byte first. */
  function Serialized(s: seq<Word>): (r: seq<Octet>)
    ensures |r| == 4 * |s|
  {
    if s == [] then [] else Serialized(s[..|s| - 1]) + StoreWord(s[|s| - 1])
  }

  function Block(key: seq<Octet>, counter: Word, nonce: seq<Octet>): (b: seq<Octet>)
    requires |key| == 32 && |nonce| == 12
    ensures |b| == 64
  {
    var s := InitialState(key, counter, nonce);
    var x := FromColumns(DoubleRounds(ColumnsOf(s), 10));
    Serialized(Summed(x, s))
  }

  function Zip<T>(f: (T, T) -> T, s: seq<T>, t: seq<T>): (r: seq<T>)
    requires |s| == |t|
    ensures |r| == |s|
  {
    seq(|s|, i requires 0 <= i < |s| => f(s[i], t[i]))
  }

  function Summed(x: Matrix, s: Matrix): Matrix { Zip(Plus, x, s) }

  // ---- chacha20_block --------------------------------------------------------------------

  /** Four entries replaced. */
  function Put<T>(s: seq<T>, i: nat, j: nat, k: nat, l: nat, a: T, b: T, c: T, d: T): (t: seq<T>)
    requires i < |s| && j < |s| && k < |s| && l < |s|
    ensures |t| == |s|
  {
    s[i := a][j := b][k := c][l := d]
  }

  /** The quarter round of section 2.2 on entries i, j, k and l. */
  function QuarterOf(s: Matrix, i: nat, j: nat, k: nat, l: nat): Matrix
    requires i < 16 && j < 16 && k < 16 && l < 16
  {
    var q := Quarter(Quad(s[i], s[j], s[k], s[l]));
    Put(s, i, j, k, l, q.a, q.b, q.c, q.d)
  }

  method MixAt(x: array<Word>, i: nat, j: nat, k: nat, n: Word)
    requires i < x.Length && j < x.Length && k < x.Length && i != k && 0 < n < 32
    modifies x
    ensures x[..] == var m := Mix(old(x[i]), old(x[j]), old(x[k]), n); old(x[..])[i := m.0][k := m.1]
  {
    hide Rotl;
    x[i] := x[i] + x[j];
    x[k] := Rotl(x[k] ^ x[i], n);
  }

  method QuarterAt(x: array<Word>, i: nat, j: nat, k: nat, l: nat)
    requires x.Length == 16 && i < j < k < 16 && l < 16 && l != i && l != j && l != k
    modifies x
    ensures x[..] == QuarterOf(old(x[..]), i, j, k, l)
  {
    hide Mix;
    MixAt(x, i, j, l, 16);
    MixAt(x, k, l, j, 12);
    MixAt(x, i, j, l, 8);
    MixAt(x, k, l, j, 7);
  }

  /** Columns are replaced one after the other; the others stay. */
  lemma {:induction false} PutColumns<T>(s: seq<T>, a: (T, T, T, T), b: (T, T, T, T), c: (T, T, T, T), d: (T, T, T, T))
    requires |s| == 16
    ensures var t := Put(s, 0, 4, 8, 12, a.0, a.1, a.2, a.3);
            var u := Put(t, 1, 5, 9, 13, b.0, b.1, b.2, b.3);
            var v := Put(u, 2, 6, 10, 14, c.0, c.1, c.2, c.3);
            && t[1] == s[1] && t[5] == s[5] && t[9] == s[9] && t[13] == s[13]
            && u[2] == s[2] && u[6] == s[6] && u[10] == s[10] && u[14] == s[14]
            && v[3] == s[3] && v[7] == s[7] && v[11] == s[11] && v[15] == s[15]
            && Put(v, 3, 7, 11, 15, d.0, d.1, d.2, d.3)
               == [a.0, b.0, c.0, d.0, a.1, b.1, c.1, d.1, a.2, b.2, c.2, d.2, a.3, b.3, c.3, d.3]
  {
  }

  lemma {:induction false} PutDiagonals<T>(s: seq<T>, a: (T, T, T, T), b: (T, T, T, T), c: (T, T, T, T), d: (T, T, T, T))
    requires |s| == 16
    ensures var t := Put(s, 0, 5, 10, 15, a.0, a.1, a.2, a.3);
            var u := Put(t, 1, 6, 11, 12, b.0, b.1, b.2, b.3);
            var v := Put(u, 2, 7, 8, 13, c.0, c.1, c.2, c.3);
            && t[1] == s[1] && t[6] == s[6] && t[11] == s[11] && t[12] == s[12]
            && u[2] == s[2] && u[7] == s[7] && u[8] == s[8] && u[13] == s[13]
            && v[3] == s[3] && v[4] == s[4] && v[9] == s[9] && v[14] == s[14]
            && Put(v, 3, 4, 9, 14, d.0, d.1, d.2, d.3)
               == [a.0, b.0, c.0, d.0, d.1, a.1, b.1, c.1, c.2, d.2, a.2, b.2, b.3, c.3, d.3, a.3]
  {
  }

  function Tuple(q: Quad): (Word, Word, Word, Word) { (q.a, q.b, q.c, q.d) }

  /** Quarter rounds on the columns of the matrix. */
  lemma {:induction false} ColumnRoundIs(s: Matrix)
    ensures QuarterOf(QuarterOf(QuarterOf(QuarterOf(s, 0, 4, 8, 12), 1, 5, 9, 13), 2, 6, 10, 14), 3, 7, 11, 15)
         == FromColumns(Quarters(ColumnsOf(s)))
  {
    hide Quarter, Put;
    var c := Quarters(ColumnsOf(s));
    PutColumns(s, Tuple(c.p), Tuple(c.q), Tuple(c.r), Tuple(c.t));
  }

  /** Quarter rounds on its diagonals. */
  lemma {:induction false} DiagonalRoundIs(s: Matrix)
    ensures QuarterOf(QuarterOf(QuarterOf(QuarterOf(s, 0, 5, 10, 15), 1, 6, 11, 12), 2, 7, 8, 13), 3, 4, 9, 14)
         == FromColumns(Unturned(Quarters(Turned(ColumnsOf(s)))))
  {
    hide Quarter, Put;
    var c := Quarters(Turned(ColumnsOf(s)));
    PutDiagonals(s, Tuple(c.p), Tuple(c.q), Tuple(c.r), Tuple(c.t));
  }

  method ColumnsInPlace(x: array<Word>)
    requires x.Length == 16
    modifies x
    ensures x[..] == FromColumns(Quarters(ColumnsOf(old(x[..]))))
  {
    hide QuarterOf, FromColumns, Quarters, ColumnsOf;
    ColumnRoundIs(x[..]);
    QuarterAt(x, 0, 4, 8, 12);
    QuarterAt(x, 1, 5, 9, 13);
    QuarterAt(x, 2, 6, 10, 14);
    QuarterAt(x, 3, 7, 11, 15);
  }

  method DiagonalsInPlace(x: array<Word>)
    requires x.Length == 16
    modifies x
    ensures x[..] == FromColumns(Unturned(Quarters(Turned(ColumnsOf(old(x[..]))))))
  {
    hide QuarterOf, FromColumns, Quarters, ColumnsOf, Turned, Unturned;
    DiagonalRoundIs(x[..]);
    QuarterAt(x, 0, 5, 10, 15);
    QuarterAt(x, 1, 6, 11, 12);
    QuarterAt(x, 2, 7, 8, 13);
    QuarterAt(x, 3, 4, 9, 14);
  }

  method BlockInto(key: seq<Octet>, counter: Word, nonce: seq<Octet>) returns (out: seq<Octet>)
    requires |key| == 32 && |nonce| == 12
    ensures out == Block(key, counter, nonce)
  {
    hide FromColumns, Quarters, ColumnsOf, Turned, Unturned, InitialState;
    var s := InitialState(key, counter, nonce);
    var x := new Word[16](i requires 0 <= i < 16 => s[i]);
    assert x[..] == s;
    FromColumnsOf(s);
    for i := 0 to 10
      modifies x
      invariant x[..] == FromColumns(DoubleRounds(ColumnsOf(s), i))
    {
      ghost var c := DoubleRounds(ColumnsOf(s), i);
      ColumnsBack(c);
      ColumnsInPlace(x);
      ColumnsBack(Quarters(c));
      DiagonalsInPlace(x);
    }
    out := AddAndStore(x[..], s);
  }

  lemma {:induction false} FromColumnsOf(s: Matrix)
    ensures FromColumns(ColumnsOf(s)) == s
  {
  }

  method AddAndStore(x: Matrix, s: Matrix) returns (out: seq<Octet>)
    ensures out == Serialized(Summed(x, s))
  {
    ghost var sum := Summed(x, s);
    hide Plus, StoreWord;
    out := [];
    for i := 0 to 16
      invariant out == Serialized(sum[..i])
    {
      assert sum[..i + 1][..i] == sum[..i];
      out := out + StoreWord(Plus(x[i], s[i]));
    }
    assert sum[..16] == sum;
  }

  // ---- section 2.4: the key stream ---------------------------------------------------------

  /** The counter n blocks later. */
  function Later(counter: Word, n: nat): Word {
    if n == 0 then counter else Later(counter, n - 1) + 1
  }

  /** Byte i of the stream; the block counter is a 32-bit word and wraps around. */
  function StreamByte(key: seq<Octet>, counter: Word, nonce: seq<Octet>, i: nat): Octet
    requires |key| == 32 && |nonce| == 12
  {
    Block(key, Later(counter, i / 64), nonce)[i % 64]
  }

  function Crypt(key: seq<Octet>, counter: Word, nonce: seq<Octet>, s: seq<Octet>): (c: seq<Octet>)
    requires |key| == 32 && |nonce| == 12
    ensures |c| == |s|
  {
    seq(|s|, i requires 0 <= i < |s| => XorByte(s[i], StreamByte(key, counter, nonce, i)))
  }

  /** Encrypting twice gives the message back, also past a wrap of the counter. */
  lemma {:induction false} CryptTwice(key: seq<Octet>, counter: Word, nonce: seq<Octet>, s: seq<Octet>)
    requires |key| == 32 && |nonce| == 12
    ensures Crypt(key, counter, nonce, Crypt(key, counter, nonce, s)) == s
  {
    hide Block, XorByte;
    var c := Crypt(key, counter, nonce, s);
    var d := Crypt(key, counter, nonce, c);
    forall i | 0 <= i < |s| ensures d[i] == s[i] {
      XorByteTwice(s[i], StreamByte(key, counter, nonce, i));
    }
  }

  function XorByte(x: Octet, y: Octet): Octet { x ^ y }

  lemma {:induction false} XorByteTwice(x: Octet, k: Octet)
    ensures XorByte(XorByte(x, k), k) == x
  {
  }

  // ---- chacha20_xor ------------------------------------------------------------------------

  /** What src stands for: a null pointer asks for the raw key stream. */
  ghost function Plain(src: array?<Octet>, len: nat): (s: seq<Octet>)
    requires src != null ==> len <= src.Length
    reads src
    ensures |s| == len
  {
    if src == null then seq(len, _ => 0) else src[..len]
  }

  function Xored(s: seq<Octet>, block: seq<Octet>): (c: seq<Octet>)
    requires |s| <= |block|
    ensures |c| == |s|
  {
    seq(|s|, i requires 0 <= i < |s| => XorByte(s[i], block[i]))
  }

  /** One block's worth; dst and src may be the same buffer. */
  method XorTake(dst: array<Octet>, src: array<Octet>, at: nat, take: nat, block: seq<Octet>)
    requires at + take <= dst.Length && at + take <= src.Length && take <= |block|
    modifies dst
    ensures dst[..] == old(dst[..at]) + Xored(old(src[at..at + take]), block) + old(dst[at + take..])
  {
    hide XorByte;
    for i := 0 to take
      modifies dst
      invariant forall j :: 0 <= j < dst.Length ==>
        dst[j] == if at <= j < at + i then XorByte(old(src[j]), block[j - at]) else old(dst[j])
    {
      assert src[at + i] == old(src[at + i]);
      dst[at + i] := XorByte(src[at + i], block[i]);
    }
  }

  method CopyTake(dst: array<Octet>, at: nat, take: nat, block: seq<Octet>)
    requires at + take <= dst.Length && take <= |block|
    modifies dst
    ensures dst[..] == old(dst[..at]) + Xored(seq(take, _ => 0), block) + old(dst[at + take..])
  {
    hide XorByte;
    for i := 0 to take
      modifies dst
      invariant forall j :: 0 <= j < dst.Length ==>
        dst[j] == if at <= j < at + i then XorByte(0, block[j - at]) else old(dst[j])
    {
      ZeroByte(block[i]);
      dst[at + i] := block[i];
    }
  }

  lemma {:induction false} ZeroByte(k: Octet)
    ensures XorByte(0, k) == k
  {
  }

  /** dst after `pos` bytes of the stream. */
  ghost predicate Streamed(dst: seq<Octet>, was: seq<Octet>, c: seq<Octet>, pos: nat) {
    pos <= |c| <= |was| && dst == c[..pos] + was[pos..]
  }

  lemma {:induction false} StreamBlock(key: seq<Octet>, counter: Word, nonce: seq<Octet>, s: seq<Octet>, pos: nat, take: nat)
    requires |key| == 32 && |nonce| == 12 && pos % 64 == 0 && take <= 64 && pos + take <= |s|
    ensures Xored(s[pos..pos + take], Block(key, Later(counter, pos / 64), nonce))
         == Crypt(key, counter, nonce, s)[pos..pos + take]
  {
    hide Block, XorByte, Later;
    var block := Block(key, Later(counter, pos / 64), nonce);
    var x, y := Xored(s[pos..pos + take], block), Crypt(key, counter, nonce, s)[pos..pos + take];
    forall i | 0 <= i < take ensures x[i] == y[i] {
      ModIs(pos + i, 64, pos / 64, i);
      assert y[i] == XorByte(s[pos + i], StreamByte(key, counter, nonce, pos + i));
    }
  }

  lemma {:induction false} StreamedOn(before: seq<Octet>, after: seq<Octet>, was: seq<Octet>, c: seq<Octet>, pos: nat, take: nat)
    requires Streamed(before, was, c, pos) && pos + take <= |c|
    requires after == before[..pos] + c[pos..pos + take] + before[pos + take..]
    ensures Streamed(after, was, c, pos + take)
  {
  }

  lemma {:induction false} StreamedNone(was: seq<Octet>, c: seq<Octet>)
    requires |c| <= |was|
    ensures Streamed(was, was, c, 0)
  {
  }

  lemma {:induction false} StreamedAll(dst: seq<Octet>, was: seq<Octet>, c: seq<Octet>, len: nat)
    requires Streamed(dst, was, c, len) && len == |c|
    ensures dst[..len] == c && dst[len..] == was[len..]
  {
  }

  lemma CounterNext(counter: Word, pos: nat)
    requires pos % 64 == 0
    ensures (pos + 64) % 64 == 0
    ensures Later(counter, pos / 64) + 1 == Later(counter, (pos + 64) / 64)
  {
    assert (pos + 64) / 64 == pos / 64 + 1;
  }

  /** src from `pos` on is still what it was. */
  ghost predicate Unread(src: array?<Octet>, s: seq<Octet>, pos: nat)
    reads src
  {
    if src == null then forall i :: 0 <= i < |s| ==> s[i] == 0
    else |s| <= src.Length && forall i :: pos <= i < |s| ==> src[i] == s[i]
  }

  lemma UnreadAll(src: array?<Octet>, len: nat)
    requires src != null ==> len <= src.Length
    ensures Unread(src, Plain(src, len), 0)
  {
  }

  method XorStep(dst: array<Octet>, src: array?<Octet>, pos: nat, take: nat, block: seq<Octet>,
                 ghost s: seq<Octet>, ghost was: seq<Octet>, ghost c: seq<Octet>)
    requires Streamed(dst[..], was, c, pos) && |c| == |s| && pos + take <= |s| && take <= |block|
    requires Unread(src, s, pos) && c[pos..pos + take] == Xored(s[pos..pos + take], block)
    modifies dst
    ensures Streamed(dst[..], was, c, pos + take) && Unread(src, s, pos + take)
  {
    hide Xored;
    ghost var before := dst[..];
    if src != null {
      assert src[pos..pos + take] == s[pos..pos + take];
      XorTake(dst, src, pos, take, block);
    } else {
      assert s[pos..pos + take] == seq(take, _ => 0);
      CopyTake(dst, pos, take, block);
    }
    StreamedOn(before, dst[..], was, c, pos, take);
    assert forall i :: pos + take <= i < dst.Length ==> dst[..][i] == before[i];
  }

  /** chacha20_xor: the stream from `counter` on, xored onto src or alone. */
  method XorInto(dst: array<Octet>, src: array?<Octet>, len: nat, key: seq<Octet>, counter: Word, nonce: seq<Octet>)
    requires len <= dst.Length && (src != null ==> len <= src.Length)
    requires |key| == 32 && |nonce| == 12
    modifies dst
    ensures dst[..len] == Crypt(key, counter, nonce, old(Plain(src, len)))
    ensures dst[len..] == old(dst[len..])
  {
    hide Block, Crypt, Streamed, Xored, Unread, Plain;
    UnreadAll(src, len);
    ghost var s, was := Plain(src, len), dst[..];
    ghost var c := Crypt(key, counter, nonce, s);
    var left, ctr, pos := len, counter, 0;
    StreamedNone(was, c);
    while left > 0
      modifies dst
      invariant pos + left == len && (left > 0 ==> pos % 64 == 0)
      invariant left > 0 ==> ctr == Later(counter, pos / 64)
      invariant Streamed(dst[..], was, c, pos) && Unread(src, s, pos)
    {
      var block := BlockInto(key, ctr, nonce);
      var take := if left < 64 then left else 64;
      StreamBlock(key, counter, nonce, s, pos, take);
      XorStep(dst, src, pos, take, block, s, was, c);
      CounterNext(counter, pos);
      pos, left, ctr := pos + take, left - take, ctr + 1;
    }
    StreamedAll(dst[..], was, c, len);
  }
}
