/** The examples of RFC 8439 for the cipher. */
module CipherVectors {
  import opened ChaCha20

  /** Section 2.1.1. */
  lemma QuarterVector()
    ensures Quarter(Quad(0x11111111, 0x01020304, 0x9b8d6f43, 0x01234567))
         == Quad(0xea2a92f4, 0xcb1cf8ce, 0x4581472e, 0x5881c4bb)
  {
  }

  /** Section 2.2.1: the quarter round on entries 2, 7, 8 and 13 of a state. */
  lemma StateVector()
    ensures QuarterOf([0x879531e0, 0xc5ecf37d, 0x516461b1, 0xc9a62f8a, 0x44c20ef3, 0x3390af7f, 0xd9fc690b, 0x2a5f714c,
                       0x53372767, 0xb00a5631, 0x974c541a, 0x359e9963, 0x5c971061, 0x3d631689, 0x2098d9d6, 0x91dbd320],
                      2, 7, 8, 13)
         == [0x879531e0, 0xc5ecf37d, 0xbdb886dc, 0xc9a62f8a, 0x44c20ef3, 0x3390af7f, 0xd9fc690b, 0xcfacafd2,
             0xe46bea80, 0xb00a5631, 0x974c541a, 0x359e9963, 0x5c971061, 0xccc07c79, 0x2098d9d6, 0x91dbd320]
  {
  }

  // ---- a block in parts --------------------------------------------------------------------------

  /** n and then m double rounds. */
  lemma {:induction false} MoreRounds(c: Columns, n: nat, m: nat)
    ensures DoubleRounds(c, n + m) == DoubleRounds(DoubleRounds(c, n), m)
    decreases m
  {
    hide DoubleRound;
    if m == 0 {
    } else {
      MoreRounds(c, n, m - 1);
    }
  }

  lemma {:induction false} FewRounds(c: Columns)
    ensures DoubleRounds(c, 3) == DoubleRound(DoubleRound(DoubleRound(c)))
    ensures DoubleRounds(c, 4) == DoubleRound(DoubleRound(DoubleRound(DoubleRound(c))))
  {
    hide DoubleRound;
    assert DoubleRounds(c, 1) == DoubleRound(c);
    assert DoubleRounds(c, 3) == DoubleRound(DoubleRounds(c, 2));
  }

  lemma {:induction false} TenRounds(c: Columns, d: Columns, e: Columns, f: Columns)
    requires d == DoubleRound(DoubleRound(DoubleRound(DoubleRound(c)))) && e == DoubleRound(DoubleRound(DoubleRound(d)))
    requires f == DoubleRound(DoubleRound(DoubleRound(e)))
    ensures DoubleRounds(c, 10) == f
  {
    hide DoubleRound;
    FewRounds(c);
    FewRounds(d);
    FewRounds(e);
    MoreRounds(c, 4, 3);
    MoreRounds(c, 7, 3);
  }

  function QuadTotal(x: Quad, y: Quad): Quad {
    Quad(Plus(x.a, y.a), Plus(x.b, y.b), Plus(x.c, y.c), Plus(x.d, y.d))
  }

  function Totals(x: Columns, y: Columns): Columns {
    Columns(QuadTotal(x.p, y.p), QuadTotal(x.q, y.q), QuadTotal(x.r, y.r), QuadTotal(x.t, y.t))
  }

  /** Four rows of four. */
  function Sixteen<T>(a: (T, T, T, T), b: (T, T, T, T), c: (T, T, T, T), d: (T, T, T, T)): (s: seq<T>)
    ensures |s| == 16
  {
    [a.0, a.1, a.2, a.3, b.0, b.1, b.2, b.3, c.0, c.1, c.2, c.3, d.0, d.1, d.2, d.3]
  }

  lemma {:induction false} InRows<T>(a: (T, T, T, T), b: (T, T, T, T), c: (T, T, T, T), d: (T, T, T, T))
    ensures Sixteen(a, b, c, d) == [a.0, a.1, a.2, a.3] + [b.0, b.1, b.2, b.3] + [c.0, c.1, c.2, c.3] + [d.0, d.1, d.2, d.3]
  {
  }

  lemma {:induction false} InColumns(c: Columns)
    ensures FromColumns(c) == Sixteen((c.p.a, c.q.a, c.r.a, c.t.a), (c.p.b, c.q.b, c.r.b, c.t.b),
                                      (c.p.c, c.q.c, c.r.c, c.t.c), (c.p.d, c.q.d, c.r.d, c.t.d))
  {
  }

  function Both<T>(f: (T, T) -> T, x: (T, T, T, T), y: (T, T, T, T)): (T, T, T, T) {
    (f(x.0, y.0), f(x.1, y.1), f(x.2, y.2), f(x.3, y.3))
  }

  lemma {:induction false} Zipped<T>(f: (T, T) -> T, a: (T, T, T, T), b: (T, T, T, T), c: (T, T, T, T), d: (T, T, T, T),
                                     a': (T, T, T, T), b': (T, T, T, T), c': (T, T, T, T), d': (T, T, T, T))
    ensures Zip(f, Sixteen(a, b, c, d), Sixteen(a', b', c', d'))
         == Sixteen(Both(f, a, a'), Both(f, b, b'), Both(f, c, c'), Both(f, d, d'))
  {
  }

  lemma {:induction false} SummedIs(x: Columns, y: Columns)
    ensures Summed(FromColumns(x), FromColumns(y)) == FromColumns(Totals(x, y))
  {
    hide Plus, FromColumns, Sixteen, Zip;
    InColumns(x);
    InColumns(y);
    InColumns(Totals(x, y));
    Zipped(Plus, (x.p.a, x.q.a, x.r.a, x.t.a), (x.p.b, x.q.b, x.r.b, x.t.b), (x.p.c, x.q.c, x.r.c, x.t.c), (x.p.d,
           x.q.d, x.r.d, x.t.d),
           (y.p.a, y.q.a, y.r.a, y.t.a), (y.p.b, y.q.b, y.r.b, y.t.b), (y.p.c, y.q.c, y.r.c, y.t.c), (y.p.d, y.q.d,
                  y.r.d, y.t.d));
  }

  /** Four words of a block: row i of the matrix. */
  function Row(c: Columns, i: nat): (r: seq<Octet>)
    requires i < 4
    ensures |r| == 16
  {
    if i == 0 then StoreWord(c.p.a) + StoreWord(c.q.a) + StoreWord(c.r.a) + StoreWord(c.t.a)
    else if i == 1 then StoreWord(c.p.b) + StoreWord(c.q.b) + StoreWord(c.r.b) + StoreWord(c.t.b)
    else if i == 2 then StoreWord(c.p.c) + StoreWord(c.q.c) + StoreWord(c.r.c) + StoreWord(c.t.c)
    else StoreWord(c.p.d) + StoreWord(c.q.d) + StoreWord(c.r.d) + StoreWord(c.t.d)
  }

  lemma {:induction false} SerializedNext(s: seq<Word>, w: Word)
    ensures Serialized(s + [w]) == Serialized(s) + StoreWord(w)
  {
    hide StoreWord;
    assert (s + [w])[..|s|] == s;
  }

  lemma {:induction false} SerializedRow(s: seq<Word>, a: Word, b: Word, c: Word, d: Word)
    ensures Serialized(s + [a, b, c, d]) == Serialized(s) + (StoreWord(a) + StoreWord(b) + StoreWord(c) + StoreWord(d))
  {
    hide StoreWord, Serialized;
    SerializedNext(s, a);
    SerializedNext(s + [a], b);
    SerializedNext(s + [a] + [b], c);
    SerializedNext(s + [a] + [b] + [c], d);
    assert s + [a] + [b] + [c] + [d] == s + [a, b, c, d];
  }

  lemma SerializedNone()
    ensures Serialized([]) == []
  {
  }

  lemma {:induction false} Rows(c: Columns)
    ensures Serialized(FromColumns(c)) == Row(c, 0) + Row(c, 1) + Row(c, 2) + Row(c, 3)
  {
    hide StoreWord, Serialized, FromColumns, Sixteen;
    var r := [c.p.a, c.q.a, c.r.a, c.t.a];
    var s := r + [c.p.b, c.q.b, c.r.b, c.t.b];
    var t := s + [c.p.c, c.q.c, c.r.c, c.t.c];
    SerializedRow([], c.p.a, c.q.a, c.r.a, c.t.a);
    SerializedRow(r, c.p.b, c.q.b, c.r.b, c.t.b);
    SerializedRow(s, c.p.c, c.q.c, c.r.c, c.t.c);
    SerializedRow(t, c.p.d, c.q.d, c.r.d, c.t.d);
    SerializedNone();
    assert [] + r == r;
    InColumns(c);
    InRows((c.p.a, c.q.a, c.r.a, c.t.a), (c.p.b, c.q.b, c.r.b, c.t.b), (c.p.c, c.q.c, c.r.c, c.t.c), (c.p.d, c.q.d,
           c.r.d, c.t.d));
  }

  lemma {:induction false} BlockRows(key: seq<Octet>, counter: Word, nonce: seq<Octet>,
                                     c: Columns, d: Columns, e: Columns, f: Columns, w: Columns)
    requires |key| == 32 && |nonce| == 12 && InitialState(key, counter, nonce) == FromColumns(c)
    requires d == DoubleRound(DoubleRound(DoubleRound(DoubleRound(c)))) && e == DoubleRound(DoubleRound(DoubleRound(d)))
    requires f == DoubleRound(DoubleRound(DoubleRound(e))) && w == Totals(f, c)
    ensures Block(key, counter, nonce) == Row(w, 0) + Row(w, 1) + Row(w, 2) + Row(w, 3)
  {
    hide DoubleRound, DoubleRounds, Row, Totals, FromColumns, ColumnsOf, Summed, Serialized, InitialState;
    ColumnsBack(c);
    TenRounds(c, d, e, f);
    SummedIs(f, c);
    Rows(w);
  }

  // ---- section 2.3.2 ---------------------------------------------------------------------------

  /** 32 bytes in ascending order. */
  function CountingKey(first: Octet): (k: seq<Octet>)
    ensures |k| == 32
  {
    seq(32, i requires 0 <= i < 32 => first + (i as Octet))
  }

  lemma {:induction false} Eight<T>(s: seq<T>, a: (T, T, T, T), b: (T, T, T, T))
    requires |s| == 8 && s[0] == a.0 && s[1] == a.1 && s[2] == a.2 && s[3] == a.3
    requires s[4] == b.0 && s[5] == b.1 && s[6] == b.2 && s[7] == b.3
    ensures s == [a.0, a.1, a.2, a.3, b.0, b.1, b.2, b.3]
  {
  }

  function Nonce(): (n: seq<Octet>)
    ensures |n| == 12
  {
    [0x00, 0x00, 0x00, 0x09, 0x00, 0x00, 0x00, 0x4a, 0x00, 0x00, 0x00, 0x00]
  }

  function Start(): Columns {
    Columns(Quad(0x61707865, 0x03020100, 0x13121110, 0x00000001), Quad(0x3320646e, 0x07060504, 0x17161514, 0x09000000),
            Quad(0x79622d32, 0x0b0a0908, 0x1b1a1918, 0x4a000000), Quad(0x6b206574, 0x0f0e0d0c, 0x1f1e1d1c, 0x00000000))
  }

  function AfterFour(): Columns {
    Columns(Quad(0x9a2d3589, 0x0a1bffc6, 0xe46c6354, 0x2687d476), Quad(0x0b23fc4e, 0x5e5993f7, 0xc9503229, 0x54e65231),
            Quad(0x40af3b6b, 0x9904c2e7, 0x04fef5aa, 0x3594ffc5), Quad(0xceea8144, 0x0d334718, 0xf8933f72, 0x2b3bb2ca))
  }

  function AfterSeven(): Columns {
    Columns(Quad(0x9b70f51f, 0x93b08686, 0xd839165e, 0xa609f555), Quad(0x7ea8ac11, 0x6a4c50ae, 0x4c06e28a, 0x2c246549),
            Quad(0x21e54da9, 0x19212a5a, 0xd3fde99e, 0x95151853), Quad(0xca393b2f, 0x9b032958, 0x26acc13d, 0x2c847a0d))
  }

  function AfterTen(): Columns {
    Columns(Quad(0x837778ab, 0xc4f2d0c7, 0x335271c2, 0xd19c12b4), Quad(0xe238d763, 0xfc62bb2f, 0xf29489f3, 0xb04e16de),
            Quad(0xa67ae21e, 0x8fa018fc, 0xeabda8fc, 0x9e83d0cb), Quad(0x5950bb2f, 0x3f5ec7b7, 0x82e46ebd, 0x4e3c50a2))
  }

  function Final(): Columns {
    Columns(Quad(0xe4e7f110, 0xc7f4d1c7, 0x466482d2, 0xd19c12b5), Quad(0x15593bd1, 0x0368c033, 0x09aa9f07, 0xb94e16de),
            Quad(0x1fdd0f50, 0x9aaa2204, 0x05d7c214, 0xe883d0cb), Quad(0xc47120a3, 0x4e6cd4c3, 0xa2028bd9, 0x4e3c50a2))
  }

  lemma FirstRounds()
    ensures DoubleRound(DoubleRound(DoubleRound(DoubleRound(Start())))) == AfterFour()
  {
  }

  lemma MiddleRounds()
    ensures DoubleRound(DoubleRound(DoubleRound(AfterFour()))) == AfterSeven()
  {
  }

  lemma LastRounds()
    ensures DoubleRound(DoubleRound(DoubleRound(AfterSeven()))) == AfterTen()
  {
  }

  lemma Sums()
    ensures Totals(AfterTen(), Start()) == Final()
  {
  }

  lemma KeyLow()
    ensures var k := CountingKey(0);
            && LoadWord(k, 0) == 0x03020100 && LoadWord(k, 4) == 0x07060504
            && LoadWord(k, 8) == 0x0b0a0908 && LoadWord(k, 12) == 0x0f0e0d0c
  {
  }

  lemma KeyHigh()
    ensures var k := CountingKey(0);
            && LoadWord(k, 16) == 0x13121110 && LoadWord(k, 20) == 0x17161514
            && LoadWord(k, 24) == 0x1b1a1918 && LoadWord(k, 28) == 0x1f1e1d1c
  {
  }

  lemma {:induction false} KeyWords()
    ensures LoadWords(CountingKey(0), 8)
         == [0x03020100, 0x07060504, 0x0b0a0908, 0x0f0e0d0c, 0x13121110, 0x17161514, 0x1b1a1918, 0x1f1e1d1c]
  {
    hide LoadWord, CountingKey;
    KeyLow();
    KeyHigh();
    Eight(LoadWords(CountingKey(0), 8), (0x03020100, 0x07060504, 0x0b0a0908, 0x0f0e0d0c), (0x13121110, 0x17161514,
           0x1b1a1918, 0x1f1e1d1c));
  }

  lemma NonceWords()
    ensures LoadWords(Nonce(), 3) == [0x09000000, 0x4a000000, 0x00000000]
  {
  }

  lemma {:induction false} Starts()
    ensures InitialState(CountingKey(0), 1, Nonce()) == FromColumns(Start())
  {
    hide LoadWords, CountingKey, Nonce;
    KeyWords();
    NonceWords();
  }

  lemma Row0()
    ensures Row(Final(), 0) == [0x10, 0xf1, 0xe7, 0xe4, 0xd1, 0x3b, 0x59, 0x15, 0x50, 0x0f, 0xdd, 0x1f, 0xa3, 0x20, 0x71, 0xc4]
  {
  }

  lemma Row1()
    ensures Row(Final(), 1) == [0xc7, 0xd1, 0xf4, 0xc7, 0x33, 0xc0, 0x68, 0x03, 0x04, 0x22, 0xaa, 0x9a, 0xc3, 0xd4, 0x6c, 0x4e]
  {
  }

  lemma Row2()
    ensures Row(Final(), 2) == [0xd2, 0x82, 0x64, 0x46, 0x07, 0x9f, 0xaa, 0x09, 0x14, 0xc2, 0xd7, 0x05, 0xd9, 0x8b, 0x02, 0xa2]
  {
  }

  lemma Row3()
    ensures Row(Final(), 3) == [0xb5, 0x12, 0x9c, 0xd1, 0xde, 0x16, 0x4e, 0xb9, 0xcb, 0xd0, 0x83, 0xe8, 0xa2, 0x50, 0x3c, 0x4e]
  {
  }

  lemma {:induction false} BlockVector()
    ensures Block(CountingKey(0), 1, Nonce())
         == [0x10, 0xf1, 0xe7, 0xe4, 0xd1, 0x3b, 0x59, 0x15, 0x50, 0x0f, 0xdd, 0x1f, 0xa3, 0x20, 0x71, 0xc4]
            + [0xc7, 0xd1, 0xf4, 0xc7, 0x33, 0xc0, 0x68, 0x03, 0x04, 0x22, 0xaa, 0x9a, 0xc3, 0xd4, 0x6c, 0x4e]
            + [0xd2, 0x82, 0x64, 0x46, 0x07, 0x9f, 0xaa, 0x09, 0x14, 0xc2, 0xd7, 0x05, 0xd9, 0x8b, 0x02, 0xa2]
            + [0xb5, 0x12, 0x9c, 0xd1, 0xde, 0x16, 0x4e, 0xb9, 0xcb, 0xd0, 0x83, 0xe8, 0xa2, 0x50, 0x3c, 0x4e]
  {
    hide CountingKey, Nonce, DoubleRound, Row, Totals, Start, AfterFour, AfterSeven, AfterTen, Final, Block;
    Starts();
    FirstRounds();
    MiddleRounds();
    LastRounds();
    Sums();
    BlockRows(CountingKey(0), 1, Nonce(), Start(), AfterFour(), AfterSeven(), AfterTen(), Final());
    Row0();
    Row1();
    Row2();
    Row3();
  }
}
