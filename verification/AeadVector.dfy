/** The example of section 2.8.2 of RFC 8439, which is also the known-answer test of the
    repository. */
module AeadVector {
  import opened Wrappers
  import opened Words
  import opened LittleEndian
  import opened PolySpec
  import opened PolyLimbs
  import opened PolyFinish
  import opened PolyStream
  import opened ChaCha20
  import opened CipherVectors
  import opened Aead

  // ---- the three blocks ------------------------------------------------------------------------

  function Nonce8(): (s: seq<Octet>)
    ensures |s| == 12
  {
    [0x07, 0x00, 0x00, 0x00, 0x40, 0x41, 0x42, 0x43, 0x44, 0x45, 0x46, 0x47]
  }

  lemma ExampleKeyLow()
    ensures var k := CountingKey(0x80);
            && LoadWord(k, 0) == 0x83828180 && LoadWord(k, 4) == 0x87868584
            && LoadWord(k, 8) == 0x8b8a8988 && LoadWord(k, 12) == 0x8f8e8d8c
  {
  }

  lemma ExampleKeyHigh()
    ensures var k := CountingKey(0x80);
            && LoadWord(k, 16) == 0x93929190 && LoadWord(k, 20) == 0x97969594
            && LoadWord(k, 24) == 0x9b9a9998 && LoadWord(k, 28) == 0x9f9e9d9c
  {
  }

  lemma {:induction false} ExampleKeyWords()
    ensures LoadWords(CountingKey(0x80), 8)
         == [0x83828180, 0x87868584, 0x8b8a8988, 0x8f8e8d8c, 0x93929190, 0x97969594, 0x9b9a9998, 0x9f9e9d9c]
  {
    hide LoadWord, CountingKey;
    ExampleKeyLow();
    ExampleKeyHigh();
    Eight(LoadWords(CountingKey(0x80), 8), (0x83828180, 0x87868584, 0x8b8a8988, 0x8f8e8d8c), (0x93929190, 0x97969594,
           0x9b9a9998, 0x9f9e9d9c));
  }

  lemma ExampleNonce()
    ensures LoadWords(Nonce8(), 3) == [0x00000007, 0x43424140, 0x47464544]
  {
  }

  function ZeroStart(): Columns {
    Columns(Quad(0x61707865, 0x83828180, 0x93929190, 0x00000000), Quad(0x3320646e, 0x87868584, 0x97969594, 0x00000007),
            Quad(0x79622d32, 0x8b8a8988, 0x9b9a9998, 0x43424140), Quad(0x6b206574, 0x8f8e8d8c, 0x9f9e9d9c, 0x47464544))
  }

  function ZeroAfterFour(): Columns {
    Columns(Quad(0x0055b232, 0x4a5d5cbf, 0xe6eed20b, 0x6efd1d26), Quad(0xd0b723b7, 0xe5bacff4, 0x645e2127, 0x928edda9),
            Quad(0xf26c19e9, 0x61de73dc, 0xd86363fe, 0x6f5d6664), Quad(0x74558ae2, 0xc99663db, 0xa4358280, 0x84499ed6))
  }

  function ZeroAfterSeven(): Columns {
    Columns(Quad(0x749a1a30, 0x283ff574, 0xd5dbb84c, 0x2866c553), Quad(0x3cf2142d, 0xd318dfcc, 0x4d9a3644, 0x89e8e8a4),
            Quad(0xe179c7f4, 0x22ceaa2d, 0x383e4f36, 0x58f35070), Quad(0x4c4d9c22, 0xc3ee72c5, 0xa5915003, 0x7d026154))
  }

  function ZeroAfterTen(): Columns {
    Columns(Quad(0xc3bb3416, 0xf0545f8a, 0x4b39ed12, 0x8c94b7bc), Quad(0x7c274fbf, 0x6452ef8c, 0x1cb74619, 0x8b7d4b44),
            Quad(0xdc1888d7, 0xeceb09a2, 0x49017e39, 0xf5e5b53d), Quad(0x19358430, 0x6fc547b2, 0x38a46e2d, 0xcf235eee))
  }

  function ZeroFinal(): Columns {
    Columns(Quad(0x252bac7b, 0x73d6e10a, 0xdecc7ea2, 0x8c94b7bc), Quad(0xaf47b42d, 0xebd97510, 0xb44ddbad, 0x8b7d4b4b),
            Quad(0x557ab609, 0x7875932a, 0xe49c17d1, 0x3927f67d), Quad(0x8455e9a4, 0xff53d53e, 0xd8430bc9, 0x1669a432))
  }

  lemma ZeroFirstRounds()
    ensures DoubleRound(DoubleRound(DoubleRound(DoubleRound(ZeroStart())))) == ZeroAfterFour()
  {
  }

  lemma ZeroMiddleRounds()
    ensures DoubleRound(DoubleRound(DoubleRound(ZeroAfterFour()))) == ZeroAfterSeven()
  {
  }

  lemma ZeroLastRounds()
    ensures DoubleRound(DoubleRound(DoubleRound(ZeroAfterSeven()))) == ZeroAfterTen()
  {
  }

  lemma ZeroSums()
    ensures Totals(ZeroAfterTen(), ZeroStart()) == ZeroFinal()
  {
  }

  lemma {:induction false} ZeroBlock()
    ensures Block(CountingKey(0x80), 0, Nonce8())
         == Row(ZeroFinal(), 0) + Row(ZeroFinal(), 1) + Row(ZeroFinal(), 2) + Row(ZeroFinal(), 3)
  {
    hide LoadWords, CountingKey, Nonce8;
    ExampleKeyWords();
    ExampleNonce();
    assert InitialState(CountingKey(0x80), 0, Nonce8()) == FromColumns(ZeroStart());
    hide DoubleRound, Row, Totals, ZeroStart, ZeroAfterFour, ZeroAfterSeven, ZeroAfterTen, ZeroFinal, Block;
    ZeroFirstRounds();
    ZeroMiddleRounds();
    ZeroLastRounds();
    ZeroSums();
    BlockRows(CountingKey(0x80), 0, Nonce8(), ZeroStart(), ZeroAfterFour(), ZeroAfterSeven(), ZeroAfterTen(), ZeroFinal());
  }

  function OneStart(): Columns {
    Columns(Quad(0x61707865, 0x83828180, 0x93929190, 0x00000001), Quad(0x3320646e, 0x87868584, 0x97969594, 0x00000007),
            Quad(0x79622d32, 0x8b8a8988, 0x9b9a9998, 0x43424140), Quad(0x6b206574, 0x8f8e8d8c, 0x9f9e9d9c, 0x47464544))
  }

  function OneAfterFour(): Columns {
    Columns(Quad(0xe9454f79, 0xecdd19b6, 0x2e9764c5, 0xf9ee718b), Quad(0x61d1ac8c, 0x00f5ca61, 0x9cdf3822, 0xf602b833),
            Quad(0xcd17abda, 0x1ef196ea, 0x13eb7328, 0x16c4fd7e), Quad(0x255ffe48, 0xd507cc7b, 0x858fa118, 0x89856def))
  }

  function OneAfterSeven(): Columns {
    Columns(Quad(0xfd3d90f3, 0xb42d0744, 0xae9477db, 0x5d8a59eb), Quad(0x287a9c2c, 0x1dff6679, 0x7eab70d1, 0xb6c39ad1),
            Quad(0xbcd249ef, 0x50039694, 0x0fe3c373, 0x23eece12), Quad(0x996c87b6, 0x22e66d8a, 0x7abc7878, 0xb71b8402))
  }

  function OneAfterTen(): Columns {
    Columns(Quad(0xfc79033a, 0xbc063f41, 0xa5390cbe, 0x6eb20474), Quad(0x87209893, 0x56e77b85, 0x93c7f918, 0x4f6d69b7),
            Quad(0x822db4e3, 0xfc460155, 0x74184120, 0x8c436320), Quad(0x42ea1bc2, 0x1574f4c9, 0x48b43e5e, 0x11d572cd))
  }

  function OneFinal(): Columns {
    Columns(Quad(0x5de97b9f, 0x3f88c0c1, 0x38cb9e4e, 0x6eb20475), Quad(0xba40fd01, 0xde6e0109, 0x2b5e8eac, 0x4f6d69be),
            Quad(0xfb8fe215, 0x87d08add, 0x0fb2dab8, 0xcf85a460), Quad(0xae0a8136, 0xa5038255, 0xe852dbfa, 0x591bb811))
  }

  lemma OneFirstRounds()
    ensures DoubleRound(DoubleRound(DoubleRound(DoubleRound(OneStart())))) == OneAfterFour()
  {
  }

  lemma OneMiddleRounds()
    ensures DoubleRound(DoubleRound(DoubleRound(OneAfterFour()))) == OneAfterSeven()
  {
  }

  lemma OneLastRounds()
    ensures DoubleRound(DoubleRound(DoubleRound(OneAfterSeven()))) == OneAfterTen()
  {
  }

  lemma OneSums()
    ensures Totals(OneAfterTen(), OneStart()) == OneFinal()
  {
  }

  lemma {:induction false} OneBlock()
    ensures Block(CountingKey(0x80), 1, Nonce8())
         == Row(OneFinal(), 0) + Row(OneFinal(), 1) + Row(OneFinal(), 2) + Row(OneFinal(), 3)
  {
    hide LoadWords, CountingKey, Nonce8;
    ExampleKeyWords();
    ExampleNonce();
    assert InitialState(CountingKey(0x80), 1, Nonce8()) == FromColumns(OneStart());
    hide DoubleRound, Row, Totals, OneStart, OneAfterFour, OneAfterSeven, OneAfterTen, OneFinal, Block;
    OneFirstRounds();
    OneMiddleRounds();
    OneLastRounds();
    OneSums();
    BlockRows(CountingKey(0x80), 1, Nonce8(), OneStart(), OneAfterFour(), OneAfterSeven(), OneAfterTen(), OneFinal());
  }

  function TwoStart(): Columns {
    Columns(Quad(0x61707865, 0x83828180, 0x93929190, 0x00000002), Quad(0x3320646e, 0x87868584, 0x97969594, 0x00000007),
            Quad(0x79622d32, 0x8b8a8988, 0x9b9a9998, 0x43424140), Quad(0x6b206574, 0x8f8e8d8c, 0x9f9e9d9c, 0x47464544))
  }

  function TwoAfterFour(): Columns {
    Columns(Quad(0x91d5f3e6, 0x8be9ffd6, 0xa53e0b4f, 0x99914a7a), Quad(0x648163f4, 0xa2de9e1f, 0xa618abbd, 0x9f3fb49c),
            Quad(0x107de5ed, 0x93f5c1fd, 0x765ae2e1, 0x30811c77), Quad(0xb5fde7ad, 0xbb1d77ae, 0x98e3251b, 0x63070c9e))
  }

  function TwoAfterSeven(): Columns {
    Columns(Quad(0xa7d13bd2, 0xbb2d9ad3, 0x3d5fd31e, 0xbeb775b4), Quad(0x2b3f34e8, 0x4d8676cd, 0x1c359369, 0xf69bcf13),
            Quad(0xcdafa982, 0x6d64ca41, 0xcf3ff11f, 0xee221c20), Quad(0x673152a7, 0x9e06e69e, 0xe5c564a5, 0x627dcbf8))
  }

  function TwoAfterTen(): Columns {
    Columns(Quad(0xfe543997, 0x40bf5a0e, 0x0228f4cc, 0x030c3813), Quad(0x79cdb4d4, 0x597b1e18, 0x5a76d64c, 0xd76c35c7),
            Quad(0x4a7c3dba, 0x2022569f, 0xaa1b80f8, 0xb8213566), Quad(0x0d4900da, 0x402ab6af, 0x83480e48, 0x1db9aa99))
  }

  function TwoFinal(): Columns {
    Columns(Quad(0x5fc4b1fc, 0xc441db8e, 0x95bb865c, 0x030c3815), Quad(0xacee1942, 0xe101a39c, 0xf20d6be0, 0xd76c35ce),
            Quad(0xc3de6aec, 0xabace027, 0x45b61a90, 0xfb6376a6), Quad(0x7869664e, 0xcfb9443b, 0x22e6abe4, 0x64ffefdd))
  }

  lemma TwoFirstRounds()
    ensures DoubleRound(DoubleRound(DoubleRound(DoubleRound(TwoStart())))) == TwoAfterFour()
  {
  }

  lemma TwoMiddleRounds()
    ensures DoubleRound(DoubleRound(DoubleRound(TwoAfterFour()))) == TwoAfterSeven()
  {
  }

  lemma TwoLastRounds()
    ensures DoubleRound(DoubleRound(DoubleRound(TwoAfterSeven()))) == TwoAfterTen()
  {
  }

  lemma TwoSums()
    ensures Totals(TwoAfterTen(), TwoStart()) == TwoFinal()
  {
  }

  lemma {:induction false} TwoBlock()
    ensures Block(CountingKey(0x80), 2, Nonce8())
         == Row(TwoFinal(), 0) + Row(TwoFinal(), 1) + Row(TwoFinal(), 2) + Row(TwoFinal(), 3)
  {
    hide LoadWords, CountingKey, Nonce8;
    ExampleKeyWords();
    ExampleNonce();
    assert InitialState(CountingKey(0x80), 2, Nonce8()) == FromColumns(TwoStart());
    hide DoubleRound, Row, Totals, TwoStart, TwoAfterFour, TwoAfterSeven, TwoAfterTen, TwoFinal, Block;
    TwoFirstRounds();
    TwoMiddleRounds();
    TwoLastRounds();
    TwoSums();
    BlockRows(CountingKey(0x80), 2, Nonce8(), TwoStart(), TwoAfterFour(), TwoAfterSeven(), TwoAfterTen(), TwoFinal());
  }

  // ---- the ciphertext --------------------------------------------------------------------------

  function Plain0(): (s: seq<Octet>)
    ensures |s| == 16
  {
    [0x4c, 0x61, 0x64, 0x69, 0x65, 0x73, 0x20, 0x61, 0x6e, 0x64, 0x20, 0x47, 0x65, 0x6e, 0x74, 0x6c]
  }

  function Plain1(): (s: seq<Octet>)
    ensures |s| == 16
  {
    [0x65, 0x6d, 0x65, 0x6e, 0x20, 0x6f, 0x66, 0x20, 0x74, 0x68, 0x65, 0x20, 0x63, 0x6c, 0x61, 0x73]
  }

  function Plain2(): (s: seq<Octet>)
    ensures |s| == 16
  {
    [0x73, 0x20, 0x6f, 0x66, 0x20, 0x27, 0x39, 0x39, 0x3a, 0x20, 0x49, 0x66, 0x20, 0x49, 0x20, 0x63]
  }

  function Plain3(): (s: seq<Octet>)
    ensures |s| == 16
  {
    [0x6f, 0x75, 0x6c, 0x64, 0x20, 0x6f, 0x66, 0x66, 0x65, 0x72, 0x20, 0x79, 0x6f, 0x75, 0x20, 0x6f]
  }

  function Plain4(): (s: seq<Octet>)
    ensures |s| == 16
  {
    [0x6e, 0x6c, 0x79, 0x20, 0x6f, 0x6e, 0x65, 0x20, 0x74, 0x69, 0x70, 0x20, 0x66, 0x6f, 0x72, 0x20]
  }

  function Plain5(): (s: seq<Octet>)
    ensures |s| == 16
  {
    [0x74, 0x68, 0x65, 0x20, 0x66, 0x75, 0x74, 0x75, 0x72, 0x65, 0x2c, 0x20, 0x73, 0x75, 0x6e, 0x73]
  }

  function Plain6(): (s: seq<Octet>)
    ensures |s| == 16
  {
    [0x63, 0x72, 0x65, 0x65, 0x6e, 0x20, 0x77, 0x6f, 0x75, 0x6c, 0x64, 0x20, 0x62, 0x65, 0x20, 0x69]
  }

  function Plain7(): (s: seq<Octet>)
    ensures |s| == 2
  {
    [0x74, 0x2e]
  }

  function Cipher0(): (s: seq<Octet>)
    ensures |s| == 16
  {
    [0xd3, 0x1a, 0x8d, 0x34, 0x64, 0x8e, 0x60, 0xdb, 0x7b, 0x86, 0xaf, 0xbc, 0x53, 0xef, 0x7e, 0xc2]
  }

  function Cipher1(): (s: seq<Octet>)
    ensures |s| == 16
  {
    [0xa4, 0xad, 0xed, 0x51, 0x29, 0x6e, 0x08, 0xfe, 0xa9, 0xe2, 0xb5, 0xa7, 0x36, 0xee, 0x62, 0xd6]
  }

  function Cipher2(): (s: seq<Octet>)
    ensures |s| == 16
  {
    [0x3d, 0xbe, 0xa4, 0x5e, 0x8c, 0xa9, 0x67, 0x12, 0x82, 0xfa, 0xfb, 0x69, 0xda, 0x92, 0x72, 0x8b]
  }

  function Cipher3(): (s: seq<Octet>)
    ensures |s| == 16
  {
    [0x1a, 0x71, 0xde, 0x0a, 0x9e, 0x06, 0x0b, 0x29, 0x05, 0xd6, 0xa5, 0xb6, 0x7e, 0xcd, 0x3b, 0x36]
  }

  function Cipher4(): (s: seq<Octet>)
    ensures |s| == 16
  {
    [0x92, 0xdd, 0xbd, 0x7f, 0x2d, 0x77, 0x8b, 0x8c, 0x98, 0x03, 0xae, 0xe3, 0x28, 0x09, 0x1b, 0x58]
  }

  function Cipher5(): (s: seq<Octet>)
    ensures |s| == 16
  {
    [0xfa, 0xb3, 0x24, 0xe4, 0xfa, 0xd6, 0x75, 0x94, 0x55, 0x85, 0x80, 0x8b, 0x48, 0x31, 0xd7, 0xbc]
  }

  function Cipher6(): (s: seq<Octet>)
    ensures |s| == 16
  {
    [0x3f, 0xf4, 0xde, 0xf0, 0x8e, 0x4b, 0x7a, 0x9d, 0xe5, 0x76, 0xd2, 0x65, 0x86, 0xce, 0xc6, 0x4b]
  }

  function Cipher7(): (s: seq<Octet>)
    ensures |s| == 2
  {
    [0x61, 0x16]
  }

  function Stream0(): (s: seq<Octet>)
    ensures |s| == 16
  {
    [0x9f, 0x7b, 0xe9, 0x5d, 0x01, 0xfd, 0x40, 0xba, 0x15, 0xe2, 0x8f, 0xfb, 0x36, 0x81, 0x0a, 0xae]
  }

  function Stream1(): (s: seq<Octet>)
    ensures |s| == 16
  {
    [0xc1, 0xc0, 0x88, 0x3f, 0x09, 0x01, 0x6e, 0xde, 0xdd, 0x8a, 0xd0, 0x87, 0x55, 0x82, 0x03, 0xa5]
  }

  function Stream2(): (s: seq<Octet>)
    ensures |s| == 16
  {
    [0x4e, 0x9e, 0xcb, 0x38, 0xac, 0x8e, 0x5e, 0x2b, 0xb8, 0xda, 0xb2, 0x0f, 0xfa, 0xdb, 0x52, 0xe8]
  }

  function Stream3(): (s: seq<Octet>)
    ensures |s| == 16
  {
    [0x75, 0x04, 0xb2, 0x6e, 0xbe, 0x69, 0x6d, 0x4f, 0x60, 0xa4, 0x85, 0xcf, 0x11, 0xb8, 0x1b, 0x59]
  }

  function Stream4(): (s: seq<Octet>)
    ensures |s| == 16
  {
    [0xfc, 0xb1, 0xc4, 0x5f, 0x42, 0x19, 0xee, 0xac, 0xec, 0x6a, 0xde, 0xc3, 0x4e, 0x66, 0x69, 0x78]
  }

  function Stream5(): (s: seq<Octet>)
    ensures |s| == 16
  {
    [0x8e, 0xdb, 0x41, 0xc4, 0x9c, 0xa3, 0x01, 0xe1, 0x27, 0xe0, 0xac, 0xab, 0x3b, 0x44, 0xb9, 0xcf]
  }

  function Stream6(): (s: seq<Octet>)
    ensures |s| == 16
  {
    [0x5c, 0x86, 0xbb, 0x95, 0xe0, 0x6b, 0x0d, 0xf2, 0x90, 0x1a, 0xb6, 0x45, 0xe4, 0xab, 0xe6, 0x22]
  }

  function Stream7(): (s: seq<Octet>)
    ensures |s| == 16
  {
    [0x15, 0x38, 0x0c, 0x03, 0xce, 0x35, 0x6c, 0xd7, 0xa6, 0x76, 0x63, 0xfb, 0xdd, 0xef, 0xff, 0x64]
  }

  lemma StreamIs0()
    ensures Row(OneFinal(), 0) == Stream0()
  {
  }

  lemma Line0()
    ensures Xored(Plain0(), Stream0()) == Cipher0()
  {
    XoredZip(Plain0(), Stream0());
    hide Zip, Xored;
    Zipped(XorByte, (0x4c, 0x61, 0x64, 0x69), (0x65, 0x73, 0x20, 0x61), (0x6e, 0x64, 0x20, 0x47), (0x65, 0x6e, 0x74, 0x6c),
           (0x9f, 0x7b, 0xe9, 0x5d), (0x01, 0xfd, 0x40, 0xba), (0x15, 0xe2, 0x8f, 0xfb), (0x36, 0x81, 0x0a, 0xae));
  }

  lemma StreamIs1()
    ensures Row(OneFinal(), 1) == Stream1()
  {
  }

  lemma Line1()
    ensures Xored(Plain1(), Stream1()) == Cipher1()
  {
    XoredZip(Plain1(), Stream1());
    hide Zip, Xored;
    Zipped(XorByte, (0x65, 0x6d, 0x65, 0x6e), (0x20, 0x6f, 0x66, 0x20), (0x74, 0x68, 0x65, 0x20), (0x63, 0x6c, 0x61, 0x73),
           (0xc1, 0xc0, 0x88, 0x3f), (0x09, 0x01, 0x6e, 0xde), (0xdd, 0x8a, 0xd0, 0x87), (0x55, 0x82, 0x03, 0xa5));
  }

  lemma StreamIs2()
    ensures Row(OneFinal(), 2) == Stream2()
  {
  }

  lemma Line2()
    ensures Xored(Plain2(), Stream2()) == Cipher2()
  {
    XoredZip(Plain2(), Stream2());
    hide Zip, Xored;
    Zipped(XorByte, (0x73, 0x20, 0x6f, 0x66), (0x20, 0x27, 0x39, 0x39), (0x3a, 0x20, 0x49, 0x66), (0x20, 0x49, 0x20, 0x63),
           (0x4e, 0x9e, 0xcb, 0x38), (0xac, 0x8e, 0x5e, 0x2b), (0xb8, 0xda, 0xb2, 0x0f), (0xfa, 0xdb, 0x52, 0xe8));
  }

  lemma StreamIs3()
    ensures Row(OneFinal(), 3) == Stream3()
  {
  }

  lemma Line3()
    ensures Xored(Plain3(), Stream3()) == Cipher3()
  {
    XoredZip(Plain3(), Stream3());
    hide Zip, Xored;
    Zipped(XorByte, (0x6f, 0x75, 0x6c, 0x64), (0x20, 0x6f, 0x66, 0x66), (0x65, 0x72, 0x20, 0x79), (0x6f, 0x75, 0x20, 0x6f),
           (0x75, 0x04, 0xb2, 0x6e), (0xbe, 0x69, 0x6d, 0x4f), (0x60, 0xa4, 0x85, 0xcf), (0x11, 0xb8, 0x1b, 0x59));
  }

  lemma StreamIs4()
    ensures Row(TwoFinal(), 0) == Stream4()
  {
  }

  lemma Line4()
    ensures Xored(Plain4(), Stream4()) == Cipher4()
  {
    XoredZip(Plain4(), Stream4());
    hide Zip, Xored;
    Zipped(XorByte, (0x6e, 0x6c, 0x79, 0x20), (0x6f, 0x6e, 0x65, 0x20), (0x74, 0x69, 0x70, 0x20), (0x66, 0x6f, 0x72, 0x20),
           (0xfc, 0xb1, 0xc4, 0x5f), (0x42, 0x19, 0xee, 0xac), (0xec, 0x6a, 0xde, 0xc3), (0x4e, 0x66, 0x69, 0x78));
  }

  lemma StreamIs5()
    ensures Row(TwoFinal(), 1) == Stream5()
  {
  }

  lemma Line5()
    ensures Xored(Plain5(), Stream5()) == Cipher5()
  {
    XoredZip(Plain5(), Stream5());
    hide Zip, Xored;
    Zipped(XorByte, (0x74, 0x68, 0x65, 0x20), (0x66, 0x75, 0x74, 0x75), (0x72, 0x65, 0x2c, 0x20), (0x73, 0x75, 0x6e, 0x73),
           (0x8e, 0xdb, 0x41, 0xc4), (0x9c, 0xa3, 0x01, 0xe1), (0x27, 0xe0, 0xac, 0xab), (0x3b, 0x44, 0xb9, 0xcf));
  }

  lemma StreamIs6()
    ensures Row(TwoFinal(), 2) == Stream6()
  {
  }

  lemma Line6()
    ensures Xored(Plain6(), Stream6()) == Cipher6()
  {
    XoredZip(Plain6(), Stream6());
    hide Zip, Xored;
    Zipped(XorByte, (0x63, 0x72, 0x65, 0x65), (0x6e, 0x20, 0x77, 0x6f), (0x75, 0x6c, 0x64, 0x20), (0x62, 0x65, 0x20, 0x69),
           (0x5c, 0x86, 0xbb, 0x95), (0xe0, 0x6b, 0x0d, 0xf2), (0x90, 0x1a, 0xb6, 0x45), (0xe4, 0xab, 0xe6, 0x22));
  }

  lemma StreamIs7()
    ensures Row(TwoFinal(), 3) == Stream7()
  {
  }

  lemma Line7()
    ensures Xored(Plain7(), Stream7()) == Cipher7()
  {
  }

  lemma {:induction false} XoredZip(s: seq<Octet>, t: seq<Octet>)
    requires |s| == |t|
    ensures Xored(s, t) == Zip(XorByte, s, t)
  {
    hide XorByte;
  }

  function Message(): (s: seq<Octet>)
    ensures |s| == 114
  {
    (Plain0() + Plain1() + Plain2() + Plain3()) + (Plain4() + Plain5() + Plain6() + Plain7())
  }

  function Ciphertext(): (s: seq<Octet>)
    ensures |s| == 114
  {
    (Cipher0() + Cipher1() + Cipher2() + Cipher3()) + (Cipher4() + Cipher5() + Cipher6() + Cipher7())
  }

  lemma {:induction false} XoredConcat(a: seq<Octet>, b: seq<Octet>, s: seq<Octet>, t: seq<Octet>)
    requires |a| == |s| && |b| <= |t|
    ensures Xored(a + b, s + t) == Xored(a, s) + Xored(b, t)
  {
    hide XorByte;
  }

  lemma {:induction false} XoredLines(a: seq<Octet>, b: seq<Octet>, c: seq<Octet>, d: seq<Octet>,
                                      s: seq<Octet>, t: seq<Octet>, u: seq<Octet>, v: seq<Octet>)
    requires |a| == |s| && |b| == |t| && |c| == |u| && |d| <= |v|
    ensures Xored(a + b + c + d, s + t + u + v) == Xored(a, s) + Xored(b, t) + Xored(c, u) + Xored(d, v)
  {
    hide Xored;
    XoredConcat(a, b, s, t);
    XoredConcat(a + b, c, s + t, u);
    XoredConcat(a + b + c, d, s + t + u, v);
  }

  lemma {:induction false} FirstHalf()
    ensures Xored(Message()[..64], Block(CountingKey(0x80), 1, Nonce8())) == Ciphertext()[..64]
  {
    hide Xored, Block, CountingKey, Nonce8, Row, OneFinal, Plain0, Stream0, Cipher0, Plain1, Stream1, Cipher1, Plain2,
         Stream2, Cipher2, Plain3, Stream3, Cipher3, Plain4, Stream4, Cipher4, Plain5, Stream5, Cipher5, Plain6,
         Stream6, Cipher6, Plain7, Stream7, Cipher7;
    OneBlock();
    StreamIs0();
    StreamIs1();
    StreamIs2();
    StreamIs3();
    Line0();
    Line1();
    Line2();
    Line3();
    XoredLines(Plain0(), Plain1(), Plain2(), Plain3(), Stream0(), Stream1(), Stream2(), Stream3());
    assert Message()[..64] == Plain0() + Plain1() + Plain2() + Plain3();
    assert Ciphertext()[..64] == Cipher0() + Cipher1() + Cipher2() + Cipher3();
  }

  lemma {:induction false} SecondHalf()
    ensures Xored(Message()[64..], Block(CountingKey(0x80), 2, Nonce8())) == Ciphertext()[64..]
  {
    hide Xored, Block, CountingKey, Nonce8, Row, TwoFinal, Plain0, Stream0, Cipher0, Plain1, Stream1, Cipher1, Plain2,
         Stream2, Cipher2, Plain3, Stream3, Cipher3, Plain4, Stream4, Cipher4, Plain5, Stream5, Cipher5, Plain6,
         Stream6, Cipher6, Plain7, Stream7, Cipher7;
    TwoBlock();
    StreamIs4();
    StreamIs5();
    StreamIs6();
    StreamIs7();
    Line4();
    Line5();
    Line6();
    Line7();
    XoredLines(Plain4(), Plain5(), Plain6(), Plain7(), Stream4(), Stream5(), Stream6(), Stream7());
    assert Message()[64..] == Plain4() + Plain5() + Plain6() + Plain7();
    assert Ciphertext()[64..] == Cipher4() + Cipher5() + Cipher6() + Cipher7();
  }

  lemma Second()
    ensures Later(1, 0) == 1 && Later(1, 1) == 2
  {
  }

  lemma {:induction false} CryptVector()
    ensures Crypt(CountingKey(0x80), 1, Nonce8(), Message()) == Ciphertext()
  {
    hide Crypt, Xored, Block, CountingKey, Nonce8, Message, Ciphertext, Later;
    var m, c := Message(), Crypt(CountingKey(0x80), 1, Nonce8(), Message());
    FirstHalf();
    SecondHalf();
    Second();
    StreamBlock(CountingKey(0x80), 1, Nonce8(), m, 0, 64);
    StreamBlock(CountingKey(0x80), 1, Nonce8(), m, 64, 50);
    assert m[0..64] == m[..64] && m[64..114] == m[64..];
    assert c == c[0..64] + c[64..114];
    assert Ciphertext() == Ciphertext()[..64] + Ciphertext()[64..];
  }

  // ---- the tag ---------------------------------------------------------------------------------

  function Aad(): (s: seq<Octet>)
    ensures |s| == 12
  {
    [0x50, 0x51, 0x52, 0x53, 0xc0, 0xc1, 0xc2, 0xc3, 0xc4, 0xc5, 0xc6, 0xc7]
  }

  function Data0(): (s: seq<Byte>)
    ensures |s| == 16
  {
    [0x50, 0x51, 0x52, 0x53, 0xc0, 0xc1, 0xc2, 0xc3, 0xc4, 0xc5, 0xc6, 0xc7, 0x00, 0x00, 0x00, 0x00]
  }

  function Data1(): (s: seq<Byte>)
    ensures |s| == 16
  {
    [0xd3, 0x1a, 0x8d, 0x34, 0x64, 0x8e, 0x60, 0xdb, 0x7b, 0x86, 0xaf, 0xbc, 0x53, 0xef, 0x7e, 0xc2]
  }

  function Data2(): (s: seq<Byte>)
    ensures |s| == 16
  {
    [0xa4, 0xad, 0xed, 0x51, 0x29, 0x6e, 0x08, 0xfe, 0xa9, 0xe2, 0xb5, 0xa7, 0x36, 0xee, 0x62, 0xd6]
  }

  function Data3(): (s: seq<Byte>)
    ensures |s| == 16
  {
    [0x3d, 0xbe, 0xa4, 0x5e, 0x8c, 0xa9, 0x67, 0x12, 0x82, 0xfa, 0xfb, 0x69, 0xda, 0x92, 0x72, 0x8b]
  }

  function Data4(): (s: seq<Byte>)
    ensures |s| == 16
  {
    [0x1a, 0x71, 0xde, 0x0a, 0x9e, 0x06, 0x0b, 0x29, 0x05, 0xd6, 0xa5, 0xb6, 0x7e, 0xcd, 0x3b, 0x36]
  }

  function Data5(): (s: seq<Byte>)
    ensures |s| == 16
  {
    [0x92, 0xdd, 0xbd, 0x7f, 0x2d, 0x77, 0x8b, 0x8c, 0x98, 0x03, 0xae, 0xe3, 0x28, 0x09, 0x1b, 0x58]
  }

  function Data6(): (s: seq<Byte>)
    ensures |s| == 16
  {
    [0xfa, 0xb3, 0x24, 0xe4, 0xfa, 0xd6, 0x75, 0x94, 0x55, 0x85, 0x80, 0x8b, 0x48, 0x31, 0xd7, 0xbc]
  }

  function Data7(): (s: seq<Byte>)
    ensures |s| == 16
  {
    [0x3f, 0xf4, 0xde, 0xf0, 0x8e, 0x4b, 0x7a, 0x9d, 0xe5, 0x76, 0xd2, 0x65, 0x86, 0xce, 0xc6, 0x4b]
  }

  function Data8(): (s: seq<Byte>)
    ensures |s| == 16
  {
    [0x61, 0x16, 0x00, 0x00, 0x00, 0x00, 0x00, 0x00, 0x00, 0x00, 0x00, 0x00, 0x00, 0x00, 0x00, 0x00]
  }

  function Data9(): (s: seq<Byte>)
    ensures |s| == 16
  {
    [0x0c, 0x00, 0x00, 0x00, 0x00, 0x00, 0x00, 0x00, 0x72, 0x00, 0x00, 0x00, 0x00, 0x00, 0x00, 0x00]
  }

  lemma Nums1()
    ensures Nums(Cipher0()) == Data1()
  {
  }

  lemma Nums2()
    ensures Nums(Cipher1()) == Data2()
  {
  }

  lemma Nums3()
    ensures Nums(Cipher2()) == Data3()
  {
  }

  lemma Nums4()
    ensures Nums(Cipher3()) == Data4()
  {
  }

  lemma Nums5()
    ensures Nums(Cipher4()) == Data5()
  {
  }

  lemma Nums6()
    ensures Nums(Cipher5()) == Data6()
  {
  }

  lemma Nums7()
    ensures Nums(Cipher6()) == Data7()
  {
  }

  lemma Step0()
    ensures (0x0 + BlockNum(Data0())) * 0x455e9a4_057ab608_0f47b42c_052bac7b % P == 0x1_bb22680b_abc3dcdc_0a0c9a38_3695c4a3
  {
    hide LeNum, BlockNum;
    FullBlock(Data0());
    LeNumAt(Data0());
  }

  lemma Step1()
    ensures (0x1_bb22680b_abc3dcdc_0a0c9a38_3695c4a3 + BlockNum(Data1())) * 0x455e9a4_057ab608_0f47b42c_052bac7b % P
         == 0x2_c2889271_8bbf4b43_9094be1a_6c562472
  {
    hide LeNum, BlockNum;
    FullBlock(Data1());
    LeNumAt(Data1());
  }

  lemma Step2()
    ensures (0x2_c2889271_8bbf4b43_9094be1a_6c562472 + BlockNum(Data2())) * 0x455e9a4_057ab608_0f47b42c_052bac7b % P
         == 0xeac8e912_bae4da39_e51785ab_d7d75a22
  {
    hide LeNum, BlockNum;
    FullBlock(Data2());
    LeNumAt(Data2());
  }

  lemma Step3()
    ensures (0xeac8e912_bae4da39_e51785ab_d7d75a22 + BlockNum(Data3())) * 0x455e9a4_057ab608_0f47b42c_052bac7b % P
         == 0x2_e436ba90_aad02f9f_26f5ba1f_b88aa27e
  {
    hide LeNum, BlockNum;
    FullBlock(Data3());
    LeNumAt(Data3());
  }

  lemma Step4()
    ensures (0x2_e436ba90_aad02f9f_26f5ba1f_b88aa27e + BlockNum(Data4())) * 0x455e9a4_057ab608_0f47b42c_052bac7b % P
         == 0x3_1f99048e_9c70cca6_00087c40_6d08158b
  {
    hide LeNum, BlockNum;
    FullBlock(Data4());
    LeNumAt(Data4());
  }

  lemma Step5()
    ensures (0x3_1f99048e_9c70cca6_00087c40_6d08158b + BlockNum(Data5())) * 0x455e9a4_057ab608_0f47b42c_052bac7b % P
         == 0x3_54f95352_0211257e_35c6d4de_fa90b0be
  {
    hide LeNum, BlockNum;
    FullBlock(Data5());
    LeNumAt(Data5());
  }

  lemma Step6()
    ensures (0x3_54f95352_0211257e_35c6d4de_fa90b0be + BlockNum(Data6())) * 0x455e9a4_057ab608_0f47b42c_052bac7b % P
         == 0x2_4a6f8710_0374b108_dc05c7e1_5ec3bdfd
  {
    hide LeNum, BlockNum;
    FullBlock(Data6());
    LeNumAt(Data6());
  }

  lemma Step7()
    ensures (0x2_4a6f8710_0374b108_dc05c7e1_5ec3bdfd + BlockNum(Data7())) * 0x455e9a4_057ab608_0f47b42c_052bac7b % P
         == 0xc3349da1_9703f736_bc0fd003_f69230ec
  {
    hide LeNum, BlockNum;
    FullBlock(Data7());
    LeNumAt(Data7());
  }

  lemma Step8()
    ensures (0xc3349da1_9703f736_bc0fd003_f69230ec + BlockNum(Data8())) * 0x455e9a4_057ab608_0f47b42c_052bac7b % P
         == 0x3_a0ca8e12_eb289ffe_3e49c453_3704051d
  {
    hide LeNum, BlockNum;
    FullBlock(Data8());
    LeNumAt(Data8());
  }

  lemma Step9()
    ensures (0x3_a0ca8e12_eb289ffe_3e49c453_3704051d + BlockNum(Data9())) * 0x455e9a4_057ab608_0f47b42c_052bac7b % P
         == 0x1_91b28b92_52b8fd53_7f08943e_e5350010
  {
    hide LeNum, BlockNum;
    FullBlock(Data9());
    LeNumAt(Data9());
  }

  lemma {:induction false} NumsConcat(s: seq<Octet>, t: seq<Octet>)
    ensures Nums(s + t) == Nums(s) + Nums(t)
  {
  }

  lemma FirstData()
    ensures Nums(Aad()) + Padding(12) == Data0()
  {
  }

  lemma LastData()
    ensures Nums(Cipher7()) + Padding(114) == Data8()
    ensures LeBytes(12, 8) + LeBytes(114, 8) == Data9()
  {
  }

  lemma {:induction false} CipherNums()
    ensures Nums(Ciphertext()) == Data1() + Data2() + Data3() + Data4() + (Data5() + Data6() + Data7() + Nums(Cipher7()))
  {
    hide Nums, Cipher0, Data1, Cipher1, Data2, Cipher2, Data3, Cipher3, Data4, Cipher4, Data5, Cipher5, Data6, Cipher6,
         Data7, Cipher7, Data8;
    NumsConcat(Cipher0() + Cipher1() + Cipher2() + Cipher3(), Cipher4() + Cipher5() + Cipher6() + Cipher7());
    NumsConcat(Cipher0() + Cipher1() + Cipher2(), Cipher3());
    NumsConcat(Cipher0() + Cipher1(), Cipher2());
    NumsConcat(Cipher0(), Cipher1());
    NumsConcat(Cipher4() + Cipher5() + Cipher6(), Cipher7());
    NumsConcat(Cipher4() + Cipher5(), Cipher6());
    NumsConcat(Cipher4(), Cipher5());
    Nums1();
    Nums2();
    Nums3();
    Nums4();
    Nums5();
    Nums6();
    Nums7();
  }

  lemma {:induction false} Joined<T>(a: seq<T>, b: seq<T>, c: seq<T>, d: seq<T>, e: seq<T>, f: seq<T>, g: seq<T>,
         h: seq<T>, i: seq<T>,
                                     p: seq<T>, q: seq<T>, x: seq<T>, y: seq<T>)
    ensures a + p + (b + c + d + e + (f + g + h + i)) + q + x + y == (a + p) + b + c + d + e + f + g + h + (i + q) + (x + y)
  {
  }

  lemma {:induction false} DataIs()
    ensures MacData(Nums(Aad()), Nums(Ciphertext()))
         == Data0() + Data1() + Data2() + Data3() + Data4() + Data5() + Data6() + Data7() + Data8() + Data9()
  {
    CipherNums();
    FirstData();
    LastData();
    hide Nums, Padding, LeBytes, Aad, Ciphertext, Cipher7, Data0, Data1, Data2, Data3, Data4, Data5, Data6, Data7, Data8, Data9;
    Joined(Nums(Aad()), Data1(), Data2(), Data3(), Data4(), Data5(), Data6(), Data7(), Nums(Cipher7()),
           Padding(12), Padding(114), LeBytes(12, 8), LeBytes(114, 8));
  }

  /** One block more. */
  lemma {:induction false} AbsorbRow(acc: nat, r: nat, front: seq<Byte>, row: seq<Byte>)
    requires |front| % 16 == 0 && |row| == 16
    ensures Absorb(acc, r, front + row) == (Absorb(acc, r, front) + BlockNum(row)) * r % P
  {
    hide BlockNum;
    AbsorbConcat(acc, r, front, row);
  }

  lemma {:induction false} AbsorbVector()
    ensures Absorb(0, 0x455e9a4_057ab608_0f47b42c_052bac7b, Data0() + Data1() + Data2() + Data3() + Data4() + Data5()
           + Data6() + Data7() + Data8() + Data9()) == 0x1_91b28b92_52b8fd53_7f08943e_e5350010
  {
    hide Absorb, BlockNum, Data0, Data1, Data2, Data3, Data4, Data5, Data6, Data7, Data8, Data9;
    var r := 0x455e9a4_057ab608_0f47b42c_052bac7b;
    AbsorbNone(r);
    assert [] + Data0() == Data0();
    AbsorbRow(0, r, [], Data0());
    Step0();
    AbsorbRow(0, r, Data0(), Data1());
    Step1();
    AbsorbRow(0, r, Data0() + Data1(), Data2());
    Step2();
    AbsorbRow(0, r, Data0() + Data1() + Data2(), Data3());
    Step3();
    AbsorbRow(0, r, Data0() + Data1() + Data2() + Data3(), Data4());
    Step4();
    AbsorbRow(0, r, Data0() + Data1() + Data2() + Data3() + Data4(), Data5());
    Step5();
    AbsorbRow(0, r, Data0() + Data1() + Data2() + Data3() + Data4() + Data5(), Data6());
    Step6();
    AbsorbRow(0, r, Data0() + Data1() + Data2() + Data3() + Data4() + Data5() + Data6(), Data7());
    Step7();
    AbsorbRow(0, r, Data0() + Data1() + Data2() + Data3() + Data4() + Data5() + Data6() + Data7(), Data8());
    Step8();
    AbsorbRow(0, r, Data0() + Data1() + Data2() + Data3() + Data4() + Data5() + Data6() + Data7() + Data8(), Data9());
    Step9();
  }

  lemma AbsorbNone(r: nat)
    ensures Absorb(0, r, []) == 0
  {
  }

  function KeyR(): (s: seq<Byte>)
    ensures |s| == 16
  {
    [0x7b, 0xac, 0x2b, 0x25, 0x2d, 0xb4, 0x47, 0xaf, 0x09, 0xb6, 0x7a, 0x55, 0xa4, 0xe9, 0x55, 0x84]
  }

  function KeyClamped(): (s: seq<Byte>)
    ensures |s| == 16
  {
    [0x7b, 0xac, 0x2b, 0x05, 0x2c, 0xb4, 0x47, 0x0f, 0x08, 0xb6, 0x7a, 0x05, 0xa4, 0xe9, 0x55, 0x04]
  }

  function KeyS(): (s: seq<Byte>)
    ensures |s| == 16
  {
    [0x0a, 0xe1, 0xd6, 0x73, 0x10, 0x75, 0xd9, 0xeb, 0x2a, 0x93, 0x75, 0x78, 0x3e, 0xd5, 0x53, 0xff]
  }

  function TagBytes(): (s: seq<Byte>)
    ensures |s| == 16
  {
    [0x1a, 0xe1, 0x0b, 0x59, 0x4f, 0x09, 0xe2, 0x6a, 0x7e, 0x90, 0x2e, 0xcb, 0xd0, 0x60, 0x06, 0x91]
  }

  function TagRow(): (s: seq<Octet>)
    ensures |s| == 16
  {
    [0x1a, 0xe1, 0x0b, 0x59, 0x4f, 0x09, 0xe2, 0x6a, 0x7e, 0x90, 0x2e, 0xcb, 0xd0, 0x60, 0x06, 0x91]
  }

  lemma KeyRow0()
    ensures Nums(Row(ZeroFinal(), 0)) == KeyR()
  {
  }

  lemma KeyRow1()
    ensures Nums(Row(ZeroFinal(), 1)) == KeyS()
  {
  }

  lemma ClampIs()
    ensures Clamp(KeyR()) == KeyClamped()
  {
  }

  lemma KeyNums()
    ensures LeNum(KeyClamped()) == 0x455e9a4_057ab608_0f47b42c_052bac7b && LeNum(KeyS()) == 0xff53d53e_7875932a_ebd97510_73d6e10a
    ensures LeNum(TagBytes()) == 0x910660d0_cb2e907e_6ae2094f_590be11a
  {
    hide LeNum;
    LeNumAt(KeyClamped());
    LeNumAt(KeyS());
    LeNumAt(TagBytes());
  }

  lemma {:induction false} OctetsNums(s: seq<Octet>)
    ensures Octets(Nums(s)) == s
  {
    var t := Octets(Nums(s));
    forall i | 0 <= i < |s| ensures t[i] == s[i] {
      assert Nums(s)[i] == s[i] as Byte;
    }
  }

  lemma TagNums()
    ensures Nums(TagRow()) == TagBytes()
  {
  }

  lemma {:induction false} KeyVector()
    ensures Nums(OneTimeKey(CountingKey(0x80), Nonce8())) == KeyR() + KeyS()
  {
    hide Nums, Block, CountingKey, Nonce8, Row, ZeroFinal, KeyR, KeyS;
    ZeroBlock();
    KeyRow0();
    KeyRow1();
    NumsConcat(Row(ZeroFinal(), 0), Row(ZeroFinal(), 1));
    assert OneTimeKey(CountingKey(0x80), Nonce8()) == Row(ZeroFinal(), 0) + Row(ZeroFinal(), 1);
  }

  lemma {:induction false} TagVector()
    ensures Tag(KeyR() + KeyS(), Data0() + Data1() + Data2() + Data3() + Data4() + Data5() + Data6() + Data7()
           + Data8() + Data9()) == TagBytes()
  {
    hide LeNum, LeBytes, Absorb, Clamp, KeyR, KeyS, KeyClamped, TagBytes, Data0, Data1, Data2, Data3, Data4, Data5,
         Data6, Data7, Data8, Data9;
    var k := KeyR() + KeyS();
    assert k[..16] == KeyR() && k[16..] == KeyS();
    ClampIs();
    KeyNums();
    AbsorbVector();
    assert (0x1_91b28b92_52b8fd53_7f08943e_e5350010 + 0xff53d53e_7875932a_ebd97510_73d6e10a) % TWO128 == 0x910660d0_cb2e907e_6ae2094f_590be11a;
    SixteenBytes(TagBytes());
    LeNumInjective(LeBytes(0x910660d0_cb2e907e_6ae2094f_590be11a, 16), TagBytes());
  }

  lemma {:induction false} MacVector()
    ensures Mac(CountingKey(0x80), Nonce8(), Aad(), Ciphertext()) == TagRow()
  {
    hide Nums, Octets, Tag, MacData, CountingKey, Nonce8, Aad, Ciphertext, OneTimeKey, KeyR, KeyS, TagBytes, TagRow,
         Data0, Data1, Data2, Data3, Data4, Data5, Data6, Data7, Data8, Data9;
    KeyVector();
    DataIs();
    TagVector();
    TagNums();
    OctetsNums(TagRow());
  }

  /** Encrypting the example gives the ciphertext and the tag of the standard, and decrypting
      them the example. */
  lemma {:induction false} SealVector()
    ensures Seal(CountingKey(0x80), Nonce8(), Aad(), Message()) == Ciphertext() + TagRow()
    ensures Open(CountingKey(0x80), Nonce8(), Aad(), Ciphertext() + TagRow()) == Some(Message())
  {
    hide Crypt, Mac, Open, CountingKey, Nonce8, Aad, Message, Ciphertext, TagRow;
    CryptVector();
    MacVector();
    OpenSealed(CountingKey(0x80), Nonce8(), Aad(), Message());
  }
}
