/** The first and third examples of the test suite in appendix A.5 of RFC 1321, computed four
    operations at a time: they fix every constant, shift and byte order of the definitions. */
module Rfc1321Examples {
  import opened Rfc1321
  import Md5

  /** Four operations of a round take the registers s to t. */
  ghost predicate Leads(X: seq<Word>, round: nat, n: nat, s: State, t: State)
    requires round < 4 && |X| == 16 && n + 4 <= 16
  {
    && Operation(round, X, n, s) == t.a
    && Operation(round, X, n + 1, Registers(s.d, t.a, s.b, s.c)) == t.d
    && Operation(round, X, n + 2, Registers(s.c, t.d, t.a, s.b)) == t.c
    && Operation(round, X, n + 3, Registers(s.b, t.c, t.d, t.a)) == t.b
  }

  lemma FourSteps(X: seq<Word>, round: nat, n: nat, s: State, x0: Word, x1: Word, x2: Word, x3: Word,
                  t0: Word, t1: Word, t2: Word, t3: Word, s0: nat, s1: nat, s2: nat, s3: nat, t: State)
    requires round < 4 && |X| == 16 && n + 4 <= 16 && s0 <= 32 && s1 <= 32 && s2 <= 32 && s3 <= 32
    requires X[Schedule(round, n)] == x0 && X[Schedule(round, n + 1)] == x1
    requires X[Schedule(round, n + 2)] == x2 && X[Schedule(round, n + 3)] == x3
    requires T(round, n) == t0 && T(round, n + 1) == t1 && T(round, n + 2) == t2 && T(round, n + 3) == t3
    requires Shift(round, n) == s0 && Shift(round, n + 1) == s1
    requires Shift(round, n + 2) == s2 && Shift(round, n + 3) == s3
    requires Mixed(s.a, s.b, Auxiliary(round, s.b, s.c, s.d), x0, t0, s0) == t.a
    requires Mixed(s.d, t.a, Auxiliary(round, t.a, s.b, s.c), x1, t1, s1) == t.d
    requires Mixed(s.c, t.d, Auxiliary(round, t.d, t.a, s.b), x2, t2, s2) == t.c
    requires Mixed(s.b, t.c, Auxiliary(round, t.c, t.d, t.a), x3, t3, s3) == t.b
    ensures Leads(X, round, n, s, t)
  {
    hide Mixed, Auxiliary, Schedule, T, Shift;
  }

  lemma FourMore(st: State, X: seq<Word>, round: nat, n: nat, s: State, t: State)
    requires round < 4 && |X| == 16 && n + 4 <= 16
    requires Operations(st, X, round, n) == s && Leads(X, round, n, s, t)
    ensures Operations(st, X, round, n + 4) == t
  {
    hide Operation, Operations;
    Md5.FourOperations(st, X, round, n);
  }

  lemma WholeRound(X: seq<Word>, round: nat, s0: State, s1: State, s2: State, s3: State, s4: State)
    requires round < 4 && |X| == 16
    requires Leads(X, round, 0, s0, s1) && Leads(X, round, 4, s1, s2)
    requires Leads(X, round, 8, s2, s3) && Leads(X, round, 12, s3, s4)
    ensures Operations(s0, X, round, 16) == s4
  {
    hide Leads, Operations;
    NoOperations(s0, X, round);
    FourMore(s0, X, round, 0, s0, s1);
    FourMore(s0, X, round, 4, s1, s2);
    FourMore(s0, X, round, 8, s2, s3);
    FourMore(s0, X, round, 12, s3, s4);
  }

  lemma NoOperations(st: State, X: seq<Word>, round: nat)
    requires round < 4 && |X| == 16
    ensures Operations(st, X, round, 0) == st
  {
  }

  lemma FourRounds(X: seq<Word>, r0: State, r1: State, r2: State, r3: State, r4: State)
    requires |X| == 16
    requires Operations(r0, X, 0, 16) == r1 && Operations(r1, X, 1, 16) == r2
    requires Operations(r2, X, 2, 16) == r3 && Operations(r3, X, 3, 16) == r4
    ensures Compress(r0, X) == Registers(r0.a + r4.a, r0.b + r4.b, r0.c + r4.c, r0.d + r4.d)
  {
    hide Operations, Rounds;
    AllRounds(r0, X, r1, r2, r3, r4);
  }

  lemma AllRounds(r0: State, X: seq<Word>, r1: State, r2: State, r3: State, r4: State)
    requires |X| == 16
    requires Operations(r0, X, 0, 16) == r1 && Operations(r1, X, 1, 16) == r2
    requires Operations(r2, X, 2, 16) == r3 && Operations(r3, X, 3, 16) == r4
    ensures Rounds(r0, X, 4) == r4
  {
    hide Operations, Rounds;
    Md5.NoRounds(r0, X);
    Md5.NextRound(r0, X, 0, r0);
    Md5.NextRound(r0, X, 1, r1);
    Md5.NextRound(r0, X, 2, r2);
    Md5.NextRound(r0, X, 3, r3);
  }

  /** The digest of a message of one block. */
  lemma OneBlock(msg: seq<Byte>, X: seq<Word>, st: State)
    requires |Padded(msg)| == 64 && X == WordsOf(Padded(msg)) && Compress(INIT, X) == st
    ensures Digest(msg) == Output(st)
  {
    hide Compress, WordsOf, Padded, Output;
    var p := Padded(msg);
    assert p[..|p| - 64] == [] && p[|p| - 64..] == p;
    assert Absorb(INIT, []) == INIT;
  }

  lemma {:induction false} ZeroBytes(n: nat)
    ensures LowBytes(0, n) == Zeros(n)
  {
    if n > 0 {
      ZeroBytes(n - 1);
    }
  }

  lemma SmallWord(b: Byte)
    ensures WordOf([b, 0, 0, 0]) == b as Word
  {
  }

  lemma SmallLength(x: Byte)
    ensures LowBytes(x as nat, 8) == [x] + Zeros(7)
  {
    hide LowBytes;
    LowDigit(x as nat, x as nat, x, 0, 7);
    ZeroBytes(7);
  }

  lemma ShortPadding(msg: seq<Byte>, bits: Byte)
    requires |msg| < 4 && bits as nat == 8 * |msg|
    ensures |Padded(msg)| == 64 && Padded(msg)[..4] == (msg + [0x80] + Zeros(3))[..4]
    ensures forall k :: 4 <= k < 64 ==> Padded(msg)[k] == if k == 56 then bits else 0
  {
    hide LowBytes;
    SmallLength(bits);
    assert Padded(msg) == msg + [0x80] + Zeros(55 - |msg|) + ([bits] + Zeros(7));
  }

  /** The words of the block of a message that leaves room in its first word. */
  lemma WordsOfShort(msg: seq<Byte>, bits: Byte, X: seq<Word>)
    requires |msg| < 4 && bits as nat == 8 * |msg| && |X| == 16
    requires X[0] == WordOf((msg + [0x80] + Zeros(3))[..4]) && X[14] == bits as Word
    requires forall i :: 1 <= i < 16 && i != 14 ==> X[i] == 0
    ensures |Padded(msg)| == 64 && WordsOf(Padded(msg)) == X
  {
    hide WordOf, LowBytes, Padded;
    var p := Padded(msg);
    ShortPadding(msg, bits);
    SmallWord(0);
    SmallWord(bits);
    forall i | 1 <= i < 16
      ensures WordOf(p[4 * i..4 * i + 4]) == X[i]
    {
      var first: Byte := if i == 14 then bits else 0;
      assert p[4 * i] == first && p[4 * i + 1] == 0 && p[4 * i + 2] == 0 && p[4 * i + 3] == 0;
      assert p[4 * i..4 * i + 4] == [first, 0, 0, 0];
    }
  }

  // ---------- The empty message ----------

  const EMPTY_WORDS: seq<Word> := [0x80, 0, 0, 0, 0, 0, 0, 0, 0, 0, 0, 0, 0, 0, 0, 0]

  lemma EmptyStep0()
    ensures Leads(EMPTY_WORDS, 0, 0, Registers(0x67452301, 0xefcdab89, 0x98badcfe, 0x10325476),
                  Registers(0xa5202774, 0x1b163203, 0xe7f06b23, 0xf59592dd))
  {
    hide Leads;
    FourSteps(EMPTY_WORDS, 0, 0, Registers(0x67452301, 0xefcdab89, 0x98badcfe, 0x10325476),
              0x80, 0, 0, 0, 0xd76aa478, 0xe8c7b756, 0x242070db, 0xc1bdceee, 7, 12, 17, 22,
              Registers(0xa5202774, 0x1b163203, 0xe7f06b23, 0xf59592dd));
  }

  lemma EmptyStep1()
    ensures Leads(EMPTY_WORDS, 0, 4, Registers(0xa5202774, 0x1b163203, 0xe7f06b23, 0xf59592dd),
                  Registers(0x32033344, 0x9bc13ce9, 0xf5b158db, 0x2f35d494))
  {
    hide Leads;
    FourSteps(EMPTY_WORDS, 0, 4, Registers(0xa5202774, 0x1b163203, 0xe7f06b23, 0xf59592dd),
              0, 0, 0, 0, 0xf57c0faf, 0x4787c62a, 0xa8304613, 0xfd469501, 7, 12, 17, 22,
              Registers(0x32033344, 0x9bc13ce9, 0xf5b158db, 0x2f35d494));
  }

  lemma EmptyStep2()
    ensures Leads(EMPTY_WORDS, 0, 8, Registers(0x32033344, 0x9bc13ce9, 0xf5b158db, 0x2f35d494),
                  Registers(0x3893b991, 0x70768a29, 0xe1ef0576, 0xfce4a312))
  {
    hide Leads;
    FourSteps(EMPTY_WORDS, 0, 8, Registers(0x32033344, 0x9bc13ce9, 0xf5b158db, 0x2f35d494),
              0, 0, 0, 0, 0x698098d8, 0x8b44f7af, 0xffff5bb1, 0x895cd7be, 7, 12, 17, 22,
              Registers(0x3893b991, 0x70768a29, 0xe1ef0576, 0xfce4a312));
  }

  lemma EmptyStep3()
    ensures Leads(EMPTY_WORDS, 0, 12, Registers(0x3893b991, 0x70768a29, 0xe1ef0576, 0xfce4a312),
                  Registers(0xf56c7cf1, 0xd6819c6a, 0x5aa53f75, 0x374943a7))
  {
    hide Leads;
    FourSteps(EMPTY_WORDS, 0, 12, Registers(0x3893b991, 0x70768a29, 0xe1ef0576, 0xfce4a312),
              0, 0, 0, 0, 0x6b901122, 0xfd987193, 0xa679438e, 0x49b40821, 7, 12, 17, 22,
              Registers(0xf56c7cf1, 0xd6819c6a, 0x5aa53f75, 0x374943a7));
  }

  lemma EmptyStep4()
    ensures Leads(EMPTY_WORDS, 1, 0, Registers(0xf56c7cf1, 0xd6819c6a, 0x5aa53f75, 0x374943a7),
                  Registers(0x1c7d7513, 0xbd782e17, 0xc095f13a, 0x7bd57a3a))
  {
    hide Leads;
    FourSteps(EMPTY_WORDS, 1, 0, Registers(0xf56c7cf1, 0xd6819c6a, 0x5aa53f75, 0x374943a7),
              0, 0, 0, 0x80, 0xf61e2562, 0xc040b340, 0x265e5a51, 0xe9b6c7aa, 5, 9, 14, 20,
              Registers(0x1c7d7513, 0xbd782e17, 0xc095f13a, 0x7bd57a3a));
  }

  lemma EmptyStep5()
    ensures Leads(EMPTY_WORDS, 1, 4, Registers(0x1c7d7513, 0xbd782e17, 0xc095f13a, 0x7bd57a3a),
                  Registers(0x3d1e3e6c, 0xe422531a, 0xeb41643e, 0x68b7b3e3))
  {
    hide Leads;
    FourSteps(EMPTY_WORDS, 1, 4, Registers(0x1c7d7513, 0xbd782e17, 0xc095f13a, 0x7bd57a3a),
              0, 0, 0, 0, 0xd62f105d, 0x02441453, 0xd8a1e681, 0xe7d3fbc8, 5, 9, 14, 20,
              Registers(0x3d1e3e6c, 0xe422531a, 0xeb41643e, 0x68b7b3e3));
  }

  lemma EmptyStep6()
    ensures Leads(EMPTY_WORDS, 1, 8, Registers(0x3d1e3e6c, 0xe422531a, 0xeb41643e, 0x68b7b3e3),
                  Registers(0x306ec122, 0xa0572807, 0xa3c663da, 0xd28c77c2))
  {
    hide Leads;
    FourSteps(EMPTY_WORDS, 1, 8, Registers(0x3d1e3e6c, 0xe422531a, 0xeb41643e, 0x68b7b3e3),
              0, 0, 0, 0, 0x21e1cde6, 0xc33707d6, 0xf4d50d87, 0x455a14ed, 5, 9, 14, 20,
              Registers(0x306ec122, 0xa0572807, 0xa3c663da, 0xd28c77c2));
  }

  lemma EmptyStep7()
    ensures Leads(EMPTY_WORDS, 1, 12, Registers(0x306ec122, 0xa0572807, 0xa3c663da, 0xd28c77c2),
                  Registers(0x13707036, 0xa2205f1f, 0x1c31c384, 0xae7813db))
  {
    hide Leads;
    FourSteps(EMPTY_WORDS, 1, 12, Registers(0x306ec122, 0xa0572807, 0xa3c663da, 0xd28c77c2),
              0, 0, 0, 0, 0xa9e3e905, 0xfcefa3f8, 0x676f02d9, 0x8d2a4c8a, 5, 9, 14, 20,
              Registers(0x13707036, 0xa2205f1f, 0x1c31c384, 0xae7813db));
  }

  lemma EmptyStep8()
    ensures Leads(EMPTY_WORDS, 2, 0, Registers(0x13707036, 0xa2205f1f, 0x1c31c384, 0xae7813db),
                  Registers(0xdf63eaa1, 0x004b6669, 0x12f3e755, 0xc3689f5b))
  {
    hide Leads;
    FourSteps(EMPTY_WORDS, 2, 0, Registers(0x13707036, 0xa2205f1f, 0x1c31c384, 0xae7813db),
              0, 0, 0, 0, 0xfffa3942, 0x8771f681, 0x6d9d6122, 0xfde5380c, 4, 11, 16, 23,
              Registers(0xdf63eaa1, 0x004b6669, 0x12f3e755, 0xc3689f5b));
  }

  lemma EmptyStep9()
    ensures Leads(EMPTY_WORDS, 2, 4, Registers(0xdf63eaa1, 0x004b6669, 0x12f3e755, 0xc3689f5b),
                  Registers(0x5f7a9b2e, 0xc5dc8c15, 0x91ca4cb7, 0xabc34e16))
  {
    hide Leads;
    FourSteps(EMPTY_WORDS, 2, 4, Registers(0xdf63eaa1, 0x004b6669, 0x12f3e755, 0xc3689f5b),
              0, 0, 0, 0, 0xa4beea44, 0x4bdecfa9, 0xf6bb4b60, 0xbebfbc70, 4, 11, 16, 23,
              Registers(0x5f7a9b2e, 0xc5dc8c15, 0x91ca4cb7, 0xabc34e16));
  }

  lemma EmptyStep10()
    ensures Leads(EMPTY_WORDS, 2, 8, Registers(0x5f7a9b2e, 0xc5dc8c15, 0x91ca4cb7, 0xabc34e16),
                  Registers(0x4497169d, 0x0fe32453, 0xfd95f243, 0x76fd93d4))
  {
    hide Leads;
    FourSteps(EMPTY_WORDS, 2, 8, Registers(0x5f7a9b2e, 0xc5dc8c15, 0x91ca4cb7, 0xabc34e16),
              0, 0x80, 0, 0, 0x289b7ec6, 0xeaa127fa, 0xd4ef3085, 0x04881d05, 4, 11, 16, 23,
              Registers(0x4497169d, 0x0fe32453, 0xfd95f243, 0x76fd93d4));
  }

  lemma EmptyStep11()
    ensures Leads(EMPTY_WORDS, 2, 12, Registers(0x4497169d, 0x0fe32453, 0xfd95f243, 0x76fd93d4),
                  Registers(0x3f55edfd, 0xca7d2dbd, 0x68d84ea2, 0x22a31f54))
  {
    hide Leads;
    FourSteps(EMPTY_WORDS, 2, 12, Registers(0x4497169d, 0x0fe32453, 0xfd95f243, 0x76fd93d4),
              0, 0, 0, 0, 0xd9d4d039, 0xe6db99e5, 0x1fa27cf8, 0xc4ac5665, 4, 11, 16, 23,
              Registers(0x3f55edfd, 0xca7d2dbd, 0x68d84ea2, 0x22a31f54));
  }

  lemma EmptyStep12()
    ensures Leads(EMPTY_WORDS, 3, 0, Registers(0x3f55edfd, 0xca7d2dbd, 0x68d84ea2, 0x22a31f54),
                  Registers(0x93aa2577, 0x561e0689, 0xcd85b8cb, 0x1688dc85))
  {
    hide Leads;
    FourSteps(EMPTY_WORDS, 3, 0, Registers(0x3f55edfd, 0xca7d2dbd, 0x68d84ea2, 0x22a31f54),
              0x80, 0, 0, 0, 0xf4292244, 0x432aff97, 0xab9423a7, 0xfc93a039, 6, 10, 15, 21,
              Registers(0x93aa2577, 0x561e0689, 0xcd85b8cb, 0x1688dc85));
  }

  lemma EmptyStep13()
    ensures Leads(EMPTY_WORDS, 3, 4, Registers(0x93aa2577, 0x561e0689, 0xcd85b8cb, 0x1688dc85),
                  Registers(0x5625a114, 0x1e77fa61, 0x392ad0d0, 0x3450f42b))
  {
    hide Leads;
    FourSteps(EMPTY_WORDS, 3, 4, Registers(0x93aa2577, 0x561e0689, 0xcd85b8cb, 0x1688dc85),
              0, 0, 0, 0, 0x655b59c3, 0x8f0ccc92, 0xffeff47d, 0x85845dd1, 6, 10, 15, 21,
              Registers(0x5625a114, 0x1e77fa61, 0x392ad0d0, 0x3450f42b));
  }

  lemma EmptyStep14()
    ensures Leads(EMPTY_WORDS, 3, 8, Registers(0x5625a114, 0x1e77fa61, 0x392ad0d0, 0x3450f42b),
                  Registers(0x474a9c8c, 0x30130182, 0x36594b14, 0xdfce00bc))
  {
    hide Leads;
    FourSteps(EMPTY_WORDS, 3, 8, Registers(0x5625a114, 0x1e77fa61, 0x392ad0d0, 0x3450f42b),
              0, 0, 0, 0, 0x6fa87e4f, 0xfe2ce6e0, 0xa3014314, 0x4e0811a1, 6, 10, 15, 21,
              Registers(0x474a9c8c, 0x30130182, 0x36594b14, 0xdfce00bc));
  }

  lemma EmptyStep15()
    ensures Leads(EMPTY_WORDS, 3, 12, Registers(0x474a9c8c, 0x30130182, 0x36594b14, 0xdfce00bc),
                  Registers(0x7246fad3, 0x14e45506, 0xff4ea3eb, 0x6e10a476))
  {
    hide Leads;
    FourSteps(EMPTY_WORDS, 3, 12, Registers(0x474a9c8c, 0x30130182, 0x36594b14, 0xdfce00bc),
              0, 0, 0, 0, 0xf7537e82, 0xbd3af235, 0x2ad7d2bb, 0xeb86d391, 6, 10, 15, 21,
              Registers(0x7246fad3, 0x14e45506, 0xff4ea3eb, 0x6e10a476));
  }

  lemma EmptyRound1()
    ensures Operations(Registers(0x67452301, 0xefcdab89, 0x98badcfe, 0x10325476), EMPTY_WORDS, 0, 16)
         == Registers(0xf56c7cf1, 0xd6819c6a, 0x5aa53f75, 0x374943a7)
  {
    hide Leads, Operations;
    EmptyStep0();
    EmptyStep1();
    EmptyStep2();
    EmptyStep3();
    WholeRound(EMPTY_WORDS, 0, Registers(0x67452301, 0xefcdab89, 0x98badcfe, 0x10325476),
               Registers(0xa5202774, 0x1b163203, 0xe7f06b23, 0xf59592dd),
               Registers(0x32033344, 0x9bc13ce9, 0xf5b158db, 0x2f35d494),
               Registers(0x3893b991, 0x70768a29, 0xe1ef0576, 0xfce4a312),
               Registers(0xf56c7cf1, 0xd6819c6a, 0x5aa53f75, 0x374943a7));
  }

  lemma EmptyRound2()
    ensures Operations(Registers(0xf56c7cf1, 0xd6819c6a, 0x5aa53f75, 0x374943a7), EMPTY_WORDS, 1, 16)
         == Registers(0x13707036, 0xa2205f1f, 0x1c31c384, 0xae7813db)
  {
    hide Leads, Operations;
    EmptyStep4();
    EmptyStep5();
    EmptyStep6();
    EmptyStep7();
    WholeRound(EMPTY_WORDS, 1, Registers(0xf56c7cf1, 0xd6819c6a, 0x5aa53f75, 0x374943a7),
               Registers(0x1c7d7513, 0xbd782e17, 0xc095f13a, 0x7bd57a3a),
               Registers(0x3d1e3e6c, 0xe422531a, 0xeb41643e, 0x68b7b3e3),
               Registers(0x306ec122, 0xa0572807, 0xa3c663da, 0xd28c77c2),
               Registers(0x13707036, 0xa2205f1f, 0x1c31c384, 0xae7813db));
  }

  lemma EmptyRound3()
    ensures Operations(Registers(0x13707036, 0xa2205f1f, 0x1c31c384, 0xae7813db), EMPTY_WORDS, 2, 16)
         == Registers(0x3f55edfd, 0xca7d2dbd, 0x68d84ea2, 0x22a31f54)
  {
    hide Leads, Operations;
    EmptyStep8();
    EmptyStep9();
    EmptyStep10();
    EmptyStep11();
    WholeRound(EMPTY_WORDS, 2, Registers(0x13707036, 0xa2205f1f, 0x1c31c384, 0xae7813db),
               Registers(0xdf63eaa1, 0x004b6669, 0x12f3e755, 0xc3689f5b),
               Registers(0x5f7a9b2e, 0xc5dc8c15, 0x91ca4cb7, 0xabc34e16),
               Registers(0x4497169d, 0x0fe32453, 0xfd95f243, 0x76fd93d4),
               Registers(0x3f55edfd, 0xca7d2dbd, 0x68d84ea2, 0x22a31f54));
  }

  lemma EmptyRound4()
    ensures Operations(Registers(0x3f55edfd, 0xca7d2dbd, 0x68d84ea2, 0x22a31f54), EMPTY_WORDS, 3, 16)
         == Registers(0x7246fad3, 0x14e45506, 0xff4ea3eb, 0x6e10a476)
  {
    hide Leads, Operations;
    EmptyStep12();
    EmptyStep13();
    EmptyStep14();
    EmptyStep15();
    WholeRound(EMPTY_WORDS, 3, Registers(0x3f55edfd, 0xca7d2dbd, 0x68d84ea2, 0x22a31f54),
               Registers(0x93aa2577, 0x561e0689, 0xcd85b8cb, 0x1688dc85),
               Registers(0x5625a114, 0x1e77fa61, 0x392ad0d0, 0x3450f42b),
               Registers(0x474a9c8c, 0x30130182, 0x36594b14, 0xdfce00bc),
               Registers(0x7246fad3, 0x14e45506, 0xff4ea3eb, 0x6e10a476));
  }

  /** The empty message: d41d8cd98f00b204e9800998ecf8427e */
  lemma EmptyDigest()
    ensures Digest([]) == [0xd4, 0x1d, 0x8c, 0xd9, 0x8f, 0x0, 0xb2, 0x4,
                             0xe9, 0x80, 0x9, 0x98, 0xec, 0xf8, 0x42, 0x7e]
  {
    hide Operations, Compress, WordsOf, Padded, Digest;
    EmptyRound1();
    EmptyRound2();
    EmptyRound3();
    EmptyRound4();
    FourRounds(EMPTY_WORDS, Registers(0x67452301, 0xefcdab89, 0x98badcfe, 0x10325476),
               Registers(0xf56c7cf1, 0xd6819c6a, 0x5aa53f75, 0x374943a7),
               Registers(0x13707036, 0xa2205f1f, 0x1c31c384, 0xae7813db),
               Registers(0x3f55edfd, 0xca7d2dbd, 0x68d84ea2, 0x22a31f54),
               Registers(0x7246fad3, 0x14e45506, 0xff4ea3eb, 0x6e10a476));
    assert INIT == Registers(0x67452301, 0xefcdab89, 0x98badcfe, 0x10325476);
    WordsOfShort([], 0x0, EMPTY_WORDS);
    OneBlock([], EMPTY_WORDS, Registers(0xd98c1dd4, 0x04b2008f, 0x980980e9, 0x7e42f8ec));
  }

  // ---------- "abc" ----------

  const ABC_WORDS: seq<Word> := [0x80636261, 0, 0, 0, 0, 0, 0, 0, 0, 0, 0, 0, 0, 0, 0x18, 0]

  lemma AbcStep0()
    ensures Leads(ABC_WORDS, 0, 0, Registers(0x67452301, 0xefcdab89, 0x98badcfe, 0x10325476),
                  Registers(0xd6d117b4, 0x7ad956f2, 0x2f6fbd72, 0x344a8432))
  {
    hide Leads;
    FourSteps(ABC_WORDS, 0, 0, Registers(0x67452301, 0xefcdab89, 0x98badcfe, 0x10325476),
              0x80636261, 0, 0, 0, 0xd76aa478, 0xe8c7b756, 0x242070db, 0xc1bdceee, 7, 12, 17, 22,
              Registers(0xd6d117b4, 0x7ad956f2, 0x2f6fbd72, 0x344a8432));
  }

  lemma AbcStep1()
    ensures Leads(ABC_WORDS, 0, 4, Registers(0xd6d117b4, 0x7ad956f2, 0x2f6fbd72, 0x344a8432),
                  Registers(0xc73741ef, 0x928d99f6, 0x207dc67b, 0x8bac3051))
  {
    hide Leads;
    FourSteps(ABC_WORDS, 0, 4, Registers(0xd6d117b4, 0x7ad956f2, 0x2f6fbd72, 0x344a8432),
              0, 0, 0, 0, 0xf57c0faf, 0x4787c62a, 0xa8304613, 0xfd469501, 7, 12, 17, 22,
              Registers(0xc73741ef, 0x928d99f6, 0x207dc67b, 0x8bac3051));
  }

  lemma AbcStep2()
    ensures Leads(ABC_WORDS, 0, 8, Registers(0xc73741ef, 0x928d99f6, 0x207dc67b, 0x8bac3051),
                  Registers(0x854b3712, 0x5ed49596, 0x3020401c, 0x74e2f284))
  {
    hide Leads;
    FourSteps(ABC_WORDS, 0, 8, Registers(0xc73741ef, 0x928d99f6, 0x207dc67b, 0x8bac3051),
              0, 0, 0, 0, 0x698098d8, 0x8b44f7af, 0xffff5bb1, 0x895cd7be, 7, 12, 17, 22,
              Registers(0x854b3712, 0x5ed49596, 0x3020401c, 0x74e2f284));
  }

  lemma AbcStep3()
    ensures Leads(ABC_WORDS, 0, 12, Registers(0x854b3712, 0x5ed49596, 0x3020401c, 0x74e2f284),
                  Registers(0xdda9b9a6, 0x72aff2e0, 0xe396856b, 0xa1051895))
  {
    hide Leads;
    FourSteps(ABC_WORDS, 0, 12, Registers(0x854b3712, 0x5ed49596, 0x3020401c, 0x74e2f284),
              0, 0, 0x18, 0, 0x6b901122, 0xfd987193, 0xa679438e, 0x49b40821, 7, 12, 17, 22,
              Registers(0xdda9b9a6, 0x72aff2e0, 0xe396856b, 0xa1051895));
  }

  lemma AbcStep4()
    ensures Leads(ABC_WORDS, 1, 0, Registers(0xdda9b9a6, 0x72aff2e0, 0xe396856b, 0xa1051895),
                  Registers(0x3e9e9126, 0xb5b204e4, 0xe25e1652, 0x4a1d804e))
  {
    hide Leads;
    FourSteps(ABC_WORDS, 1, 0, Registers(0xdda9b9a6, 0x72aff2e0, 0xe396856b, 0xa1051895),
              0, 0, 0, 0x80636261, 0xf61e2562, 0xc040b340, 0x265e5a51, 0xe9b6c7aa, 5, 9, 14, 20,
              Registers(0x3e9e9126, 0xb5b204e4, 0xe25e1652, 0x4a1d804e));
  }

  lemma AbcStep5()
    ensures Leads(ABC_WORDS, 1, 4, Registers(0x3e9e9126, 0xb5b204e4, 0xe25e1652, 0x4a1d804e),
                  Registers(0x59a8ffda, 0x47092c07, 0xabfc7920, 0x6d002f1e))
  {
    hide Leads;
    FourSteps(ABC_WORDS, 1, 4, Registers(0x3e9e9126, 0xb5b204e4, 0xe25e1652, 0x4a1d804e),
              0, 0, 0, 0, 0xd62f105d, 0x02441453, 0xd8a1e681, 0xe7d3fbc8, 5, 9, 14, 20,
              Registers(0x59a8ffda, 0x47092c07, 0xabfc7920, 0x6d002f1e));
  }

  lemma AbcStep6()
    ensures Leads(ABC_WORDS, 1, 8, Registers(0x59a8ffda, 0x47092c07, 0xabfc7920, 0x6d002f1e),
                  Registers(0xb7f268cf, 0x786acb8f, 0xfe1623b1, 0x09388eff))
  {
    hide Leads;
    FourSteps(ABC_WORDS, 1, 8, Registers(0x59a8ffda, 0x47092c07, 0xabfc7920, 0x6d002f1e),
              0, 0x18, 0, 0, 0x21e1cde6, 0xc33707d6, 0xf4d50d87, 0x455a14ed, 5, 9, 14, 20,
              Registers(0xb7f268cf, 0x786acb8f, 0xfe1623b1, 0x09388eff));
  }

  lemma AbcStep7()
    ensures Leads(ABC_WORDS, 1, 12, Registers(0xb7f268cf, 0x786acb8f, 0xfe1623b1, 0x09388eff),
                  Registers(0x790a77fb, 0x726342d3, 0xa62884aa, 0x9f47e4f8))
  {
    hide Leads;
    FourSteps(ABC_WORDS, 1, 12, Registers(0xb7f268cf, 0x786acb8f, 0xfe1623b1, 0x09388eff),
              0, 0, 0, 0, 0xa9e3e905, 0xfcefa3f8, 0x676f02d9, 0x8d2a4c8a, 5, 9, 14, 20,
              Registers(0x790a77fb, 0x726342d3, 0xa62884aa, 0x9f47e4f8));
  }

  lemma AbcStep8()
    ensures Leads(ABC_WORDS, 2, 0, Registers(0x790a77fb, 0x726342d3, 0xa62884aa, 0x9f47e4f8),
                  Registers(0xb3707ebf, 0x3b0875c7, 0x8d212ff5, 0x60127b2e))
  {
    hide Leads;
    FourSteps(ABC_WORDS, 2, 0, Registers(0x790a77fb, 0x726342d3, 0xa62884aa, 0x9f47e4f8),
              0, 0, 0, 0x18, 0xfffa3942, 0x8771f681, 0x6d9d6122, 0xfde5380c, 4, 11, 16, 23,
              Registers(0xb3707ebf, 0x3b0875c7, 0x8d212ff5, 0x60127b2e));
  }

  lemma AbcStep9()
    ensures Leads(ABC_WORDS, 2, 4, Registers(0xb3707ebf, 0x3b0875c7, 0x8d212ff5, 0x60127b2e),
                  Registers(0x21b117b9, 0x5a2f5ea5, 0x3575227e, 0x6e7429d5))
  {
    hide Leads;
    FourSteps(ABC_WORDS, 2, 4, Registers(0xb3707ebf, 0x3b0875c7, 0x8d212ff5, 0x60127b2e),
              0, 0, 0, 0, 0xa4beea44, 0x4bdecfa9, 0xf6bb4b60, 0xbebfbc70, 4, 11, 16, 23,
              Registers(0x21b117b9, 0x5a2f5ea5, 0x3575227e, 0x6e7429d5));
  }

  lemma AbcStep10()
    ensures Leads(ABC_WORDS, 2, 8, Registers(0x21b117b9, 0x5a2f5ea5, 0x3575227e, 0x6e7429d5),
                  Registers(0x11de1779, 0x4c6124f4, 0x31c465ca, 0xfadcaa38))
  {
    hide Leads;
    FourSteps(ABC_WORDS, 2, 8, Registers(0x21b117b9, 0x5a2f5ea5, 0x3575227e, 0x6e7429d5),
              0, 0x80636261, 0, 0, 0x289b7ec6, 0xeaa127fa, 0xd4ef3085, 0x04881d05, 4, 11, 16, 23,
              Registers(0x11de1779, 0x4c6124f4, 0x31c465ca, 0xfadcaa38));
  }

  lemma AbcStep11()
    ensures Leads(ABC_WORDS, 2, 12, Registers(0x11de1779, 0x4c6124f4, 0x31c465ca, 0xfadcaa38),
                  Registers(0x7f2e507b, 0x7beb9700, 0x8fae6399, 0x99d9679d))
  {
    hide Leads;
    FourSteps(ABC_WORDS, 2, 12, Registers(0x11de1779, 0x4c6124f4, 0x31c465ca, 0xfadcaa38),
              0, 0, 0, 0, 0xd9d4d039, 0xe6db99e5, 0x1fa27cf8, 0xc4ac5665, 4, 11, 16, 23,
              Registers(0x7f2e507b, 0x7beb9700, 0x8fae6399, 0x99d9679d));
  }

  lemma AbcStep12()
    ensures Leads(ABC_WORDS, 3, 0, Registers(0x7f2e507b, 0x7beb9700, 0x8fae6399, 0x99d9679d),
                  Registers(0x7b201df8, 0x8bf025c4, 0xb298cefd, 0xf4e8e96e))
  {
    hide Leads;
    FourSteps(ABC_WORDS, 3, 0, Registers(0x7f2e507b, 0x7beb9700, 0x8fae6399, 0x99d9679d),
              0x80636261, 0, 0x18, 0, 0xf4292244, 0x432aff97, 0xab9423a7, 0xfc93a039, 6, 10, 15, 21,
              Registers(0x7b201df8, 0x8bf025c4, 0xb298cefd, 0xf4e8e96e));
  }

  lemma AbcStep13()
    ensures Leads(ABC_WORDS, 3, 4, Registers(0x7b201df8, 0x8bf025c4, 0xb298cefd, 0xf4e8e96e),
                  Registers(0x06cc5e8a, 0x3bfa2c27, 0x7d632dd0, 0x5b0d97aa))
  {
    hide Leads;
    FourSteps(ABC_WORDS, 3, 4, Registers(0x7b201df8, 0x8bf025c4, 0xb298cefd, 0xf4e8e96e),
              0, 0, 0, 0, 0x655b59c3, 0x8f0ccc92, 0xffeff47d, 0x85845dd1, 6, 10, 15, 21,
              Registers(0x06cc5e8a, 0x3bfa2c27, 0x7d632dd0, 0x5b0d97aa));
  }

  lemma AbcStep14()
    ensures Leads(ABC_WORDS, 3, 8, Registers(0x06cc5e8a, 0x3bfa2c27, 0x7d632dd0, 0x5b0d97aa),
                  Registers(0x7f81cc35, 0x7327d604, 0x4f9dbe3f, 0x094454ab))
  {
    hide Leads;
    FourSteps(ABC_WORDS, 3, 8, Registers(0x06cc5e8a, 0x3bfa2c27, 0x7d632dd0, 0x5b0d97aa),
              0, 0, 0, 0, 0x6fa87e4f, 0xfe2ce6e0, 0xa3014314, 0x4e0811a1, 6, 10, 15, 21,
              Registers(0x7f81cc35, 0x7327d604, 0x4f9dbe3f, 0x094454ab));
  }

  lemma AbcStep15()
    ensures Leads(ABC_WORDS, 3, 12, Registers(0x7f81cc35, 0x7327d604, 0x4f9dbe3f, 0x094454ab),
                  Registers(0x310ade8f, 0xc08226b3, 0xe484b9d8, 0x624d8cb2))
  {
    hide Leads;
    FourSteps(ABC_WORDS, 3, 12, Registers(0x7f81cc35, 0x7327d604, 0x4f9dbe3f, 0x094454ab),
              0, 0, 0, 0, 0xf7537e82, 0xbd3af235, 0x2ad7d2bb, 0xeb86d391, 6, 10, 15, 21,
              Registers(0x310ade8f, 0xc08226b3, 0xe484b9d8, 0x624d8cb2));
  }

  lemma AbcRound1()
    ensures Operations(Registers(0x67452301, 0xefcdab89, 0x98badcfe, 0x10325476), ABC_WORDS, 0, 16)
         == Registers(0xdda9b9a6, 0x72aff2e0, 0xe396856b, 0xa1051895)
  {
    hide Leads, Operations;
    AbcStep0();
    AbcStep1();
    AbcStep2();
    AbcStep3();
    WholeRound(ABC_WORDS, 0, Registers(0x67452301, 0xefcdab89, 0x98badcfe, 0x10325476),
               Registers(0xd6d117b4, 0x7ad956f2, 0x2f6fbd72, 0x344a8432),
               Registers(0xc73741ef, 0x928d99f6, 0x207dc67b, 0x8bac3051),
               Registers(0x854b3712, 0x5ed49596, 0x3020401c, 0x74e2f284),
               Registers(0xdda9b9a6, 0x72aff2e0, 0xe396856b, 0xa1051895));
  }

  lemma AbcRound2()
    ensures Operations(Registers(0xdda9b9a6, 0x72aff2e0, 0xe396856b, 0xa1051895), ABC_WORDS, 1, 16)
         == Registers(0x790a77fb, 0x726342d3, 0xa62884aa, 0x9f47e4f8)
  {
    hide Leads, Operations;
    AbcStep4();
    AbcStep5();
    AbcStep6();
    AbcStep7();
    WholeRound(ABC_WORDS, 1, Registers(0xdda9b9a6, 0x72aff2e0, 0xe396856b, 0xa1051895),
               Registers(0x3e9e9126, 0xb5b204e4, 0xe25e1652, 0x4a1d804e),
               Registers(0x59a8ffda, 0x47092c07, 0xabfc7920, 0x6d002f1e),
               Registers(0xb7f268cf, 0x786acb8f, 0xfe1623b1, 0x09388eff),
               Registers(0x790a77fb, 0x726342d3, 0xa62884aa, 0x9f47e4f8));
  }

  lemma AbcRound3()
    ensures Operations(Registers(0x790a77fb, 0x726342d3, 0xa62884aa, 0x9f47e4f8), ABC_WORDS, 2, 16)
         == Registers(0x7f2e507b, 0x7beb9700, 0x8fae6399, 0x99d9679d)
  {
    hide Leads, Operations;
    AbcStep8();
    AbcStep9();
    AbcStep10();
    AbcStep11();
    WholeRound(ABC_WORDS, 2, Registers(0x790a77fb, 0x726342d3, 0xa62884aa, 0x9f47e4f8),
               Registers(0xb3707ebf, 0x3b0875c7, 0x8d212ff5, 0x60127b2e),
               Registers(0x21b117b9, 0x5a2f5ea5, 0x3575227e, 0x6e7429d5),
               Registers(0x11de1779, 0x4c6124f4, 0x31c465ca, 0xfadcaa38),
               Registers(0x7f2e507b, 0x7beb9700, 0x8fae6399, 0x99d9679d));
  }

  lemma AbcRound4()
    ensures Operations(Registers(0x7f2e507b, 0x7beb9700, 0x8fae6399, 0x99d9679d), ABC_WORDS, 3, 16)
         == Registers(0x310ade8f, 0xc08226b3, 0xe484b9d8, 0x624d8cb2)
  {
    hide Leads, Operations;
    AbcStep12();
    AbcStep13();
    AbcStep14();
    AbcStep15();
    WholeRound(ABC_WORDS, 3, Registers(0x7f2e507b, 0x7beb9700, 0x8fae6399, 0x99d9679d),
               Registers(0x7b201df8, 0x8bf025c4, 0xb298cefd, 0xf4e8e96e),
               Registers(0x06cc5e8a, 0x3bfa2c27, 0x7d632dd0, 0x5b0d97aa),
               Registers(0x7f81cc35, 0x7327d604, 0x4f9dbe3f, 0x094454ab),
               Registers(0x310ade8f, 0xc08226b3, 0xe484b9d8, 0x624d8cb2));
  }

  /** "abc": 900150983cd24fb0d6963f7d28e17f72 */
  lemma AbcDigest()
    ensures Digest([0x61, 0x62, 0x63]) == [0x90, 0x1, 0x50, 0x98, 0x3c, 0xd2, 0x4f, 0xb0,
                             0xd6, 0x96, 0x3f, 0x7d, 0x28, 0xe1, 0x7f, 0x72]
  {
    hide Operations, Compress, WordsOf, Padded, Digest;
    AbcRound1();
    AbcRound2();
    AbcRound3();
    AbcRound4();
    FourRounds(ABC_WORDS, Registers(0x67452301, 0xefcdab89, 0x98badcfe, 0x10325476),
               Registers(0xdda9b9a6, 0x72aff2e0, 0xe396856b, 0xa1051895),
               Registers(0x790a77fb, 0x726342d3, 0xa62884aa, 0x9f47e4f8),
               Registers(0x7f2e507b, 0x7beb9700, 0x8fae6399, 0x99d9679d),
               Registers(0x310ade8f, 0xc08226b3, 0xe484b9d8, 0x624d8cb2));
    assert INIT == Registers(0x67452301, 0xefcdab89, 0x98badcfe, 0x10325476);
    WordsOfShort([0x61, 0x62, 0x63], 0x18, ABC_WORDS);
    OneBlock([0x61, 0x62, 0x63], ABC_WORDS, Registers(0x98500190, 0xb04fd23c, 0x7d3f96d6, 0x727fe128));
  }
}
