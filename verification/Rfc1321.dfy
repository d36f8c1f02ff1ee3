/** MD5 as RFC 1321 defines it, sections 3.1 to 3.5, on whole messages. */
module Rfc1321 {

  type Byte = bv8
  type Word = bv32

  /** Four registers. */
  datatype Registers<W> = Registers(a: W, b: W, c: W, d: W)

  /** The four-word buffer A, B, C, D. */
  type State = Registers<Word>

  // ---------- Section 3.3: the initial buffer ----------

  const INIT: State := Registers(0x67452301, 0xefcdab89, 0x98badcfe, 0x10325476)

  // ---------- Section 3.4: the compression of one block ----------

  function F(x: Word, y: Word, z: Word): Word { (x & y) | (!x & z) }

  function G(x: Word, y: Word, z: Word): Word { (x & z) | (y & !z) }

  function H(x: Word, y: Word, z: Word): Word { x ^ y ^ z }

  function I(x: Word, y: Word, z: Word): Word { y ^ (x | !z) }

  function RotateLeft(x: Word, s: nat): Word
    requires s <= 32
  {
    (x << s) | (x >> (32 - s))
  }

  /** The table T, sixteen entries a round. */
  function T(round: nat, i: nat): Word {
    match round
    case 0 => T1(i)
    case 1 => T2(i)
    case 2 => T3(i)
    case _ => T4(i)
  }

  function T1(i: nat): Word {
    match i
    case 0 => 0xd76aa478 case 1 => 0xe8c7b756 case 2 => 0x242070db case 3 => 0xc1bdceee
    case 4 => 0xf57c0faf case 5 => 0x4787c62a case 6 => 0xa8304613 case 7 => 0xfd469501
    case 8 => 0x698098d8 case 9 => 0x8b44f7af case 10 => 0xffff5bb1 case 11 => 0x895cd7be
    case 12 => 0x6b901122 case 13 => 0xfd987193 case 14 => 0xa679438e case _ => 0x49b40821
  }

  function T2(i: nat): Word {
    match i
    case 0 => 0xf61e2562 case 1 => 0xc040b340 case 2 => 0x265e5a51 case 3 => 0xe9b6c7aa
    case 4 => 0xd62f105d case 5 => 0x02441453 case 6 => 0xd8a1e681 case 7 => 0xe7d3fbc8
    case 8 => 0x21e1cde6 case 9 => 0xc33707d6 case 10 => 0xf4d50d87 case 11 => 0x455a14ed
    case 12 => 0xa9e3e905 case 13 => 0xfcefa3f8 case 14 => 0x676f02d9 case _ => 0x8d2a4c8a
  }

  function T3(i: nat): Word {
    match i
    case 0 => 0xfffa3942 case 1 => 0x8771f681 case 2 => 0x6d9d6122 case 3 => 0xfde5380c
    case 4 => 0xa4beea44 case 5 => 0x4bdecfa9 case 6 => 0xf6bb4b60 case 7 => 0xbebfbc70
    case 8 => 0x289b7ec6 case 9 => 0xeaa127fa case 10 => 0xd4ef3085 case 11 => 0x04881d05
    case 12 => 0xd9d4d039 case 13 => 0xe6db99e5 case 14 => 0x1fa27cf8 case _ => 0xc4ac5665
  }

  function T4(i: nat): Word {
    match i
    case 0 => 0xf4292244 case 1 => 0x432aff97 case 2 => 0xab9423a7 case 3 => 0xfc93a039
    case 4 => 0x655b59c3 case 5 => 0x8f0ccc92 case 6 => 0xffeff47d case 7 => 0x85845dd1
    case 8 => 0x6fa87e4f case 9 => 0xfe2ce6e0 case 10 => 0xa3014314 case 11 => 0x4e0811a1
    case 12 => 0xf7537e82 case 13 => 0xbd3af235 case 14 => 0x2ad7d2bb case _ => 0xeb86d391
  }

  /** The word of the block that operation i of a round reads. */
  function Schedule(round: nat, i: nat): (k: nat)
    ensures k < 16
  {
    match round
    case 0 => i % 16
    case 1 => (1 + 5 * i) % 16
    case 2 => (5 + 3 * i) % 16
    case _ => (7 * i) % 16
  }

  /** The shift amount of operation i: four values in turn, different ones in each round. */
  function Shift(round: nat, i: nat): (s: nat)
    ensures s <= 32
  {
    match round
    case 0 => Cycle(i, 7, 12, 17, 22)
    case 1 => Cycle(i, 5, 9, 14, 20)
    case 2 => Cycle(i, 4, 11, 16, 23)
    case _ => Cycle(i, 6, 10, 15, 21)
  }

  function Cycle(i: nat, s0: nat, s1: nat, s2: nat, s3: nat): nat {
    match i % 4
    case 0 => s0
    case 1 => s1
    case 2 => s2
    case _ => s3
  }

  function Auxiliary(round: nat, x: Word, y: Word, z: Word): Word {
    match round
    case 0 => F(x, y, z)
    case 1 => G(x, y, z)
    case 2 => H(x, y, z)
    case _ => I(x, y, z)
  }

  /** b + ((a + f + x + t) <<< s) */
  function Mixed(a: Word, b: Word, f: Word, x: Word, t: Word, s: nat): Word
    requires s <= 32
  {
    b + RotateLeft(a + f + x + t, s)
  }

  /** Operation i of a round on the registers in their roles: a = b + ((a + f(b,c,d) + X[k] + T[i]) <<< s). */
  function Operation(round: nat, X: seq<Word>, i: nat, r: State): Word
    requires round < 4 && i < 16 && |X| == 16
  {
    Mixed(r.a, r.b, Auxiliary(round, r.b, r.c, r.d), X[Schedule(round, i)], T(round, i), Shift(round, i))
  }

  /** n operations in turn. After each one the roles move on: [ABCD] is followed by
      [DABC], so the register just written becomes the second one. */
  function Turns<W(!new)>(operation: (nat, Registers<W>) --> W, r: Registers<W>, n: nat): Registers<W>
    requires forall i: nat, s: Registers<W> :: i < n ==> operation.requires(i, s)
  {
    if n == 0 then r
    else
      var s := Turns(operation, r, n - 1);
      Registers(s.d, operation(n - 1, s), s.b, s.c)
  }

  function RoundOperation(round: nat, X: seq<Word>): (nat, State) --> Word {
    (i: nat, r: State) requires round < 4 && i < 16 && |X| == 16 => Operation(round, X, i, r)
  }

  /** The first n operations of a round. */
  function Operations(st: State, X: seq<Word>, round: nat, n: nat): State
    requires round < 4 && |X| == 16 && n <= 16
  {
    Turns(RoundOperation(round, X), st, n)
  }

  function Rounds(st: State, X: seq<Word>, rounds: nat): State
    requires rounds <= 4 && |X| == 16
  {
    if rounds == 0 then st else Operations(Rounds(st, X, rounds - 1), X, rounds - 1, 16)
  }

  function Sum(x: Word, y: Word): Word { x + y }

  function Compress(st: State, X: seq<Word>): State
    requires |X| == 16
  {
    var r := Rounds(st, X, 4);
    Registers(Sum(st.a, r.a), Sum(st.b, r.b), Sum(st.c, r.c), Sum(st.d, r.d))
  }

  // ---------- Section 2: words and bytes, low-order byte first ----------

  function WordOf(b: seq<Byte>): Word
    requires |b| == 4
  {
    (b[0] as Word) | ((b[1] as Word) << 8) | ((b[2] as Word) << 16) | ((b[3] as Word) << 24)
  }

  function WordsOf(block: seq<Byte>): (X: seq<Word>)
    requires |block| == 64
    ensures |X| == 16
  {
    seq(16, i requires 0 <= i < 16 && |block| == 64 => WordOf(block[4 * i..4 * i + 4]))
  }

  function BytesOf(w: Word): (b: seq<Byte>)
    ensures |b| == 4
  {
    [(w & 0xff) as Byte, ((w >> 8) & 0xff) as Byte, ((w >> 16) & 0xff) as Byte, ((w >> 24) & 0xff) as Byte]
  }

  lemma Increment(c: Byte)
    requires c != 0xff
    ensures (c + 1) as nat == (c as nat) + 1
  {
  }

  lemma AllOnes(c: Byte)
    requires c as nat != 255
    ensures c != 0xff
  {
  }

  lemma Numbered(d: nat) returns (b: Byte)
    requires d < 0x100
    ensures b as nat == d
  {
    if d == 0 {
      b := 0;
    } else {
      b := Numbered(d - 1);
      AllOnes(b);
      Increment(b);
      b := b + 1;
    }
  }

  lemma NumberAndBack(b: Byte)
    ensures (b as nat) as Byte == b
  {
  }

  lemma ByteAndBack(d: nat)
    requires d < 0x100
    ensures (d as Byte) as nat == d
  {
    var b := Numbered(d);
    NumberAndBack(b);
  }

  function ByteOf(d: nat): (b: Byte)
    requires d < 0x100
    ensures b as nat == d
  {
    ByteAndBack(d);
    d as Byte
  }

  lemma SameByte(a: Byte, b: Byte)
    requires a as nat == b as nat
    ensures a == b
  {
    NumberAndBack(a);
    NumberAndBack(b);
  }

  /** The n low-order bytes of a number. */
  function LowBytes(x: nat, n: nat): (b: seq<Byte>)
    ensures |b| == n
  {
    if n == 0 then [] else [ByteOf(x % 0x100)] + LowBytes(x / 0x100, n - 1)
  }

  /** A word is the number whose digits to the base 256 are its bytes, the lowest one first. */
  lemma WordValue(b: seq<Byte>)
    requires |b| == 4
    ensures WordOf(b) as nat
         == (b[0] as nat) + 0x100 * (b[1] as nat) + 0x1_0000 * (b[2] as nat) + 0x100_0000 * (b[3] as nat)
  {
    FourBytes(b[0], b[1], b[2], b[3]);
  }

  lemma FourBytes(b0: Byte, b1: Byte, b2: Byte, b3: Byte)
    ensures ((b0 as Word) | ((b1 as Word) << 8) | ((b2 as Word) << 16) | ((b3 as Word) << 24)) as nat
         == (b0 as nat) + 0x100 * (b1 as nat) + 0x1_0000 * (b2 as nat) + 0x100_0000 * (b3 as nat)
  {
  }

  lemma Rejoined(w: Word)
    ensures WordOf(BytesOf(w)) == w
  {
  }

  /** The bytes of a word are those digits again. */
  lemma BytesOfWord(w: Word)
    ensures WordOf(BytesOf(w)) == w
    ensures BytesOf(w) == LowBytes(w as nat, 4)
  {
    hide BytesOf, WordOf, LowBytes;
    var b := BytesOf(w);
    Rejoined(w);
    WordValue(b);
    DigitsOf(w as nat, b[0] as nat, b[1] as nat, b[2] as nat, b[3] as nat, b);
  }

  /** Four digits to the base 256 are determined by the number. */
  lemma DigitsOf(x: nat, n0: nat, n1: nat, n2: nat, n3: nat, b: seq<Byte>)
    requires |b| == 4 && n0 == b[0] as nat && n1 == b[1] as nat && n2 == b[2] as nat && n3 == b[3] as nat
    requires x == n0 + 0x100 * n1 + 0x1_0000 * n2 + 0x100_0000 * n3
    ensures LowBytes(x, 4) == b
  {
    hide LowBytes;
    var r2 := n2 + 0x100 * n3;
    var r1 := n1 + 0x100 * r2;
    LowDigit(x, n0, b[0], r1, 3);
    LowDigit(r1, n1, b[1], r2, 2);
    LowDigit(r2, n2, b[2], n3, 1);
    LowDigit(n3, n3, b[3], 0, 0);
    NoBytes(0);
    assert b == [b[0]] + ([b[1]] + ([b[2]] + ([b[3]] + [])));
  }

  lemma NoBytes(x: nat)
    ensures LowBytes(x, 0) == []
  {
  }

  lemma LowDigit(x: nat, d: nat, b: Byte, rest: nat, n: nat)
    requires d == b as nat && d < 0x100 && x == d + 0x100 * rest
    ensures x / 0x100 == rest && LowBytes(x, n + 1) == [b] + LowBytes(rest, n)
  {
    hide ByteOf;
    LastDigit(x, d, rest);
    SameByte(ByteOf(x % 0x100), b);
  }

  lemma LastDigit(x: nat, d: nat, rest: nat)
    requires d < 0x100 && x == d + 0x100 * rest
    ensures x / 0x100 == rest && x % 0x100 == d
  {
  }

  // ---------- Sections 3.1, 3.2: padding and length ----------

  function Zeros(n: nat): (z: seq<Byte>)
    ensures |z| == n
  {
    seq(n, _ => 0)
  }

  lemma PaddedLength(n: nat)
    ensures (n + 1 + (55 - n) % 64 + 8) % 64 == 0
  {
  }

  function Padded(msg: seq<Byte>): (p: seq<Byte>)
    ensures |p| % 64 == 0
  {
    PaddedLength(|msg|);
    msg + [0x80] + Zeros((55 - |msg|) % 64) + LowBytes(8 * |msg|, 8)
  }

  lemma NextDigit(x: nat, n: nat)
    requires n > 0
    ensures LowBytes(x, n)[0] as nat == x % 0x100 && LowBytes(x, n)[1..] == LowBytes(x / 0x100, n - 1)
  {
    hide ByteOf;
  }

  /** Eight bytes hold a number modulo 2^64, the lowest digit first. */
  lemma LengthBytes(x: nat) returns (carry: nat)
    ensures var b := LowBytes(x, 8);
            x == (b[0] as nat) + 0x100 * (b[1] as nat) + 0x1_0000 * (b[2] as nat) + 0x100_0000 * (b[3] as nat)
                 + 0x1_0000_0000 * (b[4] as nat) + 0x100_0000_0000 * (b[5] as nat)
                 + 0x1_0000_0000_0000 * (b[6] as nat) + 0x100_0000_0000_0000 * (b[7] as nat)
                 + 0x1_0000_0000_0000_0000 * carry
  {
    hide LowBytes;
    var b := LowBytes(x, 8);
    var x4 := FourDigits(x, 8);
    carry := FourDigits(x4, 4);
    assert b[4..][0] == b[4] && b[4..][1] == b[5] && b[4..][2] == b[6] && b[4..][3] == b[7];
  }

  lemma FourDigits(x: nat, n: nat) returns (rest: nat)
    requires n >= 4
    ensures var b := LowBytes(x, n);
            && x == (b[0] as nat) + 0x100 * (b[1] as nat) + 0x1_0000 * (b[2] as nat) + 0x100_0000 * (b[3] as nat)
                    + 0x1_0000_0000 * rest
            && b[4..] == LowBytes(rest, n - 4)
  {
    hide LowBytes;
    var b := LowBytes(x, n);
    var x1 := x / 0x100;
    var x2 := x1 / 0x100;
    var x3 := x2 / 0x100;
    rest := x3 / 0x100;
    NextDigit(x, n);
    NextDigit(x1, n - 1);
    NextDigit(x2, n - 2);
    NextDigit(x3, n - 3);
    assert b[1] == b[1..][0] && b[2] == b[1..][1..][0] && b[3] == b[1..][1..][1..][0];
    assert b[4..] == b[1..][1..][1..][1..];
  }

  /** What the padding looks like: the message, the byte 0x80, as few zeros as fill up the block, and
      in the last eight bytes the length in bits. */
  lemma PaddingMeaning(msg: seq<Byte>)
    ensures var p, n := Padded(msg), |Padded(msg)|;
            && n % 64 == 0 && |msg| + 9 <= n < |msg| + 73
            && p[..|msg|] == msg && p[|msg|] == 0x80
            && (forall k :: |msg| < k < n - 8 ==> p[k] == 0)
            && p[n - 8..] == LowBytes(8 * |msg|, 8)
  {
    hide LowBytes;
    PaddedLength(|msg|);
  }

  // ---------- Sections 3.4, 3.5: all blocks, then the digest ----------

  function Absorb(st: State, bytes: seq<Byte>): State
    requires |bytes| % 64 == 0
    decreases |bytes|
  {
    if |bytes| == 0 then st
    else Compress(Absorb(st, bytes[..|bytes| - 64]), WordsOf(bytes[|bytes| - 64..]))
  }

  function Output(st: State): (digest: seq<Byte>)
    ensures |digest| == 16
  {
    BytesOf(st.a) + BytesOf(st.b) + BytesOf(st.c) + BytesOf(st.d)
  }

  function Digest(msg: seq<Byte>): (digest: seq<Byte>)
    ensures |digest| == 16
  {
    Output(Absorb(INIT, Padded(msg)))
  }
}
