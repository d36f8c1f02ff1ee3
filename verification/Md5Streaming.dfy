/** The streaming context of libmd5: MD5Init, MD5Update, MD5Final, fed in any number of pieces. */
module Md5Streaming {
  import opened Rfc1321
  import Md5

  const TWO32: nat := 0x1_0000_0000
  const TWO64: nat := 0x1_0000_0000_0000_0000

  /** uint32_t, as a number. */
  type Uint32 = x: int | 0 <= x < TWO32

  function Add32(a: Uint32, b: Uint32): Uint32 {
    (a + b) % TWO32
  }

  function ShiftLeft3(a: Uint32): Uint32 {
    (a * 8) % TWO32
  }

  // ---------- The two-word bit counter ----------

  /** The counter holds eight times n, modulo 2^64. */
  ghost predicate Counts(low: Uint32, high: Uint32, n: nat) {
    low + TWO32 * high == (8 * n) % TWO64
  }

  function NextLow(low: Uint32, len: Uint32): Uint32 {
    Add32(low, ShiftLeft3(len))
  }

  function NextHigh(low: Uint32, high: Uint32, len: Uint32): Uint32 {
    Add32(if NextLow(low, len) < low then Add32(high, 1) else high, len / 0x2000_0000)
  }

  lemma MultipleGap(m: nat, a: int, b: int)
    requires a < b
    ensures m * a + m <= m * b
  {
    var d := b - a - 1;
    assert m * b == m * a + m + m * d;
  }

  lemma Remainder(x: int, m: nat, k: int, r: int)
    requires m > 0 && x == m * k + r && 0 <= r < m
    ensures x % m == r && x / m == k
  {
    var q := x / m;
    assert x == m * q + x % m;
    if q < k {
      MultipleGap(m, q, k);
      assert false;
    } else if q > k {
      MultipleGap(m, k, q);
      assert false;
    }
  }

  /** Addition modulo 2^32 is addition up to a carry. */
  lemma Carry(a: Uint32, b: Uint32) returns (c: nat)
    ensures c <= 1 && Add32(a, b) == a + b - TWO32 * c
    ensures c == 1 <==> Add32(a, b) < a
  {
    c := if a + b < TWO32 then 0 else 1;
    Remainder(a + b, TWO32, c, a + b - TWO32 * c);
  }

  /** The update of the counter, wraparound test included, is addition modulo 2^64. */
  lemma CounterStep(low: Uint32, high: Uint32, n: nat, len: Uint32)
    requires Counts(low, high, n)
    ensures Counts(NextLow(low, len), NextHigh(low, high, len), n + len)
  {
    var hi := len / 0x2000_0000;
    var lo := ShiftLeft3(len);
    Remainder(len * 8, TWO32, hi, len * 8 - TWO32 * hi);
    assert lo == len * 8 - TWO32 * hi;
    var c := Carry(low, lo);
    var c1 := Carry(high, 1);
    var mid := if c == 1 then Add32(high, 1) else high;
    var c2 := Carry(mid, hi);
    var k := c2 + if c == 1 then c1 else 0;
    assert NextHigh(low, high, len) == high + c + hi - TWO32 * k;
    var q := (8 * n) / TWO64;
    assert low + TWO32 * high == 8 * n - TWO64 * q;
    var sum := NextLow(low, len) + TWO32 * NextHigh(low, high, len);
    assert sum == low + lo - TWO32 * c + TWO32 * (high + c + hi) - TWO64 * k;
    Remainder(8 * (n + len), TWO64, q + k, sum);
  }

  /** The position in the current block, as read off the counter. */
  lemma CounterPosition(low: Uint32, high: Uint32, n: nat)
    requires Counts(low, high, n)
    ensures (low / 8) % 64 == n % 64
  {
    var q := (8 * n) / TWO64;
    var z := 0x80_0000_0000_0000 * q + 0x80_0000 * high;
    assert low == 8 * (n - 64 * z);
    assert low / 8 == n - 64 * z;
    Remainder(n - 64 * z, 64, n / 64 - z, n % 64);
  }

  // ---------- The two counter words are the length field of the padding ----------

  function Pow256(n: nat): (p: nat)
    ensures p > 0
  {
    if n == 0 then 1 else 256 * Pow256(n - 1)
  }

  /** LowBytes ignores everything above its range. */
  lemma {:induction false} LowBytesDrop(x: nat, n: nat, k: nat)
    ensures Pow256(n) * k >= 0
    ensures LowBytes(x + Pow256(n) * k, n) == LowBytes(x, n)
  {
    if n > 0 {
      var p := Pow256(n - 1);
      assert Pow256(n) * k == 256 * (p * k);
      Remainder(x + 256 * (p * k), 256, x / 256 + p * k, x % 256);
      LowBytesDrop(x / 256, n - 1, k);
    }
  }

  /** x without its n low-order bytes. */
  function Shifted(x: nat, n: nat): nat {
    if n == 0 then x else Shifted(x / 256, n - 1)
  }

  lemma {:induction false} LowBytesSplit(x: nat, a: nat, b: nat)
    ensures LowBytes(x, a + b) == LowBytes(x, a) + LowBytes(Shifted(x, a), b)
  {
    if a > 0 {
      LowBytesSplit(x / 256, a - 1, b);
    }
  }

  lemma ShiftedByFour(x: nat)
    ensures Shifted(x, 4) == x / TWO32
  {
    assert Shifted(x, 4) == Shifted(x / 256, 3) == Shifted(x / 256 / 256, 2)
        == Shifted(x / 256 / 256 / 256, 1) == Shifted(x / 256 / 256 / 256 / 256, 0);
  }

  lemma DropAboveFour(x: nat, k: nat)
    ensures LowBytes(x + TWO32 * k, 4) == LowBytes(x, 4)
  {
    assert Pow256(4) == TWO32;
    LowBytesDrop(x, 4, k);
  }

  lemma DropAboveEight(x: nat, k: nat)
    ensures LowBytes(x + TWO64 * k, 8) == LowBytes(x, 8)
  {
    assert Pow256(8) == TWO64;
    LowBytesDrop(x, 8, k);
  }

  lemma LengthField(low: Uint32, high: Uint32, n: nat)
    requires Counts(low, high, n)
    ensures LowBytes(8 * n, 8) == LowBytes(low, 4) + LowBytes(high, 4)
  {
    hide LowBytes, Shifted;
    var y := low + TWO32 * high;
    var q := (8 * n) / TWO64;
    DropAboveEight(y, q);
    assert 8 * n == y + TWO64 * q;
    LowBytesSplit(y, 4, 4);
    ShiftedByFour(y);
    assert y / TWO32 == high;
    DropAboveFour(low, high);
  }

  // ---------- Padding, block by block ----------

  function Full(n: nat): (f: nat)
    ensures f <= n && f % 64 == 0
  {
    Remainder(n - n % 64, 64, n / 64, 0);
    n - n % 64
  }

  /** The zeros of the padding, by how many bytes are left over. */
  lemma ZeroCount(n: nat)
    ensures (55 - n) % 64 == if n % 64 < 56 then 55 - n % 64 else 119 - n % 64
  {
    Remainder(55 - n, 64, (if n % 64 < 56 then 0 else -1) - n / 64, if n % 64 < 56 then 55 - n % 64 else 119 - n % 64);
  }

  lemma Regroup<T>(a: seq<T>, b: seq<T>, c: seq<T>, d: seq<T>, e: seq<T>)
    ensures (a + b) + c + d + e == a + (b + c + d + e)
  {
  }

  lemma PaddedParts(msg: seq<Byte>, zeros: nat)
    requires zeros == (55 - |msg|) % 64
    ensures Padded(msg) == msg + [0x80] + Zeros(zeros) + LowBytes(8 * |msg|, 8)
  {
    hide LowBytes, Zeros;
  }

  lemma CutAt(msg: seq<Byte>, at: nat, padded: seq<Byte>, zeros: seq<Byte>, length: seq<Byte>)
    requires at <= |msg| && padded == msg + [0x80] + zeros + length
    ensures padded == msg[..at] + (msg[at..] + [0x80] + zeros + length)
  {
    assert msg == msg[..at] + msg[at..];
    Regroup(msg[..at], msg[at..], [0x80], zeros, length);
  }

  /** Room for the padding byte and the length field: one final block. */
  lemma PaddedCut(msg: seq<Byte>, n: nat, zeros: nat)
    requires n <= |msg| && zeros == (55 - |msg|) % 64
    ensures Padded(msg) == msg[..n] + (msg[n..] + [0x80] + Zeros(zeros) + LowBytes(8 * |msg|, 8))
  {
    hide Padded, LowBytes, Zeros;
    PaddedParts(msg, zeros);
    CutAt(msg, n, Padded(msg), Zeros(zeros), LowBytes(8 * |msg|, 8));
  }

  lemma SplitZeros(a: seq<Byte>, b: seq<Byte>, m: nat, n: nat, c: seq<Byte>)
    ensures a + (b + Zeros(m + n) + c) == (a + (b + Zeros(m))) + (Zeros(n) + c)
  {
    assert Zeros(m + n) == Zeros(m) + Zeros(n);
    var z1, z2 := Zeros(m), Zeros(n);
    assert a + (b + (z1 + z2) + c) == (a + (b + z1)) + (z2 + c);
  }

  /** No room for both: two final blocks. */
  lemma PaddedSplit(msg: seq<Byte>, n: nat, zeros: nat)
    requires n <= |msg| && zeros + 56 == (55 - |msg|) % 64
    ensures Padded(msg)
         == (msg[..n] + (msg[n..] + [0x80] + Zeros(zeros))) + (Zeros(56) + LowBytes(8 * |msg|, 8))
  {
    hide Padded, LowBytes, Zeros;
    PaddedCut(msg, n, zeros + 56);
    SplitZeros(msg[..n], msg[n..] + [0x80], zeros, 56, LowBytes(8 * |msg|, 8));
  }

  lemma AbsorbBlock(st: State, bytes: seq<Byte>, block: seq<Byte>)
    requires |bytes| % 64 == 0 && |block| == 64
    ensures Absorb(st, bytes + block) == Compress(Absorb(st, bytes), WordsOf(block))
  {
  }

  /** Blocks are absorbed in order: first those of the front, then those behind it ... */
  lemma {:induction false} AbsorbConcat(st: State, x: seq<Byte>, y: seq<Byte>)
    requires |x| % 64 == 0 && |y| % 64 == 0
    ensures |x + y| % 64 == 0 && Absorb(st, x + y) == Absorb(Absorb(st, x), y)
    decreases |y|
  {
    hide Absorb, Compress, WordsOf;
    if |y| == 0 {
      assert x + y == x && y == [];
      AbsorbNothing(Absorb(st, x));
    } else {
      var front, last := y[..|y| - 64], y[|y| - 64..];
      AbsorbConcat(st, x, front);
      AbsorbBlock(st, x + front, last);
      AbsorbBlock(Absorb(st, x), front, last);
      assert x + y == (x + front) + last && y == front + last;
    }
  }

  lemma AbsorbNothing(st: State)
    ensures Absorb(st, []) == st
  {
  }

  /** ... and each of them by one compression. */
  lemma AbsorbOne(st: State, block: seq<Byte>)
    requires |block| == 64
    ensures Absorb(st, block) == Compress(st, WordsOf(block))
  {
    hide Absorb, Compress, WordsOf;
    AbsorbNothing(st);
    AbsorbBlock(st, [], block);
    assert [] + block == block;
  }

  // ---------- context_md5_t ----------

  /** The bytes that memcpy(at + dst, src, |src|) leaves in a buffer. */
  function Overwritten(dst: seq<Byte>, at: nat, src: seq<Byte>): seq<Byte>
    requires at + |src| <= |dst|
  {
    dst[..at] + src + dst[at + |src|..]
  }

  class Md5Context {
    const buf: array<Word>
    const bits: array<Uint32>
    const input: array<Byte>
    /** Everything that was ever fed to the context. */
    ghost var message: seq<Byte>

    ghost predicate Shape() {
      buf.Length == 4 && bits.Length == 2 && input.Length == 64
    }

    ghost function Buffer(): State
      requires Shape()
      reads buf
    {
      Registers(buf[0], buf[1], buf[2], buf[3])
    }

    /** The counter holds the length, buf the compression of all completed blocks, and the first
        bytes of the input buffer the rest. */
    ghost predicate Valid()
      reads this, buf, bits, input
    {
      && Shape()
      && Counts(bits[0], bits[1], |message|)
      && Buffer() == Absorb(INIT, message[..Full(|message|)])
      && input[..|message| % 64] == message[Full(|message|)..]
    }

    /** MD5Init on a new context. */
    constructor ()
      ensures Valid() && message == []
      ensures fresh(buf) && fresh(bits) && fresh(input)
    {
      buf := new Word[4];
      bits := new Uint32[2];
      input := new Byte[64];
      message := [];
      new;
      Init();
    }

    /** MD5Init */
    method Init()
      requires Shape()
      modifies this, buf, bits
      ensures Valid() && message == []
    {
      buf[0] := 0x67452301;
      buf[1] := 0xefcdab89;
      buf[2] := 0x98badcfe;
      buf[3] := 0x10325476;
      bits[0] := 0;
      bits[1] := 0;
      message := [];
    }

    /** memcpy into the input buffer. */
    method CopyIn(at: nat, src: seq<Byte>)
      requires Shape() && at + |src| <= 64
      modifies input
      ensures input[..] == Overwritten(old(input[..]), at, src)
    {
      for i := 0 to |src|
        invariant forall k :: 0 <= k < 64 ==> input[k] == if at <= k < at + i then src[k - at] else old(input[k])
      {
        input[at + i] := src[i];
      }
    }

    /** MD5Transform(ctx->buf, ctx->in.b32) */
    method CompressInput()
      requires Shape()
      modifies buf
      ensures Buffer() == Compress(old(Buffer()), WordsOf(input[..]))
    {
      Md5.Transform(buf, WordsOf(input[..]));
    }

    /** The bit count, with its carry: whatever number of bytes was counted so far, len more are. */
    method Count(len: Uint32, ghost n: nat)
      requires Shape() && Counts(bits[0], bits[1], n)
      modifies bits
      ensures Counts(bits[0], bits[1], n + len)
    {
      hide Counts;
      CounterStep(bits[0], bits[1], n, len);
      var t := bits[0];
      bits[0] := Add32(t, ShiftLeft3(len));
      if bits[0] < t {
        bits[1] := Add32(bits[1], 1);
      }
      bits[1] := Add32(bits[1], len / 0x2000_0000);
    }

    /** All blocks of the first n bytes of `all` are compressed into the buffer. */
    ghost predicate Compressed(all: seq<Byte>, n: nat)
      requires Shape()
      reads buf
    {
      n <= |all| && n % 64 == 0 && Buffer() == Absorb(INIT, all[..n])
    }

    /** The block in the input buffer is the next one: compress it. */
    method CompressNext(ghost all: seq<Byte>, ghost n: nat)
      requires Shape() && Compressed(all, n) && n + 64 <= |all| && input[..] == all[n..n + 64]
      modifies buf
      ensures Compressed(all, n + 64)
    {
      hide Absorb, Compress, WordsOf;
      CompressInput();
      AbsorbBlock(INIT, all[..n], all[n..n + 64]);
      assert all[..n + 64] == all[..n] + all[n..n + 64];
    }

    /** Completing the block in the input buffer with src, then compressing it. */
    method FillBlock(ghost all: seq<Byte>, ghost n: nat, at: nat, src: seq<Byte>)
      requires Shape() && at + |src| == 64
      requires Compressed(all, n) && n + 64 <= |all| && input[..at] + src == all[n..n + 64]
      modifies buf, input
      ensures Compressed(all, n + 64)
    {
      hide Absorb;
      CopyIn(at, src);
      assert input[..] == all[n..n + 64];
      CompressNext(all, n);
    }

    /** The leading odd-sized chunk: fills up the block in progress. */
    method Lead(ghost all: seq<Byte>, ghost n: nat, data: seq<Byte>, t: nat) returns (room: nat)
      requires Shape() && 0 < t < 64 && 64 - t <= |data|
      requires Compressed(all, n) && n + t + |data| == |all| && input[..t] == all[n..n + t] && data == all[n + t..]
      modifies buf, input
      ensures room == 64 - t && Compressed(all, n + 64)
    {
      room := 64 - t;
      assert input[..t] + data[..room] == all[n..n + 64];
      FillBlock(all, n, t, data[..room]);
    }

    /** The loop over whole blocks; data starts at position `start` of all. */
    method Bulk(ghost all: seq<Byte>, ghost start: nat, data: seq<Byte>, from: nat) returns (pos: nat)
      requires Shape() && start + |data| == |all| && all[start..] == data && from <= |data|
      requires Compressed(all, start + from)
      modifies buf, input
      ensures from <= pos <= |data| < pos + 64 && Compressed(all, start + pos)
    {
      hide Absorb;
      pos := from;
      while |data| - pos >= 64
        invariant from <= pos <= |data| && Compressed(all, start + pos)
        decreases |data| - pos
      {
        assert input[..0] + data[pos..pos + 64] == all[start + pos..start + pos + 64];
        FillBlock(all, start + pos, 0, data[pos..pos + 64]);
        pos := pos + 64;
      }
    }

    /** MD5Update: whatever has been fed so far, feeding `data` appends it to the message. */
    method Update(data: seq<Byte>)
      requires Valid() && |data| < TWO32
      modifies this, buf, bits, input
      ensures Valid() && message == old(message) + data
    {
      hide Absorb, Counts;
      ghost var before := message;
      ghost var n := Full(|before|);
      var len := |data|;
      CounterPosition(bits[0], bits[1], |before|);
      var t := (bits[0] / 8) % 64;
      Count(len, |before|);
      message := before + data;
      Appended(before, data);
      var pos := 0;
      if t > 0 {
        if len < 64 - t {
          CopyIn(t, data);
          return;
        }
        pos := Lead(message, n, data, t);
      }
      pos := Bulk(message, |before|, data, pos);
      CopyIn(0, data[pos..]);
      RestOf(before, data, pos);
    }

    /** The padding byte and the zeros up to the length field; a block that has no room for the
        length field is compressed on the way. */
    method Pad(count: nat)
      requires Valid() && count == |message| % 64
      modifies buf, input
      ensures var all := Padded(message);
              |all| >= 64 && Compressed(all, |all| - 64) && input[..56] == all[|all| - 64..|all| - 8]
    {
      hide Absorb, Counts, LowBytes, Padded, Zeros;
      ghost var all, n := Padded(message), Full(|message|);
      PaddedBlocks(message);
      assert all[..n] == message[..n];
      CopyIn(count, [0x80]);
      assert input[..count + 1] == message[n..] + [0x80];
      var room := 64 - 1 - count;
      if room < 8 {
        CopyIn(count + 1, Zeros(room));
        assert input[..] == all[n..n + 64];
        CompressNext(all, n);
        CopyIn(0, Zeros(56));
      } else {
        CopyIn(count + 1, Zeros(room - 8));
        assert input[..56] == message[n..] + [0x80] + Zeros(room - 8);
      }
    }

    /** MD5Final: the digest of RFC 1321 of everything that was fed; then the context is wiped. */
    method Final(digest: array<Byte>)
      requires Valid() && digest.Length == 16 && digest != input
      modifies this, buf, bits, input, digest
      ensures digest[..] == Digest(old(message))
      ensures buf[..] == [0, 0, 0, 0] && bits[..] == [0, 0] && input[..] == Zeros(64)
    {
      hide Absorb, LowBytes, Padded, Output, Counts;
      ghost var all := Padded(message);
      ghost var n := |message|;
      CounterPosition(bits[0], bits[1], n);
      LengthField(bits[0], bits[1], n);
      PaddedEnd(message);
      var count := (bits[0] / 8) % 64;
      Pad(count);
      CopyIn(56, LowBytes(bits[0], 4));
      CopyIn(60, LowBytes(bits[1], 4));
      assert input[..] == all[|all| - 64..];
      CompressNext(all, |all| - 64);
      assert all[..|all|] == all;
      var out := Output(Registers(buf[0], buf[1], buf[2], buf[3]));
      forall i | 0 <= i < 16 {
        digest[i] := out[i];
      }
      buf[0], buf[1], buf[2], buf[3] := 0, 0, 0, 0;
      bits[0], bits[1] := 0, 0;
      CopyIn(0, Zeros(64));
      assert digest[..] == out;
    }
  }

  lemma Appended(before: seq<Byte>, data: seq<Byte>)
    ensures var all, n, t := before + data, Full(|before|), |before| % 64;
            && n % 64 == 0 && n + t == |before|
            && all[..n] == before[..n]
            && all[n..n + t] == before[n..]
            && all[n + t..] == data
            && (t + |data| < 64 ==> Full(|all|) == n && |all| % 64 == t + |data| && all[n..] == before[n..] + data)
  {
  }

  /** What is left after the last whole block. */
  lemma RestOf(before: seq<Byte>, data: seq<Byte>, pos: nat)
    requires pos <= |data| < pos + 64 && (|before| + pos) % 64 == 0
    ensures var all := before + data;
            Full(|all|) == |before| + pos && |all| % 64 == |data| - pos && all[Full(|all|)..] == data[pos..]
  {
  }

  lemma PaddedEnd(msg: seq<Byte>)
    ensures |Padded(msg)| >= 64
    ensures Padded(msg)[|Padded(msg)| - 8..] == LowBytes(8 * |msg|, 8)
  {
    hide LowBytes;
    PaddedLength(|msg|);
  }

  /** The last one or two blocks of the padded message. */
  lemma PaddedBlocks(msg: seq<Byte>)
    ensures var all, n := Padded(msg), Full(|msg|);
            && n <= |msg| && n % 64 == 0 && all[..n] == msg[..n]
            && (|msg| % 64 < 56 ==>
                  |all| == n + 64 && all[n..n + 56] == msg[n..] + [0x80] + Zeros(55 - |msg| % 64))
            && (|msg| % 64 >= 56 ==>
                  |all| == n + 128 && all[n..n + 64] == msg[n..] + [0x80] + Zeros(63 - |msg| % 64)
                  && all[n + 64..n + 120] == Zeros(56))
  {
    hide LowBytes, Padded;
    ZeroCount(|msg|);
    if |msg| % 64 < 56 {
      PaddedCut(msg, Full(|msg|), 55 - |msg| % 64);
    } else {
      PaddedSplit(msg, Full(|msg|), 63 - |msg| % 64);
    }
  }

  // ---------- Any chunking ----------

  function Concat(chunks: seq<seq<Byte>>): seq<Byte> {
    if |chunks| == 0 then [] else Concat(chunks[..|chunks| - 1]) + chunks[|chunks| - 1]
  }

  /** Joining keeps the pieces in order. */
  lemma {:induction false} ConcatLaws(a: seq<seq<Byte>>, b: seq<seq<Byte>>, chunk: seq<Byte>)
    ensures Concat([chunk]) == chunk && Concat(a + b) == Concat(a) + Concat(b)
  {
    assert [chunk][..0] == [];
    if |b| == 0 {
      assert a + b == a;
    } else {
      assert (a + b)[..|a + b| - 1] == a + b[..|b| - 1];
      ConcatLaws(a, b[..|b| - 1], chunk);
    }
  }

  /** However a message is cut into updates, the digest is that of the whole message. */
  method DigestOfChunks(chunks: seq<seq<Byte>>) returns (digest: seq<Byte>)
    requires forall i :: 0 <= i < |chunks| ==> |chunks[i]| < TWO32
    ensures digest == Digest(Concat(chunks))
  {
    var context := new Md5Context();
    for i := 0 to |chunks|
      invariant context.Valid() && context.message == Concat(chunks[..i])
      invariant fresh(context) && fresh(context.buf) && fresh(context.bits) && fresh(context.input)
    {
      context.Update(chunks[i]);
      assert chunks[..i + 1][..i] == chunks[..i];
    }
    assert chunks[..|chunks|] == chunks;
    var out := new Byte[16];
    context.Final(out);
    digest := out[..];
  }
}
