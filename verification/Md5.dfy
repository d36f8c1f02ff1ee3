/** libmd5: the context and the functions on it, on a little-endian machine. */
module Md5 {
  import opened Rfc1321

  // ---------- The macros ----------

  function F1(x: Word, y: Word, z: Word): Word { z ^ (x & (y ^ z)) }

  function F2(x: Word, y: Word, z: Word): Word { F1(z, x, y) }

  function F3(x: Word, y: Word, z: Word): Word { x ^ y ^ z }

  function F4(x: Word, y: Word, z: Word): Word { y ^ (x | !z) }

  /** MD5STEP, given the value of f(x, y, z): what is assigned to w. */
  function Step(f: Word, w: Word, x: Word, data: Word, s: nat): Word
    requires s <= 32
  {
    RotateLeft(w + (f + data), s) + x
  }

  lemma Choose(x: Word, y: Word, z: Word)
    ensures z ^ (x & (y ^ z)) == (x & y) | (!x & z)
  {
  }

  lemma Commute(x: Word, y: Word, z: Word)
    ensures (z & x) | (!z & y) == (x & z) | (y & !z)
  {
  }

  lemma F1IsF(x: Word, y: Word, z: Word)
    ensures F1(x, y, z) == F(x, y, z)
  {
    Choose(x, y, z);
  }

  lemma F2IsG(x: Word, y: Word, z: Word)
    ensures F2(x, y, z) == G(x, y, z)
  {
    Choose(z, x, y);
    Commute(x, y, z);
  }

  /** The core function that a round uses. */
  function Core(round: nat, x: Word, y: Word, z: Word): Word {
    match round
    case 0 => F1(x, y, z)
    case 1 => F2(x, y, z)
    case 2 => F3(x, y, z)
    case _ => F4(x, y, z)
  }

  /** The rewritten core functions are those of the standard. */
  lemma CoreFunctions(round: nat, x: Word, y: Word, z: Word)
    ensures Core(round, x, y, z) == Auxiliary(round, x, y, z)
  {
    hide F1, F2, F, G;
    F1IsF(x, y, z);
    F2IsG(x, y, z);
  }

  lemma Sums(w: Word, f: Word, d: Word, t: Word, s: nat, x: Word)
    requires s <= 32
    ensures Step(f, w, x, d + t, s) == Mixed(w, x, f, d, t, s)
  {
  }

  lemma StepIsOperation(round: nat, X: seq<Word>, i: nat, r: State, f: Word, data: Word, t: Word, s: nat)
    requires round < 4 && i < 16 && |X| == 16 && s <= 32
    requires f == Core(round, r.b, r.c, r.d) && data == X[Schedule(round, i)]
    requires t == T(round, i) && s == Shift(round, i)
    ensures Step(f, r.a, r.b, data + t, s) == Operation(round, X, i, r)
  {
    hide Step, Mixed, Core, Auxiliary, Schedule, T, Shift;
    CoreFunctions(round, r.b, r.c, r.d);
    Sums(r.a, f, data, t, s, r.b);
  }

  /** MD5STEP(f, w, x, y, z, data + t, s), as operation i of a round. */
  method Md5Step(ghost round: nat, ghost i: nat, ghost X: seq<Word>,
                 f: Word, w: Word, x: Word, ghost y: Word, ghost z: Word, data: Word, t: Word, s: nat)
    returns (w': Word)
    requires round < 4 && i < 16 && |X| == 16 && s <= 32
    requires f == Core(round, x, y, z) && data == X[Schedule(round, i)]
    requires t == T(round, i) && s == Shift(round, i)
    ensures w' == Operation(round, X, i, Registers(w, x, y, z))
  {
    hide Step, Core, Schedule, T, Shift, Operation;
    StepIsOperation(round, X, i, Registers(w, x, y, z), f, data, t, s);
    w' := Step(f, w, x, data + t, s);
  }

  /** After four operations every register is back in its first role. */
  lemma FourTurns<W(!new)>(op: (nat, Registers<W>) --> W, r: Registers<W>, n: nat)
    requires forall i: nat, s: Registers<W> :: i < n + 4 ==> op.requires(i, s)
    ensures var s := Turns(op, r, n);
            var a := op(n, s);
            var d := op(n + 1, Registers(s.d, a, s.b, s.c));
            var c := op(n + 2, Registers(s.c, d, a, s.b));
            var b := op(n + 3, Registers(s.b, c, d, a));
            Turns(op, r, n + 4) == Registers(a, b, c, d)
  {
    var s := Turns(op, r, n);
    var s1 := Turns(op, r, n + 1);
    var s2 := Turns(op, r, n + 2);
    var s3 := Turns(op, r, n + 3);
    assert s1 == Registers(s.d, op(n, s), s.b, s.c);
    assert s2 == Registers(s1.d, op(n + 1, s1), s1.b, s1.c);
    assert s3 == Registers(s2.d, op(n + 2, s2), s2.b, s2.c);
  }

  lemma FourOperations(st: State, X: seq<Word>, round: nat, n: nat)
    requires round < 4 && |X| == 16 && n + 4 <= 16
    ensures var s := Operations(st, X, round, n);
            var a := Operation(round, X, n, s);
            var d := Operation(round, X, n + 1, Registers(s.d, a, s.b, s.c));
            var c := Operation(round, X, n + 2, Registers(s.c, d, a, s.b));
            var b := Operation(round, X, n + 3, Registers(s.b, c, d, a));
            Operations(st, X, round, n + 4) == Registers(a, b, c, d)
  {
    hide Operation;
    FourTurns(RoundOperation(round, X), st, n);
  }

  // ---------- MD5Transform, four steps at a time ----------

  method Round1First(ghost st: State, X: seq<Word>, r: State) returns (out: State)
    requires |X| == 16 && r == Operations(st, X, 0, 0)
    ensures out == Operations(st, X, 0, 4)
  {
    hide F1, F2, F3, F4, Operation, Operations;
    var Registers(a, b, c, d) := r;
    a := Md5Step(0, 0, X, F1(b, c, d), a, b, c, d, X[0], 0xd76aa478, 7);
    d := Md5Step(0, 1, X, F1(a, b, c), d, a, b, c, X[1], 0xe8c7b756, 12);
    c := Md5Step(0, 2, X, F1(d, a, b), c, d, a, b, X[2], 0x242070db, 17);
    b := Md5Step(0, 3, X, F1(c, d, a), b, c, d, a, X[3], 0xc1bdceee, 22);
    FourOperations(st, X, 0, 0);
    out := Registers(a, b, c, d);
  }

  method Round1Second(ghost st: State, X: seq<Word>, r: State) returns (out: State)
    requires |X| == 16 && r == Operations(st, X, 0, 4)
    ensures out == Operations(st, X, 0, 8)
  {
    hide F1, F2, F3, F4, Operation, Operations;
    var Registers(a, b, c, d) := r;
    a := Md5Step(0, 4, X, F1(b, c, d), a, b, c, d, X[4], 0xf57c0faf, 7);
    d := Md5Step(0, 5, X, F1(a, b, c), d, a, b, c, X[5], 0x4787c62a, 12);
    c := Md5Step(0, 6, X, F1(d, a, b), c, d, a, b, X[6], 0xa8304613, 17);
    b := Md5Step(0, 7, X, F1(c, d, a), b, c, d, a, X[7], 0xfd469501, 22);
    FourOperations(st, X, 0, 4);
    out := Registers(a, b, c, d);
  }

  method Round1Third(ghost st: State, X: seq<Word>, r: State) returns (out: State)
    requires |X| == 16 && r == Operations(st, X, 0, 8)
    ensures out == Operations(st, X, 0, 12)
  {
    hide F1, F2, F3, F4, Operation, Operations;
    var Registers(a, b, c, d) := r;
    a := Md5Step(0, 8, X, F1(b, c, d), a, b, c, d, X[8], 0x698098d8, 7);
    d := Md5Step(0, 9, X, F1(a, b, c), d, a, b, c, X[9], 0x8b44f7af, 12);
    c := Md5Step(0, 10, X, F1(d, a, b), c, d, a, b, X[10], 0xffff5bb1, 17);
    b := Md5Step(0, 11, X, F1(c, d, a), b, c, d, a, X[11], 0x895cd7be, 22);
    FourOperations(st, X, 0, 8);
    out := Registers(a, b, c, d);
  }

  method Round1Last(ghost st: State, X: seq<Word>, r: State) returns (out: State)
    requires |X| == 16 && r == Operations(st, X, 0, 12)
    ensures out == Operations(st, X, 0, 16)
  {
    hide F1, F2, F3, F4, Operation, Operations;
    var Registers(a, b, c, d) := r;
    a := Md5Step(0, 12, X, F1(b, c, d), a, b, c, d, X[12], 0x6b901122, 7);
    d := Md5Step(0, 13, X, F1(a, b, c), d, a, b, c, X[13], 0xfd987193, 12);
    c := Md5Step(0, 14, X, F1(d, a, b), c, d, a, b, X[14], 0xa679438e, 17);
    b := Md5Step(0, 15, X, F1(c, d, a), b, c, d, a, X[15], 0x49b40821, 22);
    FourOperations(st, X, 0, 12);
    out := Registers(a, b, c, d);
  }

  /** Round 1, all sixteen steps. */
  method Round1(ghost st: State, X: seq<Word>, r: State) returns (out: State)
    requires |X| == 16 && r == Operations(st, X, 0, 0)
    ensures out == Operations(st, X, 0, 16)
  {
    hide Operations;
    out := Round1First(st, X, r);
    out := Round1Second(st, X, out);
    out := Round1Third(st, X, out);
    out := Round1Last(st, X, out);
  }

  method Round2First(ghost st: State, X: seq<Word>, r: State) returns (out: State)
    requires |X| == 16 && r == Operations(st, X, 1, 0)
    ensures out == Operations(st, X, 1, 4)
  {
    hide F1, F2, F3, F4, Operation, Operations;
    var Registers(a, b, c, d) := r;
    a := Md5Step(1, 0, X, F2(b, c, d), a, b, c, d, X[1], 0xf61e2562, 5);
    d := Md5Step(1, 1, X, F2(a, b, c), d, a, b, c, X[6], 0xc040b340, 9);
    c := Md5Step(1, 2, X, F2(d, a, b), c, d, a, b, X[11], 0x265e5a51, 14);
    b := Md5Step(1, 3, X, F2(c, d, a), b, c, d, a, X[0], 0xe9b6c7aa, 20);
    FourOperations(st, X, 1, 0);
    out := Registers(a, b, c, d);
  }

  method Round2Second(ghost st: State, X: seq<Word>, r: State) returns (out: State)
    requires |X| == 16 && r == Operations(st, X, 1, 4)
    ensures out == Operations(st, X, 1, 8)
  {
    hide F1, F2, F3, F4, Operation, Operations;
    var Registers(a, b, c, d) := r;
    a := Md5Step(1, 4, X, F2(b, c, d), a, b, c, d, X[5], 0xd62f105d, 5);
    d := Md5Step(1, 5, X, F2(a, b, c), d, a, b, c, X[10], 0x02441453, 9);
    c := Md5Step(1, 6, X, F2(d, a, b), c, d, a, b, X[15], 0xd8a1e681, 14);
    b := Md5Step(1, 7, X, F2(c, d, a), b, c, d, a, X[4], 0xe7d3fbc8, 20);
    FourOperations(st, X, 1, 4);
    out := Registers(a, b, c, d);
  }

  method Round2Third(ghost st: State, X: seq<Word>, r: State) returns (out: State)
    requires |X| == 16 && r == Operations(st, X, 1, 8)
    ensures out == Operations(st, X, 1, 12)
  {
    hide F1, F2, F3, F4, Operation, Operations;
    var Registers(a, b, c, d) := r;
    a := Md5Step(1, 8, X, F2(b, c, d), a, b, c, d, X[9], 0x21e1cde6, 5);
    d := Md5Step(1, 9, X, F2(a, b, c), d, a, b, c, X[14], 0xc33707d6, 9);
    c := Md5Step(1, 10, X, F2(d, a, b), c, d, a, b, X[3], 0xf4d50d87, 14);
    b := Md5Step(1, 11, X, F2(c, d, a), b, c, d, a, X[8], 0x455a14ed, 20);
    FourOperations(st, X, 1, 8);
    out := Registers(a, b, c, d);
  }

  method Round2Last(ghost st: State, X: seq<Word>, r: State) returns (out: State)
    requires |X| == 16 && r == Operations(st, X, 1, 12)
    ensures out == Operations(st, X, 1, 16)
  {
    hide F1, F2, F3, F4, Operation, Operations;
    var Registers(a, b, c, d) := r;
    a := Md5Step(1, 12, X, F2(b, c, d), a, b, c, d, X[13], 0xa9e3e905, 5);
    d := Md5Step(1, 13, X, F2(a, b, c), d, a, b, c, X[2], 0xfcefa3f8, 9);
    c := Md5Step(1, 14, X, F2(d, a, b), c, d, a, b, X[7], 0x676f02d9, 14);
    b := Md5Step(1, 15, X, F2(c, d, a), b, c, d, a, X[12], 0x8d2a4c8a, 20);
    FourOperations(st, X, 1, 12);
    out := Registers(a, b, c, d);
  }

  /** Round 2, all sixteen steps. */
  method Round2(ghost st: State, X: seq<Word>, r: State) returns (out: State)
    requires |X| == 16 && r == Operations(st, X, 1, 0)
    ensures out == Operations(st, X, 1, 16)
  {
    hide Operations;
    out := Round2First(st, X, r);
    out := Round2Second(st, X, out);
    out := Round2Third(st, X, out);
    out := Round2Last(st, X, out);
  }

  method Round3First(ghost st: State, X: seq<Word>, r: State) returns (out: State)
    requires |X| == 16 && r == Operations(st, X, 2, 0)
    ensures out == Operations(st, X, 2, 4)
  {
    hide F1, F2, F3, F4, Operation, Operations;
    var Registers(a, b, c, d) := r;
    a := Md5Step(2, 0, X, F3(b, c, d), a, b, c, d, X[5], 0xfffa3942, 4);
    d := Md5Step(2, 1, X, F3(a, b, c), d, a, b, c, X[8], 0x8771f681, 11);
    c := Md5Step(2, 2, X, F3(d, a, b), c, d, a, b, X[11], 0x6d9d6122, 16);
    b := Md5Step(2, 3, X, F3(c, d, a), b, c, d, a, X[14], 0xfde5380c, 23);
    FourOperations(st, X, 2, 0);
    out := Registers(a, b, c, d);
  }

  method Round3Second(ghost st: State, X: seq<Word>, r: State) returns (out: State)
    requires |X| == 16 && r == Operations(st, X, 2, 4)
    ensures out == Operations(st, X, 2, 8)
  {
    hide F1, F2, F3, F4, Operation, Operations;
    var Registers(a, b, c, d) := r;
    a := Md5Step(2, 4, X, F3(b, c, d), a, b, c, d, X[1], 0xa4beea44, 4);
    d := Md5Step(2, 5, X, F3(a, b, c), d, a, b, c, X[4], 0x4bdecfa9, 11);
    c := Md5Step(2, 6, X, F3(d, a, b), c, d, a, b, X[7], 0xf6bb4b60, 16);
    b := Md5Step(2, 7, X, F3(c, d, a), b, c, d, a, X[10], 0xbebfbc70, 23);
    FourOperations(st, X, 2, 4);
    out := Registers(a, b, c, d);
  }

  method Round3Third(ghost st: State, X: seq<Word>, r: State) returns (out: State)
    requires |X| == 16 && r == Operations(st, X, 2, 8)
    ensures out == Operations(st, X, 2, 12)
  {
    hide F1, F2, F3, F4, Operation, Operations;
    var Registers(a, b, c, d) := r;
    a := Md5Step(2, 8, X, F3(b, c, d), a, b, c, d, X[13], 0x289b7ec6, 4);
    d := Md5Step(2, 9, X, F3(a, b, c), d, a, b, c, X[0], 0xeaa127fa, 11);
    c := Md5Step(2, 10, X, F3(d, a, b), c, d, a, b, X[3], 0xd4ef3085, 16);
    b := Md5Step(2, 11, X, F3(c, d, a), b, c, d, a, X[6], 0x04881d05, 23);
    FourOperations(st, X, 2, 8);
    out := Registers(a, b, c, d);
  }

  method Round3Last(ghost st: State, X: seq<Word>, r: State) returns (out: State)
    requires |X| == 16 && r == Operations(st, X, 2, 12)
    ensures out == Operations(st, X, 2, 16)
  {
    hide F1, F2, F3, F4, Operation, Operations;
    var Registers(a, b, c, d) := r;
    a := Md5Step(2, 12, X, F3(b, c, d), a, b, c, d, X[9], 0xd9d4d039, 4);
    d := Md5Step(2, 13, X, F3(a, b, c), d, a, b, c, X[12], 0xe6db99e5, 11);
    c := Md5Step(2, 14, X, F3(d, a, b), c, d, a, b, X[15], 0x1fa27cf8, 16);
    b := Md5Step(2, 15, X, F3(c, d, a), b, c, d, a, X[2], 0xc4ac5665, 23);
    FourOperations(st, X, 2, 12);
    out := Registers(a, b, c, d);
  }

  /** Round 3, all sixteen steps. */
  method Round3(ghost st: State, X: seq<Word>, r: State) returns (out: State)
    requires |X| == 16 && r == Operations(st, X, 2, 0)
    ensures out == Operations(st, X, 2, 16)
  {
    hide Operations;
    out := Round3First(st, X, r);
    out := Round3Second(st, X, out);
    out := Round3Third(st, X, out);
    out := Round3Last(st, X, out);
  }

  method Round4First(ghost st: State, X: seq<Word>, r: State) returns (out: State)
    requires |X| == 16 && r == Operations(st, X, 3, 0)
    ensures out == Operations(st, X, 3, 4)
  {
    hide F1, F2, F3, F4, Operation, Operations;
    var Registers(a, b, c, d) := r;
    a := Md5Step(3, 0, X, F4(b, c, d), a, b, c, d, X[0], 0xf4292244, 6);
    d := Md5Step(3, 1, X, F4(a, b, c), d, a, b, c, X[7], 0x432aff97, 10);
    c := Md5Step(3, 2, X, F4(d, a, b), c, d, a, b, X[14], 0xab9423a7, 15);
    b := Md5Step(3, 3, X, F4(c, d, a), b, c, d, a, X[5], 0xfc93a039, 21);
    FourOperations(st, X, 3, 0);
    out := Registers(a, b, c, d);
  }

  method Round4Second(ghost st: State, X: seq<Word>, r: State) returns (out: State)
    requires |X| == 16 && r == Operations(st, X, 3, 4)
    ensures out == Operations(st, X, 3, 8)
  {
    hide F1, F2, F3, F4, Operation, Operations;
    var Registers(a, b, c, d) := r;
    a := Md5Step(3, 4, X, F4(b, c, d), a, b, c, d, X[12], 0x655b59c3, 6);
    d := Md5Step(3, 5, X, F4(a, b, c), d, a, b, c, X[3], 0x8f0ccc92, 10);
    c := Md5Step(3, 6, X, F4(d, a, b), c, d, a, b, X[10], 0xffeff47d, 15);
    b := Md5Step(3, 7, X, F4(c, d, a), b, c, d, a, X[1], 0x85845dd1, 21);
    FourOperations(st, X, 3, 4);
    out := Registers(a, b, c, d);
  }

  method Round4Third(ghost st: State, X: seq<Word>, r: State) returns (out: State)
    requires |X| == 16 && r == Operations(st, X, 3, 8)
    ensures out == Operations(st, X, 3, 12)
  {
    hide F1, F2, F3, F4, Operation, Operations;
    var Registers(a, b, c, d) := r;
    a := Md5Step(3, 8, X, F4(b, c, d), a, b, c, d, X[8], 0x6fa87e4f, 6);
    d := Md5Step(3, 9, X, F4(a, b, c), d, a, b, c, X[15], 0xfe2ce6e0, 10);
    c := Md5Step(3, 10, X, F4(d, a, b), c, d, a, b, X[6], 0xa3014314, 15);
    b := Md5Step(3, 11, X, F4(c, d, a), b, c, d, a, X[13], 0x4e0811a1, 21);
    FourOperations(st, X, 3, 8);
    out := Registers(a, b, c, d);
  }

  method Round4Last(ghost st: State, X: seq<Word>, r: State) returns (out: State)
    requires |X| == 16 && r == Operations(st, X, 3, 12)
    ensures out == Operations(st, X, 3, 16)
  {
    hide F1, F2, F3, F4, Operation, Operations;
    var Registers(a, b, c, d) := r;
    a := Md5Step(3, 12, X, F4(b, c, d), a, b, c, d, X[4], 0xf7537e82, 6);
    d := Md5Step(3, 13, X, F4(a, b, c), d, a, b, c, X[11], 0xbd3af235, 10);
    c := Md5Step(3, 14, X, F4(d, a, b), c, d, a, b, X[2], 0x2ad7d2bb, 15);
    b := Md5Step(3, 15, X, F4(c, d, a), b, c, d, a, X[9], 0xeb86d391, 21);
    FourOperations(st, X, 3, 12);
    out := Registers(a, b, c, d);
  }

  /** Round 4, all sixteen steps. */
  method Round4(ghost st: State, X: seq<Word>, r: State) returns (out: State)
    requires |X| == 16 && r == Operations(st, X, 3, 0)
    ensures out == Operations(st, X, 3, 16)
  {
    hide Operations;
    out := Round4First(st, X, r);
    out := Round4Second(st, X, out);
    out := Round4Third(st, X, out);
    out := Round4Last(st, X, out);
  }

  lemma NoRounds(st: State, X: seq<Word>)
    requires |X| == 16
    ensures Rounds(st, X, 0) == st
  {
  }

  lemma NextRound(st: State, X: seq<Word>, k: nat, r: State)
    requires |X| == 16 && k < 4 && r == Rounds(st, X, k)
    ensures r == Operations(r, X, k, 0) && Operations(r, X, k, 16) == Rounds(st, X, k + 1)
  {
  }

  /** MD5Transform: the 64 steps, then the sums with the old buffer. */
  method Transform(buf: array<Word>, X: seq<Word>)
    requires buf.Length == 4 && |X| == 16
    modifies buf
    ensures Registers(buf[0], buf[1], buf[2], buf[3])
         == Compress(Registers(old(buf[0]), old(buf[1]), old(buf[2]), old(buf[3])), X)
  {
    hide Operations, Rounds, Sum;
    ghost var st: State := Registers(buf[0], buf[1], buf[2], buf[3]);
    var r := Registers(buf[0], buf[1], buf[2], buf[3]);
    NoRounds(st, X);
    NextRound(st, X, 0, r);
    ghost var r0 := r;
    r := Round1(r0, X, r);
    NextRound(st, X, 1, r);
    ghost var r1 := r;
    r := Round2(r1, X, r);
    NextRound(st, X, 2, r);
    ghost var r2 := r;
    r := Round3(r2, X, r);
    NextRound(st, X, 3, r);
    ghost var r3 := r;
    r := Round4(r3, X, r);
    buf[0] := Sum(buf[0], r.a);
    buf[1] := Sum(buf[1], r.b);
    buf[2] := Sum(buf[2], r.c);
    buf[3] := Sum(buf[3], r.d);
  }
}
