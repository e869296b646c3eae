/**
 * The MD5 message-digest algorithm as sections 3.1 to 3.5 of RFC 1321 define it: pad, append the
 * bit length, cut into 64-byte blocks, fold the table-driven 64-step compression over the blocks.
 * This is the reference that the streaming, unrolled form in `HashMd5` is proved against.
 */
module Rfc1321 {
  import opened LittleEndian
  import opened Words

  /** The four registers A, B, C, D. */
  datatype Regs = Regs(a: Word, b: Word, c: Word, d: Word)

  const INITIAL: Regs := Regs(Word(0x67452301), Word(0xefcdab89), Word(0x98badcfe), Word(0x10325476))

  // ----- section 3.4: one step -----

  /** The auxiliary function of step i (counting from 0): F, G, H, I for the four rounds. */
  function Aux(i: nat, x: Word, y: Word, z: Word): Word {
    if i < 16 then F(x, y, z) else if i < 32 then G(x, y, z) else if i < 48 then H(x, y, z) else I(x, y, z)
  }

  /** Line [abcd k s i] of section 3.4 with T[i] filled in: word k is added, s is the rotation. */
  datatype Line = Line(k: nat, s: nat, t: bv32)

  /** The 64 lines, one table a round. T[i] is the integer part of 4294967296 * abs(sin(i)), i from 1. */
  function Schedule(i: nat): (l: Line)
    ensures l.k < 16 && l.s <= 32
  {
    if i < 16 then Table1(i) else if i < 32 then Table2(i) else if i < 48 then Table3(i) else Table4(i)
  }

  function Table1(i: nat): Line {
    match i
    case 0 => Line(0, 7, 0xd76aa478) case 1 => Line(1, 12, 0xe8c7b756)
    case 2 => Line(2, 17, 0x242070db) case 3 => Line(3, 22, 0xc1bdceee)
    case 4 => Line(4, 7, 0xf57c0faf) case 5 => Line(5, 12, 0x4787c62a)
    case 6 => Line(6, 17, 0xa8304613) case 7 => Line(7, 22, 0xfd469501)
    case 8 => Line(8, 7, 0x698098d8) case 9 => Line(9, 12, 0x8b44f7af)
    case 10 => Line(10, 17, 0xffff5bb1) case 11 => Line(11, 22, 0x895cd7be)
    case 12 => Line(12, 7, 0x6b901122) case 13 => Line(13, 12, 0xfd987193)
    case 14 => Line(14, 17, 0xa679438e) case _ => Line(15, 22, 0x49b40821)
  }

  function Table2(i: nat): Line {
    match i
    case 16 => Line(1, 5, 0xf61e2562) case 17 => Line(6, 9, 0xc040b340)
    case 18 => Line(11, 14, 0x265e5a51) case 19 => Line(0, 20, 0xe9b6c7aa)
    case 20 => Line(5, 5, 0xd62f105d) case 21 => Line(10, 9, 0x02441453)
    case 22 => Line(15, 14, 0xd8a1e681) case 23 => Line(4, 20, 0xe7d3fbc8)
    case 24 => Line(9, 5, 0x21e1cde6) case 25 => Line(14, 9, 0xc33707d6)
    case 26 => Line(3, 14, 0xf4d50d87) case 27 => Line(8, 20, 0x455a14ed)
    case 28 => Line(13, 5, 0xa9e3e905) case 29 => Line(2, 9, 0xfcefa3f8)
    case 30 => Line(7, 14, 0x676f02d9) case _ => Line(12, 20, 0x8d2a4c8a)
  }

  function Table3(i: nat): Line {
    match i
    case 32 => Line(5, 4, 0xfffa3942) case 33 => Line(8, 11, 0x8771f681)
    case 34 => Line(11, 16, 0x6d9d6122) case 35 => Line(14, 23, 0xfde5380c)
    case 36 => Line(1, 4, 0xa4beea44) case 37 => Line(4, 11, 0x4bdecfa9)
    case 38 => Line(7, 16, 0xf6bb4b60) case 39 => Line(10, 23, 0xbebfbc70)
    case 40 => Line(13, 4, 0x289b7ec6) case 41 => Line(0, 11, 0xeaa127fa)
    case 42 => Line(3, 16, 0xd4ef3085) case 43 => Line(6, 23, 0x04881d05)
    case 44 => Line(9, 4, 0xd9d4d039) case 45 => Line(12, 11, 0xe6db99e5)
    case 46 => Line(15, 16, 0x1fa27cf8) case _ => Line(2, 23, 0xc4ac5665)
  }

  function Table4(i: nat): Line {
    match i
    case 48 => Line(0, 6, 0xf4292244) case 49 => Line(7, 10, 0x432aff97)
    case 50 => Line(14, 15, 0xab9423a7) case 51 => Line(5, 21, 0xfc93a039)
    case 52 => Line(12, 6, 0x655b59c3) case 53 => Line(3, 10, 0x8f0ccc92)
    case 54 => Line(10, 15, 0xffeff47d) case 55 => Line(1, 21, 0x85845dd1)
    case 56 => Line(8, 6, 0x6fa87e4f) case 57 => Line(15, 10, 0xfe2ce6e0)
    case 58 => Line(6, 15, 0xa3014314) case 59 => Line(13, 21, 0x4e0811a1)
    case 60 => Line(4, 6, 0xf7537e82) case 61 => Line(11, 10, 0xbd3af235)
    case 62 => Line(2, 15, 0x2ad7d2bb) case _ => Line(9, 21, 0xeb86d391)
  }

  lemma ShiftInUse(i: nat)
    ensures Schedule(i).s in SHIFTS
  {
  }

  /** ((a + Aux(b, c, d) + X[k] + T[i]) <<< s) + b. */
  function StepWord(i: nat, s: Regs, x: Word): Word {
    Plus(Rotate(Plus(Plus(Plus(s.a, Aux(i, s.b, s.c, s.d)), x), Word(Schedule(i).t)), Schedule(i).s), s.b)
  }

  /** Word n of a block. */
  function BlockWord(blk: seq<Byte>, n: nat): Word
    requires |blk| == 64 && n < 16
  {
    LoadWord(blk[4 * n], blk[4 * n + 1], blk[4 * n + 2], blk[4 * n + 3])
  }

  /** The registers after the first n steps on block blk. The roles of the registers turn by one place a step. */
  function Steps(blk: seq<Byte>, s: Regs, n: nat): Regs
    requires |blk| == 64
  {
    if n == 0 then s else
      var p := Steps(blk, s, n - 1);
      Regs(p.d, StepWord(n - 1, p, BlockWord(blk, Schedule(n - 1).k)), p.b, p.c)
  }

  function Compress(s: Regs, blk: seq<Byte>): Regs
    requires |blk| == 64
  {
    var r := Steps(blk, s, 64);
    Regs(Plus(r.a, s.a), Plus(r.b, s.b), Plus(r.c, s.c), Plus(r.d, s.d))
  }

  /** n bytes are a whole number of blocks. */
  predicate Aligned(n: int) {
    n % 64 == 0
  }

  lemma AlignedSum(m: int, n: int)
    requires Aligned(m) && n % 64 == 0
    ensures Aligned(m + n) && Aligned(m - n) && Aligned(64)
  {
  }

  /** Left fold of Compress over the 64-byte blocks of m. */
  function Fold(s: Regs, m: seq<Byte>): Regs
    requires Aligned(|m|)
    decreases |m|
  {
    if |m| == 0 then s else Compress(Fold(s, m[..|m| - 64]), m[|m| - 64..])
  }

  // ----- sections 3.1, 3.2 and 3.5 -----

  /** The k low-order bytes of n, lowest first. */
  function LeBytes(n: nat, k: nat): (r: seq<Byte>)
    ensures |r| == k
  {
    if k == 0 then [] else [(n % 256) as Byte] + LeBytes(n / 256, k - 1)
  }

  function Zeros(n: nat): (r: seq<Byte>)
    ensures |r| == n
  {
    seq(n, _ => 0)
  }

  /** The message, one 1-bit, zeros up to 56 modulo 64, and its length in bits modulo 2^64. */
  function Pad(m: seq<Byte>): (r: seq<Byte>)
    ensures Aligned(|r|) && m <= r
  {
    m + [0x80] + Zeros((55 - |m|) % 64) + LeBytes(8 * |m|, 8)
  }

  function Output(s: Regs): (r: seq<Byte>)
    ensures |r| == 16
  {
    WordBytes(s.a) + WordBytes(s.b) + WordBytes(s.c) + WordBytes(s.d)
  }

  function Digest(m: seq<Byte>): (r: seq<Byte>)
    ensures |r| == 16
  {
    Output(Fold(INITIAL, Pad(m)))
  }

  // ----- laws of the reference -----

  /** The output loses nothing: digests agree exactly when the final registers do. */
  lemma DigestsMeet(m: seq<Byte>, n: seq<Byte>)
    ensures Digest(m) == Digest(n) <==> Fold(INITIAL, Pad(m)) == Fold(INITIAL, Pad(n))
  {
    hide Fold, Pad;
    var s, t := Fold(INITIAL, Pad(m)), Fold(INITIAL, Pad(n));
    if Output(s) == Output(t) { OutputTells(s, t); }
  }

  lemma OutputTells(s: Regs, t: Regs)
    requires Output(s) == Output(t)
    ensures s == t
  {
    WordsInOutput(s);
    WordsInOutput(t);
    hide WordBytes, Output;
    SameWord(s.a, t.a);
    SameWord(s.b, t.b);
    SameWord(s.c, t.c);
    SameWord(s.d, t.d);
  }

  lemma WordsInOutput(s: Regs)
    ensures var o := Output(s);
      o[0..4] == WordBytes(s.a) && o[4..8] == WordBytes(s.b)
        && o[8..12] == WordBytes(s.c) && o[12..16] == WordBytes(s.d)
  {
    hide WordBytes;
  }

  lemma SameWord(x: Word, y: Word)
    requires WordBytes(x) == WordBytes(y)
    ensures x == y
  {
    hide WordBytes, LoadWord;
    LoadUndoesStore(x);
    LoadUndoesStore(y);
  }

  /** Folding is compatible with concatenation: blocks may be compressed as they arrive. */
  lemma {:induction false} FoldAppend(s: Regs, m: seq<Byte>, n: seq<Byte>)
    requires Aligned(|m|) && Aligned(|n|)
    ensures Aligned(|m + n|) && Fold(s, m + n) == Fold(Fold(s, m), n)
    decreases |n|
  {
    hide Compress;
    AlignedSum(|m|, |n|);
    if |n| == 0 {
      assert m + n == m;
    } else {
      var k := |n| - 64;
      assert (m + n)[..|m + n| - 64] == m + n[..k];
      assert (m + n)[|m + n| - 64..] == n[k..];
      FoldAppend(s, m, n[..k]);
    }
  }

  lemma FoldNone(s: Regs)
    ensures Fold(s, []) == s
  {
  }

  /** One more block is one more compression. */
  lemma FoldBlock(s: Regs, m: seq<Byte>, blk: seq<Byte>)
    requires Aligned(|m|) && |blk| == 64
    ensures Aligned(|m + blk|) && Fold(s, m + blk) == Compress(Fold(s, m), blk)
  {
    hide Compress;
    AlignedSum(|m|, 64);
    assert (m + blk)[..|m|] == m && (m + blk)[|m|..] == blk;
  }

  function Pow256(j: nat): (p: nat)
    ensures p > 0
  {
    if j == 0 then 1 else 256 * Pow256(j - 1)
  }

  /** Little-endian bytes of l + 256^j * h are those of l followed by those of h. */
  lemma {:induction false} LeSplit(l: nat, h: nat, j: nat, k: nat)
    requires l < Pow256(j)
    ensures LeBytes(l + Pow256(j) * h, j + k) == LeBytes(l, j) + LeBytes(h, k)
  {
    if j > 0 {
      var q := Pow256(j - 1) * h;
      assert Pow256(j) * h == 256 * q;
      LowByte(l, q);
      LeSplit(l / 256, h, j - 1, k);
    } else {
      assert Pow256(0) * h == h;
    }
  }

  lemma LowByte(l: nat, q: nat)
    ensures (l + 256 * q) % 256 == l % 256 && (l + 256 * q) / 256 == l / 256 + q
  {
  }
}
