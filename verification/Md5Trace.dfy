/** Evaluating MD5 on literals, one line of the schedule at a time. */
module Md5Trace {
  import opened LittleEndian
  import opened Rfc1321
  import opened Words

  /** The registers after i steps. */
  predicate At(blk: seq<Byte>, s: Regs, i: nat, a: bv32, b: bv32, c: bv32, d: bv32)
    requires |blk| == 64
  {
    Steps(blk, s, i) == Regs(Word(a), Word(b), Word(c), Word(d))
  }

  /** Sixteen zeros. */
  const ZERO_ROW: seq<Byte> := [0, 0, 0, 0, 0, 0, 0, 0, 0, 0, 0, 0, 0, 0, 0, 0]

  lemma ZeroRow()
    ensures ZERO_ROW == Zeros(16)
  {
  }

  lemma SplitZeros(m: nat, n: nat)
    ensures Zeros(m + n) == Zeros(m) + Zeros(n)
  {
  }

  /** The rows of a block. */
  lemma Rows(r0: seq<Byte>, r1: seq<Byte>, r2: seq<Byte>, r3: seq<Byte>)
    requires |r0| == |r1| == |r2| == |r3| == 16
    ensures var blk := r0 + r1 + r2 + r3;
      |blk| == 64 && blk[0..16] == r0 && blk[16..32] == r1 && blk[32..48] == r2 && blk[48..64] == r3
  {
  }

  /** Word j of row q is x, made of these bytes. */
  lemma WordIs(blk: seq<Byte>, row: seq<Byte>, q: nat, j: nat, b0: Byte, b1: Byte, b2: Byte, b3: Byte, x: bv32)
    requires |blk| == 64 && |row| == 16 && q < 4 && j < 4 && blk[16 * q..16 * q + 16] == row
    requires row[4 * j] == b0 && row[4 * j + 1] == b1 && row[4 * j + 2] == b2 && row[4 * j + 3] == b3
    requires LoadWord(b0, b1, b2, b3).v == x
    ensures BlockWord(blk, 4 * q + j) == Word(x)
  {
    hide LoadWord;
    var r := blk[16 * q..16 * q + 16];
    assert blk[16 * q + 4 * j] == r[4 * j] && blk[16 * q + 4 * j + 1] == r[4 * j + 1];
    assert blk[16 * q + 4 * j + 2] == r[4 * j + 2] && blk[16 * q + 4 * j + 3] == r[4 * j + 3];
  }

  /** Step i: x is the word added, f the auxiliary function, r what is rotated, and n the new register. */
  lemma Turn(blk: seq<Byte>, s: Regs, i: nat, a: bv32, b: bv32, c: bv32, d: bv32, x: bv32, f: bv32, r: bv32, n: bv32)
    requires |blk| == 64 && At(blk, s, i, a, b, c, d) && BlockWord(blk, Schedule(i).k) == Word(x)
    requires Aux(i, Word(b), Word(c), Word(d)) == Word(f)
    requires Plus(Plus(Plus(Word(a), Word(f)), Word(x)), Word(Schedule(i).t)) == Word(r)
    requires Plus(ShiftOr(Word(r), Schedule(i).s), Word(b)) == Word(n)
    ensures At(blk, s, i + 1, d, n, b, c)
  {
    hide Aux, ShiftOr, Rotate, Schedule, BlockWord, Plus;
    ShiftInUse(i);
    ShiftOrIsRotation(Word(r), Schedule(i).s);
  }

  lemma Start(blk: seq<Byte>, a: bv32, b: bv32, c: bv32, d: bv32)
    requires |blk| == 64
    ensures At(blk, Regs(Word(a), Word(b), Word(c), Word(d)), 0, a, b, c, d)
  {
  }

  /** The registers after the block. */
  lemma Finish(blk: seq<Byte>, s: Regs, a: bv32, b: bv32, c: bv32, d: bv32, r: Regs)
    requires |blk| == 64 && At(blk, s, 64, a, b, c, d)
    requires r == Regs(Plus(Word(a), s.a), Plus(Word(b), s.b), Plus(Word(c), s.c), Plus(Word(d), s.d))
    ensures Compress(s, blk) == r
  {
    hide Steps, Plus;
  }

  lemma ZeroWords(blk: seq<Byte>, q: nat)
    requires |blk| == 64 && q < 4 && blk[16 * q..16 * q + 16] == ZERO_ROW
    ensures BlockWord(blk, 4 * q) == BlockWord(blk, 4 * q + 1) == Word(0)
    ensures BlockWord(blk, 4 * q + 2) == BlockWord(blk, 4 * q + 3) == Word(0)
  {
    hide BlockWord;
    WordIs(blk, ZERO_ROW, q, 0, 0, 0, 0, 0, 0);
    WordIs(blk, ZERO_ROW, q, 1, 0, 0, 0, 0, 0);
    WordIs(blk, ZERO_ROW, q, 2, 0, 0, 0, 0, 0);
    WordIs(blk, ZERO_ROW, q, 3, 0, 0, 0, 0, 0);
  }

  lemma Stored(x: bv32, b0: Byte, b1: Byte, b2: Byte, b3: Byte)
    requires ByteOf(Word(x), 0) == b0 && ByteOf(Word(x), 1) == b1
    requires ByteOf(Word(x), 2) == b2 && ByteOf(Word(x), 3) == b3
    ensures WordBytes(Word(x)) == [b0, b1, b2, b3]
  {
  }
}
