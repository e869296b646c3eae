/**
 * The digest of a message of 62 bytes, whose padding takes a second block: the sixth line of the test
 * suite in section A.5 of RFC 1321.
 */
module Md5OfLetters {
  import opened LittleEndian
  import HashMd5Api
  import Md5OfEmpty
  import opened Md5Trace
  import opened Rfc1321
  import opened Words

  const ROW0: seq<Byte> := [
    0x41, 0x42, 0x43, 0x44, 0x45, 0x46, 0x47, 0x48, 0x49, 0x4a, 0x4b, 0x4c, 0x4d, 0x4e, 0x4f, 0x50]
  const ROW1: seq<Byte> := [
    0x51, 0x52, 0x53, 0x54, 0x55, 0x56, 0x57, 0x58, 0x59, 0x5a, 0x61, 0x62, 0x63, 0x64, 0x65, 0x66]
  const ROW2: seq<Byte> := [
    0x67, 0x68, 0x69, 0x6a, 0x6b, 0x6c, 0x6d, 0x6e, 0x6f, 0x70, 0x71, 0x72, 0x73, 0x74, 0x75, 0x76]
  const ROW3: seq<Byte> := [
    0x77, 0x78, 0x79, 0x7a, 0x30, 0x31, 0x32, 0x33, 0x34, 0x35, 0x36, 0x37, 0x38, 0x39]

  /** The capital letters, the small letters and the digits. */
  const MESSAGE: seq<Byte> := ROW0 + ROW1 + ROW2 + ROW3

  const LAST: seq<Byte> := [
    0x77, 0x78, 0x79, 0x7a, 0x30, 0x31, 0x32, 0x33, 0x34, 0x35, 0x36, 0x37, 0x38, 0x39, 0x80, 0x00]
  const END: seq<Byte> := [
    0x00, 0x00, 0x00, 0x00, 0x00, 0x00, 0x00, 0x00, 0xf0, 0x01, 0x00, 0x00, 0x00, 0x00, 0x00, 0x00]
  const BLOCK0: seq<Byte> := ROW0 + ROW1 + ROW2 + LAST
  const BLOCK1: seq<Byte> := ZERO_ROW + ZERO_ROW + ZERO_ROW + END
  const START0: Regs := Regs(Word(0x67452301), Word(0xefcdab89), Word(0x98badcfe), Word(0x10325476))
  const START1: Regs := Regs(Word(0x83fd320b), Word(0xdefbe5cf), Word(0xa9b1642f), Word(0xfa6f932a))

  lemma Words0OfRow0(blk: seq<Byte>)
    requires |blk| == 64 && blk[0..16] == ROW0
    ensures BlockWord(blk, 0) == Word(0x44434241) && BlockWord(blk, 1) == Word(0x48474645)
    ensures BlockWord(blk, 2) == Word(0x4c4b4a49) && BlockWord(blk, 3) == Word(0x504f4e4d)
  {
    hide BlockWord;
    WordIs(blk, ROW0, 0, 0, 0x41, 0x42, 0x43, 0x44, 0x44434241);
    WordIs(blk, ROW0, 0, 1, 0x45, 0x46, 0x47, 0x48, 0x48474645);
    WordIs(blk, ROW0, 0, 2, 0x49, 0x4a, 0x4b, 0x4c, 0x4c4b4a49);
    WordIs(blk, ROW0, 0, 3, 0x4d, 0x4e, 0x4f, 0x50, 0x504f4e4d);
  }

  lemma Words0OfRow1(blk: seq<Byte>)
    requires |blk| == 64 && blk[16..32] == ROW1
    ensures BlockWord(blk, 4) == Word(0x54535251) && BlockWord(blk, 5) == Word(0x58575655)
    ensures BlockWord(blk, 6) == Word(0x62615a59) && BlockWord(blk, 7) == Word(0x66656463)
  {
    hide BlockWord;
    WordIs(blk, ROW1, 1, 0, 0x51, 0x52, 0x53, 0x54, 0x54535251);
    WordIs(blk, ROW1, 1, 1, 0x55, 0x56, 0x57, 0x58, 0x58575655);
    WordIs(blk, ROW1, 1, 2, 0x59, 0x5a, 0x61, 0x62, 0x62615a59);
    WordIs(blk, ROW1, 1, 3, 0x63, 0x64, 0x65, 0x66, 0x66656463);
  }

  lemma Words0OfRow2(blk: seq<Byte>)
    requires |blk| == 64 && blk[32..48] == ROW2
    ensures BlockWord(blk, 8) == Word(0x6a696867) && BlockWord(blk, 9) == Word(0x6e6d6c6b)
    ensures BlockWord(blk, 10) == Word(0x7271706f) && BlockWord(blk, 11) == Word(0x76757473)
  {
    hide BlockWord;
    WordIs(blk, ROW2, 2, 0, 0x67, 0x68, 0x69, 0x6a, 0x6a696867);
    WordIs(blk, ROW2, 2, 1, 0x6b, 0x6c, 0x6d, 0x6e, 0x6e6d6c6b);
    WordIs(blk, ROW2, 2, 2, 0x6f, 0x70, 0x71, 0x72, 0x7271706f);
    WordIs(blk, ROW2, 2, 3, 0x73, 0x74, 0x75, 0x76, 0x76757473);
  }

  lemma Words0OfRow3(blk: seq<Byte>)
    requires |blk| == 64 && blk[48..64] == LAST
    ensures BlockWord(blk, 12) == Word(0x7a797877) && BlockWord(blk, 13) == Word(0x33323130)
    ensures BlockWord(blk, 14) == Word(0x37363534) && BlockWord(blk, 15) == Word(0x00803938)
  {
    hide BlockWord;
    WordIs(blk, LAST, 3, 0, 0x77, 0x78, 0x79, 0x7a, 0x7a797877);
    WordIs(blk, LAST, 3, 1, 0x30, 0x31, 0x32, 0x33, 0x33323130);
    WordIs(blk, LAST, 3, 2, 0x34, 0x35, 0x36, 0x37, 0x37363534);
    WordIs(blk, LAST, 3, 3, 0x38, 0x39, 0x80, 0x00, 0x00803938);
  }

  lemma BlockWords0()
    ensures BlockWord(BLOCK0, 0) == Word(0x44434241) && BlockWord(BLOCK0, 1) == Word(0x48474645)
    ensures BlockWord(BLOCK0, 2) == Word(0x4c4b4a49) && BlockWord(BLOCK0, 3) == Word(0x504f4e4d)
    ensures BlockWord(BLOCK0, 4) == Word(0x54535251) && BlockWord(BLOCK0, 5) == Word(0x58575655)
    ensures BlockWord(BLOCK0, 6) == Word(0x62615a59) && BlockWord(BLOCK0, 7) == Word(0x66656463)
    ensures BlockWord(BLOCK0, 8) == Word(0x6a696867) && BlockWord(BLOCK0, 9) == Word(0x6e6d6c6b)
    ensures BlockWord(BLOCK0, 10) == Word(0x7271706f) && BlockWord(BLOCK0, 11) == Word(0x76757473)
    ensures BlockWord(BLOCK0, 12) == Word(0x7a797877) && BlockWord(BLOCK0, 13) == Word(0x33323130)
    ensures BlockWord(BLOCK0, 14) == Word(0x37363534) && BlockWord(BLOCK0, 15) == Word(0x00803938)
  {
    hide BlockWord;
    Rows(ROW0, ROW1, ROW2, LAST);
    Words0OfRow0(BLOCK0);
    Words0OfRow1(BLOCK0);
    Words0OfRow2(BLOCK0);
    Words0OfRow3(BLOCK0);
  }

  lemma Words1OfRow3(blk: seq<Byte>)
    requires |blk| == 64 && blk[48..64] == END
    ensures BlockWord(blk, 12) == Word(0x00000000) && BlockWord(blk, 13) == Word(0x00000000)
    ensures BlockWord(blk, 14) == Word(0x000001f0) && BlockWord(blk, 15) == Word(0x00000000)
  {
    hide BlockWord;
    WordIs(blk, END, 3, 0, 0x00, 0x00, 0x00, 0x00, 0x00000000);
    WordIs(blk, END, 3, 1, 0x00, 0x00, 0x00, 0x00, 0x00000000);
    WordIs(blk, END, 3, 2, 0xf0, 0x01, 0x00, 0x00, 0x000001f0);
    WordIs(blk, END, 3, 3, 0x00, 0x00, 0x00, 0x00, 0x00000000);
  }

  lemma BlockWords1()
    ensures BlockWord(BLOCK1, 0) == Word(0x00000000) && BlockWord(BLOCK1, 1) == Word(0x00000000)
    ensures BlockWord(BLOCK1, 2) == Word(0x00000000) && BlockWord(BLOCK1, 3) == Word(0x00000000)
    ensures BlockWord(BLOCK1, 4) == Word(0x00000000) && BlockWord(BLOCK1, 5) == Word(0x00000000)
    ensures BlockWord(BLOCK1, 6) == Word(0x00000000) && BlockWord(BLOCK1, 7) == Word(0x00000000)
    ensures BlockWord(BLOCK1, 8) == Word(0x00000000) && BlockWord(BLOCK1, 9) == Word(0x00000000)
    ensures BlockWord(BLOCK1, 10) == Word(0x00000000) && BlockWord(BLOCK1, 11) == Word(0x00000000)
    ensures BlockWord(BLOCK1, 12) == Word(0x00000000) && BlockWord(BLOCK1, 13) == Word(0x00000000)
    ensures BlockWord(BLOCK1, 14) == Word(0x000001f0) && BlockWord(BLOCK1, 15) == Word(0x00000000)
  {
    hide BlockWord;
    Rows(ZERO_ROW, ZERO_ROW, ZERO_ROW, END);
    ZeroWords(BLOCK1, 0);
    ZeroWords(BLOCK1, 1);
    ZeroWords(BLOCK1, 2);
    Words1OfRow3(BLOCK1);
  }

  lemma Turn0(i: nat, a: bv32, b: bv32, c: bv32, d: bv32, x: bv32, f: bv32, r: bv32, n: bv32)
    requires At(BLOCK0, START0, i, a, b, c, d) && BlockWord(BLOCK0, Schedule(i).k) == Word(x)
    requires Aux(i, Word(b), Word(c), Word(d)) == Word(f)
    requires Plus(Plus(Plus(Word(a), Word(f)), Word(x)), Word(Schedule(i).t)) == Word(r)
    requires Plus(ShiftOr(Word(r), Schedule(i).s), Word(b)) == Word(n)
    ensures At(BLOCK0, START0, i + 1, d, n, b, c)
  {
    Md5Trace.Turn(BLOCK0, START0, i, a, b, c, d, x, f, r, n);
  }

  lemma Steps0From0()
    requires At(BLOCK0, START0, 0, 0x67452301, 0xefcdab89, 0x98badcfe, 0x10325476)
    ensures At(BLOCK0, START0, 4, 0xc6c10796, 0x27bce07a, 0x11067980, 0x99a09999)
  {
    hide BlockWord, At;
    BlockWords0();
    Turn0(0, 0x67452301, 0xefcdab89, 0x98badcfe, 0x10325476, 0x44434241, 0x98badcfe, 0x1bade6b8, 0xc6c10796);
    Turn0(1, 0x10325476, 0xc6c10796, 0xefcdab89, 0x98badcfe, 0x48474645, 0xdefbdbe8, 0x203d2df9, 0x99a09999);
    Turn0(2, 0x98badcfe, 0x99a09999, 0xc6c10796, 0xefcdab89, 0x4c4b4a49, 0xe6cd2390, 0xeff3bbb2, 0x11067980);
    Turn0(3, 0xefcdab89, 0x11067980, 0x99a09999, 0xc6c10796, 0x504f4e4d, 0xd7c11f96, 0xd99be85a, 0x27bce07a);
  }

  lemma Steps0From4()
    requires At(BLOCK0, START0, 4, 0xc6c10796, 0x27bce07a, 0x11067980, 0x99a09999)
    ensures At(BLOCK0, START0, 8, 0xf22e6c4e, 0xa4799506, 0xa95a2fc0, 0xb4ac9218)
  {
    hide BlockWord, At;
    BlockWords0();
    Turn0(4, 0xc6c10796, 0x27bce07a, 0x11067980, 0x99a09999, 0x54535251, 0x99047981, 0xa994e317, 0xf22e6c4e);
    Turn0(5, 0x99a09999, 0xf22e6c4e, 0x27bce07a, 0x11067980, 0x58575655, 0x232c71ca, 0x5cac27e2, 0xb4ac9218);
    Turn0(6, 0x11067980, 0xb4ac9218, 0xf22e6c4e, 0x27bce07a, 0x62615a59, 0xb33c606a, 0xced47a56, 0xa95a2fc0);
    Turn0(7, 0x27bce07a, 0xa95a2fc0, 0xb4ac9218, 0xf22e6c4e, 0x66656463, 0xf22c420e, 0x7d951bec, 0xa4799506);
  }

  lemma Steps0From8()
    requires At(BLOCK0, START0, 8, 0xf22e6c4e, 0xa4799506, 0xa95a2fc0, 0xb4ac9218)
    ensures At(BLOCK0, START0, 12, 0x1eb3e7c1, 0x8a7612ec, 0xca27520b, 0xa6e70cfe)
  {
    hide BlockWord, At;
    BlockWords0();
    Turn0(8, 0xf22e6c4e, 0xa4799506, 0xa95a2fc0, 0xb4ac9218, 0x6a696867, 0xb0dc0718, 0x76f474a5, 0x1eb3e7c1);
    Turn0(9, 0xb4ac9218, 0x1eb3e7c1, 0xa4799506, 0xa95a2fc0, 0x6e6d6c6b, 0xa5798d00, 0x53d88332, 0xa6e70cfe);
    Turn0(10, 0xa95a2fc0, 0xa6e70cfe, 0x1eb3e7c1, 0xa4799506, 0x7271706f, 0x06bb95c0, 0x228691a0, 0xca27520b);
    Turn0(11, 0xa4799506, 0xca27520b, 0xa6e70cfe, 0x1eb3e7c1, 0x76757473, 0x96b7a5ca, 0x3b038701, 0x8a7612ec);
  }

  lemma Steps0From12()
    requires At(BLOCK0, START0, 12, 0x1eb3e7c1, 0x8a7612ec, 0xca27520b, 0xa6e70cfe)
    ensures At(BLOCK0, START0, 14, 0xca27520b, 0xb8dec763, 0x3cbdcd45, 0x8a7612ec)
  {
    hide BlockWord, At;
    BlockWords0();
    Turn0(12, 0x1eb3e7c1, 0x8a7612ec, 0xca27520b, 0xa6e70cfe, 0x7a797877, 0xaea71e1a, 0xb3648f74, 0x3cbdcd45);
    Turn0(13, 0xa6e70cfe, 0x3cbdcd45, 0x8a7612ec, 0xca27520b, 0x33323130, 0xca36124e, 0xa1e7c20f, 0xb8dec763);
  }

  lemma Steps0From14()
    requires At(BLOCK0, START0, 14, 0xca27520b, 0xb8dec763, 0x3cbdcd45, 0x8a7612ec)
    ensures At(BLOCK0, START0, 16, 0x3cbdcd45, 0x5d38e690, 0xfa148c8a, 0xb8dec763)
  {
    hide BlockWord, At;
    BlockWords0();
    Turn0(14, 0xca27520b, 0xb8dec763, 0x3cbdcd45, 0x8a7612ec, 0x37363534, 0x3abcd5cd, 0xe293a09a, 0xfa148c8a);
    Turn0(15, 0x8a7612ec, 0xfa148c8a, 0xb8dec763, 0x3cbdcd45, 0x00803938, 0xbcbdc547, 0x9168198c, 0x5d38e690);
  }

  lemma Steps0From16()
    requires At(BLOCK0, START0, 16, 0x3cbdcd45, 0x5d38e690, 0xfa148c8a, 0xb8dec763)
    ensures At(BLOCK0, START0, 20, 0x04b9d52a, 0x47ae7c81, 0xd3ee3ed1, 0x783002eb)
  {
    hide BlockWord, At;
    BlockWords0();
    Turn0(16, 0x3cbdcd45, 0x5d38e690, 0xfa148c8a, 0xb8dec763, 0x48474645, 0x5a18ce88, 0xd53c0774, 0x04b9d52a);
    Turn0(17, 0xb8dec763, 0x04b9d52a, 0x5d38e690, 0xfa148c8a, 0x62615a59, 0x0538e61a, 0xe0b9bb16, 0x783002eb);
    Turn0(18, 0xfa148c8a, 0x783002eb, 0x04b9d52a, 0x5d38e690, 0x76757473, 0x58b113aa, 0xef996ef8, 0xd3ee3ed1);
    Turn0(19, 0x5d38e690, 0xd3ee3ed1, 0x783002eb, 0x04b9d52a, 0x44434241, 0x78a816c1, 0x03db073c, 0x47ae7c81);
  }

  lemma Steps0From20()
    requires At(BLOCK0, START0, 20, 0x04b9d52a, 0x47ae7c81, 0xd3ee3ed1, 0x783002eb)
    ensures At(BLOCK0, START0, 24, 0x2d7d8a3f, 0x75292030, 0x4b534dc3, 0xd1210823)
  {
    hide BlockWord, At;
    BlockWords0();
    Turn0(20, 0x04b9d52a, 0x47ae7c81, 0xd3ee3ed1, 0x783002eb, 0x58575655, 0xc3ee3c91, 0xf72e786d, 0x2d7d8a3f);
    Turn0(21, 0x783002eb, 0x2d7d8a3f, 0x47ae7c81, 0xd3ee3ed1, 0x7271706f, 0x056c4a11, 0xf251d1be, 0xd1210823);
    Turn0(22, 0xd3ee3ed1, 0xd1210823, 0x2d7d8a3f, 0x47ae7c81, 0x00803938, 0x69718a3f, 0x1681e8c9, 0x4b534dc3);
    Turn0(23, 0x47ae7c81, 0x4b534dc3, 0xd1210823, 0x2d7d8a3f, 0x54535251, 0xd9510803, 0x5d26d29d, 0x75292030);
  }

  lemma Steps0From24()
    requires At(BLOCK0, START0, 24, 0x2d7d8a3f, 0x75292030, 0x4b534dc3, 0xd1210823)
    ensures At(BLOCK0, START0, 28, 0x9d2a6e33, 0xf2ff6ea0, 0xd473b564, 0x0e8d2e44)
  {
    hide BlockWord, At;
    BlockWords0();
    Turn0(24, 0x2d7d8a3f, 0x75292030, 0x4b534dc3, 0xd1210823, 0x6e6d6c6b, 0x5b7345e0, 0x19400a70, 0x9d2a6e33);
    Turn0(25, 0xd1210823, 0x9d2a6e33, 0x75292030, 0x4b534dc3, 0x37363534, 0x3d2a6c33, 0x08b8b160, 0x0e8d2e44);
    Turn0(26, 0x4b534dc3, 0x0e8d2e44, 0x9d2a6e33, 0x75292030, 0x504f4e4d, 0x8c0b6e03, 0x1c83179a, 0xd473b564);
    Turn0(27, 0x75292030, 0xd473b564, 0x0e8d2e44, 0x9d2a6e33, 0x6a696867, 0x96a72464, 0xbb93c1e8, 0xf2ff6ea0);
  }

  lemma Steps0From28()
    requires At(BLOCK0, START0, 28, 0x9d2a6e33, 0xf2ff6ea0, 0xd473b564, 0x0e8d2e44)
    ensures At(BLOCK0, START0, 30, 0xd473b564, 0x4400a9bd, 0x9b085fa9, 0xf2ff6ea0)
  {
    hide BlockWord, At;
    BlockWords0();
    Turn0(28, 0x9d2a6e33, 0xf2ff6ea0, 0xd473b564, 0x0e8d2e44, 0x33323130, 0xd2ffbf20, 0x4d404788, 0x9b085fa9);
    Turn0(29, 0x0e8d2e44, 0x9b085fa9, 0xf2ff6ea0, 0xd473b564, 0x4c4b4a49, 0xb28c5fa0, 0x0a547c25, 0x4400a9bd);
  }

  lemma Steps0From30()
    requires At(BLOCK0, START0, 30, 0xd473b564, 0x4400a9bd, 0x9b085fa9, 0xf2ff6ea0)
    ensures At(BLOCK0, START0, 32, 0x9b085fa9, 0xdd789ecc, 0x5993248f, 0x4400a9bd)
  {
    hide BlockWord, At;
    BlockWords0();
    Turn0(30, 0xd473b564, 0x4400a9bd, 0x9b085fa9, 0xf2ff6ea0, 0x66656463, 0x490039a9, 0xeb485649, 0x5993248f);
    Turn0(31, 0xf2ff6ea0, 0x5993248f, 0x4400a9bd, 0x9b085fa9, 0x7a797877, 0x5d00a49d, 0x57a3d83e, 0xdd789ecc);
  }

  lemma Steps0From32()
    requires At(BLOCK0, START0, 32, 0x9b085fa9, 0xdd789ecc, 0x5993248f, 0x4400a9bd)
    ensures At(BLOCK0, START0, 36, 0x21c8d2b7, 0x1b9504f8, 0x056ec119, 0x1d55a18e)
  {
    hide BlockWord, At;
    BlockWords0();
    Turn0(32, 0x9b085fa9, 0xdd789ecc, 0x5993248f, 0x4400a9bd, 0x58575655, 0xc0eb13fe, 0xb445033e, 0x21c8d2b7);
    Turn0(33, 0x4400a9bd, 0x21c8d2b7, 0xdd789ecc, 0x5993248f, 0x6a696867, 0xa52368f4, 0xdaff7199, 0x1d55a18e);
    Turn0(34, 0x5993248f, 0x1d55a18e, 0x21c8d2b7, 0xdd789ecc, 0x76757473, 0xe1e5edf5, 0x1f8be819, 0x056ec119);
    Turn0(35, 0xdd789ecc, 0x056ec119, 0x1d55a18e, 0x21c8d2b7, 0x37363534, 0x39f3b220, 0x4c87be2c, 0x1b9504f8);
  }

  lemma Steps0From36()
    requires At(BLOCK0, START0, 36, 0x21c8d2b7, 0x1b9504f8, 0x056ec119, 0x1d55a18e)
    ensures At(BLOCK0, START0, 40, 0x436b7fe9, 0xcf0341ed, 0xf404c2f6, 0x075800c1)
  {
    hide BlockWord, At;
    BlockWords0();
    Turn0(36, 0x21c8d2b7, 0x1b9504f8, 0x056ec119, 0x1d55a18e, 0x48474645, 0x03ae646f, 0x127d67af, 0x436b7fe9);
    Turn0(37, 0x1d55a18e, 0x436b7fe9, 0x1b9504f8, 0x056ec119, 0x54535251, 0x5d90ba08, 0x1b187d90, 0x075800c1);
    Turn0(38, 0x056ec119, 0x075800c1, 0x436b7fe9, 0x1b9504f8, 0x66656463, 0x5fa67bd0, 0xc235ecac, 0xf404c2f6);
    Turn0(39, 0x1b9504f8, 0xf404c2f6, 0x075800c1, 0x436b7fe9, 0x7271706f, 0xb037bdde, 0xfcfdefb5, 0xcf0341ed);
  }

  lemma Steps0From40()
    requires At(BLOCK0, START0, 40, 0x436b7fe9, 0xcf0341ed, 0xf404c2f6, 0x075800c1)
    ensures At(BLOCK0, START0, 44, 0x888e7d8a, 0x047b9419, 0xce620273, 0xbbdaecd8)
  {
    hide BlockWord, At;
    BlockWords0();
    Turn0(40, 0x436b7fe9, 0xcf0341ed, 0xf404c2f6, 0x075800c1, 0x33323130, 0x3c5f83da, 0xdb98b3b9, 0x888e7d8a);
    Turn0(41, 0x075800c1, 0x888e7d8a, 0xcf0341ed, 0xf404c2f6, 0x44434241, 0xb389fe91, 0xe9c6698d, 0xbbdaecd8);
    Turn0(42, 0xf404c2f6, 0xbbdaecd8, 0x888e7d8a, 0xcf0341ed, 0x504f4e4d, 0xfc57d0bf, 0x159b1287, 0xce620273);
    Turn0(43, 0xcf0341ed, 0xce620273, 0xbbdaecd8, 0x888e7d8a, 0x62615a59, 0xfd369321, 0x33234c6c, 0x047b9419);
  }

  lemma Steps0From44()
    requires At(BLOCK0, START0, 44, 0x888e7d8a, 0x047b9419, 0xce620273, 0xbbdaecd8)
    ensures At(BLOCK0, START0, 46, 0xce620273, 0xe95c3a43, 0x2dbee21d, 0x047b9419)
  {
    hide BlockWord, At;
    BlockWords0();
    Turn0(44, 0x888e7d8a, 0x047b9419, 0xce620273, 0xbbdaecd8, 0x6e6d6c6b, 0x71c37ab2, 0x429434e0, 0x2dbee21d);
    Turn0(45, 0xbbdaecd8, 0x2dbee21d, 0x047b9419, 0xce620273, 0x7a797877, 0xe7a77477, 0x04d773ab, 0xe95c3a43);
  }

  lemma Steps0From46()
    requires At(BLOCK0, START0, 46, 0xce620273, 0xe95c3a43, 0x2dbee21d, 0x047b9419)
    ensures At(BLOCK0, START0, 48, 0x2dbee21d, 0xf166f514, 0xee46e961, 0xe95c3a43)
  {
    hide BlockWord, At;
    BlockWords0();
    Turn0(46, 0xce620273, 0xe95c3a43, 0x2dbee21d, 0x047b9419, 0x00803938, 0xc0994c47, 0xaf1e04ea, 0xee46e961);
    Turn0(47, 0x047b9419, 0xee46e961, 0xe95c3a43, 0x2dbee21d, 0x4c4b4a49, 0x2aa4313f, 0x40176606, 0xf166f514);
  }

  lemma Steps0From48()
    requires At(BLOCK0, START0, 48, 0x2dbee21d, 0xf166f514, 0xee46e961, 0xe95c3a43)
    ensures At(BLOCK0, START0, 52, 0xe47fd4f3, 0x7a13bc5c, 0xf22aedcc, 0xfb887751)
  {
    hide BlockWord, At;
    BlockWords0();
    Turn0(48, 0x2dbee21d, 0xf166f514, 0xee46e961, 0xe95c3a43, 0x44434241, 0x19a11cdd, 0x7fcc637f, 0xe47fd4f3);
    Turn0(49, 0xe95c3a43, 0xe47fd4f3, 0xf166f514, 0xee46e961, 0x66656463, 0x049923eb, 0x9785c228, 0xfb887751);
    Turn0(50, 0xee46e961, 0xfb887751, 0xe47fd4f3, 0xf166f514, 0x37363534, 0x1be6ab08, 0xecf7ed44, 0xf22aedcc);
    Turn0(51, 0xf166f514, 0xf22aedcc, 0xfb887751, 0xe47fd4f3, 0x58575655, 0x0022989d, 0x4674843f, 0x7a13bc5c);
  }

  lemma Steps0From52()
    requires At(BLOCK0, START0, 52, 0xe47fd4f3, 0x7a13bc5c, 0xf22aedcc, 0xfb887751)
    ensures At(BLOCK0, START0, 56, 0xa691d430, 0xefb0e72f, 0x3fc23df6, 0x528452f2)
  {
    hide BlockWord, At;
    BlockWords0();
    Turn0(52, 0xe47fd4f3, 0x7a13bc5c, 0xf22aedcc, 0xfb887751, 0x7a797877, 0x8c5d5132, 0x50b1f85f, 0xa691d430);
    Turn0(53, 0xfb887751, 0xa691d430, 0x7a13bc5c, 0xf22aedcc, 0x504f4e4d, 0xd5c66a6f, 0xb0aafc9f, 0x528452f2);
    Turn0(54, 0xf22aedcc, 0x528452f2, 0xa691d430, 0x7a13bc5c, 0x7271706f, 0x717d87c3, 0xd609da7b, 0x3fc23df6);
    Turn0(55, 0x7a13bc5c, 0x3fc23df6, 0x528452f2, 0xa691d430, 0x48474645, 0x2d6a6d0d, 0x7549cd7f, 0xefb0e72f);
  }

  lemma Steps0From56()
    requires At(BLOCK0, START0, 56, 0xa691d430, 0xefb0e72f, 0x3fc23df6, 0x528452f2)
    ensures At(BLOCK0, START0, 60, 0x27145703, 0x49d9a5b4, 0x374fbe79, 0x21a11069)
  {
    hide BlockWord, At;
    BlockWords0();
    Turn0(56, 0xa691d430, 0xefb0e72f, 0x3fc23df6, 0x528452f2, 0x6a696867, 0xd039d2d9, 0x50dd8dbf, 0x27145703);
    Turn0(57, 0x528452f2, 0x27145703, 0xefb0e72f, 0x3fc23df6, 0x00803938, 0x088d3024, 0x59bea32e, 0x21a11069);
    Turn0(58, 0x3fc23df6, 0x21a11069, 0x27145703, 0xefb0e72f, 0x62615a59, 0x16fb4ffa, 0x5c202b5d, 0x374fbe79);
    Turn0(59, 0xefb0e72f, 0x374fbe79, 0x21a11069, 0x27145703, 0x33323130, 0xde4eae94, 0x4f39d894, 0x49d9a5b4);
  }

  lemma Steps0From60()
    requires At(BLOCK0, START0, 60, 0x27145703, 0x49d9a5b4, 0x374fbe79, 0x21a11069)
    ensures At(BLOCK0, START0, 62, 0x374fbe79, 0xea3d3eb4, 0x1cb80f0a, 0x49d9a5b4)
  {
    hide BlockWord, At;
    BlockWords0();
    Turn0(60, 0x27145703, 0x49d9a5b4, 0x374fbe79, 0x21a11069, 0x54535251, 0xe89051cf, 0x5b4b79a5, 0x1cb80f0a);
    Turn0(61, 0x21a11069, 0x1cb80f0a, 0x49d9a5b4, 0x374fbe79, 0x76757473, 0x9561ea3a, 0xeab3614b, 0xea3d3eb4);
  }

  lemma Steps0From62()
    requires At(BLOCK0, START0, 62, 0x374fbe79, 0xea3d3eb4, 0x1cb80f0a, 0x49d9a5b4)
    ensures At(BLOCK0, START0, 64, 0x1cb80f0a, 0xef2e3a46, 0x10f68731, 0xea3d3eb4)
  {
    hide BlockWord, At;
    BlockWords0();
    Turn0(62, 0x374fbe79, 0xea3d3eb4, 0x1cb80f0a, 0x49d9a5b4, 0x4c4b4a49, 0xe28771f5, 0x90fa4d72, 0x10f68731);
    Turn0(63, 0x49d9a5b4, 0x10f68731, 0xea3d3eb4, 0x1cb80f0a, 0x6e6d6c6b, 0x19cac941, 0xbd98aef1, 0xef2e3a46);
  }

  lemma Compressed0()
    ensures Compress(START0, BLOCK0) == Regs(Word(0x83fd320b), Word(0xdefbe5cf), Word(0xa9b1642f), Word(0xfa6f932a))
  {
    hide At, Compress;
    Start(BLOCK0, 0x67452301, 0xefcdab89, 0x98badcfe, 0x10325476);
    Steps0From0();
    Steps0From4();
    Steps0From8();
    Steps0From12();
    Steps0From14();
    Steps0From16();
    Steps0From20();
    Steps0From24();
    Steps0From28();
    Steps0From30();
    Steps0From32();
    Steps0From36();
    Steps0From40();
    Steps0From44();
    Steps0From46();
    Steps0From48();
    Steps0From52();
    Steps0From56();
    Steps0From60();
    Steps0From62();
    Finish(BLOCK0, START0, 0x1cb80f0a, 0xef2e3a46, 0x10f68731, 0xea3d3eb4,
      Regs(Word(0x83fd320b), Word(0xdefbe5cf), Word(0xa9b1642f), Word(0xfa6f932a)));
  }

  lemma Turn1(i: nat, a: bv32, b: bv32, c: bv32, d: bv32, x: bv32, f: bv32, r: bv32, n: bv32)
    requires At(BLOCK1, START1, i, a, b, c, d) && BlockWord(BLOCK1, Schedule(i).k) == Word(x)
    requires Aux(i, Word(b), Word(c), Word(d)) == Word(f)
    requires Plus(Plus(Plus(Word(a), Word(f)), Word(x)), Word(Schedule(i).t)) == Word(r)
    requires Plus(ShiftOr(Word(r), Schedule(i).s), Word(b)) == Word(n)
    ensures At(BLOCK1, START1, i + 1, d, n, b, c)
  {
    Md5Trace.Turn(BLOCK1, START1, i, a, b, c, d, x, f, r, n);
  }

  lemma Steps1From0()
    requires At(BLOCK1, START1, 0, 0x83fd320b, 0xdefbe5cf, 0xa9b1642f, 0xfa6f932a)
    ensures At(BLOCK1, START1, 4, 0xeda23ed1, 0xddcf0634, 0x3c307338, 0x989939cf)
  {
    hide BlockWord, At;
    BlockWords1();
    Turn1(0, 0x83fd320b, 0xdefbe5cf, 0xa9b1642f, 0xfa6f932a, 0x00000000, 0xa8b5762f, 0x041d4cb2, 0xeda23ed1);
    Turn1(1, 0xfa6f932a, 0xeda23ed1, 0xdefbe5cf, 0xa9b1642f, 0x00000000, 0xccb364ef, 0xafeaaf6f, 0x989939cf);
    Turn1(2, 0xa9b1642f, 0x989939cf, 0xeda23ed1, 0xdefbe5cf, 0x00000000, 0xcee2fcc1, 0x9cb4d1cb, 0x3c307338);
    Turn1(3, 0xdefbe5cf, 0x3c307338, 0x989939cf, 0xeda23ed1, 0x00000000, 0xd9923dc9, 0x7a4bf286, 0xddcf0634);
  }

  lemma Steps1From4()
    requires At(BLOCK1, START1, 4, 0xeda23ed1, 0xddcf0634, 0x3c307338, 0x989939cf)
    ensures At(BLOCK1, START1, 8, 0x75144433, 0x99b6b699, 0xc783cb60, 0xc8875807)
  {
    hide BlockWord, At;
    BlockWords1();
    Turn1(4, 0xeda23ed1, 0xddcf0634, 0x3c307338, 0x989939cf, 0x00000000, 0x1c103bfb, 0xff2e8a7b, 0x75144433);
    Turn1(5, 0x989939cf, 0x75144433, 0xddcf0634, 0x3c307338, 0x00000000, 0x5d243738, 0x3d453731, 0xc8875807);
    Turn1(6, 0x3c307338, 0xc8875807, 0x75144433, 0xddcf0634, 0x00000000, 0x554c4633, 0x39acff7e, 0xc783cb60);
    Turn1(7, 0xddcf0634, 0xc783cb60, 0xc8875807, 0x75144433, 0x00000000, 0xf0974c13, 0xcbace748, 0x99b6b699);
  }

  lemma Steps1From8()
    requires At(BLOCK1, START1, 8, 0x75144433, 0x99b6b699, 0xc783cb60, 0xc8875807)
    ensures At(BLOCK1, START1, 12, 0xa60a3f69, 0x64cc7c5a, 0x64db26e9, 0xaa6630be)
  {
    hide BlockWord, At;
    BlockWords1();
    Turn1(8, 0x75144433, 0x99b6b699, 0xc783cb60, 0xc8875807, 0x00000000, 0xc183ca06, 0xa018a711, 0xa60a3f69);
    Turn1(9, 0xc8875807, 0xa60a3f69, 0x99b6b699, 0xc783cb60, 0x00000000, 0xc183f609, 0x155045bf, 0xaa6630be);
    Turn1(10, 0xc783cb60, 0xaa6630be, 0xa60a3f69, 0x99b6b699, 0x00000000, 0xb392b629, 0x7b15dd3a, 0x64db26e9);
    Turn1(11, 0x99b6b699, 0x64db26e9, 0xaa6630be, 0xa60a3f69, 0x00000000, 0xa24239a8, 0xc555c7ff, 0x64cc7c5a);
  }

  lemma Steps1From12()
    requires At(BLOCK1, START1, 12, 0xa60a3f69, 0x64cc7c5a, 0x64db26e9, 0xaa6630be)
    ensures At(BLOCK1, START1, 14, 0x64db26e9, 0x5473f8a7, 0xa70737da, 0x64cc7c5a)
  {
    hide BlockWord, At;
    BlockWords1();
    Turn1(12, 0xa60a3f69, 0x64cc7c5a, 0x64db26e9, 0xaa6630be, 0x00000000, 0xeeea24ec, 0x00847577, 0xa70737da);
    Turn1(13, 0xaa6630be, 0xa70737da, 0x64cc7c5a, 0x64db26e9, 0x00000000, 0x64dc347b, 0x0cdad6cc, 0x5473f8a7);
  }

  lemma Steps1From14()
    requires At(BLOCK1, START1, 14, 0x64db26e9, 0x5473f8a7, 0xa70737da, 0x64cc7c5a)
    ensures At(BLOCK1, START1, 16, 0xa70737da, 0xa36f556f, 0x96f6586e, 0x5473f8a7)
  {
    hide BlockWord, At;
    BlockWords1();
    Turn1(14, 0x64db26e9, 0x5473f8a7, 0xa70737da, 0x64cc7c5a, 0x000001f0, 0x248f34da, 0x2fe3a141, 0x96f6586e);
    Turn1(15, 0x64cc7c5a, 0x96f6586e, 0x5473f8a7, 0xa70737da, 0x00000000, 0x35737fb6, 0xe3f40431, 0xa36f556f);
  }

  lemma Steps1From16()
    requires At(BLOCK1, START1, 16, 0xa70737da, 0xa36f556f, 0x96f6586e, 0x5473f8a7)
    ensures At(BLOCK1, START1, 20, 0xa5050ad3, 0x82b8827c, 0x27dcd8b4, 0x28776046)
  {
    hide BlockWord, At;
    BlockWords1();
    Turn1(16, 0xa70737da, 0xa36f556f, 0x96f6586e, 0x5473f8a7, 0x00000000, 0x82e7506f, 0x200cadab, 0xa5050ad3);
    Turn1(17, 0x5473f8a7, 0xa5050ad3, 0xa36f556f, 0x96f6586e, 0x00000000, 0xa50d0d43, 0xb9c1b92a, 0x28776046);
    Turn1(18, 0x96f6586e, 0x28776046, 0xa5050ad3, 0xa36f556f, 0x00000000, 0x24674ad6, 0xe1bbfd95, 0x27dcd8b4);
    Turn1(19, 0xa36f556f, 0x27dcd8b4, 0x28776046, 0xa5050ad3, 0x00000000, 0x2d766894, 0xba9c85ad, 0x82b8827c);
  }

  lemma Steps1From20()
    requires At(BLOCK1, START1, 20, 0xa5050ad3, 0x82b8827c, 0x27dcd8b4, 0x28776046)
    ensures At(BLOCK1, START1, 24, 0xe04f070c, 0xdf35cb56, 0xc0d22b61, 0x2f3cd2a2)
  {
    hide BlockWord, At;
    BlockWords1();
    Turn1(20, 0xa5050ad3, 0x82b8827c, 0x27dcd8b4, 0x28776046, 0x00000000, 0x07b898f4, 0x82ecb424, 0xe04f070c);
    Turn1(21, 0x28776046, 0xe04f070c, 0x82b8827c, 0x27dcd8b4, 0x00000000, 0xa06c024c, 0xcb2776e5, 0x2f3cd2a2);
    Turn1(22, 0x27dcd8b4, 0x2f3cd2a2, 0xe04f070c, 0x82b8827c, 0x00000000, 0x627f8720, 0x62fe4655, 0xc0d22b61);
    Turn1(23, 0x82b8827c, 0xc0d22b61, 0x2f3cd2a2, 0xe04f070c, 0x00000000, 0xcf72d3a2, 0x39ff51e6, 0xdf35cb56);
  }

  lemma Steps1From24()
    requires At(BLOCK1, START1, 24, 0xe04f070c, 0xdf35cb56, 0xc0d22b61, 0x2f3cd2a2)
    ensures At(BLOCK1, START1, 28, 0x242dd210, 0x2291191a, 0x5c295967, 0x576ace33)
  {
    hide BlockWord, At;
    BlockWords1();
    Turn1(24, 0xe04f070c, 0xdf35cb56, 0xc0d22b61, 0x2f3cd2a2, 0x00000000, 0xcff6eb43, 0xd227c035, 0x242dd210);
    Turn1(25, 0x2f3cd2a2, 0x242dd210, 0xdf35cb56, 0xc0d22b61, 0x000001f0, 0x1f25c216, 0x11999e7e, 0x576ace33);
    Turn1(26, 0xc0d22b61, 0x576ace33, 0x242dd210, 0xdf35cb56, 0x00000000, 0x7728da12, 0x2cd012fa, 0x5c295967);
    Turn1(27, 0xdf35cb56, 0x5c295967, 0x576ace33, 0x242dd210, 0x00000000, 0x576b5c23, 0x7bfb3c66, 0x2291191a);
  }

  lemma Steps1From28()
    requires At(BLOCK1, START1, 28, 0x242dd210, 0x2291191a, 0x5c295967, 0x576ace33)
    ensures At(BLOCK1, START1, 30, 0x5c295967, 0x4bd0378b, 0x24eba695, 0x2291191a)
  {
    hide BlockWord, At;
    BlockWords1();
    Turn1(28, 0x242dd210, 0x2291191a, 0x5c295967, 0x576ace33, 0x00000000, 0x0a011956, 0xd812d46b, 0x24eba695);
    Turn1(29, 0x576ace33, 0x24eba695, 0x2291191a, 0x5c295967, 0x00000000, 0x26b9001d, 0x7b137248, 0x4bd0378b);
  }

  lemma Steps1From30()
    requires At(BLOCK1, START1, 30, 0x5c295967, 0x4bd0378b, 0x24eba695, 0x2291191a)
    ensures At(BLOCK1, START1, 32, 0x24eba695, 0x9c03e2e8, 0x10c42a2f, 0x4bd0378b)
  {
    hide BlockWord, At;
    BlockWords1();
    Turn1(30, 0x5c295967, 0x4bd0378b, 0x24eba695, 0x2291191a, 0x00000000, 0x06fab78f, 0xca9313cf, 0x10c42a2f);
    Turn1(31, 0x2291191a, 0x10c42a2f, 0x4bd0378b, 0x24eba695, 0x00000000, 0x4bd0330f, 0xfb8b98b3, 0x9c03e2e8);
  }

  lemma Steps1From32()
    requires At(BLOCK1, START1, 32, 0x24eba695, 0x9c03e2e8, 0x10c42a2f, 0x4bd0378b)
    ensures At(BLOCK1, START1, 36, 0x5be1d526, 0xa2448453, 0x9f4a1a7e, 0x9e414279)
  {
    hide BlockWord, At;
    BlockWords1();
    Turn1(32, 0x24eba695, 0x9c03e2e8, 0x10c42a2f, 0x4bd0378b, 0x00000000, 0xc717ff4c, 0xebfddf23, 0x5be1d526);
    Turn1(33, 0x4bd0378b, 0x5be1d526, 0x9c03e2e8, 0x10c42a2f, 0x00000000, 0xd7261de1, 0xaa684bed, 0x9e414279);
    Turn1(34, 0x10c42a2f, 0x9e414279, 0x5be1d526, 0x9c03e2e8, 0x00000000, 0x59a375b7, 0xd8050108, 0x9f4a1a7e);
    Turn1(35, 0x9c03e2e8, 0x9f4a1a7e, 0x9e414279, 0x5be1d526, 0x000001f0, 0x5aea8d21, 0xf4d3aa05, 0xa2448453);
  }

  lemma Steps1From36()
    requires At(BLOCK1, START1, 36, 0x5be1d526, 0xa2448453, 0x9f4a1a7e, 0x9e414279)
    ensures At(BLOCK1, START1, 40, 0xe14e403d, 0xfe314121, 0x60cc183a, 0xe8cfd670)
  {
    hide BlockWord, At;
    BlockWords1();
    Turn1(36, 0x5be1d526, 0xa2448453, 0x9f4a1a7e, 0x9e414279, 0x00000000, 0xa34fdc54, 0xa3f09bbe, 0xe14e403d);
    Turn1(37, 0x9e414279, 0xe14e403d, 0xa2448453, 0x9f4a1a7e, 0x00000000, 0xdc40de10, 0xc660f032, 0xe8cfd670);
    Turn1(38, 0x9f4a1a7e, 0xe8cfd670, 0xe14e403d, 0xa2448453, 0x00000000, 0xabc5121e, 0x41ca77fc, 0x60cc183a);
    Turn1(39, 0xa2448453, 0x60cc183a, 0xe8cfd670, 0xe14e403d, 0x00000000, 0x694d8e77, 0xca51cf3a, 0xfe314121);
  }

  lemma Steps1From40()
    requires At(BLOCK1, START1, 40, 0xe14e403d, 0xfe314121, 0x60cc183a, 0xe8cfd670)
    ensures At(BLOCK1, START1, 44, 0xfff62809, 0x7c7e974c, 0x8cb5221c, 0xe37209ac)
  {
    hide BlockWord, At;
    BlockWords1();
    Turn1(40, 0xe14e403d, 0xfe314121, 0x60cc183a, 0xe8cfd670, 0x00000000, 0x76328f6b, 0x801c4e6e, 0xfff62809);
    Turn1(41, 0xe8cfd670, 0xfff62809, 0xfe314121, 0x60cc183a, 0x00000000, 0x610b7112, 0x347c6f7c, 0xe37209ac);
    Turn1(42, 0x60cc183a, 0xe37209ac, 0xfff62809, 0xfe314121, 0x00000000, 0xe2b56084, 0x1870a943, 0x8cb5221c);
    Turn1(43, 0xfe314121, 0x8cb5221c, 0xe37209ac, 0xfff62809, 0x00000000, 0x903103b9, 0x92ea61df, 0x7c7e974c);
  }

  lemma Steps1From44()
    requires At(BLOCK1, START1, 44, 0xfff62809, 0x7c7e974c, 0x8cb5221c, 0xe37209ac)
    ensures At(BLOCK1, START1, 46, 0x8cb5221c, 0xd4d9c6ac, 0x54c9eb3a, 0x7c7e974c)
  {
    hide BlockWord, At;
    BlockWords1();
    Turn1(44, 0xfff62809, 0x7c7e974c, 0x8cb5221c, 0xe37209ac, 0x00000000, 0x13b9bcfc, 0xed84b53e, 0x54c9eb3a);
    Turn1(45, 0xe37209ac, 0x54c9eb3a, 0x7c7e974c, 0x8cb5221c, 0x00000000, 0xa4025e6a, 0x6e5001fb, 0xd4d9c6ac);
  }

  lemma Steps1From46()
    requires At(BLOCK1, START1, 46, 0x8cb5221c, 0xd4d9c6ac, 0x54c9eb3a, 0x7c7e974c)
    ensures At(BLOCK1, START1, 48, 0x54c9eb3a, 0x79c0710a, 0x2ec86f72, 0xd4d9c6ac)
  {
    hide BlockWord, At;
    BlockWords1();
    Turn1(46, 0x8cb5221c, 0xd4d9c6ac, 0x54c9eb3a, 0x7c7e974c, 0x00000000, 0xfc6ebada, 0xa8c659ee, 0x2ec86f72);
    Turn1(47, 0x7c7e974c, 0x2ec86f72, 0xd4d9c6ac, 0x54c9eb3a, 0x00000000, 0xaed842e4, 0xf0033095, 0x79c0710a);
  }

  lemma Steps1From48()
    requires At(BLOCK1, START1, 48, 0x54c9eb3a, 0x79c0710a, 0x2ec86f72, 0xd4d9c6ac)
    ensures At(BLOCK1, START1, 52, 0x02095af1, 0x2ba98e3f, 0xa8dcfe26, 0x13d245fd)
  {
    hide BlockWord, At;
    BlockWords1();
    Turn1(48, 0x54c9eb3a, 0x79c0710a, 0x2ec86f72, 0xd4d9c6ac, 0x00000000, 0x552e1629, 0x9e2123a7, 0x02095af1);
    Turn1(49, 0xd4d9c6ac, 0x02095af1, 0x79c0710a, 0x2ec86f72, 0x00000000, 0xaaffabf7, 0xc304723a, 0x13d245fd);
    Turn1(50, 0x2ec86f72, 0x13d245fd, 0x02095af1, 0x79c0710a, 0x000001f0, 0x95f6950c, 0x70532a15, 0xa8dcfe26);
    Turn1(51, 0x79c0710a, 0xa8dcfe26, 0x13d245fd, 0x02095af1, 0x00000000, 0xee2cbad3, 0x6480cc16, 0x2ba98e3f);
  }

  lemma Steps1From52()
    requires At(BLOCK1, START1, 52, 0x02095af1, 0x2ba98e3f, 0xa8dcfe26, 0x13d245fd)
    ensures At(BLOCK1, START1, 56, 0xe126c1aa, 0xfb7bcee0, 0x6f287ff5, 0x96b00fa7)
  {
    hide BlockWord, At;
    BlockWords1();
    Turn1(52, 0x02095af1, 0x2ba98e3f, 0xa8dcfe26, 0x13d245fd, 0x00000000, 0x47714019, 0xaed5f4cd, 0xe126c1aa);
    Turn1(53, 0x13d245fd, 0xe126c1aa, 0x2ba98e3f, 0xa8dcfe26, 0x00000000, 0xdc8e4fc4, 0x7f6d6253, 0x96b00fa7);
    Turn1(54, 0xa8dcfe26, 0x96b00fa7, 0xe126c1aa, 0x2ba98e3f, 0x00000000, 0x37d0be4d, 0xe09db0f0, 0x6f287ff5);
    Turn1(55, 0x2ba98e3f, 0x6f287ff5, 0x96b00fa7, 0xe126c1aa, 0x00000000, 0xe9497052, 0x9a775c62, 0xfb7bcee0);
  }

  lemma Steps1From56()
    requires At(BLOCK1, START1, 56, 0xe126c1aa, 0xfb7bcee0, 0x6f287ff5, 0x96b00fa7)
    ensures At(BLOCK1, START1, 60, 0x452c1099, 0x5ac74608, 0xc197ea8e, 0xca801ba6)
  {
    hide BlockWord, At;
    BlockWords1();
    Turn1(56, 0xe126c1aa, 0xfb7bcee0, 0x6f287ff5, 0x96b00fa7, 0x00000000, 0x9457810d, 0xe526c106, 0x452c1099);
    Turn1(57, 0x96b00fa7, 0x452c1099, 0xfb7bcee0, 0x6f287ff5, 0x00000000, 0x2e845e7b, 0xc3615502, 0xca801ba6);
    Turn1(58, 0x6f287ff5, 0xca801ba6, 0x452c1099, 0xfb7bcee0, 0x00000000, 0x8ba82b26, 0x9dd1ee2f, 0xc197ea8e);
    Turn1(59, 0xfb7bcee0, 0xc197ea8e, 0xca801ba6, 0x452c1099, 0x00000000, 0x3157f448, 0x7adbd4c9, 0x5ac74608);
  }

  lemma Steps1From60()
    requires At(BLOCK1, START1, 60, 0x452c1099, 0x5ac74608, 0xc197ea8e, 0xca801ba6)
    ensures At(BLOCK1, START1, 62, 0xc197ea8e, 0xa52dae75, 0x14ae42c6, 0x5ac74608)
  {
    hide BlockWord, At;
    BlockWords1();
    Turn1(60, 0x452c1099, 0x5ac74608, 0xc197ea8e, 0xca801ba6, 0x00000000, 0xbe680cd7, 0xfae79bf2, 0x14ae42c6);
    Turn1(61, 0xca801ba6, 0x14ae42c6, 0x5ac74608, 0xc197ea8e, 0x00000000, 0x642911ff, 0xebe41fda, 0xa52dae75);
  }

  lemma Steps1From62()
    requires At(BLOCK1, START1, 62, 0xc197ea8e, 0xa52dae75, 0x14ae42c6, 0x5ac74608)
    ensures At(BLOCK1, START1, 64, 0x14ae42c6, 0x16dd9203, 0x826afd76, 0xa52dae75)
  {
    hide BlockWord, At;
    BlockWords1();
    Turn1(62, 0xc197ea8e, 0xa52dae75, 0x14ae42c6, 0x5ac74608, 0x00000000, 0xb193fd31, 0x9e03ba7a, 0x826afd76);
    Turn1(63, 0x5ac74608, 0x826afd76, 0xa52dae75, 0x14ae42c6, 0x00000000, 0x4e56530a, 0x94a46ca3, 0x16dd9203);
  }

  lemma Compressed1()
    ensures Compress(START1, BLOCK1) == Regs(Word(0x98ab74d1), Word(0xf5d977d2), Word(0x2c1c61a5), Word(0x9f9d419f))
  {
    hide At, Compress;
    Start(BLOCK1, 0x83fd320b, 0xdefbe5cf, 0xa9b1642f, 0xfa6f932a);
    Steps1From0();
    Steps1From4();
    Steps1From8();
    Steps1From12();
    Steps1From14();
    Steps1From16();
    Steps1From20();
    Steps1From24();
    Steps1From28();
    Steps1From30();
    Steps1From32();
    Steps1From36();
    Steps1From40();
    Steps1From44();
    Steps1From46();
    Steps1From48();
    Steps1From52();
    Steps1From56();
    Steps1From60();
    Steps1From62();
    Finish(BLOCK1, START1, 0x14ae42c6, 0x16dd9203, 0x826afd76, 0xa52dae75,
      Regs(Word(0x98ab74d1), Word(0xf5d977d2), Word(0x2c1c61a5), Word(0x9f9d419f)));
  }

  lemma Padded()
    ensures Pad(MESSAGE) == BLOCK0 + BLOCK1
  {
    ZeroRow();
    Length();
    LastRows();
    ManyZeros();
    PaddedRows(ROW0, ROW1, ROW2, ROW3, LAST, ZERO_ROW, END);
  }

  lemma LastRows()
    ensures LAST == ROW3 + [0x80, 0x00] && END == Zeros(8) + ([0xf0] + ([0x01] + Zeros(6)))
  {
  }

  lemma ManyZeros()
    ensures Zeros(57) == [0x00] + (Zeros(16) + (Zeros(16) + (Zeros(16) + Zeros(8))))
  {
    SplitZeros(16, 8);
    SplitZeros(16, 24);
    SplitZeros(16, 40);
    SplitZeros(1, 56);
    assert Zeros(1) == [0x00];
  }

  lemma PaddedRows(r0: seq<Byte>, r1: seq<Byte>, r2: seq<Byte>, r3: seq<Byte>,
                   last: seq<Byte>, z: seq<Byte>, end: seq<Byte>)
    requires |r0 + r1 + r2 + r3| == 62 && last == r3 + [0x80, 0x00]
    requires z == Zeros(16) && end == Zeros(8) + LeBytes(496, 8)
    requires Zeros(57) == [0x00] + (Zeros(16) + (Zeros(16) + (Zeros(16) + Zeros(8))))
    ensures Pad(r0 + r1 + r2 + r3) == (r0 + r1 + r2 + last) + (z + z + z + end)
  {
    hide LeBytes, Zeros;
    assert [0x80, 0x00] == [0x80] + [0x00];
    Regroup(r0 + r1 + r2, r3, [0x80], [0x00], z, Zeros(8), LeBytes(496, 8));
  }

  lemma Regroup(m: seq<Byte>, r: seq<Byte>, one: seq<Byte>, zero: seq<Byte>, z: seq<Byte>, y: seq<Byte>, l: seq<Byte>)
    ensures (m + r) + one + (zero + (z + (z + (z + y)))) + l == (m + (r + (one + zero))) + (z + z + z + (y + l))
  {
  }

  lemma Length()
    ensures LeBytes(496, 8) == [0xf0] + ([0x01] + Zeros(6))
  {
    hide Zeros;
    Md5OfEmpty.NoLength(6);
    Low(496, 8, 0xf0);
    Low(1, 7, 0x01);
  }

  lemma Low(n: nat, k: nat, b: Byte)
    requires k > 0 && n % 256 == b as nat
    ensures LeBytes(n, k) == [b] + LeBytes(n / 256, k - 1)
  {
    HashMd5Api.ThereAndBack(b);
  }

  /** The message has the digest d174ab98d277d9f5a5611c2c9f419d9f. */
  lemma DigestOfLetters()
    ensures Digest(MESSAGE) == [
      0xd1, 0x74, 0xab, 0x98, 0xd2, 0x77, 0xd9, 0xf5,
      0xa5, 0x61, 0x1c, 0x2c, 0x9f, 0x41, 0x9d, 0x9f]
  {
    hide Compress, Fold, Pad, Zeros, WordBytes;
    Padded();
    Compressed0();
    Compressed1();
    FoldNone(INITIAL);
    FoldBlock(INITIAL, [], BLOCK0);
    assert [] + BLOCK0 == BLOCK0;
    FoldBlock(INITIAL, BLOCK0, BLOCK1);
    Stored(0x98ab74d1, 0xd1, 0x74, 0xab, 0x98);
    Stored(0xf5d977d2, 0xd2, 0x77, 0xd9, 0xf5);
    Stored(0x2c1c61a5, 0xa5, 0x61, 0x1c, 0x2c);
    Stored(0x9f9d419f, 0x9f, 0x41, 0x9d, 0x9f);
  }
}
