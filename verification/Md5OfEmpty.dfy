/** The digest of the empty message: the first line of the test suite in section A.5 of RFC 1321. */
module Md5OfEmpty {
  import opened LittleEndian
  import opened Md5Trace
  import opened Rfc1321
  import opened Words

  const FIRST: seq<Byte> := [
    0x80, 0x00, 0x00, 0x00, 0x00, 0x00, 0x00, 0x00, 0x00, 0x00, 0x00, 0x00, 0x00, 0x00, 0x00, 0x00]
  const BLOCK: seq<Byte> := FIRST + ZERO_ROW + ZERO_ROW + ZERO_ROW
  const START: Regs := Regs(Word(0x67452301), Word(0xefcdab89), Word(0x98badcfe), Word(0x10325476))

  lemma WordsOfRow0(blk: seq<Byte>)
    requires |blk| == 64 && blk[0..16] == FIRST
    ensures BlockWord(blk, 0) == Word(0x00000080) && BlockWord(blk, 1) == Word(0x00000000)
    ensures BlockWord(blk, 2) == Word(0x00000000) && BlockWord(blk, 3) == Word(0x00000000)
  {
    hide BlockWord;
    WordIs(blk, FIRST, 0, 0, 0x80, 0x00, 0x00, 0x00, 0x00000080);
    WordIs(blk, FIRST, 0, 1, 0x00, 0x00, 0x00, 0x00, 0x00000000);
    WordIs(blk, FIRST, 0, 2, 0x00, 0x00, 0x00, 0x00, 0x00000000);
    WordIs(blk, FIRST, 0, 3, 0x00, 0x00, 0x00, 0x00, 0x00000000);
  }

  lemma BlockWords()
    ensures BlockWord(BLOCK, 0) == Word(0x00000080) && BlockWord(BLOCK, 1) == Word(0x00000000)
    ensures BlockWord(BLOCK, 2) == Word(0x00000000) && BlockWord(BLOCK, 3) == Word(0x00000000)
    ensures BlockWord(BLOCK, 4) == Word(0x00000000) && BlockWord(BLOCK, 5) == Word(0x00000000)
    ensures BlockWord(BLOCK, 6) == Word(0x00000000) && BlockWord(BLOCK, 7) == Word(0x00000000)
    ensures BlockWord(BLOCK, 8) == Word(0x00000000) && BlockWord(BLOCK, 9) == Word(0x00000000)
    ensures BlockWord(BLOCK, 10) == Word(0x00000000) && BlockWord(BLOCK, 11) == Word(0x00000000)
    ensures BlockWord(BLOCK, 12) == Word(0x00000000) && BlockWord(BLOCK, 13) == Word(0x00000000)
    ensures BlockWord(BLOCK, 14) == Word(0x00000000) && BlockWord(BLOCK, 15) == Word(0x00000000)
  {
    hide BlockWord;
    Rows(FIRST, ZERO_ROW, ZERO_ROW, ZERO_ROW);
    WordsOfRow0(BLOCK);
    ZeroWords(BLOCK, 1);
    ZeroWords(BLOCK, 2);
    ZeroWords(BLOCK, 3);
  }

  lemma Turn(i: nat, a: bv32, b: bv32, c: bv32, d: bv32, x: bv32, f: bv32, r: bv32, n: bv32)
    requires At(BLOCK, START, i, a, b, c, d) && BlockWord(BLOCK, Schedule(i).k) == Word(x)
    requires Aux(i, Word(b), Word(c), Word(d)) == Word(f)
    requires Plus(Plus(Plus(Word(a), Word(f)), Word(x)), Word(Schedule(i).t)) == Word(r)
    requires Plus(ShiftOr(Word(r), Schedule(i).s), Word(b)) == Word(n)
    ensures At(BLOCK, START, i + 1, d, n, b, c)
  {
    Md5Trace.Turn(BLOCK, START, i, a, b, c, d, x, f, r, n);
  }

  lemma StepsFrom0()
    requires At(BLOCK, START, 0, 0x67452301, 0xefcdab89, 0x98badcfe, 0x10325476)
    ensures At(BLOCK, START, 4, 0xa5202774, 0x1b163203, 0xe7f06b23, 0xf59592dd)
  {
    hide BlockWord, At;
    BlockWords();
    Turn(0, 0x67452301, 0xefcdab89, 0x98badcfe, 0x10325476, 0x00000080, 0x98badcfe, 0xd76aa4f7, 0xa5202774);
    Turn(1, 0x10325476, 0xa5202774, 0xefcdab89, 0x98badcfe, 0x00000000, 0xbd9afb8a, 0xb6950756, 0xf59592dd);
    Turn(2, 0x98badcfe, 0xf59592dd, 0xa5202774, 0xefcdab89, 0x00000000, 0xaf482b54, 0x6c23792d, 0xe7f06b23);
    Turn(3, 0xefcdab89, 0xe7f06b23, 0xf59592dd, 0xa5202774, 0x00000000, 0xe5900655, 0x971b80cc, 0x1b163203);
  }

  lemma StepsFrom4()
    requires At(BLOCK, START, 4, 0xa5202774, 0x1b163203, 0xe7f06b23, 0xf59592dd)
    ensures At(BLOCK, START, 8, 0x32033344, 0x9bc13ce9, 0xf5b158db, 0x2f35d494)
  {
    hide BlockWord, At;
    BlockWords();
    Turn(4, 0xa5202774, 0x1b163203, 0xe7f06b23, 0xf59592dd, 0x00000000, 0xe791a2df, 0x822dda02, 0x32033344);
    Turn(5, 0xf59592dd, 0x32033344, 0x1b163203, 0xe7f06b23, 0x00000000, 0xd7f27a23, 0x150fd32a, 0x2f35d494);
    Turn(6, 0xe7f06b23, 0x2f35d494, 0x32033344, 0x1b163203, 0x00000000, 0x32033207, 0xc223e33d, 0xf5b158db);
    Turn(7, 0x1b163203, 0xf5b158db, 0x2f35d494, 0x32033344, 0x00000000, 0x27337394, 0x3f903a98, 0x9bc13ce9);
  }

  lemma StepsFrom8()
    requires At(BLOCK, START, 8, 0x32033344, 0x9bc13ce9, 0xf5b158db, 0x2f35d494)
    ensures At(BLOCK, START, 12, 0x3893b991, 0x70768a29, 0xe1ef0576, 0xfce4a312)
  {
    hide BlockWord, At;
    BlockWords();
    Turn(8, 0x32033344, 0x9bc13ce9, 0xf5b158db, 0x2f35d494, 0x00000000, 0xb5b5d8dd, 0x5139a4f9, 0x3893b991);
    Turn(9, 0x2f35d494, 0x3893b991, 0x9bc13ce9, 0xf5b158db, 0x00000000, 0xdda178cb, 0x981c450e, 0xfce4a312);
    Turn(10, 0xf5b158db, 0xfce4a312, 0x3893b991, 0x9bc13ce9, 0x00000000, 0x3b81bdf9, 0x31327285, 0xe1ef0576);
    Turn(11, 0x9bc13ce9, 0xe1ef0576, 0xfce4a312, 0x3893b991, 0x00000000, 0xf8f4b993, 0x1e12ce3a, 0x70768a29);
  }

  lemma StepsFrom12()
    requires At(BLOCK, START, 12, 0x3893b991, 0x70768a29, 0xe1ef0576, 0xfce4a312)
    ensures At(BLOCK, START, 14, 0xe1ef0576, 0x374943a7, 0xf56c7cf1, 0x70768a29)
  {
    hide BlockWord, At;
    BlockWords();
    Turn(12, 0x3893b991, 0x70768a29, 0xe1ef0576, 0xfce4a312, 0x00000000, 0xece62132, 0x9109ebe5, 0xf56c7cf1);
    Turn(13, 0xfce4a312, 0xf56c7cf1, 0x70768a29, 0xe1ef0576, 0x00000000, 0x70e70927, 0x6b641dcc, 0x374943a7);
  }

  lemma StepsFrom14()
    requires At(BLOCK, START, 14, 0xe1ef0576, 0x374943a7, 0xf56c7cf1, 0x70768a29)
    ensures At(BLOCK, START, 16, 0xf56c7cf1, 0xd6819c6a, 0x5aa53f75, 0x374943a7)
  {
    hide BlockWord, At;
    BlockWords();
    Turn(14, 0xe1ef0576, 0x374943a7, 0xf56c7cf1, 0x70768a29, 0x00000000, 0x757ec8a9, 0xfde711ad, 0x5aa53f75);
    Turn(15, 0x70768a29, 0x5aa53f75, 0x374943a7, 0xf56c7cf1, 0x00000000, 0xb74943a5, 0x7173d5ef, 0xd6819c6a);
  }

  lemma StepsFrom16()
    requires At(BLOCK, START, 16, 0xf56c7cf1, 0xd6819c6a, 0x5aa53f75, 0x374943a7)
    ensures At(BLOCK, START, 20, 0x1c7d7513, 0xbd782e17, 0xc095f13a, 0x7bd57a3a)
  {
    hide BlockWord, At;
    BlockWords();
    Turn(16, 0xf56c7cf1, 0xd6819c6a, 0x5aa53f75, 0x374943a7, 0x00000000, 0x5ea53c72, 0x4a2fdec5, 0x1c7d7513);
    Turn(17, 0x374943a7, 0x1c7d7513, 0xd6819c6a, 0x5aa53f75, 0x00000000, 0x9c25b51b, 0x93afac02, 0x7bd57a3a);
    Turn(18, 0x5aa53f75, 0x7bd57a3a, 0x1c7d7513, 0xd6819c6a, 0x00000000, 0x5afd793b, 0xdc011301, 0xc095f13a);
    Turn(19, 0xd6819c6a, 0xc095f13a, 0x7bd57a3a, 0x1c7d7513, 0x00000080, 0x63957b3a, 0x23cddfce, 0xbd782e17);
  }

  lemma StepsFrom20()
    requires At(BLOCK, START, 20, 0x1c7d7513, 0xbd782e17, 0xc095f13a, 0x7bd57a3a)
    ensures At(BLOCK, START, 24, 0x3d1e3e6c, 0xe422531a, 0xeb41643e, 0x68b7b3e3)
  {
    hide BlockWord, At;
    BlockWords();
    Turn(20, 0x1c7d7513, 0xbd782e17, 0xc095f13a, 0x7bd57a3a, 0x00000000, 0xb950ab12, 0xabfd3082, 0x3d1e3e6c);
    Turn(21, 0x7bd57a3a, 0x3d1e3e6c, 0xbd782e17, 0xc095f13a, 0x00000000, 0x3d7c3e2d, 0xbb95ccba, 0x68b7b3e3);
    Turn(22, 0xc095f13a, 0x68b7b3e3, 0x3d1e3e6c, 0xbd782e17, 0x00000000, 0x2836326b, 0xc16e0a26, 0xeb41643e);
    Turn(23, 0xbd782e17, 0xeb41643e, 0x68b7b3e3, 0x3d1e3e6c, 0x00000000, 0x69a1a5af, 0x0eedcf8e, 0xe422531a);
  }

  lemma StepsFrom24()
    requires At(BLOCK, START, 24, 0x3d1e3e6c, 0xe422531a, 0xeb41643e, 0x68b7b3e3)
    ensures At(BLOCK, START, 28, 0x306ec122, 0xa0572807, 0xa3c663da, 0xd28c77c2)
  {
    hide BlockWord, At;
    BlockWords();
    Turn(24, 0x3d1e3e6c, 0xe422531a, 0xeb41643e, 0x68b7b3e3, 0x00000000, 0xe362571e, 0x42626370, 0x306ec122);
    Turn(25, 0x68b7b3e3, 0x306ec122, 0xe422531a, 0xeb41643e, 0x00000000, 0x24625322, 0x50510edb, 0xd28c77c2);
    Turn(26, 0xeb41643e, 0xd28c77c2, 0x306ec122, 0xe422531a, 0x00000000, 0xd04cd322, 0xb06344e7, 0xa3c663da);
    Turn(27, 0xe422531a, 0xa3c663da, 0xd28c77c2, 0x306ec122, 0x00000000, 0xe2c677c2, 0x0c42dfc9, 0xa0572807);
  }

  lemma StepsFrom28()
    requires At(BLOCK, START, 28, 0x306ec122, 0xa0572807, 0xa3c663da, 0xd28c77c2)
    ensures At(BLOCK, START, 30, 0xa3c663da, 0xae7813db, 0x13707036, 0xa0572807)
  {
    hide BlockWord, At;
    BlockWords();
    Turn(28, 0x306ec122, 0xa0572807, 0xa3c663da, 0xd28c77c2, 0x00000000, 0xa146201a, 0x7b98ca41, 0x13707036);
    Turn(29, 0xd28c77c2, 0x13707036, 0xa0572807, 0xa3c663da, 0x00000000, 0x03516817, 0xd2cd83d1, 0xae7813db);
  }

  lemma StepsFrom30()
    requires At(BLOCK, START, 30, 0xa3c663da, 0xae7813db, 0x13707036, 0xa0572807)
    ensures At(BLOCK, START, 32, 0x13707036, 0xa2205f1f, 0x1c31c384, 0xae7813db)
  {
    hide BlockWord, At;
    BlockWords();
    Turn(30, 0xa3c663da, 0xae7813db, 0x13707036, 0xa0572807, 0x00000000, 0xb3705033, 0xbea5b6e6, 0x1c31c384);
    Turn(31, 0xa0572807, 0x1c31c384, 0xae7813db, 0x13707036, 0x00000000, 0xbc3843cd, 0xe9b9b85e, 0xa2205f1f);
  }

  lemma StepsFrom32()
    requires At(BLOCK, START, 32, 0x13707036, 0xa2205f1f, 0x1c31c384, 0xae7813db)
    ensures At(BLOCK, START, 36, 0xdf63eaa1, 0x004b6669, 0x12f3e755, 0xc3689f5b)
  {
    hide BlockWord, At;
    BlockWords();
    Turn(32, 0x13707036, 0xa2205f1f, 0x1c31c384, 0xae7813db, 0x00000000, 0x10698f40, 0x23d438b8, 0xdf63eaa1);
    Turn(33, 0xae7813db, 0xdf63eaa1, 0xa2205f1f, 0x1c31c384, 0x00000000, 0x6172763a, 0x975c8096, 0xc3689f5b);
    Turn(34, 0x1c31c384, 0xc3689f5b, 0xdf63eaa1, 0xa2205f1f, 0x00000000, 0xbe2b2ae5, 0x47fa4f8b, 0x12f3e755);
    Turn(35, 0xa2205f1f, 0x12f3e755, 0xc3689f5b, 0xdf63eaa1, 0x00000000, 0x0ef892af, 0xaefe29da, 0x004b6669);
  }

  lemma StepsFrom36()
    requires At(BLOCK, START, 36, 0xdf63eaa1, 0x004b6669, 0x12f3e755, 0xc3689f5b)
    ensures At(BLOCK, START, 40, 0x5f7a9b2e, 0xc5dc8c15, 0x91ca4cb7, 0xabc34e16)
  {
    hide BlockWord, At;
    BlockWords();
    Turn(36, 0xdf63eaa1, 0x004b6669, 0x12f3e755, 0xc3689f5b, 0x00000000, 0xd1d01e67, 0x55f2f34c, 0x5f7a9b2e);
    Turn(37, 0xc3689f5b, 0x5f7a9b2e, 0x004b6669, 0x12f3e755, 0x00000000, 0x4dc21a12, 0x5d098916, 0xabc34e16);
    Turn(38, 0x12f3e755, 0xabc34e16, 0x5f7a9b2e, 0x004b6669, 0x00000000, 0xf4f2b351, 0xfea1e606, 0x91ca4cb7);
    Turn(39, 0x004b6669, 0x91ca4cb7, 0xabc34e16, 0x5f7a9b2e, 0x00000000, 0x6573998f, 0x247ebc68, 0xc5dc8c15);
  }

  lemma StepsFrom40()
    requires At(BLOCK, START, 40, 0x5f7a9b2e, 0xc5dc8c15, 0x91ca4cb7, 0xabc34e16)
    ensures At(BLOCK, START, 44, 0x4497169d, 0x0fe32453, 0xfd95f243, 0x76fd93d4)
  {
    hide BlockWord, At;
    BlockWords();
    Turn(40, 0x5f7a9b2e, 0xc5dc8c15, 0x91ca4cb7, 0xabc34e16, 0x00000000, 0xffd58eb4, 0x87eba8a8, 0x4497169d);
    Turn(41, 0xabc34e16, 0x4497169d, 0xc5dc8c15, 0x91ca4cb7, 0x00000080, 0x1081d63f, 0xa6e64ccf, 0x76fd93d4);
    Turn(42, 0x91ca4cb7, 0x76fd93d4, 0x4497169d, 0xc5dc8c15, 0x00000000, 0xf7b6095c, 0x5e6f8698, 0xfd95f243);
    Turn(43, 0xc5dc8c15, 0xfd95f243, 0x76fd93d4, 0x4497169d, 0x00000000, 0xcfff770a, 0x9a642024, 0x0fe32453);
  }

  lemma StepsFrom44()
    requires At(BLOCK, START, 44, 0x4497169d, 0x0fe32453, 0xfd95f243, 0x76fd93d4)
    ensures At(BLOCK, START, 46, 0xfd95f243, 0x22a31f54, 0x3f55edfd, 0x0fe32453)
  {
    hide BlockWord, At;
    BlockWords();
    Turn(44, 0x4497169d, 0x0fe32453, 0xfd95f243, 0x76fd93d4, 0x00000000, 0x848b45c4, 0xa2f72c9a, 0x3f55edfd);
    Turn(45, 0x76fd93d4, 0x3f55edfd, 0x0fe32453, 0xfd95f243, 0x00000000, 0xcd233bed, 0x2afc69a6, 0x22a31f54);
  }

  lemma StepsFrom46()
    requires At(BLOCK, START, 46, 0xfd95f243, 0x22a31f54, 0x3f55edfd, 0x0fe32453)
    ensures At(BLOCK, START, 48, 0x3f55edfd, 0xca7d2dbd, 0x68d84ea2, 0x22a31f54)
  {
    hide BlockWord, At;
    BlockWords();
    Turn(46, 0xfd95f243, 0x22a31f54, 0x3f55edfd, 0x0fe32453, 0x00000000, 0x1215d6fa, 0x2f4e4635, 0x68d84ea2);
    Turn(47, 0x0fe32453, 0x68d84ea2, 0x22a31f54, 0x3f55edfd, 0x00000000, 0x752ebc0b, 0x49be36c3, 0xca7d2dbd);
  }

  lemma StepsFrom48()
    requires At(BLOCK, START, 48, 0x3f55edfd, 0xca7d2dbd, 0x68d84ea2, 0x22a31f54)
    ensures At(BLOCK, START, 52, 0x93aa2577, 0x561e0689, 0xcd85b8cb, 0x1688dc85)
  {
    hide BlockWord, At;
    BlockWords();
    Turn(48, 0x3f55edfd, 0xca7d2dbd, 0x68d84ea2, 0x22a31f54, 0x00000080, 0xb7a5a31d, 0xeb24b3de, 0x93aa2577);
    Turn(49, 0x22a31f54, 0x93aa2577, 0xca7d2dbd, 0x68d84ea2, 0x00000000, 0x5dd298c2, 0xc3a0b7ad, 0x1688dc85);
    Turn(50, 0x68d84ea2, 0x1688dc85, 0x93aa2577, 0xca7d2dbd, 0x00000000, 0xa420fbb0, 0xb88d6df9, 0xcd85b8cb);
    Turn(51, 0xca7d2dbd, 0xcd85b8cb, 0x1688dc85, 0x93aa2577, 0x00000000, 0xfb5d264e, 0xc26df444, 0x561e0689);
  }

  lemma StepsFrom52()
    requires At(BLOCK, START, 52, 0x93aa2577, 0x561e0689, 0xcd85b8cb, 0x1688dc85)
    ensures At(BLOCK, START, 56, 0x5625a114, 0x1e77fa61, 0x392ad0d0, 0x3450f42b)
  {
    hide BlockWord, At;
    BlockWords();
    Turn(52, 0x93aa2577, 0x561e0689, 0xcd85b8cb, 0x1688dc85, 0x00000000, 0x32fa9f30, 0x2c001e6a, 0x5625a114);
    Turn(53, 0x1688dc85, 0x5625a114, 0x561e0689, 0xcd85b8cb, 0x00000000, 0x2061e1bd, 0xc5f78ad4, 0x3450f42b);
    Turn(54, 0xcd85b8cb, 0x3450f42b, 0x5625a114, 0x561e0689, 0x00000000, 0xebd45c6b, 0xb94a09b3, 0x392ad0d0);
    Turn(55, 0x561e0689, 0x392ad0d0, 0x3450f42b, 0x5625a114, 0x00000000, 0x8daa2ad0, 0x694c8f2a, 0x1e77fa61);
  }

  lemma StepsFrom56()
    requires At(BLOCK, START, 56, 0x5625a114, 0x1e77fa61, 0x392ad0d0, 0x3450f42b)
    ensures At(BLOCK, START, 60, 0x474a9c8c, 0x30130182, 0x36594b14, 0xdfce00bc)
  {
    hide BlockWord, At;
    BlockWords();
    Turn(56, 0x5625a114, 0x1e77fa61, 0x392ad0d0, 0x3450f42b, 0x00000000, 0xe6d52b25, 0xaca34a88, 0x474a9c8c);
    Turn(57, 0x3450f42b, 0x474a9c8c, 0x1e77fa61, 0x392ad0d0, 0x00000000, 0xd9a845ce, 0x0c2620d9, 0xdfce00bc);
    Turn(58, 0x392ad0d0, 0xdfce00bc, 0x474a9c8c, 0x1e77fa61, 0x00000000, 0xb8849932, 0x94b0ad16, 0x36594b14);
    Turn(59, 0x1e77fa61, 0x36594b14, 0xdfce00bc, 0x474a9c8c, 0x00000000, 0x61336bcb, 0xcdb377cd, 0x30130182);
  }

  lemma StepsFrom60()
    requires At(BLOCK, START, 60, 0x474a9c8c, 0x30130182, 0x36594b14, 0xdfce00bc)
    ensures At(BLOCK, START, 62, 0x36594b14, 0x6e10a476, 0x7246fad3, 0x30130182)
  {
    hide BlockWord, At;
    BlockWords();
    Turn(60, 0x474a9c8c, 0x30130182, 0x36594b14, 0xdfce00bc, 0x00000000, 0x066ab4d7, 0x4508cfe5, 0x7246fad3);
    Turn(61, 0xdfce00bc, 0x7246fad3, 0x30130182, 0x36594b14, 0x00000000, 0xcbf5ff79, 0x68fef26a, 0x6e10a476);
  }

  lemma StepsFrom62()
    requires At(BLOCK, START, 62, 0x36594b14, 0x6e10a476, 0x7246fad3, 0x30130182)
    ensures At(BLOCK, START, 64, 0x7246fad3, 0x14e45506, 0xff4ea3eb, 0x6e10a476)
  {
    hide BlockWord, At;
    BlockWords();
    Turn(62, 0x36594b14, 0x6e10a476, 0x7246fad3, 0x30130182, 0x00000000, 0x9dba04ac, 0xfeeb227b, 0xff4ea3eb);
    Turn(63, 0x30130182, 0xff4ea3eb, 0x6e10a476, 0x7246fad3, 0x00000000, 0x91ef0399, 0xad88d8ac, 0x14e45506);
  }

  lemma Compressed()
    ensures Compress(START, BLOCK) == Regs(Word(0xd98c1dd4), Word(0x04b2008f), Word(0x980980e9), Word(0x7e42f8ec))
  {
    hide At, Compress;
    Start(BLOCK, 0x67452301, 0xefcdab89, 0x98badcfe, 0x10325476);
    StepsFrom0();
    StepsFrom4();
    StepsFrom8();
    StepsFrom12();
    StepsFrom14();
    StepsFrom16();
    StepsFrom20();
    StepsFrom24();
    StepsFrom28();
    StepsFrom30();
    StepsFrom32();
    StepsFrom36();
    StepsFrom40();
    StepsFrom44();
    StepsFrom46();
    StepsFrom48();
    StepsFrom52();
    StepsFrom56();
    StepsFrom60();
    StepsFrom62();
    Finish(BLOCK, START, 0x7246fad3, 0x14e45506, 0xff4ea3eb, 0x6e10a476,
      Regs(Word(0xd98c1dd4), Word(0x04b2008f), Word(0x980980e9), Word(0x7e42f8ec)));
  }

  lemma Padded()
    ensures Pad([]) == BLOCK
  {
    NoLength(8);
    ZeroRow();
    assert FIRST == [0x80] + Zeros(15);
    Regroup([0x80], Zeros(15), Zeros(16), Zeros(8));
    SplitZeros(15, 16);
    SplitZeros(31, 16);
    SplitZeros(47, 8);
    SplitZeros(8, 8);
    assert [] + [0x80] == [0x80];
  }

  lemma Regroup(one: seq<Byte>, a: seq<Byte>, b: seq<Byte>, c: seq<Byte>)
    ensures one + (((a + b) + b) + c) + c == (one + a) + b + b + (c + c)
  {
  }

  lemma {:induction false} NoLength(k: nat)
    ensures LeBytes(0, k) == Zeros(k)
  {
    if k > 0 { NoLength(k - 1); }
  }

  /** "" has the digest d41d8cd98f00b204e9800998ecf8427e. */
  lemma DigestOfEmpty()
    ensures Digest([]) == [
      0xd4, 0x1d, 0x8c, 0xd9, 0x8f, 0x00, 0xb2, 0x04,
      0xe9, 0x80, 0x09, 0x98, 0xec, 0xf8, 0x42, 0x7e]
  {
    hide Compress, Fold, Pad, Zeros, WordBytes;
    Padded();
    Compressed();
    FoldNone(INITIAL);
    FoldBlock(INITIAL, [], BLOCK);
    assert [] + BLOCK == BLOCK;
    Stored(0xd98c1dd4, 0xd4, 0x1d, 0x8c, 0xd9);
    Stored(0x04b2008f, 0x8f, 0x00, 0xb2, 0x04);
    Stored(0x980980e9, 0xe9, 0x80, 0x09, 0x98);
    Stored(0x7e42f8ec, 0xec, 0xf8, 0x42, 0x7e);
  }
}
