/**
 * The streaming MD5 of src/utils/hash_md5.c: a context updated in place, a 64-byte carry buffer, a
 * byte counter split in 29 and 32 bits, and 64 unrolled steps with rewritten round functions.
 * Every method is proved against `Rfc1321`.
 */
module HashMd5 {
  import opened LittleEndian
  import opened Rfc1321
  import opened Words

  const STRING_LENGTH := 33
  const BINARY_LENGTH := 16

  // ----- the macros and the four rounds of `body` -----

  /** The SET and GET macros: the n-th little-endian word from ptr. */
  function Get(ptr: seq<Byte>, n: nat): (r: Word)
    requires |ptr| == 64 && n < 16
    ensures r == BlockWord(ptr, n)
  {
    LoadWord(ptr[n * 4], ptr[n * 4 + 1], ptr[n * 4 + 2], ptr[n * 4 + 3])
  }

  /** The word has the four bytes at 4 * n, low-order byte first: storing it gives them back. */
  lemma GetReadsBytes(ptr: seq<Byte>, n: nat)
    requires |ptr| == 64 && n < 16
    ensures WordBytes(Get(ptr, n)) == ptr[4 * n..4 * n + 4]
  {
    hide WordBytes, LoadWord;
    StoreUndoesLoad(ptr[4 * n..4 * n + 4]);
  }

  /**
   * The STEP macro: one unrolled line of `body`. f is the value of the round function and k the word
   * that SET or GET reads. The ghost arguments name the step of the reference that the line performs;
   * the contract carries the whole register state from one line to the next.
   */
  method Step(f: Word, a: Word, b: Word, c: Word, d: Word, ptr: seq<Byte>, k: nat, t: bv32, s: nat,
              ghost i: nat, ghost s0: Regs)
    returns (r: Word)
    requires |ptr| == 64 && Steps(ptr, s0, i) == Regs(a, b, c, d)
    requires f == Aux(i, b, c, d) && Schedule(i) == Line(k, s, t)
    ensures Steps(ptr, s0, i + 1) == Regs(d, r, b, c)
  {
    hide Aux, BlockWord, Schedule, Rotate, ShiftOr, Plus;
    r := Plus(Plus(Plus(a, f), Get(ptr, k)), Word(t));
    ShiftInUse(i);
    ShiftOrIsRotation(r, s);
    r := ShiftOr(r, s);
    r := Plus(r, b);
    assert r == StepWord(i, Regs(a, b, c, d), BlockWord(ptr, Schedule(i).k));
  }

  /** Round 1 of `body`. */
  method Round1(ptr: seq<Byte>, a0: Word, b0: Word, c0: Word, d0: Word, ghost s0: Regs)
    returns (a: Word, b: Word, c: Word, d: Word)
    requires |ptr| == 64
    requires Steps(ptr, s0, 0) == Regs(a0, b0, c0, d0)
    ensures Steps(ptr, s0, 16) == Regs(a, b, c, d)
  {
    hide Steps, F, G, H, I, MacroF, MacroG, MacroH, MacroH2, MacroI;
    MacrosAgree();
    a, b, c, d := a0, b0, c0, d0;
    a := Step(MacroF(b, c, d), a, b, c, d, ptr, 0, 0xd76aa478, 7, 0, s0);
    d := Step(MacroF(a, b, c), d, a, b, c, ptr, 1, 0xe8c7b756, 12, 1, s0);
    c := Step(MacroF(d, a, b), c, d, a, b, ptr, 2, 0x242070db, 17, 2, s0);
    b := Step(MacroF(c, d, a), b, c, d, a, ptr, 3, 0xc1bdceee, 22, 3, s0);
    a := Step(MacroF(b, c, d), a, b, c, d, ptr, 4, 0xf57c0faf, 7, 4, s0);
    d := Step(MacroF(a, b, c), d, a, b, c, ptr, 5, 0x4787c62a, 12, 5, s0);
    c := Step(MacroF(d, a, b), c, d, a, b, ptr, 6, 0xa8304613, 17, 6, s0);
    b := Step(MacroF(c, d, a), b, c, d, a, ptr, 7, 0xfd469501, 22, 7, s0);
    a := Step(MacroF(b, c, d), a, b, c, d, ptr, 8, 0x698098d8, 7, 8, s0);
    d := Step(MacroF(a, b, c), d, a, b, c, ptr, 9, 0x8b44f7af, 12, 9, s0);
    c := Step(MacroF(d, a, b), c, d, a, b, ptr, 10, 0xffff5bb1, 17, 10, s0);
    b := Step(MacroF(c, d, a), b, c, d, a, ptr, 11, 0x895cd7be, 22, 11, s0);
    a := Step(MacroF(b, c, d), a, b, c, d, ptr, 12, 0x6b901122, 7, 12, s0);
    d := Step(MacroF(a, b, c), d, a, b, c, ptr, 13, 0xfd987193, 12, 13, s0);
    c := Step(MacroF(d, a, b), c, d, a, b, ptr, 14, 0xa679438e, 17, 14, s0);
    b := Step(MacroF(c, d, a), b, c, d, a, ptr, 15, 0x49b40821, 22, 15, s0);
  }

  /** Round 2 of `body`. */
  method Round2(ptr: seq<Byte>, a0: Word, b0: Word, c0: Word, d0: Word, ghost s0: Regs)
    returns (a: Word, b: Word, c: Word, d: Word)
    requires |ptr| == 64
    requires Steps(ptr, s0, 16) == Regs(a0, b0, c0, d0)
    ensures Steps(ptr, s0, 32) == Regs(a, b, c, d)
  {
    hide Steps, F, G, H, I, MacroF, MacroG, MacroH, MacroH2, MacroI;
    MacrosAgree();
    a, b, c, d := a0, b0, c0, d0;
    a := Step(MacroG(b, c, d), a, b, c, d, ptr, 1, 0xf61e2562, 5, 16, s0);
    d := Step(MacroG(a, b, c), d, a, b, c, ptr, 6, 0xc040b340, 9, 17, s0);
    c := Step(MacroG(d, a, b), c, d, a, b, ptr, 11, 0x265e5a51, 14, 18, s0);
    b := Step(MacroG(c, d, a), b, c, d, a, ptr, 0, 0xe9b6c7aa, 20, 19, s0);
    a := Step(MacroG(b, c, d), a, b, c, d, ptr, 5, 0xd62f105d, 5, 20, s0);
    d := Step(MacroG(a, b, c), d, a, b, c, ptr, 10, 0x02441453, 9, 21, s0);
    c := Step(MacroG(d, a, b), c, d, a, b, ptr, 15, 0xd8a1e681, 14, 22, s0);
    b := Step(MacroG(c, d, a), b, c, d, a, ptr, 4, 0xe7d3fbc8, 20, 23, s0);
    a := Step(MacroG(b, c, d), a, b, c, d, ptr, 9, 0x21e1cde6, 5, 24, s0);
    d := Step(MacroG(a, b, c), d, a, b, c, ptr, 14, 0xc33707d6, 9, 25, s0);
    c := Step(MacroG(d, a, b), c, d, a, b, ptr, 3, 0xf4d50d87, 14, 26, s0);
    b := Step(MacroG(c, d, a), b, c, d, a, ptr, 8, 0x455a14ed, 20, 27, s0);
    a := Step(MacroG(b, c, d), a, b, c, d, ptr, 13, 0xa9e3e905, 5, 28, s0);
    d := Step(MacroG(a, b, c), d, a, b, c, ptr, 2, 0xfcefa3f8, 9, 29, s0);
    c := Step(MacroG(d, a, b), c, d, a, b, ptr, 7, 0x676f02d9, 14, 30, s0);
    b := Step(MacroG(c, d, a), b, c, d, a, ptr, 12, 0x8d2a4c8a, 20, 31, s0);
  }

  /** Round 3 of `body`. */
  method Round3(ptr: seq<Byte>, a0: Word, b0: Word, c0: Word, d0: Word, ghost s0: Regs)
    returns (a: Word, b: Word, c: Word, d: Word)
    requires |ptr| == 64
    requires Steps(ptr, s0, 32) == Regs(a0, b0, c0, d0)
    ensures Steps(ptr, s0, 48) == Regs(a, b, c, d)
  {
    hide Steps, F, G, H, I, MacroF, MacroG, MacroH, MacroH2, MacroI;
    MacrosAgree();
    a, b, c, d := a0, b0, c0, d0;
    a := Step(MacroH(b, c, d), a, b, c, d, ptr, 5, 0xfffa3942, 4, 32, s0);
    d := Step(MacroH2(a, b, c), d, a, b, c, ptr, 8, 0x8771f681, 11, 33, s0);
    c := Step(MacroH(d, a, b), c, d, a, b, ptr, 11, 0x6d9d6122, 16, 34, s0);
    b := Step(MacroH2(c, d, a), b, c, d, a, ptr, 14, 0xfde5380c, 23, 35, s0);
    a := Step(MacroH(b, c, d), a, b, c, d, ptr, 1, 0xa4beea44, 4, 36, s0);
    d := Step(MacroH2(a, b, c), d, a, b, c, ptr, 4, 0x4bdecfa9, 11, 37, s0);
    c := Step(MacroH(d, a, b), c, d, a, b, ptr, 7, 0xf6bb4b60, 16, 38, s0);
    b := Step(MacroH2(c, d, a), b, c, d, a, ptr, 10, 0xbebfbc70, 23, 39, s0);
    a := Step(MacroH(b, c, d), a, b, c, d, ptr, 13, 0x289b7ec6, 4, 40, s0);
    d := Step(MacroH2(a, b, c), d, a, b, c, ptr, 0, 0xeaa127fa, 11, 41, s0);
    c := Step(MacroH(d, a, b), c, d, a, b, ptr, 3, 0xd4ef3085, 16, 42, s0);
    b := Step(MacroH2(c, d, a), b, c, d, a, ptr, 6, 0x04881d05, 23, 43, s0);
    a := Step(MacroH(b, c, d), a, b, c, d, ptr, 9, 0xd9d4d039, 4, 44, s0);
    d := Step(MacroH2(a, b, c), d, a, b, c, ptr, 12, 0xe6db99e5, 11, 45, s0);
    c := Step(MacroH(d, a, b), c, d, a, b, ptr, 15, 0x1fa27cf8, 16, 46, s0);
    b := Step(MacroH2(c, d, a), b, c, d, a, ptr, 2, 0xc4ac5665, 23, 47, s0);
  }

  /** Round 4 of `body`. */
  method Round4(ptr: seq<Byte>, a0: Word, b0: Word, c0: Word, d0: Word, ghost s0: Regs)
    returns (a: Word, b: Word, c: Word, d: Word)
    requires |ptr| == 64
    requires Steps(ptr, s0, 48) == Regs(a0, b0, c0, d0)
    ensures Steps(ptr, s0, 64) == Regs(a, b, c, d)
  {
    hide Steps, F, G, H, I, MacroF, MacroG, MacroH, MacroH2, MacroI;
    MacrosAgree();
    a, b, c, d := a0, b0, c0, d0;
    a := Step(MacroI(b, c, d), a, b, c, d, ptr, 0, 0xf4292244, 6, 48, s0);
    d := Step(MacroI(a, b, c), d, a, b, c, ptr, 7, 0x432aff97, 10, 49, s0);
    c := Step(MacroI(d, a, b), c, d, a, b, ptr, 14, 0xab9423a7, 15, 50, s0);
    b := Step(MacroI(c, d, a), b, c, d, a, ptr, 5, 0xfc93a039, 21, 51, s0);
    a := Step(MacroI(b, c, d), a, b, c, d, ptr, 12, 0x655b59c3, 6, 52, s0);
    d := Step(MacroI(a, b, c), d, a, b, c, ptr, 3, 0x8f0ccc92, 10, 53, s0);
    c := Step(MacroI(d, a, b), c, d, a, b, ptr, 10, 0xffeff47d, 15, 54, s0);
    b := Step(MacroI(c, d, a), b, c, d, a, ptr, 1, 0x85845dd1, 21, 55, s0);
    a := Step(MacroI(b, c, d), a, b, c, d, ptr, 8, 0x6fa87e4f, 6, 56, s0);
    d := Step(MacroI(a, b, c), d, a, b, c, ptr, 15, 0xfe2ce6e0, 10, 57, s0);
    c := Step(MacroI(d, a, b), c, d, a, b, ptr, 6, 0xa3014314, 15, 58, s0);
    b := Step(MacroI(c, d, a), b, c, d, a, ptr, 13, 0x4e0811a1, 21, 59, s0);
    a := Step(MacroI(b, c, d), a, b, c, d, ptr, 4, 0xf7537e82, 6, 60, s0);
    d := Step(MacroI(a, b, c), d, a, b, c, ptr, 11, 0xbd3af235, 10, 61, s0);
    c := Step(MacroI(d, a, b), c, d, a, b, ptr, 2, 0x2ad7d2bb, 15, 62, s0);
    b := Step(MacroI(c, d, a), b, c, d, a, ptr, 9, 0xeb86d391, 21, 63, s0);
  }

  /** The 64 steps and the four additions of one turn of the loop in `body`. */
  method Block(ptr: seq<Byte>, a0: Word, b0: Word, c0: Word, d0: Word) returns (a: Word, b: Word, c: Word, d: Word)
    requires |ptr| == 64
    ensures Regs(a, b, c, d) == Compress(Regs(a0, b0, c0, d0), ptr)
  {
    hide Steps, Plus;
    ghost var s0 := Regs(a0, b0, c0, d0);
    assert Steps(ptr, s0, 0) == s0 by { NoSteps(ptr, s0); }
    a, b, c, d := Round1(ptr, a0, b0, c0, d0, s0);
    a, b, c, d := Round2(ptr, a, b, c, d, s0);
    a, b, c, d := Round3(ptr, a, b, c, d, s0);
    a, b, c, d := Round4(ptr, a, b, c, d, s0);
    a, b, c, d := Plus(a, a0), Plus(b, b0), Plus(c, c0), Plus(d, d0);
  }

  lemma NoSteps(blk: seq<Byte>, s: Regs)
    requires |blk| == 64
    ensures Steps(blk, s, 0) == s
  {
  }

  // ----- the context -----

  /** dst holds n elements of src from position from on, at position at, and is otherwise was. */
  ghost predicate Copied(dst: seq<Byte>, at: nat, src: seq<Byte>, from: nat, n: nat, was: seq<Byte>)
  {
    at + n <= |dst| == |was| && from + n <= |src| &&
    forall i :: 0 <= i < |dst| ==> dst[i] == if at <= i < at + n then src[from + i - at] else was[i]
  }

  /** memcpy; dst and src are different objects wherever the program copies. */
  method MemCpy(dst: array<Byte>, at: nat, src: array<Byte>, from: nat, n: nat)
    requires dst != src && at + n <= dst.Length && from + n <= src.Length
    modifies dst
    ensures Copied(dst[..], at, src[..], from, n, old(dst[..]))
  {
    for i := 0 to n
      invariant Copied(dst[..], at, src[..], from, i, old(dst[..]))
    {
      dst[at + i] := src[from + i];
    }
  }

  /** memset to 0. */
  method MemZero(dst: array<Byte>, at: nat, n: nat)
    requires at + n <= dst.Length
    modifies dst
    ensures Copied(dst[..], at, Zeros(n), 0, n, old(dst[..]))
  {
    for i := 0 to n
      invariant Copied(dst[..], at, Zeros(n), 0, i, old(dst[..]))
    {
      dst[at + i] := 0;
    }
  }

  /** The 29/32-bit counter after size more bytes, wrap-around included. */
  lemma CounterAdvances(lo: nat, hi: nat, lo': nat, hi': nat, n: nat, size: nat)
    requires lo < 0x2000_0000 && hi < 0x1_0000_0000
    requires hi * 0x2000_0000 + lo == n % 0x2000_0000_0000_0000
    requires lo' == (lo + size) % 0x2000_0000
    requires hi' == ((if lo' < lo then (hi + 1) % 0x1_0000_0000 else hi) + size / 0x2000_0000) % 0x1_0000_0000
    ensures hi' * 0x2000_0000 + lo' == (n + size) % 0x2000_0000_0000_0000
  {
    var q, a, b := n / 0x2000_0000_0000_0000, size / 0x2000_0000, size % 0x2000_0000;
    var c := if lo' < lo then 1 else 0;
    assert lo + b == c * 0x2000_0000 + lo';
    var d := (hi + c + a) / 0x1_0000_0000;
    assert hi + c + a == d * 0x1_0000_0000 + hi';
    assert n + size == (q + d) * 0x2000_0000_0000_0000 + hi' * 0x2000_0000 + lo';
  }

  /** The counter knows how many bytes are left over. */
  lemma CounterUsed(lo: nat, hi: nat, n: nat)
    requires hi * 0x2000_0000 + lo == n % 0x2000_0000_0000_0000
    ensures lo % 64 == n - Whole(n)
  {
    var k := n / 0x2000_0000_0000_0000 * 0x80_0000_0000_0000 + hi * 0x80_0000;
    assert n == 64 * k + lo;
    WholeIs(n, 64 * k + (lo - lo % 64));
  }

  /** How many of n bytes make up whole blocks. */
  function Whole(n: nat): (r: nat)
    ensures Aligned(r) && r <= n < r + 64
  {
    n - n % 64
  }

  lemma WholeIs(n: nat, r: nat)
    requires Aligned(r) && r <= n < r + 64
    ensures Whole(n) == r
  {
  }

  /** The eight bytes that `m_d5_final` derives from the counter are the bit length modulo 2^64. */
  lemma CounterBytes(lo: nat, hi: nat, n: nat)
    requires lo < 0x2000_0000 && hi < 0x1_0000_0000
    requires hi * 0x2000_0000 + lo == n % 0x2000_0000_0000_0000
    ensures LeBytes(8 * n, 8) == LeBytes(lo * 8, 4) + LeBytes(hi, 4)
  {
    var q := n / 0x2000_0000_0000_0000;
    assert Pow256(4) == 0x1_0000_0000;
    assert 8 * n == lo * 8 + Pow256(4) * (hi + Pow256(4) * q);
    LeSplit(lo * 8, hi + Pow256(4) * q, 4, 4);
    LeSplit(hi, q, 4, 0);
  }

  /** The low, second, third and fourth byte of a 32-bit number. */
  lemma FourBytes(n: nat)
    ensures LeBytes(n, 4) ==
      [(n % 256) as Byte, (n / 0x100 % 256) as Byte, (n / 0x1_0000 % 256) as Byte, (n / 0x100_0000 % 256) as Byte]
  {
    assert n / 256 / 256 == n / 0x1_0000 && n / 256 / 256 / 256 == n / 0x100_0000;
    assert LeBytes(n / 0x100_0000, 1) == [(n / 0x100_0000 % 256) as Byte];
    assert LeBytes(n / 0x1_0000, 2) == [(n / 0x1_0000 % 256) as Byte] + LeBytes(n / 0x100_0000, 1);
    assert LeBytes(n / 0x100, 3) == [(n / 0x100 % 256) as Byte] + LeBytes(n / 0x1_0000, 2);
  }

  /** Padding completes the last block, and adds one more when fewer than nine bytes are free in it. */
  lemma PadLength(m: seq<Byte>)
    ensures |Pad(m)| == Whole(|m|) + (if |m| - Whole(|m|) < 56 then 64 else 128)
  {
    hide LeBytes;
    assert |Pad(m)| == |m| + 1 + (55 - |m|) % 64 + 8;
    var u := |m| % 64;
    assert (55 - |m|) % 64 == if u < 56 then 55 - u else 119 - u;
  }

  /** The padded message byte by byte. */
  lemma PadAt(m: seq<Byte>)
    ensures |Pad(m)| == Whole(|m|) + (if |m| - Whole(|m|) < 56 then 64 else 128)
    ensures Pad(m)[..|m|] == m && Pad(m)[|m|] == 0x80
    ensures forall i :: |m| < i < |Pad(m)| - 8 ==> Pad(m)[i] == 0
    ensures Pad(m)[|Pad(m)| - 8..] == LeBytes(8 * |m|, 8)
  {
    hide LeBytes;
    PadLength(m);
  }

  /** Compressing the bytes of s after position full extends the fold over s. */
  lemma Absorb(s: seq<Byte>, full: nat, blocks: seq<Byte>)
    requires Aligned(full) && Aligned(|blocks|) && full + |blocks| <= |s|
    requires s[full..full + |blocks|] == blocks
    ensures Aligned(full + |blocks|) && Fold(INITIAL, s[..full + |blocks|]) == Fold(Fold(INITIAL, s[..full]), blocks)
  {
    hide Fold, Aligned;
    assert s[..full] + blocks == s[..full + |blocks|];
    FoldAppend(INITIAL, s[..full], blocks);
  }

  /** The n bytes of data from position from on are those of s from position full on. */
  ghost predicate Held(data: array<Byte>, from: nat, s: seq<Byte>, full: nat, n: nat)
    reads data
  {
    from + n <= data.Length && full + n <= |s| && forall i :: full <= i < full + n ==> s[i] == data[from + (i - full)]
  }

  /**
   * MD5Ctx. `stream` is everything fed in so far. The counter holds its length modulo 2^61, the
   * registers are the fold over its full blocks, the buffer starts with the bytes left over.
   */
  class Md5Ctx {
    var lo: nat
    var hi: nat
    var a: Word
    var b: Word
    var c: Word
    var d: Word
    const buffer: array<Byte>
    ghost var stream: seq<Byte>

    function State(): Regs
      reads this
    {
      Regs(a, b, c, d)
    }

    /** The counter holds n modulo 2^61. */
    ghost predicate Counted(n: nat)
      reads `lo, `hi
    {
      && lo < 0x2000_0000 && hi < 0x1_0000_0000
      && hi * 0x2000_0000 + lo == n % 0x2000_0000_0000_0000
    }

    /** The registers have absorbed the whole blocks of s, the buffer starts with the rest. */
    ghost predicate Absorbed(s: seq<Byte>)
      reads this, buffer
    {
      && State() == Fold(INITIAL, s[..Whole(|s|)])
      && Held(buffer, 0, s, Whole(|s|), |s| - Whole(|s|))
    }

    ghost predicate Valid()
      reads this, buffer
    {
      buffer.Length == 64 && Counted(|stream|) && Absorbed(stream)
    }

    /** An uninitialised context. */
    constructor ()
      ensures buffer.Length == 64 && fresh(buffer)
    {
      buffer := new Byte[64];
    }

    /** `m_d5_init`. */
    method Init()
      requires buffer.Length == 64
      modifies this
      ensures Valid() && stream == []
    {
      a, b, c, d := Word(0x67452301), Word(0xefcdab89), Word(0x98badcfe), Word(0x10325476);
      lo, hi := 0, 0;
      stream := [];
    }

    /** `body`: compresses one or more blocks and returns the position after them. */
    method Body(data: array<Byte>, from: nat, size: nat) returns (ptr: nat)
      requires size > 0 && Aligned(size) && from + size <= data.Length
      modifies `a, `b, `c, `d
      ensures ptr == from + size && State() == Fold(old(State()), data[from..from + size])
    {
      hide Compress, Fold;
      var ra, rb, rc, rd := a, b, c, d;
      ptr := from;
      var rest := size;
      assert data[from..from] == [] && Fold(State(), []) == State() by { FoldNone(State()); }
      while true
        invariant rest > 0 && Aligned(rest) && Aligned(ptr - from) && from <= ptr && ptr + rest == from + size
        invariant Regs(ra, rb, rc, rd) == Fold(old(State()), data[from..ptr])
        decreases rest
      {
        var block := data[ptr..ptr + 64];
        ra, rb, rc, rd := Block(block, ra, rb, rc, rd);
        FoldBlock(old(State()), data[from..ptr], block);
        assert data[from..ptr + 64] == data[from..ptr] + block;
        AlignedSum(ptr - from, 64);
        AlignedSum(rest, 64);
        ptr := ptr + 64;
        rest := rest - 64;
        if rest == 0 { break; }
      }
      a, b, c, d := ra, rb, rc, rd;
    }

    /** `body`, when its input is what s holds from position full on. */
    method Compress64(data: array<Byte>, from: nat, size: nat, ghost s: seq<Byte>, ghost full: nat) returns (ptr: nat)
      requires size > 0 && Aligned(size) && Aligned(full) && Held(data, from, s, full, size)
      requires State() == Fold(INITIAL, s[..full])
      modifies `a, `b, `c, `d
      ensures ptr == from + size && Aligned(full + size) && State() == Fold(INITIAL, s[..full + size])
    {
      hide Fold;
      assert data[from..from + size] == s[full..full + size];
      ptr := Body(data, from, size);
      Absorb(s, full, s[full..full + size]);
    }

    /** The counter update at the head of `m_d5_update`. */
    method Count(size: nat, ghost n: nat) returns (savedLo: nat)
      requires Counted(n)
      modifies `lo, `hi
      ensures savedLo == old(lo) && savedLo % 64 == n - Whole(n) && Counted(n + size)
    {
      savedLo := lo;
      CounterUsed(lo, hi, n);
      lo := (savedLo + size) % 0x2000_0000;
      if lo < savedLo { hi := (hi + 1) % 0x1_0000_0000; }
      hi := (hi + size / 0x2000_0000) % 0x1_0000_0000;
      CounterAdvances(savedLo, old(hi), lo, hi, n, size);
    }

    /** The first branch of `m_d5_update` when the buffer gets full: complete it and compress it. */
    method Fill(data: array<Byte>, used: nat, ghost s: seq<Byte>, ghost full: nat) returns (from: nat)
      requires buffer.Length == 64 && data != buffer && 0 < used < 64
      requires Aligned(full) && full <= |s| && State() == Fold(INITIAL, s[..full])
      requires Held(buffer, 0, s, full, used) && Held(data, 0, s, full + used, 64 - used)
      modifies `a, `b, `c, `d, buffer
      ensures from == 64 - used && Aligned(full + 64) && full + 64 <= |s| && State() == Fold(INITIAL, s[..full + 64])
    {
      hide Fold;
      from := 64 - used;
      MemCpy(buffer, used, data, 0, from);
      var _ := Compress64(buffer, 0, 64, s, full);
    }

    /** The rest of `m_d5_update`: compress whole blocks from data, keep what is left in the buffer. */
    method Drain(data: array<Byte>, from: nat, left: nat, ghost s: seq<Byte>, ghost full: nat)
      requires buffer.Length == 64 && data != buffer
      requires Aligned(full) && full + left == |s| && State() == Fold(INITIAL, s[..full])
      requires Held(data, from, s, full, left)
      modifies `a, `b, `c, `d, buffer
      ensures Absorbed(s)
    {
      hide Fold;
      var ptr, rest := from, left;
      ghost var done := full;
      if rest >= 64 {
        var m := left - left % 64;
        ptr := Compress64(data, from, m, s, full);
        rest, done := left % 64, full + m;
      }
      WholeIs(|s|, done);
      MemCpy(buffer, 0, data, ptr, rest);
    }

    /** The early return of `m_d5_update`: everything still fits in the buffer. */
    method Keep(data: array<Byte>, used: nat, size: nat, ghost s: seq<Byte>, ghost full: nat)
      requires buffer.Length == 64 && data != buffer && used + size < 64
      requires Aligned(full) && full + used + size == |s| && State() == Fold(INITIAL, s[..full])
      requires Held(buffer, 0, s, full, used) && Held(data, 0, s, full + used, size)
      modifies buffer
      ensures Absorbed(s)
    {
      hide Fold;
      WholeIs(|s|, full);
      MemCpy(buffer, used, data, 0, size);
    }

    /** `m_d5_update`: feeds data[..size] in. */
    method Update(data: array<Byte>, size: nat)
      requires Valid() && size <= data.Length && data != buffer
      modifies this, buffer
      ensures Valid() && stream == old(stream) + data[..size]
    {
      hide Fold, Whole, Aligned, Counted;
      ghost var full, s := Whole(|stream|), stream + data[..size];
      assert s[..full] == stream[..full];
      var savedLo := Count(size, |stream|);
      Feed(data, size, savedLo % 64, s, full);
      stream := s;
    }

    /** `m_d5_update` after the counter, with used bytes in the buffer. */
    method Feed(data: array<Byte>, size: nat, used: nat, ghost s: seq<Byte>, ghost full: nat)
      requires buffer.Length == 64 && data != buffer && size <= data.Length && used < 64
      requires Aligned(full) && full + used + size == |s| && State() == Fold(INITIAL, s[..full])
      requires Held(buffer, 0, s, full, used) && Held(data, 0, s, full + used, size)
      modifies `a, `b, `c, `d, buffer
      ensures Absorbed(s)
    {
      hide Fold, Aligned, Absorbed;
      if used == 0 {
        Drain(data, 0, size, s, full);
      } else if size < 64 - used {
        Keep(data, used, size, s, full);
      } else {
        var from := Fill(data, used, s, full);
        Drain(data, from, size - from, s, full + 64);
      }
    }

    /** The shift of the counter and the eight stores that append the length in bits. */
    method StoreLength(ghost n: nat)
      requires buffer.Length == 64 && Counted(n)
      modifies `lo, buffer
      ensures Copied(buffer[..], 56, LeBytes(8 * n, 8), 0, 8, old(buffer[..]))
    {
      hide LeBytes;
      CounterBytes(lo, hi, n);
      lo := lo * 8 % 0x1_0000_0000;
      StoreNumber(buffer, 56, lo);
      StoreNumber(buffer, 60, hi);
    }

    /** The first part of `m_d5_final`: the 1-bit, and in the two-block case the block it completes. */
    method StartPadding(ghost s: seq<Byte>) returns (used: nat, ghost last: nat)
      requires Valid() && s == Pad(stream)
      modifies `a, `b, `c, `d, buffer
      ensures used <= 56 && Aligned(last) && |s| == last + 64 && State() == Fold(INITIAL, s[..last])
      ensures Held(buffer, 0, s, last, used) && forall i :: last + used <= i < last + 56 ==> s[i] == 0
    {
      hide Fold, Pad, LeBytes, Whole, Aligned;
      CounterUsed(lo, hi, |stream|);
      AlignedSum(Whole(|stream|), 0);
      PadAt(stream);
      used := lo % 64;
      last := |stream| - used;
      assert s[..last] == stream[..last];
      buffer[used] := 0x80;
      used := used + 1;
      var available := 64 - used;
      if available < 8 {
        MemZero(buffer, used, available);
        var _ := Compress64(buffer, 0, 64, s, last);
        used, last := 0, last + 64;
      }
    }

    /** The last block of `m_d5_final`: zeros, the length, and one more compression. */
    method FinishPadding()
      requires Valid()
      modifies `a, `b, `c, `d, `lo, buffer
      ensures State() == Fold(INITIAL, Pad(stream))
    {
      hide Fold, Pad, LeBytes, Whole, Aligned;
      PadAt(stream);
      ghost var s := Pad(stream);
      var used, last := StartPadding(s);
      AlignedSum(last, 0);
      MemZero(buffer, used, 56 - used);
      StoreLength(|stream|);
      var _ := Compress64(buffer, 0, 64, s, last);
      assert s[..|s|] == s;
    }

    /** `m_d5_final`: pads, appends the length, writes the digest and wipes the context. */
    method Final(result: array<Byte>)
      requires Valid() && result.Length >= 16 && result != buffer
      modifies this, buffer, result
      ensures Copied(result[..], 0, Digest(old(stream)), 0, 16, old(result[..]))
      ensures State() == Regs(Word(0), Word(0), Word(0), Word(0)) && lo == hi == 0 && buffer[..] == Zeros(64)
    {
      hide Fold, Pad, Output, Whole;
      FinishPadding();
      StoreDigest(result);
      a, b, c, d, lo, hi := Word(0), Word(0), Word(0), Word(0), 0, 0;
      MemZero(buffer, 0, 64);
    }

    /** The sixteen stores of the registers. */
    method StoreDigest(result: array<Byte>)
      requires result.Length >= 16
      modifies result
      ensures Copied(result[..], 0, Output(State()), 0, 16, old(result[..]))
    {
      hide WordBytes;
      StoreWord(result, 0, a);
      StoreWord(result, 4, b);
      StoreWord(result, 8, c);
      StoreWord(result, 12, d);
    }
  }

  /** The four stores of one register. */
  method StoreWord(result: array<Byte>, at: nat, w: Word)
    requires at + 4 <= result.Length
    modifies result
    ensures Copied(result[..], at, WordBytes(w), 0, 4, old(result[..]))
  {
    hide ByteOf;
    result[at] := ByteOf(w, 0);
    result[at + 1] := ByteOf(w, 1);
    result[at + 2] := ByteOf(w, 2);
    result[at + 3] := ByteOf(w, 3);
  }

  /** The four stores of one half of the counter. */
  method StoreNumber(buffer: array<Byte>, at: nat, n: nat)
    requires at + 4 <= buffer.Length
    modifies buffer
    ensures Copied(buffer[..], at, LeBytes(n, 4), 0, 4, old(buffer[..]))
  {
    FourBytes(n);
    buffer[at] := (n % 256) as Byte;
    buffer[at + 1] := (n / 0x100 % 256) as Byte;
    buffer[at + 2] := (n / 0x1_0000 % 256) as Byte;
    buffer[at + 3] := (n / 0x100_0000 % 256) as Byte;
  }
}
