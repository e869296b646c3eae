/**
 * 32-bit words and the bit-level facts MD5 rests on: the auxiliary functions of section 3.4 of
 * RFC 1321 against the rewritten macros of src/utils/hash_md5.c, and rotation
 * against shift-or. The wrapper keeps bit vectors out of the other proofs.
 */
module Words {
  datatype Word = Word(v: bv32)

  // ----- RFC 1321 -----

  function F(x: Word, y: Word, z: Word): Word { Word((x.v & y.v) | (!x.v & z.v)) }
  function G(x: Word, y: Word, z: Word): Word { Word((x.v & z.v) | (y.v & !z.v)) }
  function H(x: Word, y: Word, z: Word): Word { Word(x.v ^ y.v ^ z.v) }
  function I(x: Word, y: Word, z: Word): Word { Word(y.v ^ (x.v | !z.v)) }

  /** Addition modulo 2^32. */
  function Plus(x: Word, y: Word): Word { Word(x.v + y.v) }

  /** x <<< s. */
  function Rotate(x: Word, s: nat): Word
    requires s <= 32
  {
    Word(x.v.RotateLeft(s))
  }

  // ----- the macros of the program -----

  function MacroF(x: Word, y: Word, z: Word): Word { Word(z.v ^ (x.v & (y.v ^ z.v))) }
  function MacroG(x: Word, y: Word, z: Word): Word { Word(y.v ^ (z.v & (x.v ^ y.v))) }
  function MacroH(x: Word, y: Word, z: Word): Word { Word((x.v ^ y.v) ^ z.v) }
  function MacroH2(x: Word, y: Word, z: Word): Word { Word(x.v ^ (y.v ^ z.v)) }
  function MacroI(x: Word, y: Word, z: Word): Word { Word(y.v ^ (x.v | !z.v)) }

  lemma BitsF(x: Word, y: Word, z: Word)
    ensures MacroF(x, y, z).v == F(x, y, z).v
  {
  }

  lemma BitsG(x: Word, y: Word, z: Word)
    ensures MacroG(x, y, z).v == G(x, y, z).v
  {
  }

  lemma BitsH(x: Word, y: Word, z: Word)
    ensures MacroH(x, y, z).v == H(x, y, z).v
  {
  }

  lemma BitsH2(x: Word, y: Word, z: Word)
    ensures MacroH2(x, y, z).v == H(x, y, z).v
  {
  }

  lemma BitsI(x: Word, y: Word, z: Word)
    ensures MacroI(x, y, z).v == I(x, y, z).v
  {
  }

  /** The five macros compute the four auxiliary functions. */
  lemma MacrosAgree()
    ensures forall x, y, z :: MacroF(x, y, z) == F(x, y, z)
    ensures forall x, y, z :: MacroG(x, y, z) == G(x, y, z)
    ensures forall x, y, z :: MacroH(x, y, z) == H(x, y, z)
    ensures forall x, y, z :: MacroH2(x, y, z) == H(x, y, z)
    ensures forall x, y, z :: MacroI(x, y, z) == I(x, y, z)
  {
    hide F, G, H, I, MacroF, MacroG, MacroH, MacroH2, MacroI;
    forall x, y, z
      ensures MacroF(x, y, z) == F(x, y, z)
      ensures MacroG(x, y, z) == G(x, y, z)
      ensures MacroH(x, y, z) == H(x, y, z)
      ensures MacroH2(x, y, z) == H(x, y, z)
      ensures MacroI(x, y, z) == I(x, y, z)
    {
      BitsF(x, y, z);
      BitsG(x, y, z);
      BitsH(x, y, z);
      BitsH2(x, y, z);
      BitsI(x, y, z);
    }
  }

  /** The rotation inside STEP. */
  function ShiftOr(x: Word, s: nat): (r: Word)
    requires s <= 32
  {
    Word((x.v << s) | ((x.v & 0xffffffff) >> (32 - s)))
  }

  /** The sixteen shift amounts of MD5. */
  const SHIFTS: set<nat> := {4, 5, 6, 7, 9, 10, 11, 12, 14, 15, 16, 17, 20, 21, 22, 23}

  lemma ShiftOrIsRotation(x: Word, s: nat)
    requires s in SHIFTS
    ensures ShiftOr(x, s) == Rotate(x, s)
  {
    if s == 4 {} else if s == 5 {} else if s == 6 {} else if s == 7 {}
    else if s == 9 {} else if s == 10 {} else if s == 11 {} else if s == 12 {}
    else if s == 14 {} else if s == 15 {} else if s == 16 {} else if s == 17 {}
    else if s == 20 {} else if s == 21 {} else if s == 22 {} else {}
  }
}
