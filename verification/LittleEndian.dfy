/** Words in memory, low-order byte first, as section 2 of RFC 1321 has them. */
module LittleEndian {
  import opened Words

  type Byte = bv8

  /** Four bytes as a word, low-order byte first (section 2 of RFC 1321). */
  function LoadWord(b0: Byte, b1: Byte, b2: Byte, b3: Byte): Word {
    Word((b0 as bv32) | ((b1 as bv32) << 8) | ((b2 as bv32) << 16) | ((b3 as bv32) << 24))
  }

  /** Byte k of a word, counted from the low-order end: the word shifted and truncated. */
  function ByteOf(w: Word, k: nat): Byte {
    match k
    case 0 => (w.v & 0xff) as Byte
    case 1 => ((w.v >> 8) & 0xff) as Byte
    case 2 => ((w.v >> 16) & 0xff) as Byte
    case _ => ((w.v >> 24) & 0xff) as Byte
  }

  /** A word as four bytes, low-order byte first. */
  function WordBytes(w: Word): (r: seq<Byte>)
    ensures |r| == 4
  {
    [ByteOf(w, 0), ByteOf(w, 1), ByteOf(w, 2), ByteOf(w, 3)]
  }

  lemma LoadUndoesStore(w: Word)
    ensures var b := WordBytes(w); LoadWord(b[0], b[1], b[2], b[3]) == w
  {
    var b := WordBytes(w);
    assert LoadWord(b[0], b[1], b[2], b[3]).v == w.v;
  }

  lemma StoreUndoesLoad(b: seq<Byte>)
    requires |b| == 4
    ensures WordBytes(LoadWord(b[0], b[1], b[2], b[3])) == b
  {
    var r := WordBytes(LoadWord(b[0], b[1], b[2], b[3]));
    assert r[0] == b[0];
    assert r[1] == b[1];
    assert r[2] == b[2];
    assert r[3] == b[3];
  }
}
