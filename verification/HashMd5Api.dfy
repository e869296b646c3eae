/** The wrapper functions of src/utils/hash_md5.c, with their error returns, and the hex form of a digest. */
module HashMd5Api {
  import opened Base
  import opened LittleEndian
  import opened Rfc1321
  import opened HashMd5

  // ----- lower-case hex -----

  function HexDigit(n: nat): (c: char)
    requires n < 16
    ensures '0' <= c <= '9' || 'a' <= c <= 'f'
  {
    if n < 10 then '0' + n as char else 'a' + (n - 10) as char
  }

  /** printf("%02x"). */
  function HexByte(b: Byte): (s: string)
    ensures |s| == 2
  {
    [HexDigit(b as nat / 16), HexDigit(b as nat % 16)]
  }

  function Hex(b: seq<Byte>): (s: string)
    ensures |s| == 2 * |b|
  {
    if b == [] then [] else Hex(b[..|b| - 1]) + HexByte(b[|b| - 1])
  }

  lemma HexEmpty()
    ensures Hex([]) == []
  {
  }

  lemma HexAppend(b: seq<Byte>, last: Byte)
    ensures Hex(b + [last]) == Hex(b) + HexByte(last)
  {
    assert (b + [last])[..|b|] == b;
  }

  const HEX_DIGITS := "0123456789abcdef"

  lemma HexByteIs(b: Byte)
    ensures HexByte(b)[0] == HEX_DIGITS[b as int / 16] && HexByte(b)[1] == HEX_DIGITS[b as int % 16]
  {
    HexDigitIs(b as int / 16);
    HexDigitIs(b as int % 16);
  }

  lemma HexDigitIs(n: nat)
    requires n < 16
    ensures HexDigit(n) == HEX_DIGITS[n]
  {
  }

  /** The two digits of every byte, the upper half first. */
  lemma {:induction false} HexAt(b: seq<Byte>, i: nat)
    requires i < |b|
    ensures Hex(b)[2 * i] == HEX_DIGITS[b[i] as int / 16] && Hex(b)[2 * i + 1] == HEX_DIGITS[b[i] as int % 16]
  {
    hide HexByte;
    if i < |b| - 1 { HexAt(b[..|b| - 1], i); } else { HexByteIs(b[i]); }
  }

  lemma DigitRoundTrip(n: nat)
    requires n < 16
    ensures DigitValue(HexDigit(n)) == n
  {
  }

  function DigitValue(c: char): (n: nat)
    ensures n < 16
  {
    if '0' <= c <= '9' then c as nat - '0' as nat else if 'a' <= c <= 'f' then c as nat - 'a' as nat + 10 else 0
  }

  /** The bytes a hex string stands for. */
  function UnHex(s: string): (b: seq<Byte>)
  {
    if |s| < 2 then [] else
      UnHex(s[..|s| - 2]) + [ByteOfPair(s[|s| - 2], s[|s| - 1])]
  }

  /** The byte two hex digits stand for. */
  function ByteOfPair(c: char, d: char): Byte {
    (DigitValue(c) * 16 + DigitValue(d)) as Byte
  }

  lemma DigitsOfPair(n: nat)
    requires n < 256
    ensures DigitValue(HexDigit(n / 16)) * 16 + DigitValue(HexDigit(n % 16)) == n
  {
    hide HexDigit, DigitValue;
    DigitRoundTrip(n / 16);
    DigitRoundTrip(n % 16);
  }

  lemma ThereAndBack(b: Byte)
    ensures (b as nat) as Byte == b
  {
  }

  lemma PairRoundTrip(b: Byte)
    ensures ByteOfPair(HexByte(b)[0], HexByte(b)[1]) == b
  {
    hide HexDigit, DigitValue;
    DigitsOfPair(b as nat);
    ThereAndBack(b);
  }

  lemma UnHexAppend(s: string, p: string)
    requires |p| == 2
    ensures UnHex(s + p) == UnHex(s) + [ByteOfPair(p[0], p[1])]
  {
    hide ByteOfPair;
    assert (s + p)[..|s|] == s;
  }

  /** Every byte string is recovered from its hex form. */
  lemma {:induction false} HexRoundTrip(b: seq<Byte>)
    ensures UnHex(Hex(b)) == b
  {
    hide HexByte, ByteOfPair, Hex, UnHex;
    if b == [] {
      HexEmpty();
      UnHexEmpty();
    } else {
      var front, last := b[..|b| - 1], b[|b| - 1];
      assert b == front + [last];
      HexRoundTrip(front);
      PairRoundTrip(last);
      HexAppend(front, last);
      UnHexAppend(Hex(front), HexByte(last));
    }
  }

  lemma UnHexEmpty()
    ensures UnHex([]) == []
  {
  }

  predicate LowerHex(s: string) {
    forall c :: c in s ==> '0' <= c <= '9' || 'a' <= c <= 'f'
  }

  /** The hex form uses lower-case hex digits only. */
  lemma {:induction false} HexIsLower(b: seq<Byte>)
    ensures LowerHex(Hex(b))
  {
    if b != [] { HexIsLower(b[..|b| - 1]); }
  }

  /** Different digests have different hex forms. */
  lemma HexInjective(b: seq<Byte>, c: seq<Byte>)
    requires Hex(b) == Hex(c)
    ensures b == c
  {
    HexRoundTrip(b);
    HexRoundTrip(c);
  }

  // ----- streaming -----

  /**
   * Init, one update a piece, final: the digest is that of the whole message, whatever the pieces
   * and however many of them are empty.
   */
  method HashPieces(pieces: seq<seq<Byte>>) returns (digest: seq<Byte>)
    ensures digest == Digest(Concat(pieces))
  {
    hide Digest, Md5Ctx.Counted, Md5Ctx.Absorbed;
    var ctx := new Md5Ctx();
    ctx.Init();
    for i := 0 to |pieces|
      invariant fresh(ctx) && fresh(ctx.buffer) && ctx.Valid() && ctx.stream == Concat(pieces[..i])
    {
      var data := new Byte[|pieces[i]|](j requires 0 <= j < |pieces[i]| => pieces[i][j]);
      assert data[..|pieces[i]|] == pieces[i];
      ctx.Update(data, |pieces[i]|);
      assert pieces[..i + 1][..i] == pieces[..i];
    }
    assert pieces[..|pieces|] == pieces;
    var result := new Byte[BINARY_LENGTH](_ => 0);
    ctx.Final(result);
    digest := result[..];
  }

  // ----- the wrappers -----

  /** `hash_md5_binary`: -1 on a null argument, else 0 and the digest in output[..16]. */
  method HashMd5Binary(data: array?<Byte>, size: nat, output: array?<Byte>) returns (err: int)
    requires data != null ==> size <= data.Length
    requires output != null ==> output.Length >= BINARY_LENGTH
    modifies output
    ensures err == if data == null || output == null then -1 else 0
    ensures output != null && err != 0 ==> output[..] == old(output[..])
    ensures err == 0 ==> Copied(output[..], 0, Digest(old(data[..size])), 0, 16, old(output[..]))
  {
    hide Digest;
    if data == null || output == null { return -1; }
    var ctx := new Md5Ctx();
    ctx.Init();
    ctx.Update(data, size);
    assert ctx.stream == data[..size];
    ctx.Final(output);
    return 0;
  }

  /** `hash_md5_binary_to_string`: 32 hex digits and a terminating NUL. */
  method HashMd5BinaryToString(binary: array?<Byte>, output: array?<char>, outputSize: nat) returns (err: int)
    requires binary != null ==> binary.Length >= BINARY_LENGTH && binary as object? != output as object?
    requires output != null ==> output.Length >= outputSize
    modifies output
    ensures err == if binary == null || output == null || outputSize < STRING_LENGTH then -1 else 0
    ensures output != null && err != 0 ==> output[..] == old(output[..])
    ensures err == 0 ==> output[..33] == Hex(binary[..16]) + ['\0'] && output[33..] == old(output[33..])
  {
    if binary == null || output == null || outputSize < STRING_LENGTH { return -1; }
    hide Hex, HexByte;
    HexEmpty();
    for i := 0 to BINARY_LENGTH
      invariant output[..2 * i] == Hex(binary[..i]) && output[33..] == old(output[33..])
    {
      var pair := HexByte(binary[i]);
      ghost var was := output[..2 * i];
      output[2 * i], output[2 * i + 1], output[2 * i + 2] := pair[0], pair[1], '\0';
      assert output[..2 * i + 2] == was + pair;
      HexAppend(binary[..i], binary[i]);
      assert binary[..i + 1] == binary[..i] + [binary[i]];
    }
    output[STRING_LENGTH - 1] := '\0';
    return 0;
  }

  /** `hash_md5_string`: the lower-case hex digest of data[..size]. */
  method HashMd5String(data: array?<Byte>, size: nat, output: array?<char>, outputSize: nat) returns (err: int)
    requires data != null ==> size <= data.Length
    requires output != null ==> output.Length >= outputSize
    modifies output
    ensures err == if data == null || output == null || outputSize < STRING_LENGTH then -1 else 0
    ensures output != null && err != 0 ==> output[..] == old(output[..])
    ensures err == 0 ==> output[..33] == Hex(Digest(old(data[..size]))) + ['\0'] && output[33..] == old(output[33..])
  {
    hide Digest, Hex, HexByte;
    if data == null || output == null || outputSize < STRING_LENGTH { return -1; }
    var binary := new Byte[BINARY_LENGTH](_ => 0);
    var e := HashMd5Binary(data, size, binary);
    if e != 0 { return -1; }
    assert binary[..16] == Digest(old(data[..size]));
    err := HashMd5BinaryToString(binary, output, outputSize);
  }
}
