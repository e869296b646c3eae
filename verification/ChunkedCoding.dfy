/**
 * The chunked coding of section 7.1 of RFC 9112 as an encoder, and the decoder as its inverse: on
 * whole encodings, and on every prefix of one.
 */
module ChunkedCoding {
  import opened Base
  import opened Chunked

  /** chunk-size, chunk-ext and chunk-data; the size in hex digits of either case, leading zeros allowed. */
  datatype Piece = Piece(size: string, ext: string, data: string)

  predicate Digits(s: string) {
    s != "" && forall i :: 0 <= i < |s| ==> IsHex(s[i])
  }

  /** Nothing, or text from a semicolon on, without CRLF. */
  predicate Extension(s: string) {
    (s != "" ==> s[0] == ';') && forall i :: 0 <= i < |s| ==> !CrlfAt(s, i)
  }

  const LOWER_HEX := "0123456789abcdef"
  const UPPER_HEX := "0123456789ABCDEF"

  /** The text is n in base 16, every digit in either case, leading zeros allowed. */
  predicate Prints(s: string, n: nat) {
    if s == "" then n == 0 else
      var last := s[|s| - 1];
      (last == LOWER_HEX[n % 16] || last == UPPER_HEX[n % 16]) && Prints(s[..|s| - 1], n / 16)
  }

  /** The size line announces n bytes. */
  predicate Announces(size: string, ext: string, n: nat) {
    size != "" && Prints(size, n) && Extension(ext) && n <= ULONG_MAX
  }

  predicate Valid(p: Piece) {
    Announces(p.size, p.ext, |p.data|) && p.data != ""
  }

  function Encode(p: Piece): string {
    p.size + p.ext + CRLF + p.data + CRLF
  }

  predicate AllValid(ps: seq<Piece>) {
    forall i :: 0 <= i < |ps| ==> Valid(ps[i])
  }

  function EncodeAll(ps: seq<Piece>): string {
    if ps == [] then "" else EncodeAll(ps[..|ps| - 1]) + Encode(ps[|ps| - 1])
  }

  function Payload(ps: seq<Piece>): string {
    if ps == [] then "" else Payload(ps[..|ps| - 1]) + ps[|ps| - 1].data
  }

  // ----- size lines -----

  lemma DigitIs(d: nat)
    requires d < 16
    ensures IsHex(LOWER_HEX[d]) && HexValue(LOWER_HEX[d]) == d && IsHex(UPPER_HEX[d]) && HexValue(UPPER_HEX[d]) == d
  {
    if d < 10 { assert LOWER_HEX[d] == UPPER_HEX[d] == '0' + d as char; }
    else { assert LOWER_HEX[d] == 'a' + (d - 10) as char && UPPER_HEX[d] == 'A' + (d - 10) as char; }
  }

  /** A printed number is digits, and read back. */
  lemma {:induction false} PrintedIsRead(s: string, n: nat)
    requires Prints(s, n)
    ensures HexNumber(s) == n && forall i :: 0 <= i < |s| ==> IsHex(s[i])
  {
    if s != "" {
      hide IsHex, HexValue;
      PrintedIsRead(s[..|s| - 1], n / 16);
      DigitIs(n % 16);
      assert forall i :: 0 <= i < |s| - 1 ==> s[i] == s[..|s| - 1][i];
    }
  }

  /** n in the shortest form. */
  function HexString(n: nat): (s: string)
    ensures s != ""
  {
    if n < 16 then [LOWER_HEX[n]] else HexString(n / 16) + [LOWER_HEX[n % 16]]
  }

  lemma {:induction false} HexStringPrints(n: nat)
    ensures Prints(HexString(n), n)
  {
    var s := HexString(n);
    if n < 16 {
      assert s[..0] == "";
    } else {
      HexStringPrints(n / 16);
      assert s[..|s| - 1] == HexString(n / 16);
    }
  }

  lemma {:induction false} LineIs(s: string, pos: nat, e: nat)
    requires pos <= e <= |s| && (e < |s| ==> CrlfAt(s, e))
    requires forall j :: pos <= j < e ==> !CrlfAt(s, j)
    ensures LineEnd(s, pos) == e
    decreases e - pos
  {
    if pos < e { LineIs(s, pos + 1, e); }
  }

  lemma {:induction false} HexPrefixIs(size: string, rest: string)
    requires forall i :: 0 <= i < |size| ==> IsHex(size[i])
    requires rest != "" ==> !IsHex(rest[0])
    ensures HexPrefix(size + rest) == size
  {
    if size == "" {
      assert size + rest == rest;
    } else {
      assert (size + rest)[1..] == size[1..] + rest;
      HexPrefixIs(size[1..], rest);
    }
  }

  // ----- whatever strtoul accepts -----

  /** Blank, tab, line feed, vertical tab, form feed and carriage return. */
  const BLANKS := " \t\n\U{b}\U{c}\r"

  lemma {:induction false} SpacesSkipped(blanks: string, t: string)
    requires forall i :: 0 <= i < |blanks| ==> blanks[i] in BLANKS
    requires t != "" && t[0] !in BLANKS
    ensures SkipSpace(blanks + t) == t
  {
    if blanks == "" {
      assert blanks + t == t;
      SpaceIs(t[0]);
    } else {
      assert (blanks + t)[1..] == blanks[1..] + t;
      assert blanks[0] in BLANKS;
      SpaceIs(blanks[0]);
      SpacesSkipped(blanks[1..], t);
    }
  }

  lemma SpaceIs(c: char)
    ensures IsSpace(c) <==> c in BLANKS
  {
    var s := BLANKS;
    assert s[0] == ' ' && s[1] == '\t' && s[2] == '\n' && s[3] as int == 11 && s[4] as int == 12 && s[5] == '\r';
  }

  /** What may stand behind the digits: anything that does not go on with the number. */
  predicate Other(rest: string) {
    rest != "" ==> !IsHex(rest[0]) && rest[0] != 'x' && rest[0] != 'X'
  }

  lemma PrefixRead(prefix: string, size: string, rest: string, n: nat)
    requires prefix in ["", "0x", "0X"] && size != "" && Prints(size, n) && Other(rest)
    ensures var u := prefix + (size + rest);
      u != "" && u[0] !in BLANKS && u[0] != '+' && u[0] != '-' && NumberAt(u) == size
  {
    PrintedIsRead(size, n);
    SpaceIs(size[0]);
    SpaceIs('0');
    hide Prints, NumberAt, HexNumber;
    var u := prefix + (size + rest);
    if prefix == "" {
      assert u == size + rest;
      NoPrefix(size, rest);
    } else {
      assert u == ['0', prefix[1]] + (size + rest);
      WithPrefix(prefix[1], size, rest);
    }
  }

  lemma NoPrefix(size: string, rest: string)
    requires Digits(size) && Other(rest)
    ensures NumberAt(size + rest) == size
  {
    HexPrefixIs(size, rest);
    hide HexPrefix;
    var u := size + rest;
    if |u| > 1 { assert u[1] == if |size| > 1 then size[1] else rest[0]; }
  }

  lemma WithPrefix(x: char, size: string, rest: string)
    requires Digits(size) && Other(rest) && (x == 'x' || x == 'X')
    ensures NumberAt(['0', x] + (size + rest)) == size
  {
    HexPrefixIs(size, rest);
    hide HexPrefix;
    var u := ['0', x] + (size + rest);
    assert u[2] == size[0] && u[2..] == size + rest;
  }

  /** The digits behind an optional 0x. */
  function NumberAt(u: string): string {
    var prefixed := |u| > 2 && u[0] == '0' && (u[1] == 'x' || u[1] == 'X') && IsHex(u[2]);
    HexPrefix(if prefixed then u[2..] else u)
  }

  /**
   * Blanks, a sign, 0x, the digits of n, and anything: read as n, or as 2^64 - n after a minus sign,
   * and as 2^64 - 1 when n is larger than that.
   */
  lemma StrtoulOfNumber(blanks: string, sign: string, prefix: string, size: string, rest: string, n: nat)
    requires (forall i :: 0 <= i < |blanks| ==> blanks[i] in BLANKS) && sign in ["", "+", "-"]
    requires prefix in ["", "0x", "0X"] && size != "" && Prints(size, n) && Other(rest)
    ensures Strtoul(blanks + (sign + (prefix + (size + rest)))) == Chunked.Digits(
      if n > 0xffff_ffff_ffff_ffff then 0xffff_ffff_ffff_ffff
      else if sign == "-" && n > 0 then 0x1_0000_0000_0000_0000 - n
      else n)
  {
    PrefixRead(prefix, size, rest, n);
    PrintedIsRead(size, n);
    hide Prints, NumberAt, HexNumber, IsHex, SkipSpace, Strtoul;
    var u := prefix + (size + rest);
    SignRead(sign, u);
    SpacesSkipped(blanks, sign + u);
    StrtoulParts(blanks + (sign + u), sign + u, u, size);
  }

  lemma StrtoulParts(s: string, t: string, u: string, digits: string)
    requires SkipSpace(s) == t && t != "" && u == (if t[0] == '+' || t[0] == '-' then t[1..] else t)
    requires NumberAt(u) == digits && digits != ""
    ensures Strtoul(s) == Chunked.Digits(UnsignedLong(HexNumber(digits), t[0] == '-'))
  {
    hide SkipSpace, HexPrefix, HexNumber, UnsignedLong;
  }

  lemma SignRead(sign: string, u: string)
    requires sign in ["", "+", "-"] && u != "" && u[0] !in BLANKS && u[0] != '+' && u[0] != '-'
    ensures var t := sign + u;
      && t[0] !in BLANKS && t[|sign|..] == u
      && (t[0] == '-' <==> sign == "-") && (t[0] == '+' <==> sign == "+")
  {
  }

  /** The size line is read as the number it announces, extension or not. */
  lemma StrtoulOfLine(size: string, ext: string, n: nat)
    requires Announces(size, ext, n)
    ensures Strtoul(size + ext) == Chunked.Digits(n)
  {
    hide HexNumber, Prints;
    PrintedIsRead(size, n);
    var line := size + ext;
    assert line[0] == size[0];
    HexPrefixIs(size, ext);
    assert SkipSpace(line) == line;
    if |line| > 2 { assert line[1] == if |size| > 1 then size[1] else ext[0]; }
  }

  /** In front of its CRLF a size line has none. */
  lemma LineOf(pre: string, size: string, ext: string, rest: string)
    requires Digits(size) && Extension(ext)
    ensures LineEnd(pre + (size + ext + CRLF) + rest, |pre|) == |pre| + |size + ext|
  {
    var line := size + ext;
    var s := pre + (line + CRLF) + rest;
    var e := |pre| + |line|;
    assert s[e] == '\r' && s[e + 1] == '\n';
    assert forall i :: 0 <= i < |line| ==> s[|pre| + i] == line[i];
    forall j | |pre| <= j < e
      ensures !CrlfAt(s, j)
    {
      NoCrlfInLine(size, ext, j - |pre|);
      assert s[j] == line[j - |pre|];
      assert s[j + 1] == if j + 1 < e then line[j + 1 - |pre|] else '\r';
    }
    LineIs(s, |pre|, e);
  }

  lemma NoCrlfInLine(size: string, ext: string, i: nat)
    requires Digits(size) && Extension(ext) && i < |size + ext|
    ensures !CrlfAt(size + ext, i)
  {
    var line := size + ext;
    if i < |size| {
      assert line[i] == size[i];
    } else {
      assert !CrlfAt(ext, i - |size|);
      assert line[i] == ext[i - |size|];
      if i + 1 < |line| { assert line[i + 1] == ext[i + 1 - |size|]; }
    }
  }

  /** The part of a size line that ends before its CRLF is complete is not a line. */
  lemma CutLine(pre: string, size: string, ext: string, j: nat)
    requires Digits(size) && Extension(ext) && j < |size + ext + CRLF|
    ensures var s := pre + (size + ext + CRLF)[..j]; LineEnd(s, |pre|) == |s|
  {
    var line, part := size + ext, (size + ext + CRLF)[..j];
    var s := pre + part;
    forall k | |pre| <= k < |s|
      ensures !CrlfAt(s, k)
    {
      if k + 1 < |s| {
        NoCrlfInLine(size, ext, k - |pre|);
        assert s[k] == part[k - |pre|] == line[k - |pre|];
        assert s[k + 1] == part[k + 1 - |pre|];
      }
    }
    LineIs(s, |pre|, |s|);
  }

  /** A size line is read the same whatever comes before and after it. */
  lemma ReadLineOf(pre: string, size: string, ext: string, n: nat, rest: string)
    requires Announces(size, ext, n)
    ensures ReadLine(pre + (size + ext + CRLF) + rest, |pre|) == SizeLine(|pre| + |size + ext| + 2, n)
  {
    PrintedIsRead(size, n);
    StrtoulOfLine(size, ext, n);
    LineOf(pre, size, ext, rest);
    hide Prints, HexNumber, LineEnd, Strtoul, ReadLine, IsHex, Extension;
    ReadLineAt(pre, size + ext, rest, n);
  }

  lemma ReadLineAt(pre: string, line: string, rest: string, n: nat)
    requires line != "" && Strtoul(line) == Chunked.Digits(n)
    requires LineEnd(pre + (line + CRLF) + rest, |pre|) == |pre| + |line|
    ensures ReadLine(pre + (line + CRLF) + rest, |pre|) == SizeLine(|pre| + |line| + 2, n)
  {
    hide LineEnd, Strtoul, ReadLine;
    var s := pre + (line + CRLF) + rest;
    assert s[|pre|..|pre| + |line|] == line;
    ReadLineIs(s, |pre|, |pre| + |line|, n);
  }

  lemma ReadLineIs(s: string, pos: nat, e: nat, n: nat)
    requires pos < e < |s| && LineEnd(s, pos) == e && Strtoul(s[pos..e]) == Chunked.Digits(n)
    ensures ReadLine(s, pos) == SizeLine(e + 2, n)
  {
    hide LineEnd, Strtoul;
  }

  // ----- one chunk -----

  lemma ChunkRead(s: string, pos: nat, next: nat, n: nat, out: string)
    requires pos < |s| && ReadLine(s, pos) == SizeLine(next, n) && n > 0 && CrlfAt(s, next + n)
    ensures DecodeFrom(s, pos, out) == DecodeFrom(s, next + n + 2, out + s[next..next + n])
  {
    hide ReadLine;
  }

  lemma ChunkMissing(s: string, pos: nat, next: nat, n: nat, out: string)
    requires pos < |s| && ReadLine(s, pos) == SizeLine(next, n) && n > 0 && !CrlfAt(s, next + n)
    ensures !DecodeFrom(s, pos, out).Ok? && (next + n <= ULONG_MAX ==> DecodeFrom(s, pos, out).Err?)
  {
    hide ReadLine;
  }

  /** A whole chunk is read as its data, even when the data contains CRLF. */
  lemma WholePiece(pre: string, p: Piece, rest: string, out: string)
    requires Valid(p)
    ensures var s := pre + Encode(p) + rest;
      DecodeFrom(s, |pre|, out) == DecodeFrom(s, |pre + Encode(p)|, out + p.data)
  {
    hide ReadLine, DecodeFrom;
    var s, line := pre + Encode(p) + rest, p.size + p.ext;
    ReadLineOf(pre, p.size, p.ext, |p.data|, p.data + CRLF + rest);
    assert s == pre + (line + CRLF) + (p.data + CRLF + rest);
    var start := |pre| + |line| + 2;
    assert s[start..start + |p.data|] == p.data;
    assert s[start + |p.data|] == '\r' && s[start + |p.data| + 1] == '\n';
    ChunkRead(s, |pre|, start, |p.data|, out);
  }

  /** A chunk that is cut short is an error, wherever the cut is. */
  lemma CutPiece(pre: string, p: Piece, j: nat, out: string)
    requires Valid(p) && 0 < j < |Encode(p)|
    ensures var r := DecodeFrom(pre + Encode(p)[..j], |pre|, out);
      !r.Ok? && (|pre| + |Encode(p)| <= ULONG_MAX ==> r.Err?)
  {
    var line := p.size + p.ext;
    var s := pre + Encode(p)[..j];
    if j < |line| + 2 {
      assert Encode(p)[..j] == (line + CRLF)[..j];
      PrintedIsRead(p.size, |p.data|);
      CutLine(pre, p.size, p.ext, j);
    } else {
      hide ReadLine, DecodeFrom;
      var rest := Encode(p)[|line| + 2..j];
      assert Encode(p)[..j] == (line + CRLF) + rest;
      assert s == pre + (line + CRLF) + rest;
      ReadLineOf(pre, p.size, p.ext, |p.data|, rest);
      ChunkMissing(s, |pre|, |pre| + |line| + 2, |p.data|, out);
    }
  }

  // ----- the whole message -----

  /** Between any two chunk boundaries the decoder goes from one to the other. */
  lemma {:induction false} WholePieces(pre: string, ps: seq<Piece>, rest: string, out: string)
    requires AllValid(ps)
    ensures var s := pre + EncodeAll(ps) + rest;
      DecodeFrom(s, |pre|, out) == DecodeFrom(s, |pre + EncodeAll(ps)|, out + Payload(ps))
  {
    hide DecodeFrom, Encode, Valid;
    if ps == [] {
      assert pre + "" + rest == pre + rest && out + "" == out;
    } else {
      var n := |ps| - 1;
      var front, p := ps[..n], ps[n];
      WholePieces(pre, front, Encode(p) + rest, out);
      WholePiece(pre + EncodeAll(front), p, rest, out + Payload(front));
      Regroup(pre, EncodeAll(front), Encode(p), rest);
      Regroup(out, Payload(front), p.data, "");
    }
  }

  /** The line that ends the message: a size of zero, an extension, CRLF. */
  function ZeroLine(size: string, ext: string): string {
    size + ext + CRLF
  }

  lemma AtZeroLine(pre: string, size: string, ext: string, rest: string, out: string)
    requires Announces(size, ext, 0)
    ensures DecodeFrom(pre + ZeroLine(size, ext) + rest, |pre|, out) == Ok(out)
  {
    hide ReadLine;
    ReadLineOf(pre, size, ext, 0, rest);
  }

  /**
   * Decoding undoes encoding: for every sequence of chunks, the decoder returns exactly their data,
   * with the final zero chunk and anything after it, or without.
   */
  lemma DecodeEncode(ps: seq<Piece>, size: string, ext: string, rest: string)
    requires AllValid(ps) && Announces(size, ext, 0)
    ensures Decode(EncodeAll(ps)) == Ok(Payload(ps))
    ensures Decode(EncodeAll(ps) + ZeroLine(size, ext) + rest) == Ok(Payload(ps))
  {
    hide DecodeFrom, EncodeAll, Payload, ZeroLine, AllValid, Announces;
    var body := EncodeAll(ps);
    FromStart(ps, "");
    FromStart(ps, ZeroLine(size, ext) + rest);
    assert body + "" == body;
    assert body + (ZeroLine(size, ext) + rest) == body + ZeroLine(size, ext) + rest;
    CutAtEnd(body, Payload(ps));
    AtZeroLine(body, size, ext, rest, Payload(ps));
  }

  lemma FromStart(ps: seq<Piece>, rest: string)
    requires AllValid(ps)
    ensures var s := EncodeAll(ps) + rest; Decode(s) == DecodeFrom(s, |EncodeAll(ps)|, Payload(ps))
  {
    hide DecodeFrom, EncodeAll, Payload, AllValid;
    WholePieces("", ps, rest, "");
    assert "" + EncodeAll(ps) + rest == EncodeAll(ps) + rest;
    assert "" + EncodeAll(ps) == EncodeAll(ps) && "" + Payload(ps) == Payload(ps);
  }

  /** The data in chunks as a server writes them: the size in hex, no extension. */
  function Chunks(datas: seq<string>): seq<Piece> {
    if datas == [] then [] else
      var data := datas[|datas| - 1];
      Chunks(datas[..|datas| - 1]) + [Piece(HexString(|data|), "", data)]
  }

  lemma ChunkIsValid(data: string)
    requires 0 < |data| <= ULONG_MAX
    ensures Valid(Piece(HexString(|data|), "", data))
  {
    hide Prints, HexString;
    HexStringPrints(|data|);
  }

  lemma OnePieceMore(ps: seq<Piece>, p: Piece)
    requires AllValid(ps) && Valid(p)
    ensures AllValid(ps + [p]) && Payload(ps + [p]) == Payload(ps) + p.data
  {
    hide Valid;
    assert (ps + [p])[..|ps|] == ps;
  }

  lemma {:induction false} ChunksAreValid(datas: seq<string>)
    requires forall i :: 0 <= i < |datas| ==> 0 < |datas[i]| <= ULONG_MAX
    ensures AllValid(Chunks(datas)) && Payload(Chunks(datas)) == Concat(datas)
  {
    hide HexString, AllValid, Payload;
    if datas == [] {
      NoPieces();
    } else {
      var n := |datas| - 1;
      ChunksAreValid(datas[..n]);
      ChunkIsValid(datas[n]);
      OnePieceMore(Chunks(datas[..n]), Piece(HexString(|datas[n]|), "", datas[n]));
    }
  }

  lemma NoPieces()
    ensures AllValid([]) && Payload([]) == ""
  {
  }

  lemma ZeroAnnounced()
    ensures Announces("0", "", 0)
  {
    assert "0"[..0] == "" && LOWER_HEX[0] == '0';
  }

  lemma ZeroText(body: string)
    ensures body + "0\r\n\r\n" == body + ZeroLine("0", "") + CRLF
  {
    assert "0\r\n\r\n" == ZeroLine("0", "") + CRLF;
  }

  /** For every list of texts, none empty: written in chunks and closed by "0" and a blank line, they are read back. */
  lemma DecodeWritten(datas: seq<string>)
    requires forall i :: 0 <= i < |datas| ==> 0 < |datas[i]| <= ULONG_MAX
    ensures Decode(EncodeAll(Chunks(datas)) + "0\r\n\r\n") == Ok(Concat(datas))
  {
    hide EncodeAll, Payload, AllValid, Announces, Decode, Chunks, Concat, ZeroLine;
    ChunksAreValid(datas);
    ZeroAnnounced();
    DecodeEncode(Chunks(datas), "0", "", CRLF);
    ZeroText(EncodeAll(Chunks(datas)));
  }

  // ----- every prefix of a message -----

  function Boundary(ps: seq<Piece>, i: nat): nat
    requires i <= |ps|
  {
    |EncodeAll(ps[..i])|
  }

  lemma EncodeLast(ps: seq<Piece>)
    requires ps != []
    ensures EncodeAll(ps) == EncodeAll(ps[..|ps| - 1]) + Encode(ps[|ps| - 1])
  {
  }

  lemma {:induction false} SplitAt(ps: seq<Piece>, i: nat)
    requires i <= |ps|
    ensures EncodeAll(ps) == EncodeAll(ps[..i]) + EncodeAll(ps[i..])
  {
    if i == |ps| {
      assert ps[..i] == ps;
    } else {
      hide Encode, EncodeAll;
      var n, tail := |ps| - 1, ps[i..];
      SplitAt(ps[..n], i);
      assert ps[..n][..i] == ps[..i] && ps[..n][i..] == tail[..n - i] && tail[n - i] == ps[n];
      EncodeLast(ps);
      EncodeLast(tail);
      Regroup(EncodeAll(ps[..i]), EncodeAll(tail[..n - i]), Encode(ps[n]), "");
    }
  }

  lemma BoundaryStep(ps: seq<Piece>, i: nat)
    requires i < |ps|
    ensures Boundary(ps, i + 1) == Boundary(ps, i) + |Encode(ps[i])|
    ensures EncodeAll(ps[..i + 1]) == EncodeAll(ps[..i]) + Encode(ps[i])
    ensures Payload(ps[..i + 1]) == Payload(ps[..i]) + ps[i].data
  {
    assert ps[..i + 1][..i] == ps[..i];
  }

  lemma {:induction false} BoundariesGrow(ps: seq<Piece>, i: nat, j: nat)
    requires i <= j <= |ps|
    ensures Boundary(ps, i) <= Boundary(ps, j) && (i < j ==> Boundary(ps, i) < Boundary(ps, j))
    decreases j - i
  {
    if i < j {
      BoundariesGrow(ps, i, j - 1);
      BoundaryStep(ps, j - 1);
    }
  }

  /** The cut at k is a chunk boundary from the i-th on. */
  ghost predicate AtBoundary(ps: seq<Piece>, k: nat, i: nat) {
    exists j: nat :: i <= j <= |ps| && k == Boundary(ps, j)
  }

  /** From boundary i of a message cut at k, the decoder ends as the cut demands. */
  lemma {:induction false} CutFrom(ps: seq<Piece>, size: string, ext: string, rest: string, k: nat, i: nat)
    requires AllValid(ps) && Announces(size, ext, 0) && i <= |ps|
    requires Boundary(ps, i) <= k <= |EncodeAll(ps) + ZeroLine(size, ext) + rest|
    ensures var r := DecodeFrom((EncodeAll(ps) + ZeroLine(size, ext) + rest)[..k], Boundary(ps, i), Payload(ps[..i]));
      && (forall j: nat :: i <= j <= |ps| && k == Boundary(ps, j) ==> r == Ok(Payload(ps[..j])))
      && (k >= |EncodeAll(ps)| + |ZeroLine(size, ext)| ==> r == Ok(Payload(ps)))
      && (k < |EncodeAll(ps)| + |ZeroLine(size, ext)| && !AtBoundary(ps, k, i) ==> !r.Ok?)
      && (|EncodeAll(ps)| + |ZeroLine(size, ext)| <= ULONG_MAX ==> r.Ok? || r.Err?)
    decreases |ps| - i
  {
    hide DecodeFrom, Payload, AllValid, Valid, Announces, Encode, EncodeAll, ZeroLine;
    var pre, b := EncodeAll(ps[..i]), Boundary(ps, i);
    var t := (EncodeAll(ps) + ZeroLine(size, ext) + rest)[..k];
    assert ps[..|ps|] == ps;
    if k == b {
      CutAtEnd(t, Payload(ps[..i]));
      NextBoundaries(ps, k, i);
    } else if i == |ps| {
      CutText(pre, ZeroLine(size, ext) + rest, k);
      assert EncodeAll(ps) + ZeroLine(size, ext) + rest == pre + (ZeroLine(size, ext) + rest);
      CutAtZero(pre, size, ext, rest, k - b, Payload(ps));
    } else {
      PieceAt(ps, i);
      var after := EncodeAll(ps[i + 1..]) + ZeroLine(size, ext) + rest;
      assert EncodeAll(ps) + ZeroLine(size, ext) + rest == pre + (Encode(ps[i]) + after);
      CutText(pre, Encode(ps[i]) + after, k);
      CutOnePiece(pre, ps[i], after, k - b, Payload(ps[..i]));
      BoundaryStep(ps, i);
      NextBoundaries(ps, k, i);
      if k >= Boundary(ps, i + 1) {
        CutFrom(ps, size, ext, rest, k, i + 1);
      }
    }
  }

  lemma CutText(pre: string, more: string, k: nat)
    requires |pre| <= k <= |pre + more|
    ensures (pre + more)[..k] == pre + more[..k - |pre|]
  {
  }

  /** Chunk i in its place. */
  lemma PieceAt(ps: seq<Piece>, i: nat)
    requires AllValid(ps) && i < |ps|
    ensures Valid(ps[i]) && EncodeAll(ps) == EncodeAll(ps[..i]) + Encode(ps[i]) + EncodeAll(ps[i + 1..])
  {
    SplitAt(ps, i + 1);
    BoundaryStep(ps, i);
  }

  lemma LastBoundary(ps: seq<Piece>)
    ensures Boundary(ps, |ps|) == |EncodeAll(ps)|
  {
    assert ps[..|ps|] == ps;
  }

  /** A cut at or behind boundary i is at it, or at a later one, or at none. */
  lemma NextBoundaries(ps: seq<Piece>, k: nat, i: nat)
    requires i <= |ps| && Boundary(ps, i) <= k
    ensures forall j: nat :: i < j <= |ps| && Boundary(ps, i) == k ==> Boundary(ps, j) != k
    ensures i < |ps| && k != Boundary(ps, i) ==> (AtBoundary(ps, k, i) <==> AtBoundary(ps, k, i + 1))
    ensures forall j: nat :: i < j <= |ps| ==> Boundary(ps, i + 1) <= Boundary(ps, j)
    ensures Boundary(ps, i) <= |EncodeAll(ps)| && (i < |ps| ==> Boundary(ps, i + 1) <= |EncodeAll(ps)|)
  {
    hide Boundary;
    LastBoundary(ps);
    BoundariesGrow(ps, i, |ps|);
    if i < |ps| { BoundariesGrow(ps, i + 1, |ps|); }
    forall j: nat | i < j <= |ps|
      ensures Boundary(ps, i) < Boundary(ps, j) && Boundary(ps, i + 1) <= Boundary(ps, j)
    {
      BoundariesGrow(ps, i, j);
      BoundariesGrow(ps, i + 1, j);
    }
  }

  lemma CutAtEnd(t: string, out: string)
    ensures DecodeFrom(t, |t|, out) == Ok(out)
  {
  }

  lemma CutAtZero(pre: string, size: string, ext: string, rest: string, j: nat, out: string)
    requires Announces(size, ext, 0) && 0 < j <= |ZeroLine(size, ext) + rest|
    ensures var zero := ZeroLine(size, ext);
      DecodeFrom(pre + (zero + rest)[..j], |pre|, out) == if j >= |zero| then Ok(out) else Err(-3)
  {
    var zero := ZeroLine(size, ext);
    if j >= |zero| {
      assert pre + (zero + rest)[..j] == pre + zero + rest[..j - |zero|];
      AtZeroLine(pre, size, ext, rest[..j - |zero|], out);
    } else {
      assert (zero + rest)[..j] == (size + ext + CRLF)[..j];
      PrintedIsRead(size, 0);
      CutLine(pre, size, ext, j);
    }
  }

  lemma CutOnePiece(pre: string, p: Piece, after: string, j: nat, out: string)
    requires Valid(p) && 0 < j <= |Encode(p) + after|
    ensures var t := pre + (Encode(p) + after)[..j];
      if j >= |Encode(p)| then DecodeFrom(t, |pre|, out) == DecodeFrom(t, |pre| + |Encode(p)|, out + p.data)
      else !DecodeFrom(t, |pre|, out).Ok? && (|pre| + |Encode(p)| <= ULONG_MAX ==> DecodeFrom(t, |pre|, out).Err?)
  {
    hide Encode, DecodeFrom, Valid;
    var e := Encode(p);
    if j >= |e| {
      assert pre + (e + after)[..j] == pre + e + after[..j - |e|];
      WholePiece(pre, p, after[..j - |e|], out);
    } else {
      assert (e + after)[..j] == e[..j];
      CutPiece(pre, p, j, out);
    }
  }

  /**
   * A connection that breaks off: of a message cut anywhere, the decoder accepts exactly the cuts at
   * a chunk boundary and those behind the complete zero line, and then returns the data of the
   * chunks in front of the cut.
   */
  lemma DecodePrefix(ps: seq<Piece>, size: string, ext: string, rest: string, k: nat)
    requires AllValid(ps) && Announces(size, ext, 0) && k <= |EncodeAll(ps) + ZeroLine(size, ext) + rest|
    ensures var r := Decode((EncodeAll(ps) + ZeroLine(size, ext) + rest)[..k]);
      var end := |EncodeAll(ps)| + |ZeroLine(size, ext)|;
      && (r.Ok? <==> AtBoundary(ps, k, 0) || k >= end)
      && (end <= ULONG_MAX ==> r.Ok? || r.Err?)
      && (k >= end ==> r == Ok(Payload(ps)))
      && (forall j: nat :: j <= |ps| && k == Boundary(ps, j) ==>
        r == Ok(Payload(ps[..j])) && Payload(ps[..j]) <= Payload(ps))
  {
    assert ps[..0] == [] && EncodeAll([]) == "" && Payload([]) == "";
    CutFrom(ps, size, ext, rest, k, 0);
    forall j: nat | j <= |ps|
      ensures Payload(ps[..j]) <= Payload(ps)
    {
      PayloadPrefix(ps, j);
    }
  }

  lemma {:induction false} PayloadPrefix(ps: seq<Piece>, j: nat)
    requires j <= |ps|
    ensures Payload(ps[..j]) <= Payload(ps)
  {
    if j == |ps| {
      assert ps[..j] == ps;
    } else {
      PayloadPrefix(ps[..|ps| - 1], j);
      assert ps[..|ps| - 1][..j] == ps[..j];
    }
  }
}
