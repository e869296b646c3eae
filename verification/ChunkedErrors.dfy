/**
 * The error codes of `decode_chunked` in src/network/http_client.c: what stands behind the last good
 * chunk, and which code it gives. `ChunkedCoding` tells which texts are decoded.
 */
module ChunkedErrors {
  import opened Base
  import opened Chunked
  import opened ChunkedCoding

  /** A piece of the text, found again at its place. */
  lemma CrlfBehind(pre: string, t: string, i: nat)
    ensures CrlfAt(pre + t, |pre| + i) <==> CrlfAt(t, i)
  {
    if i < |t| { assert (pre + t)[|pre| + i] == t[i]; }
    if i + 1 < |t| { assert (pre + t)[|pre| + i + 1] == t[i + 1]; }
  }

  /** The line at the start of t ends at e. */
  lemma LineBehind(pre: string, t: string, e: nat)
    requires e <= |t| && (e < |t| ==> CrlfAt(t, e)) && forall j :: 0 <= j < e ==> !CrlfAt(t, j)
    ensures LineEnd(pre + t, |pre|) == |pre| + e && (pre + t)[|pre|..|pre| + e] == t[..e]
  {
    hide LineEnd, CrlfAt;
    if e < |t| { CrlfBehind(pre, t, e); }
    forall j | |pre| <= j < |pre| + e
      ensures !CrlfAt(pre + t, j)
    {
      CrlfBehind(pre, t, j - |pre|);
    }
    LineIs(pre + t, |pre|, |pre| + e);
  }

  lemma BadLineIs(s: string, pos: nat, out: string, code: int)
    requires pos < |s| && ReadLine(s, pos) == BadLine(code) && code < 0
    ensures DecodeFrom(s, pos, out) == Err(code)
  {
    hide ReadLine;
  }

  /** No CRLF any more: -3. */
  lemma NoLineEnd(ps: seq<Piece>, t: string)
    requires AllValid(ps) && t != "" && forall i :: 0 <= i < |t| ==> !CrlfAt(t, i)
    ensures Decode(EncodeAll(ps) + t) == Err(-3)
  {
    hide CrlfAt, LineEnd, Strtoul, EncodeAll, Payload, AllValid, Decode;
    LineBehind(EncodeAll(ps), t, |t|);
    BadLineIs(EncodeAll(ps) + t, |EncodeAll(ps)|, Payload(ps), -3);
    FromStart(ps, t);
  }

  /** An empty line: -4. */
  lemma EmptyLine(ps: seq<Piece>, rest: string)
    requires AllValid(ps)
    ensures Decode(EncodeAll(ps) + ("\r\n" + rest)) == Err(-4)
  {
    var t := "\r\n" + rest;
    assert CrlfAt(t, 0);
    hide CrlfAt, LineEnd, Strtoul, EncodeAll, Payload, AllValid, Decode;
    LineBehind(EncodeAll(ps), t, 0);
    BadLineIs(EncodeAll(ps) + t, |EncodeAll(ps)|, Payload(ps), -4);
    FromStart(ps, t);
  }

  lemma NoDigitsAt(line: string)
    requires line != "" && line[0] !in BLANKS && !IsHex(line[0]) && line[0] != '+' && line[0] != '-'
    ensures Strtoul(line) == NoDigits
  {
    SpaceIs(line[0]);
  }

  lemma LineThere(line: string, rest: string)
    requires forall i :: 0 <= i < |line| ==> line[i] != '\r'
    ensures var t := line + "\r\n" + rest;
      CrlfAt(t, |line|) && (forall j :: 0 <= j < |line| ==> !CrlfAt(t, j)) && t[..|line|] == line
  {
  }

  /** A line that does not start with a number: -6. */
  lemma NoSize(ps: seq<Piece>, line: string, rest: string)
    requires AllValid(ps) && (forall i :: 0 <= i < |line| ==> line[i] != '\r')
    requires line != "" && line[0] !in BLANKS && !IsHex(line[0]) && line[0] != '+' && line[0] != '-'
    ensures Decode(EncodeAll(ps) + (line + "\r\n" + rest)) == Err(-6)
  {
    var t := line + "\r\n" + rest;
    NoDigitsAt(line);
    LineThere(line, rest);
    hide CrlfAt, LineEnd, Strtoul, EncodeAll, Payload, AllValid, Decode, IsHex;
    LineBehind(EncodeAll(ps), t, |line|);
    BadLineIs(EncodeAll(ps) + t, |EncodeAll(ps)|, Payload(ps), -6);
    FromStart(ps, t);
  }

  lemma BadChunkIs(s: string, pos: nat, next: nat, n: nat, out: string)
    requires pos < |s| && ReadLine(s, pos) == SizeLine(next, n) && n > 0 && next + n <= ULONG_MAX && |s| <= ULONG_MAX
    requires !CrlfAt(s, next + n)
    ensures DecodeFrom(s, pos, out) == Err(if next + n > |s| then -7 else -9)
  {
    hide ReadLine;
  }

  /** A size that the text does not hold: -7; and no CRLF behind the data: -9. */
  lemma BadChunk(ps: seq<Piece>, size: string, ext: string, n: nat, rest: string)
    requires AllValid(ps) && Announces(size, ext, n) && n > 0 && !CrlfAt(rest, n)
    requires var s := EncodeAll(ps) + (size + ext + "\r\n" + rest); |s| <= ULONG_MAX && |s| + n <= ULONG_MAX
    ensures Decode(EncodeAll(ps) + (size + ext + "\r\n" + rest)) == Err(if n > |rest| then -7 else -9)
  {
    var pre := EncodeAll(ps);
    hide EncodeAll, Payload, AllValid, Decode, Announces;
    var t := size + ext + "\r\n" + rest;
    SizeRead(pre, size, ext, n, rest);
    BadChunkIs(pre + t, |pre|, |pre| + |t| - |rest|, n, Payload(ps));
    FromStart(ps, t);
  }

  lemma SizeRead(pre: string, size: string, ext: string, n: nat, rest: string)
    requires Announces(size, ext, n)
    ensures var t := size + ext + "\r\n" + rest;
      var next := |pre| + |t| - |rest|;
      && |pre| < next <= |pre + t| && |pre + t| - next == |rest|
      && ReadLine(pre + t, |pre|) == SizeLine(next, n) && (CrlfAt(pre + t, next + n) <==> CrlfAt(rest, n))
  {
    ReadLineOf(pre, size, ext, n, rest);
    hide ReadLine, CrlfAt, Announces;
    var line := size + ext + CRLF;
    CrlfBehind(pre + line, rest, n);
    Associates(pre, line, rest);
  }

  lemma Associates(a: string, b: string, c: string)
    ensures a + b + c == a + (b + c)
  {
  }
}
