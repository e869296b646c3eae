/**
 * The chunked transfer decoder of src/network/http_client.c, against an encoder for section 7.1 of
 * RFC 9112. Bytes are characters; sums of sizes wrap around at 2^64, as size_t does.
 */
module Chunked {
  import opened Base
  /**
   * Overrun and Endless: the size guard let a chunk through that ends behind the input, and then memcpy
   * reads past it, or the loop that doubles the buffer size never ends.
   */
  datatype Result = Ok(data: string) | Err(code: int) | Overrun | Endless

  const CRLF := "\r\n"
  const ULONG_MAX: nat := 0xffff_ffff_ffff_ffff
  const HALF: nat := 0x8000_0000_0000_0000

  /** The largest block that malloc and realloc give; a power of two. */
  const OBJECT_MAX: nat := 0x4000_0000_0000_0000

  /** A sum of type size_t. */
  function Sum(a: nat, b: nat): nat {
    (a + b) % (ULONG_MAX + 1)
  }

  // ----- strtoul(s, &end, 16) -----

  predicate IsSpace(c: char) {
    c == ' ' || '\t' <= c <= '\r'
  }

  predicate IsHex(c: char) {
    '0' <= c <= '9' || 'a' <= c <= 'f' || 'A' <= c <= 'F'
  }

  function HexValue(c: char): (v: nat)
    ensures v < 16
  {
    if '0' <= c <= '9' then c as nat - '0' as nat
    else if 'a' <= c <= 'f' then c as nat - 'a' as nat + 10
    else if 'A' <= c <= 'F' then c as nat - 'A' as nat + 10
    else 0
  }

  function SkipSpace(s: string): string {
    if s != "" && IsSpace(s[0]) then SkipSpace(s[1..]) else s
  }

  /** The leading hex digits of s. */
  function HexPrefix(s: string): (r: string)
    ensures |r| <= |s| && r == s[..|r|]
    ensures forall i :: 0 <= i < |r| ==> IsHex(r[i])
  {
    if s != "" && IsHex(s[0]) then [s[0]] + HexPrefix(s[1..]) else ""
  }

  function HexNumber(s: string): nat {
    if s == "" then 0 else HexNumber(s[..|s| - 1]) * 16 + HexValue(s[|s| - 1])
  }

  /** Clamped at ULONG_MAX; a minus sign negates modulo 2^64. */
  function UnsignedLong(n: nat, negative: bool): (r: nat)
    ensures r <= ULONG_MAX
  {
    if n > ULONG_MAX then ULONG_MAX
    else if negative && n > 0 then ULONG_MAX + 1 - n
    else n
  }

  /** None when no digits are found (endptr == hex). Blanks, a sign and 0x before the digits are accepted. */
  datatype Number = NoDigits | Digits(value: nat)

  function Strtoul(s: string): Number {
    var t := SkipSpace(s);
    var signed := t != "" && (t[0] == '+' || t[0] == '-');
    var u := if signed then t[1..] else t;
    var prefixed := |u| > 2 && u[0] == '0' && (u[1] == 'x' || u[1] == 'X') && IsHex(u[2]);
    var digits := HexPrefix(if prefixed then u[2..] else u);
    if digits == "" then NoDigits else Digits(UnsignedLong(HexNumber(digits), signed && t[0] == '-'))
  }

  // ----- the decoder as a function of the bytes -----

  predicate CrlfAt(s: string, i: nat) {
    i + 1 < |s| && s[i] == '\r' && s[i + 1] == '\n'
  }

  /** Where the first CRLF at or after i starts; |s| if there is none. */
  function LineEnd(s: string, i: nat): (e: nat)
    requires i <= |s|
    ensures i <= e <= |s|
    ensures e < |s| ==> CrlfAt(s, e)
    ensures forall j :: i <= j < e ==> !CrlfAt(s, j)
    decreases |s| - i
  {
    if i == |s| || CrlfAt(s, i) then i else LineEnd(s, i + 1)
  }

  /** The size line that starts at pos: an error, or where the next line starts and the size. */
  datatype Line = BadLine(code: int) | SizeLine(next: nat, size: nat)

  function ReadLine(s: string, pos: nat): (l: Line)
    requires pos < |s|
    ensures l.SizeLine? ==> pos + 2 < l.next <= |s| && l.size <= ULONG_MAX
    ensures l.BadLine? ==> l.code < 0
  {
    var e := LineEnd(s, pos);
    if e == |s| then BadLine(-3)
    else if e == pos then BadLine(-4)
    else
      match Strtoul(s[pos..e])
      case NoDigits => BadLine(-6)
      case Digits(n) => SizeLine(e + 2, n)
  }

  /**
   * The chunk that starts at pos: an error, the last chunk, where its data starts and the size, or a
   * size with which the sum of the guard wraps around.
   */
  datatype Head = Bad(code: int) | Last | Chunk(start: nat, size: nat) | Wrapped(size: nat)

  function ReadHead(s: string, pos: nat): (h: Head)
    requires pos < |s|
    ensures h.Chunk? ==> pos < h.start && h.size > 0 && h.start + h.size + 2 <= |s|
    ensures h.Bad? ==> h.code < 0
  {
    match ReadLine(s, pos)
    case BadLine(code) => Bad(code)
    case SizeLine(next, n) =>
      if n == 0 then Last
      else if Sum(next, n) > |s| then Bad(-7)
      else if next + n > |s| then Wrapped(n)
      else if !CrlfAt(s, next + n) then Bad(-9)
      else Chunk(next, n)
  }

  /** What decoding from pos on yields, after out. */
  function DecodeFrom(s: string, pos: nat, out: string): (r: Result)
    requires pos <= |s|
    ensures r.Err? ==> r.code < 0
    decreases |s| - pos
  {
    if pos == |s| then Ok(out) else
      match ReadHead(s, pos)
      case Bad(code) => Err(code)
      case Last => Ok(out)
      case Chunk(start, n) => DecodeFrom(s, start + n + 2, out + s[start..start + n])
      case Wrapped(n) => if |out| + n + 1 > ULONG_MAX then Overrun else Endless
  }

  function Decode(s: string): (r: Result)
    ensures r.Err? ==> r.code < 0
  {
    DecodeFrom(s, 0, "")
  }

  // ----- when the size guard means what it says -----

  /**
   * The first size line on the way of the decoder that makes position and size wrap around, if there
   * is one: the buffer size that its chunk asks for.
   */
  function FirstWrap(s: string, pos: nat, used: nat): Option<nat>
    requires pos <= |s|
    decreases |s| - pos
  {
    if pos == |s| then None else
      match ReadLine(s, pos)
      case BadLine(_) => None
      case SizeLine(next, n) =>
        if next + n > ULONG_MAX then Some(used + n + 1)
        else if n > 0 && next + n <= |s| && CrlfAt(s, next + n) then FirstWrap(s, next + n + 2, used + n)
        else None
  }

  /** What a decoder does that comes to such a line. */
  predicate WrapTells(wrap: Option<nat>, r: Result) {
    && (r == Overrun <==> wrap.Some? && wrap.value > ULONG_MAX)
    && (r == Endless <==> wrap.Some? && wrap.value <= ULONG_MAX)
  }

  lemma {:induction false} WrapFrom(s: string, pos: nat, out: string)
    requires pos <= |s| <= ULONG_MAX
    ensures WrapTells(FirstWrap(s, pos, |out|), DecodeFrom(s, pos, out))
    decreases |s| - pos
  {
    hide ReadLine;
    if pos < |s| {
      match ReadLine(s, pos)
      case BadLine(_) =>
      case SizeLine(next, n) =>
        if n > 0 && next + n <= |s| && CrlfAt(s, next + n) {
          WrapFrom(s, next + n + 2, out + s[next..next + n]);
        }
    }
  }

  /**
   * For every input: the guard fails if and only if some size on the way wraps around; the decoder
   * then reads past its input when the buffer size wraps around too, and never ends when it does not.
   */
  lemma WrapExactly(s: string)
    requires |s| <= ULONG_MAX
    ensures WrapTells(FirstWrap(s, 0, 0), Decode(s))
  {
    WrapFrom(s, 0, "");
  }

  /** A witness for each: with nothing in the buffer, only the largest size of all reads past the input. */
  lemma WrapHappens()
    ensures Decode("-1\r\n") == Overrun && Decode("-2\r\n") == Endless
  {
    MinusOne();
    MinusTwo();
    OneSizeLine("-1", ULONG_MAX);
    OneSizeLine("-2", ULONG_MAX - 1);
    assert "-1" + CRLF == "-1\r\n" && "-2" + CRLF == "-2\r\n";
  }

  lemma OneSizeLine(line: string, n: nat)
    requires |line| == 2 && line[0] == '-' && line[1] != '\r' && Strtoul(line) == Digits(n) && n + 4 > ULONG_MAX
    ensures Decode(line + CRLF) == if n == ULONG_MAX then Overrun else Endless
  {
    hide Strtoul;
    var s := line + CRLF;
    assert !CrlfAt(s, 0) && !CrlfAt(s, 1) && CrlfAt(s, 2);
    assert LineEnd(s, 0) == 2 && s[0..2] == line;
    assert ReadLine(s, 0) == SizeLine(4, n);
  }

  lemma MinusTwo()
    ensures Strtoul("-2") == Digits(ULONG_MAX - 1)
  {
    var t := "-2";
    assert SkipSpace(t) == t;
    var u := t[1..];
    assert u == "2" && u[1..] == "" && HexPrefix("") == "" && HexPrefix(u) == "2";
    assert HexNumber("") == 0 && "2"[..0] == "" && HexNumber("2") == 2;
  }

  lemma MinusOne()
    ensures Strtoul("-1") == Digits(ULONG_MAX)
  {
    var t := "-1";
    assert SkipSpace(t) == t;
    var u := t[1..];
    assert u == "1" && u[1..] == "" && HexPrefix("") == "" && HexPrefix(u) == "1";
    assert HexNumber("") == 0 && "1"[..0] == "" && HexNumber("1") == 1;
  }

  // ----- doubling -----

  /** The sizes that a buffer of 1024 bytes goes through. */
  function Doubled(k: nat): (n: nat)
    ensures n >= 1024
  {
    if k == 0 then 1024 else 2 * Doubled(k - 1)
  }

  lemma {:induction false} DoubledGrows(j: nat, k: nat)
    requires j <= k
    ensures Doubled(j) <= Doubled(k) && (j < k ==> 2 * Doubled(j) <= Doubled(k))
    decreases k - j
  {
    if j < k { DoubledGrows(j, k - 1); }
  }

  /** Below a power of two the next one is not beyond it. */
  lemma DoubledBelow(j: nat, k: nat)
    ensures Doubled(j) < Doubled(k) ==> 2 * Doubled(j) <= Doubled(k)
  {
    if j < k { DoubledGrows(j, k); } else { DoubledGrows(k, j); }
  }

  lemma TenTimes(k: nat)
    ensures Doubled(k + 10) == 1024 * Doubled(k)
  {
    assert Doubled(k + 2) == 4 * Doubled(k);
    assert Doubled(k + 4) == 4 * Doubled(k + 2);
    assert Doubled(k + 6) == 4 * Doubled(k + 4);
    assert Doubled(k + 8) == 4 * Doubled(k + 6);
  }

  lemma LargeSizes()
    ensures Doubled(52) == OBJECT_MAX && Doubled(53) == HALF
  {
    assert Doubled(2) == 4096;
    hide Doubled;
    TenTimes(2);
    TenTimes(12);
    TenTimes(22);
    TenTimes(32);
    TenTimes(42);
    OneMore(52);
  }

  lemma OneMore(k: nat)
    ensures Doubled(k + 1) == 2 * Doubled(k)
  {
  }

  /** The size after m turns of the doubling loop, in size_t. */
  function Turns(alloc: nat, m: nat): nat {
    if m == 0 then alloc else Sum(Turns(alloc, m - 1), Turns(alloc, m - 1))
  }

  lemma {:induction false} TurnsAre(k: nat, m: nat)
    requires k <= 53
    ensures Turns(Doubled(k), m) == if k + m <= 53 then Doubled(k + m) else 0
  {
    hide Doubled, Sum;
    if m > 0 {
      TurnsAre(k, m - 1);
      if k + m <= 54 { OneTurn(k + m - 1); } else { NoTurn(); }
    }
  }

  lemma NoTurn()
    ensures Sum(0, 0) == 0
  {
  }

  /** The loop ends, after some turns, if and only if 2^63 bytes are enough: from there it goes to 0 and stays. */
  lemma DoublingEnds(k: nat, need: nat)
    requires k <= 53
    ensures (exists m: nat :: Turns(Doubled(k), m) >= need) <==> need <= HALF
  {
    LargeSizes();
    if need <= HALF {
      TurnsAre(k, 53 - k);
      assert Turns(Doubled(k), 53 - k) >= need;
    }
    forall m: nat
      ensures Turns(Doubled(k), m) <= HALF
    {
      TurnsAre(k, m);
      if k + m <= 53 { SizeBounds(k + m); }
    }
  }

  // ----- `decode_chunked` -----

  /** What the method returns where the program would read past its input, and where it would not end. */
  const OVERRUN := 1
  const ENDLESS := 2

  /** The buffer sizes that occur: 1024, or grown by doubling just far enough. */
  ghost predicate Roomy(alloc: nat, used: nat) {
    used + 1 <= alloc && (alloc == 1024 || alloc < 2 * (used + 1)) && exists k: nat :: k <= 52 && alloc == Doubled(k)
  }

  /** realloc: a new block with the old contents in front. */
  method Realloc(buf: array<char>, alloc: nat) returns (nbuf: array<char>)
    requires buf.Length <= alloc <= OBJECT_MAX
    ensures fresh(nbuf) && nbuf.Length == alloc && nbuf[..buf.Length] == buf[..]
  {
    nbuf := new char[alloc](i reads buf => if 0 <= i < buf.Length then buf[i] else '\0');
  }

  method Append(buf: array<char>, used: nat, s: string, from: nat, n: nat)
    requires used + n <= buf.Length && from + n <= |s|
    modifies buf
    ensures buf[..used + n] == old(buf[..used]) + s[from..from + n]
  {
    for i := 0 to n
      invariant buf[..used] == old(buf[..used]) && buf[used..used + i] == s[from..from + i]
    {
      buf[used + i] := s[from + i];
    }
  }

  /** The inner loop that looks for the end of the size line. */
  method ScanLine(s: string, start: nat) returns (pos: nat)
    requires start <= |s|
    ensures pos == LineEnd(s, start)
  {
    pos := start;
    while pos < |s| && !(s[pos] == '\r' && pos + 1 < |s| && s[pos + 1] == '\n')
      invariant start <= pos <= |s| && LineEnd(s, start) == LineEnd(s, pos)
    {
      pos := pos + 1;
    }
  }

  /**
   * The doubling loop. When the size has wrapped around to 0 it stays there and the loop does not end;
   * the method stops at that point and returns 0.
   */
  method Double(alloc0: nat, need: nat, ghost k0: nat) returns (alloc: nat, ghost k: nat)
    requires k0 <= 52 && alloc0 == Doubled(k0) && need <= ULONG_MAX
    ensures alloc == 0 <==> need > HALF
    ensures alloc > 0 ==> alloc == Doubled(k) && k0 <= k && need <= alloc && (alloc == alloc0 || alloc < 2 * need)
    ensures need <= OBJECT_MAX ==> 0 < alloc <= OBJECT_MAX && k <= 52
  {
    hide Doubled, Sum;
    SizeBounds(k0);
    alloc, k := alloc0, k0;
    while need > alloc && alloc != 0
      invariant k0 <= k <= 54 && (alloc == 0 ==> need > HALF)
      invariant alloc > 0 ==> alloc == Doubled(k) && k <= 53 && (alloc == alloc0 || alloc < 2 * need)
      invariant need <= OBJECT_MAX ==> k <= 52
      decreases 54 - k
    {
      OneTurn(k);
      alloc := Sum(alloc, alloc);
      k := k + 1;
    }
    if alloc > 0 { SizeBounds(k); }
  }

  lemma SizeBounds(k: nat)
    requires k <= 53
    ensures 1024 <= Doubled(k) <= HALF && (k <= 52 ==> Doubled(k) <= OBJECT_MAX)
      && (k >= 52 ==> Doubled(k) >= OBJECT_MAX)
    ensures k == 53 ==> Doubled(k) == HALF
  {
    LargeSizes();
    DoubledGrows(k, 53);
    if k <= 52 { DoubledGrows(k, 52); }
  }

  lemma OneTurn(k: nat)
    requires k <= 53
    ensures Sum(Doubled(k), Doubled(k)) == if k < 53 then Doubled(k + 1) else 0
    ensures k < 53 ==> Doubled(k + 1) == 2 * Doubled(k)
    ensures k == 52 ==> Doubled(k) == OBJECT_MAX
    ensures k == 53 ==> Doubled(k) == HALF
  {
    LargeSizes();
    if k < 53 { DoubledGrows(k + 1, 53); }
  }

  /** The growth of the buffer: 0, or -8 where realloc refuses, or ENDLESS. */
  method Grow(buf: array<char>, used: nat, n: nat) returns (err: int, nbuf: array<char>)
    requires Roomy(buf.Length, used) && used < OBJECT_MAX && 0 < n <= ULONG_MAX
    ensures var need := Sum(used + n, 1);
      err == if need <= buf.Length then 0 else if need > HALF then ENDLESS else if need > OBJECT_MAX then -8 else 0
    ensures err == 0 ==> used <= nbuf.Length && nbuf[..used] == buf[..used] && (nbuf == buf || fresh(nbuf))
    ensures err == 0 && used + n < OBJECT_MAX ==> Roomy(nbuf.Length, used + n)
  {
    nbuf := buf;
    var need := Sum(used + n, 1);
    if need > buf.Length {
      ghost var k0: nat :| k0 <= 52 && buf.Length == Doubled(k0);
      var alloc, k := Double(buf.Length, need, k0);
      if alloc == 0 { return ENDLESS, nbuf; }
      if alloc > OBJECT_MAX { return -8, nbuf; }
      nbuf := Realloc(buf, alloc);
      assert nbuf[..used] == nbuf[..buf.Length][..used];
    }
    err := 0;
  }

  /** The head of the loop body: find the line, parse the size, step over the CRLF. */
  method ScanSize(s: string, lineStart: nat) returns (err: int, pos: nat, size: nat)
    requires lineStart < |s|
    ensures match ReadLine(s, lineStart)
      case BadLine(code) => err == code
      case SizeLine(next, n) => err == 0 && pos == next && size == n
  {
    size := 0;
    pos := ScanLine(s, lineStart);
    if pos >= |s| { return -3, pos, size; }
    if pos == lineStart { return -4, pos, size; }
    var number := Strtoul(s[lineStart..pos]);
    if number == NoDigits { return -6, pos, size; }
    return 0, pos + 2, number.value;
  }

  /** Make room, then memcpy, which reads past s when the guard has let through too large a size. */
  method CopyChunk(buf: array<char>, used: nat, s: string, from: nat, n: nat) returns (err: int, nbuf: array<char>)
    requires Roomy(buf.Length, used) && 0 < n <= ULONG_MAX && used < from <= |s| < OBJECT_MAX && Sum(from, n) <= |s|
    modifies buf
    ensures err == if from + n <= |s| then 0 else if used + n + 1 > ULONG_MAX then OVERRUN else ENDLESS
    ensures err == 0 ==> nbuf == buf || fresh(nbuf)
    ensures err == 0 ==> Roomy(nbuf.Length, used + n) && used + n < nbuf.Length
    ensures err == 0 ==> nbuf[..used + n] == old(buf[..used]) + s[from..from + n]
  {
    HasRoom(buf.Length, used);
    hide Roomy;
    err, nbuf := Grow(buf, used, n);
    if err != 0 { return; }
    if from + n > |s| { return OVERRUN, nbuf; }
    HasRoom(nbuf.Length, used + n);
    Append(nbuf, used, s, from, n);
  }

  /**
   * `decode_chunked`: the code and, when it is 0, the decoded bytes with a terminating NUL. Where no
   * size wraps around, the buffer has room for all that is copied and for that NUL; so realloc never
   * refuses, and the realloc after the loop is never taken.
   */
  method DecodeChunked(s: string) returns (err: int, out: array<char>, outLen: nat)
    requires |s| < OBJECT_MAX
    ensures err == match Decode(s)
      case Ok(_) => 0
      case Err(code) => code
      case Overrun => OVERRUN
      case Endless => ENDLESS
    ensures err == 0 ==> Roomy(out.Length, outLen) && Decode(s) == Ok(out[..outLen]) && out[outLen] == '\0'
  {
    hide ReadLine, Roomy;
    out := new char[1024](_ => '\0');
    assert Roomy(1024, 0) by { FirstRoom(); }
    var pos := 0;
    outLen := 0;
    while pos < |s|
      invariant outLen <= pos <= |s| && fresh(out) && Roomy(out.Length, outLen) && outLen < out.Length
      invariant DecodeFrom(s, pos, out[..outLen]) == Decode(s)
    {
      var e, next, size := ScanSize(s, pos);
      if e != 0 { return e, out, outLen; }
      pos := next;
      if size == 0 {
        if pos + 1 < |s| && s[pos] == '\r' && s[pos + 1] == '\n' { pos := pos + 2; }
        break;
      }
      if Sum(pos, size) > |s| { return -7, out, outLen; }
      e, out := CopyChunk(out, outLen, s, pos, size);
      if e != 0 { return e, out, outLen; }
      outLen := outLen + size;
      pos := pos + size;
      if pos + 1 >= |s| || s[pos] != '\r' || s[pos + 1] != '\n' { return -9, out, outLen; }
      pos := pos + 2;
    }
    if outLen + 1 > out.Length { assert false; }
    ghost var data := out[..outLen];
    out[outLen] := '\0';
    assert out[..outLen] == data;
    return 0, out, outLen;
  }

  lemma FirstRoom()
    ensures Roomy(1024, 0)
  {
    assert Doubled(0) == 1024;
  }

  lemma HasRoom(alloc: nat, used: nat)
    requires Roomy(alloc, used)
    ensures used < alloc
  {
  }
}
