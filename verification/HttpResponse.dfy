/**
 * Responses as a server writes them, and `receive_response` as the inverse: a rendered response is
 * read back, whatever the segments it arrives in.
 */
module HttpResponse {
  import opened Base
  import opened Chunked
  import opened ChunkedCoding
  import opened HttpClient

  /** A status line, header lines and a body as it stands on the wire. */
  datatype Response = Response(major: string, minor: string, code: string, reason: string,
    headers: seq<string>, body: string)

  predicate Number(s: string) {
    s != "" && forall i :: 0 <= i < |s| ==> IsDigit(s[i])
  }

  /** No CRLF and no NUL. */
  predicate Plain(s: string) {
    forall i :: 0 <= i < |s| ==> !CrlfAt(s, i) && s[i] != '\0'
  }

  predicate PlainLines(headers: seq<string>) {
    forall i :: 0 <= i < |headers| ==> headers[i] != "" && Plain(headers[i])
  }

  /** The reason does not go on with digits of the code. */
  predicate WellFormed(r: Response) {
    && Number(r.major) && Number(r.minor) && Number(r.code)
    && Plain(r.reason) && (r.reason != "" ==> !IsDigit(r.reason[0])) && PlainLines(r.headers)
  }

  /** The code as an int; below 2^31 the number that is written. */
  function StatusOf(r: Response): int {
    IntOf(Decimal(r.code))
  }

  function StatusLine(r: Response): string {
    "HTTP/" + r.major + "." + r.minor + " " + r.code + r.reason
  }

  function Lines(ls: seq<string>): string {
    if ls == [] then "" else ls[0] + CRLF + Lines(ls[1..])
  }

  function Render(r: Response): string {
    StatusLine(r) + CRLF + (Lines(r.headers) + CRLF + r.body)
  }

  // ----- where the two scans agree -----

  /** Position cur is behind a CRLF, with no NUL and no empty line in front of it. */
  ghost predicate LineStart(s: string, cur: nat) {
    && 2 <= cur <= |s| && CrlfAt(s, cur - 2)
    && (forall i :: 0 <= i < cur ==> s[i] != '\0')
    && (forall i :: 0 <= i < cur - 2 ==> !Occurs(s, i, CRLF2))
  }

  lemma CrlfOccurs(s: string, i: nat)
    ensures Occurs(s, i, CRLF) <==> CrlfAt(s, i)
    ensures Occurs(s, i, CRLF2) <==> CrlfAt(s, i) && CrlfAt(s, i + 2)
  {
    if CrlfAt(s, i) && CrlfAt(s, i + 2) { assert s[i..i + 4] == CRLF2; }
    if Occurs(s, i, CRLF2) {
      assert s[i] == s[i..i + 4][0] && s[i + 1] == s[i..i + 4][1]
        && s[i + 2] == s[i..i + 4][2] && s[i + 3] == s[i..i + 4][3];
    }
    if Occurs(s, i, CRLF) { assert s[i] == s[i..i + 2][0] && s[i + 1] == s[i..i + 2][1]; }
    if CrlfAt(s, i) { assert s[i..i + 2] == CRLF; }
  }

  /** From the start of a line to the next. */
  lemma NextLine(s: string, cur: nat, e: nat)
    requires (cur == 0 || LineStart(s, cur)) && cur <= |s| && Strstr(s, cur, CRLF) == Some(e) && (cur == 0 || e != cur)
    ensures LineStart(s, e + 2)
  {
    CrlfOccurs(s, e);
    forall i | 0 <= i < e
      ensures !Occurs(s, i, CRLF2)
    {
      CrlfOccurs(s, i);
      if i >= cur {
        assert !Occurs(s, i, CRLF);
      } else if i == cur - 2 {
        CrlfOccurs(s, cur);
      } else if i == cur - 1 {
        assert s[i] == '\n';
      }
    }
  }

  /**
   * The header loop and the separate search for the blank line agree: when the loop stops at an
   * empty line, the first CRLFCRLF starts exactly two bytes in front of it.
   */
  lemma {:induction false} StopIsBodyStart(s: string, cur: nat)
    requires LineStart(s, cur) && StopFrom(s, cur).Some?
    ensures Strstr(s, 0, CRLF2) == Some(StopFrom(s, cur).value - 2)
    decreases |s| - cur
  {
    hide Occurs;
    var e := Strstr(s, cur, CRLF).value;
    if e == cur {
      CrlfOccurs(s, cur - 2);
      CrlfOccurs(s, cur);
      StrstrIs(s, 0, CRLF2, cur - 2);
    } else {
      NextLine(s, cur, e);
      StopIsBodyStart(s, e + 2);
    }
  }

  // ----- rendered responses -----

  /** A plain line from position from on, in front of its CRLF. */
  lemma LineFoundIn(s: string, from: nat, line: string)
    requires Plain(line) && CrlfAt(s, from + |line|) && s[from..from + |line|] == line
    ensures Strstr(s, from, CRLF) == Some(from + |line|)
  {
    hide Occurs, Strstr;
    var e := from + |line|;
    CrlfOccurs(s, e);
    forall j | from <= j < e
      ensures !Occurs(s, j, CRLF) && s[j] != '\0'
    {
      CrlfOccurs(s, j);
      assert !CrlfAt(line, j - from) && s[j] == s[from..e][j - from];
      if j + 1 < e { assert s[j + 1] == s[from..e][j + 1 - from]; }
    }
    StrstrIs(s, from, CRLF, e);
  }

  lemma LineFound(s: string, pre: string, line: string, rest: string)
    requires Plain(line) && s == pre + (line + CRLF + rest)
    ensures Strstr(s, |pre|, CRLF) == Some(|pre| + |line|)
  {
    hide Plain, Strstr, Occurs;
    assert s[|pre|..|pre| + |line|] == line;
    assert s[|pre| + |line|] == '\r' && s[|pre| + |line| + 1] == '\n';
    LineFoundIn(s, |pre|, line);
  }

  /** strstr only looks at what is behind its starting point. */
  lemma {:induction false} StrstrShift(pre: string, t: string, k: nat, pat: string)
    requires k <= |t|
    ensures Strstr(pre + t, |pre| + k, pat).Some? <==> Strstr(t, k, pat).Some?
    decreases |t| - k
  {
    hide Occurs;
    OccursShift(pre, t, k, pat);
    if k < |t| {
      assert (pre + t)[|pre| + k] == t[k];
      StrstrShift(pre, t, k + 1, pat);
    }
  }

  lemma OccursShift(pre: string, t: string, k: nat, pat: string)
    ensures Occurs(pre + t, |pre| + k, pat) <==> Occurs(t, k, pat)
  {
    var s := pre + t;
    if k + |pat| <= |t| { assert s[|pre| + k..|pre| + k + |pat|] == t[k..k + |pat|]; }
  }

  const NAME := "transfer-encoding:"

  /** A name without CR matches at the start of a line exactly when it matches inside it. */
  lemma NameInLine(pre: string, line: string, rest: string, name: string)
    requires forall i :: 0 <= i < |name| ==> name[i] != '\r'
    ensures Named(pre + (line + CRLF + rest), |pre|, name) <==> Named(line, 0, name)
  {
    var s := pre + (line + CRLF + rest);
    assert forall j :: 0 <= j < |line| ==> s[|pre| + j] == line[j];
    if |line| < |name| {
      assert s[|pre| + |line|] == '\r' && name[|line|] != '\r';
    }
  }

  /** The line starts with this name, each letter small or capital. */
  predicate Spells(line: string, small: string, capital: string)
    requires |small| == |capital|
  {
    |line| >= |small| && forall i :: 0 <= i < |small| ==> line[i] == small[i] || line[i] == capital[i]
  }

  predicate IsTransferEncoding(line: string) {
    Spells(line, "transfer-encoding:", "TRANSFER-ENCODING:")
  }

  predicate IsContentLength(line: string) {
    Spells(line, "content-length:", "CONTENT-LENGTH:")
  }

  /** A character in its small and its capital form, the same one when it is no letter. */
  predicate Pair(small: char, capital: char) {
    if 'a' <= small <= 'z' then capital == small - 'a' + 'A' else small == capital && !('A' <= small <= 'Z')
  }

  lemma NamedSpells(line: string, small: string, capital: string)
    requires |small| == |capital| && forall i :: 0 <= i < |small| ==> Pair(small[i], capital[i])
    ensures Named(line, 0, small) <==> Spells(line, small, capital)
  {
    if |line| >= |small| {
      forall i | 0 <= i < |small|
        ensures Lower(line[0 + i]) == small[i] <==> line[i] == small[i] || line[i] == capital[i]
      {
        assert Pair(small[i], capital[i]);
      }
    }
  }

  lemma TransferEncodingFound(line: string)
    ensures Named(line, 0, NAME) <==> IsTransferEncoding(line)
  {
    NamedSpells(line, "transfer-encoding:", "TRANSFER-ENCODING:");
  }

  lemma ContentLengthFound(line: string)
    ensures Named(line, 0, LENGTH_NAME) <==> IsContentLength(line)
  {
    NamedSpells(line, "content-length:", "CONTENT-LENGTH:");
  }

  /** Header line i names Transfer-Encoding, and "chunked" follows before any NUL, be it in the body. */
  predicate FlaggedAt(headers: seq<string>, body: string, i: nat)
    requires i < |headers|
  {
    IsTransferEncoding(headers[i]) && Strstr(Lines(headers[i..]) + CRLF + body, 0, "chunked").Some?
  }

  predicate Flagged(headers: seq<string>, body: string) {
    exists i :: 0 <= i < |headers| && FlaggedAt(headers, body, i)
  }

  lemma FlaggedSplit(headers: seq<string>, body: string)
    requires headers != []
    ensures Flagged(headers, body) <==> FlaggedAt(headers, body, 0) || Flagged(headers[1..], body)
  {
    forall i | 0 <= i < |headers| - 1
      ensures FlaggedAt(headers[1..], body, i) == FlaggedAt(headers, body, i + 1)
    {
      assert headers[1..][i..] == headers[i + 1..];
    }
    if i :| 0 <= i < |headers| && FlaggedAt(headers, body, i) {
      if i > 0 { assert FlaggedAt(headers[1..], body, i - 1); }
    }
    if i :| 0 <= i < |headers[1..]| && FlaggedAt(headers[1..], body, i) {
      assert FlaggedAt(headers, body, i + 1);
    }
  }

  /** One turn of the header loop. */
  lemma ScanOne(pre: string, line: string, rest: string, flag: bool)
    requires Plain(line)
    ensures var s := pre + (line + CRLF + rest);
      if line == "" then ChunkedFrom(s, |pre|, flag) == flag && StopFrom(s, |pre|) == Some(|pre|)
      else
        var found := Named(line, 0, NAME) && Strstr(s, |pre|, "chunked").Some?;
        ChunkedFrom(s, |pre|, flag) == ChunkedFrom(s, |pre + line + CRLF|, flag || found)
        && StopFrom(s, |pre|) == StopFrom(s, |pre + line + CRLF|)
  {
    hide Strstr, Occurs, Named, Plain;
    LineFound(pre + (line + CRLF + rest), pre, line, rest);
    NameInLine(pre, line, rest, NAME);
  }

  /** The header loop on rendered header lines: it stops at the blank line, with the flag as specified. */
  lemma {:induction false} ScanRendered(pre: string, headers: seq<string>, body: string, flag: bool)
    requires PlainLines(headers)
    ensures var s := pre + (Lines(headers) + CRLF + body);
      && ChunkedFrom(s, |pre|, flag) == (flag || Flagged(headers, body))
      && StopFrom(s, |pre|) == Some(|pre| + |Lines(headers)|)
    decreases |headers|
  {
    hide Strstr, Occurs, Named, Plain, FlaggedAt, ChunkedFrom, StopFrom;
    if headers == [] {
      EmptyIsPlain();
      assert Lines(headers) + CRLF + body == "" + CRLF + body;
      ScanOne(pre, "", body, flag);
    } else {
      var h, more := headers[0], Lines(headers[1..]) + CRLF + body;
      assert Lines(headers) + CRLF + body == h + CRLF + more;
      ScanOne(pre, h, more, flag);
      FirstFlagged(pre, headers, body);
      FlaggedSplit(headers, body);
      hide Flagged;
      var found := FlaggedAt(headers, body, 0);
      assert pre + (h + CRLF + more) == (pre + h + CRLF) + more;
      ScanRendered(pre + h + CRLF, headers[1..], body, flag || found);
    }
  }

  lemma EmptyIsPlain()
    ensures Plain("")
  {
  }

  lemma FirstFlagged(pre: string, headers: seq<string>, body: string)
    requires headers != []
    ensures FlaggedAt(headers, body, 0) <==>
      Named(headers[0], 0, NAME) && Strstr(pre + (Lines(headers) + CRLF + body), |pre|, "chunked").Some?
  {
    TransferEncodingFound(headers[0]);
    assert headers[0..] == headers;
    StrstrShift(pre, Lines(headers) + CRLF + body, 0, "chunked");
  }

  // ----- the status line -----

  lemma {:induction false} DigitsEndIs(s: string, i: nat, e: nat)
    requires i <= e <= |s| && (e < |s| ==> !IsDigit(s[e]))
    requires forall k :: i <= k < e ==> IsDigit(s[k])
    ensures DigitsEnd(s, i) == e
    decreases e - i
  {
    if i < e { DigitsEndIs(s, i + 1, e); }
  }

  /** A number in place, with something else behind it. */
  lemma ScanNumber(s: string, i: nat, n: string)
    requires Number(n) && i + |n| <= |s| && s[i..i + |n|] == n
    requires i + |n| < |s| ==> !IsDigit(s[i + |n|])
    ensures ScanInt(s, i) == Some((IntOf(Decimal(n)), i + |n|)) && Blanks(s, i) == i
  {
    hide Decimal, IntOf;
    assert forall k :: i <= k < i + |n| ==> s[k] == s[i..i + |n|][k - i];
    DigitsEndIs(s, i, i + |n|);
  }

  lemma ScanNumberIn(pre: string, n: string, rest: string)
    requires Number(n) && (rest != "" ==> !IsDigit(rest[0]))
    ensures ScanInt(pre + n + rest, |pre|) == Some((IntOf(Decimal(n)), |pre| + |n|))
      && Blanks(pre + n + rest, |pre|) == |pre|
  {
    hide Decimal, IntOf, ScanInt;
    var s := pre + n + rest;
    assert s[|pre|..|pre| + |n|] == n;
    ScanNumber(s, |pre|, n);
  }

  /** %d skips the one blank in front of the code. */
  lemma BlankBefore(s: string, i: nat)
    requires i < |s| && s[i] == ' ' && Blanks(s, i + 1) == i + 1
    ensures Blanks(s, i) == i + 1
  {
  }

  /** The status code is read from the rendered status line. */
  lemma ScanRenderedStatus(r: Response, rest: string)
    requires WellFormed(r)
    ensures ScanStatus(StatusLine(r) + CRLF + rest) == Some(StatusOf(r))
  {
    hide Decimal, IntOf, ScanInt, Number, Plain, Blanks;
    var last := r.reason + CRLF + rest;
    assert last[0] == if r.reason == "" then '\r' else r.reason[0];
    var p1 := "HTTP/" + r.major + ".";
    var p2 := p1 + r.minor + " ";
    var s := p2 + r.code + last;
    StatusPieces("HTTP/", r.major, ".", r.minor, " ", r.code, last);
    assert StatusLine(r) + CRLF + rest == s by { StatusPieces(p2, r.code, r.reason, CRLF, rest, "", ""); }
    ScanNumberIn("HTTP/", r.major, "." + (r.minor + (" " + (r.code + last))));
    ScanNumberIn(p1, r.minor, " " + (r.code + last));
    ScanNumberIn(p2, r.code, last);
    assert s[0..5] == "HTTP/" && s[|p1| - 1] == '.' && s[|p2| - 1] == ' ';
    BlankBefore(s, |p2| - 1);
  }

  /** Seven texts in a row, cut behind the second, the fourth and the sixth. */
  lemma StatusPieces(a: string, b: string, c: string, d: string, e: string, f: string, g: string)
    ensures a + b + c + d + e + f + g == a + b + (c + (d + (e + (f + g))))
    ensures a + b + c + d + e + f + g == a + b + c + d + (e + (f + g))
    ensures a + b + c + d + e == a + b + (c + d + e)
  {
  }

  lemma PlainConcat(a: string, b: string)
    requires Plain(b) && forall i :: 0 <= i < |a| ==> a[i] != '\r' && a[i] != '\0'
    ensures Plain(a + b)
  {
    forall i | 0 <= i < |a + b|
      ensures !CrlfAt(a + b, i) && (a + b)[i] != '\0'
    {
      if i >= |a| { assert !CrlfAt(b, i - |a|); }
    }
  }

  lemma StatusLineIsPlain(r: Response)
    requires WellFormed(r)
    ensures Plain(StatusLine(r))
  {
    PlainConcat("HTTP/" + r.major + "." + r.minor + " " + r.code, r.reason);
  }

  // ----- the whole response -----

  /** One turn of the header loop, as to the length. */
  lemma LengthOne(pre: string, line: string, rest: string, length: nat)
    requires Plain(line)
    ensures var s := pre + (line + CRLF + rest);
      if line == "" then LengthFrom(s, |pre|, length) == length
      else
        (Named(line, 0, LENGTH_NAME) ==> |pre| + 15 <= |s|)
        && LengthFrom(s, |pre|, length) == LengthFrom(s, |pre + line + CRLF|,
          if Named(line, 0, LENGTH_NAME) then ScanLength(s, |pre| + 15).GetOr(length) else length)
  {
    hide Strstr, Occurs, Named, Plain, ScanLength;
    LineFound(pre + (line + CRLF + rest), pre, line, rest);
    NameInLine(pre, line, rest, LENGTH_NAME);
    NameFits(line);
  }

  lemma NameFits(line: string)
    ensures Named(line, 0, LENGTH_NAME) ==> |line| >= 15
  {
  }

  /** A header line that gives this number as the Content-Length. */
  predicate LengthLine(line: string, digits: string) {
    IsContentLength(line) && Number(digits) && line[15..] == " " + digits
  }

  lemma SizeInLine(pre: string, line: string, rest: string, digits: string)
    requires LengthLine(line, digits)
    ensures ScanLength(pre + (line + CRLF + rest), |pre| + 15) == Some(UnsignedLong(Decimal(digits), false))
  {
    hide Decimal, UnsignedLong, ScanLength, Number;
    var name := line[..15];
    assert line == name + (" " + digits);
    Nested(pre, name, digits, CRLF, rest);
    LengthAt(pre + name, digits, CRLF + rest);
  }

  lemma Nested(pre: string, name: string, digits: string, n: string, rest: string)
    ensures pre + (name + (" " + digits) + n + rest) == pre + name + (" " + digits + (n + rest))
  {
  }

  /** A number behind a blank, and no digit behind it. */
  lemma LengthAt(p: string, digits: string, t: string)
    requires Number(digits) && (t != "" ==> !IsDigit(t[0]))
    ensures ScanLength(p + (" " + digits + t), |p|) == Some(UnsignedLong(Decimal(digits), false))
  {
    hide Decimal, UnsignedLong, DigitsEnd, Blanks;
    var s, d := p + (" " + digits + t), |p| + 1;
    var e := d + |digits|;
    assert s[d..e] == digits && s[d] == digits[0] && s[|p|] == ' ';
    if e < |s| { assert s[e] == t[0]; }
    assert forall k :: d <= k < e ==> s[k] == digits[k - d];
    DigitsEndIs(s, d, e);
    NoBlankAt(s, d);
    BlankBefore(s, |p|);
  }

  lemma NoBlankAt(s: string, i: nat)
    requires i < |s| && !IsSpace(s[i])
    ensures Blanks(s, i) == i
  {
  }

  /** The last Content-Length line counts, clamped at 2^64 - 1. */
  lemma {:induction false} LengthRendered(pre: string, headers: seq<string>, body: string, length: nat, digits: string)
    requires PlainLines(headers) && headers != [] && LengthLine(headers[|headers| - 1], digits)
    ensures LengthFrom(pre + (Lines(headers) + CRLF + body), |pre|, length) == UnsignedLong(Decimal(digits), false)
    decreases |headers|
  {
    hide LengthFrom, ScanLength, Named, Plain, Decimal, UnsignedLong, LengthLine;
    var h, more := headers[0], Lines(headers[1..]) + CRLF + body;
    var s, next := pre + (Lines(headers) + CRLF + body), pre + h + CRLF;
    assert Lines(headers) + CRLF + body == h + CRLF + more;
    LengthOne(pre, h, more, length);
    assert s == next + more;
    if |headers| == 1 {
      SizeInLine(pre, h, more, digits);
      EmptyIsPlain();
      assert more == "" + CRLF + body;
      LengthOne(next, "", body, UnsignedLong(Decimal(digits), false));
      LengthLineIsNamed(h, digits);
    } else {
      assert headers[1..][|headers| - 2] == headers[|headers| - 1];
      LengthRendered(next, headers[1..], body,
        if Named(h, 0, LENGTH_NAME) then ScanLength(s, |pre| + 15).GetOr(length) else length, digits);
    }
  }

  lemma LengthLineIsNamed(line: string, digits: string)
    requires LengthLine(line, digits)
    ensures Named(line, 0, LENGTH_NAME)
  {
    ContentLengthFound(line);
  }

  /**
   * What is made of a rendered response, for every one of them: the status code, and the body as it
   * stands or decoded, the latter exactly when `Flagged` says so.
   */
  lemma ParseRendered(r: Response)
    requires WellFormed(r)
    ensures ParseResponse(Render(r)) ==
      if !Flagged(r.headers, r.body) then Received(StatusOf(r), r.body)
      else match Decode(r.body)
        case Ok(data) => Received(StatusOf(r), data)
        case Err(_) => Failed
        case Overrun => Overran
        case Endless => Stuck
  {
    hide ParseHead, Strstr, Occurs, StatusOf, Flagged, Decode, Plain, Lines, StatusLine;
    var pre := StatusLine(r) + CRLF;
    ParseRenderedHead(r);
    var s := Render(r);
    assert s == (pre + Lines(r.headers) + CRLF) + r.body;
    assert s[|pre| + |Lines(r.headers)| + 2..] == r.body;
  }

  /** The head of a rendered response, and where its body starts. */
  lemma ParseRenderedHead(r: Response)
    requires WellFormed(r)
    ensures var head := ParseHead(Render(r));
      head.Some? && head.value.status == StatusOf(r) && head.value.chunked == Flagged(r.headers, r.body)
    ensures Strstr(Render(r), 0, CRLF2) == Some(|StatusLine(r)| + |Lines(r.headers)|)
  {
    hide Strstr, Occurs, Decimal, IntOf, ScanStatus, ChunkedFrom, LengthFrom, StopFrom,
      Flagged, Plain, Lines, StatusLine;
    var line := StatusLine(r);
    StatusLineIsPlain(r);
    ScanRenderedStatus(r, Lines(r.headers) + CRLF + r.body);
    HeadScans(line, r.headers, r.body);
  }

  /** Both scans on a plain first line, plain header lines and a blank one. */
  lemma HeadScans(line: string, headers: seq<string>, body: string)
    requires Plain(line) && PlainLines(headers)
    ensures var s := line + CRLF + (Lines(headers) + CRLF + body);
      && Strstr(s, 0, CRLF) == Some(|line|)
      && ChunkedFrom(s, |line| + 2, false) == Flagged(headers, body)
      && Strstr(s, 0, CRLF2) == Some(|line| + |Lines(headers)|)
  {
    hide Strstr, Occurs, ChunkedFrom, StopFrom, Flagged, Plain, Lines, LineStart;
    var more, pre := Lines(headers) + CRLF + body, line + CRLF;
    var s := pre + more;
    assert s == "" + (line + CRLF + more);
    LineFound(s, "", line, more);
    ScanRendered(pre, headers, body, false);
    assert |pre| == |line| + 2;
    NextLine(s, 0, |line|);
    StopIsBodyStart(s, |pre|);
  }

  /** No Transfer-Encoding header: the body arrives byte for byte, whatever is in it. */
  lemma IdentityBody(r: Response)
    requires WellFormed(r) && forall i :: 0 <= i < |r.headers| ==> !IsTransferEncoding(r.headers[i])
    ensures ParseResponse(Render(r)) == Received(StatusOf(r), r.body)
  {
    ParseRendered(r);
  }

  /** A Transfer-Encoding header that says chunked, and a chunked body: the data arrives. */
  lemma ChunkedBody(r: Response, h: nat, k: nat, ps: seq<Piece>, size: string, ext: string, rest: string)
    requires WellFormed(r) && h < |r.headers| && IsTransferEncoding(r.headers[h]) && Occurs(r.headers[h], k, "chunked")
    requires AllValid(ps) && Announces(size, ext, 0) && r.body == EncodeAll(ps) + ZeroLine(size, ext) + rest
    ensures ParseResponse(Render(r)) == Received(StatusOf(r), Payload(ps))
  {
    var t := Lines(r.headers[h..]) + CRLF + r.body;
    assert r.headers[h..][0] == r.headers[h];
    TextFound(r.headers[h], CRLF + Lines(r.headers[h..][1..]) + CRLF + r.body, k);
    assert t == r.headers[h] + (CRLF + Lines(r.headers[h..][1..]) + CRLF + r.body);
    assert FlaggedAt(r.headers, r.body, h);
    DecodeEncode(ps, size, ext, rest);
    ParseRendered(r);
  }

  lemma TextFound(line: string, rest: string, k: nat)
    requires Plain(line) && Occurs(line, k, "chunked")
    ensures Strstr(line + rest, 0, "chunked").Some?
  {
    var s := line + rest;
    assert s[k..k + 7] == line[k..k + 7];
    StrstrFinds(s, 0, "chunked", k);
  }

  /** strstr finds something when there is an occurrence in front of any NUL. */
  lemma {:induction false} StrstrFinds(s: string, from: nat, pat: string, i: nat)
    requires from <= i && Occurs(s, i, pat) && forall j :: from <= j < i ==> s[j] != '\0'
    ensures Strstr(s, from, pat).Some?
    decreases i - from
  {
    if from < i && !Occurs(s, from, pat) { StrstrFinds(s, from + 1, pat, i); }
  }

  /**
   * The search for "chunked" does not end with the header line: with any Transfer-Encoding header
   * the word in the body is enough, and a body that does not decode is then lost.
   */
  lemma ChunkedInBodyCounts(r: Response, k: nat)
    requires WellFormed(r) && Occurs(r.body, k, "chunked") && forall j :: 0 <= j < k ==> r.body[j] != '\0'
    requires r.headers != [] && IsTransferEncoding(r.headers[|r.headers| - 1])
    ensures Flagged(r.headers, r.body)
    ensures Decode(r.body).Err? ==> ParseResponse(Render(r)) == Failed
  {
    var n := |r.headers| - 1;
    var h := r.headers[n];
    assert r.headers[n..] == [h] && Lines([h]) == h + CRLF + "";
    var t := Lines(r.headers[n..]) + CRLF + r.body;
    var at := |h| + 4 + k;
    assert t[at..at + 7] == r.body[k..k + 7];
    assert forall j :: 0 <= j < at ==>
      t[j] == if j < |h| then h[j] else if j < |h| + 4 then CRLF2[j - |h|] else r.body[j - |h| - 4];
    StrstrFinds(t, 0, "chunked", at);
    assert FlaggedAt(r.headers, r.body, n);
    ParseRendered(r);
  }

  /** For the header line as servers write it. */
  lemma UsualChunkedBody(r: Response, h: nat, datas: seq<string>)
    requires WellFormed(r) && h < |r.headers| && r.headers[h] == "Transfer-Encoding: chunked"
    requires forall i :: 0 <= i < |datas| ==> 0 < |datas[i]| <= ULONG_MAX
    requires r.body == EncodeAll(Chunks(datas)) + "0\r\n\r\n"
    ensures ParseResponse(Render(r)) == Received(StatusOf(r), Concat(datas))
  {
    ChunksAreValid(datas);
    ZeroAnnounced();
    ZeroText(EncodeAll(Chunks(datas)));
    UsualLine();
    hide WellFormed, IsTransferEncoding, Occurs, EncodeAll, Chunks, AllValid, Announces;
    hide ParseResponse, Render, StatusOf;
    hide Payload, Concat, ZeroLine;
    ChunkedBody(r, h, 19, Chunks(datas), "0", "", CRLF);
  }

  lemma UsualLine()
    ensures IsTransferEncoding("Transfer-Encoding: chunked") && Occurs("Transfer-Encoding: chunked", 19, "chunked")
  {
    var line := "Transfer-Encoding: chunked";
    assert line[19..26] == "chunked";
  }

  // ----- what is refused -----

  lemma {:induction false} StrstrNone(s: string, from: nat, pat: string)
    requires from <= |s| && forall i: nat :: from <= i ==> !Occurs(s, i, pat)
    ensures Strstr(s, from, pat).None?
    decreases |s| - from
  {
    if from < |s| && s[from] != '\0' { StrstrNone(s, from + 1, pat); }
  }

  /**
   * Nothing is received when the connection breaks off, when it closes without a byte, and of a text
   * without an empty line or that does not start with "HTTP/".
   */
  lemma Refused(segments: seq<string>, closed: bool)
    requires var s := Concat(segments);
      !closed || s == "" || !Occurs(s, 0, "HTTP/") || forall i: nat :: !Occurs(s, i, "\r\n\r\n")
    ensures Receive(segments, closed) == Failed
  {
    var s := Concat(segments);
    hide Occurs, Strstr, Concat, LengthFrom, ChunkedFrom;
    if forall i: nat :: !Occurs(s, i, "\r\n\r\n") { StrstrNone(s, 0, CRLF2); }
  }
}
