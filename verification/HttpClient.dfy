/**
 * Receiving a response in src/network/http_client.c: the segments are put together, the head is
 * scanned line by line, the body is cut off and, if need be, decoded. The C string functions stop at
 * the first NUL, and so do their models here.
 */
module HttpClient {
  import opened Base
  import opened Chunked

  const CRLF2 := "\r\n\r\n"
  const BUFFER_SIZE := 8192

  // ----- strstr, strncasecmp, sscanf -----

  /** strstr(s + from, pat): the first occurrence in front of any NUL. */
  function Strstr(s: string, from: nat, pat: string): (r: Option<nat>)
    requires from <= |s|
    ensures r.Some? ==> from <= r.value && r.value + |pat| <= |s| && Occurs(s, r.value, pat)
    ensures r.Some? ==> forall i :: from <= i < r.value ==> !Occurs(s, i, pat) && s[i] != '\0'
    decreases |s| - from
  {
    if Occurs(s, from, pat) then Some(from)
    else if from == |s| || s[from] == '\0' then None
    else Strstr(s, from + 1, pat)
  }

  lemma {:induction false} StrstrIs(s: string, from: nat, pat: string, i: nat)
    requires from <= i && Occurs(s, i, pat)
    requires forall j :: from <= j < i ==> !Occurs(s, j, pat) && s[j] != '\0'
    ensures Strstr(s, from, pat) == Some(i)
    decreases i - from
  {
    if from < i { StrstrIs(s, from + 1, pat, i); }
  }

  /** strncasecmp(s + from, name, |name|) == 0, for a name in lower case. */
  predicate Named(s: string, from: nat, name: string) {
    from + |name| <= |s| && forall i :: 0 <= i < |name| ==> Lower(s[from + i]) == name[i]
  }

  predicate IsDigit(c: char) {
    '0' <= c <= '9'
  }

  function Blanks(s: string, i: nat): (j: nat)
    requires i <= |s|
    ensures i <= j <= |s|
    decreases |s| - i
  {
    if i < |s| && IsSpace(s[i]) then Blanks(s, i + 1) else i
  }

  function DigitsEnd(s: string, i: nat): (j: nat)
    requires i <= |s|
    ensures i <= j <= |s| && forall k :: i <= k < j ==> IsDigit(s[k])
    decreases |s| - i
  {
    if i < |s| && IsDigit(s[i]) then DigitsEnd(s, i + 1) else i
  }

  function Decimal(s: string): nat {
    if s == "" then 0 else
      Decimal(s[..|s| - 1]) * 10 + if IsDigit(s[|s| - 1]) then s[|s| - 1] as nat - '0' as nat else 0
  }

  const INT_MAX: int := 0x7fff_ffff
  const LONG_MAX: int := 0x7fff_ffff_ffff_ffff

  /** A number as an int: strtol clamps it to a long, and of that the low 32 bits are kept. */
  function IntOf(n: int): (r: int)
    ensures -INT_MAX - 1 <= r <= INT_MAX
    ensures -INT_MAX - 1 <= n <= INT_MAX ==> r == n
  {
    var c := if n > LONG_MAX then LONG_MAX else if n < -LONG_MAX - 1 then -LONG_MAX - 1 else n;
    (c + INT_MAX + 1) % (2 * INT_MAX + 2) - INT_MAX - 1
  }

  /** %d at position i: the value and where it ends. */
  function ScanInt(s: string, i: nat): (r: Option<(int, nat)>)
    requires i <= |s|
    ensures r.Some? ==> i < r.value.1 <= |s|
  {
    var b := Blanks(s, i);
    var signed := b < |s| && (s[b] == '-' || s[b] == '+');
    var d := if signed then b + 1 else b;
    var e := DigitsEnd(s, d);
    var n: int := Decimal(s[d..e]);
    if e == d then None else Some((IntOf(if signed && s[b] == '-' then -n else n), e))
  }

  /** %zu at position i, clamped and negated as strtoul does it. */
  function ScanLength(s: string, i: nat): (r: Option<nat>)
    requires i <= |s|
  {
    var b := Blanks(s, i);
    var signed := b < |s| && (s[b] == '-' || s[b] == '+');
    var d := if signed then b + 1 else b;
    var e := DigitsEnd(s, d);
    if e == d then None else Some(UnsignedLong(Decimal(s[d..e]), signed && s[b] == '-'))
  }

  /** sscanf(s, "HTTP/%*d.%*d %d", &code) == 1. */
  function ScanStatus(s: string): Option<int> {
    if !Occurs(s, 0, "HTTP/") then None else
      match ScanInt(s, 5)
      case None => None
      case Some((_, i)) =>
        if i == |s| || s[i] != '.' then None else
          match ScanInt(s, i + 1)
          case None => None
          case Some((_, j)) =>
            match ScanInt(s, Blanks(s, j))
            case None => None
            case Some((code, _)) => Some(code)
  }

  // ----- the head -----

  /** What the header loop finds from position cur on. */
  function ChunkedFrom(s: string, cur: nat, chunked: bool): bool
    requires cur <= |s|
    decreases |s| - cur
  {
    if cur == |s| then chunked else
      match Strstr(s, cur, CRLF)
      case None => chunked
      case Some(e) =>
        if e == cur then chunked
        else ChunkedFrom(s, e + 2, chunked || (Named(s, cur, "transfer-encoding:") && Strstr(s, cur, "chunked").Some?))
  }

  const LENGTH_NAME := "content-length:"

  /** The Content-Length it finds; a line that does not scan changes nothing. */
  function LengthFrom(s: string, cur: nat, length: nat): nat
    requires cur <= |s|
    decreases |s| - cur
  {
    if cur == |s| then length else
      match Strstr(s, cur, CRLF)
      case None => length
      case Some(e) =>
        if e == cur then length
        else LengthFrom(s, e + 2, if Named(s, cur, LENGTH_NAME) then ScanLength(s, cur + 15).GetOr(length) else length)
  }

  /** The empty line at which that loop stops, if it does. */
  function StopFrom(s: string, cur: nat): (r: Option<nat>)
    requires cur <= |s|
    ensures r.Some? ==> cur <= r.value && CrlfAt(s, r.value)
    decreases |s| - cur
  {
    if cur == |s| then None else
      match Strstr(s, cur, CRLF)
      case None => None
      case Some(e) => if e == cur then Some(cur) else StopFrom(s, e + 2)
  }

  datatype Head = Head(status: int, length: nat, chunked: bool)

  /** `parse_headers`. */
  function ParseHead(s: string): Option<Head> {
    match Strstr(s, 0, CRLF)
    case None => None
    case Some(e) =>
      match ScanStatus(s)
      case None => None
      case Some(code) => Some(Head(code, LengthFrom(s, e + 2, 0), ChunkedFrom(s, e + 2, false)))
  }

  /** What becomes of a response; Overran and Stuck when decoding its body reads past it or does not end. */
  datatype Reception = Received(status: int, body: string) | Failed | Overran | Stuck

  function ParseResponse(s: string): Reception {
    if s == "" then Failed else
      match ParseHead(s)
      case None => Failed
      case Some(head) =>
        match Strstr(s, 0, CRLF2)
        case None => Failed
        case Some(b) => ParseBody(head, s[b + 4..])
  }

  function ParseBody(head: Head, body: string): Reception {
    if !head.chunked then Received(head.status, body) else
      match Decode(body)
      case Ok(data) => Received(head.status, data)
      case Err(_) => Failed
      case Overrun => Overran
      case Endless => Stuck
  }

  /**
   * `parse_headers` as it runs; the out-parameters are set to zero first. stop tells at which empty
   * line the loop stopped, if it did not run off the lines.
   */
  method ParseHeaders(data: string) returns (err: int, status: int, length: nat, chunked: bool, ghost stop: Option<nat>)
    ensures match ParseHead(data)
      case None => err == -1 && status == 0 && length == 0 && !chunked
      case Some(head) => err == 0 && head == Head(status, length, chunked)
    ensures err == 0 ==> Strstr(data, 0, CRLF).Some? && stop == StopFrom(data, Strstr(data, 0, CRLF).value + 2)
  {
    hide Strstr, Occurs, Named, ScanStatus, ScanLength;
    status, length, chunked, stop := 0, 0, false, None;
    var lineEnd := Strstr(data, 0, CRLF);
    if lineEnd.None? { return -1, status, length, chunked, stop; }
    var code := ScanStatus(data);
    if code.None? { return -1, status, length, chunked, stop; }
    status := code.value;
    var current := lineEnd.value + 2;
    while current < |data|
      invariant current <= |data|
      invariant ChunkedFrom(data, current, chunked) == ChunkedFrom(data, lineEnd.value + 2, false)
      invariant LengthFrom(data, current, length) == LengthFrom(data, lineEnd.value + 2, 0)
      invariant StopFrom(data, current) == StopFrom(data, lineEnd.value + 2) && stop == None
      decreases |data| - current
    {
      var end := Strstr(data, current, CRLF);
      if end.None? { break; }
      if end.value == current {
        stop := Some(current);
        break;
      }
      if Named(data, current, LENGTH_NAME) {
        NamesDiffer(data, current);
        length := ScanLength(data, current + 15).GetOr(length);
      } else if Named(data, current, "transfer-encoding:") {
        if Strstr(data, current, "chunked").Some? { chunked := true; }
      }
      current := end.value + 2;
    }
    return 0, status, length, chunked, stop;
  }

  lemma NameStarts(s: string, cur: nat, name: string)
    requires name != "" && Named(s, cur, name)
    ensures Lower(s[cur]) == name[0]
  {
    assert Lower(s[cur + 0]) == name[0];
  }

  /** No line has both names. */
  lemma NamesDiffer(s: string, cur: nat)
    requires Named(s, cur, LENGTH_NAME)
    ensures cur + 15 <= |s| && !Named(s, cur, "transfer-encoding:")
  {
    NameStarts(s, cur, LENGTH_NAME);
    if Named(s, cur, "transfer-encoding:") { NameStarts(s, cur, "transfer-encoding:"); }
  }

  // ----- `receive_response` -----

  /** The segments, if recv ends with a close and memory can hold them. */
  function Receive(segments: seq<string>, closed: bool): Reception {
    if !closed || |Concat(segments)| >= OBJECT_MAX then Failed else ParseResponse(Concat(segments))
  }

  lemma {:induction false} ConcatGrows(segments: seq<string>, i: nat)
    requires i <= |segments|
    ensures |Concat(segments[..i])| <= |Concat(segments)|
  {
    if i == |segments| {
      assert segments[..i] == segments;
    } else {
      var n := |segments| - 1;
      ConcatGrows(segments[..n], i);
      assert segments[..n][..i] == segments[..i];
    }
  }

  class HttpClient {
    var statusCode: int
    var responseBody: array?<char>
    var responseSize: nat

    constructor ()
      ensures statusCode == 0 && responseBody == null && responseSize == 0
    {
      statusCode, responseBody, responseSize := 0, null, 0;
    }

    /** The body is the bytes received, with a NUL behind them. */
    ghost predicate Holds(body: string)
      reads this, responseBody
    {
      responseBody != null && responseSize == |body| < responseBody.Length
      && responseBody[..responseSize] == body && responseBody[responseSize] == '\0'
    }

    /** The loop of `receive_response` that grows the response; realloc refuses more than OBJECT_MAX bytes. */
    static method Assemble(segments: seq<string>) returns (ok: bool, full: string)
      requires forall i :: 0 <= i < |segments| ==> 0 < |segments[i]| < BUFFER_SIZE
      ensures ok <==> |Concat(segments)| < OBJECT_MAX
      ensures ok ==> full == Concat(segments) && (full == "" <==> segments == [])
    {
      full := "";
      for i := 0 to |segments|
        invariant full == Concat(segments[..i]) && (full == "" <==> i == 0) && |full| < OBJECT_MAX
      {
        assert segments[..i + 1][..i] == segments[..i];
        if |full| + |segments[i]| + 1 > OBJECT_MAX {
          ConcatGrows(segments, i + 1);
          return false, full;
        }
        full := full + segments[i];
      }
      assert segments[..|segments|] == segments;
      ok := true;
    }

    /** The last branch of `receive_response`: the body as it came. */
    method KeepBody(body: string)
      modifies `responseBody, `responseSize
      ensures Holds(body)
    {
      var out := new char[|body| + 1](_ => '\0');
      Append(out, 0, body, 0, |body|);
      out[|body|] := '\0';
      assert out[..|body|] == body;
      responseBody, responseSize := out, |body|;
    }

    /** The branch before it: the body decoded. */
    method DecodeBody(body: string) returns (err: int)
      requires |body| < OBJECT_MAX
      modifies `responseBody, `responseSize
      ensures err == match Decode(body)
        case Ok(_) => 0
        case Err(_) => -1
        case Overrun => OVERRUN
        case Endless => ENDLESS
      ensures err == 0 ==> Holds(Decode(body).data)
      ensures err != 0 ==> responseBody == old(responseBody) && responseSize == old(responseSize)
    {
      hide Decode, Roomy;
      var d, out, n := DecodeChunked(body);
      if d == OVERRUN || d == ENDLESS { return d; }
      if d != 0 { return -1; }
      HasRoom(out.Length, n);
      responseBody, responseSize := out, n;
      return 0;
    }

    /**
     * `receive_response`, for the segments that recv returns until the peer closes (closed) or recv
     * fails. Only the bytes count, not how they are cut into segments.
     */
    method ReceiveResponse(segments: seq<string>, closed: bool) returns (err: int)
      requires forall i :: 0 <= i < |segments| ==> 0 < |segments[i]| < BUFFER_SIZE
      modifies this
      ensures err == match Receive(segments, closed)
        case Received(_, _) => 0
        case Failed => -1
        case Overran => OVERRUN
        case Stuck => ENDLESS
      ensures err == 0 ==> statusCode == Receive(segments, closed).status && Holds(Receive(segments, closed).body)
      ensures err != 0 ==> responseBody == old(responseBody) && responseSize == old(responseSize)
      ensures !closed || segments == [] ==> statusCode == old(statusCode)
    {
      hide Decode, Strstr, Occurs, ParseHead, Concat, Holds;
      var ok, full := Assemble(segments);
      if !ok || !closed || full == "" { return -1; }
      var e, status, _, chunked, _ := ParseHeaders(full);
      statusCode := status;
      if e != 0 { return -1; }
      var start := Strstr(full, 0, CRLF2);
      if start.None? { return -1; }
      var body := full[start.value + 4..];
      if chunked {
        err := DecodeBody(body);
      } else {
        KeepBody(body);
        err := 0;
      }
    }
  }
}
