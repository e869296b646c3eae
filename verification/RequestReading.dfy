/**
 * What a server makes of the request that `send_request` of src/network/http_client.c formats: a
 * reader of request heads (section 3 of RFC 9112), and what it reads in the text.
 */
module RequestReading {
  import opened Base
  import opened Chunked
  import opened ChunkedCoding
  import opened HttpResponse
  import G = HttpGet
  import R = Url

  /** The lines from position i on up to an empty one, which must be the last. */
  function HeadLines(s: string, i: nat): Option<seq<string>>
    requires i <= |s|
    decreases |s| - i
  {
    var e := LineEnd(s, i);
    if e == |s| then None
    else if e == i then (if e + 2 == |s| then Some([]) else None)
    else
      match HeadLines(s, e + 2)
      case None => None
      case Some(more) => Some([s[i..e]] + more)
  }

  /** Method, target and version from the first line, at its blanks; the first Host among the others. */
  datatype Request = Request(name: string, target: string, version: string, host: Option<string>)

  function HostOf(lines: seq<string>): Option<string> {
    if lines == [] then None
    else if |lines[0]| >= 6 && lines[0][..6] == "Host: " then Some(lines[0][6..])
    else HostOf(lines[1..])
  }

  function ReadLine(line: string, more: seq<string>): Option<Request> {
    var a := R.Until(line, 0, ' ', ' ');
    if a == |line| then None else
      var b := R.Until(line, a + 1, ' ', ' ');
      if b == |line| then None else Some(Request(line[..a], line[a + 1..b], line[b + 1..], HostOf(more)))
  }

  function ReadRequest(s: string): Option<Request> {
    match HeadLines(s, 0)
    case None => None
    case Some(lines) => if lines == [] then None else ReadLine(lines[0], lines[1..])
  }

  // ----- reading what is written -----

  predicate NoCr(s: string) {
    forall i :: 0 <= i < |s| ==> s[i] != '\r'
  }

  predicate NoBlank(s: string) {
    forall i :: 0 <= i < |s| ==> s[i] != ' '
  }

  lemma LineRead(pre: string, line: string, t: string)
    requires NoCr(line)
    ensures LineEnd(pre + (line + CRLF + t), |pre|) == |pre| + |line|
  {
    var s := pre + (line + CRLF + t);
    forall j | |pre| <= j < |pre| + |line|
      ensures !CrlfAt(s, j)
    {
      assert s[j] == line[j - |pre|];
    }
    assert s[|pre| + |line|] == '\r' && s[|pre| + |line| + 1] == '\n';
    LineIs(s, |pre|, |pre| + |line|);
  }

  lemma HeadStep(s: string, i: nat, e: nat)
    requires i < e <= |s| && LineEnd(s, i) == e && e + 2 <= |s|
    ensures HeadLines(s, i) == match HeadLines(s, e + 2) case None => None case Some(more) => Some([s[i..e]] + more)
  {
    hide LineEnd;
  }

  lemma HeadEnd(s: string, i: nat)
    requires i + 2 == |s| && LineEnd(s, i) == i
    ensures HeadLines(s, i) == Some([])
  {
    hide LineEnd;
  }

  /** Lines that are written are read. */
  lemma {:induction false} HeadLinesOf(pre: string, ls: seq<string>)
    requires forall i :: 0 <= i < |ls| ==> ls[i] != "" && NoCr(ls[i])
    ensures HeadLines(pre + (Lines(ls) + CRLF), |pre|) == Some(ls)
    decreases |ls|
  {
    hide LineEnd, NoCr, HeadLines;
    if ls == [] {
      assert Lines(ls) + CRLF == "" + CRLF + "";
      EmptyLine();
      LineRead(pre, "", "");
      HeadEnd(pre + (Lines(ls) + CRLF), |pre|);
    } else {
      var line, t := ls[0], Lines(ls[1..]) + CRLF;
      assert Lines(ls) + CRLF == line + CRLF + t;
      hide Lines;
      var s, next := pre + (line + CRLF + t), pre + line + CRLF;
      LineRead(pre, line, t);
      assert s == next + t && |next| == |pre| + |line| + 2;
      assert s[|pre|..|pre| + |line|] == line;
      HeadStep(s, |pre|, |pre| + |line|);
      HeadLinesOf(next, ls[1..]);
      assert [line] + ls[1..] == ls;
    }
  }

  lemma EmptyLine()
    ensures NoCr("")
  {
  }

  lemma FirstLineRead(target: string, more: seq<string>)
    requires NoBlank(target)
    ensures ReadLine("GET " + target + " HTTP/1.1", more) == Some(Request("GET", target, "HTTP/1.1", HostOf(more)))
  {
    var line := "GET " + target + " HTTP/1.1";
    R.UntilIs(line, 0, 3, ' ', ' ');
    forall j | 4 <= j < 4 + |target|
      ensures line[j] != ' '
    {
      assert line[j] == target[j - 4];
    }
    R.UntilIs(line, 4, 4 + |target|, ' ', ' ');
    assert line[..3] == "GET" && line[4..4 + |target|] == target && line[4 + |target| + 1..] == "HTTP/1.1";
  }

  lemma HostRead(host: string, more: seq<string>)
    ensures HostOf(["Host: " + host] + more) == Some(host)
  {
    var line := "Host: " + host;
    assert line[..6] == "Host: " && line[6..] == host;
  }

  /**
   * For every path without blank and CR and every host without CR: a server reads the path as the
   * target of a GET request of HTTP/1.1, and the host as the host, and the text is the whole request.
   */
  lemma RequestIsRead(host: string, path: string)
    requires NoCr(path) && NoBlank(path) && NoCr(host)
    ensures ReadRequest(G.RequestText(host, path)) == Some(Request("GET", path, "HTTP/1.1", Some(host)))
  {
    var line, more := "GET " + path + " HTTP/1.1", Headers(host);
    TextIsLines(host, path);
    LinesAreText(host, path);
    hide G.RequestText, HostOf, ReadLine, HeadLines, Lines, NoCr, NoBlank, Headers;
    assert "" + (Lines([line] + more) + CRLF) == Lines([line] + more) + CRLF;
    HeadLinesOf("", [line] + more);
    FirstLineRead(path, more);
    HeadersHost(host);
    assert ([line] + more)[1..] == more;
  }

  function Headers(host: string): seq<string> {
    ["Host: " + host] + ["User-Agent: just-weather-client/1.0", "Accept: application/json", "Connection: close"]
  }

  lemma HeadersHost(host: string)
    ensures HostOf(Headers(host)) == Some(host)
  {
    HostRead(host, ["User-Agent: just-weather-client/1.0", "Accept: application/json", "Connection: close"]);
  }

  lemma LinesAreText(host: string, path: string)
    requires NoCr(path) && NoCr(host)
    ensures var ls := ["GET " + path + " HTTP/1.1"] + Headers(host);
      forall i :: 0 <= i < |ls| ==> ls[i] != "" && NoCr(ls[i])
  {
  }

  lemma TextIsLines(host: string, path: string)
    ensures G.RequestText(host, path) == Lines(["GET " + path + " HTTP/1.1"] + Headers(host)) + CRLF
  {
    var a, b, c := "User-Agent: just-weather-client/1.0", "Accept: application/json", "Connection: close";
    LinesOne(a, [b, c]);
    LinesOne(b, [c]);
    LinesOne(c, []);
    LinesOne("Host: " + host, [a, b, c]);
    LinesOne("GET " + path + " HTTP/1.1", Headers(host));
    TextPieces(path, host);
  }

  lemma LinesOne(line: string, ls: seq<string>)
    ensures Lines([line] + ls) == line + CRLF + Lines(ls)
  {
    assert ([line] + ls)[1..] == ls;
  }

  lemma TextPieces(path: string, host: string)
    ensures G.RequestText(host, path) ==
      (("GET " + path + " HTTP/1.1") + CRLF + (("Host: " + host) + CRLF
        + ("User-Agent: just-weather-client/1.0" + CRLF + ("Accept: application/json" + CRLF
        + ("Connection: close" + CRLF + Lines([])))))) + CRLF
  {
    var a, b, c := "User-Agent: just-weather-client/1.0", "Accept: application/json", "Connection: close";
    LineTexts();
    Pieces("GET ", path, " HTTP/1.1", CRLF, "Host: ", host, a, b, c);
  }

  lemma LineTexts()
    ensures " HTTP/1.1\r\n" == " HTTP/1.1" + CRLF
    ensures "User-Agent: just-weather-client/1.0\r\n" == "User-Agent: just-weather-client/1.0" + CRLF
    ensures "Accept: application/json\r\n" == "Accept: application/json" + CRLF
    ensures "Connection: close\r\n" == "Connection: close" + CRLF
  {
  }

  lemma Pieces(get: string, p: string, v: string, n: string, h: string, host: string, a: string, b: string, c: string)
    ensures get + p + (v + n) + h + host + n + (a + n) + (b + n) + (c + n) + n
      == ((get + p + v) + n + ((h + host) + n + (a + n + (b + n + (c + n + []))))) + n
  {
  }
}
