/** `parse_url` of src/network/http_client.c, and URLs as a client writes them. */
module Url {
  import opened Base
  import H = HttpClient

  const MAX_HOST := 255
  const MAX_PATH := 511

  datatype Parsed = Parsed(host: string, port: int, path: string)

  predicate Starts(s: string, prefix: string) {
    |prefix| <= |s| && s[..|prefix|] == prefix
  }

  /** The first position from i on that holds one of two characters; |s| if there is none. */
  function Until(s: string, i: nat, a: char, b: char): (e: nat)
    requires i <= |s|
    ensures i <= e <= |s| && (e < |s| ==> s[e] == a || s[e] == b)
    ensures forall j :: i <= j < e ==> s[j] != a && s[j] != b
    decreases |s| - i
  {
    if i == |s| || s[i] == a || s[i] == b then i else Until(s, i + 1, a, b)
  }

  lemma {:induction false} UntilIs(s: string, i: nat, e: nat, a: char, b: char)
    requires i <= e <= |s| && (e < |s| ==> s[e] == a || s[e] == b)
    requires forall j :: i <= j < e ==> s[j] != a && s[j] != b
    ensures Until(s, i, a, b) == e
    decreases e - i
  {
    if i < e { UntilIs(s, i + 1, e, a, b); }
  }

  /** atoi: 0 when there are no digits. */
  function Atoi(s: string): int {
    match H.ScanInt(s, 0)
    case Some((n, _)) => n
    case None => 0
  }

  /** Behind the scheme, and the port that goes with it. */
  function Scheme(url: string): (int, nat) {
    if Starts(url, "http://") then (80, 7)
    else if Starts(url, "https://") then (443, 8)
    else (80, 0)
  }

  function Path(url: string, end: nat): string
    requires end <= |url|
  {
    if end < |url| && url[end] == '/' then Cut(url[end..], MAX_PATH) else "/"
  }

  /** What becomes of a path on the way. */
  function PathOf(path: string): string {
    if path == "" then "/" else Cut(path, MAX_PATH)
  }

  /** Port and path, behind a host that ends at end. */
  function AfterHost(url: string, end: nat, host: string, defaultPort: int): Parsed
    requires end <= |url|
  {
    if end < |url| && url[end] == ':' then
      var stop := Until(url, end + 1, '/', '/');
      var digits := url[end + 1..stop];
      Parsed(host, if 0 < |digits| < 16 then Atoi(digits) else defaultPort, Path(url, stop))
    else Parsed(host, defaultPort, Path(url, end))
  }

  function ParseUrl(url: string): Option<Parsed> {
    var (defaultPort, start) := Scheme(url);
    var end := Until(url, start, ':', '/');
    var host := url[start..end];
    if host == "" || |host| > MAX_HOST then None else Some(AfterHost(url, end, host, defaultPort))
  }

  /** The pointer loops of `parse_url`. */
  method ScanUntil(url: string, start: nat, a: char, b: char) returns (end: nat)
    requires start <= |url|
    ensures end == Until(url, start, a, b)
  {
    end := start;
    while end < |url| && url[end] != a && url[end] != b
      invariant start <= end <= |url| && Until(url, start, a, b) == Until(url, end, a, b)
    {
      end := end + 1;
    }
  }

  /** `parse_url`, for non-null arguments. */
  method ParseUrlInPlace(url: string) returns (err: int, host: string, port: int, path: string)
    ensures match ParseUrl(url)
      case None => err == -1
      case Some(p) => err == 0 && p == Parsed(host, port, path)
  {
    hide Until, Atoi, Starts;
    host, port, path := "", 80, "/";
    var start := 0;
    if Starts(url, "http://") {
      StartsFits(url, "http://");
      start := 7;
      port := 80;
    } else if Starts(url, "https://") {
      StartsFits(url, "https://");
      start := 8;
      port := 443;
    }
    var end := ScanUntil(url, start, ':', '/');
    var hostLen := end - start;
    if hostLen == 0 || hostLen > MAX_HOST { return -1, host, port, path; }
    host := url[start..end];
    if end < |url| && url[end] == ':' {
      end := end + 1;
      var portStart := end;
      end := ScanUntil(url, portStart, '/', '/');
      var portLen := end - portStart;
      if portLen > 0 && portLen < 16 { port := Atoi(url[portStart..end]); }
    }
    if end < |url| && url[end] == '/' { path := Cut(url[end..], MAX_PATH); }
    return 0, host, port, path;
  }

  lemma StartsFits(s: string, prefix: string)
    requires Starts(s, prefix)
    ensures |prefix| <= |s|
  {
  }

  // ----- URLs as written -----

  function DecimalString(n: nat): (s: string)
    ensures s != ""
  {
    if n < 10 then ['0' + n as char] else DecimalString(n / 10) + ['0' + (n % 10) as char]
  }

  lemma {:induction false} DecimalRoundTrip(n: nat)
    ensures H.Decimal(DecimalString(n)) == n
    ensures forall i :: 0 <= i < |DecimalString(n)| ==> H.IsDigit(DecimalString(n)[i])
  {
    if n >= 10 {
      DecimalRoundTrip(n / 10);
      assert DecimalString(n)[..|DecimalString(n)| - 1] == DecimalString(n / 10);
    } else {
      assert DecimalString(n)[..0] == "";
    }
  }

  lemma {:induction false} DecimalLength(n: nat, k: nat)
    requires k > 0
    ensures |DecimalString(n)| <= k <==> n < Pow10(k)
  {
    if n >= 10 {
      if k == 1 {
        assert Pow10(0) == 1;
      } else {
        DecimalLength(n / 10, k - 1);
      }
    } else {
      PowersGrow(k);
    }
  }

  lemma {:induction false} PowersGrow(k: nat)
    requires k > 0
    ensures Pow10(k) >= 10
  {
    if k > 1 { PowersGrow(k - 1); }
  }

  lemma FifteenDigits()
    ensures Pow10(15) == 1_000_000_000_000_000
  {
    assert Pow10(3) == 1000 && Pow10(6) == 1000 * Pow10(3);
    assert Pow10(9) == 1000 * Pow10(6) && Pow10(12) == 1000 * Pow10(9) && Pow10(15) == 1000 * Pow10(12);
  }

  function Pow10(k: nat): nat {
    if k == 0 then 1 else 10 * Pow10(k - 1)
  }

  predicate HostName(host: string) {
    1 <= |host| <= 255 && forall i :: 0 <= i < |host| ==> host[i] != ':' && host[i] != '/'
  }

  /** A URL in its parts; no scheme, no port and no path are possible. */
  datatype Protocol = Bare | Http | Https
  datatype Parts = Parts(protocol: Protocol, host: string, port: Option<nat>, path: string) {
    const scheme: string := SchemeText(protocol)
  }

  function SchemeText(p: Protocol): string {
    match p
    case Bare => ""
    case Http => "http://"
    case Https => "https://"
  }

  predicate WellFormed(u: Parts) {
    HostName(u.host) && (u.path != "" ==> u.path[0] == '/')
  }

  function PortText(port: Option<nat>): string {
    if port.Some? then ":" + DecimalString(port.value) else ""
  }

  /** What is written behind the host. */
  function Rest(u: Parts): string {
    PortText(u.port) + u.path
  }

  function Render(u: Parts): string {
    u.scheme + u.host + Rest(u)
  }

  function DefaultPort(p: Protocol): nat {
    if p.Https? then 443 else 80
  }

  /** A port of up to fifteen digits becomes an int, and for a longer one the port of the scheme is taken. */
  function PortOf(u: Parts): int {
    if u.port.Some? && u.port.value < 1_000_000_000_000_000 then H.IntOf(u.port.value) else DefaultPort(u.protocol)
  }

  /** The URL that the client builds for a host, a port and a path. */
  function RenderUrl(host: string, port: nat, path: string): string {
    Render(Parts(Http, host, Some(port), path))
  }

  lemma AtoiOfDecimal(n: nat)
    ensures Atoi(DecimalString(n)) == H.IntOf(n)
  {
    hide H.Decimal;
    var s := DecimalString(n);
    DecimalRoundTrip(n);
    DigitsToEnd(s, 0);
    assert s[0..|s|] == s;
    assert H.IsDigit(s[0]) && H.Blanks(s, 0) == 0;
  }

  lemma {:induction false} DigitsToEnd(s: string, i: nat)
    requires i <= |s| && forall k :: i <= k < |s| ==> H.IsDigit(s[k])
    ensures H.DigitsEnd(s, i) == |s|
    decreases |s| - i
  {
    if i < |s| { DigitsToEnd(s, i + 1); }
  }

  /** Only the scheme written is found; a host is never taken for one. */
  lemma SchemeOf(u: Parts)
    requires WellFormed(u)
    ensures Scheme(Render(u)) == (DefaultPort(u.protocol), |u.scheme|)
  {
    hide DecimalString;
    var url := Render(u);
    if u.protocol.Http? {
      assert url[..7] == u.scheme;
    } else if u.protocol.Https? {
      assert url[..8] == u.scheme && url[4] == 's';
    } else {
      NoScheme(u, "http://", 4);
      NoScheme(u, "https://", 5);
    }
  }

  lemma NoScheme(u: Parts, prefix: string, colon: nat)
    requires WellFormed(u) && u.protocol.Bare?
    requires colon + 2 < |prefix| && prefix[colon] == ':' && prefix[colon + 1] == '/'
    requires forall i :: 0 <= i < colon ==> prefix[i] != ':' && prefix[i] != '/'
    ensures !Starts(Render(u), prefix)
  {
    var url, h := Render(u), |u.host|;
    assert forall i :: 0 <= i < h ==> url[i] == u.host[i];
    if u.port.Some? {
      DecimalRoundTrip(u.port.value);
      assert url[h] == ':' && url[h + 1] == DecimalString(u.port.value)[0];
    } else if u.path != "" {
      assert url[h] == u.path[0];
    }
    StartsMeans(url, prefix);
  }

  lemma StartsMeans(s: string, prefix: string)
    ensures Starts(s, prefix) <==> |prefix| <= |s| && forall i :: 0 <= i < |prefix| ==> s[i] == prefix[i]
  {
    if Starts(s, prefix) { assert forall i :: 0 <= i < |prefix| ==> s[i] == s[..|prefix|][i]; }
  }

  /**
   * Host and port are recovered from every URL rendered from its parts, the port as an int, or the one
   * of the scheme when none is written or it is too long, and the path cut to 511 characters, "/" when
   * there is none: so a path is recovered exactly when it has at most 511.
   */
  lemma ParseRendered(u: Parts)
    requires WellFormed(u)
    ensures ParseUrl(Render(u)) == Some(Parsed(u.host, PortOf(u), PathOf(u.path)))
    ensures u.path != "" ==> (PathOf(u.path) == u.path <==> |u.path| <= 511)
  {
    hide Atoi, Scheme, Until, Render, SchemeText, AfterHost, HostName;
    assert 1 <= |u.host| <= MAX_HOST by { HostLength(u.host); }
    SchemeOf(u);
    HostRead(u, Render(u));
    TailRead(u, Render(u), |u.scheme| + |u.host|);
  }

  lemma HostLength(host: string)
    requires HostName(host)
    ensures 1 <= |host| <= MAX_HOST
  {
  }

  /** The host ends where it was written to end. */
  lemma HostIn(url: string, scheme: string, host: string, rest: string)
    requires HostName(host) && (rest != "" ==> rest[0] == ':' || rest[0] == '/') && url == scheme + host + rest
    ensures url[|scheme|..|scheme| + |host|] == host && Until(url, |scheme|, ':', '/') == |scheme| + |host|
  {
    hide Until;
    var start, end := |scheme|, |scheme| + |host|;
    forall j | start <= j < end
      ensures url[j] != ':' && url[j] != '/'
    {
      assert url[j] == host[j - start];
    }
    assert end < |url| ==> url[end] == rest[0];
    UntilIs(url, start, end, ':', '/');
  }

  lemma RestStart(u: Parts)
    requires WellFormed(u)
    ensures if u.port.Some? then Rest(u) != "" && Rest(u)[0] == ':'
      else Rest(u) == u.path && (u.path != "" ==> u.path[0] == '/')
  {
  }

  lemma HostRead(u: Parts, url: string)
    requires WellFormed(u) && url == Render(u)
    ensures |u.scheme| + |u.host| <= |url| && url[|u.scheme|..|u.scheme| + |u.host|] == u.host
    ensures Until(url, |u.scheme|, ':', '/') == |u.scheme| + |u.host|
  {
    RestStart(u);
    hide Rest, Until, HostName, SchemeText;
    HostIn(url, u.scheme, u.host, Rest(u));
  }

  lemma PathRead(url: string, end: nat, path: string)
    requires end <= |url| && url[end..] == path && (path != "" ==> path[0] == '/')
    ensures Path(url, end) == PathOf(path)
  {
    if end < |url| { assert url[end] == url[end..][0]; }
  }

  /** The port text is read back, and the path starts behind it. */
  lemma PortRead(url: string, end: nat, digits: string, path: string)
    requires end <= |url| && url[end..] == ":" + digits + path && (path != "" ==> path[0] == '/')
    requires forall i :: 0 <= i < |digits| ==> H.IsDigit(digits[i])
    ensures end < |url| && url[end] == ':'
    ensures var stop := Until(url, end + 1, '/', '/');
      stop == end + 1 + |digits| && url[end + 1..stop] == digits && url[stop..] == path
  {
    hide Until;
    var t, stop := url[end..], end + 1 + |digits|;
    assert url[end] == t[0];
    assert t[1..1 + |digits|] == digits && t[1 + |digits|..] == path;
    assert url[end + 1..stop] == t[1..1 + |digits|] && url[stop..] == t[1 + |digits|..];
    forall j | end + 1 <= j < stop
      ensures url[j] != '/'
    {
      assert url[j] == url[end + 1..stop][j - end - 1];
    }
    if stop < |url| { assert url[stop] == url[stop..][0]; }
    UntilIs(url, end + 1, stop, '/', '/');
  }

  lemma TailWithPort(url: string, end: nat, host: string, d: int, digits: string, path: string)
    requires end <= |url| && url[end..] == ":" + digits + path && (path != "" ==> path[0] == '/')
    requires 0 < |digits| && forall i :: 0 <= i < |digits| ==> H.IsDigit(digits[i])
    ensures AfterHost(url, end, host, d) == Parsed(host, if |digits| < 16 then Atoi(digits) else d, PathOf(path))
  {
    PortRead(url, end, digits, path);
    PathRead(url, end + 1 + |digits|, path);
    hide Atoi, Until, Path, PathOf;
  }

  lemma TailWithoutPort(url: string, end: nat, host: string, d: int, path: string)
    requires end <= |url| && url[end..] == path && (path != "" ==> path[0] == '/')
    ensures AfterHost(url, end, host, d) == Parsed(host, d, PathOf(path))
  {
    if end < |url| { assert url[end] == url[end..][0]; }
    PathRead(url, end, path);
    hide Atoi, Until, Path, PathOf;
  }

  /** Behind the host, port and path are read back. */
  lemma TailRead(u: Parts, url: string, end: nat)
    requires WellFormed(u) && url == Render(u) && end == |u.scheme| + |u.host| <= |url|
    ensures AfterHost(url, end, u.host, DefaultPort(u.protocol)) ==
      Parsed(u.host, PortOf(u), PathOf(u.path))
  {
    hide AfterHost, Atoi, SchemeText, HostName, DecimalString, PathOf;
    assert url[end..] == Rest(u);
    RestStart(u);
    if u.port.Some? {
      var n := u.port.value;
      AtoiOfDecimal(n);
      DecimalRoundTrip(n);
      DecimalLength(n, 15);
      FifteenDigits();
      TailWithPort(url, end, u.host, DefaultPort(u.protocol), DecimalString(n), u.path);
    } else {
      TailWithoutPort(url, end, u.host, DefaultPort(u.protocol), u.path);
    }
  }
}
