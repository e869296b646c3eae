/** `http_client_get` of src/network/http_client.c: the URL, the request sent, the response received. */
module HttpGet {
  import opened Base
  import opened Chunked
  import opened HttpClient
  import R = Url

  const REQUEST_SIZE := 2048

  /** The request that `send_request` formats. */
  function RequestText(host: string, path: string): string {
    "GET " + path + " HTTP/1.1\r\n"
    + "Host: " + host + "\r\n"
    + "User-Agent: just-weather-client/1.0\r\n"
    + "Accept: application/json\r\n"
    + "Connection: close\r\n"
    + "\r\n"
  }

  /** Host and path of every URL that parses fit their buffers, so the request fits its own. */
  lemma RequestFits(url: string)
    ensures R.ParseUrl(url).Some? ==>
      var p := R.ParseUrl(url).value;
      1 <= |p.host| <= 255 && 1 <= |p.path| <= 511 && |RequestText(p.host, p.path)| < 2048
  {
    hide R.Until, R.Atoi, R.Starts;
  }

  /**
   * `http_client_get`; whether connecting and sending succeed, and what arrives, is given. The text
   * sent is the request, "" when none is. Success is a response that is received and whose status is
   * no failure; the codes 400 to 599 are none.
   */
  method Fetch(client: HttpClient, url: string, connects: bool, sends: bool, segments: seq<string>, closed: bool)
    returns (err: int, sent: string)
    requires forall i :: 0 <= i < |segments| ==> 0 < |segments[i]| < BUFFER_SIZE
    modifies client
    ensures R.ParseUrl(url).None? || !connects || !sends ==> err == -1
    ensures R.ParseUrl(url).Some? && connects && sends ==>
      err == match Receive(segments, closed)
        case Received(status, _) => if 200 <= status < 600 then 0 else -1
        case Failed => -1
        case Overran => OVERRUN
        case Stuck => ENDLESS
    ensures err == 0 ==>
      client.statusCode == Receive(segments, closed).status && client.Holds(Receive(segments, closed).body)
    ensures sent == if R.ParseUrl(url).Some? && connects
      then RequestText(R.ParseUrl(url).value.host, R.ParseUrl(url).value.path)
      else ""
  {
    hide Receive, R.ParseUrl;
    sent := "";
    var e, host, _, path := R.ParseUrlInPlace(url);
    if e != 0 { return -1, sent; }
    if !connects { return -1, sent; }
    RequestFits(url);
    sent := RequestText(host, path);
    if |sent| >= REQUEST_SIZE { return -1, ""; }
    if !sends { return -1, sent; }
    err := client.ReceiveResponse(segments, closed);
    if err != 0 { return err, sent; }
    if client.statusCode < 200 || client.statusCode >= 600 { return -1, sent; }
  }
}
