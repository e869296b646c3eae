/**
 * The way of one answer through the whole client: the request out, the response in, the JSON value to
 * the caller, and the cache after that.
 */
module WholeWay {
  import opened Base
  import opened CacheSpec
  import opened CacheRuns
  import opened Chunked
  import opened ChunkedCoding
  import opened HttpClient
  import opened HttpResponse
  import opened HttpGet
  import R = Url
  import Q = WeatherQueries
  import A = QueryReading
  import S = RequestReading
  import U = Utils
  import W = WeatherClient

  /** What a C string function sees of a body. */
  function CText(s: string): (r: string)
    ensures |r| <= |s| && r == s[..|r|] && (|r| < |s| ==> s[|r|] == '\0')
    ensures forall i :: 0 <= i < |r| ==> r[i] != '\0'
  {
    if s == "" || s[0] == '\0' then "" else [s[0]] + CText(s[1..])
  }

  /** What `makeRequest` has in hand after `http_client_get`; None when that read past its input or did not end. */
  function ReplyOf(url: string, segments: seq<string>, closed: bool): Option<W.Reply> {
    if R.ParseUrl(url).None? then Some(W.NoAnswer) else
      match Receive(segments, closed)
      case Received(status, body) => Some(if 200 <= status < 600 then W.Body(CText(body)) else W.NoAnswer)
      case Failed => Some(W.NoAnswer)
      case _ => None
  }

  /** The response carries the text as its body, or in chunks that its header announces. */
  ghost predicate Carries(r: Response, text: string) {
    || (text == r.body && forall i :: 0 <= i < |r.headers| ==> !IsTransferEncoding(r.headers[i]))
    || exists h: nat, k: nat, ps, size, ext, rest :: InChunks(r, text, h, k, ps, size, ext, rest)
  }

  ghost predicate InChunks(r: Response, text: string, h: nat, k: nat, ps: seq<Piece>,
    size: string, ext: string, rest: string) {
    && h < |r.headers| && IsTransferEncoding(r.headers[h]) && Occurs(r.headers[h], k, "chunked")
    && AllValid(ps) && Announces(size, ext, 0) && r.body == EncodeAll(ps) + ZeroLine(size, ext) + rest
    && text == Payload(ps)
  }

  /** The segments are this response, cut in any way, and memory can hold it. */
  predicate Sent(r: Response, segments: seq<string>) {
    Concat(segments) == Render(r) && |Render(r)| < OBJECT_MAX
  }

  /** Whatever the framing and whatever the segments, the text arrives. */
  lemma CarriedArrives(r: Response, text: string, segments: seq<string>)
    requires WellFormed(r) && Carries(r, text) && Sent(r, segments)
    ensures Receive(segments, true) == Received(StatusOf(r), text)
  {
    hide ParseResponse, Render, Occurs, IsTransferEncoding, StatusOf;
    if h: nat, k: nat, ps, size, ext, rest :| InChunks(r, text, h, k, ps, size, ext, rest) {
      ChunkedBody(r, h, k, ps, size, ext, rest);
    } else {
      IdentityBody(r);
    }
  }

  lemma NoNul(s: string)
    requires forall i :: 0 <= i < |s| ==> s[i] != '\0'
    ensures CText(s) == s
  {
    assert s[..|s|] == s;
  }

  lemma ReplyArrives(url: string, r: Response, text: string, segments: seq<string>)
    requires R.ParseUrl(url).Some? && WellFormed(r) && Carries(r, text) && 200 <= StatusOf(r) < 600
    requires Sent(r, segments) && forall i :: 0 <= i < |text| ==> text[i] != '\0'
    ensures ReplyOf(url, segments, true) == Some(W.Body(text))
  {
    hide R.ParseUrl, WellFormed, Carries, StatusOf, Receive, CText, Sent;
    CarriedArrives(r, text, segments);
    NoNul(text);
  }

  lemma MissIsAnswered(env: Env, c: Cache, key: string, t: W.Times, text: string)
    requires env.Parses(text) && !W.SaysFailure(env.parse(text).value) && !W.Answerable(env, c, key, t)
    ensures W.MakeRequest(env, c, key, t, W.Body(text)).1 == W.Answer(env.parse(text).value)
  {
    W.ApiErrorExactly(env.parse(text).value);
    hide Get, Set;
  }

  /** The caller gets the value of the text, and gets it again without the server. */
  ghost predicate AnsweredTwice(env: Env, c: Cache, key: string, t: W.Times, text: string,
    later: W.Times, other: W.Reply)
    requires env.Parses(text)
  {
    var (c', outcome) := W.MakeRequest(env, c, key, t, W.Body(text));
    outcome == W.Answer(env.parse(text).value) && W.MakeRequest(env, c', key, later, other) == (c', outcome)
  }

  /** A request in a session that the cache cannot answer, and another one within ttl seconds of the answer. */
  ghost predicate TwoRequests(env: Env, s: W.Session, calls: seq<W.Call>, key: string, d: W.Delays, later: W.Times) {
    var r := W.Converse(env, s, calls);
    var t := W.TimesFrom(r.now, d);
    W.Opened(s) && !W.Answerable(env, r.cache, key, t) && t.stored <= later.asked <= t.stored + s.cache.ttl
  }

  lemma MissIsAnsweredTwice(env: Env, s: W.Session, calls: seq<W.Call>, key: string, d: W.Delays, text: string,
                            later: W.Times, other: W.Reply)
    requires env.Parses(text) && !W.SaysFailure(env.parse(text).value) && TwoRequests(env, s, calls, key, d, later)
    ensures var r := W.Converse(env, s, calls);
      AnsweredTwice(env, r.cache, key, W.TimesFrom(r.now, d), text, later, other)
  {
    hide W.MakeRequest, W.Answerable, W.SaysFailure, W.Converse;
    var r := W.Converse(env, s, calls);
    MissIsAnswered(env, r.cache, key, W.TimesFrom(r.now, d), text);
    W.AnswerIsKept(env, s, calls, key, d, W.Body(text), later, other);
  }

  /**
   * The whole way, for every session, every valid city, every server, every well-formed response that
   * carries a JSON text without an error, and every segmentation: the text sent to a host without CR is
   * read there as a GET request for "/v1/weather" with the city as its one field, the caller gets the
   * value of the text, and for ttl seconds gets it again without the server.
   */
  lemma CityAnswerArrives(env: Env, s: W.Session, calls: seq<W.Call>, d: W.Delays, host: string, port: nat,
    city: string,
                          r: Response, text: string, segments: seq<string>, later: W.Times, other: W.Reply)
    requires R.HostName(host) && port <= 65535 && U.IsCString(city) && 1 <= |city| <= 100
    requires WellFormed(r) && Carries(r, text) && 200 <= StatusOf(r) < 600 && Sent(r, segments)
    requires (forall i :: 0 <= i < |text| ==> text[i] != '\0')
    requires env.Parses(text) && !W.SaysFailure(env.parse(text).value)
    requires TwoRequests(env, s, calls, Q.CityKey(city, None, None), d, later)
    ensures var path := Q.CityPath(city, None, None);
      var url := R.RenderUrl(host, port, path);
      && R.ParseUrl(url) == Some(R.Parsed(host, port, path))
      && 17 <= |path| && U.FormDecode(path[17..]) == Some(city)
      && (S.NoCr(host) ==> A.AsksFor(A.SentFor(url), host, A.Target("/v1/weather", [A.Field("city", Some(city))])))
      && ReplyOf(url, segments, true) == Some(W.Body(text))
    ensures var now := W.Converse(env, s, calls);
      AnsweredTwice(env, now.cache, Q.CityKey(city, None, None), W.TimesFrom(now.now, d), text, later, other)
  {
    hide R.ParseUrl, R.RenderUrl, R.HostName, Q.CityKey, Q.CityPath, U.FormDecode, U.IsCString, U.ValidCity;
    hide A.AsksFor, A.SentFor, S.NoCr;
    hide Carries, StatusOf, WellFormed, Sent, ReplyOf, AnsweredTwice, TwoRequests;
    hide W.SaysFailure, W.Converse, Env.Parses;
    var path := Q.CityPath(city, None, None);
    Q.CityUrlArrives(host, port, city);
    if S.NoCr(host) { A.ValidCityIsAsked(host, port, city); }
    ReplyArrives(R.RenderUrl(host, port, path), r, text, segments);
    MissIsAnsweredTwice(env, s, calls, Q.CityKey(city, None, None), d, text, later, other);
  }

  /**
   * A page that reports a failure with a code from 400 to 599, in JSON without "success": false, is
   * an answer like any other, and cached.
   */
  lemma FailurePageIsCached(env: Env, s: W.Session, calls: seq<W.Call>, d: W.Delays, url: string, key: string,
                            r: Response, text: string, segments: seq<string>, later: W.Times, other: W.Reply)
    requires R.ParseUrl(url).Some? && WellFormed(r) && Carries(r, text) && 400 <= StatusOf(r) < 600
    requires Sent(r, segments) && forall i :: 0 <= i < |text| ==> text[i] != '\0'
    requires env.Parses(text) && !W.SaysFailure(env.parse(text).value) && TwoRequests(env, s, calls, key, d, later)
    ensures ReplyOf(url, segments, true) == Some(W.Body(text))
    ensures var now := W.Converse(env, s, calls);
      AnsweredTwice(env, now.cache, key, W.TimesFrom(now.now, d), text, later, other)
  {
    hide R.ParseUrl, Carries, StatusOf, WellFormed, Sent, ReplyOf, AnsweredTwice, TwoRequests;
    hide W.SaysFailure, W.Converse, Env.Parses;
    ReplyArrives(url, r, text, segments);
    MissIsAnsweredTwice(env, s, calls, key, d, text, later, other);
  }
}
