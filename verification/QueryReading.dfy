/**
 * What a server makes of the targets that src/api/weather_client.cpp asks for: the path before the
 * question mark, and behind it the fields of a form (section 5 of the URL Standard), read from what
 * `send_request` of src/network/http_client.c puts on the wire.
 */
module QueryReading {
  import opened Base
  import opened RequestReading
  import Q = WeatherQueries
  import R = Url
  import U = Utils
  import G = HttpGet

  /** The pieces between the separators. */
  function Split(s: string, sep: char): seq<string> {
    var n := R.Until(s, 0, sep, sep);
    if n == |s| then [s] else [s[..n]] + Split(s[n + 1..], sep)
  }

  /** A name and the value behind the first '='; None when that does not decode. */
  datatype Field = Field(name: string, value: Option<string>)

  function ReadField(piece: string): Field {
    var n := R.Until(piece, 0, '=', '=');
    if n == |piece| then Field(piece, Some("")) else Field(piece[..n], U.FormDecode(piece[n + 1..]))
  }

  function ReadFields(pieces: seq<string>): seq<Field> {
    if pieces == [] then [] else [ReadField(pieces[0])] + ReadFields(pieces[1..])
  }

  datatype Target = Target(path: string, fields: seq<Field>)

  function ReadTarget(s: string): Target {
    var n := R.Until(s, 0, '?', '?');
    if n == |s| then Target(s, []) else Target(s[..n], ReadFields(Split(s[n + 1..], '&')))
  }

  // ----- reading what is written -----

  predicate Lacks(s: string, c: char) {
    forall i :: 0 <= i < |s| ==> s[i] != c
  }

  lemma FoundAt(a: string, c: char, t: string)
    requires Lacks(a, c)
    ensures R.Until(a + [c] + t, 0, c, c) == |a| && (a + [c] + t)[..|a|] == a && (a + [c] + t)[|a| + 1..] == t
  {
    R.UntilIs(a + [c] + t, 0, |a|, c, c);
  }

  lemma FoundNowhere(a: string, c: char)
    requires Lacks(a, c)
    ensures R.Until(a, 0, c, c) == |a|
  {
    R.UntilIs(a, 0, |a|, c, c);
  }

  function Behind(pieces: seq<string>): string {
    if pieces == [] then "" else "&" + pieces[0] + Behind(pieces[1..])
  }

  lemma {:induction false} SplitWritten(a: string, more: seq<string>)
    requires Lacks(a, '&') && forall i :: 0 <= i < |more| ==> Lacks(more[i], '&')
    ensures Split(a + Behind(more), '&') == [a] + more
    decreases |more|
  {
    hide Lacks;
    if more == [] {
      FoundNowhere(a, '&');
      assert a + Behind(more) == a;
    } else {
      var t := more[0] + Behind(more[1..]);
      assert a + Behind(more) == a + ['&'] + t;
      FoundAt(a, '&', t);
      SplitWritten(more[0], more[1..]);
      assert [more[0]] + more[1..] == more;
    }
  }

  /** A name, '=' and an encoded value: no '&' in it, and it reads as that field. */
  lemma WrittenField(name: string, value: string)
    requires Lacks(name, '=') && Lacks(name, '&') && U.IsCString(value)
    ensures var piece := name + "=" + U.Encoded(value);
      Lacks(piece, '&') && ReadField(piece) == Field(name, Some(value))
  {
    U.EncodedIsSafe(value);
    U.FormRoundTrip(value);
    hide U.Encoded, U.FormDecode;
    var e := U.Encoded(value);
    FoundAt(name, '=', e);
    forall i | 0 <= i < |name + "=" + e|
      ensures (name + "=" + e)[i] != '&'
    {
      if i > |name| { assert (name + "=" + e)[i] == e[i - |name| - 1]; }
    }
  }

  /** The fields of a request: those that are given, in this order. */
  function Given(name: string, value: Option<string>): seq<Field> {
    if value == None || value == Some("") then [] else [Field(name, value)]
  }

  function Piece(name: string, value: Option<string>): seq<string>
    requires value.Some? ==> U.IsCString(value.value)
  {
    if value == None || value == Some("") then [] else [name + "=" + U.Encoded(value.value)]
  }

  lemma PieceRead(name: string, value: Option<string>)
    requires Lacks(name, '=') && Lacks(name, '&') && (value.Some? ==> U.IsCString(value.value))
    ensures var ps := Piece(name, value);
      |ps| <= 1 && (forall i :: 0 <= i < |ps| ==> Lacks(ps[i], '&')) && ReadFields(ps) == Given(name, value)
      && Behind(ps) == Q.Parameter("&" + name + "=", value)
  {
    hide U.Encoded, ReadField, Lacks;
    if value != None && value != Some("") {
      WrittenField(name, value.value);
      var p := name + "=" + U.Encoded(value.value);
      assert Piece(name, value) == [p] && [p][1..] == [];
      assert "&" + p + "" == "&" + name + "=" + U.Encoded(value.value);
    }
  }

  lemma {:induction false} ReadFieldsConcat(ps: seq<string>, qs: seq<string>)
    ensures ReadFields(ps + qs) == ReadFields(ps) + ReadFields(qs)
  {
    if ps == [] {
      assert ps + qs == qs;
    } else {
      assert (ps + qs)[1..] == ps[1..] + qs;
      ReadFieldsConcat(ps[1..], qs);
    }
  }

  lemma {:induction false} BehindConcat(ps: seq<string>, qs: seq<string>)
    ensures Behind(ps + qs) == Behind(ps) + Behind(qs)
  {
    if ps == [] {
      assert ps + qs == qs;
    } else {
      assert (ps + qs)[1..] == ps[1..] + qs;
      BehindConcat(ps[1..], qs);
    }
  }

  lemma TargetRead(path: string, piece: string, more: seq<string>)
    requires Lacks(path, '?') && Lacks(piece, '&') && forall i :: 0 <= i < |more| ==> Lacks(more[i], '&')
    ensures ReadTarget(path + "?" + (piece + Behind(more))) == Target(path, [ReadField(piece)] + ReadFields(more))
  {
    hide Lacks, Split, ReadField, Behind;
    FoundAt(path, '?', piece + Behind(more));
    SplitWritten(piece, more);
    assert ([piece] + more)[0] == piece && ([piece] + more)[1..] == more;
  }

  lemma Names()
    ensures Lacks("/v1/weather", '?') && Lacks("/v1/cities", '?')
    ensures forall name :: name in ["city", "country", "region", "query"] ==> Lacks(name, '=') && Lacks(name, '&')
    ensures "&" + "country" + "=" == Q.COUNTRY && "&" + "region" + "=" == Q.REGION
    ensures Q.CITY_PATH == "/v1/weather" + "?" + ("city" + "=") && Q.SEARCH_PATH == "/v1/cities" + "?" + ("query" + "=")
  {
  }

  lemma Regroup(a: string, b: string, c: string, d: string, e: string, f: string)
    ensures (a + b + c) + d + e + f == a + b + (c + d + (e + f))
  {
  }

  /**
   * For all texts: a server reads the path of `getWeatherByCity` as "/v1/weather" and a form with the
   * city, then the country and the region where they are given and not empty, each with its value.
   */
  lemma CityTargetIsRead(city: string, country: Option<string>, region: Option<string>)
    requires Q.Texts(city, country, region)
    ensures ReadTarget(Q.CityPath(city, country, region)) ==
      Target("/v1/weather", [Field("city", Some(city))] + Given("country", country) + Given("region", region))
  {
    Names();
    hide U.Encoded, ReadField, Lacks, ReadTarget, ReadFields, Behind, Piece, Q.Parameter, Given;
    var first, ps, qs := "city" + "=" + U.Encoded(city), Piece("country", country), Piece("region", region);
    assert "city" in ["city", "country", "region", "query"];
    assert "country" in ["city", "country", "region", "query"] && "region" in ["city", "country", "region", "query"];
    WrittenField("city", city);
    PieceRead("country", country);
    PieceRead("region", region);
    BehindConcat(ps, qs);
    ReadFieldsConcat(ps, qs);
    TargetRead("/v1/weather", first, ps + qs);
    Regroup("/v1/weather", "?", "city" + "=", U.Encoded(city), Behind(ps), Behind(qs));
    assert [Field("city", Some(city))] + Given("country", country) + Given("region", region)
        == [Field("city", Some(city))] + (Given("country", country) + Given("region", region));
  }

  /** And that of `searchCities` as "/v1/cities" with the query. */
  lemma SearchTargetIsRead(query: string)
    requires U.IsCString(query)
    ensures ReadTarget(Q.SearchPath(query)) == Target("/v1/cities", [Field("query", Some(query))])
  {
    hide U.Encoded, ReadField, Lacks, ReadTarget, U.IsCString;
    Names();
    var piece := "query" + "=" + U.Encoded(query);
    assert "query" in ["city", "country", "region", "query"];
    WrittenField("query", query);
    OneField("/v1/cities", piece);
    Regroup3("/v1/cities", "?", "query" + "=", U.Encoded(query));
  }

  lemma OneField(path: string, piece: string)
    requires Lacks(path, '?') && Lacks(piece, '&')
    ensures ReadTarget(path + "?" + piece) == Target(path, [ReadField(piece)])
  {
    hide ReadField, Lacks, ReadTarget;
    TargetRead(path, piece, []);
    assert piece + Behind([]) == piece && [ReadField(piece)] + ReadFields([]) == [ReadField(piece)];
  }

  lemma Regroup3(a: string, b: string, c: string, d: string)
    ensures (a + b + c) + d == a + b + (c + d)
  {
  }

  // ----- what arrives at the server -----

  predicate OneLine(s: string) {
    NoCr(s) && NoBlank(s)
  }

  lemma EncodedOneLine(s: string)
    requires U.IsCString(s)
    ensures OneLine(U.Encoded(s))
  {
    U.EncodedIsSafe(s);
    hide U.Encoded;
    assert forall i :: 0 <= i < |U.Encoded(s)| ==> U.Encoded(s)[i] != '\r' && U.Encoded(s)[i] != ' ';
  }

  lemma OneLineConcat(s: string, t: string)
    requires OneLine(s) && OneLine(t)
    ensures OneLine(s + t)
  {
  }

  lemma ParameterOneLine(name: string, value: Option<string>)
    requires OneLine(name) && (value.Some? ==> U.IsCString(value.value))
    ensures OneLine(Q.Parameter(name, value))
  {
    hide U.Encoded;
    if value.Some? {
      EncodedOneLine(value.value);
      OneLineConcat(name, U.Encoded(value.value));
    }
  }

  lemma PathsOneLine()
    ensures OneLine(Q.CITY_PATH) && OneLine(Q.SEARCH_PATH) && OneLine(Q.COUNTRY) && OneLine(Q.REGION)
  {
  }

  lemma CityPathOneLine(city: string, country: Option<string>, region: Option<string>)
    requires Q.Texts(city, country, region)
    ensures OneLine(Q.CityPath(city, country, region))
  {
    PathsOneLine();
    EncodedOneLine(city);
    ParameterOneLine(Q.COUNTRY, country);
    ParameterOneLine(Q.REGION, region);
    hide U.Encoded, OneLine, Q.Parameter;
    OneLineConcat(Q.CITY_PATH, U.Encoded(city));
    OneLineConcat(Q.CITY_PATH + U.Encoded(city), Q.Parameter(Q.COUNTRY, country));
    OneLineConcat(Q.CITY_PATH + U.Encoded(city) + Q.Parameter(Q.COUNTRY, country), Q.Parameter(Q.REGION, region));
  }

  lemma SearchPathOneLine(query: string)
    requires U.IsCString(query)
    ensures OneLine(Q.SearchPath(query))
  {
    PathsOneLine();
    EncodedOneLine(query);
    hide U.Encoded, OneLine;
    OneLineConcat(Q.SEARCH_PATH, U.Encoded(query));
  }

  /** The text that `http_client_get` sends for a URL that parses. */
  function SentFor(url: string): string
    requires R.ParseUrl(url).Some?
  {
    G.RequestText(R.ParseUrl(url).value.host, R.ParseUrl(url).value.path)
  }

  /** The text is a GET request for this target and host, and nothing else. */
  predicate AsksFor(text: string, host: string, target: Target) {
    match ReadRequest(text)
    case None => false
    case Some(r) =>
      r.name == "GET" && r.version == "HTTP/1.1" && r.host == Some(host) && ReadTarget(r.target) == target
  }

  lemma AskedFor(host: string, port: nat, path: string)
    requires R.HostName(host) && NoCr(host) && OneLine(path)
    requires R.ParseUrl(R.RenderUrl(host, port, path)) == Some(R.Parsed(host, port, path))
    ensures AsksFor(SentFor(R.RenderUrl(host, port, path)), host, ReadTarget(path))
  {
    RequestIsRead(host, path);
    hide R.ParseUrl, R.RenderUrl, ReadRequest, ReadTarget, G.RequestText;
  }

  /**
   * From the arguments of `getWeatherByCity` to the server, for every host name without CR, port and
   * texts whose path fits its buffer: the text sent is a GET request to the host for "/v1/weather",
   * whose form holds the city, the country and the region that were asked for.
   */
  lemma CityRequestIsRead(host: string, port: nat, city: string, country: Option<string>, region: Option<string>)
    requires R.HostName(host) && NoCr(host) && port <= 65535
    requires Q.Texts(city, country, region) && |Q.CityPath(city, country, region)| <= 511
    ensures var url := R.RenderUrl(host, port, Q.CityPath(city, country, region));
      R.ParseUrl(url).Some? && AsksFor(SentFor(url), host,
        Target("/v1/weather", [Field("city", Some(city))] + Given("country", country) + Given("region", region)))
  {
    hide R.ParseUrl, R.RenderUrl, R.HostName, NoCr, OneLine, Q.CityPath, ReadTarget, AsksFor, SentFor, Given;
    var path := Q.CityPath(city, country, region);
    Q.FullUrlArrives(host, port, city, country, region);
    CityPathOneLine(city, country, region);
    CityTargetIsRead(city, country, region);
    AskedFor(host, port, path);
  }

  /** Of a valid city alone the path always fits. */
  lemma ValidCityIsAsked(host: string, port: nat, city: string)
    requires R.HostName(host) && NoCr(host) && port <= 65535 && U.IsCString(city) && 1 <= |city| <= 100
    ensures var url := R.RenderUrl(host, port, Q.CityPath(city, None, None));
      R.ParseUrl(url).Some? && AsksFor(SentFor(url), host, Target("/v1/weather", [Field("city", Some(city))]))
  {
    hide R.ParseUrl, R.RenderUrl, R.HostName, NoCr, OneLine, Q.CityPath, ReadTarget, AsksFor, SentFor;
    Q.CityUrlArrives(host, port, city);
    CityPathOneLine(city, None, None);
    CityTargetIsRead(city, None, None);
    assert [Field("city", Some(city))] + [] + [] == [Field("city", Some(city))];
    AskedFor(host, port, Q.CityPath(city, None, None));
  }

  /** The same for `searchCities` and a query that fits, which one of up to 164 characters does. */
  lemma SearchRequestIsRead(host: string, port: nat, query: string)
    requires R.HostName(host) && NoCr(host) && port <= 65535
    requires U.IsCString(query) && |Q.SearchPath(query)| <= 511
    ensures var url := R.RenderUrl(host, port, Q.SearchPath(query));
      R.ParseUrl(url).Some? && AsksFor(SentFor(url), host, Target("/v1/cities", [Field("query", Some(query))]))
  {
    hide R.ParseUrl, R.RenderUrl, R.HostName, NoCr, OneLine, Q.SearchPath, ReadTarget, AsksFor, SentFor;
    Q.SearchUrlArrives(host, port, query);
    SearchPathOneLine(query);
    SearchTargetIsRead(query);
    AskedFor(host, port, Q.SearchPath(query));
  }
}
