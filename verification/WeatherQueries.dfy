/**
 * The URLs and cache keys of `getWeatherByCity` and `searchCities` in src/api/weather_client.cpp:
 * what reaches the server, which requests differ in their URL, and which share a key.
 */
module WeatherQueries {
  import opened Base
  import U = Utils
  import K = CacheKeys
  import R = Url

  const CITY_PATH := "/v1/weather?city="
  const COUNTRY := "&country="
  const REGION := "&region="
  const KEY_BUFFER := 256

  /** "&country=" or "&region=" and the encoded value, when there is one. */
  function Parameter(name: string, value: Option<string>): string
    requires value.Some? ==> U.IsCString(value.value)
  {
    if value.Some? && value.value != "" then name + U.Encoded(value.value) else ""
  }

  predicate Texts(city: string, country: Option<string>, region: Option<string>) {
    U.IsCString(city) && (country.Some? ==> U.IsCString(country.value)) && (region.Some? ==> U.IsCString(region.value))
  }

  /** The path and query that `getWeatherByCity` asks for. */
  function CityPath(city: string, country: Option<string>, region: Option<string>): string
    requires Texts(city, country, region)
  {
    CITY_PATH + U.Encoded(city) + Parameter(COUNTRY, country) + Parameter(REGION, region)
  }

  function Field(value: Option<string>): string {
    if value.Some? then U.Normalized(value.value, KEY_BUFFER) else ""
  }

  /** The key under which `getWeatherByCity` caches. */
  function CityKey(city: string, country: Option<string>, region: Option<string>): string {
    K.WeatherKey(Field(Some(city)), Field(country), Field(region))
  }

  /** Without country and region the whole URL survives `parse_url`, and its query decodes to the city. */
  lemma CityUrlArrives(host: string, port: nat, city: string)
    requires R.HostName(host) && port <= 65535 && U.IsCString(city) && 1 <= |city| <= 100
    ensures var path := CityPath(city, None, None);
      && 17 <= |path| <= 317 && path[..17] == CITY_PATH && U.FormDecode(path[17..]) == Some(city)
      && R.ParseUrl(R.RenderUrl(host, port, path)) == Some(R.Parsed(host, port, path))
  {
    hide U.Encoded;
    var path := CityPath(city, None, None);
    assert path == CITY_PATH + U.Encoded(city);
    assert |CITY_PATH| == 17 && path[17..] == U.Encoded(city);
    U.FormRoundTrip(city);
    R.ParseRendered(R.Parts(R.Http, host, Some(port), path));
  }

  /** With country and region it survives exactly when it fits the path buffer. */
  lemma FullUrlArrives(host: string, port: nat, city: string, country: Option<string>, region: Option<string>)
    requires R.HostName(host) && port <= 65535 && Texts(city, country, region)
    ensures var path := CityPath(city, country, region);
      R.ParseUrl(R.RenderUrl(host, port, path)) == Some(R.Parsed(host, port, path)) <==> |path| <= R.MAX_PATH
  {
    hide U.Encoded;
    R.ParseRendered(R.Parts(R.Http, host, Some(port), CityPath(city, country, region)));
  }

  /** An absent value and an empty one are the same to the client. */
  function Given(value: Option<string>): string {
    value.GetOr("")
  }

  predicate AmpFree(s: string) {
    forall i :: 0 <= i < |s| ==> s[i] != '&'
  }

  /** The first '&' of s, or its end, is at n. */
  predicate AmpAt(s: string, n: nat) {
    n <= |s| && (n < |s| ==> s[n] == '&') && forall i :: 0 <= i < n ==> s[i] != '&'
  }

  /** Nothing, or something that starts a parameter. */
  predicate AmpStart(s: string) {
    s == "" || s[0] == '&'
  }

  lemma AmpBehind(a: string, t: string)
    requires AmpFree(a) && AmpStart(t)
    ensures AmpAt(a + t, |a|)
  {
  }

  /** Texts without '&' end where the next '&' begins. */
  lemma SplitAtAmp(a: string, t: string, a': string, t': string)
    requires AmpFree(a) && AmpFree(a') && AmpStart(t) && AmpStart(t') && a + t == a' + t'
    ensures a == a' && t == t'
  {
    var s := a + t;
    AmpBehind(a, t);
    AmpBehind(a', t');
    assert |a| == |a'|;
    assert s[..|a|] == a && s[..|a|] == a' && s[|a|..] == t && s[|a|..] == t';
  }

  /** A parameter whose name starts with this letter, or none. */
  predicate IsParameter(p: string, letter: char) {
    p == "" || (|p| >= 2 && p[0] == '&' && p[1] == letter && AmpFree(p[1..]))
  }

  /** Two parameters in a row, either of which may be missing, are told apart by their letters. */
  lemma TwoParameters(p: string, q: string, p': string, q': string, x: char, y: char)
    requires IsParameter(p, x) && IsParameter(q, y) && IsParameter(p', x) && IsParameter(q', y) && x != y
    requires p + q == p' + q'
    ensures p == p' && q == q'
  {
    assert p != "" ==> (p + q)[1] == x;
    assert p' != "" ==> (p' + q')[1] == x;
    assert p == "" ==> p + q == q;
    assert p' == "" ==> p' + q' == q';
    if p != "" && p' != "" {
      assert p[1..] + q == (p + q)[1..] && p'[1..] + q' == (p' + q')[1..];
      SplitAtAmp(p[1..], q, p'[1..], q');
      assert p == ['&'] + p[1..] && p' == ['&'] + p'[1..];
    }
  }

  lemma EncodedAmpFree(s: string)
    requires U.IsCString(s)
    ensures AmpFree(U.Encoded(s)) && (U.Encoded(s) == "" <==> s == "")
  {
    U.EncodedIsSafe(s);
    hide U.Encoded;
    assert forall i :: 0 <= i < |U.Encoded(s)| ==> U.Encoded(s)[i] != '&';
  }

  lemma ParameterForm(name: string, value: Option<string>)
    requires |name| >= 2 && name[0] == '&' && AmpFree(name[1..]) && (value.Some? ==> U.IsCString(value.value))
    ensures IsParameter(Parameter(name, value), name[1]) && AmpStart(Parameter(name, value))
  {
    hide U.Encoded;
    if Given(value) != "" {
      EncodedAmpFree(Given(value));
      assert Parameter(name, value)[1..] == name[1..] + U.Encoded(Given(value));
    }
  }

  /** A parameter tells its value. */
  lemma ParameterTells(name: string, v: Option<string>, v': Option<string>)
    requires name != "" && (v.Some? ==> U.IsCString(v.value)) && (v'.Some? ==> U.IsCString(v'.value))
    requires Parameter(name, v) == Parameter(name, v')
    ensures Given(v) == Given(v')
  {
    hide U.Encoded;
    if Given(v) != "" && Given(v') != "" {
      K.SamePrefix(name, U.Encoded(Given(v)), U.Encoded(Given(v')));
      U.EncodedInjective(Given(v), Given(v'));
    }
  }

  lemma SameGiven(name: string, v: Option<string>, v': Option<string>)
    requires name != "" && (v.Some? ==> U.IsCString(v.value)) && (v'.Some? ==> U.IsCString(v'.value))
    ensures Parameter(name, v) == Parameter(name, v') <==> Given(v) == Given(v')
  {
    if Parameter(name, v) == Parameter(name, v') { ParameterTells(name, v, v'); }
  }

  /** A value and two parameters behind it are told apart. */
  lemma ThreeParts(a: string, p: string, q: string, a': string, p': string, q': string)
    requires AmpFree(a) && IsParameter(p, 'c') && IsParameter(q, 'r')
      && AmpFree(a') && IsParameter(p', 'c') && IsParameter(q', 'r')
    requires a + (p + q) == a' + (p' + q')
    ensures a == a' && p == p' && q == q'
  {
    hide AmpFree;
    assert AmpStart(p + q) && AmpStart(p' + q');
    SplitAtAmp(a, p + q, a', p' + q');
    TwoParameters(p, q, p', q', 'c', 'r');
  }

  lemma PathParts(city: string, country: Option<string>, region: Option<string>)
    requires Texts(city, country, region)
    ensures var p, q := Parameter(COUNTRY, country), Parameter(REGION, region);
      && CityPath(city, country, region) == CITY_PATH + (U.Encoded(city) + (p + q))
      && AmpFree(U.Encoded(city)) && IsParameter(p, 'c') && IsParameter(q, 'r')
  {
    hide U.Encoded, Parameter, IsParameter, AmpFree, U.IsCString;
    Names();
    EncodedAmpFree(city);
    ParameterForm(COUNTRY, country);
    ParameterForm(REGION, region);
    Regroup(CITY_PATH, U.Encoded(city), Parameter(COUNTRY, country), Parameter(REGION, region));
  }

  lemma Names()
    ensures |COUNTRY| >= 2 && COUNTRY[0] == '&' && COUNTRY[1] == 'c' && AmpFree(COUNTRY[1..])
    ensures |REGION| >= 2 && REGION[0] == '&' && REGION[1] == 'r' && AmpFree(REGION[1..])
  {
  }

  /** The path is the request: two requests ask for the same path exactly when they agree on all three fields. */
  lemma PathDeterminesRequest(city: string, country: Option<string>, region: Option<string>,
                              city': string, country': Option<string>, region': Option<string>)
    requires Texts(city, country, region) && Texts(city', country', region')
    ensures CityPath(city, country, region) == CityPath(city', country', region') <==>
      city == city' && Given(country) == Given(country') && Given(region) == Given(region')
  {
    PathParts(city, country, region);
    PathParts(city', country', region');
    SameGiven(COUNTRY, country, country');
    SameGiven(REGION, region, region');
    hide U.Encoded, Parameter, CityPath, IsParameter, AmpFree, Given;
    var p, q := Parameter(COUNTRY, country), Parameter(REGION, region);
    var p', q' := Parameter(COUNTRY, country'), Parameter(REGION, region');
    if CityPath(city, country, region) == CityPath(city', country', region') {
      K.SamePrefix(CITY_PATH, U.Encoded(city) + (p + q), U.Encoded(city') + (p' + q'));
      ThreeParts(U.Encoded(city), p, q, U.Encoded(city'), p', q');
      U.EncodedInjective(city, city');
    }
  }

  predicate ColonFree(s: string) {
    forall i :: 0 <= i < |s| ==> s[i] != ':'
  }

  lemma {:induction false} RawColonFree(s: string)
    requires ColonFree(s)
    ensures ColonFree(U.Raw(s))
  {
    if s != "" { RawColonFree(s[..|s| - 1]); }
  }

  lemma FieldColonFree(value: Option<string>)
    requires value.Some? ==> ColonFree(value.value)
    ensures ColonFree(Field(value))
  {
    if value.Some? {
      RawColonFree(value.value);
      U.RawNormalizes(value.value, KEY_BUFFER);
      hide U.Raw, U.Normalized;
    }
  }

  /** For inputs without colons, two requests share a cache key exactly when all three fields normalise alike. */
  lemma SharedKey(city: string, country: Option<string>, region: Option<string>,
                  city': string, country': Option<string>, region': Option<string>)
    requires ColonFree(city) && (country.Some? ==> ColonFree(country.value))
      && (region.Some? ==> ColonFree(region.value))
    ensures CityKey(city, country, region) == CityKey(city', country', region') <==>
      Field(Some(city)) == Field(Some(city')) && Field(country) == Field(country') && Field(region) == Field(region')
  {
    hide U.Normalized;
    FieldColonFree(Some(city));
    FieldColonFree(country);
    FieldColonFree(region);
    hide Field, K.WeatherKey;
    K.ColonFreeFields(Field(Some(city)), Field(country), Field(region));
    K.KeyDeterminesFields(Field(Some(city)), Field(country), Field(region));
  }

  lemma {:induction false} RawLength(s: string)
    ensures |U.Raw(s)| <= |s|
  {
    if s != "" { RawLength(s[..|s| - 1]); }
  }

  /** Valid city names are not truncated: two of them share a key exactly when their lower-cased words agree. */
  lemma CitiesShareKey(city: string, city': string)
    requires U.ValidCity(Some(city)) && U.ValidCity(Some(city')) && ColonFree(city)
    ensures CityKey(city, None, None) == CityKey(city', None, None) <==> U.Words(city) == U.Words(city')
  {
    hide U.Normalized, U.Words, U.Join, U.Raw, CityKey;
    forall s | s == city || s == city'
      ensures |U.Join(U.Words(s))| <= |s|
    {
      RawLength(s);
      U.RawIsJoin(s);
    }
    K.SameNormalForm(city, city', KEY_BUFFER);
    SharedKey(city, None, None, city', None, None);
  }

  /** Equal paths have equal keys: a request made again is looked up where its answer was put. */
  lemma SamePathSameKey(city: string, country: Option<string>, region: Option<string>,
                        city': string, country': Option<string>, region': Option<string>)
    requires Texts(city, country, region) && Texts(city', country', region')
    requires CityPath(city, country, region) == CityPath(city', country', region')
    ensures CityKey(city, country, region) == CityKey(city', country', region')
  {
    PathDeterminesRequest(city, country, region, city', country', region');
    hide CityPath, K.WeatherKey, Field;
    EmptyField();
    FieldOfGiven(country);
    FieldOfGiven(country');
    FieldOfGiven(region);
    FieldOfGiven(region');
  }

  lemma EmptyField()
    ensures U.Normalized("", KEY_BUFFER) == ""
  {
  }

  lemma FieldOfGiven(value: Option<string>)
    ensures Field(value) == U.Normalized(Given(value), KEY_BUFFER)
  {
    EmptyField();
  }

  /** The key written out; an absent field is empty. */
  lemma CityKeyText(city: string, country: Option<string>, region: Option<string>)
    ensures CityKey(city, country, region) ==
      "weather:city=" + U.Normalized(city, 256) + ":country=" + U.Normalized(Given(country), 256)
      + ":region=" + U.Normalized(Given(region), 256)
  {
    FieldOfGiven(country);
    FieldOfGiven(region);
    hide U.Normalized, Given;
    var n, c, r := U.Normalized(city, 256), Field(country), Field(region);
    assert Field(Some(city)) == n;
    hide Field;
    K.KeyIsFields(n, c, r);
    KeyPieces("weather:city=", n, ":country=", c, ":region=", r);
  }

  lemma KeyPieces(a: string, n: string, b: string, c: string, d: string, r: string)
    ensures a + n + b + c + d + r == a + (n + b + c + d + r) == a + (n + (b + (c + (d + r))))
  {
  }

  // ----- `searchCities` -----

  const SEARCH_PATH := "/v1/cities?query="

  function SearchPath(query: string): string
    requires U.IsCString(query)
  {
    SEARCH_PATH + U.Encoded(query)
  }

  function SearchKey(query: string): string {
    K.BuildCacheKey("cities", "query=" + U.Normalized(query, KEY_BUFFER))
  }

  /**
   * A query has no upper length, so unlike a city name it may be cut on its way: the URL survives
   * exactly when it fits, which up to 164 characters it does; what fits decodes to the query.
   */
  lemma SearchUrlArrives(host: string, port: nat, query: string)
    requires R.HostName(host) && port <= 65535 && U.IsCString(query)
    ensures var path := SearchPath(query);
      && (R.ParseUrl(R.RenderUrl(host, port, path)) == Some(R.Parsed(host, port, path)) <==> |path| <= R.MAX_PATH)
      && path[..17] == SEARCH_PATH && U.FormDecode(path[17..]) == Some(query)
      && (|query| <= 164 ==> |path| <= R.MAX_PATH)
  {
    hide U.Encoded;
    var path := SearchPath(query);
    assert |SEARCH_PATH| == 17 && path[17..] == U.Encoded(query);
    U.FormRoundTrip(query);
    R.ParseRendered(R.Parts(R.Http, host, Some(port), path));
  }

  /** Two searches share a key exactly when their normal forms agree, and no search shares one with a city. */
  lemma SearchKeys(query: string, query': string, city: string, country: Option<string>, region: Option<string>)
    ensures SearchKey(query) == SearchKey(query') <==>
      U.Normalized(query, KEY_BUFFER) == U.Normalized(query', KEY_BUFFER)
    ensures SearchKey(query) != CityKey(city, country, region)
  {
    hide U.Normalized, Field, K.BuildCacheKey;
    var n, n' := U.Normalized(query, KEY_BUFFER), U.Normalized(query', KEY_BUFFER);
    SearchKeyText(query);
    SearchKeyText(query');
    if SearchKey(query) == SearchKey(query') { K.SamePrefix("cities:query=", n, n'); }
    K.KeyIsFields(Field(Some(city)), Field(country), Field(region));
    assert SearchKey(query)[0] == 'c' && CityKey(city, country, region)[0] == 'w';
  }

  /** The key of a search written out. */
  lemma SearchKeyText(query: string)
    ensures SearchKey(query) == "cities:query=" + U.Normalized(query, 256)
  {
  }

  /**
   * A query has no upper length, but its normal form is cut to the buffer: from 255 characters on,
   * what follows makes no difference to the key.
   */
  lemma LongSearchesShareKey(query: string, more: string)
    requires |U.Join(U.Words(query))| >= KEY_BUFFER - 1
    ensures SearchKey(query + more) == SearchKey(query)
  {
    hide U.Raw, U.Words, U.Join, U.Normalized;
    assert (query + more)[..|query|] == query;
    U.RawPrefix(query + more, |query|);
    U.RawIsJoin(query);
    U.RawNormalizes(query, KEY_BUFFER);
    U.RawNormalizes(query + more, KEY_BUFFER);
    assert Cut(U.Raw(query + more), KEY_BUFFER - 1) == Cut(U.Raw(query), KEY_BUFFER - 1);
  }
}
