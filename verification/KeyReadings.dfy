/**
 * When a weather key belongs to one request only. The key holds three normal forms between two marks;
 * another place for the marks gives other fields, and these belong to a request exactly when they are
 * normal forms too.
 */
module KeyReadings {
  import opened Base
  import opened CacheKeys
  import U = Utils
  import Q = WeatherQueries

  const MAX_CITY := 100

  // ----- normal forms inside a longer text -----

  predicate NormalForm(s: string, outSize: nat) {
    |s| < outSize && Canonical(s) && (s != "" ==> !U.IsSep(s[|s| - 1]))
  }

  /** The normal forms are exactly the texts that normalisation leaves as they are. */
  lemma NormalFormIsFixed(s: string, outSize: nat)
    requires outSize > 0
    ensures NormalForm(s, outSize) <==> U.Normalized(s, outSize) == s
  {
    hide U.Raw, U.Normalized, Canonical;
    if NormalForm(s, outSize) {
      RawOfCanonical(s);
      U.RawNormalizes(s, outSize);
    }
    if U.Normalized(s, outSize) == s { NormalizedIsCanonical(s, outSize); }
  }

  /** No '_' at either end. */
  predicate Trimmed(s: string) {
    s != "" ==> s[0] != '_' && s[|s| - 1] != '_'
  }

  predicate SmoothAt(s: string, i: nat)
    requires i < |s|
  {
    !('A' <= s[i] <= 'Z') && (U.IsSep(s[i]) ==> s[i] == '_' && (i > 0 ==> s[i - 1] != '_'))
  }

  /** No upper case, and of the separators only single underscores. */
  predicate Smooth(s: string) {
    forall i :: 0 <= i < |s| ==> SmoothAt(s, i)
  }

  lemma NormalIsSmooth(s: string, outSize: nat)
    requires NormalForm(s, outSize)
    ensures Smooth(s) && Trimmed(s)
  {
    forall i | 0 <= i < |s|
      ensures SmoothAt(s, i)
    {
      assert CanonicalAt(s, i);
    }
    if s != "" { assert CanonicalAt(s, 0); }
  }

  lemma SmoothIsNormal(s: string, outSize: nat)
    requires Smooth(s) && Trimmed(s) && |s| < outSize
    ensures NormalForm(s, outSize)
  {
    forall i | 0 <= i < |s|
      ensures CanonicalAt(s, i)
    {
      assert SmoothAt(s, i);
    }
    if s != "" { assert SmoothAt(s, |s| - 1); }
  }

  lemma SmoothSlice(s: string, i: nat, j: nat)
    requires Smooth(s) && i <= j <= |s|
    ensures Smooth(s[i..j])
  {
    forall k | 0 <= k < j - i
      ensures SmoothAt(s[i..j], k)
    {
      assert SmoothAt(s, i + k);
    }
  }

  lemma SmoothConcat(a: string, b: string)
    requires Smooth(a) && Smooth(b) && Trimmed(b)
    ensures Smooth(a + b)
  {
    forall k | 0 <= k < |a + b|
      ensures SmoothAt(a + b, k)
    {
      if k < |a| { assert SmoothAt(a, k); } else { assert SmoothAt(b, k - |a|); }
    }
  }

  // ----- readings -----

  /** The marks stand at i and j. */
  predicate Marked(s: string, i: nat, j: nat) {
    Occurs(s, i, COUNTRY) && i + |COUNTRY| <= j && Occurs(s, j, REGION)
  }

  function CityPart(s: string, i: nat, j: nat): string
    requires Marked(s, i, j)
  {
    s[..i]
  }

  function CountryPart(s: string, i: nat, j: nat): string
    requires Marked(s, i, j)
  {
    s[i + |COUNTRY|..j]
  }

  function RegionPart(s: string, i: nat, j: nat): string
    requires Marked(s, i, j)
  {
    s[j + |REGION|..]
  }

  /**
   * The marks at i and j cut s into fields that requests have: the city no longer than a valid name,
   * the others within the buffer, and no underscore at an end of any.
   */
  predicate Reading(s: string, i: nat, j: nat) {
    && Marked(s, i, j)
    && |CityPart(s, i, j)| <= MAX_CITY && Trimmed(CityPart(s, i, j))
    && |CountryPart(s, i, j)| < Q.KEY_BUFFER && Trimmed(CountryPart(s, i, j))
    && |RegionPart(s, i, j)| < Q.KEY_BUFFER && Trimmed(RegionPart(s, i, j))
  }

  /** Three fields as requests have them. */
  predicate Triple(c: string, n: string, r: string) {
    NormalForm(c, MAX_CITY + 1) && NormalForm(n, Q.KEY_BUFFER) && NormalForm(r, Q.KEY_BUFFER)
  }

  lemma PartsOfFields(c: string, n: string, r: string)
    ensures var s, i, j := Fields(c, n, r), |c|, |c| + |COUNTRY| + |n|;
      Marked(s, i, j) && CityPart(s, i, j) == c && CountryPart(s, i, j) == n && RegionPart(s, i, j) == r
  {
    var s := Fields(c, n, r);
    assert s == c + COUNTRY + n + REGION + r;
  }

  lemma FieldsOfParts(s: string, i: nat, j: nat)
    requires Marked(s, i, j)
    ensures Fields(CityPart(s, i, j), CountryPart(s, i, j), RegionPart(s, i, j)) == s
  {
    assert s == s[..i] + (s[i..i + |COUNTRY|] + (s[i + |COUNTRY|..j] + (s[j..j + |REGION|] + s[j + |REGION|..])));
  }

  lemma MarksAreSmooth()
    ensures Smooth(COUNTRY) && Trimmed(COUNTRY) && Smooth(REGION) && Trimmed(REGION)
  {
  }

  lemma FieldsAreSmooth(c: string, n: string, r: string)
    requires Triple(c, n, r)
    ensures Smooth(Fields(c, n, r))
  {
    NormalIsSmooth(c, MAX_CITY + 1);
    NormalIsSmooth(n, Q.KEY_BUFFER);
    NormalIsSmooth(r, Q.KEY_BUFFER);
    MarksAreSmooth();
    hide Smooth, NormalForm;
    assert Fields(c, n, r) == (((c + COUNTRY) + n) + REGION) + r;
    SmoothConcat(c, COUNTRY);
    SmoothConcat(c + COUNTRY, n);
    SmoothConcat((c + COUNTRY) + n, REGION);
    SmoothConcat(((c + COUNTRY) + n) + REGION, r);
  }

  lemma ReadingIsTriple(s: string, i: nat, j: nat)
    requires Smooth(s) && Reading(s, i, j)
    ensures Marked(s, i, j) && Triple(CityPart(s, i, j), CountryPart(s, i, j), RegionPart(s, i, j))
  {
    hide Smooth, Trimmed;
    SmoothSlice(s, 0, i);
    assert s[0..i] == s[..i];
    SmoothSlice(s, i + |COUNTRY|, j);
    SmoothSlice(s, j + |REGION|, |s|);
    assert s[j + |REGION|..|s|] == s[j + |REGION|..];
    hide NormalForm;
    SmoothIsNormal(CityPart(s, i, j), MAX_CITY + 1);
    SmoothIsNormal(CountryPart(s, i, j), Q.KEY_BUFFER);
    SmoothIsNormal(RegionPart(s, i, j), Q.KEY_BUFFER);
  }

  /** The readings of a text of fields are exactly the triples with that text. */
  lemma ReadingsAreTriples(c: string, n: string, r: string)
    requires Triple(c, n, r)
    ensures Reading(Fields(c, n, r), |c|, |c| + |COUNTRY| + |n|)
    ensures forall i: nat, j: nat :: Reading(Fields(c, n, r), i, j) ==>
      Triple(CityPart(Fields(c, n, r), i, j), CountryPart(Fields(c, n, r), i, j), RegionPart(Fields(c, n, r), i, j))
  {
    var s := Fields(c, n, r);
    PartsOfFields(c, n, r);
    NormalIsSmooth(c, MAX_CITY + 1);
    NormalIsSmooth(n, Q.KEY_BUFFER);
    NormalIsSmooth(r, Q.KEY_BUFFER);
    FieldsAreSmooth(c, n, r);
    hide Smooth, Trimmed, Fields, CityPart, CountryPart, RegionPart, Marked;
    forall i: nat, j: nat | Reading(s, i, j)
      ensures Triple(CityPart(s, i, j), CountryPart(s, i, j), RegionPart(s, i, j))
    {
      ReadingIsTriple(s, i, j);
    }
  }

  // ----- requests -----

  /** A call of `getWeatherByCity` that is not refused. */
  predicate Request(city: string, country: Option<string>, region: Option<string>) {
    Q.Texts(city, country, region) && U.ValidCity(Some(city))
  }

  lemma {:induction false} RawIsCString(s: string)
    requires U.IsCString(s)
    ensures U.IsCString(U.Raw(s))
  {
    if s != "" { RawIsCString(s[..|s| - 1]); }
  }

  lemma NormalizedIsCString(s: string, outSize: nat)
    requires U.IsCString(s) && outSize > 0
    ensures U.IsCString(U.Normalized(s, outSize)) && |U.Normalized(s, outSize)| <= |s|
  {
    hide U.Raw, U.Normalized;
    RawIsCString(s);
    Q.RawLength(s);
    U.RawNormalizes(s, outSize);
  }

  /** What the fields of a request look like. */
  lemma FieldsOfRequest(city: string, country: Option<string>, region: Option<string>)
    requires Request(city, country, region)
    ensures var c, n, r := Q.Field(Some(city)), Q.Field(country), Q.Field(region);
      Triple(c, n, r) && U.IsCString(c) && U.IsCString(n) && U.IsCString(r)
  {
    hide U.Normalized, Canonical, U.IsCString;
    FieldIsNormal(Some(city));
    FieldIsNormal(country);
    FieldIsNormal(region);
    NormalizedIsCString(city, Q.KEY_BUFFER);
  }

  lemma FieldIsNormal(value: Option<string>)
    requires value.Some? ==> U.IsCString(value.value)
    ensures NormalForm(Q.Field(value), Q.KEY_BUFFER) && U.IsCString(Q.Field(value))
  {
    if value.Some? {
      hide U.Normalized, Canonical;
      NormalizedIsCanonical(value.value, Q.KEY_BUFFER);
      NormalizedIsCString(value.value, Q.KEY_BUFFER);
    }
  }

  /** Every triple of normal forms is what some request has. */
  lemma RequestOfFields(c: string, n: string, r: string) returns (city: string)
    requires Triple(c, n, r) && U.IsCString(c) && U.IsCString(n) && U.IsCString(r)
    ensures Request(city, Some(n), Some(r))
    ensures Q.Field(Some(city)) == c && Q.Field(Some(n)) == n && Q.Field(Some(r)) == r
  {
    city := if c == "" then "_" else c;
    assert U.Words("_"[..0]) == [];
    assert U.Normalized("_", Q.KEY_BUFFER) == "";
    hide U.Normalized, Canonical;
    NormalFormIsFixed(c, Q.KEY_BUFFER);
    NormalFormIsFixed(n, Q.KEY_BUFFER);
    NormalFormIsFixed(r, Q.KEY_BUFFER);
  }

  lemma SameKeySameFields(city: string, country: Option<string>, region: Option<string>,
                          city': string, country': Option<string>, region': Option<string>)
    ensures Q.CityKey(city, country, region) == Q.CityKey(city', country', region') <==>
      Fields(Q.Field(Some(city)), Q.Field(country), Q.Field(region))
      == Fields(Q.Field(Some(city')), Q.Field(country'), Q.Field(region'))
  {
    hide Q.Field, Fields, WeatherKey;
    var s := Fields(Q.Field(Some(city)), Q.Field(country), Q.Field(region));
    var t := Fields(Q.Field(Some(city')), Q.Field(country'), Q.Field(region'));
    KeyIsFields(Q.Field(Some(city)), Q.Field(country), Q.Field(region));
    KeyIsFields(Q.Field(Some(city')), Q.Field(country'), Q.Field(region'));
    if "weather:city=" + s == "weather:city=" + t { SamePrefix("weather:city=", s, t); }
  }

  /** Two requests whose fields normalise alike. */
  predicate SameFields(city: string, country: Option<string>, region: Option<string>,
                       city': string, country': Option<string>, region': Option<string>) {
    Q.Field(Some(city)) == Q.Field(Some(city')) && Q.Field(country) == Q.Field(country')
      && Q.Field(region) == Q.Field(region')
  }

  /** No reading of s but the one with the marks at i and j. */
  ghost predicate OneReading(s: string, i: nat, j: nat) {
    forall i': nat, j': nat :: Reading(s, i', j') ==> i' == i && j' == j
  }

  /** Every request with the same key has the same fields. */
  ghost predicate KeyIsOwn(city: string, country: Option<string>, region: Option<string>) {
    forall city', country', region' ::
      Request(city', country', region') && Q.CityKey(city', country', region') == Q.CityKey(city, country, region)
      ==> SameFields(city, country, region, city', country', region')
  }

  /**
   * For every request: no request with other fields has its key if and only if the marks in the text
   * of its key can be read in one way only, where a reading must give fields that requests have.
   */
  lemma KeyBelongsToOne(city: string, country: Option<string>, region: Option<string>)
    requires Request(city, country, region)
    ensures var c, n, r := Q.Field(Some(city)), Q.Field(country), Q.Field(region);
      KeyIsOwn(city, country, region) <==> OneReading(Fields(c, n, r), |c|, |c| + |COUNTRY| + |n|)
  {
    var c, n, r := Q.Field(Some(city)), Q.Field(country), Q.Field(region);
    if OneReading(Fields(c, n, r), |c|, |c| + |COUNTRY| + |n|) { OneReadingSuffices(city, country, region); }
    if KeyIsOwn(city, country, region) { OneReadingNeeded(city, country, region); }
  }

  lemma OneReadingSuffices(city: string, country: Option<string>, region: Option<string>)
    requires Request(city, country, region)
    requires var c, n, r := Q.Field(Some(city)), Q.Field(country), Q.Field(region);
      OneReading(Fields(c, n, r), |c|, |c| + |COUNTRY| + |n|)
    ensures KeyIsOwn(city, country, region)
  {
    hide Fields, Q.Field, Q.CityKey, Reading, Triple, Request, CityPart, CountryPart, RegionPart, Marked;
    var c, n, r := Q.Field(Some(city)), Q.Field(country), Q.Field(region);
    PartsOfFields(c, n, r);
    forall city', country', region' |
      Request(city', country', region') && Q.CityKey(city', country', region') == Q.CityKey(city, country, region)
      ensures SameFields(city, country, region, city', country', region')
    {
      var c', n', r' := Q.Field(Some(city')), Q.Field(country'), Q.Field(region');
      SameKeySameFields(city', country', region', city, country, region);
      FieldsOfRequest(city', country', region');
      ReadingsAreTriples(c', n', r');
      PartsOfFields(c', n', r');
    }
  }

  lemma OneReadingNeeded(city: string, country: Option<string>, region: Option<string>)
    requires Request(city, country, region) && KeyIsOwn(city, country, region)
    ensures var c, n, r := Q.Field(Some(city)), Q.Field(country), Q.Field(region);
      OneReading(Fields(c, n, r), |c|, |c| + |COUNTRY| + |n|)
  {
    hide Fields, Q.Field, Q.CityKey, Reading, Triple, Request;
    var c, n, r := Q.Field(Some(city)), Q.Field(country), Q.Field(region);
    var s := Fields(c, n, r);
    FieldsOfRequest(city, country, region);
    ReadingsAreTriples(c, n, r);
    forall i: nat, j: nat | Reading(s, i, j)
      ensures i == |c| && j == |c| + |COUNTRY| + |n|
    {
      assert Marked(s, i, j) by { ReadingIsMarked(s, i, j); }
      var a, b, d := CityPart(s, i, j), CountryPart(s, i, j), RegionPart(s, i, j);
      FieldsAreCString(c, n, r);
      var city' := RequestOfFields(a, b, d);
      FieldsOfParts(s, i, j);
      SameKeySameFields(city', Some(b), Some(d), city, country, region);
      assert SameFields(city, country, region, city', Some(b), Some(d));
    }
  }

  lemma ReadingIsMarked(s: string, i: nat, j: nat)
    requires Reading(s, i, j)
    ensures Marked(s, i, j)
  {
  }

  lemma FieldsAreCString(c: string, n: string, r: string)
    requires U.IsCString(c) && U.IsCString(n) && U.IsCString(r)
    ensures U.IsCString(Fields(c, n, r))
  {
    assert U.IsCString(COUNTRY) && U.IsCString(REGION);
  }

  /** Lower case, no separators: its own normal form. */
  predicate PlainText(s: string) {
    U.IsCString(s) && forall i :: 0 <= i < |s| ==> !('A' <= s[i] <= 'Z') && !U.IsSep(s[i])
  }

  /** A family of requests that share a key: a mark in the name of the city, or the rest in the country. */
  lemma KeysCollide(a: string, b: string)
    requires PlainText(a) && PlainText(b) && a != "" && |a| + |COUNTRY| + |b| <= MAX_CITY
    ensures Request(a + COUNTRY + b, None, None) && Request(a, Some(b + COUNTRY), None)
    ensures Q.CityKey(a + COUNTRY + b, None, None) == Q.CityKey(a, Some(b + COUNTRY), None)
    ensures !SameFields(a + COUNTRY + b, None, None, a, Some(b + COUNTRY), None)
  {
    PlainParts(a, b);
    hide Q.Field, Q.CityKey, Fields, Request, PlainText;
    SameText(a, b);
    SameKeySameFields(a + COUNTRY + b, None, None, a, Some(b + COUNTRY), None);
    assert |a + COUNTRY + b| > |a|;
  }

  lemma PlainParts(a: string, b: string)
    requires PlainText(a) && PlainText(b) && a != "" && |a| + |COUNTRY| + |b| <= MAX_CITY
    ensures Request(a + COUNTRY + b, None, None) && Request(a, Some(b + COUNTRY), None)
    ensures Q.Field(Some(a + COUNTRY + b)) == a + COUNTRY + b && Q.Field(Some(a)) == a
    ensures Q.Field(Some(b + COUNTRY)) == b + COUNTRY && Q.Field(None) == ""
  {
    assert PlainText(COUNTRY);
    PlainConcat(a, COUNTRY);
    PlainConcat(a + COUNTRY, b);
    PlainConcat(b, COUNTRY);
    hide U.Normalized;
    PlainIsFixed(a + COUNTRY + b);
    PlainIsFixed(a);
    PlainIsFixed(b + COUNTRY);
  }

  lemma PlainConcat(a: string, b: string)
    requires PlainText(a) && PlainText(b)
    ensures PlainText(a + b)
  {
  }

  lemma SameText(a: string, b: string)
    ensures Fields(a + COUNTRY + b, "", "") == Fields(a, b + COUNTRY, "")
  {
    var t := REGION + "";
    assert "" + t == t;
    Shift(a, COUNTRY, b, t);
  }

  lemma Shift(a: string, m: string, b: string, t: string)
    ensures (a + m + b) + (m + t) == a + (m + ((b + m) + t))
  {
  }

  /** Concretely: one city, and another city with a country. */
  lemma TwoPlacesOneKey()
    ensures Request("a:country=b", None, None) && Request("a", Some("b:country="), None)
    ensures Q.CityKey("a:country=b", None, None) == Q.CityKey("a", Some("b:country="), None)
    ensures !SameFields("a:country=b", None, None, "a", Some("b:country="), None)
  {
    hide Q.CityKey, SameFields, Request;
    KeysCollide("a", "b");
    assert "a" + COUNTRY + "b" == "a:country=b" && "b" + COUNTRY == "b:country=";
  }

  lemma PlainIsFixed(s: string)
    requires PlainText(s) && |s| < Q.KEY_BUFFER
    ensures U.Normalized(s, Q.KEY_BUFFER) == s
  {
    assert forall i :: 0 <= i < |s| ==> CanonicalAt(s, i);
    NormalFormIsFixed(s, Q.KEY_BUFFER);
  }
}
