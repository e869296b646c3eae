/**
 * Cache keys: the normal forms of src/utils/utils.c, and the keys that src/api/weather_client.cpp
 * builds from them. When two inputs share a normal form, and when a key belongs to one triple only.
 */
module CacheKeys {
  import opened Base
  import opened Utils

  // ----- normal forms -----

  predicate CanonicalAt(r: string, i: nat)
    requires i < |r|
  {
    !('A' <= r[i] <= 'Z') && (IsSep(r[i]) ==> r[i] == '_' && i > 0 && r[i - 1] != '_')
  }

  /** No upper case; of the separators only single underscores, none at the start. */
  predicate Canonical(r: string) {
    forall i :: 0 <= i < |r| ==> CanonicalAt(r, i)
  }

  lemma CanonicalPrefix(r: string, k: nat)
    requires Canonical(r) && k <= |r|
    ensures Canonical(r[..k])
  {
    forall i | 0 <= i < k
      ensures CanonicalAt(r[..k], i)
    {
      assert CanonicalAt(r, i);
    }
  }

  lemma PutIsCanonical(out: string, c: char)
    requires Canonical(out)
    ensures Canonical(Put(out, c))
  {
    var r := Put(out, c);
    forall i | 0 <= i < |r|
      ensures CanonicalAt(r, i)
    {
      if i < |out| { assert CanonicalAt(out, i); }
    }
  }

  lemma {:induction false} RawIsCanonical(s: string)
    ensures Canonical(Raw(s))
  {
    if s != "" {
      RawIsCanonical(s[..|s| - 1]);
      PutIsCanonical(Raw(s[..|s| - 1]), s[|s| - 1]);
    }
  }

  lemma {:induction false} RawOfCanonical(r: string)
    requires Canonical(r)
    ensures Raw(r) == r
  {
    if r != "" {
      CanonicalPrefix(r, |r| - 1);
      RawOfCanonical(r[..|r| - 1]);
      assert CanonicalAt(r, |r| - 1);
    }
  }

  /** Normal forms are short enough, canonical, and end in no separator. */
  lemma NormalizedIsCanonical(s: string, outSize: nat)
    requires outSize > 0
    ensures var r := Normalized(s, outSize);
      |r| < outSize && Canonical(r) && (r != "" ==> !IsSep(r[|r| - 1]))
  {
    hide Raw, Normalized;
    RawNormalizes(s, outSize);
    RawIsCanonical(s);
    var cut, r := Cut(Raw(s), outSize - 1), Normalized(s, outSize);
    CanonicalPrefix(Raw(s), |cut|);
    assert Raw(s)[..|cut|] == cut;
    CanonicalPrefix(cut, |r|);
    assert cut[..|r|] == r;
    if r != "" {
      assert CanonicalAt(cut, |r| - 1);
      if |r| < |cut| { assert CanonicalAt(cut, |r|); }
    }
  }

  /** Normalising twice is normalising once, truncation included. */
  lemma NormalizeIdempotent(s: string, outSize: nat)
    requires outSize > 0
    ensures Normalized(Normalized(s, outSize), outSize) == Normalized(s, outSize)
  {
    hide Raw, Normalized;
    var r := Normalized(s, outSize);
    NormalizedIsCanonical(s, outSize);
    RawOfCanonical(r);
    RawNormalizes(r, outSize);
  }

  function LowerAll(s: string): (r: string)
    ensures |r| == |s| && forall i :: 0 <= i < |s| ==> r[i] == Lower(s[i])
  {
    seq(|s|, i requires 0 <= i < |s| => Lower(s[i]))
  }

  predicate SepFree(w: string) {
    forall i :: 0 <= i < |w| ==> !IsSep(w[i])
  }

  /** A text without separators is one word. */
  lemma {:induction false} WordsOfWord(w: string)
    requires w != "" && SepFree(w)
    ensures Words(w) == [LowerAll(w)]
  {
    var n := |w| - 1;
    if n == 0 {
      assert Words(w[..0]) == [];
      assert LowerAll(w) == [Lower(w[0])];
    } else {
      WordsOfWord(w[..n]);
      assert LowerAll(w) == LowerAll(w[..n]) + [Lower(w[n])];
    }
  }

  /** Words of one character more, given whether a separator comes before it. */
  function Grown(ws: seq<string>, atGap: bool, c: char): seq<string> {
    if IsSep(c) then ws
    else if ws == [] || atGap then ws + [[Lower(c)]]
    else ws[..|ws| - 1] + [ws[|ws| - 1] + [Lower(c)]]
  }

  lemma WordsSnoc(s: string, c: char)
    ensures Words(s + [c]) == Grown(Words(s), s == "" || IsSep(s[|s| - 1]), c)
  {
    hide IsSep, Lower;
    assert (s + [c])[..|s|] == s;
  }

  lemma GrownConcat(us: seq<string>, ws: seq<string>, atGap: bool, c: char)
    requires ws == [] ==> atGap
    ensures us + Grown(ws, atGap, c) == Grown(us + ws, atGap, c)
  {
    if ws != [] {
      var k := |us + ws| - 1;
      assert (us + ws)[..k] == us + ws[..|ws| - 1] && (us + ws)[k] == ws[|ws| - 1];
    }
  }

  /** A separator splits: the words are those in front of it, then those behind it. */
  lemma {:induction false} WordsSplit(a: string, c: char, b: string)
    requires IsSep(c)
    ensures Words(a + [c] + b) == Words(a) + Words(b)
  {
    hide Words, Grown;
    if b == "" {
      WordsSnoc(a, c);
      assert a + [c] + b == a + [c];
      assert Words("") == [] by { NoWords(); }
      assert Words(a) + [] == Words(a);
      GrownBySep(Words(a), a == "" || IsSep(a[|a| - 1]), c);
    } else {
      var m := |b| - 1;
      var front, d := b[..m], b[m];
      WordsSplit(a, c, front);
      assert a + [c] + b == (a + [c] + front) + [d] && b == front + [d];
      WordsSnoc(a + [c] + front, d);
      WordsSnoc(front, d);
      WordsAreWords(front);
      GrownConcat(Words(a), Words(front), front == "" || IsSep(front[m - 1]), d);
    }
  }

  lemma NoWords()
    ensures Words("") == []
  {
  }

  lemma GrownBySep(ws: seq<string>, atGap: bool, c: char)
    requires IsSep(c)
    ensures Grown(ws, atGap, c) == ws
  {
  }

  predicate LowerWords(ws: seq<string>) {
    forall i :: 0 <= i < |ws| ==> ws[i] != "" && SepFree(ws[i]) && LowerAll(ws[i]) == ws[i]
  }

  /** The words of joined words are those words. */
  lemma {:induction false} WordsOfJoin(ws: seq<string>)
    requires LowerWords(ws)
    ensures Words(Join(ws)) == ws
  {
    hide Words;
    NoWords();
    if |ws| == 1 {
      WordsOfWord(ws[0]);
    } else if |ws| > 1 {
      var front, w := ws[..|ws| - 1], ws[|ws| - 1];
      WordsOfJoin(front);
      WordsSplit(Join(front), '_', w);
      WordsOfWord(w);
    }
  }

  lemma {:induction false} WordsAreLower(s: string)
    ensures LowerWords(Words(s))
  {
    WordsAreWords(s);
    if s != "" { WordsAreLower(s[..|s| - 1]); }
  }

  /** The joined words and a NUL fit, so nothing is cut off. */
  predicate Fits(s: string, outSize: nat) {
    |Join(Words(s))| < outSize
  }

  /** Where nothing is cut off, two inputs normalise alike exactly when their lower-cased words agree. */
  lemma SameNormalForm(s: string, t: string, outSize: nat)
    requires outSize > 0
    ensures Fits(s, outSize) && Fits(t, outSize) ==>
      (Normalized(s, outSize) == Normalized(t, outSize) <==> Words(s) == Words(t))
  {
    hide Words, Join;
    if Fits(s, outSize) && Fits(t, outSize) {
      NoCut(s, outSize);
      NoCut(t, outSize);
      WordsAreLower(s);
      WordsAreLower(t);
      WordsOfJoin(Words(s));
      WordsOfJoin(Words(t));
    }
  }

  lemma NoCut(s: string, outSize: nat)
    requires |Join(Words(s))| < outSize
    ensures Normalized(s, outSize) == Join(Words(s))
  {
    WordsAreWords(s);
    if Words(s) != [] { JoinEnd(Words(s)); } else { JoinNone(); }
  }

  // ----- keys -----

  /** `buildCacheKey`. */
  function BuildCacheKey(endpoint: string, params: string): string {
    endpoint + ":" + params
  }

  const COUNTRY := ":country="
  const REGION := ":region="

  /** The parameters of a weather key, from normalised fields. */
  function WeatherParams(city: string, country: string, region: string): string {
    "city=" + city + COUNTRY + country + REGION + region
  }

  function WeatherKey(city: string, country: string, region: string): string {
    BuildCacheKey("weather", WeatherParams(city, country, region))
  }

  ghost predicate Has(s: string, pat: string) {
    exists i: nat :: Occurs(s, i, pat)
  }

  /** A colon, and no other behind it. */
  predicate Mark(pat: string) {
    pat != "" && pat[0] == ':' && forall i :: 0 < i < |pat| ==> pat[i] != ':'
  }

  function Fields(city: string, country: string, region: string): string {
    city + (COUNTRY + (country + (REGION + region)))
  }

  lemma KeyIsFields(city: string, country: string, region: string)
    ensures WeatherKey(city, country, region) == "weather:city=" + Fields(city, country, region)
  {
  }

  lemma OneColon(s: string, i: nat, pat: string)
    requires Mark(pat) && Occurs(s, i, pat)
    ensures s[i] == ':' && forall p :: i < p < i + |pat| ==> s[p] != ':'
  {
    var u := s[i..i + |pat|];
    assert s[i] == u[0];
    forall p | i < p < i + |pat|
      ensures s[p] != ':'
    {
      assert s[p] == u[p - i];
    }
  }

  /** A mark that occurs somewhere in a + (m + b) is m itself, or lies in a, or in b. */
  lemma MarkInParts(a: string, m: string, b: string, pat: string, i: nat)
    requires Mark(m) && Mark(pat) && Occurs(a + (m + b), i, pat)
    ensures i == |a| || (i + |pat| <= |a| && Occurs(a, i, pat)) || (i >= |a| + |m| && Occurs(b, i - |a| - |m|, pat))
  {
    var s := a + (m + b);
    assert s[|a|..|a| + |m|] == m;
    OneColon(s, i, pat);
    OneColon(s, |a|, m);
    if i + |pat| <= |a| { assert s[i..i + |pat|] == a[i..i + |pat|]; }
    if i >= |a| + |m| { assert s[i..i + |pat|] == b[i - |a| - |m|..i - |a| - |m| + |pat|]; }
  }

  /** What makes a key belong to one triple only; a caller can check it. */
  ghost predicate Unambiguous(city: string, country: string, region: string) {
    !Has(city, COUNTRY) && !Has(country, COUNTRY) && !Has(country, REGION) && !Has(region, REGION)
  }

  lemma Marks()
    ensures Mark(COUNTRY) && Mark(REGION) && |COUNTRY| == 9 && |REGION| == 8
  {
  }

  /** The country mark of any triple with the same text is in the same place. */
  lemma SameCountryMark(c: string, n: string, r: string, c': string, n': string, r': string)
    requires Unambiguous(c, n, r) && Fields(c, n, r) == Fields(c', n', r')
    ensures |c'| == |c|
  {
    hide Occurs;
    Marks();
    var u, u' := n + (REGION + r), n' + (REGION + r');
    MarkHere(c', COUNTRY, u');
    MarkInParts(c, COUNTRY, u, COUNTRY, |c'|);
    if |c'| != |c| {
      // the other country mark would lie inside u, and the other region mark later still
      MarkInParts(n, REGION, r, COUNTRY, |c'| - |c| - 9);
      MarkHere(n', REGION, r');
      TailAt(c', COUNTRY, u', |n'|, REGION);
      TailOf(c, COUNTRY, u, |c'| + 9 + |n'|, REGION);
      MarkInParts(n, REGION, r, REGION, |c'| + |n'| - |c|);
    }
  }

  /** Unambiguous fields are what any fields with the same text are. */
  lemma FieldsDetermined(c: string, n: string, r: string, c': string, n': string, r': string)
    requires Unambiguous(c, n, r) && Fields(c, n, r) == Fields(c', n', r')
    ensures c == c' && n == n' && r == r'
  {
    hide Occurs;
    Marks();
    SameCountryMark(c, n, r, c', n', r');
    SameSplit(c, COUNTRY, n + (REGION + r), c', n' + (REGION + r'));
    MarkHere(n', REGION, r');
    MarkInParts(n, REGION, r, REGION, |n'|);
    SameSplit(n, REGION, r, n', r');
  }

  lemma SameSplit(a: string, m: string, b: string, a': string, b': string)
    requires a + (m + b) == a' + (m + b') && |a| == |a'|
    ensures a == a' && b == b'
  {
    var s := a + (m + b);
    assert s[..|a|] == a && s[..|a|] == a';
    assert s[|a| + |m|..] == b && s[|a| + |m|..] == b';
  }

  lemma MarkHere(a: string, m: string, b: string)
    ensures Occurs(a + (m + b), |a|, m)
  {
    assert (a + (m + b))[|a|..|a| + |m|] == m;
  }

  lemma TailAt(a: string, m: string, b: string, i: nat, pat: string)
    requires Occurs(b, i, pat)
    ensures Occurs(a + (m + b), |a| + |m| + i, pat)
  {
    var s, j := a + (m + b), |a| + |m| + i;
    assert s[|a| + |m|..] == b;
    assert s[j..j + |pat|] == s[|a| + |m|..][i..i + |pat|];
  }

  lemma TailOf(a: string, m: string, b: string, j: nat, pat: string)
    requires Occurs(a + (m + b), j, pat) && j >= |a| + |m|
    ensures Occurs(b, j - |a| - |m|, pat)
  {
    assert (a + (m + b))[j..j + |pat|] == b[j - |a| - |m|..j - |a| - |m| + |pat|];
  }

  lemma SplitAtMark(s: string, pat: string) returns (a: string, b: string)
    requires Has(s, pat)
    ensures s == a + (pat + b)
  {
    var i: nat :| Occurs(s, i, pat);
    a, b := s[..i], s[i + |pat|..];
  }

  lemma MarkMoved(a: string, m: string, b: string, n: string, t: string)
    ensures a + (m + ((b + m + n) + t)) == (a + (m + b)) + (m + (n + t))
    ensures (a + m + b) + (m + t) == a + (m + (b + (m + t)))
    ensures (a + (m + b)) + (m + t) == a + (m + (b + m + t))
    ensures a + (m + ((b + (m + n)) + t)) == (a + m + b) + (m + (n + t))
  {
  }

  /** A field with a mark in it gives a second triple with the same text. */
  lemma FieldsShared(c: string, n: string, r: string) returns (c': string, n': string, r': string)
    requires !Unambiguous(c, n, r)
    ensures Fields(c', n', r') == Fields(c, n, r) && (|c'| != |c| || |n'| != |n|)
  {
    hide Has;
    Marks();
    if Has(c, COUNTRY) {
      var a, b := SplitAtMark(c, COUNTRY);
      c', n', r' := a, b + COUNTRY + n, r;
      MarkMoved(a, COUNTRY, b, n, REGION + r);
    } else if Has(n, COUNTRY) {
      var a, b := SplitAtMark(n, COUNTRY);
      c', n', r' := c + COUNTRY + a, b, r;
      MarkMoved(c, COUNTRY, a, b, REGION + r);
    } else if Has(n, REGION) {
      var a, b := SplitAtMark(n, REGION);
      c', n', r' := c, a, b + REGION + r;
      MarkMoved(a, REGION, b, "", r);
    } else {
      var a, b := SplitAtMark(r, REGION);
      c', n', r' := c, n + REGION + a, b;
      MarkMoved(n, REGION, a, "", b);
    }
  }

  /**
   * As a format on arbitrary texts: a weather key belongs to no other triple exactly when no field
   * holds a mark that could be taken for the separator next to it. Requests put normal forms in the
   * three places only; when a key belongs to one request is the subject of `KeyReadings`.
   */
  lemma KeyDeterminesFields(city: string, country: string, region: string)
    ensures Unambiguous(city, country, region) <==>
      forall c, n, r :: WeatherKey(c, n, r) == WeatherKey(city, country, region)
        ==> c == city && n == country && r == region
  {
    KeyIsFields(city, country, region);
    if Unambiguous(city, country, region) {
      forall c, n, r | WeatherKey(c, n, r) == WeatherKey(city, country, region)
        ensures c == city && n == country && r == region
      {
        KeyIsFields(c, n, r);
        SamePrefix("weather:city=", Fields(c, n, r), Fields(city, country, region));
        FieldsDetermined(city, country, region, c, n, r);
      }
    } else {
      var c, n, r := FieldsShared(city, country, region);
      KeyIsFields(c, n, r);
    }
  }

  lemma SamePrefix(p: string, s: string, t: string)
    requires p + s == p + t
    ensures s == t
  {
    assert (p + s)[|p|..] == s && (p + t)[|p|..] == t;
  }

  /** In particular fields without a colon are determined by the key. */
  lemma ColonFreeFields(city: string, country: string, region: string)
    requires forall i :: 0 <= i < |city| ==> city[i] != ':'
    requires forall i :: 0 <= i < |country| ==> country[i] != ':'
    requires forall i :: 0 <= i < |region| ==> region[i] != ':'
    ensures Unambiguous(city, country, region)
  {
    Marks();
    forall s, pat, i: nat | (s == city || s == country || s == region) && Mark(pat) && Occurs(s, i, pat)
      ensures false
    {
      OneColon(s, i, pat);
    }
  }
}
