/**
 * The request path of src/api/weather_client.cpp: cache first, then the server, then the cache
 * again; and the URLs and keys it is called with.
 */
module WeatherClient {
  import opened Base
  import opened CacheSpec
  import opened CacheRuns
  import C = ClientCache
  import L = CacheEffects

  // ----- `makeRequest` -----

  /** What the server call yields, if it is made: an error, or the body of the response. */
  datatype Reply = NoAnswer | Body(text: string)

  /** The exceptions of makeRequest, or the JSON value it returns. */
  datatype Outcome = HttpFailed | ParseFailed | ApiError | Answer(json: Json)

  /** An object whose "success" is the boolean false. */
  predicate IsApiError(j: Json) {
    j.JObject? && Lookup(j.fields, "success") == Some(JBool(false))
  }

  /** An object whose first field of the name "success" is the boolean false. */
  ghost predicate SaysFailure(j: Json) {
    j.JObject? && exists k :: 0 <= k < |j.fields| && FailsAt(j.fields, k)
  }

  ghost predicate FailsAt(fields: seq<(string, Json)>, k: nat)
    requires k < |fields|
  {
    fields[k] == ("success", JBool(false)) && forall i :: 0 <= i < k ==> fields[i].0 != "success"
  }

  lemma {:induction false} LookupFinds(fields: seq<(string, Json)>)
    ensures Lookup(fields, "success") == Some(JBool(false)) <==> exists k :: 0 <= k < |fields| && FailsAt(fields, k)
  {
    if fields != [] && fields[0].0 != "success" {
      LookupFinds(fields[1..]);
      if k :| 0 <= k < |fields[1..]| && FailsAt(fields[1..], k) {
        assert forall i :: 0 < i <= k ==> fields[i] == fields[1..][i - 1];
        assert FailsAt(fields, k + 1);
      }
      if k :| 0 <= k < |fields| && FailsAt(fields, k) {
        assert FailsAt(fields[1..], k - 1);
      }
    } else if fields != [] {
      if fields[0].1 == JBool(false) { assert FailsAt(fields, 0); }
    }
  }

  lemma ApiErrorExactly(j: Json)
    ensures IsApiError(j) <==> SaysFailure(j)
  {
    if j.JObject? { LookupFinds(j.fields); }
  }

  /** A cache hit that parses; the server is not called then. */
  predicate Hit(env: Env, cached: Option<string>) {
    cached.Some? && env.Parses(cached.value)
  }

  /** When a request looks into the cache, has done so, stores the answer, and has written its file. */
  datatype Times = Times(asked: int, loaded: int, stored: int, written: int)

  predicate InOrder(t: Times) {
    t.asked <= t.loaded <= t.stored <= t.written
  }

  /** The part of makeRequest behind a cache miss. */
  function Fetch(env: Env, c: Cache, key: string, t: Times, reply: Reply): (Cache, Outcome) {
    match reply
    case NoAnswer => (c, HttpFailed)
    case Body(text) =>
      match env.parse(text)
      case None => (c, ParseFailed)
      case Some(j) => if IsApiError(j) then (c, ApiError) else (Set(env, c, key, text, t.stored, t.written), Answer(j))
  }

  function MakeRequest(env: Env, c: Cache, key: string, t: Times, reply: Reply): (Cache, Outcome) {
    var (c', cached) := Get(env, c, key, t.asked, t.loaded);
    if Hit(env, cached) then (c', Answer(env.parse(cached.value).value))
    else Fetch(env, c', key, t, reply)
  }

  /** The cache alone can answer. */
  predicate Answerable(env: Env, c: Cache, key: string, t: Times) {
    Hit(env, Get(env, c, key, t.asked, t.loaded).1)
  }

  /**
   * What a request does that the cache cannot answer: an exception and no change to the cache beyond
   * the look into it, or the value, and the text is in memory and on disk.
   */
  lemma MissOutcome(env: Env, c: Cache, key: string, t: Times, reply: Reply)
    requires c.maxEntries > 0 && Shaped(c.entries, c.ttl, t.asked) && InOrder(t) && !Answerable(env, c, key, t)
    ensures var (c', outcome) := MakeRequest(env, c, key, t, reply);
      var looked := Get(env, c, key, t.asked, t.loaded).0;
      match reply
      case NoAnswer => c' == looked && outcome == HttpFailed
      case Body(text) =>
        match env.parse(text)
        case None => c' == looked && outcome == ParseFailed
        case Some(j) =>
          if SaysFailure(j) then c' == looked && outcome == ApiError
          else
            && outcome == Answer(j) && Entry(key, text, t.stored, c.ttl) in c'.entries
            && env.fileOf(key) in c'.files && c'.files[env.fileOf(key)] == File(env.dump(j), t.written)
  {
    if reply.Body? && env.Parses(reply.text) {
      var j, c1 := env.parse(reply.text).value, Get(env, c, key, t.asked, t.loaded).0;
      ApiErrorExactly(j);
      GetKeepsShape(env, c, key, t.asked, t.loaded);
      ShapedLater(c1.entries, c.ttl, t.loaded, t.stored);
      hide Get, Set, Shaped, SaysFailure, IsApiError;
      L.SetLeaves(env, c1, key, reply.text, t.stored, t.written);
    }
  }

  /** What a request does that the cache can answer: the server has no say. */
  lemma HitOutcome(env: Env, c: Cache, key: string, t: Times, reply: Reply)
    requires Answerable(env, c, key, t)
    ensures var (looked, v) := Get(env, c, key, t.asked, t.loaded);
      v.Some? && env.parse(v.value).Some?
      && MakeRequest(env, c, key, t, reply) == (looked, Answer(env.parse(v.value).value))
  {
    hide Get;
  }

  /**
   * An answer fetched from the server is what the same request yields again for ttl seconds after it
   * was stored, from memory, with no change to the cache, whatever the server would say then.
   */
  lemma SecondAskHits(env: Env, c: Cache, key: string, t: Times, reply: Reply, later: Times, other: Reply)
    requires c.maxEntries > 0 && Shaped(c.entries, c.ttl, t.asked) && InOrder(t)
    requires t.stored <= later.asked <= t.stored + c.ttl && !Answerable(env, c, key, t)
    ensures var (c', outcome) := MakeRequest(env, c, key, t, reply);
      outcome.Answer? ==>
        MakeRequest(env, c', key, later, other) == (c', outcome) && Answerable(env, c', key, later)
  {
    var c1 := Get(env, c, key, t.asked, t.loaded).0;
    GetKeepsShape(env, c, key, t.asked, t.loaded);
    ShapedLater(c1.entries, c.ttl, t.loaded, t.stored);
    hide Get, Shaped;
    if reply.Body? && env.Parses(reply.text) {
      GetAfterWait(env, c1, key, reply.text, t, later);
    }
  }

  /** A value that parses is found for ttl seconds after it was set. */
  lemma GetAfterWait(env: Env, c: Cache, key: string, json: string, t: Times, later: Times)
    requires c.maxEntries > 0 && Shaped(c.entries, c.ttl, t.stored) && env.Parses(json)
    requires t.stored <= later.asked <= t.stored + c.ttl
    ensures var c' := Set(env, c, key, json, t.stored, t.written);
      Get(env, c', key, later.asked, later.loaded) == (c', Some(json))
  {
    var r := Without(c.entries, key);
    var c' := Set(env, c, key, json, t.stored, t.written);
    ShapedWithout(c.entries, c.ttl, t.stored, key);
    EvictDropsHead(env, r, c.files, c.maxEntries, t.stored);
    hide Without, Evict;
    assert c'.entries[|c'.entries| - 1] == Entry(key, json, t.stored, c.ttl);
    assert Find(c'.entries, key) == |c'.entries| - 1;
  }

  class WeatherClient {
    const cache: C.ClientCache

    constructor (cache: C.ClientCache)
      ensures this.cache == cache
    {
      this.cache := cache;
    }

    /** `makeRequest`, the reply of the server given; hit tells that the server was not asked. */
    method Request(env: Env, dir: C.Directory, key: string, t: Times, reply: Reply)
      returns (outcome: Outcome, hit: bool)
      requires cache.Valid()
      modifies cache.entries, cache.entries.nodes, cache.freed`freedNodes, cache.freed`freedItems, dir
      ensures cache.Valid() && forall n :: n in cache.entries.nodes ==> n in old(cache.entries.nodes) || fresh(n)
      ensures (cache.State(dir), outcome) == MakeRequest(env, old(cache.State(dir)), key, t, reply)
      ensures hit <==> Answerable(env, old(cache.State(dir)), key, t)
    {
      hide Get, Set;
      var cached := cache.Get(env, dir, Some(key), t.asked, t.loaded);
      if cached.Some? {
        var result := env.parse(cached.value);
        if result.Some? { return Answer(result.value), true; }
      }
      hit := false;
      if reply.NoAnswer? { return HttpFailed, false; }
      var result := env.parse(reply.text);
      if result.None? { return ParseFailed, false; }
      if result.value.JObject? {
        var field := Lookup(result.value.fields, "success");
        if field.Some? && field.value.JBool? && !field.value.b { return ApiError, false; }
      }
      assert forall i :: 0 <= i < |cache.entries.nodes| ==> cache.entries.nodes[i] in cache.entries.nodes;
      var _ := cache.Set(env, dir, Some(key), Some(reply.text), t.stored, t.written);
      return Answer(result.value), false;
    }
  }

  // ----- runs -----

  /** How long a request looks into the cache, waits for the server, and writes the file. */
  datatype Delays = Delays(load: nat, serve: nat, save: nat)

  function TimesFrom(now: int, d: Delays): (t: Times)
    ensures InOrder(t) && t.asked == now
  {
    Times(now, now + d.load, now + d.load + d.serve, now + d.load + d.serve + d.save)
  }

  datatype Call =
    | Ask(key: string, reply: Reply, delays: Delays)
    | ClearAll
    | Wait(seconds: nat)
    | Reboot

  /** The cache, the clock, and every body the server has returned, with the key it was asked under. */
  datatype Session = Session(cache: Cache, now: int, served: set<(string, string)>)

  function Proceed(env: Env, s: Session, call: Call): (Session, Option<Outcome>) {
    match call
    case Ask(key, reply, delays) =>
      var t := TimesFrom(s.now, delays);
      var (c, outcome) := MakeRequest(env, s.cache, key, t, reply);
      var asked := !Answerable(env, s.cache, key, t) && reply.Body?;
      (Session(c, t.written, if asked then s.served + {(key, reply.text)} else s.served), Some(outcome))
    case ClearAll => (s.(cache := Clear(env, s.cache)), None)
    case Wait(seconds) => (s.(now := s.now + seconds), None)
    case Reboot => (s.(cache := Restart(s.cache)), None)
  }

  function Converse(env: Env, s: Session, calls: seq<Call>): Session {
    if calls == [] then s else Proceed(env, Converse(env, s, calls[..|calls| - 1]), calls[|calls| - 1]).0
  }

  /** The text is, up to reformatting, a body served under the key; it parses and is no API error. */
  ghost predicate Clean(env: Env, served: set<(string, string)>, key: string, text: string) {
    exists body :: (key, body) in served && env.Parses(body)
      && env.parse(text) == env.parse(body) && !SaysFailure(env.parse(body).value)
  }

  ghost predicate FileClean(env: Env, keys: set<string>, served: set<(string, string)>, name: string, text: string) {
    forall key :: key in keys && env.fileOf(key) == name ==> Clean(env, served, key, text)
  }

  /** Everything cached, in memory and on disk, is clean. */
  ghost predicate AllClean(env: Env, keys: set<string>, s: Session) {
    && (forall e :: e in s.cache.entries ==> Clean(env, s.served, e.key, e.json))
    && (forall n :: n in s.cache.files ==> FileClean(env, keys, s.served, n, s.cache.files[n].text))
  }

  lemma CleanGrows(env: Env, served: set<(string, string)>, more: set<(string, string)>, key: string, text: string)
    requires Clean(env, served, key, text) && served <= more
    ensures Clean(env, more, key, text)
  {
  }

  lemma CleanCanonical(env: Env, served: set<(string, string)>, key: string, text: string)
    requires env.RoundTrips() && Clean(env, served, key, text)
    ensures Clean(env, served, key, env.Canonical(text)) && env.Parses(text)
  {
  }

  /** Nothing new in memory or on disk. */
  ghost predicate SubCache(c: Cache, c': Cache) {
    && (forall e :: e in c'.entries ==> e in c.entries)
    && (forall n :: n in c'.files ==> n in c.files && c'.files[n] == c.files[n])
  }

  lemma RemoveAtSub<T>(s: seq<T>, i: nat)
    requires i < |s|
    ensures forall x :: x in RemoveAt(s, i) ==> x in s
  {
  }

  /** What a get leaves: nothing new, or a reloaded entry under the key. */
  lemma GetAdds(env: Env, c: Cache, key: string, now: int, loadedAt: int)
    ensures var (c', v) := Get(env, c, key, now, loadedAt);
      SubCache(c, c') || (v.Some? && env.fileOf(key) in c.files && env.Parses(c.files[env.fileOf(key)].text)
        && v.value == env.Canonical(c.files[env.fileOf(key)].text)
        && SubCache(c, c'.(entries := c.entries)) && c'.entries == c.entries + [Entry(key, v.value, loadedAt, c.ttl)])
  {
    var i := Find(c.entries, key);
    if i < |c.entries| { RemoveAtSub(c.entries, i); }
  }

  /** What a value returned by a get is: the json of an entry, or a file read back. */
  lemma GetReturns(env: Env, c: Cache, key: string, now: int, loadedAt: int)
    ensures var v, n := Get(env, c, key, now, loadedAt).1, env.fileOf(key);
      || v.None?
      || (exists e :: e in c.entries && e.key == key && e.json == v.value)
      || (n in c.files && env.Parses(c.files[n].text) && v.value == env.Canonical(c.files[n].text))
  {
    var i := Find(c.entries, key);
    if i < |c.entries| { assert c.entries[i] in c.entries; }
  }

  /** What a set leaves: nothing new but the entry and the file under the key. */
  lemma SetAdds(env: Env, c: Cache, key: string, json: string, now: int, written: int)
    ensures var c' := Set(env, c, key, json, now, written);
      && (forall e :: e in c'.entries ==> e in c.entries || e == Entry(key, json, now, c.ttl))
      && (forall n :: n in c'.files ==>
            (n in c.files && c'.files[n] == c.files[n])
            || (n == env.fileOf(key) && env.Parses(json) && c'.files[n] == File(env.Canonical(json), written)))
  {
    var i := Find(c.entries, key);
    if i < |c.entries| { RemoveAtSub(c.entries, i); }
    var r := Without(c.entries, key);
    if |r| >= c.maxEntries && r != [] { RemoveAtSub(r, Oldest(r)); }
    hide Without, RemoveAt;
  }

  lemma SubStaysClean(env: Env, keys: set<string>, s: Session, c': Cache, more: set<(string, string)>)
    requires AllClean(env, keys, s) && SubCache(s.cache, c') && s.served <= more
    ensures AllClean(env, keys, s.(cache := c', served := more))
  {
    forall n | n in c'.files
      ensures FileClean(env, keys, more, n, c'.files[n].text)
    {
      assert FileClean(env, keys, s.served, n, s.cache.files[n].text);
      forall key | key in keys && env.fileOf(key) == n
        ensures Clean(env, more, key, c'.files[n].text)
      {
        CleanGrows(env, s.served, more, key, c'.files[n].text);
      }
    }
  }

  /** Reading the cache keeps everything clean, and what it returns is clean. */
  lemma GetStaysClean(env: Env, keys: set<string>, s: Session, key: string, now: int, loadedAt: int)
    requires env.RoundTrips() && key in keys && AllClean(env, keys, s)
    ensures var (c', v) := Get(env, s.cache, key, now, loadedAt);
      AllClean(env, keys, s.(cache := c')) && (v.Some? ==> Clean(env, s.served, key, v.value))
  {
    var c := s.cache;
    var (c', v) := Get(env, c, key, now, loadedAt);
    GetAdds(env, c, key, now, loadedAt);
    GetReturns(env, c, key, now, loadedAt);
    if env.fileOf(key) in c.files {
      assert FileClean(env, keys, s.served, env.fileOf(key), c.files[env.fileOf(key)].text);
      CleanCanonical(env, s.served, key, c.files[env.fileOf(key)].text);
    }
    hide Get;
    if SubCache(c, c') {
      SubStaysClean(env, keys, s, c', s.served);
    } else {
      SubStaysClean(env, keys, s, c'.(entries := c.entries), s.served);
    }
  }

  /** Storing a clean body keeps everything clean. */
  lemma SetStaysClean(env: Env, keys: set<string>, s: Session, key: string, body: string, now: int, written: int)
    requires env.RoundTrips() && env.NamesDistinct(keys) && key in keys && AllClean(env, keys, s)
    requires Clean(env, s.served, key, body)
    ensures AllClean(env, keys, s.(cache := Set(env, s.cache, key, body, now, written)))
  {
    SetAdds(env, s.cache, key, body, now, written);
    hide Set;
    CleanCanonical(env, s.served, key, body);
    var c' := Set(env, s.cache, key, body, now, written);
    forall n | n in c'.files
      ensures FileClean(env, keys, s.served, n, c'.files[n].text)
    {
      if n in s.cache.files && c'.files[n] == s.cache.files[n] {
        assert FileClean(env, keys, s.served, n, s.cache.files[n].text);
      }
    }
  }

  /** A request keeps the session clean; its answer, if any, is what the server once said, and no API error. */
  lemma AskStaysClean(env: Env, keys: set<string>, s: Session, key: string, reply: Reply, d: Delays)
    requires env.RoundTrips() && env.NamesDistinct(keys) && key in keys && AllClean(env, keys, s)
    ensures var (s', outcome) := Proceed(env, s, Ask(key, reply, d));
      && AllClean(env, keys, s')
      && (outcome.value.Answer? ==> AnswerServed(env, s'.served, key, outcome.value.json))
  {
    var t := TimesFrom(s.now, d);
    var (c1, v) := Get(env, s.cache, key, t.asked, t.loaded);
    var s' := Proceed(env, s, Ask(key, reply, d)).0;
    GetStaysClean(env, keys, s, key, t.asked, t.loaded);
    hide Get, Set;
    if Hit(env, v) {
      var body :| (key, body) in s.served && env.Parses(body)
        && env.parse(v.value) == env.parse(body) && !SaysFailure(env.parse(body).value);
      assert AnswerServed(env, s'.served, key, env.parse(v.value).value);
    } else if reply.Body? {
      SubStaysClean(env, keys, s.(cache := c1), c1, s'.served);
      if env.Parses(reply.text) { ApiErrorExactly(env.parse(reply.text).value); }
      if env.Parses(reply.text) && !IsApiError(env.parse(reply.text).value) {
        assert (key, reply.text) in s'.served;
        assert Clean(env, s'.served, key, reply.text);
        SetStaysClean(env, keys, s.(cache := c1, served := s'.served), key, reply.text, t.stored, t.written);
        assert AnswerServed(env, s'.served, key, env.parse(reply.text).value);
      }
    }
  }

  /** The answer is a body that the server returned under this key, and not an error response. */
  ghost predicate AnswerServed(env: Env, served: set<(string, string)>, key: string, json: Json) {
    !SaysFailure(json) && exists body :: (key, body) in served && env.parse(body) == Some(json)
  }

  lemma ProceedStaysClean(env: Env, keys: set<string>, s: Session, call: Call)
    requires env.RoundTrips() && env.NamesDistinct(keys) && AllClean(env, keys, s) && (call.Ask? ==> call.key in keys)
    ensures AllClean(env, keys, Proceed(env, s, call).0)
  {
    match call
    case Ask(key, reply, d) => AskStaysClean(env, keys, s, key, reply, d);
    case ClearAll => SubStaysClean(env, keys, s, Clear(env, s.cache), s.served);
    case Wait(_) =>
    case Reboot => SubStaysClean(env, keys, s, Restart(s.cache), s.served);
  }

  lemma {:induction false} RunStaysClean(env: Env, keys: set<string>, s: Session, calls: seq<Call>)
    requires env.RoundTrips() && env.NamesDistinct(keys) && AllClean(env, keys, s)
    requires forall i :: 0 <= i < |calls| && calls[i].Ask? ==> calls[i].key in keys
    ensures AllClean(env, keys, Converse(env, s, calls))
  {
    if calls != [] {
      var n := |calls| - 1;
      RunStaysClean(env, keys, s, calls[..n]);
      ProceedStaysClean(env, keys, Converse(env, s, calls[..n]), calls[n]);
    }
  }

  /**
   * For every run of requests, clears, waits and restarts over arbitrary server replies, from files
   * that are clean themselves: everything cached stays clean, and every answer of the next request,
   * from the cache or not, is a body the server returned under that key and never an API error.
   */
  lemma NoErrorIsCached(env: Env, keys: set<string>, s: Session, calls: seq<Call>, key: string, reply: Reply, d: Delays)
    requires env.RoundTrips() && env.NamesDistinct(keys) && AllClean(env, keys, s) && key in keys
    requires forall i :: 0 <= i < |calls| && calls[i].Ask? ==> calls[i].key in keys
    ensures AllClean(env, keys, Converse(env, s, calls))
    ensures var (s', outcome) := Proceed(env, Converse(env, s, calls), Ask(key, reply, d));
      outcome.value.Answer? ==> AnswerServed(env, s'.served, key, outcome.value.json)
  {
    RunStaysClean(env, keys, s, calls);
    AskStaysClean(env, keys, Converse(env, s, calls), key, reply, d);
  }

  // ----- the cache in every session -----

  /** A session that has just begun, in a directory that may hold files. */
  predicate Opened(s: Session) {
    s.cache.entries == [] && s.cache.maxEntries > 0 && s.cache.ttl > 0
  }

  lemma RequestKeepsShape(env: Env, c: Cache, key: string, t: Times, reply: Reply)
    requires c.maxEntries > 0 && Shaped(c.entries, c.ttl, t.asked) && InOrder(t)
    ensures var c' := MakeRequest(env, c, key, t, reply).0;
      c'.maxEntries == c.maxEntries && c'.ttl == c.ttl && Shaped(c'.entries, c.ttl, t.written)
  {
    var c1 := Get(env, c, key, t.asked, t.loaded).0;
    GetKeepsShape(env, c, key, t.asked, t.loaded);
    ShapedLater(c1.entries, c.ttl, t.loaded, t.stored);
    ShapedLater(c1.entries, c.ttl, t.stored, t.written);
    hide Get, Set, Shaped;
    if reply.Body? { SetKeepsShape(env, c1, key, reply.text, t.stored, t.written); }
  }

  /** In every session the keys in memory are distinct and the list is sorted by creation time. */
  lemma {:induction false} SessionShape(env: Env, s: Session, calls: seq<Call>)
    requires Opened(s)
    ensures var r := Converse(env, s, calls);
      r.cache.maxEntries == s.cache.maxEntries && r.cache.ttl == s.cache.ttl
        && Shaped(r.cache.entries, r.cache.ttl, r.now)
  {
    if calls != [] {
      var n := |calls| - 1;
      SessionShape(env, s, calls[..n]);
      var r := Converse(env, s, calls[..n]);
      match calls[n]
      case Ask(key, reply, d) =>
        hide MakeRequest, Shaped;
        RequestKeepsShape(env, r.cache, key, TimesFrom(r.now, d), reply);
      case ClearAll =>
      case Wait(seconds) => ShapedLater(r.cache.entries, r.cache.ttl, r.now, r.now + seconds);
      case Reboot =>
    }
  }

  /** So in every session an answer from the server is good for ttl seconds. */
  lemma AnswerIsKept(env: Env, s: Session, calls: seq<Call>, key: string, d: Delays, reply: Reply,
    later: Times, other: Reply)
    requires Opened(s)
    ensures var r := Converse(env, s, calls);
      var t := TimesFrom(r.now, d);
      var (c', outcome) := MakeRequest(env, r.cache, key, t, reply);
      !Answerable(env, r.cache, key, t) && outcome.Answer? && t.stored <= later.asked <= t.stored + s.cache.ttl ==>
        MakeRequest(env, c', key, later, other) == (c', outcome) && Answerable(env, c', key, later)
  {
    SessionShape(env, s, calls);
    hide Converse, MakeRequest, Answerable, Shaped;
    var r := Converse(env, s, calls);
    var t := TimesFrom(r.now, d);
    if !Answerable(env, r.cache, key, t) && t.stored <= later.asked <= t.stored + s.cache.ttl {
      SecondAskHits(env, r.cache, key, t, reply, later, other);
    }
  }

  /** The client as its constructor leaves it: the cache created with the two constants. */
  function Opening(files: Files, now: int): Session {
    Session(Create(files, CACHE_MAX_ENTRIES, CACHE_DEFAULT_TTL), now, {})
  }

  /** From there on, in whatever directory, an answer from the server is good for five minutes. */
  lemma AnswerIsKeptFiveMinutes(env: Env, files: Files, now: int, calls: seq<Call>, key: string, d: Delays,
                                reply: Reply, later: Times, other: Reply)
    ensures var r := Converse(env, Opening(files, now), calls);
      var t := TimesFrom(r.now, d);
      var (c', outcome) := MakeRequest(env, r.cache, key, t, reply);
      !Answerable(env, r.cache, key, t) && outcome.Answer? && t.stored <= later.asked <= t.stored + 300 ==>
        MakeRequest(env, c', key, later, other) == (c', outcome)
  {
    CreateSettings(files, CACHE_MAX_ENTRIES, CACHE_DEFAULT_TTL);
    hide Converse, MakeRequest, Answerable;
    AnswerIsKept(env, Opening(files, now), calls, key, d, reply, later, other);
  }
}
