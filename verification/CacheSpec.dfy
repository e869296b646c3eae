/**
 * The two-tier cache of src/utils/client_cache.c on values: an entry list in memory and a directory
 * of files, with set, get and clear as functions of the state. `ClientCache` is the same on the heap
 * and is proved against these functions; `CacheRuns` and its neighbours reason about whole runs.
 */
module CacheSpec {
  import opened Base

  datatype Json =
    | JNull
    | JBool(b: bool)
    | JNumber(text: string)
    | JString(s: string)
    | JArray(items: seq<Json>)
    | JObject(fields: seq<(string, Json)>)

  /** `json_object_get`; the keys of an object are distinct, and their order is kept. */
  function Lookup(fields: seq<(string, Json)>, name: string): Option<Json> {
    if fields == [] then None
    else if fields[0].0 == name then Some(fields[0].1)
    else Lookup(fields[1..], name)
  }

  /**
   * What the cache takes from outside: the file name a key hashes to, and the parser and printer of
   * the JSON library.
   */
  datatype Env = Env(fileOf: string -> string, parse: string -> Option<Json>, dump: Json -> string) {
    /** What was parsed survives printing and parsing again. */
    ghost predicate RoundTrips() {
      forall t :: Parses(t) ==> parse(dump(parse(t).value)) == parse(t)
    }

    predicate Parses(text: string) {
      parse(text).Some?
    }

    /** What a text becomes on its way through a file. */
    function Canonical(text: string): string {
      if Parses(text) then dump(parse(text).value) else text
    }

    /** Different keys of this set have different files, none of them the one `clear` spares. */
    ghost predicate NamesDistinct(keys: set<string>) {
      && (forall k, l :: k in keys && l in keys && fileOf(k) == fileOf(l) ==> k == l)
      && (forall k :: k in keys ==> fileOf(k) != SPARED)
    }
  }

  const SPARED := "README.md"
  const CACHE_MAX_ENTRIES: nat := 50
  const CACHE_DEFAULT_TTL: int := 300

  datatype Entry = Entry(key: string, json: string, createdAt: int, ttl: int)
  datatype File = File(text: string, mtime: int)
  type Files = map<string, File>

  /** The entry list from head to tail, the directory, and the two settings. */
  datatype Cache = Cache(entries: seq<Entry>, files: Files, maxEntries: nat, ttl: int)

  /** `client_cache_create`, in a directory that may already hold files. */
  function Create(files: Files, maxEntries: nat, ttl: int): Cache {
    Cache([], files, if maxEntries > 0 then maxEntries else CACHE_MAX_ENTRIES,
      if ttl > 0 then ttl else CACHE_DEFAULT_TTL)
  }

  /** Settings that are positive are kept; a cache for none gets 50 entries and 300 seconds. */
  lemma CreateSettings(files: Files, maxEntries: nat, ttl: int)
    ensures var c := Create(files, maxEntries, ttl);
      && c.entries == [] && c.files == files
      && (maxEntries > 0 ==> c.maxEntries == maxEntries) && Create(files, 0, ttl).maxEntries == 50
      && (ttl > 0 ==> c.ttl == ttl) && (ttl <= 0 ==> c.ttl == 300)
  {
  }

  // ----- the entry list -----

  function RemoveAt<T>(s: seq<T>, i: nat): (r: seq<T>)
    requires i < |s|
    ensures |r| == |s| - 1
  {
    s[..i] + s[i + 1..]
  }

  /** The position of the first entry under key, |s| if there is none. */
  function Find(s: seq<Entry>, key: string): (i: nat)
    ensures i <= |s|
    ensures i < |s| ==> s[i].key == key
    ensures forall j :: 0 <= j < i ==> s[j].key != key
  {
    if s == [] then 0 else if s[0].key == key then 0 else 1 + Find(s[1..], key)
  }

  /** The position of the first entry with the least creation time. */
  function Oldest(s: seq<Entry>): (i: nat)
    requires s != []
    ensures i < |s|
    ensures forall j :: 0 <= j < |s| ==> s[i].createdAt <= s[j].createdAt
    ensures forall j :: 0 <= j < i ==> s[i].createdAt < s[j].createdAt
  {
    var n := |s| - 1;
    if n == 0 then 0 else
      var i := Oldest(s[..n]);
      if s[n].createdAt < s[i].createdAt then n else i
  }

  /** The first loop of `client_cache_set`: drop the entry under key. */
  function Without(s: seq<Entry>, key: string): seq<Entry> {
    var i := Find(s, key);
    if i < |s| then RemoveAt(s, i) else s
  }

  // ----- the files -----

  /** `unlink`; no error when the file is missing. */
  function Unlink(files: Files, name: string): Files {
    files - {name}
  }

  /** `save_to_file`: reformat and write, done at this time; a text that does not parse is not written. */
  function Save(env: Env, files: Files, key: string, json: string, written: int): Files {
    if env.Parses(json) then files[env.fileOf(key) := File(env.Canonical(json), written)] else files
  }

  /** `is_cache_file_valid`. */
  predicate FileValid(files: Files, name: string, ttl: int, now: int) {
    name in files && now - files[name].mtime <= ttl
  }

  /** `load_from_file`: an expired file is unlinked, one that does not parse is left alone. */
  function Load(env: Env, files: Files, key: string, ttl: int, now: int): (Files, Option<string>) {
    var name := env.fileOf(key);
    if !FileValid(files, name, ttl, now) then (Unlink(files, name), None)
    else if !env.Parses(files[name].text) then (files, None)
    else (files, Some(env.Canonical(files[name].text)))
  }

  // ----- the operations -----

  /** Where a full list loses its oldest entry, and the directory that entry's file. */
  function Evict(env: Env, s: seq<Entry>, files: Files, maxEntries: nat): (seq<Entry>, Files) {
    if |s| >= maxEntries && s != [] then
      var i := Oldest(s);
      (RemoveAt(s, i), Unlink(files, env.fileOf(s[i].key)))
    else (s, files)
  }

  /** `client_cache_set`: the entry is made at time now, and the file is written at the other. */
  function Set(env: Env, c: Cache, key: string, json: string, now: int, written: int): Cache {
    var (s, files) := Evict(env, Without(c.entries, key), c.files, c.maxEntries);
    c.(entries := s + [Entry(key, json, now, c.ttl)], files := Save(env, files, key, json, written))
  }

  /**
   * `client_cache_get`: the new state and the value, None for NULL. Entry and file are looked at at
   * time now; an entry made from the file gets the time at which that is done.
   */
  function Get(env: Env, c: Cache, key: string, now: int, loadedAt: int): (Cache, Option<string>) {
    var i := Find(c.entries, key);
    if i < |c.entries| then
      var e := c.entries[i];
      if now - e.createdAt > e.ttl then
        (c.(entries := RemoveAt(c.entries, i), files := Unlink(c.files, env.fileOf(key))), None)
      else if env.fileOf(key) !in c.files then
        (c.(entries := RemoveAt(c.entries, i)), None)
      else (c, Some(e.json))
    else
      var (files, loaded) := Load(env, c.files, key, c.ttl, now);
      if loaded.Some? then
        (c.(entries := c.entries + [Entry(key, loaded.value, loadedAt, c.ttl)], files := files), loaded)
      else (c.(files := files), None)
  }

  /** `client_cache_clear`: no entries, and of the files only the spared one, unless an entry owned it. */
  function Clear(env: Env, c: Cache): Cache {
    var owned := set e | e in c.entries :: env.fileOf(e.key);
    c.(entries := [], files := map n | n in c.files && n == SPARED && n !in owned :: c.files[n])
  }

  /** The process ends and a new one starts in the same directory. */
  function Restart(c: Cache): Cache {
    c.(entries := [])
  }
}
