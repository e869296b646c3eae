/** What one call of src/utils/client_cache.c leaves in memory and in the directory, and what it leaves alone. */
module CacheEffects {
  import opened Base
  import opened CacheSpec
  import opened CacheRuns
  import opened CacheFifo

  /** Only these files are made, changed or removed. */
  predicate SameBut(files: Files, files': Files, names: set<string>) {
    files' - names == files - names
  }

  /**
   * A get without a value leaves no entry under the key, and no file, but for a young one that does
   * not parse. One with a value leaves the file there, and the value in memory.
   */
  lemma GetLeaves(env: Env, c: Cache, key: string, now: int, loadedAt: int)
    requires Keyed(c.entries)
    ensures var ((c', v), n) := (Get(env, c, key, now, loadedAt), env.fileOf(key));
      && SameBut(c.files, c'.files, {n}) && (n in c'.files ==> n in c.files && c'.files[n] == c.files[n])
      && (v.None? ==> forall e :: e in c'.entries ==> e.key != key)
      && (v.None? && n in c'.files ==> now - c.files[n].mtime <= c.ttl && env.parse(c.files[n].text) == None)
      && (v.Some? ==> n in c'.files && exists e :: e in c'.entries && e.key == key && e.json == v.value)
  {
    var c', v, i := Get(env, c, key, now, loadedAt).0, Get(env, c, key, now, loadedAt).1, Find(c.entries, key);
    if v.Some? {
      var e := if i < |c.entries| then c.entries[i] else Entry(key, v.value, loadedAt, c.ttl);
      assert e in c'.entries && e.key == key && e.json == v.value;
    }
  }

  /** A reload yields the parsed text printed, and appends it with the time at which that is done. */
  lemma ReloadPrints(env: Env, c: Cache, key: string, j: Json, now: int, loadedAt: int)
    requires forall e :: e in c.entries ==> e.key != key
    requires env.fileOf(key) in c.files && now - c.files[env.fileOf(key)].mtime <= c.ttl
    requires env.parse(c.files[env.fileOf(key)].text) == Some(j)
    ensures Get(env, c, key, now, loadedAt)
      == (c.(entries := c.entries + [Entry(key, env.dump(j), loadedAt, c.ttl)]), Some(env.dump(j)))
  {
    NoneUnder(c.entries, key);
  }

  lemma NoneUnder(s: seq<Entry>, key: string)
    requires forall e :: e in s ==> e.key != key
    ensures Find(s, key) == |s|
  {
  }

  /** The entries under other keys that a set drops. */
  ghost function Gone(c: Cache, c': Cache, key: string): set<Entry> {
    set e | e in c.entries && e.key != key && e !in c'.entries
  }

  ghost function FilesOf(env: Env, s: set<Entry>): set<string> {
    set e | e in s :: env.fileOf(e.key)
  }

  /** Which entry is evicted: one when the others fill the list, and that one is the oldest of them. */
  lemma SetEvicts(env: Env, c: Cache, key: string, json: string, now: int, written: int)
    requires Shaped(c.entries, c.ttl, now) && c.maxEntries > 0
    ensures var r, gone := Without(c.entries, key), Gone(c, Set(env, c, key, json, now, written), key);
      && (forall e :: e in r <==> e in c.entries && e.key != key)
      && gone == (if |r| >= c.maxEntries then {r[0]} else {})
      && (forall e, x :: e in gone && x in c.entries && x.key != key ==> e.createdAt <= x.createdAt)
  {
    var r := Without(c.entries, key);
    var full, c' := |r| >= c.maxEntries, Set(env, c, key, json, now, written);
    WithoutMembers(c.entries, key);
    ShapedWithout(c.entries, c.ttl, now, key);
    EvictDropsHead(env, r, c.files, c.maxEntries, now);
    assert c'.entries == (if full then r[1..] else r) + [Entry(key, json, now, c.ttl)] by { hide Without, Shaped; }
    hide Without, Set, Evict;
    GoneIs(c, c', key, r, full, Entry(key, json, now, c.ttl));
    if full { HeadIsOldest(r, now); }
  }

  lemma HeadIsOldest(r: seq<Entry>, now: int)
    requires Ordered(r, now) && r != []
    ensures forall x :: x in r ==> r[0].createdAt <= x.createdAt
  {
  }

  lemma GoneIs(c: Cache, c': Cache, key: string, r: seq<Entry>, full: bool, e: Entry)
    requires Keyed(r) && (full ==> r != []) && e.key == key && (forall x :: x in r <==> x in c.entries && x.key != key)
    requires c'.entries == (if full then r[1..] else r) + [e]
    ensures Gone(c, c', key) == if full then {r[0]} else {}
  {
    forall x
      ensures x in Gone(c, c', key) <==> full && x == r[0]
    {
      if full { HeadAndRest(r, x); }
    }
  }

  lemma HeadAndRest(r: seq<Entry>, x: Entry)
    requires Keyed(r) && r != []
    ensures x in r <==> x == r[0] || x in r[1..]
    ensures r[0] !in r[1..]
  {
  }

  /**
   * A set puts the entry at the end, writes the parsed text printed, when it parses, and removes the
   * file of the entry that it evicts; no other file is touched.
   */
  lemma SetLeaves(env: Env, c: Cache, key: string, json: string, now: int, written: int)
    requires Shaped(c.entries, c.ttl, now) && c.maxEntries > 0
    ensures var c', n := Set(env, c, key, json, now, written), env.fileOf(key);
      var owned := FilesOf(env, Gone(c, c', key));
      && c'.entries != [] && c'.entries[|c'.entries| - 1] == Entry(key, json, now, c.ttl)
      && SameBut(c.files, c'.files, {n} + owned) && (forall m :: m in owned && m in c'.files ==> m == n)
      && (forall j :: env.parse(json) == Some(j) ==> n in c'.files && c'.files[n] == File(env.dump(j), written))
      && (env.parse(json).None? ==> (n in c'.files <==> n in c.files && n !in owned))
      && (env.parse(json).None? && n in c'.files ==> c'.files[n] == c.files[n])
  {
    SetEvicts(env, c, key, json, now, written);
    SetMakes(env, c, key, json, now, written);
    hide Without, Shaped, Set, Gone;
    var r, c' := Without(c.entries, key), Set(env, c, key, json, now, written);
    var owned := if |r| >= c.maxEntries then {env.fileOf(r[0].key)} else {};
    assert FilesOf(env, Gone(c, c', key)) == owned;
    SaveLeaves(env, c.files, owned, key, json, written);
  }

  lemma SetMakes(env: Env, c: Cache, key: string, json: string, now: int, written: int)
    requires Shaped(c.entries, c.ttl, now) && c.maxEntries > 0
    ensures var r, c' := Without(c.entries, key), Set(env, c, key, json, now, written);
      var owned := if |r| >= c.maxEntries then {env.fileOf(r[0].key)} else {};
      && c'.entries != [] && c'.entries[|c'.entries| - 1] == Entry(key, json, now, c.ttl)
      && c'.files == Save(env, c.files - owned, key, json, written)
  {
    var r := Without(c.entries, key);
    ShapedWithout(c.entries, c.ttl, now, key);
    ShapedIsOrdered(r, c.ttl, now);
    hide Without, Shaped, Ordered, Save;
    EvictDropsHead(env, r, c.files, c.maxEntries, now);
    hide Evict;
    assert c.files - {} == c.files;
  }

  lemma SaveLeaves(env: Env, files: Files, owned: set<string>, key: string, json: string, written: int)
    ensures var files', n := Save(env, files - owned, key, json, written), env.fileOf(key);
      && SameBut(files, files', {n} + owned) && (forall m :: m in owned && m in files' ==> m == n)
      && (forall j :: env.parse(json) == Some(j) ==> n in files' && files'[n] == File(env.dump(j), written))
      && (env.parse(json).None? ==> (n in files' <==> n in files && n !in owned))
      && (env.parse(json).None? && n in files' ==> files'[n] == files[n])
  {
  }

  /** A clear spares "README.md", unless an entry owned it, and nothing else. */
  lemma ClearSpares(env: Env, c: Cache)
    ensures var c' := Clear(env, c);
      && c'.entries == [] && c'.maxEntries == c.maxEntries && c'.ttl == c.ttl
      && (forall n :: n in c'.files <==>
            n == "README.md" && n in c.files && forall e :: e in c.entries ==> env.fileOf(e.key) != "README.md")
      && (forall n :: n in c'.files ==> c'.files[n] == c.files[n])
  {
  }
}
