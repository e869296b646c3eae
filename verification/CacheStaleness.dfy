/**
 * How old a cached value can be when processes come and go over one directory. The reload stamps
 * the entry with the current time, not with the age of the file, so the bound is twice the ttl.
 */
module CacheStaleness {
  import opened Base
  import opened CacheSpec
  import opened CacheRuns
  import opened CacheFifo

  /** Any calls with keys from a set and values that parse, restarts included. */
  predicate Saves(env: Env, keys: set<string>, op: Op) {
    match op
    case OpSet(key, json, _) => key in keys && env.Parses(json)
    case OpGet(key, _) => key in keys
    case _ => true
  }

  ghost predicate AllSave(env: Env, keys: set<string>, ops: seq<Op>) {
    forall i :: 0 <= i < |ops| ==> Saves(env, keys, ops[i])
  }

  predicate RestartBetween(ops: seq<Op>, i: nat, g: nat)
    requires g <= |ops|
  {
    exists j :: i < j < g && ops[j].OpRestart?
  }

  predicate RestartAfter(ops: seq<Op>, i: nat) {
    RestartBetween(ops, i, |ops|)
  }

  /** When call i was made. */
  function CallTime(w0: World, ops: seq<Op>, i: nat): int
    requires i < |ops|
  {
    Clock(w0.now, ops[..i])
  }

  /** When it was done: a set has then written its file, and a get its entry. */
  function DoneTime(w0: World, ops: seq<Op>, i: nat): int
    requires i < |ops|
  {
    CallTime(w0, ops, i) + Duration(ops[i])
  }

  /**
   * Call g is a get in the present process that reloaded the value of set i, made in an earlier one,
   * from its file, when that was no older than ttl.
   */
  ghost predicate Revives(env: Env, w0: World, ops: seq<Op>, key: string, i: nat, g: nat) {
    && i < g < |ops| && ops[g].OpGet? && ops[g].key == key && Reloads(env, Run(env, w0, ops[..g]), ops[g])
    && RestartBetween(ops, i, g) && !RestartAfter(ops, g)
    && DoneTime(w0, ops, i) <= CallTime(w0, ops, g) <= DoneTime(w0, ops, i) + w0.cache.ttl
  }

  /** The time is that of set i, made in the present process, or that of a get that revived it. */
  ghost predicate SetOrRevived(env: Env, w0: World, ops: seq<Op>, key: string, i: nat, at: int)
    requires i < |ops|
  {
    || (at == CallTime(w0, ops, i) && !RestartAfter(ops, i))
    || exists g: nat :: Revives(env, w0, ops, key, i, g) && at == DoneTime(w0, ops, g)
  }

  /** Entry e goes back to set i: created then or at a revival; its value is the one set, maybe reformatted. */
  ghost predicate EntryFrom(env: Env, w0: World, ops: seq<Op>, e: Entry, i: nat) {
    && LastSet(ops, i) && ops[i].key == e.key
    && (e.json == ops[i].json || e.json == env.Canonical(ops[i].json))
    && SetOrRevived(env, w0, ops, e.key, i, e.createdAt)
  }

  ghost predicate EntrySourced(env: Env, w0: World, ops: seq<Op>, e: Entry) {
    exists i: nat :: EntryFrom(env, w0, ops, e, i)
  }

  predicate InMemory(s: seq<Entry>, key: string) {
    exists e :: e in s && e.key == key
  }

  /** File n was written by set i; unless a restart came since, its key is still in memory. */
  ghost predicate FileFrom(env: Env, w0: World, ops: seq<Op>, s: seq<Entry>, n: string, file: File, i: nat) {
    && LastSet(ops, i) && env.fileOf(ops[i].key) == n
    && file == File(env.Canonical(ops[i].json), DoneTime(w0, ops, i))
    && (!RestartAfter(ops, i) ==> InMemory(s, ops[i].key))
  }

  ghost predicate FileSourced(env: Env, w0: World, ops: seq<Op>, s: seq<Entry>, n: string, file: File) {
    exists i: nat :: FileFrom(env, w0, ops, s, n, file, i)
  }

  ghost predicate Sourced(env: Env, w0: World, ops: seq<Op>, c: Cache) {
    && (forall e :: e in c.entries ==> EntrySourced(env, w0, ops, e))
    && (forall n :: n in c.files && n != SPARED ==> FileSourced(env, w0, ops, c.entries, n, c.files[n]))
  }

  /** What one more call leaves as it was. */
  lemma Later(w0: World, ops: seq<Op>, op: Op, i: nat)
    requires i < |ops|
    ensures ops[i].OpSet? ==>
      (LastSet(ops + [op], i) <==> LastSet(ops, i) && op != OpClear && !(op.OpSet? && op.key == ops[i].key))
    ensures CallTime(w0, ops + [op], i) == CallTime(w0, ops, i) && DoneTime(w0, ops + [op], i) == DoneTime(w0, ops, i)
    ensures RestartAfter(ops + [op], i) <==> RestartAfter(ops, i) || op.OpRestart?
  {
    var r := ops + [op];
    if ops[i].OpSet? { OneMore(Fifo([], 0, 0, 0), ops, op, i); }
    assert r[..i] == ops[..i];
    if RestartAfter(ops, i) {
      var j :| i < j < |ops| && ops[j].OpRestart?;
      assert r[j].OpRestart?;
    }
    if op.OpRestart? { assert r[|ops|].OpRestart?; }
  }

  lemma RevivedLater(env: Env, w0: World, ops: seq<Op>, op: Op, key: string, i: nat, at: int)
    requires i < |ops| && ops[i].OpSet? && !op.OpRestart? && SetOrRevived(env, w0, ops, key, i, at)
    ensures SetOrRevived(env, w0, ops + [op], key, i, at)
  {
    var r := ops + [op];
    Later(w0, ops, op, i);
    if g: nat :| Revives(env, w0, ops, key, i, g) && at == DoneTime(w0, ops, g) {
      Later(w0, ops, op, g);
      assert r[..g] == ops[..g];
      var j :| i < j < g && ops[j].OpRestart?;
      assert r[j].OpRestart?;
      assert Revives(env, w0, r, key, i, g);
    }
  }

  /** An entry that stays is still sourced after a call that neither clears nor sets its key. */
  lemma EntryStays(env: Env, w0: World, ops: seq<Op>, op: Op, e: Entry)
    requires EntrySourced(env, w0, ops, e) && op != OpClear && op != OpRestart && !(op.OpSet? && op.key == e.key)
    ensures EntrySourced(env, w0, ops + [op], e)
  {
    var i: nat :| EntryFrom(env, w0, ops, e, i);
    Later(w0, ops, op, i);
    RevivedLater(env, w0, ops, op, e.key, i, e.createdAt);
    hide SetOrRevived;
    assert EntryFrom(env, w0, ops + [op], e, i);
  }

  /** So is a file, if its key stays in memory or had left it before. */
  lemma FileStays(env: Env, w0: World, ops: seq<Op>, op: Op, s: seq<Entry>, s': seq<Entry>, n: string, file: File)
    requires FileSourced(env, w0, ops, s, n, file) && op != OpClear && !(op.OpSet? && env.fileOf(op.key) == n)
    requires op.OpRestart? || forall k :: InMemory(s, k) && env.fileOf(k) == n ==> InMemory(s', k)
    ensures FileSourced(env, w0, ops + [op], s', n, file)
  {
    var i: nat :| FileFrom(env, w0, ops, s, n, file, i);
    Later(w0, ops, op, i);
    assert FileFrom(env, w0, ops + [op], s', n, file, i);
  }

  lemma {:induction false} ClockGrows(t: int, ops: seq<Op>, i: nat)
    requires i <= |ops|
    ensures Clock(t, ops[..i]) <= Clock(t, ops)
  {
    if i == |ops| {
      assert ops[..i] == ops;
    } else {
      ClockGrows(t, ops[..|ops| - 1], i);
      assert ops[..|ops| - 1][..i] == ops[..i];
    }
  }

  /** Everything the step lemmas need of a reached state. */
  ghost predicate Reached(env: Env, keys: set<string>, w0: World, ops: seq<Op>, w: World) {
    && env.NamesDistinct(keys) && env.RoundTrips() && AllSave(env, keys, ops)
    && w == Run(env, w0, ops) && w.cache.ttl == w0.cache.ttl
    && w.cache.maxEntries > 0 && w.cache.ttl >= 0 && w.now == Clock(w0.now, ops)
    && Shaped(w.cache.entries, w.cache.ttl, w.now) && Sourced(env, w0, ops, w.cache)
  }

  /** The files after a set: the one just written, and those whose keys stay. */
  lemma SetFilesSourced(env: Env, w0: World, ops: seq<Op>, c: Cache, op: Op, written: int, c': Cache)
    requires Sourced(env, w0, ops, c) && op.OpSet? && env.Parses(op.json) && written == Clock(w0.now, ops) + op.took
    requires InMemory(c'.entries, op.key)
    requires env.fileOf(op.key) in c'.files && c'.files[env.fileOf(op.key)] == File(env.Canonical(op.json), written)
    requires forall n :: n in c'.files && n != env.fileOf(op.key) ==> n in c.files && c'.files[n] == c.files[n]
    requires forall x :: x in c.entries && x.key != op.key ==>
      x in c'.entries || env.fileOf(x.key) == env.fileOf(op.key) || env.fileOf(x.key) !in c'.files
    ensures forall n :: n in c'.files && n != SPARED ==> FileSourced(env, w0, ops + [op], c'.entries, n, c'.files[n])
  {
    var t', n0 := ops + [op], env.fileOf(op.key);
    assert t'[..|ops|] == ops && t'[|ops|] == op;
    forall n | n in c'.files && n != SPARED
      ensures FileSourced(env, w0, t', c'.entries, n, c'.files[n])
    {
      if n == n0 {
        assert FileFrom(env, w0, t', c'.entries, n, c'.files[n], |ops|);
      } else {
        forall k | InMemory(c.entries, k) && env.fileOf(k) == n
          ensures InMemory(c'.entries, k)
        {
          var x :| x in c.entries && x.key == k;
        }
        FileStays(env, w0, ops, op, c.entries, c'.entries, n, c.files[n]);
      }
    }
  }

  /** What a set leaves: the new entry and its file, the others minus an evicted one with its file. */
  lemma AfterSet(env: Env, c: Cache, key: string, json: string, now: int, written: int)
    requires c.maxEntries > 0 && Shaped(c.entries, c.ttl, now) && env.Parses(json)
    ensures var c', n0 := Set(env, c, key, json, now, written), env.fileOf(key);
      && c'.ttl == c.ttl && Entry(key, json, now, c.ttl) in c'.entries
      && (forall x :: x in c'.entries && x != Entry(key, json, now, c.ttl) ==> x in c.entries && x.key != key)
      && n0 in c'.files && c'.files[n0] == File(env.Canonical(json), written)
      && (forall n :: n in c'.files && n != n0 ==> n in c.files && c'.files[n] == c.files[n])
      && (forall x :: x in c.entries && x.key != key ==>
        x in c'.entries || env.fileOf(x.key) == n0 || env.fileOf(x.key) !in c'.files)
  {
    var r, e := Without(c.entries, key), Entry(key, json, now, c.ttl);
    var c' := Set(env, c, key, json, now, written);
    ShapedWithout(c.entries, c.ttl, now, key);
    WithoutMembers(c.entries, key);
    EvictDropsHead(env, r, c.files, c.maxEntries, now);
    hide Without, Evict, Shaped;
    var kept := if |r| >= c.maxEntries then r[1..] else r;
    assert c'.entries == kept + [e];
    assert (kept + [e])[|kept|] == e;
    assert forall x :: x in r ==> x in kept || (|r| >= c.maxEntries && x == r[0]);
    assert forall x :: x in kept ==> x in r;
    assert forall x :: x in c'.entries <==> x in kept || x == e;
  }

  lemma SetStaysSourced(env: Env, keys: set<string>, w0: World, ops: seq<Op>, w: World, op: Op)
    requires Reached(env, keys, w0, ops, w) && op.OpSet? && Saves(env, keys, op)
    ensures Sourced(env, w0, ops + [op], Set(env, w.cache, op.key, op.json, w.now, w.now + op.took))
  {
    var key, json, c := op.key, op.json, w.cache;
    var e, c' := Entry(key, json, w.now, c.ttl), Set(env, c, key, json, w.now, w.now + op.took);
    AfterSet(env, c, key, json, w.now, w.now + op.took);
    hide Set, Shaped, Sourced, EntrySourced, FileSourced;
    assert InMemory(c'.entries, key) by { assert e.key == key; }
    SetFilesSourced(env, w0, ops, c, op, w.now + op.took, c');
    forall x | x in c'.entries
      ensures EntrySourced(env, w0, ops + [op], x)
    {
      if x == e {
        NewEntrySourced(env, w0, ops, op, c.ttl);
      } else {
        SourcedEntry(env, w0, ops, c, x);
        EntryStays(env, w0, ops, op, x);
      }
    }
    SourcedIntro(env, w0, ops + [op], c');
  }

  lemma NewEntrySourced(env: Env, w0: World, ops: seq<Op>, op: Op, ttl: int)
    requires op.OpSet?
    ensures EntrySourced(env, w0, ops + [op], Entry(op.key, op.json, Clock(w0.now, ops), ttl))
  {
    var r := ops + [op];
    assert r[..|ops|] == ops && r[|ops|] == op;
    assert EntryFrom(env, w0, r, Entry(op.key, op.json, Clock(w0.now, ops), ttl), |ops|);
  }

  lemma SourcedEntry(env: Env, w0: World, ops: seq<Op>, c: Cache, e: Entry)
    requires Sourced(env, w0, ops, c) && e in c.entries
    ensures EntrySourced(env, w0, ops, e)
  {
  }

  lemma SourcedIntro(env: Env, w0: World, ops: seq<Op>, c: Cache)
    requires forall e :: e in c.entries ==> EntrySourced(env, w0, ops, e)
    requires forall n :: n in c.files && n != SPARED ==> FileSourced(env, w0, ops, c.entries, n, c.files[n])
    ensures Sourced(env, w0, ops, c)
  {
  }

  /** A call that removes at most one key from memory, and that key's file with it, keeps the rest sourced. */
  lemma DropStaysSourced(env: Env, keys: set<string>, w0: World, ops: seq<Op>, w: World, op: Op, key: string, c': Cache)
    requires Reached(env, keys, w0, ops, w) && (op.OpGet? || op.OpTick?)
    requires c'.ttl == w.cache.ttl
    requires forall e :: e in c'.entries ==> e in w.cache.entries
    requires forall e :: e in w.cache.entries && e.key != key ==> e in c'.entries
    requires forall n :: n in c'.files ==> n in w.cache.files && c'.files[n] == w.cache.files[n]
    requires c'.entries == w.cache.entries || env.fileOf(key) !in c'.files
    ensures Sourced(env, w0, ops + [op], c')
  {
    forall e | e in c'.entries
      ensures EntrySourced(env, w0, ops + [op], e)
    {
      EntryStays(env, w0, ops, op, e);
    }
    forall n | n in c'.files && n != SPARED
      ensures FileSourced(env, w0, ops + [op], c'.entries, n, c'.files[n])
    {
      forall k | InMemory(w.cache.entries, k) && env.fileOf(k) == n
        ensures InMemory(c'.entries, k)
      {
        var x :| x in w.cache.entries && x.key == k;
        assert x in c'.entries;
      }
      FileStays(env, w0, ops, op, w.cache.entries, c'.entries, n, c'.files[n]);
    }
  }

  /** What a file found under a key's name tells. */
  lemma FileOfKey(env: Env, keys: set<string>, w0: World, ops: seq<Op>, w: World, key: string) returns (i: nat)
    requires Reached(env, keys, w0, ops, w) && key in keys && env.fileOf(key) in w.cache.files
    ensures LastSet(ops, i) && ops[i].key == key && DoneTime(w0, ops, i) <= w.now
    ensures w.cache.files[env.fileOf(key)] == File(env.Canonical(ops[i].json), DoneTime(w0, ops, i))
    ensures !RestartAfter(ops, i) ==> InMemory(w.cache.entries, key)
    ensures env.Parses(env.Canonical(ops[i].json))
    ensures env.Canonical(env.Canonical(ops[i].json)) == env.Canonical(ops[i].json)
  {
    var n := env.fileOf(key);
    i :| FileFrom(env, w0, ops, w.cache.entries, n, w.cache.files[n], i);
    assert Saves(env, keys, ops[i]);
    CanonicalTwice(env, ops[i].json);
    ClockGrows(w0.now, ops, i + 1);
    assert ops[..i + 1][..i] == ops[..i];
  }

  lemma CanonicalTwice(env: Env, text: string)
    requires env.RoundTrips() && env.Parses(text)
    ensures env.Parses(env.Canonical(text)) && env.Canonical(env.Canonical(text)) == env.Canonical(text)
  {
  }

  /** A reload makes an entry that goes back to the set of its file. */
  lemma ReloadSourced(env: Env, w0: World, ops: seq<Op>, op: Op, e: Entry, i: nat)
    requires LastSet(ops, i) && ops[i].key == e.key && RestartAfter(ops, i)
    requires op.OpGet? && op.key == e.key && Reloads(env, Run(env, w0, ops), op)
    requires e.json == ops[i].json || e.json == env.Canonical(ops[i].json)
    requires e.createdAt == Clock(w0.now, ops) + op.took
    requires DoneTime(w0, ops, i) <= Clock(w0.now, ops) <= DoneTime(w0, ops, i) + w0.cache.ttl
    ensures EntrySourced(env, w0, ops + [op], e)
  {
    hide Reloads, Run;
    var r, g := ops + [op], |ops|;
    Later(w0, ops, op, i);
    assert r[..g] == ops && r[g] == op;
    var j :| i < j < g && ops[j].OpRestart?;
    assert r[j].OpRestart?;
    assert Revives(env, w0, r, e.key, i, g);
    assert EntryFrom(env, w0, r, e, i);
  }

  lemma GetStaysSourced(env: Env, keys: set<string>, w0: World, ops: seq<Op>, w: World, op: Op)
    requires Reached(env, keys, w0, ops, w) && op.OpGet? && op.key in keys
    ensures Sourced(env, w0, ops + [op], Get(env, w.cache, op.key, w.now, w.now + op.took).0)
  {
    hide Run;
    var key, c := op.key, w.cache;
    var c', k := Get(env, c, key, w.now, w.now + op.took).0, Find(c.entries, key);
    if k < |c.entries| {
      RemoveAtMembers(c.entries, k);
      DropStaysSourced(env, keys, w0, ops, w, op, key, c');
    } else if Load(env, c.files, key, c.ttl, w.now).1.None? {
      DropStaysSourced(env, keys, w0, ops, w, op, key, c');
    } else {
      ReloadStaysSourced(env, keys, w0, ops, w, op);
    }
  }

  lemma ReloadStaysSourced(env: Env, keys: set<string>, w0: World, ops: seq<Op>, w: World, op: Op)
    requires Reached(env, keys, w0, ops, w) && op.OpGet? && op.key in keys
    requires Find(w.cache.entries, op.key) == |w.cache.entries|
    requires Load(env, w.cache.files, op.key, w.cache.ttl, w.now).1.Some?
    ensures Sourced(env, w0, ops + [op], Get(env, w.cache, op.key, w.now, w.now + op.took).0)
  {
    hide Run;
    var key, c := op.key, w.cache;
    var c' := Get(env, c, key, w.now, w.now + op.took).0;
    var e := Entry(key, Load(env, c.files, key, c.ttl, w.now).1.value, w.now + op.took, c.ttl);
    var i := FileOfKey(env, keys, w0, ops, w, key);
    ReloadSourced(env, w0, ops, op, e, i);
    assert c'.entries == c.entries + [e] && c'.files == c.files;
    hide Get, Load, EntrySourced, FileSourced;
    forall x | x in c'.entries
      ensures EntrySourced(env, w0, ops + [op], x)
    {
      if x != e { EntryStays(env, w0, ops, op, x); }
    }
    forall n | n in c'.files && n != SPARED
      ensures FileSourced(env, w0, ops + [op], c'.entries, n, c'.files[n])
    {
      assert forall x :: x in c.entries ==> x in c'.entries;
      FileStays(env, w0, ops, op, c.entries, c'.entries, n, c'.files[n]);
    }
  }

  lemma StepStaysSourced(env: Env, keys: set<string>, w0: World, ops: seq<Op>, w: World, op: Op)
    requires Reached(env, keys, w0, ops, w) && Saves(env, keys, op)
    ensures Sourced(env, w0, ops + [op], Step(env, w, op).0.cache)
  {
    hide Run, Set, Get, Clear, Restart, Shaped, Sourced, AllSave, Env.RoundTrips, Env.NamesDistinct;
    match op
    case OpSet(_, _, _) => SetStaysSourced(env, keys, w0, ops, w, op);
    case OpGet(_, _) => GetStaysSourced(env, keys, w0, ops, w, op);
    case OpClear => ClearStaysSourced(env, w0, ops, w.cache);
    case OpTick(_) => DropStaysSourced(env, keys, w0, ops, w, op, "", w.cache);
    case OpRestart => RestartStaysSourced(env, w0, ops, w.cache);
  }

  lemma StepStaysReached(env: Env, keys: set<string>, w0: World, ops: seq<Op>, w: World, op: Op)
    requires Reached(env, keys, w0, ops, w) && Saves(env, keys, op)
    ensures Reached(env, keys, w0, ops + [op], Step(env, w, op).0)
  {
    StepKeepsShape(env, w, op);
    StepStaysSourced(env, keys, w0, ops, w, op);
    RunSnoc(env, w0, ops, op);
    AllSaveSnoc(env, keys, ops, op);
    StepClock(env, w0, ops, w, op);
    hide Run, Step, Shaped, Sourced, AllSave, Env.RoundTrips, Env.NamesDistinct, Clock;
  }

  lemma AllSaveSnoc(env: Env, keys: set<string>, ops: seq<Op>, op: Op)
    requires AllSave(env, keys, ops) && Saves(env, keys, op)
    ensures AllSave(env, keys, ops + [op])
  {
  }

  lemma StepClock(env: Env, w0: World, ops: seq<Op>, w: World, op: Op)
    requires w.now == Clock(w0.now, ops)
    ensures Step(env, w, op).0.now == Clock(w0.now, ops + [op])
  {
    hide Set, Get, Clear, Restart;
    assert (ops + [op])[..|ops|] == ops;
  }

  lemma ClearStaysSourced(env: Env, w0: World, ops: seq<Op>, c: Cache)
    ensures Sourced(env, w0, ops + [OpClear], Clear(env, c))
    ensures Clear(env, c).ttl == c.ttl && Clear(env, c).maxEntries == c.maxEntries
  {
  }

  lemma RestartStaysSourced(env: Env, w0: World, ops: seq<Op>, c: Cache)
    requires Sourced(env, w0, ops, c)
    ensures Sourced(env, w0, ops + [OpRestart], Restart(c))
    ensures Restart(c).ttl == c.ttl && Restart(c).maxEntries == c.maxEntries
  {
    forall n | n in c.files && n != SPARED
      ensures FileSourced(env, w0, ops + [OpRestart], [], n, c.files[n])
    {
      FileStays(env, w0, ops, OpRestart, c.entries, [], n, c.files[n]);
    }
  }

  lemma {:induction false} RunReached(env: Env, keys: set<string>, w: World, ops: seq<Op>)
    requires env.NamesDistinct(keys) && env.RoundTrips() && Fresh(w) && AllSave(env, keys, ops)
    ensures Reached(env, keys, w, ops, Run(env, w, ops))
  {
    ReachableShape(env, w, ops);
    if ops != [] {
      var n := |ops| - 1;
      RunReached(env, keys, w, ops[..n]);
      StepStaysReached(env, keys, w, ops[..n], Run(env, w, ops[..n]), ops[n]);
      assert ops == ops[..n] + [ops[n]];
    }
  }

  /** No set and no get takes longer than d. */
  ghost predicate Quick(ops: seq<Op>, d: nat) {
    forall i :: 0 <= i < |ops| && !ops[i].OpTick? ==> Duration(ops[i]) <= d
  }

  /** A key in both tiers: but for the time calls take, the entry is no older than its file, and at most ttl younger. */
  lemma TierAges(env: Env, keys: set<string>, w: World, ops: seq<Op>, e: Entry, d: nat)
    requires env.NamesDistinct(keys) && env.RoundTrips() && Fresh(w) && AllSave(env, keys, ops) && Quick(ops, d)
    ensures var c := Run(env, w, ops).cache;
      e in c.entries && env.fileOf(e.key) in c.files ==>
        var mtime := c.files[env.fileOf(e.key)].mtime;
        mtime - d <= e.createdAt <= mtime + w.cache.ttl + d
  {
    RunReached(env, keys, w, ops);
    hide Run, Reloads;
    var r := Run(env, w, ops);
    var c := r.cache;
    if e in c.entries && env.fileOf(e.key) in c.files {
      var i: nat :| EntryFrom(env, w, ops, e, i);
      assert Saves(env, keys, ops[i]);
      var j := FileOfKey(env, keys, w, ops, r, e.key);
      assert i == j;
    }
  }

  // ----- what a get returns -----

  /** Set i is where the value v that a get for key returns now comes from. */
  ghost predicate ComesFrom(env: Env, w0: World, ops: seq<Op>, key: string, v: string, i: nat) {
    && LastSet(ops, i) && ops[i].key == key
    && (v == ops[i].json || v == env.Canonical(ops[i].json))
    && (Clock(w0.now, ops) <= DoneTime(w0, ops, i) + w0.cache.ttl || RevivedWithin(env, w0, ops, key, i))
  }

  /** A get in the present process revived set i no more than ttl ago. */
  ghost predicate RevivedWithin(env: Env, w0: World, ops: seq<Op>, key: string, i: nat) {
    exists g: nat :: Revives(env, w0, ops, key, i, g) && Clock(w0.now, ops) <= DoneTime(w0, ops, g) + w0.cache.ttl
  }

  lemma EntryAge(env: Env, keys: set<string>, w0: World, ops: seq<Op>, w: World, e: Entry) returns (i: nat)
    requires Reached(env, keys, w0, ops, w) && e in w.cache.entries && w.now - e.createdAt <= w0.cache.ttl
    ensures ComesFrom(env, w0, ops, e.key, e.json, i)
  {
    hide Run, Reloads;
    i :| EntryFrom(env, w0, ops, e, i);
  }

  /**
   * The staleness bound, over all runs with restarts: a value that get returns is the last one set
   * for its key and not cleared since. It was written at most ttl ago, or a get of the key in this
   * process reloaded it, when it was no older than ttl, and at most ttl ago; so it was set at most
   * 2 * ttl ago, plus the time that the two calls took. A get that reloads returns nothing older
   * than ttl.
   */
  lemma StalenessBound(env: Env, keys: set<string>, w: World, ops: seq<Op>, key: string, took: nat, d: nat)
    requires env.NamesDistinct(keys) && env.RoundTrips() && Fresh(w) && AllSave(env, keys, ops) && key in keys
    requires Quick(ops, d)
    ensures var r, t, ttl := Run(env, w, ops), Clock(w.now, ops), w.cache.ttl;
      var v, reloads := Step(env, r, OpGet(key, took)).1, Reloads(env, r, OpGet(key, took));
      v.Some? ==> exists i: nat ::
        && ComesFrom(env, w, ops, key, v.value, i)
        && t <= CallTime(w, ops, i) + 2 * ttl + 2 * d
        && (reloads ==> t <= DoneTime(w, ops, i) + ttl)
  {
    RunReached(env, keys, w, ops);
    hide Run;
    var r := Run(env, w, ops);
    var c, v := r.cache, Step(env, r, OpGet(key, took)).1;
    if v.Some? {
      var k := Find(c.entries, key);
      if k < |c.entries| {
        var i := EntryAge(env, keys, w, ops, r, c.entries[k]);
        QuickBound(env, w, ops, key, v.value, i, d);
      } else {
        var i := FileOfKey(env, keys, w, ops, r, key);
        assert ComesFrom(env, w, ops, key, v.value, i);
        QuickBound(env, w, ops, key, v.value, i, d);
      }
    }
  }

  /** The bound from `client_cache_create` on: twice the ttl that was asked for, or ten minutes, and the two calls. */
  lemma StalenessFromCreated(env: Env, keys: set<string>, files: Files, maxEntries: nat, ttl: int, now: int,
                             ops: seq<Op>, key: string, took: nat, d: nat, v: string)
    requires env.NamesDistinct(keys) && env.RoundTrips() && files.Keys <= {"README.md"}
    requires AllSave(env, keys, ops) && key in keys && Quick(ops, d)
    requires Step(env, Run(env, World(Create(files, maxEntries, ttl), now), ops), OpGet(key, took)).1 == Some(v)
    ensures exists i: nat ::
      && i < |ops| && ops[i].OpSet? && ops[i].key == key && env.parse(v) == env.parse(ops[i].json)
      && (forall j :: i < j < |ops| ==> !ops[j].OpClear? && !(ops[j].OpSet? && ops[j].key == key))
      && Clock(now, ops) - Clock(now, ops[..i]) <= (if ttl > 0 then 2 * ttl else 600) + 2 * d
  {
    var w := World(Create(files, maxEntries, ttl), now);
    CreateSettings(files, maxEntries, ttl);
    StalenessBound(env, keys, w, ops, key, took, d);
    hide Run, Step, Clock, Revives, Create;
    var i: nat :|
      ComesFrom(env, w, ops, key, v, i) && Clock(w.now, ops) <= CallTime(w, ops, i) + 2 * w.cache.ttl + 2 * d;
    assert Saves(env, keys, ops[i]);
    assert env.Parses(ops[i].json) ==> env.parse(env.Canonical(ops[i].json)) == env.parse(ops[i].json);
    assert CallTime(w, ops, i) == Clock(now, ops[..i]);
  }

  lemma QuickBound(env: Env, w: World, ops: seq<Op>, key: string, v: string, i: nat, d: nat)
    requires ComesFrom(env, w, ops, key, v, i) && Quick(ops, d) && w.cache.ttl >= 0
    ensures Clock(w.now, ops) <= CallTime(w, ops, i) + 2 * w.cache.ttl + 2 * d
  {
    hide Run, Reloads;
  }

  /** The next get returns a value that was written more than ttl ago. */
  ghost predicate ReturnsOld(env: Env, w0: World, ops: seq<Op>, key: string, took: nat) {
    var v := Step(env, Run(env, w0, ops), OpGet(key, took)).1;
    v.Some? && exists i: nat ::
      ComesFrom(env, w0, ops, key, v.value, i) && Clock(w0.now, ops) > DoneTime(w0, ops, i) + w0.cache.ttl
  }

  /**
   * Exactly when get returns something older than ttl, in every run: the key is in memory, its entry
   * is no older than ttl, and its file is.
   */
  lemma OldExactly(env: Env, keys: set<string>, w: World, ops: seq<Op>, key: string, took: nat)
    requires env.NamesDistinct(keys) && env.RoundTrips() && Fresh(w) && AllSave(env, keys, ops) && key in keys
    ensures var r, ttl := Run(env, w, ops), w.cache.ttl;
      var s, files, k := r.cache.entries, r.cache.files, Find(r.cache.entries, key);
      ReturnsOld(env, w, ops, key, took) <==>
        k < |s| && r.now - s[k].createdAt <= ttl
        && env.fileOf(key) in files && r.now - files[env.fileOf(key)].mtime > ttl
  {
    RunReached(env, keys, w, ops);
    hide Run, Revives;
    var r := Run(env, w, ops);
    var c, v := r.cache, Step(env, r, OpGet(key, took)).1;
    if env.fileOf(key) in c.files {
      var j := FileOfKey(env, keys, w, ops, r, key);
      var k := Find(c.entries, key);
      if k < |c.entries| && r.now - c.entries[k].createdAt <= w.cache.ttl {
        var i := EntryAge(env, keys, w, ops, r, c.entries[k]);
        assert i == j;
      }
    }
  }

  /**
   * Exactly when get returns a value at all: there is a file under the key, and what counts, the entry
   * if there is one and else the file, is no older than ttl. The file is that of the last set.
   */
  lemma GetSucceedsExactly(env: Env, keys: set<string>, w: World, ops: seq<Op>, key: string, took: nat)
    requires env.NamesDistinct(keys) && env.RoundTrips() && Fresh(w) && AllSave(env, keys, ops) && key in keys
    ensures var r, n := Run(env, w, ops), env.fileOf(key);
      var s, files, k := r.cache.entries, r.cache.files, Find(r.cache.entries, key);
      && (n in files ==> exists i: nat ::
            LastSet(ops, i) && ops[i].key == key && files[n] == File(env.Canonical(ops[i].json), DoneTime(w, ops, i)))
      && (Step(env, r, OpGet(key, took)).1.Some? <==>
            n in files && r.now - (if k < |s| then s[k].createdAt else files[n].mtime) <= w.cache.ttl)
  {
    RunReached(env, keys, w, ops);
    hide Run;
    var r := Run(env, w, ops);
    if env.fileOf(key) in r.cache.files {
      var i := FileOfKey(env, keys, w, ops, r, key);
    }
  }

  // ----- the bound is reached -----

  lemma GetSole(env: Env, c: Cache, key: string, e: Entry, now: int, loadedAt: int)
    requires c.entries == [e] && e.key == key && now - e.createdAt <= e.ttl && env.fileOf(key) in c.files
    ensures Get(env, c, key, now, loadedAt) == (c, Some(e.json))
  {
    assert Find(c.entries, key) == 0;
  }

  lemma ReloadIntoEmpty(env: Env, c: Cache, key: string, text: string, mtime: int, now: int)
    requires c.entries == [] && env.fileOf(key) in c.files && c.files[env.fileOf(key)] == File(text, mtime)
    requires now - mtime <= c.ttl && env.Parses(text)
    ensures Get(env, c, key, now, now).0 == c.(entries := [Entry(key, env.Canonical(text), now, c.ttl)])
  {
  }

  /** A set, a new process, and a wait: memory is empty and the file as old as the wait. */
  lemma LeftBehind(env: Env, w: World, key: string, text: string, t: nat)
    requires w.cache.entries == [] && env.Parses(text)
    ensures var r := Step(env, Step(env, Step(env, w, OpSet(key, text, 0)).0, OpRestart).0, OpTick(t)).0;
      && r.now == w.now + t && r.cache.ttl == w.cache.ttl && r.cache.entries == []
      && env.fileOf(key) in r.cache.files && r.cache.files[env.fileOf(key)] == File(env.Canonical(text), w.now)
  {
    hide Set, Env.Canonical;
    SetOnEmpty(env, w.cache, key, text, w.now, w.now);
  }

  /** A value that was set, came back from its file after a restart, and is now as old as the file may be. */
  lemma HalfLife(env: Env, w: World, key: string, text: string, t: nat)
    requires env.RoundTrips() && env.Parses(text) && w.cache.entries == [] && w.cache.ttl == t
    ensures var r := Run(env, w, [OpSet(key, text, 0), OpRestart, OpTick(t), OpGet(key, 0)]);
      && r.cache.entries == [Entry(key, env.Canonical(text), w.now + t, t)] && env.fileOf(key) in r.cache.files
      && r.now == w.now + t && r.cache.ttl == t
  {
    hide Set, Run, Get, Step, Env.Canonical, Env.RoundTrips, Env.Parses;
    var w1 := Step(env, w, OpSet(key, text, 0)).0;
    var w3 := Step(env, Step(env, w1, OpRestart).0, OpTick(t)).0;
    CanonicalTwice(env, text);
    LeftBehind(env, w, key, text, t);
    ReloadIntoEmpty(env, w3.cache, key, env.Canonical(text), w.now, w3.now);
    StepGet(env, w3, key);
    RunFour(env, w, OpSet(key, text, 0), OpRestart, OpTick(t), OpGet(key, 0));
  }

  lemma StepGet(env: Env, w: World, key: string)
    ensures Step(env, w, OpGet(key, 0)).0 == w.(cache := Get(env, w.cache, key, w.now, w.now).0)
  {
  }

  /** Calls that take no time, and a reload just before the file expires: the value lives for twice the ttl. */
  lemma StalenessBoundIsTight(env: Env, w: World, key: string, text: string)
    requires env.RoundTrips() && env.Parses(text) && Started(w)
    ensures var t := w.cache.ttl as nat;
      Step(env, Run(env, w, [OpSet(key, text, 0), OpRestart, OpTick(t), OpGet(key, 0), OpTick(t)]), OpGet(key, 0)).1
        == Some(env.Canonical(text))
  {
    hide Run, Get, Env.Canonical, Env.RoundTrips, Env.Parses;
    var t := w.cache.ttl as nat;
    var four := [OpSet(key, text, 0), OpRestart, OpTick(t), OpGet(key, 0)];
    HalfLife(env, w, key, text, t);
    var r := Run(env, w, four);
    RunSnoc(env, w, four, OpTick(t));
    assert four + [OpTick(t)] == [OpSet(key, text, 0), OpRestart, OpTick(t), OpGet(key, 0), OpTick(t)];
    GetSole(env, r.cache, key, r.cache.entries[0], r.now + t, r.now + t);
  }
}
