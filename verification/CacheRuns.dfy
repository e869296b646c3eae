/**
 * Runs of the cache: sequences of set, get, clear, clock ticks and process restarts, from any
 * directory. What holds in every reachable state: the keys are distinct, the list is sorted by
 * creation time, eviction takes the head, and the size is bounded.
 */
module CacheRuns {
  import opened Base
  import opened CacheSpec

  datatype Op =
    | OpSet(key: string, json: string, took: nat)
    | OpGet(key: string, took: nat)
    | OpClear
    | OpTick(seconds: nat)
    | OpRestart

  datatype World = World(cache: Cache, now: int)

  function Step(env: Env, w: World, op: Op): (World, Option<string>) {
    match op
    case OpSet(key, json, took) =>
      (World(Set(env, w.cache, key, json, w.now, w.now + took), w.now + took), None)
    case OpGet(key, took) =>
      var (c, v) := Get(env, w.cache, key, w.now, w.now + took);
      (World(c, w.now + took), v)
    case OpClear => (w.(cache := Clear(env, w.cache)), None)
    case OpTick(seconds) => (w.(now := w.now + seconds), None)
    case OpRestart => (w.(cache := Restart(w.cache)), None)
  }

  function Run(env: Env, w: World, ops: seq<Op>): World {
    if ops == [] then w else Step(env, Run(env, w, ops[..|ops| - 1]), ops[|ops| - 1]).0
  }

  /** A process that has just started. */
  predicate Started(w: World) {
    w.cache.entries == [] && w.cache.maxEntries > 0 && w.cache.ttl > 0
  }

  // ----- the shape of the entry list -----

  ghost predicate Keyed(s: seq<Entry>) {
    forall i, j :: 0 <= i < j < |s| ==> s[i].key != s[j].key
  }

  ghost predicate Ordered(s: seq<Entry>, now: int) {
    && (forall i, j :: 0 <= i < j < |s| ==> s[i].createdAt <= s[j].createdAt)
    && (forall i :: 0 <= i < |s| ==> s[i].createdAt <= now)
  }

  ghost predicate WithTtl(s: seq<Entry>, ttl: int) {
    forall i :: 0 <= i < |s| ==> s[i].ttl == ttl
  }

  ghost predicate Shaped(s: seq<Entry>, ttl: int, now: int) {
    Keyed(s) && Ordered(s, now) && WithTtl(s, ttl)
  }

  /** The scan for the oldest entry of a sorted list finds the head. */
  lemma OldestIsHead(s: seq<Entry>, now: int)
    requires Ordered(s, now) && s != []
    ensures Oldest(s) == 0
  {
  }

  lemma RemoveAtIndex<T>(s: seq<T>, i: nat)
    requires i < |s|
    ensures forall j :: 0 <= j < |s| - 1 ==> RemoveAt(s, i)[j] == s[if j < i then j else j + 1]
  {
  }

  lemma ShapedRemoveAt(s: seq<Entry>, ttl: int, now: int, i: nat)
    requires Shaped(s, ttl, now) && i < |s|
    ensures Shaped(RemoveAt(s, i), ttl, now)
  {
    hide RemoveAt;
    RemoveAtIndex(s, i);
  }

  lemma ShapedAppend(s: seq<Entry>, ttl: int, now: int, e: Entry)
    requires Shaped(s, ttl, now) && e.createdAt == now && e.ttl == ttl
    requires forall i :: 0 <= i < |s| ==> s[i].key != e.key
    ensures Shaped(s + [e], ttl, now)
  {
  }

  lemma ShapedLater(s: seq<Entry>, ttl: int, now: int, later: int)
    requires Shaped(s, ttl, now) && now <= later
    ensures Shaped(s, ttl, later)
  {
  }

  lemma ShapedWithout(s: seq<Entry>, ttl: int, now: int, key: string)
    requires Shaped(s, ttl, now)
    ensures Shaped(Without(s, key), ttl, now)
    ensures forall i :: 0 <= i < |Without(s, key)| ==> Without(s, key)[i].key != key
  {
    hide RemoveAt;
    var i := Find(s, key);
    if i < |s| {
      RemoveAtIndex(s, i);
      ShapedRemoveAt(s, ttl, now, i);
    }
  }

  /** Eviction from a sorted list is: drop the head of a full one. */
  lemma EvictDropsHead(env: Env, s: seq<Entry>, files: Files, maxEntries: nat, now: int)
    requires Ordered(s, now) && maxEntries > 0
    ensures Evict(env, s, files, maxEntries) ==
      if |s| >= maxEntries then (s[1..], Unlink(files, env.fileOf(s[0].key))) else (s, files)
  {
    if |s| >= maxEntries {
      OldestIsHead(s, now);
      assert RemoveAt(s, 0) == s[1..];
    }
  }

  /** One step keeps the list keyed, sorted, and its entries under the one ttl. */
  lemma StepKeepsShape(env: Env, w: World, op: Op)
    requires w.cache.maxEntries > 0 && Shaped(w.cache.entries, w.cache.ttl, w.now)
    ensures var w' := Step(env, w, op).0;
      && w'.now >= w.now && w'.cache.maxEntries == w.cache.maxEntries && w'.cache.ttl == w.cache.ttl
      && Shaped(w'.cache.entries, w.cache.ttl, w'.now)
  {
    hide Set, Get, Clear, Restart, Shaped;
    var c := w.cache;
    match op
    case OpSet(key, json, took) => SetKeepsShape(env, c, key, json, w.now, w.now + took);
    case OpGet(key, took) => GetKeepsShape(env, c, key, w.now, w.now + took);
    case OpClear => ShapedNone(env, c, w.now);
    case OpTick(d) => ShapedLater(c.entries, c.ttl, w.now, w.now + d);
    case OpRestart => ShapedNone(env, c, w.now);
  }

  lemma SetKeepsShape(env: Env, c: Cache, key: string, json: string, now: int, later: int)
    requires c.maxEntries > 0 && Shaped(c.entries, c.ttl, now) && now <= later
    ensures var c' := Set(env, c, key, json, now, later);
      c'.maxEntries == c.maxEntries && c'.ttl == c.ttl && Shaped(c'.entries, c.ttl, later)
  {
    hide Without, Evict, Save, Shaped;
    var r := Without(c.entries, key);
    ShapedWithout(c.entries, c.ttl, now, key);
    assert Ordered(r, now) by { ShapedIsOrdered(r, c.ttl, now); }
    EvictDropsHead(env, r, c.files, c.maxEntries, now);
    var kept, e := if |r| >= c.maxEntries then r[1..] else r, Entry(key, json, now, c.ttl);
    assert Shaped(kept, c.ttl, now) by { if |r| >= c.maxEntries { ShapedTail(r, c.ttl, now); } }
    ShapedAppend(kept, c.ttl, now, e);
    ShapedLater(kept + [e], c.ttl, now, later);
  }

  lemma ShapedIsOrdered(s: seq<Entry>, ttl: int, now: int)
    requires Shaped(s, ttl, now)
    ensures Ordered(s, now)
  {
  }

  lemma ShapedTail(s: seq<Entry>, ttl: int, now: int)
    requires Shaped(s, ttl, now) && s != []
    ensures Shaped(s[1..], ttl, now)
  {
  }

  lemma GetKeepsShape(env: Env, c: Cache, key: string, now: int, later: int)
    requires Shaped(c.entries, c.ttl, now) && now <= later
    ensures var c' := Get(env, c, key, now, later).0;
      c'.maxEntries == c.maxEntries && c'.ttl == c.ttl && Shaped(c'.entries, c.ttl, later)
  {
    hide RemoveAt, Load, Find, Shaped;
    ShapedLater(c.entries, c.ttl, now, later);
    var i := Find(c.entries, key);
    var loaded := Load(env, c.files, key, c.ttl, now).1;
    if i < |c.entries| {
      ShapedRemoveAt(c.entries, c.ttl, later, i);
    } else if loaded.Some? {
      ShapedAppend(c.entries, c.ttl, later, Entry(key, loaded.value, later, c.ttl));
    }
  }

  lemma ShapedNone(env: Env, c: Cache, now: int)
    ensures Shaped(Clear(env, c).entries, c.ttl, now) && Shaped(Restart(c).entries, c.ttl, now)
    ensures Clear(env, c).maxEntries == c.maxEntries && Clear(env, c).ttl == c.ttl
    ensures Restart(c).maxEntries == c.maxEntries && Restart(c).ttl == c.ttl
  {
  }

  /** In every reachable state the keys are distinct and the list is sorted by creation time. */
  lemma {:induction false} ReachableShape(env: Env, w: World, ops: seq<Op>)
    requires Started(w)
    ensures var w' := Run(env, w, ops);
      && w'.now >= w.now && w'.cache.maxEntries == w.cache.maxEntries && w'.cache.ttl == w.cache.ttl
      && Shaped(w'.cache.entries, w.cache.ttl, w'.now)
  {
    if ops != [] {
      ReachableShape(env, w, ops[..|ops| - 1]);
      StepKeepsShape(env, Run(env, w, ops[..|ops| - 1]), ops[|ops| - 1]);
    }
  }

  /** So the eviction scan always selects the head, and no other entry has its key. */
  lemma ReachableOldestIsHead(env: Env, w: World, ops: seq<Op>)
    requires Started(w)
    ensures var s := Run(env, w, ops).cache.entries; s != [] ==> Oldest(s) == 0 && Find(s[1..], s[0].key) == |s| - 1
  {
    hide Run;
    ReachableShape(env, w, ops);
    var r := Run(env, w, ops);
    if r.cache.entries != [] { OldestIsHead(r.cache.entries, r.now); }
  }

  // ----- size -----

  function Max(a: int, b: int): int {
    if a >= b then a else b
  }

  /** A get reloads when it finds the key in the directory and not in memory. */
  predicate Reloads(env: Env, w: World, op: Op) {
    op.OpGet? && Find(w.cache.entries, op.key) == |w.cache.entries| && Step(env, w, op).1.Some?
  }

  function ReloadCount(env: Env, w: World, ops: seq<Op>): nat {
    if ops == [] then 0 else
      var n := |ops| - 1;
      ReloadCount(env, w, ops[..n]) + if Reloads(env, Run(env, w, ops[..n]), ops[n]) then 1 else 0
  }

  /** A set leaves at most max(max_entries, size before) entries, and only a reload makes the list longer otherwise. */
  lemma StepSize(env: Env, w: World, op: Op)
    requires w.cache.maxEntries > 0
    ensures var n, n' := |w.cache.entries|, |Step(env, w, op).0.cache.entries|;
      && (op.OpSet? ==> 0 < n' <= Max(w.cache.maxEntries, n))
      && (Reloads(env, w, op) ==> n' == n + 1)
      && (!op.OpSet? && !Reloads(env, w, op) ==> n' <= n)
  {
  }

  /** The reload path has no capacity check: it is exactly what can push the size over max_entries. */
  lemma {:induction false} SizeBound(env: Env, w: World, ops: seq<Op>)
    requires Started(w)
    ensures |Run(env, w, ops).cache.entries| <= w.cache.maxEntries + ReloadCount(env, w, ops)
  {
    if ops != [] {
      var n := |ops| - 1;
      SizeBound(env, w, ops[..n]);
      ReachableShape(env, w, ops[..n]);
      StepSize(env, Run(env, w, ops[..n]), ops[n]);
    }
  }

  /**
   * Exactly when the list outgrows max_entries: every state on the way of a run keeps to the bound if
   * and only if no get reloads into a full list.
   */
  lemma SizeExactly(env: Env, w: World, ops: seq<Op>)
    requires Started(w)
    ensures Bounded(env, w, ops) <==> !OverfullReload(env, w, ops)
  {
    if Bounded(env, w, ops) { NoReloadWhenFull(env, w, ops); }
    if !OverfullReload(env, w, ops) { BoundedWithoutOverfull(env, w, ops); }
  }

  predicate Bounded(env: Env, w: World, ops: seq<Op>) {
    forall n :: 0 <= n <= |ops| ==> |Run(env, w, ops[..n]).cache.entries| <= w.cache.maxEntries
  }

  /** Some get on the way reloads while the list is full. */
  predicate OverfullReload(env: Env, w: World, ops: seq<Op>) {
    exists n :: 0 <= n < |ops| && ReloadsWhenFull(env, Run(env, w, ops[..n]), ops[n])
  }

  predicate ReloadsWhenFull(env: Env, w: World, op: Op) {
    Reloads(env, w, op) && |w.cache.entries| == w.cache.maxEntries
  }

  lemma StepInRun(env: Env, w: World, ops: seq<Op>, n: nat)
    requires Started(w) && n < |ops|
    ensures var r := Run(env, w, ops[..n]);
      Run(env, w, ops[..n + 1]) == Step(env, r, ops[n]).0 && r.cache.maxEntries == w.cache.maxEntries
  {
    assert ops[..n + 1][..n] == ops[..n];
    ReachableShape(env, w, ops[..n]);
  }

  lemma NoReloadWhenFull(env: Env, w: World, ops: seq<Op>)
    requires Started(w) && Bounded(env, w, ops)
    ensures !OverfullReload(env, w, ops)
  {
    hide Run, Step, Reloads;
    forall n | 0 <= n < |ops|
      ensures !ReloadsWhenFull(env, Run(env, w, ops[..n]), ops[n])
    {
      StepInRun(env, w, ops, n);
      StepSize(env, Run(env, w, ops[..n]), ops[n]);
      assert |Run(env, w, ops[..n + 1]).cache.entries| <= w.cache.maxEntries;
    }
  }

  lemma {:induction false} BoundedWithoutOverfull(env: Env, w: World, ops: seq<Op>)
    requires Started(w) && !OverfullReload(env, w, ops)
    ensures Bounded(env, w, ops)
  {
    hide Step, Reloads;
    if ops == [] {
      assert ops[..0] == [];
    } else {
      var k := |ops| - 1;
      assert forall n :: 0 <= n < k ==> ops[..k][..n] == ops[..n] && ops[..k][n] == ops[n];
      BoundedWithoutOverfull(env, w, ops[..k]);
      assert ops[..k][..k] == ops[..k];
      StepInRun(env, w, ops, k);
      StepSize(env, Run(env, w, ops[..k]), ops[k]);
      assert !ReloadsWhenFull(env, Run(env, w, ops[..k]), ops[k]);
      hide Run;
      forall n | 0 <= n <= |ops|
        ensures |Run(env, w, ops[..n]).cache.entries| <= w.cache.maxEntries
      {
        if n <= k { assert ops[..k][..n] == ops[..n]; }
      }
    }
  }

  lemma RunSnoc(env: Env, w: World, ops: seq<Op>, op: Op)
    ensures Run(env, w, ops + [op]) == Step(env, Run(env, w, ops), op).0
  {
    assert (ops + [op])[..|ops|] == ops;
  }

  lemma SetOnEmpty(env: Env, c: Cache, key: string, json: string, now: int, written: int)
    requires c.entries == [] && env.Parses(json)
    ensures Set(env, c, key, json, now, written) ==
      c.(entries := [Entry(key, json, now, c.ttl)],
        files := c.files[env.fileOf(key) := File(env.Canonical(json), written)])
  {
  }

  /** A witness: with one slot, a file left by an earlier process puts a second entry in the list. */
  lemma SizeCanExceedMaximum(env: Env, w: World, text: string)
    requires Started(w) && w.cache.maxEntries == 1
    requires env.RoundTrips() && env.Parses(text) && env.fileOf("a") != env.fileOf("b")
    ensures |Run(env, w, [OpSet("a", text, 0), OpRestart, OpSet("b", text, 0), OpGet("a", 0)]).cache.entries| == 2
  {
    hide Set, Run;
    var w1 := Step(env, w, OpSet("a", text, 0)).0;
    var w2 := Step(env, w1, OpRestart).0;
    var w3 := Step(env, w2, OpSet("b", text, 0)).0;
    SetOnEmpty(env, w.cache, "a", text, w.now, w.now);
    SetOnEmpty(env, w2.cache, "b", text, w.now, w.now);
    assert Find(w3.cache.entries, "a") == 1;
    assert Step(env, w3, OpGet("a", 0)).0.cache.entries ==
      w3.cache.entries + [Entry("a", env.Canonical(text), w.now, w.cache.ttl)];
    RunFour(env, w, OpSet("a", text, 0), OpRestart, OpSet("b", text, 0), OpGet("a", 0));
  }

  lemma RunFour(env: Env, w: World, a: Op, b: Op, c: Op, d: Op)
    ensures Run(env, w, [a, b, c, d]) == Step(env, Step(env, Step(env, Step(env, w, a).0, b).0, c).0, d).0
  {
    hide Step;
    assert [a, b, c, d] == [a, b, c] + [d] && [a, b, c] == [a, b] + [c] && [a, b] == [a] + [b] && [a] == [] + [a];
    RunSnoc(env, w, [a, b, c], d);
    RunSnoc(env, w, [a, b], c);
    RunSnoc(env, w, [a], b);
    RunSnoc(env, w, [], a);
  }
}
