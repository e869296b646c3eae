/**
 * In one process, started in an empty directory, the two-tier cache is a bounded first-in first-out
 * map with lazy expiry; and what a get returns can be read off the history of calls.
 */
module CacheFifo {
  import opened Base
  import opened CacheSpec
  import opened CacheRuns

  // ----- the abstract machine: no files -----

  function Tail(s: seq<Entry>, m: nat): seq<Entry> {
    if |s| <= m then s else s[|s| - m..]
  }

  /** Replace or add at the end, and keep the youngest max entries. */
  function FifoSet(q: seq<Entry>, max: nat, e: Entry): seq<Entry> {
    Tail(Without(q, e.key) + [e], max)
  }

  function FifoGet(q: seq<Entry>, key: string, now: int): (seq<Entry>, Option<string>) {
    var i := Find(q, key);
    if i == |q| then (q, None)
    else if now - q[i].createdAt > q[i].ttl then (RemoveAt(q, i), None)
    else (q, Some(q[i].json))
  }

  datatype Fifo = Fifo(q: seq<Entry>, max: nat, ttl: int, now: int)

  function FifoStep(f: Fifo, op: Op): (Fifo, Option<string>) {
    match op
    case OpSet(key, json, took) =>
      (f.(q := FifoSet(f.q, f.max, Entry(key, json, f.now, f.ttl)), now := f.now + took), None)
    case OpGet(key, took) =>
      var (q, v) := FifoGet(f.q, key, f.now);
      (f.(q := q, now := f.now + took), v)
    case OpClear => (f.(q := []), None)
    case OpTick(seconds) => (f.(now := f.now + seconds), None)
    case OpRestart => (f.(q := []), None)
  }

  // ----- refinement -----

  /** One process only, keys from a set, and values that parse. */
  predicate Calls(env: Env, keys: set<string>, op: Op) {
    match op
    case OpSet(key, json, _) => key in keys && env.Parses(json)
    case OpGet(key, _) => key in keys
    case OpRestart => false
    case _ => true
  }

  /** The two tiers hold the same keys. */
  ghost predicate InStep(env: Env, keys: set<string>, c: Cache) {
    && (forall e :: e in c.entries ==> e.key in keys && env.fileOf(e.key) in c.files)
    && (forall n :: n in c.files && n != SPARED ==> exists e :: e in c.entries && env.fileOf(e.key) == n)
  }

  function Abstract(w: World): Fifo {
    Fifo(w.cache.entries, w.cache.maxEntries, w.cache.ttl, w.now)
  }

  lemma WithoutMembers(s: seq<Entry>, key: string)
    requires Keyed(s)
    ensures forall e :: e in Without(s, key) <==> e in s && e.key != key
  {
    hide RemoveAt;
    var i := Find(s, key);
    if i < |s| {
      RemoveAtIndex(s, i);
      var r := RemoveAt(s, i);
      assert forall j :: 0 <= j < |r| ==> r[j] in s && r[j].key != key;
      forall e | e in s && e.key != key
        ensures e in r
      {
        var j :| 0 <= j < |s| && s[j] == e;
        assert r[if j < i then j else j - 1] == e;
      }
    }
  }

  lemma RemoveAtMembers(s: seq<Entry>, i: nat)
    requires Keyed(s) && i < |s|
    ensures forall e :: e in RemoveAt(s, i) <==> e in s && e.key != s[i].key
  {
    assert Find(s, s[i].key) == i;
    WithoutMembers(s, s[i].key);
  }

  /** The tiers after a set, given which entries stay (all of r, or all but its head) . */
  lemma SetInStep(env: Env, keys: set<string>, c: Cache, key: string, file: File, r: seq<Entry>, e: Entry, full: bool)
    requires env.NamesDistinct(keys) && InStep(env, keys, c) && key in keys && e.key == key
    requires Keyed(r) && (forall x :: x in r <==> x in c.entries && x.key != key) && (full ==> r != [])
    ensures var files := if full then Unlink(c.files, env.fileOf(r[0].key)) else c.files;
      InStep(env, keys, c.(entries := (if full then r[1..] else r) + [e], files := files[env.fileOf(key) := file]))
  {
    var stay := if full then r[1..] else r;
    var files := if full then Unlink(c.files, env.fileOf(r[0].key)) else c.files;
    var c' := c.(entries := stay + [e], files := files[env.fileOf(key) := file]);
    forall x | x in c'.entries
      ensures x.key in keys && env.fileOf(x.key) in c'.files
    {
      if x in stay {
        assert x in r && x in c.entries;
        if full { assert r[0] in r && r[0] in c.entries; }
      }
    }
    forall n | n in c'.files && n != SPARED
      ensures exists x :: x in c'.entries && env.fileOf(x.key) == n
    {
      if n == env.fileOf(key) {
        assert e in c'.entries;
      } else {
        var x :| x in c.entries && env.fileOf(x.key) == n;
        assert x in r && x in c'.entries;
      }
    }
  }

  /** A set acts on the list as the abstract set does, and keeps the tiers in step. */
  lemma SetRefines(env: Env, keys: set<string>, w: World, key: string, json: string, written: int)
    requires env.NamesDistinct(keys) && key in keys && env.Parses(json)
    requires w.cache.maxEntries > 0 && Shaped(w.cache.entries, w.cache.ttl, w.now) && InStep(env, keys, w.cache)
    requires |w.cache.entries| <= w.cache.maxEntries
    ensures var c := Set(env, w.cache, key, json, w.now, written);
      c.entries == FifoSet(w.cache.entries, c.maxEntries, Entry(key, json, w.now, c.ttl)) && InStep(env, keys, c)
  {
    var c, e := w.cache, Entry(key, json, w.now, w.cache.ttl);
    var r := Without(c.entries, key);
    assert |r| <= c.maxEntries;
    ShapedWithout(c.entries, c.ttl, w.now, key);
    WithoutMembers(c.entries, key);
    EvictDropsHead(env, r, c.files, c.maxEntries, w.now);
    hide Without, Evict, InStep, Keyed;
    SetInStep(env, keys, c, key, File(env.Canonical(json), written), r, e, |r| >= c.maxEntries);
    assert (if |r| >= c.maxEntries then r[1..] else r) + [e] == Tail(r + [e], c.maxEntries);
  }

  /** A get acts as the abstract get does: it never finds a file without an entry, or an entry without a file. */
  lemma GetRefines(env: Env, keys: set<string>, w: World, key: string, loadedAt: int)
    requires env.NamesDistinct(keys) && key in keys
    requires Shaped(w.cache.entries, w.cache.ttl, w.now) && InStep(env, keys, w.cache)
    ensures var (c, v) := Get(env, w.cache, key, w.now, loadedAt);
      (c.entries, v) == FifoGet(w.cache.entries, key, w.now) && InStep(env, keys, c)
  {
    hide RemoveAt;
    var c := w.cache;
    var i := Find(c.entries, key);
    if i < |c.entries| {
      assert c.entries[i] in c.entries;
      RemoveAtMembers(c.entries, i);
    } else {
      assert env.fileOf(key) !in c.files;
    }
  }

  function FifoRun(f: Fifo, ops: seq<Op>): Fifo {
    if ops == [] then f else FifoStep(FifoRun(f, ops[..|ops| - 1]), ops[|ops| - 1]).0
  }

  /** An empty directory, apart from the file that clear spares. */
  predicate Fresh(w: World) {
    Started(w) && w.cache.files.Keys <= {SPARED}
  }

  ghost predicate AllCalls(env: Env, keys: set<string>, ops: seq<Op>) {
    forall i :: 0 <= i < |ops| ==> Calls(env, keys, ops[i])
  }

  lemma StepRefines(env: Env, keys: set<string>, w: World, op: Op)
    requires env.NamesDistinct(keys) && Calls(env, keys, op)
    requires w.cache.maxEntries > 0 && Shaped(w.cache.entries, w.cache.ttl, w.now) && InStep(env, keys, w.cache)
    requires |w.cache.entries| <= w.cache.maxEntries
    ensures var (w', v) := Step(env, w, op);
      && (Abstract(w'), v) == FifoStep(Abstract(w), op)
      && InStep(env, keys, w'.cache) && |w'.cache.entries| <= w'.cache.maxEntries && !Reloads(env, w, op)
  {
    match op
    case OpSet(key, json, took) => SetRefines(env, keys, w, key, json, w.now + took);
    case OpGet(key, took) =>
      assert Abstract(w).q == w.cache.entries;
      GetRefines(env, keys, w, key, w.now + took);
    case OpClear =>
    case OpTick(_) =>
  }

  /**
   * The cache refines the abstract machine: after any calls, and for whichever comes next, the entry
   * list and the value returned are those of the abstract machine. Nothing is ever reloaded, the
   * tiers stay in step and the list never exceeds max_entries.
   */
  lemma {:induction false} CacheRefinesFifo(env: Env, keys: set<string>, w: World, ops: seq<Op>, next: Op)
    requires env.NamesDistinct(keys) && Fresh(w) && AllCalls(env, keys, ops) && Calls(env, keys, next)
    ensures var r, f := Run(env, w, ops), FifoRun(Abstract(w), ops);
      && Abstract(r) == f && Step(env, r, next).1 == FifoStep(f, next).1
      && InStep(env, keys, r.cache) && |r.cache.entries| <= w.cache.maxEntries && ReloadCount(env, w, ops) == 0
  {
    ReachableShape(env, w, ops);
    if ops != [] {
      var n := |ops| - 1;
      CacheRefinesFifo(env, keys, w, ops[..n], ops[n]);
      ReachableShape(env, w, ops[..n]);
      StepRefines(env, keys, Run(env, w, ops[..n]), ops[n]);
    }
    StepRefines(env, keys, Run(env, w, ops), next);
  }

  /**
   * A value that does not parse is kept in memory but not on disk. The next get returns it exactly
   * when it parses or some file under the key's name is left; so `Calls` asks for values that parse.
   */
  lemma GetAfterSet(env: Env, w: World, key: string, json: string, written: int, later: int, loadedAt: int)
    requires w.cache.maxEntries > 0 && w.now <= later <= w.now + w.cache.ttl
      && Shaped(w.cache.entries, w.cache.ttl, w.now)
    ensures var kept := Evict(env, Without(w.cache.entries, key), w.cache.files, w.cache.maxEntries).1;
      var answer := Get(env, Set(env, w.cache, key, json, w.now, written), key, later, loadedAt).1;
      answer == Some(json) <==> env.Parses(json) || env.fileOf(key) in kept
  {
    var r := Without(w.cache.entries, key);
    var c := Set(env, w.cache, key, json, w.now, written);
    ShapedWithout(w.cache.entries, w.cache.ttl, w.now, key);
    EvictDropsHead(env, r, w.cache.files, w.cache.maxEntries, w.now);
    hide Without, Evict;
    assert c.entries[|c.entries| - 1] == Entry(key, json, w.now, w.cache.ttl);
    assert Find(c.entries, key) == |c.entries| - 1;
  }

  // ----- the history of calls -----

  function Clock(t: int, ops: seq<Op>): int {
    if ops == [] then t else
      Clock(t, ops[..|ops| - 1]) + Duration(ops[|ops| - 1])
  }

  /** How long a call takes. */
  function Duration(op: Op): nat {
    match op
    case OpSet(_, _, took) => took
    case OpGet(_, took) => took
    case OpTick(seconds) => seconds
    case _ => 0
  }

  /** Call i is a set, no later one sets the same key, and no clear follows. */
  ghost predicate LastSet(ops: seq<Op>, i: nat) {
    && i < |ops| && ops[i].OpSet?
    && forall j :: i < j < |ops| ==> ops[j] != OpClear && !(ops[j].OpSet? && ops[j].key == ops[i].key)
  }

  /** The keys set after call i. */
  ghost function KeysSetAfter(ops: seq<Op>, i: nat): set<string> {
    set j | i < j < |ops| && ops[j].OpSet? :: ops[j].key
  }

  /** The entry that call i made. */
  function EntryOf(f: Fifo, ops: seq<Op>, i: nat): Entry
    requires i < |ops| && ops[i].OpSet?
  {
    Entry(ops[i].key, ops[i].json, Clock(f.now, ops[..i]), f.ttl)
  }

  ghost predicate OneProcess(ops: seq<Op>) {
    forall i :: 0 <= i < |ops| ==> !ops[i].OpRestart?
  }

  /** The list as it would be without capacity and expiry: the last entry of every key, oldest first. */
  function Unbounded(f: Fifo, ops: seq<Op>): seq<Entry> {
    if ops == [] then [] else
      var n := |ops| - 1;
      var u := Unbounded(f, ops[..n]);
      match ops[n]
      case OpSet(key, _, _) => Without(u, key) + [EntryOf(f, ops, n)]
      case OpClear => []
      case _ => u
  }

  ghost function KeySet(s: seq<Entry>): set<string> {
    set i | 0 <= i < |s| :: s[i].key
  }

  lemma {:induction false} KeySetSize(s: seq<Entry>)
    requires Keyed(s)
    ensures |KeySet(s)| == |s|
  {
    if s != [] {
      var n := |s| - 1;
      KeySetSize(s[..n]);
      assert KeySet(s) == KeySet(s[..n]) + {s[n].key};
    }
  }

  /** Entry p of the unbounded list was made by call i, and the keys behind it are those set after i. */
  ghost predicate MadeBy(f: Fifo, ops: seq<Op>, u: seq<Entry>, p: nat, i: nat) {
    p < |u| && LastSet(ops, i) && u[p] == EntryOf(f, ops, i) && KeySet(u[p + 1..]) == KeysSetAfter(ops, i)
  }

  ghost predicate Made(f: Fifo, ops: seq<Op>, u: seq<Entry>, p: nat) {
    exists i: nat :: MadeBy(f, ops, u, p, i)
  }

  ghost predicate Explains(f: Fifo, ops: seq<Op>, u: seq<Entry>) {
    && Keyed(u)
    && (forall p: nat :: p < |u| ==> Made(f, ops, u, p))
    && (forall i: nat :: LastSet(ops, i) ==> ops[i].key in KeySet(u))
  }

  /** One more call, and what it means for an earlier set. */
  lemma OneMore(f: Fifo, ops: seq<Op>, op: Op, i: nat)
    requires i < |ops| && ops[i].OpSet?
    ensures LastSet(ops + [op], i) <==> LastSet(ops, i) && op != OpClear && !(op.OpSet? && op.key == ops[i].key)
    ensures KeysSetAfter(ops + [op], i) == KeysSetAfter(ops, i) + if op.OpSet? then {op.key} else {}
    ensures EntryOf(f, ops + [op], i) == EntryOf(f, ops, i)
  {
    var t := ops + [op];
    assert t[..i] == ops[..i] && t[i] == ops[i] && t[|ops|] == op;
    assert forall j :: i < j < |ops| ==> t[j] == ops[j];
    if op.OpSet? { assert t[|ops|].key in KeysSetAfter(t, i); }
    forall k | k in KeysSetAfter(ops, i)
      ensures k in KeysSetAfter(t, i)
    {
      var j :| i < j < |ops| && ops[j].OpSet? && ops[j].key == k;
      assert t[j].OpSet?;
    }
  }

  lemma ExplainsOther(f: Fifo, ops: seq<Op>, op: Op, u: seq<Entry>)
    requires Explains(f, ops, u) && !op.OpSet? && op != OpClear
    ensures Explains(f, ops + [op], u)
  {
    forall p: nat | p < |u|
      ensures Made(f, ops + [op], u, p)
    {
      assert Made(f, ops, u, p);
      var i: nat :| MadeBy(f, ops, u, p, i);
      OneMore(f, ops, op, i);
      assert MadeBy(f, ops + [op], u, p, i);
    }
    forall i: nat | LastSet(ops + [op], i)
      ensures (ops + [op])[i].key in KeySet(u)
    {
      OneMore(f, ops, op, i);
    }
  }

  lemma KeySetConcat(a: seq<Entry>, b: seq<Entry>)
    ensures KeySet(a + b) == KeySet(a) + KeySet(b)
  {
    var c := a + b;
    assert forall i :: 0 <= i < |a| ==> c[i] == a[i];
    assert forall i :: 0 <= i < |b| ==> c[|a| + i] == b[i];
  }

  lemma KeySetLacks(s: seq<Entry>, key: string)
    requires forall i :: 0 <= i < |s| ==> s[i].key != key
    ensures key !in KeySet(s)
  {
  }

  /** The position in s that becomes position p of the list without its key. */
  lemma WithoutTail(s: seq<Entry>, key: string, p: nat) returns (p': nat)
    requires Keyed(s) && p < |Without(s, key)|
    ensures p' < |s| && s[p'] == Without(s, key)[p] && s[p'].key != key
    ensures KeySet(Without(s, key)[p + 1..]) == KeySet(s[p' + 1..]) - {key}
  {
    hide KeySet;
    var i, r := Find(s, key), Without(s, key);
    if i == |s| {
      p' := p;
      KeySetLacks(s[p' + 1..], key);
    } else if p < i {
      p' := p;
      var a, b := s[p + 1..i], s[i + 1..];
      assert r[p + 1..] == a + b && s[p + 1..] == a + ([s[i]] + b);
      KeySetConcat(a, b);
      KeySetConcat(a, [s[i]] + b);
      KeySetConcat([s[i]], b);
      KeySetLacks(a, key);
      KeySetLacks(b, key);
      KeySetOne(s[i]);
    } else {
      p' := p + 1;
      assert r[p + 1..] == s[p' + 1..];
      KeySetLacks(s[p' + 1..], key);
    }
  }

  lemma KeySetOne(e: Entry)
    ensures KeySet([e]) == {e.key}
  {
    assert [e][0] == e;
  }

  lemma ExplainsSet(f: Fifo, ops: seq<Op>, key: string, json: string, took: nat, u: seq<Entry>)
    requires Explains(f, ops, u)
    ensures Explains(f, ops + [OpSet(key, json, took)],
      Without(u, key) + [EntryOf(f, ops + [OpSet(key, json, took)], |ops|)])
  {
    var op, n := OpSet(key, json, took), |ops|;
    var t := ops + [op];
    var r, e := Without(u, key), EntryOf(f, t, n);
    var u' := r + [e];
    WithoutKeys(u, key);
    KeySetOne(e);
    KeySetConcat(r, [e]);
    forall p: nat | p < |u'|
      ensures Made(f, t, u', p)
    {
      if p == |r| {
        assert u'[p + 1..] == [];
        assert MadeBy(f, t, u', p, n);
      } else {
        var p' := WithoutTail(u, key, p);
        assert Made(f, ops, u, p');
        var i: nat :| MadeBy(f, ops, u, p', i);
        OneMore(f, ops, op, i);
        assert u'[p + 1..] == r[p + 1..] + [e];
        KeySetConcat(r[p + 1..], [e]);
        assert MadeBy(f, t, u', p, i);
      }
    }
    forall i: nat | LastSet(t, i)
      ensures t[i].key in KeySet(u')
    {
      if i < n { OneMore(f, ops, op, i); }
    }
  }

  lemma WithoutKeys(s: seq<Entry>, key: string)
    requires Keyed(s)
    ensures Keyed(Without(s, key)) && KeySet(Without(s, key)) == KeySet(s) - {key}
    ensures forall i :: 0 <= i < |Without(s, key)| ==> Without(s, key)[i].key != key
  {
    hide KeySet;
    var i, r := Find(s, key), Without(s, key);
    if i < |s| {
      var a, b := s[..i], s[i + 1..];
      assert s == a + ([s[i]] + b) && r == a + b;
      KeySetConcat(a, b);
      KeySetConcat(a, [s[i]] + b);
      KeySetConcat([s[i]], b);
      KeySetOne(s[i]);
      KeySetLacks(a, key);
      KeySetLacks(b, key);
    } else {
      KeySetLacks(s, key);
    }
  }

  /** The unbounded list records exactly the sets that are the last for their key since the last clear. */
  lemma {:induction false} UnboundedExplained(f: Fifo, ops: seq<Op>)
    ensures Explains(f, ops, Unbounded(f, ops))
  {
    if ops != [] {
      var n := |ops| - 1;
      var op, pre := ops[n], ops[..n];
      assert ops == pre + [op];
      UnboundedExplained(f, pre);
      match op
      case OpSet(key, json, took) => ExplainsSet(f, pre, key, json, took, Unbounded(f, pre));
      case OpClear => assert forall i: nat :: !LastSet(ops, i);
      case _ => ExplainsOther(f, pre, op, Unbounded(f, pre));
    }
  }

  // ----- capacity and expiry against the unbounded list -----

  /** The entries that are not expired, in a list sorted by creation time. */
  function Live(s: seq<Entry>, ttl: int, now: int): seq<Entry> {
    if s == [] then [] else if now - s[0].createdAt > ttl then Live(s[1..], ttl, now) else s
  }

  /** Where the live part of a sorted list starts. */
  lemma {:induction false} LiveIs(s: seq<Entry>, ttl: int, now: int, k: nat)
    requires k <= |s|
    requires forall i :: 0 <= i < k ==> now - s[i].createdAt > ttl
    requires k < |s| ==> now - s[k].createdAt <= ttl
    ensures Live(s, ttl, now) == s[k..]
  {
    if k > 0 {
      LiveIs(s[1..], ttl, now, k - 1);
      assert s[1..][k - 1..] == s[k..];
    }
  }

  lemma {:induction false} LiveStart(s: seq<Entry>, ttl: int, now: int) returns (k: nat)
    ensures k <= |s| && Live(s, ttl, now) == s[k..]
    ensures forall i :: 0 <= i < k ==> now - s[i].createdAt > ttl
    ensures k < |s| ==> now - s[k].createdAt <= ttl
  {
    if s == [] || now - s[0].createdAt <= ttl {
      k := 0;
    } else {
      var j := LiveStart(s[1..], ttl, now);
      k := j + 1;
      assert s[1..][j..] == s[k..];
    }
  }

  /** Time passing commutes with the capacity cut. */
  lemma LiveTail(s: seq<Entry>, ttl: int, now: int, m: nat)
    requires Ordered(s, now)
    ensures Live(Tail(s, m), ttl, now) == Tail(Live(s, ttl, now), m)
  {
    var k := LiveStart(s, ttl, now);
    var b := if |s| <= m then 0 else |s| - m;
    var t := Tail(s, m);
    assert t == s[b..];
    if b >= k {
      LiveIs(t, ttl, now, 0);
    } else {
      LiveIs(t, ttl, now, k - b);
      assert t[k - b..] == s[k..];
    }
  }

  lemma LiveLater(s: seq<Entry>, ttl: int, now: int, later: int)
    requires Ordered(s, now) && now <= later
    ensures Live(Live(s, ttl, now), ttl, later) == Live(s, ttl, later)
  {
    var j := LiveStart(s, ttl, now);
    var k := LiveStart(s, ttl, later);
    assert j <= k;
    LiveIs(s[j..], ttl, later, k - j);
    assert s[j..][k - j..] == s[k..];
  }

  predicate Absent(s: seq<Entry>, key: string) {
    forall i :: 0 <= i < |s| ==> s[i].key != key
  }

  lemma WithoutAbsent(s: seq<Entry>, key: string)
    requires Absent(s, key)
    ensures Without(s, key) == s
  {
  }

  lemma WithoutCons(s: seq<Entry>, key: string)
    requires s != []
    ensures Without(s, key) == if s[0].key == key then s[1..] else [s[0]] + Without(s[1..], key)
    ensures |Without(s, key)| >= |s| - 1
  {
    var i := Find(s[1..], key);
    if s[0].key != key && i < |s[1..]| {
      assert RemoveAt(s, i + 1) == [s[0]] + RemoveAt(s[1..], i);
    }
  }

  lemma KeyedCons(s: seq<Entry>)
    requires Keyed(s) && s != []
    ensures Keyed(s[1..]) && Absent(s[1..], s[0].key)
  {
  }

  /** Expiry commutes with removing a key. */
  lemma {:induction false} LiveWithout(s: seq<Entry>, ttl: int, now: int, key: string)
    requires Keyed(s) && Ordered(s, now)
    ensures Live(Without(s, key), ttl, now) == Without(Live(s, ttl, now), key)
  {
    hide Without;
    if s == [] {
      WithoutAbsent(s, key);
    } else {
      KeyedCons(s);
      WithoutCons(s, key);
      if now - s[0].createdAt > ttl {
        LiveWithout(s[1..], ttl, now, key);
        if s[0].key == key { WithoutAbsent(s[1..], key); }
      } else {
        assert s[0].key == key && |s| > 1 ==> now - s[1].createdAt <= ttl;
      }
    }
  }

  lemma LiveAppend(s: seq<Entry>, ttl: int, now: int, e: Entry)
    requires Ordered(s, now) && now - e.createdAt <= ttl
    ensures Live(s + [e], ttl, now) == Live(s, ttl, now) + [e]
  {
    var k := LiveStart(s, ttl, now);
    LiveIs(s + [e], ttl, now, k);
    assert (s + [e])[k..] == s[k..] + [e];
  }

  lemma TailDrop(x: Entry, s: seq<Entry>, m: nat)
    requires |s| >= m
    ensures Tail([x] + s, m) == Tail(s, m)
  {
  }

  /** Cutting first or removing first makes no difference to the youngest m - 1 others. */
  lemma {:induction false} TailWithout(s: seq<Entry>, key: string, m: nat)
    requires Keyed(s) && m > 0
    ensures Tail(Without(Tail(s, m), key), m - 1) == Tail(Without(s, key), m - 1)
  {
    hide Without, Keyed;
    if |s| > m {
      hide Tail;
      var x, u := s[0], s[1..];
      assert s == [x] + u;
      KeyedCons(s);
      TailWithout(u, key, m);
      TailDrop(x, u, m);
      WithoutCons(s, key);
      WithoutCons(u, key);
      if x.key == key {
        WithoutAbsent(u, key);
      } else {
        TailDrop(x, Without(u, key), m - 1);
      }
    }
  }

  /** Expired entries that a get throws out were not live anyway. */
  lemma LiveRemoveExpired(s: seq<Entry>, ttl: int, now: int, i: nat)
    requires Ordered(s, now) && i < |s| && now - s[i].createdAt > ttl
    ensures Live(RemoveAt(s, i), ttl, now) == Live(s, ttl, now)
  {
    var k := LiveStart(s, ttl, now);
    var r := RemoveAt(s, i);
    LiveIs(r, ttl, now, k - 1);
    assert r[k - 1..] == s[k..];
  }

  // ----- what a get returns, from the history -----

  lemma FifoShape(f: Fifo, op: Op)
    requires f.max > 0 && Shaped(f.q, f.ttl, f.now) && |f.q| <= f.max
    ensures var f' := FifoStep(f, op).0;
      Shaped(f'.q, f.ttl, f'.now) && |f'.q| <= f.max && f'.max == f.max && f'.ttl == f.ttl && f'.now >= f.now
  {
    hide Without, RemoveAt;
    match op
    case OpSet(key, json, took) =>
      var r := Without(f.q, key);
      ShapedWithout(f.q, f.ttl, f.now, key);
      ShapedAppend(r, f.ttl, f.now, Entry(key, json, f.now, f.ttl));
    case OpGet(key, took) =>
      var i := Find(f.q, key);
      if i < |f.q| { ShapedRemoveAt(f.q, f.ttl, f.now, i); }
    case _ =>
  }

  /** The live entries of the machine are the youngest max of the live entries of the unbounded list. */
  ghost predicate Matches(f: Fifo, u: seq<Entry>) {
    && f.max > 0 && |f.q| <= f.max && Shaped(f.q, f.ttl, f.now) && Shaped(u, f.ttl, f.now)
    && Live(f.q, f.ttl, f.now) == Tail(Live(u, f.ttl, f.now), f.max)
  }

  lemma MatchesSet(f: Fifo, u: seq<Entry>, key: string, json: string, took: nat)
    requires Matches(f, u) && f.ttl >= 0
    ensures Matches(FifoStep(f, OpSet(key, json, took)).0, Without(u, key) + [Entry(key, json, f.now, f.ttl)])
  {
    MatchesSetNow(f, u, key, json);
    MatchesTick(FifoStep(f, OpSet(key, json, 0)).0, Without(u, key) + [Entry(key, json, f.now, f.ttl)], took);
  }

  lemma MatchesSetNow(f: Fifo, u: seq<Entry>, key: string, json: string)
    requires Matches(f, u) && f.ttl >= 0
    ensures Matches(FifoStep(f, OpSet(key, json, 0)).0, Without(u, key) + [Entry(key, json, f.now, f.ttl)])
  {
    var e, q, max, ttl, now := Entry(key, json, f.now, f.ttl), f.q, f.max, f.ttl, f.now;
    FifoShape(f, OpSet(key, json, 0));
    ShapedWithout(q, ttl, now, key);
    ShapedWithout(u, ttl, now, key);
    ShapedAppend(Without(u, key), ttl, now, e);
    LiveWithout(q, ttl, now, key);
    LiveWithout(u, ttl, now, key);
    var qr, ur, live := Without(q, key), Without(u, key), Live(u, ttl, now);
    ShapedAppend(qr, ttl, now, e);
    LiveTail(qr + [e], ttl, now, max);
    LiveAppend(qr, ttl, now, e);
    LiveAppend(ur, ttl, now, e);
    LiveKeyed(u, ttl, now);
    TailWithout(live, key, max);
    TailAppend(Without(Tail(live, max), key), e, max);
    TailAppend(Without(live, key), e, max);
  }

  lemma LiveKeyed(s: seq<Entry>, ttl: int, now: int)
    requires Keyed(s)
    ensures Keyed(Live(s, ttl, now))
  {
    var k := LiveStart(s, ttl, now);
  }

  lemma TailAppend(s: seq<Entry>, e: Entry, m: nat)
    requires m > 0
    ensures Tail(s + [e], m) == Tail(s, m - 1) + [e]
  {
  }

  lemma MatchesGet(f: Fifo, u: seq<Entry>, key: string, took: nat)
    requires Matches(f, u)
    ensures Matches(FifoStep(f, OpGet(key, took)).0, u)
  {
    MatchesGetNow(f, u, key);
    MatchesTick(FifoStep(f, OpGet(key, 0)).0, u, took);
  }

  lemma MatchesGetNow(f: Fifo, u: seq<Entry>, key: string)
    requires Matches(f, u)
    ensures Matches(FifoStep(f, OpGet(key, 0)).0, u)
  {
    FifoShape(f, OpGet(key, 0));
    var i := Find(f.q, key);
    if i < |f.q| && f.now - f.q[i].createdAt > f.q[i].ttl { LiveRemoveExpired(f.q, f.ttl, f.now, i); }
  }

  lemma MatchesTick(f: Fifo, u: seq<Entry>, seconds: nat)
    requires Matches(f, u)
    ensures Matches(FifoStep(f, OpTick(seconds)).0, u)
  {
    var q, m, ttl, now, later := f.q, f.max, f.ttl, f.now, f.now + seconds;
    FifoShape(f, OpTick(seconds));
    LiveLater(q, ttl, now, later);
    LiveLater(u, ttl, now, later);
    LiveOrdered(u, ttl, now, later);
    LiveTail(Live(u, ttl, now), ttl, later, m);
  }

  lemma LiveOrdered(s: seq<Entry>, ttl: int, now: int, later: int)
    requires Ordered(s, now) && now <= later
    ensures Ordered(Live(s, ttl, now), later) && Ordered(s, later)
  {
    var k := LiveStart(s, ttl, now);
  }

  /** In every run of one process the live entries are the youngest max of those the history calls for. */
  lemma {:induction false} RunMatches(f: Fifo, ops: seq<Op>)
    requires f.q == [] && f.max > 0 && f.ttl >= 0 && OneProcess(ops)
    ensures var r := FifoRun(f, ops);
      r.max == f.max && r.ttl == f.ttl && r.now == Clock(f.now, ops) && Matches(r, Unbounded(f, ops))
  {
    if ops != [] {
      var n := |ops| - 1;
      RunMatches(f, ops[..n]);
      var r, u := FifoRun(f, ops[..n]), Unbounded(f, ops[..n]);
      hide Matches;
      match ops[n]
      case OpSet(key, json, took) => MatchesSet(r, u, key, json, took);
      case OpGet(key, took) => MatchesGet(r, u, key, took);
      case OpClear => MatchesClear(r, u);
      case OpTick(d) => MatchesTick(r, u, d);
    }
  }

  lemma MatchesClear(f: Fifo, u: seq<Entry>)
    requires Matches(f, u)
    ensures Matches(FifoStep(f, OpClear).0, [])
  {
  }

  /**
   * The history test: call i set this key to this value, nothing set the key or cleared the cache
   * since, it is at most ttl old, and fewer than max different keys have been set since.
   */
  ghost predicate Recalled(f: Fifo, ops: seq<Op>, key: string, json: string, i: nat) {
    && LastSet(ops, i) && ops[i].key == key && ops[i].json == json
    && Clock(f.now, ops) - Clock(f.now, ops[..i]) <= f.ttl
    && |KeysSetAfter(ops, i)| < f.max
  }

  lemma FifoGetMeans(q: seq<Entry>, ttl: int, now: int, key: string, json: string)
    requires Shaped(q, ttl, now)
    ensures FifoGet(q, key, now).1 == Some(json) <==>
      exists p :: 0 <= p < |Live(q, ttl, now)| && Live(q, ttl, now)[p].key == key && Live(q, ttl, now)[p].json == json
  {
    var k := LiveStart(q, ttl, now);
    var i := Find(q, key);
    var live := q[k..];
    if k <= i < |q| { assert live[i - k] == q[i]; }
    forall p | 0 <= p < |live| && live[p].key == key
      ensures i == k + p
    {
      assert q[k + p].key == key;
    }
  }

  /** Entry p of the unbounded list is alive and among the youngest max exactly when the history test says so. */
  lemma KeptMeans(f: Fifo, ops: seq<Op>, p: nat, i: nat)
    requires var u := Unbounded(f, ops); MadeBy(f, ops, u, p, i) && Shaped(u, f.ttl, Clock(f.now, ops))
    ensures var u := Unbounded(f, ops);
      (exists j :: 0 <= j < |Tail(Live(u, f.ttl, Clock(f.now, ops)), f.max)|
        && Tail(Live(u, f.ttl, Clock(f.now, ops)), f.max)[j] == u[p])
      <==> Recalled(f, ops, ops[i].key, ops[i].json, i)
  {
    var u, now := Unbounded(f, ops), Clock(f.now, ops);
    var k := LiveStart(u, f.ttl, now);
    var live := u[k..];
    var b := if |live| <= f.max then k else |u| - f.max;
    assert Tail(live, f.max) == u[b..];
    KeySetSize(u[p + 1..]);
    assert b <= p <==> k <= p && |u| - 1 - p < f.max;
    if b <= p { assert u[b..][p - b] == u[p]; }
    forall j | 0 <= j < |u[b..]| && u[b..][j] == u[p]
      ensures b <= p
    {
      assert u[b + j] == u[p];
    }
  }

  /**
   * What a get returns, for every history of one process that started in an empty directory: the
   * value v exactly when some call set the key to v last, not cleared since, at most ttl ago, with
   * fewer than max_entries different keys set since. Nothing else about the history matters.
   */
  lemma GetFromHistory(env: Env, keys: set<string>, w: World, ops: seq<Op>, key: string, took: nat, v: string)
    requires env.NamesDistinct(keys) && Fresh(w) && AllCalls(env, keys, ops) && key in keys
    ensures Step(env, Run(env, w, ops), OpGet(key, took)).1 == Some(v) <==>
      exists i: nat :: Recalled(Abstract(w), ops, key, v, i)
  {
    hide Run, Step, FifoRun, FifoGet, Recalled, InStep, Reloads, ReloadCount, Matches, Unbounded, Live, Tail;
    var f := Abstract(w);
    CacheRefinesFifo(env, keys, w, ops, OpGet(key, took));
    GetOfFifo(FifoRun(f, ops), key, took);
    RunMatches(f, ops);
    HistoryOfFifo(f, ops, key, v);
  }

  /**
   * Call i set the key to v, the key was not set and the cache not cleared since, that call was made
   * at most seconds ago, and fewer than limit different keys have been set since.
   */
  ghost predicate Remembered(now: int, ops: seq<Op>, key: string, v: string, i: nat, limit: nat, seconds: int) {
    && i < |ops| && ops[i].OpSet? && ops[i].key == key && ops[i].json == v
    && (forall j :: i < j < |ops| ==> !ops[j].OpClear? && !(ops[j].OpSet? && ops[j].key == key))
    && Clock(now, ops) - Clock(now, ops[..i]) <= seconds
    && |set j | i < j < |ops| && ops[j].OpSet? :: ops[j].key| < limit
  }

  lemma RememberedIsRecalled(f: Fifo, ops: seq<Op>, key: string, v: string, i: nat)
    ensures Recalled(f, ops, key, v, i) <==> Remembered(f.now, ops, key, v, i, f.max, f.ttl)
  {
    hide Clock;
    if i < |ops| { assert KeysSetAfter(ops, i) == set j | i < j < |ops| && ops[j].OpSet? :: ops[j].key; }
  }

  /**
   * The same from `client_cache_create` on, in terms of the calls and the arguments alone: limit and
   * lifetime are the arguments where they are positive, and else 50 entries and 300 seconds.
   */
  lemma GetFromCreated(env: Env, keys: set<string>, files: Files, maxEntries: nat, ttl: int, now: int,
                       ops: seq<Op>, key: string, took: nat, v: string)
    requires env.NamesDistinct(keys) && files.Keys <= {"README.md"} && AllCalls(env, keys, ops) && key in keys
    ensures var limit, seconds := if maxEntries > 0 then maxEntries else 50, if ttl > 0 then ttl else 300;
      Step(env, Run(env, World(Create(files, maxEntries, ttl), now), ops), OpGet(key, took)).1 == Some(v) <==>
        exists i: nat :: Remembered(now, ops, key, v, i, limit, seconds)
  {
    var w := World(Create(files, maxEntries, ttl), now);
    CreateSettings(files, maxEntries, ttl);
    hide Run, Step, Remembered, Recalled;
    GetFromHistory(env, keys, w, ops, key, took, v);
    var limit, seconds := if maxEntries > 0 then maxEntries else 50, if ttl > 0 then ttl else 300;
    forall i: nat
      ensures Recalled(Abstract(w), ops, key, v, i) <==> Remembered(now, ops, key, v, i, limit, seconds)
    {
      RememberedIsRecalled(Abstract(w), ops, key, v, i);
    }
  }

  lemma GetOfFifo(f: Fifo, key: string, took: nat)
    ensures FifoStep(f, OpGet(key, took)).1 == FifoGet(f.q, key, f.now).1
  {
  }

  lemma HistoryOfFifo(f: Fifo, ops: seq<Op>, key: string, v: string)
    requires f.q == [] && f.max > 0 && f.ttl >= 0 && OneProcess(ops)
    ensures FifoGet(FifoRun(f, ops).q, key, Clock(f.now, ops)).1 == Some(v) <==>
      exists i: nat :: Recalled(f, ops, key, v, i)
  {
    hide FifoRun, FifoGet, Live, Tail;
    var r, u, now := FifoRun(f, ops), Unbounded(f, ops), Clock(f.now, ops);
    RunMatches(f, ops);
    UnboundedExplained(f, ops);
    FifoGetMeans(r.q, f.ttl, now, key, v);
    var kept := Tail(Live(u, f.ttl, now), f.max);
    if j :| 0 <= j < |kept| && kept[j].key == key && kept[j].json == v {
      var p := KeptIn(u, f.ttl, now, f.max, j);
      assert Made(f, ops, u, p);
      var i: nat :| MadeBy(f, ops, u, p, i);
      KeptMeans(f, ops, p, i);
    }
    if i: nat :| Recalled(f, ops, key, v, i) {
      assert key in KeySet(u);
      var p :| 0 <= p < |u| && u[p].key == key;
      assert Made(f, ops, u, p);
      var i': nat :| MadeBy(f, ops, u, p, i');
      assert i == i';
      KeptMeans(f, ops, p, i);
    }
  }

  lemma KeptIn(u: seq<Entry>, ttl: int, now: int, m: nat, j: nat) returns (p: nat)
    requires j < |Tail(Live(u, ttl, now), m)|
    ensures p < |u| && u[p] == Tail(Live(u, ttl, now), m)[j]
  {
    var k := LiveStart(u, ttl, now);
    p := if |u| - k <= m then k + j else |u| - m + j;
  }
}
