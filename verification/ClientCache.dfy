/**
 * src/utils/client_cache.c on the heap: a linked list of entries and a directory object, changed in
 * place. Each operation is proved to take the state where the function of `CacheSpec` takes it.
 */
module ClientCache {
  import opened ClientList
  import opened Base
  import opened CacheSpec

  /** CACHE_DIR: the regular files in it by name. */
  class Directory {
    var files: Files

    constructor (files: Files)
      ensures this.files == files
    {
      this.files := files;
    }
  }

  class ClientCache {
    const entries: LinkedList<Entry>
    const freed: FreeLog<Entry>
    const maxEntries: nat
    const defaultTtl: int

    ghost predicate Valid()
      reads entries, entries.nodes
    {
      entries.Valid() && maxEntries > 0 && defaultTtl > 0
    }

    ghost function List(): seq<Entry>
      reads entries
    {
      entries.Contents()
    }

    /** Every entry the cache ever made: still in the list, or freed. */
    ghost function Ledger(): multiset<Entry>
      reads entries, freed
    {
      multiset(List()) + multiset(freed.freedItems)
    }

    ghost function State(dir: Directory): Cache
      reads entries, dir
    {
      Cache(List(), dir.files, maxEntries, defaultTtl)
    }

    /** `client_cache_create`. */
    constructor (maxEntries: nat, defaultTtl: int)
      ensures Valid() && fresh(entries) && fresh(freed) && entries.nodes == []
      ensures forall dir: Directory :: State(dir) == Create(dir.files, maxEntries, defaultTtl)
    {
      entries := new LinkedList();
      freed := new FreeLog();
      this.maxEntries := if maxEntries > 0 then maxEntries else CACHE_MAX_ENTRIES;
      this.defaultTtl := if defaultTtl > 0 then defaultTtl else CACHE_DEFAULT_TTL;
    }

    /** LinkedList_foreach with strcmp: the first node under key. */
    method FindNode(key: string) returns (node: Node?<Entry>, ghost k: nat)
      requires Valid()
      ensures k == Find(List(), key) && |List()| == |entries.nodes|
      ensures node == if Find(List(), key) < |entries.nodes| then entries.nodes[Find(List(), key)] else null
      ensures node != null ==> node.item == List()[k]
    {
      node, k := entries.head, 0;
      while node != null
        invariant k <= |entries.nodes| && node == if k < |entries.nodes| then entries.nodes[k] else null
        invariant forall j :: 0 <= j < k ==> List()[j].key != key
        decreases |entries.nodes| - k
      {
        if node.item.key == key { break; }
        node := node.front;
        k := k + 1;
      }
      FindIs(List(), key, k);
    }

    /** The scan for the oldest entry. */
    method OldestEntry() returns (oldest: Entry)
      requires Valid() && entries.nodes != []
      ensures |List()| == |entries.nodes| && oldest == List()[Oldest(List())]
    {
      oldest := entries.head.item;
      var node := entries.head;
      ghost var k := 0;
      while node != null
        invariant k <= |entries.nodes| && node == if k < |entries.nodes| then entries.nodes[k] else null
        invariant oldest == if k == 0 then List()[0] else List()[Oldest(List()[..k])]
        decreases |entries.nodes| - k
      {
        assert List()[..k + 1][..k] == List()[..k];
        if node.item.createdAt < oldest.createdAt { oldest := node.item; }
        node := node.front;
        k := k + 1;
      }
      assert List()[..k] == List();
    }

    /** The scan for the node that holds it. */
    method OldestNode() returns (node: Node<Entry>, ghost k: nat)
      requires Valid() && entries.nodes != []
      ensures |List()| == |entries.nodes| && k == Oldest(List()) && node == entries.nodes[Oldest(List())]
      ensures node.item == List()[k]
    {
      var oldest := OldestEntry();
      node, k := entries.head, 0;
      while node.item != oldest
        invariant k <= Oldest(List()) && node == entries.nodes[k]
        decreases |entries.nodes| - k
      {
        node := node.front;
        k := k + 1;
      }
      assert List()[k] == oldest;
    }

    /** linked_list_remove with free_cache_entry, on the node at position k. */
    method DropNode(node: Node<Entry>, ghost k: nat)
      requires Valid() && k < |entries.nodes| == |List()| && node == entries.nodes[k] && node.item == List()[k]
      modifies entries, entries.nodes, freed`freedNodes, freed`freedItems
      ensures Valid() && forall n :: n in entries.nodes ==> n in old(entries.nodes)
      ensures List() == RemoveAt(old(List()), k) && Ledger() == old(Ledger())
    {
      hide Items;
      var _ := entries.Remove(node, true, freed, k);
      CutMembers(old(entries.nodes), k);
      CutLedger(old(List()), k, old(freed.freedItems));
    }

    /** The eviction block of `client_cache_set`. */
    method MakeRoom(env: Env, dir: Directory)
      requires Valid()
      modifies entries, entries.nodes, freed`freedNodes, freed`freedItems, dir
      ensures Valid() && forall n :: n in entries.nodes ==> n in old(entries.nodes)
      ensures (List(), dir.files) == Evict(env, old(List()), old(dir.files), maxEntries)
      ensures Ledger() == old(Ledger())
    {
      if entries.size >= maxEntries {
        if entries.head != null {
          var node, k := OldestNode();
          dir.files := Unlink(dir.files, env.fileOf(node.item.key));
          DropNode(node, k);
        }
      }
    }

    /** The first loop of `client_cache_set`: drop the entry under key. */
    method DropKey(key: string)
      requires Valid()
      modifies entries, entries.nodes, freed`freedNodes, freed`freedItems
      ensures Valid() && forall n :: n in entries.nodes ==> n in old(entries.nodes)
      ensures List() == Without(old(List()), key) && Ledger() == old(Ledger())
    {
      hide Items, Find, RemoveAt;
      var node, k := FindNode(key);
      if node != null { DropNode(node, k); }
    }

    /** `client_cache_set`; no entry is lost, and none freed twice. */
    method Set(env: Env, dir: Directory, key: Option<string>, json: Option<string>, now: int, written: int)
      returns (err: int)
      requires Valid()
      modifies entries, entries.nodes, freed`freedNodes, freed`freedItems, dir
      ensures Valid() && forall n :: n in entries.nodes ==> n in old(entries.nodes) || fresh(n)
      ensures err == if key.None? || json.None? then -1 else 0
      ensures err != 0 ==> State(dir) == old(State(dir))
      ensures err == 0 ==> State(dir) == CacheSpec.Set(env, old(State(dir)), key.value, json.value, now, written)
      ensures err == 0 ==> Ledger() == old(Ledger()) + multiset{Entry(key.value, json.value, now, defaultTtl)}
    {
      hide Items, Without, Evict, Save;
      if key.None? || json.None? { return -1; }
      DropKey(key.value);
      assert forall i :: 0 <= i < |entries.nodes| ==> entries.nodes[i] in old(entries.nodes);
      MakeRoom(env, dir);
      assert entries.tail == null || entries.tail in entries.nodes;
      assert entries.tail == null || entries.tail in old(entries.nodes);
      var entry := Entry(key.value, json.value, now, defaultTtl);
      var e := entries.Append(entry);
      if e != 0 { return -1; }
      dir.files := Save(env, dir.files, key.value, json.value, written);
      return 0;
    }

    /** `client_cache_get`; a reload makes one entry, nothing else does. */
    method Get(env: Env, dir: Directory, key: Option<string>, now: int, loadedAt: int) returns (value: Option<string>)
      requires Valid()
      modifies entries, entries.nodes, freed`freedNodes, freed`freedItems, dir
      ensures Valid() && forall n :: n in entries.nodes ==> n in old(entries.nodes) || fresh(n)
      ensures key.None? ==> value == None && State(dir) == old(State(dir))
      ensures key.Some? ==> (State(dir), value) == CacheSpec.Get(env, old(State(dir)), key.value, now, loadedAt)
      ensures Ledger() == old(Ledger())
        + if |List()| > |old(List())| then multiset{List()[|List()| - 1]} else multiset{}
    {
      hide Items, Find, Load, RemoveAt;
      if key.None? { return None; }
      var node, k := FindNode(key.value);
      if node != null {
        value := GetFrom(env, dir, node, k, now);
      } else {
        value := Reload(env, dir, key.value, now, loadedAt);
      }
    }

    /** The body of the loop of `client_cache_get`, at the node that has the key. */
    method GetFrom(env: Env, dir: Directory, node: Node<Entry>, ghost k: nat, now: int) returns (value: Option<string>)
      requires Valid() && k < |entries.nodes| == |List()| && node == entries.nodes[k] && node.item == List()[k]
      modifies entries, entries.nodes, freed`freedNodes, freed`freedItems, dir
      ensures Valid() && forall n :: n in entries.nodes ==> n in old(entries.nodes)
      ensures var e, name := old(List())[k], env.fileOf(old(List())[k].key);
        if now - e.createdAt > e.ttl then
          List() == RemoveAt(old(List()), k) && dir.files == Unlink(old(dir.files), name) && value == None
        else if name !in old(dir.files) then
          List() == RemoveAt(old(List()), k) && dir.files == old(dir.files) && value == None
        else List() == old(List()) && dir.files == old(dir.files) && value == Some(e.json)
      ensures Ledger() == old(Ledger())
    {
      hide Items, RemoveAt;
      var entry := node.item;
      if now - entry.createdAt > entry.ttl {
        DropNode(node, k);
        dir.files := Unlink(dir.files, env.fileOf(entry.key));
        return None;
      }
      if env.fileOf(entry.key) !in dir.files {
        DropNode(node, k);
        return None;
      }
      return Some(entry.json);
    }

    /** The last part of `client_cache_get`: read the file, and keep what it holds. */
    method Reload(env: Env, dir: Directory, key: string, now: int, loadedAt: int) returns (value: Option<string>)
      requires Valid()
      modifies entries, entries.tail, dir
      ensures Valid() && forall n :: n in entries.nodes ==> n in old(entries.nodes) || fresh(n)
      ensures (dir.files, value) == Load(env, old(dir.files), key, defaultTtl, now)
      ensures List() ==
        if value.Some? then old(List()) + [Entry(key, value.value, loadedAt, defaultTtl)] else old(List())
      ensures freed.freedItems == old(freed.freedItems)
    {
      hide Items, Load;
      var (files, loaded) := Load(env, dir.files, key, defaultTtl, now);
      dir.files := files;
      if loaded.Some? {
        var _ := entries.Append(Entry(key, loaded.value, loadedAt, defaultTtl));
      }
      return loaded;
    }

    /** The first loop of `client_cache_clear`: unlink the file of every entry. */
    method UnlinkOwned(env: Env, dir: Directory)
      requires Valid()
      modifies dir
      ensures dir.files == old(dir.files) - set e | e in List() :: env.fileOf(e.key)
    {
      var node := entries.head;
      ghost var k := 0;
      while node != null
        invariant k <= |entries.nodes| == |List()| && node == if k < |entries.nodes| then entries.nodes[k] else null
        invariant dir.files == old(dir.files) - set e | e in List()[..k] :: env.fileOf(e.key)
        decreases |entries.nodes| - k
      {
        assert List()[..k + 1] == List()[..k] + [node.item];
        dir.files := Unlink(dir.files, env.fileOf(node.item.key));
        node := node.front;
        k := k + 1;
      }
      assert List()[..k] == List();
    }

    /** The readdir loop of `client_cache_clear`, in whatever order the names come. */
    method UnlinkRest(dir: Directory)
      modifies dir
      ensures dir.files == map n | n in old(dir.files) && n == SPARED :: old(dir.files)[n]
    {
      var todo := dir.files.Keys;
      while todo != {}
        invariant todo <= dir.files.Keys <= old(dir.files).Keys
        invariant forall n :: n in old(dir.files) && n !in todo ==> (n in dir.files <==> n == SPARED)
        invariant forall n :: n in dir.files ==> dir.files[n] == old(dir.files)[n]
        decreases |todo|
      {
        var name :| name in todo;
        todo := todo - {name};
        if name != SPARED { dir.files := Unlink(dir.files, name); }
      }
    }

    /** `client_cache_clear`. */
    method Clear(env: Env, dir: Directory)
      requires Valid()
      modifies entries, freed`freedNodes, freed`freedItems, dir
      ensures Valid() && entries.nodes == []
      ensures State(dir) == CacheSpec.Clear(env, old(State(dir)))
      ensures freed.freedItems == old(freed.freedItems) + old(List())
    {
      UnlinkOwned(env, dir);
      entries.Clear(true, freed);
      UnlinkRest(dir);
    }
  }

  lemma CutMembers<T>(s: seq<T>, k: nat)
    requires k < |s|
    ensures forall x :: x in s[..k] + s[k + 1..] ==> x in s
  {
  }

  /** Moving an item from one sequence to the end of another loses nothing. */
  lemma CutLedger<T>(s: seq<T>, k: nat, log: seq<T>)
    requires k < |s|
    ensures multiset(s[..k] + s[k + 1..]) + multiset(log + [s[k]]) == multiset(s) + multiset(log)
  {
    assert s == s[..k] + [s[k]] + s[k + 1..];
  }

  /** Find is the one index with its property. */
  lemma FindIs(s: seq<Entry>, key: string, k: nat)
    requires k <= |s| && (k < |s| ==> s[k].key == key)
    requires forall j :: 0 <= j < k ==> s[j].key != key
    ensures Find(s, key) == k
  {
  }
}
