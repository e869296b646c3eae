/** What can be read off a list by following its pointers, and what its log of freed nodes says over whole runs. */
module ClientListWalk {
  import opened ClientList

  /** Where k steps along front lead from head: the pointers alone spell out the sequence. */
  ghost function Ahead<T>(list: LinkedList<T>, k: nat): (n: Node?<T>)
    requires list.Valid()
    reads list, list.nodes
    ensures n == if k < |list.nodes| then list.nodes[k] else null
  {
    if k == 0 then list.head else
      var p := Ahead(list, k - 1);
      if p == null then null else p.front
  }

  /** Where k steps along back lead from tail: the same sequence from its end. */
  ghost function Behind<T>(list: LinkedList<T>, k: nat): (n: Node?<T>)
    requires list.Valid()
    reads list, list.nodes
    ensures n == if k < |list.nodes| then list.nodes[|list.nodes| - 1 - k] else null
  {
    if k == 0 then list.tail else
      var p := Behind(list, k - 1);
      if p == null then null else p.back
  }

  // ----- nothing is freed twice -----

  ghost predicate NoDuplicates<T>(s: seq<T>) {
    forall i, j :: 0 <= i < j < |s| ==> s[i] != s[j]
  }

  /** Every node is in the list once, or was freed once, and not both. */
  ghost predicate Sound<T>(nodes: seq<Node<T>>, freed: seq<Node<T>>) {
    && NoDuplicates(nodes) && NoDuplicates(freed)
    && forall i, j :: 0 <= i < |nodes| && 0 <= j < |freed| ==> nodes[i] != freed[j]
  }

  lemma SoundCut<T>(nodes: seq<Node<T>>, freed: seq<Node<T>>, k: nat)
    requires k < |nodes| && Sound(nodes, freed)
    ensures Sound(nodes[..k] + nodes[k + 1..], freed + [nodes[k]])
  {
    var cut := nodes[..k] + nodes[k + 1..];
    assert forall i :: 0 <= i < |cut| ==> cut[i] == nodes[if i < k then i else i + 1];
  }

  lemma SoundGrow<T>(nodes: seq<Node<T>>, freed: seq<Node<T>>, k: nat, n: Node<T>)
    requires k <= |nodes| && Sound(nodes, freed) && n !in nodes && n !in freed
    ensures Sound(nodes[..k] + [n] + nodes[k..], freed)
  {
    var more := nodes[..k] + [n] + nodes[k..];
    assert forall i :: 0 <= i < |more| ==> more[i] == if i == k then n else nodes[if i < k then i else i - 1];
  }

  lemma SoundClear<T>(nodes: seq<Node<T>>, freed: seq<Node<T>>)
    requires Sound(nodes, freed)
    ensures Sound([], freed + nodes)
  {
  }

  datatype Op<T> = InsertAt(index: nat, item: T) | PopAt(index: nat) | ClearAll

  /**
   * Any run of calls on a list and its log: if no node was freed twice or while in the list, that is
   * still so at the end.
   */
  method Perform<T>(list: LinkedList<T>, log: FreeLog<T>, ops: seq<Op<T>>)
    requires list.Valid() && Sound(list.nodes, log.freedNodes)
    modifies list, list.nodes, log`freedNodes, log`freedItems
    ensures list.Valid() && Sound(list.nodes, log.freedNodes)
    ensures old(log.freedNodes) <= log.freedNodes
  {
    ghost var first := list.nodes;
    for i := 0 to |ops|
      invariant list.Valid() && Sound(list.nodes, log.freedNodes) && old(log.freedNodes) <= log.freedNodes
      invariant forall k :: 0 <= k < |list.nodes| ==> list.nodes[k] in first || fresh(list.nodes[k])
    {
      PerformOne(list, log, ops[i]);
    }
  }

  method PerformOne<T>(list: LinkedList<T>, log: FreeLog<T>, op: Op<T>)
    requires list.Valid() && Sound(list.nodes, log.freedNodes)
    modifies list, list.nodes, log`freedNodes, log`freedItems
    ensures list.Valid() && Sound(list.nodes, log.freedNodes)
    ensures old(log.freedNodes) <= log.freedNodes
    ensures forall k :: 0 <= k < |list.nodes| ==> list.nodes[k] in old(list.nodes) || fresh(list.nodes[k])
  {
    hide Sound, Items;
    ghost var was, freed := list.nodes, log.freedNodes;
    match op
    case InsertAt(index, item) =>
      var _ := list.Insert(index, item);
      ghost var k := if index < |was| then index else |was|;
      SoundGrow(was, freed, k, list.nodes[k]);
    case PopAt(index) =>
      var e := list.Pop(index, true, log);
      if e == 0 { SoundCut(was, freed, index); }
    case ClearAll =>
      list.Clear(true, log);
      SoundClear(was, freed);
  }
}
