/**
 * The doubly linked list of src/utils/client_list.c: nodes linked by back and front, a head, a tail
 * and a size, rewired in place. The ghost sequence `nodes` lists the nodes from head to tail; every
 * operation is proved to act on it as the corresponding sequence operation.
 */
module ClientList {

  class Node<T> {
    var back: Node?<T>
    var front: Node?<T>
    const item: T

    /** calloc: both links null. */
    constructor (item: T)
      ensures this.item == item && back == null && front == null
    {
      this.item, back, front := item, null, null;
    }
  }

  /** What has been handed to free and, when a free function is supplied, to that function, in order. */
  class FreeLog<T> {
    var freedNodes: seq<Node<T>>
    var freedItems: seq<T>

    constructor ()
      ensures freedNodes == [] && freedItems == []
    {
      freedNodes, freedItems := [], [];
    }

    /** free_function(node->item) when there is one, then free(node). */
    method FreeNode(node: Node<T>, freeItem: bool)
      modifies `freedNodes, `freedItems
      ensures freedNodes == old(freedNodes) + [node]
      ensures freedItems == old(freedItems) + if freeItem then [node.item] else []
    {
      if freeItem { freedItems := freedItems + [node.item]; }
      freedNodes := freedNodes + [node];
    }
  }

  /** The items of a node sequence. */
  function Items<T>(nodes: seq<Node<T>>): seq<T> {
    seq(|nodes|, i requires 0 <= i < |nodes| => nodes[i].item)
  }

  lemma ItemsSplice<T>(nodes: seq<Node<T>>, i: nat, j: nat, mid: seq<Node<T>>)
    requires i <= j <= |nodes|
    ensures |Items(nodes)| == |nodes|
    ensures Items(nodes[..i] + mid + nodes[j..]) == Items(nodes)[..i] + Items(mid) + Items(nodes)[j..]
  {
  }

  lemma ItemsCut<T>(nodes: seq<Node<T>>, k: nat)
    requires k < |nodes|
    ensures |Items(nodes)| == |nodes|
    ensures Items(nodes[..k] + nodes[k + 1..]) == Items(nodes)[..k] + Items(nodes)[k + 1..]
  {
  }

  lemma ItemsOne<T>(node: Node<T>)
    ensures Items([node]) == [node.item]
  {
  }

  class LinkedList<T> {
    var head: Node?<T>
    var tail: Node?<T>
    var size: nat
    ghost var nodes: seq<Node<T>>

    /**
     * head, tail and size describe `nodes`, and back and front are the neighbours in it; so the two
     * are inverse to each other, and null at the ends only.
     */
    ghost predicate Valid()
      reads this, nodes
    {
      && size == |nodes|
      && (forall i, j :: 0 <= i < j < |nodes| ==> nodes[i] != nodes[j])
      && head == (if |nodes| == 0 then null else nodes[0])
      && tail == (if |nodes| == 0 then null else nodes[|nodes| - 1])
      && (forall i {:trigger nodes[i].back} :: 0 <= i < |nodes| ==>
        nodes[i].back == if i == 0 then null else nodes[i - 1])
      && (forall i {:trigger nodes[i].front} :: 0 <= i < |nodes| ==>
        nodes[i].front == if i == |nodes| - 1 then null else nodes[i + 1])
    }

    ghost function Contents(): seq<T>
      reads `nodes
    {
      Items(nodes)
    }

    /** `linked_list_create`. */
    constructor ()
      ensures Valid() && nodes == []
    {
      head, tail, size, nodes := null, null, 0, [];
    }

    /** `linked_list_get_index`: walks from the nearer end; null past the end. */
    method GetIndex(index: nat) returns (cur: Node?<T>)
      requires Valid()
      ensures cur == if index >= |nodes| then null else nodes[index]
    {
      if index >= size { return null; }
      var pos := 0;
      if index <= size / 2 {
        cur := head;
        while pos < index
          invariant pos <= index && cur == nodes[pos]
        {
          cur := cur.front;
          pos := pos + 1;
        }
      } else {
        cur := tail;
        pos := size - 1;
        while pos > index
          invariant index <= pos < |nodes| && cur == nodes[pos]
        {
          cur := cur.back;
          pos := pos - 1;
        }
      }
    }

    /** `linked_list_append`. */
    method Append(item: T) returns (err: int)
      requires Valid()
      modifies this, tail
      ensures Valid() && err == 0
      ensures exists n: Node<T> :: fresh(n) && n.item == item && nodes == old(nodes) + [n]
      ensures Contents() == old(Contents()) + [item]
    {
      var node := new Node(item);
      size := size + 1;
      if tail == null {
        head := node;
      } else {
        node.back := tail;
        tail.front := node;
      }
      tail := node;
      nodes := nodes + [node];
      return 0;
    }

    /** `linked_list_insert`: before the node now at index; at or past the end it appends. */
    method Insert(index: nat, item: T) returns (err: int)
      requires Valid()
      modifies this, nodes
      ensures Valid() && err == 0
      ensures var k := if index < old(|nodes|) then index else old(|nodes|);
        && (exists n: Node<T> :: fresh(n) && n.item == item && nodes == old(nodes)[..k] + [n] + old(nodes)[k..])
        && Contents() == old(Contents())[..k] + [item] + old(Contents())[k..]
    {
      if index >= size {
        err := Append(item);
        return;
      }
      hide Items;
      var target := GetIndex(index);
      InsertBefore(target, index, item);
      return 0;
    }

    /** The rewiring of `linked_list_insert`. */
    method InsertBefore(target: Node<T>, ghost k: nat, item: T)
      requires Valid() && k < |nodes| && nodes[k] == target
      modifies this, nodes
      ensures Valid()
      ensures exists n: Node<T> :: fresh(n) && n.item == item && nodes == old(nodes)[..k] + [n] + old(nodes)[k..]
      ensures Contents() == old(Contents())[..k] + [item] + old(Contents())[k..]
    {
      hide Items;
      var node := new Node(item);
      ItemsSplice(nodes, k, k, [node]);
      ItemsOne(node);
      size := size + 1;
      node.back := target.back;
      node.front := target;
      if target.back != null {
        target.back.front := node;
      } else {
        head := node;
      }
      target.back := node;
      nodes := nodes[..k] + [node] + nodes[k..];
    }

    /** `linked_list_remove` of a node of this list; it and only it is freed. */
    method Remove(node: Node<T>, freeItem: bool, log: FreeLog<T>, ghost k: nat) returns (err: int)
      requires Valid() && k < |nodes| && nodes[k] == node
      modifies this, nodes, log`freedNodes, log`freedItems
      ensures Valid() && err == 0
      ensures nodes == old(nodes)[..k] + old(nodes)[k + 1..]
      ensures Contents() == old(Contents())[..k] + old(Contents())[k + 1..]
      ensures node.back == null && node.front == null
      ensures log.freedNodes == old(log.freedNodes) + [node]
      ensures log.freedItems == old(log.freedItems) + if freeItem then [node.item] else []
    {
      hide Items;
      ItemsCut(nodes, k);
      var back := node.back;
      var front := node.front;
      if back != null {
        back.front := front;
      } else {
        head := front;
      }
      if front != null {
        front.back := back;
      } else {
        tail := back;
      }
      size := size - 1;
      node.back := null;
      node.front := null;
      nodes := nodes[..k] + nodes[k + 1..];
      log.FreeNode(node, freeItem);
      return 0;
    }

    /** `linked_list_pop`: removes by index; 1 and no change past the end. */
    method Pop(index: nat, freeItem: bool, log: FreeLog<T>) returns (err: int)
      requires Valid()
      modifies this, nodes, log`freedNodes, log`freedItems
      ensures Valid() && err == if index < old(|nodes|) then 0 else 1
      ensures err == 1 ==> nodes == old(nodes) && Contents() == old(Contents())
      ensures err == 1 ==> log.freedNodes == old(log.freedNodes) && log.freedItems == old(log.freedItems)
      ensures err == 0 ==> nodes == old(nodes)[..index] + old(nodes)[index + 1..]
      ensures err == 0 ==> Contents() == old(Contents())[..index] + old(Contents())[index + 1..]
      ensures err == 0 ==> log.freedNodes == old(log.freedNodes) + [old(nodes)[index]]
      ensures err == 0 ==> log.freedItems == old(log.freedItems) + if freeItem then [old(Contents())[index]] else []
    {
      var node := GetIndex(index);
      if node == null { return 1; }
      err := Remove(node, freeItem, log, index);
      assert old(Contents())[index] == node.item;
    }

    /** `linked_list_clear`: every node freed once and, with a free function, every item once, in list order. */
    method Clear(freeItem: bool, log: FreeLog<T>)
      requires Valid()
      modifies this, log`freedNodes, log`freedItems
      ensures Valid() && nodes == []
      ensures log.freedNodes == old(log.freedNodes) + old(nodes)
      ensures log.freedItems == old(log.freedItems) + if freeItem then old(Contents()) else []
    {
      var cur := head;
      ghost var k := 0;
      while cur != null
        invariant 0 <= k <= |nodes| && cur == if k == |nodes| then null else nodes[k]
        invariant log.freedNodes == old(log.freedNodes) + nodes[..k]
        invariant log.freedItems == old(log.freedItems) + if freeItem then Contents()[..k] else []
        modifies log`freedNodes, log`freedItems
        decreases |nodes| - k
      {
        var next := cur.front;
        log.FreeNode(cur, freeItem);
        cur := next;
        k := k + 1;
      }
      head, tail, size, nodes := null, null, 0, [];
    }
  }

  /** Insert and then pop at the same place: the list is as before, and exactly the new node was freed. */
  method InsertPop<T>(list: LinkedList<T>, index: nat, item: T, log: FreeLog<T>)
    requires list.Valid() && index <= |list.nodes|
    modifies list, list.nodes, log`freedNodes, log`freedItems
    ensures list.Valid() && list.nodes == old(list.nodes) && list.Contents() == old(list.Contents())
    ensures log.freedItems == old(log.freedItems) + [item]
  {
    var _ := list.Insert(index, item);
    assert list.nodes[..index] + list.nodes[index + 1..] == old(list.nodes);
    var _ := list.Pop(index, true, log);
  }
}
