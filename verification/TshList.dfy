/** list.c: the keyed doubly linked list that every registry and plugin table uses. */
module TshList {
  /** What a list holds, as a sequence: keys and data in order. */
  datatype Entry<T> = Entry(key: int, data: T)

  /** The position of the first entry with the key, or the length when there is none. */
  function IndexOf<T>(es: seq<Entry<T>>, key: int): (k: nat)
    ensures k <= |es|
    ensures k < |es| ==> es[k].key == key
    ensures forall i | 0 <= i < k :: es[i].key != key
  {
    if es == [] || es[0].key == key then 0 else 1 + IndexOf(es[1..], key)
  }

  function Without<A>(s: seq<A>, k: nat): seq<A>
    requires k < |s|
  {
    s[..k] + s[k + 1..]
  }

  /** The list with its first entry of that key taken out, if there is one. */
  function RemoveFirst<T>(es: seq<Entry<T>>, key: int): seq<Entry<T>> {
    var k := IndexOf(es, key);
    if k < |es| then Without(es, k) else es
  }

  lemma IndexOfIs<T>(es: seq<Entry<T>>, key: int, k: nat)
    requires k <= |es| && (k < |es| ==> es[k].key == key)
    requires forall i | 0 <= i < k :: es[i].key != key
    ensures IndexOf(es, key) == k
  {}

  /** The search looks at keys only. */
  lemma SameKeysSameIndex<S, T>(es: seq<Entry<S>>, fs: seq<Entry<T>>, key: int)
    requires |es| == |fs| && forall i | 0 <= i < |es| :: es[i].key == fs[i].key
    ensures IndexOf(es, key) == IndexOf(fs, key)
  {
    IndexOfIs(fs, key, IndexOf(es, key));
  }

  class Node<T> {
    var prev: Node?<T>
    var next: Node?<T>
    var key: int
    var data: T

    /** alloc_node: zeroed links. */
    constructor (key: int, data: T)
      ensures this.key == key && this.data == data && prev == null && next == null
    {
      this.key, this.data := key, data;
      prev, next := null, null;
    }
  }

  /** Node i of ns points to its neighbours there. */
  ghost predicate LinkedAt<T>(ns: seq<Node<T>>, i: nat)
    requires i < |ns|
    reads ns[i]
  {
    && ns[i].next == (if i + 1 < |ns| then ns[i + 1] else null)
    && ns[i].prev == (if i > 0 then ns[i - 1] else null)
  }

  class List<T> {
    var head: Node?<T>
    var tail: Node?<T>
    var n: int
    ghost var nodes: seq<Node<T>>

    ghost predicate Valid()
      reads this, nodes
    {
      && n == |nodes|
      && head == (if |nodes| > 0 then nodes[0] else null)
      && tail == (if |nodes| > 0 then nodes[|nodes| - 1] else null)
      && (forall i, j | 0 <= i < j < |nodes| :: nodes[i] != nodes[j])
      && (forall i | 0 <= i < |nodes| :: LinkedAt(nodes, i))
    }

    ghost function Entries(): (es: seq<Entry<T>>)
      reads this, nodes
      ensures |es| == |nodes| && forall i | 0 <= i < |es| :: es[i] == Entry(nodes[i].key, nodes[i].data)
    {
      seq(|nodes|, i requires 0 <= i < |nodes| reads this, nodes => Entry(nodes[i].key, nodes[i].data))
    }

    constructor ()
      ensures Valid() && nodes == [] && Entries() == []
    {
      head, tail, n := null, null, 0;
      nodes := [];
    }

    twostate predicate Same()
      reads this, nodes
    {
      nodes == old(nodes) && unchanged(this) && unchanged(nodes)
    }

    /** A list whose nodes nobody wrote to is the list it was. */
    twostate lemma Untouched()
      requires old(Valid()) && Same()
      ensures Valid() && Entries() == old(Entries())
    {
      forall i | 0 <= i < |nodes| ensures LinkedAt(nodes, i) {
        assert old(LinkedAt(nodes, i)) && nodes[i] in nodes;
      }
    }

    /** list_find */
    method Find(key: int) returns (node: Node?<T>)
      requires Valid()
      ensures var k := IndexOf(Entries(), key);
              if k < |nodes| then node == nodes[k] else node == null
    {
      node := head;
      ghost var k := 0;
      if node != null {
        while true
          invariant k < |nodes| && node == nodes[k]
          invariant forall i | 0 <= i < k :: nodes[i].key != key
          decreases |nodes| - k
        {
          if node.key == key {
            IndexOfIs(Entries(), key, k);
            return;
          }
          assert LinkedAt(nodes, k);
          node := node.next;
          k := k + 1;
          if node == null { break; }
        }
      }
      IndexOfIs(Entries(), key, |nodes|);
    }

    /** A write to the data of the node at k. */
    method SetData(node: Node<T>, ghost k: nat, data: T)
      requires Valid() && k < |nodes| && node == nodes[k]
      modifies node`data
      ensures Valid() && Entries() == old(Entries())[k := Entry(node.key, data)]
    {
      node.data := data;
      forall i | 0 <= i < |nodes| ensures LinkedAt(nodes, i) { assert old(LinkedAt(nodes, i)); }
    }

    /** list_push; room says whether alloc_node succeeds. */
    method Push(key: int, data: T, room: bool) returns (node: Node?<T>)
      requires Valid()
      modifies this, (set x | x in nodes)`next
      ensures Valid()
      ensures !room ==> node == null && Same() && Entries() == old(Entries())
      ensures room ==>
        node != null && fresh(node) && nodes == old(nodes) + [node] && node.data == data &&
        Entries() == old(Entries()) + [Entry(key, data)]
    {
      if !room { return null; }
      ghost var was := nodes;
      var made := new Node(key, data);
      node := made;
      if head == null {
        head := node;
      } else {
        assert LinkedAt(nodes, n - 1);
        node.prev := tail;
        tail.next := node;
      }
      tail := node;
      n := n + 1;
      nodes := nodes + [made];
      forall i | 0 <= i < |nodes| ensures LinkedAt(nodes, i) {
        if i < |was| { assert old(LinkedAt(was, i)); }
      }
    }

    /** The relinking of list_remove, for the node at k. */
    method Detach(node: Node<T>, ghost k: nat)
      requires Valid() && k < |nodes| && node == nodes[k]
      modifies this, (set x | x in nodes)`prev, (set x | x in nodes)`next
      ensures Valid() && nodes == Without(old(nodes), k)
    {
      ghost var was := nodes;
      assert LinkedAt(nodes, k);
      if k > 0 { assert LinkedAt(nodes, k - 1); }
      if k + 1 < |nodes| { assert LinkedAt(nodes, k + 1); }
      if node == head {
        head := node.next;
      } else if node.prev != null {
        node.prev.next := node.next;
      }
      if node == tail {
        tail := node.prev;
      } else if node.next != null {
        node.next.prev := node.prev;
      }
      n := n - 1;
      nodes := Without(nodes, k);
      forall i | 0 <= i < |nodes| ensures LinkedAt(nodes, i) {
        var j := if i < k then i else i + 1;
        assert old(LinkedAt(was, j)) && nodes[i] == was[j];
        if j > 0 { assert was[j - 1] != was[j]; }
        if j + 1 < |was| { assert was[j + 1] != was[j]; }
      }
    }

    /** list_remove: the node after the one removed. */
    method Remove(key: int) returns (next: Node?<T>)
      requires Valid()
      modifies this, (set x | x in nodes)`prev, (set x | x in nodes)`next
      ensures Valid()
      ensures var k := IndexOf(old(Entries()), key);
              if k < |old(nodes)| then
                nodes == Without(old(nodes), k) && next == (if k + 1 < |old(nodes)| then old(nodes)[k + 1] else null)
              else nodes == old(nodes) && next == null
      ensures Entries() == RemoveFirst(old(Entries()), key)
    {
      hide IndexOf;
      var node := Find(key);
      if node == null { return null; }
      ghost var es := Entries();
      ghost var k := IndexOf(es, key);
      assert LinkedAt(nodes, k);
      next := node.next;
      Detach(node, k);
      assert Entries() == Without(es, k);
    }
  }
}
