/** The singly linked list that both the alert history and the monitored paths use. */
module LinkedList {
  class Node<T> {
    var item: T
    var next: Node?<T>
    /** The node's place in its list. */
    ghost var index: nat

    constructor (item: T, ghost index: nat)
      ensures this.item == item && next == null && this.index == index
    {
      this.item, next, this.index := item, null, index;
    }
  }

  class List<T> {
    var head: Node?<T>
    /** The nodes from the head on: finite, all different, ended by null. */
    ghost var spine: seq<Node<T>>
    ghost var contents: seq<T>
    ghost var repr: set<Node<T>>

    ghost predicate Valid()
      reads this, repr
    {
      && |contents| == |spine|
      && head == (if spine == [] then null else spine[0])
      && (forall i :: 0 <= i < |spine| ==> spine[i] in repr && spine[i].index == i && spine[i].item == contents[i])
      && (forall i, j :: 0 <= i < j < |spine| && j == i + 1 ==> spine[i].next == spine[j])
      && (spine != [] ==> spine[|spine| - 1].next == null)
    }

    /** `node` is the k-th node; null stands just after the last one. */
    ghost predicate At(node: Node?<T>, k: nat)
      reads this
    {
      k <= |spine| && node == if k < |spine| then spine[k] else null
    }

    lemma NextAt(node: Node<T>, k: nat)
      requires Valid() && At(node, k)
      ensures k < |spine| && node.item == contents[k] && At(node.next, k + 1)
    {
      if k + 1 < |spine| {
        assert spine[k].next == spine[k + 1];
      }
    }

    constructor ()
      ensures Valid() && contents == [] && repr == {}
    {
      head, spine, contents, repr := null, [], [], {};
    }

    method Init()
      modifies this
      ensures Valid() && contents == [] && repr == {}
    {
      head, spine, contents, repr := null, [], [], {};
    }

    method InsertEnd(item: T)
      requires Valid()
      modifies this, repr
      ensures Valid() && contents == old(contents) + [item] && fresh(repr - old(repr))
    {
      var node: Node<T>;
      if head == null {
        node := new Node(item, |spine|);
        head := node;
      } else {
        var x := head;
        ghost var k := 0;
        NextAt(x, 0);
        while x.next != null
          invariant Valid() && k < |spine| && x == spine[k] && At(x.next, k + 1)
          decreases |spine| - k
          modifies {}
        {
          NextAt(x.next, k + 1);
          x, k := x.next, k + 1;
        }
        node := new Node(item, |spine|);
        x.next := node;
      }
      spine, contents, repr := spine + [node], contents + [item], repr + {node};
    }

    /** `node->item = item`, in place. */
    method Update(node: Node<T>, ghost k: nat, item: T)
      requires Valid() && k < |spine| && node == spine[k]
      modifies this`contents, node
      ensures Valid() && contents == old(contents)[k := item]
    {
      node.item := item;
      contents := contents[k := item];
    }
  }
}
