/** The singly linked lists with a tail pointer that src/packetconn.c and src/device.c keep. */
module Lists {

  /** A node of a subscription list; what it carries does not change. */
  class Node<T> {
    const value: T
    var next: Node?<T>

    constructor (value: T)
      ensures this.value == value && next == null
    {
      this.value := value;
      next := null;
    }
  }

  /** first, ..., last is the chain of exactly these nodes, with no cycle. */
  ghost predicate Linked<T>(first: Node?<T>, last: Node?<T>, nodes: seq<Node<T>>)
    reads nodes
  {
    && (forall i, j :: 0 <= i < j < |nodes| ==> nodes[i] != nodes[j])
    && (forall i :: 0 <= i < |nodes| - 1 ==> nodes[i].next == nodes[i + 1])
    && if nodes == [] then first == null && last == null
       else first == nodes[0] && last == nodes[|nodes| - 1] && last.next == null
  }

  /** A list without its k-th element. */
  ghost function Without<T>(s: seq<T>, k: nat): seq<T>
    requires k < |s|
  {
    s[..k] + s[k + 1..]
  }

  /** Puts a node behind the last one. */
  method Append<T>(first: Node?<T>, last: Node?<T>, node: Node<T>, ghost nodes: seq<Node<T>>)
    returns (first': Node<T>, last': Node<T>)
    requires Linked(first, last, nodes) && node !in nodes && node.next == null
    modifies nodes
    ensures Linked(first', last', nodes + [node])
  {
    if first == null {
      return node, node;
    }
    last.next := node;
    first', last' := first, node;
  }

  /** Takes the k-th node out, given the node in front of it. */
  method Unlink<T>(first: Node?<T>, last: Node?<T>, prev: Node?<T>, node: Node<T>,
                   ghost nodes: seq<Node<T>>, ghost k: nat)
    returns (first': Node?<T>, last': Node?<T>)
    requires Linked(first, last, nodes) && k < |nodes| && node == nodes[k]
    requires prev == if k == 0 then null else nodes[k - 1]
    modifies nodes
    ensures Linked(first', last', Without(nodes, k))
  {
    first', last' := first, last;
    assert k + 1 < |nodes| ==> nodes[k].next == nodes[k + 1];
    if node.next == null {
      last' := prev;
    }
    if prev != null {
      prev.next := node.next;
    } else {
      first' := node.next;
    }
    assert forall i :: 0 <= i < |nodes| - 1 && i != k - 1 ==> nodes[i].next == nodes[i + 1];
    ghost var rest := Without(nodes, k);
    assert forall i :: 0 <= i < |rest| ==> rest[i] == if i < k then nodes[i] else nodes[i + 1];
  }
}
