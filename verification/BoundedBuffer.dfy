/**
  The queue of src/boundedbuffer.c: a linked list updated in place, and the protocol of its producers and
  consumers around it.
*/
module BoundedBuffer {
  import opened Prelude

  // ---------------------------------------------------------------- what the critical sections do

  /** Whether `enqueue` broadcasts: only when the buffer was empty. */
  predicate WakesConsumers<T>(contents: seq<T>) {
    |contents| == 1
  }

  /** Whether `dequeue` broadcasts: only when the buffer was full. */
  predicate WakesProducers<T>(contents: seq<T>, capacity: nat) {
    |contents| == capacity - 1
  }

  // ---------------------------------------------------------------- the list

  class Node<T> {
    const data: T
    var nextPtr: Node?<T>

    /** `_allocNode` */
    constructor (data: T)
      ensures this.data == data && nextPtr == null
    {
      this.data, nextPtr := data, null;
    }
  }

  ghost function NodeAt<T>(nodes: seq<Node<T>>, i: int): Node?<T> {
    if 0 <= i < |nodes| then nodes[i] else null
  }

  ghost function DataOf<T>(nodes: seq<Node<T>>): (r: seq<T>)
    ensures |r| == |nodes| && forall i :: 0 <= i < |r| ==> r[i] == nodes[i].data
  {
    seq(|nodes|, i requires 0 <= i < |nodes| => nodes[i].data)
  }

  class Buffer<T> {
    const capacity: nat
    var numElements: nat
    var headPtr: Node?<T>
    var tailPtr: Node?<T>
    ghost var nodes: seq<Node<T>>

    /** The elements, first to leave first. */
    ghost function Contents(): seq<T>
      reads this`nodes
    {
      DataOf(nodes)
    }

    ghost predicate Valid()
      reads this, nodes
    {
      && 0 < capacity && numElements == |nodes| <= capacity
      && headPtr == NodeAt(nodes, 0) && tailPtr == NodeAt(nodes, |nodes| - 1)
      && (forall i {:trigger nodes[i].nextPtr} :: 0 <= i < |nodes| ==> nodes[i].nextPtr == NodeAt(nodes, i + 1))
      && (forall i, j :: 0 <= i < j < |nodes| ==> nodes[i] != nodes[j])
    }

    /** `allocBoundedBuffer` with a valid capacity. */
    constructor (capacity: nat)
      requires capacity > 0
      ensures Valid() && Contents() == [] && this.capacity == capacity && nodes == []
    {
      this.capacity := capacity;
      numElements, headPtr, tailPtr, nodes := 0, null, null, [];
    }

    /** `enqueue`, once there is room; returns whether it broadcasts. */
    method Enqueue(data: T) returns (broadcast: bool)
      requires Valid() && |Contents()| < capacity
      modifies this, nodes
      ensures Valid() && Contents() == old(Contents()) + [data] && broadcast == WakesConsumers(Contents())
      ensures |nodes| == |old(nodes)| + 1 && nodes[..|old(nodes)|] == old(nodes) && fresh(nodes[|old(nodes)|])
    {
      var newNode := new Node(data);
      assert nodes != [] ==> nodes[|nodes| - 1].nextPtr == NodeAt(nodes, |nodes|);
      if numElements != 0 {
        tailPtr.nextPtr := newNode;
      } else {
        headPtr := newNode;
      }
      tailPtr := newNode;
      numElements := numElements + 1;
      nodes := nodes + [newNode];
      broadcast := numElements == 1;
      forall i | 0 <= i < |nodes| ensures nodes[i].nextPtr == NodeAt(nodes, i + 1) {
        assert i < |nodes| - 1 ==> nodes[i] == old(nodes)[i] && old(nodes[i].nextPtr) == old(NodeAt(nodes, i + 1));
      }
    }

    /** `dequeue`, once there is an element; returns whether it broadcasts. */
    method Dequeue() returns (data: T, broadcast: bool)
      requires Valid() && Contents() != []
      modifies this
      ensures Valid() && old(Contents()) == [data] + Contents() && broadcast == WakesProducers(Contents(), capacity)
      ensures nodes == old(nodes)[1..]
    {
      assert nodes[0].nextPtr == NodeAt(nodes, 1);
      data := headPtr.data;
      headPtr := headPtr.nextPtr;
      numElements := numElements - 1;
      nodes := nodes[1..];
      if numElements == 0 {
        tailPtr := null;
      }
      broadcast := numElements == capacity - 1;
      forall i | 0 <= i < |nodes| ensures nodes[i].nextPtr == NodeAt(nodes, i + 1) {
        assert nodes[i] == old(nodes)[i + 1] && old(nodes[i + 1].nextPtr) == old(NodeAt(nodes, i + 2));
      }
    }

    /** The loop of `destroyBoundedBuffer`; returns what was thrown away. */
    method Drain() returns (ghost dropped: seq<T>)
      requires Valid()
      modifies this
      ensures Valid() && Contents() == [] && dropped == old(Contents())
    {
      dropped := [];
      while numElements != 0
        invariant Valid() && dropped + Contents() == old(Contents())
        decreases numElements
      {
        ghost var before := Contents();
        var data, broadcast := Dequeue();
        ConcatAssociates(dropped, [data], Contents());
        dropped := dropped + [data];
      }
    }
  }
}
