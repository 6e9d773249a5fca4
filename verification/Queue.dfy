/**
 The FIFO of Projet/Tools/queue/queue.c: a circular list known by its last node, whose
 next pointer leads back to the first.
 */
module Queue {

  class Node<T> {
    var ptr: T
    var next: Node?<T>

    constructor (ptr: T)
      ensures this.ptr == ptr
    {
      this.ptr := ptr;
      next := null;
    }
  }

  class Queue<T> {
    var start: Node?<T>            // what the C functions take and return
    ghost var nodes: seq<Node<T>>  // from the first to the last

    ghost predicate Valid()
      reads this, nodes
    {
      && (start == null <==> nodes == [])
      && (forall i, j | 0 <= i < j < |nodes| :: nodes[i] != nodes[j])
      && (forall i | 0 <= i < |nodes| - 1 :: nodes[i].next == nodes[i + 1])
      && (nodes != [] ==> start == nodes[|nodes| - 1] && start.next == nodes[0])
    }

    ghost function Contents(): seq<T>
      reads this, nodes
    {
      seq(|nodes|, i requires 0 <= i < |nodes| reads this, nodes => nodes[i].ptr)
    }

    constructor ()
      ensures Valid() && Contents() == [] && nodes == []
    {
      start := null;
      nodes := [];
    }

    // queue_push
    method Push(ptr: T)
      requires Valid()
      modifies this, nodes
      ensures Valid() && Contents() == old(Contents()) + [ptr]
      ensures |nodes| == |old(nodes)| + 1 && nodes[..|old(nodes)|] == old(nodes) && fresh(nodes[|old(nodes)|])
    {
      var q := new Node(ptr);
      if start != null {
        q.next := start.next;
        start.next := q;
      } else {
        q.next := q;
      }
      start := q;
      nodes := nodes + [q];
    }

    // queue_pop; on an empty queue the C function ends the program
    method Pop() returns (ptr: T)
      requires Valid() && nodes != []
      modifies this, nodes
      ensures Valid() && [ptr] + Contents() == old(Contents())
      ensures nodes == old(nodes)[1..]
    {
      var first := start.next;
      ptr := first.ptr;
      if start.next == start {
        start := null;
      } else {
        start.next := first.next;
      }
      nodes := nodes[1..];
    }

    // queue_empty
    method Empty()
      requires Valid()
      modifies this, nodes
      ensures Valid() && start == null && Contents() == []
    {
      while start != null
        invariant Valid() && |nodes| <= |old(nodes)| && nodes == old(nodes)[|old(nodes)| - |nodes|..]
        decreases |nodes|
      {
        var ptr := Pop();
      }
    }
  }

  datatype Call<T> = Push(value: T) | Pop

  function Pushes<T>(calls: seq<Call<T>>): seq<T> {
    if calls == [] then [] else
      var last := calls[|calls| - 1];
      Pushes(calls[..|calls| - 1]) + if last.Push? then [last.value] else []
  }

  /** Any mix of calls, with no pop on an empty queue: what came out and what is left is what went in. */
  method Replay<T>(calls: seq<Call<T>>) returns (outs: seq<T>, q: Queue<T>)
    ensures q.Valid() && outs + q.Contents() == Pushes(calls)
  {
    q := new Queue<T>();
    outs := [];
    for k := 0 to |calls|
      invariant q.Valid() && fresh(q) && fresh(q.nodes)
      invariant outs + q.Contents() == Pushes(calls[..k])
    {
      assert calls[..k + 1][..k] == calls[..k];
      match calls[k]
      case Push(value) =>
        q.Push(value);
      case Pop =>
        if q.start != null {
          var out := q.Pop();
          outs := outs + [out];
        }
    }
    assert calls[..|calls|] == calls;
  }
}
