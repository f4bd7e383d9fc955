/** The linked FIFO of `queue.c`: a head, a tail and nodes linked from head to tail. */
module Queues {
  import opened Wrappers

  class Node<T> {
    const data: T
    var next: Node?<T>

    constructor (data: T)
      ensures this.data == data && next == null
    {
      this.data := data;
      next := null;
    }
  }

  /** The data of a chain of nodes, in order. */
  ghost function Data<T>(spine: seq<Node<T>>): (s: seq<T>)
    ensures |s| == |spine|
  {
    seq(|spine|, i requires 0 <= i < |spine| => spine[i].data)
  }

  class Queue<T> {
    var head: Node?<T>
    var tail: Node?<T>
    ghost var spine: seq<Node<T>>

    ghost predicate Valid()
      reads this, spine
    {
      && (forall i, j :: 0 <= i < j < |spine| ==> spine[i] != spine[j])
      && (forall i :: 0 <= i < |spine| - 1 ==> spine[i].next == spine[i + 1])
      && if spine == [] then head == null && tail == null
         else head == spine[0] && tail == spine[|spine| - 1] && tail.next == null
    }

    ghost function Contents(): seq<T>
      reads this, spine
    {
      Data(spine)
    }

    constructor ()
      ensures Valid() && fresh(spine) && Contents() == []
    {
      head, tail, spine := null, null, [];
    }

    method Push(data: T)
      requires Valid()
      modifies this, spine
      ensures Valid() && fresh(set n | n in spine && n !in old(spine))
      ensures Contents() == old(Contents()) + [data]
    {
      var ptr := new Node(data);
      if tail != null {
        tail.next := ptr;
        tail := ptr;
      } else {
        head, tail := ptr, ptr;
      }
      spine := spine + [ptr];
    }

    /** The oldest entry, if there is one. */
    method Pop() returns (data: Option<T>)
      requires Valid()
      modifies this
      ensures Valid() && (forall n :: n in spine ==> n in old(spine))
      ensures old(Contents()) == [] ==> data == None && Contents() == []
      ensures old(Contents()) != [] ==> data == Some(old(Contents())[0]) && Contents() == old(Contents())[1..]
    {
      data := None;
      var ptr := head;
      if ptr != null {
        assert |spine| > 1 ==> spine[0].next == spine[0 + 1];
        if ptr.next != null {
          head := ptr.next;
        } else {
          head, tail := null, null;
        }
        data := Some(ptr.data);
        spine := spine[1..];
      }
    }
  }
}
