/**
 * The FIFO queue of queue.c: a singly linked list of nodes with `front`
 * and `rear` pointers and a `size` count.  The ghost `spine` lists the
 * nodes from front to rear and `Contents` their data; `Valid` ties the
 * pointers and the count to them.  Locks are no-ops and a blocking
 * `dequeue` needs a non-empty queue.
 */
module Queues {
  import opened Wrappers

  /** `QueueNode`: one element and the link to the next node. */
  class QueueNode<T> {
    var data: T
    var next: QueueNode?<T>

    constructor (data: T)
      ensures this.data == data && next == null
    {
      this.data := data;
      next := null;
    }
  }

  /** `Queue`: the linked list between `front` and `rear`, and its length. */
  class Queue<T> {
    var front: QueueNode?<T>
    var rear: QueueNode?<T>
    var size: int
    ghost var spine: seq<QueueNode<T>>
    ghost var Contents: seq<T>
    ghost var Repr: set<object>

    /**
     * The nodes of `spine` are distinct and linked in order, the last one
     * to null; `size` is their number; `front` and `rear` are the first and
     * last node, and both are null exactly when the queue is empty.
     */
    ghost predicate Valid()
      reads this, Repr
    {
      this in Repr &&
      (forall i :: 0 <= i < |spine| ==> spine[i] in Repr) &&
      (forall i, j :: 0 <= i < j < |spine| ==> spine[i] != spine[j]) &&
      |Contents| == |spine| == size &&
      (forall i :: 0 <= i < |spine| ==> spine[i].data == Contents[i]) &&
      (forall i :: 0 <= i < |spine| - 1 ==> spine[i].next == spine[i + 1]) &&
      (size == 0 ==> front == null && rear == null) &&
      (size > 0 ==> front == spine[0] && rear == spine[|spine| - 1] && rear.next == null)
    }

    /** `createQueue`: an empty queue, `front` and `rear` null. */
    constructor ()
      ensures Valid() && fresh(Repr)
      ensures Contents == [] && front == null && rear == null && size == 0
    {
      front, rear := null, null;
      size := 0;
      spine := [];
      Contents := [];
      Repr := {this};
    }

    /** `enqueue`: the element is linked in after the rear; the earlier elements keep their order. */
    method Enqueue(data: T)
      requires Valid()
      modifies this, Repr
      ensures Valid() && fresh(Repr - old(Repr))
      ensures Contents == old(Contents) + [data] && size == old(size) + 1
    {
      var newNode := new QueueNode(data);
      if rear == null {
        front, rear := newNode, newNode;
      } else {
        rear.next := newNode;
        rear := newNode;
      }
      size := size + 1;
      spine := spine + [newNode];
      Contents := Contents + [data];
      Repr := Repr + {newNode};
    }

    /** `dequeue`, on a non-empty queue: the front element is unlinked and returned. */
    method Dequeue() returns (data: T)
      requires Valid() && size > 0
      modifies this
      ensures Valid() && Repr == old(Repr)
      ensures data == old(Contents)[0] && Contents == old(Contents)[1..] && size == old(size) - 1
    {
      var temp := front;
      data := temp.data;
      front := front.next;
      if front == null {
        rear := null;
      }
      size := size - 1;
      spine := spine[1..];
      Contents := Contents[1..];
    }
  }

  /** `isQueueEmpty`: a missing queue counts as empty. */
  function IsQueueEmpty<T>(q: Queue?<T>): (empty: bool)
    requires q != null ==> q.Valid()
    reads q, if q == null then {} else q.Repr
    ensures empty <==> q == null || q.Contents == []
  {
    q == null || q.size == 0
  }

  /** `queueSize`: the number of elements, 0 for a missing queue. */
  function QueueSize<T>(q: Queue?<T>): (n: int)
    requires q != null ==> q.Valid()
    reads q, if q == null then {} else q.Repr
    ensures n == if q == null then 0 else |q.Contents|
  {
    if q == null then 0 else q.size
  }

  /** `peekQueue`: the front element, none for an empty or missing queue. */
  function PeekQueue<T>(q: Queue?<T>): (r: Option<T>)
    requires q != null ==> q.Valid()
    reads q, if q == null then {} else q.Repr
    ensures r.None? <==> IsQueueEmpty(q)
    ensures r.Some? ==> q != null && r.value == q.Contents[0]
  {
    if IsQueueEmpty(q) then None else Some(q.front.data)
  }

  /**
   * Whatever goes into a fresh queue comes out in the order it went in:
   * enqueueing xs and then dequeueing |xs| times yields xs and leaves the
   * queue empty.
   */
  method FirstInFirstOut<T>(xs: seq<T>) returns (ys: seq<T>, emptyAfter: bool)
    ensures ys == xs && emptyAfter
  {
    var q := new Queue<T>();
    var i := 0;
    while i < |xs|
      invariant 0 <= i <= |xs|
      invariant q.Valid() && fresh(q.Repr)
      invariant q.Contents == xs[..i] && q.size == i
    {
      q.Enqueue(xs[i]);
      i := i + 1;
    }
    ys := [];
    i := 0;
    while i < |xs|
      invariant 0 <= i <= |xs|
      invariant q.Valid() && fresh(q.Repr)
      invariant ys == xs[..i] && q.Contents == xs[i..] && q.size == |xs| - i
    {
      var x := q.Dequeue();
      ys := ys + [x];
      i := i + 1;
    }
    emptyAfter := IsQueueEmpty(q);
  }
}
