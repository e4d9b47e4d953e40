/**
  The wait queue of a semaphore or a mutex: a kernel queue (core/kernel_queue.c) of thread nodes, read in the order in
  which it is popped.
 */
module WaitQueue {

  import opened Basics
  import opened KernelQueue

  // The threads in a list of nodes, tail first.
  ghost function OrderOf<D>(nodes: map<int, Node<D>>, l: seq<int>): (s: seq<D>)
    requires InNodes(nodes, l)
    ensures |s| == |l| && forall i :: 0 <= i < |s| ==> s[i] == nodes[l[|l| - 1 - i]].data
  {
    seq(|l|, i requires 0 <= i < |l| => nodes[l[|l| - 1 - i]].data)
  }

  ghost function Order<D>(memory: QueueMemory<D>, queue: int): (s: seq<D>)
    requires memory.Valid() && queue in memory.queues
    reads memory
    ensures InNodes(memory.nodes, memory.lists[queue]) && s == OrderOf(memory.nodes, memory.lists[queue])
  {
    QueueAt(memory.nodes, memory.queues, memory.lists, memory.removed, queue);
    OrderOf(memory.nodes, memory.lists[queue])
  }

  lemma OrderAtHead<D>(was: map<int, Node<D>>, now: map<int, Node<D>>, l: seq<int>, node: int)
    requires InNodes(was, l) && SameData(was, now, NULL) && node in was
    ensures InNodes(now, [node] + l) && OrderOf(now, [node] + l) == OrderOf(was, l) + [was[node].data]
  {
    var r := [node] + l;
    forall i | 0 <= i < |l| ensures OrderOf(now, r)[i] == OrderOf(was, l)[i] {
      assert r[|l| - i] == l[|l| - 1 - i] && now[l[|l| - 1 - i]].data == was[l[|l| - 1 - i]].data;
    }
    assert r[0] == node;
  }

  lemma OrderAtTail<D>(was: map<int, Node<D>>, now: map<int, Node<D>>, l: seq<int>)
    requires InNodes(was, l) && SameData(was, now, NULL) && l != []
    ensures InNodes(now, l[..|l| - 1]) && [now[l[|l| - 1]].data] + OrderOf(now, l[..|l| - 1]) == OrderOf(was, l)
  {
    var r := l[..|l| - 1];
    forall i | 0 <= i < |r| ensures OrderOf(now, r)[i] == OrderOf(was, l)[i + 1] {
      assert r[|r| - 1 - i] == l[|r| - 1 - i] && now[l[|r| - 1 - i]].data == was[l[|r| - 1 - i]].data;
    }
    var last := l[|l| - 1];
    assert last in was && now[last].data == was[last].data;
    assert OrderOf(was, l)[0] == was[last].data;
  }

  // Every other queue of the memory is as it was.
  twostate predicate OnlyQueue<D>(memory: QueueMemory<D>, queue: int)
    reads memory
  {
    && memory.queues.Keys == old(memory.queues).Keys && SameData(old(memory.nodes), memory.nodes, NULL)
    && forall q :: q in old(memory.lists) && q != queue ==> q in memory.lists && memory.lists[q] == old(memory.lists)[q]
  }

  // The node has become the head of the queue, or was its tail and has been taken out, or no queue has changed.
  twostate predicate Entered<D>(memory: QueueMemory<D>, queue: int, node: int)
    reads memory
  {
    && OnlyQueue(memory, queue) && queue in old(memory.lists)
    && memory.lists == old(memory.lists)[queue := [node] + old(memory.lists)[queue]]
    && forall n :: n in memory.nodes && n in old(memory.nodes) ==>
         memory.nodes[n].enlisted == (n == node || old(memory.nodes)[n].enlisted)
  }

  twostate predicate Left<D>(memory: QueueMemory<D>, queue: int, node: int)
    reads memory
  {
    && OnlyQueue(memory, queue) && queue in old(memory.lists) && old(memory.lists)[queue] != []
    && var l := old(memory.lists)[queue];
      && node == l[|l| - 1] && memory.lists == old(memory.lists)[queue := l[..|l| - 1]]
      && forall n :: n in memory.nodes && n in old(memory.nodes) ==>
           memory.nodes[n].enlisted == (n != node && old(memory.nodes)[n].enlisted)
  }

  twostate predicate Untouched<D>(memory: QueueMemory<D>)
    reads memory
  {
    memory.nodes == old(memory.nodes) && memory.lists == old(memory.lists)
      && memory.queues.Keys == old(memory.queues).Keys
  }

  /** kernel_queue_push: the thread waits behind all others. */
  method Enqueue<D>(memory: QueueMemory<D>, queue: int, node: int)
    requires memory.Valid() && queue in memory.queues && queue != NULL
    requires node != NULL && node in memory.nodes && !memory.nodes[node].enlisted
    modifies memory
    ensures memory.Valid() && queue in memory.queues && OnlyQueue(memory, queue)
    ensures Order(memory, queue) == old(Order(memory, queue)) + [old(memory.nodes)[node].data]
    ensures Entered(memory, queue, node)
  {
    ghost var l, was := memory.lists[queue], memory.nodes;
    QueueAt(memory.nodes, memory.queues, memory.lists, memory.removed, queue);
    var err := memory.Push(node, queue);
    OrderAtHead(was, memory.nodes, l, node);
    assert memory.lists[queue] == [node] + l;
  }

  /** kernel_queue_pop: the thread that has waited longest, NULL when nobody waits. */
  method Dequeue<D>(memory: QueueMemory<D>, queue: int) returns (node: int)
    requires memory.Valid() && queue in memory.queues && queue != NULL
    modifies memory
    ensures memory.Valid() && queue in memory.queues && OnlyQueue(memory, queue)
    ensures node == NULL <==> old(memory.lists)[queue] == []
    ensures node == NULL ==> memory.lists[queue] == [] && Untouched(memory)
    ensures node != NULL ==> Left(memory, queue, node)
    ensures node != NULL ==> node in memory.nodes && !memory.nodes[node].enlisted
    ensures node != NULL ==> [memory.nodes[node].data] + Order(memory, queue) == old(Order(memory, queue))
    ensures node != NULL ==> |memory.lists[queue]| == |old(memory.lists)[queue]| - 1
  {
    ghost var l, was := memory.lists[queue], memory.nodes;
    QueueAt(memory.nodes, memory.queues, memory.lists, memory.removed, queue);
    var err;
    node, err := memory.Pop(queue);
    if node != NULL {
      OrderAtTail(was, memory.nodes, l);
    }
  }

  /** Popping until nobody waits. */
  method DequeueAll<D>(memory: QueueMemory<D>, queue: int) returns (all: seq<D>)
    requires memory.Valid() && queue in memory.queues && queue != NULL
    modifies memory
    ensures memory.Valid() && queue in memory.queues && OnlyQueue(memory, queue)
    ensures memory.lists[queue] == [] && all == old(Order(memory, queue))
  {
    all := [];
    ghost var order := Order(memory, queue);
    var t := DequeueOne(memory, queue);
    while t.Some?
      invariant memory.Valid() && queue in memory.queues && OnlyQueue(memory, queue)
      invariant (if t.Some? then all + [t.value] else all) + Order(memory, queue) == order
      invariant t == None ==> memory.lists[queue] == []
      decreases if t.Some? then 1 + |memory.lists[queue]| else 0
    {
      all := all + [t.value];
      t := DequeueOne(memory, queue);
    }
  }

  // The data of the node popped, if there is one.
  method DequeueOne<D>(memory: QueueMemory<D>, queue: int) returns (t: Option<D>)
    requires memory.Valid() && queue in memory.queues && queue != NULL
    modifies memory
    ensures memory.Valid() && queue in memory.queues && OnlyQueue(memory, queue)
    ensures (if t.Some? then [t.value] else []) + Order(memory, queue) == old(Order(memory, queue))
    ensures t.Some? ==> |memory.lists[queue]| == |old(memory.lists)[queue]| - 1
    ensures t == None ==> memory.lists[queue] == []
  {
    var node := Dequeue(memory, queue);
    t := if node == NULL then None else Some(memory.nodes[node].data);
  }
}
