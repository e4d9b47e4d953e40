/**
  The kernel's doubly linked queues (core/kernel_queue.c). A queue is pushed at the head and
  popped at the tail, and also serves as a stable priority queue. Nodes and queues live at
  addresses in one memory, so that a node can move between the queues of the whole kernel.
 */
module KernelQueue {

  import opened Basics

  datatype Error = NoErr | NullPointer | NoSuchId | UnauthorizedAction | Panic

  // ----- The sequence the queue stands for, head first -----

  datatype Item<T> = Item(key: int, value: T)

  // A new entry goes before the first entry whose key does not exceed its own.
  function InsertItem<T>(s: seq<Item<T>>, x: Item<T>): (r: seq<Item<T>>)
    ensures |r| == |s| + 1
  {
    if s != [] && s[0].key > x.key then [s[0]] + InsertItem(s[1..], x) else [x] + s
  }

  lemma {:induction false} InsertItemAt<T>(s: seq<Item<T>>, x: Item<T>, k: nat)
    requires k <= |s| && (forall i :: 0 <= i < k ==> s[i].key > x.key) && (k < |s| ==> s[k].key <= x.key)
    ensures InsertItem(s, x) == s[..k] + [x] + s[k..]
  {
    if k == 0 {
      assert s[..0] + [x] + s[0..] == [x] + s;
    } else {
      InsertItemAt(s[1..], x, k - 1);
      assert s[..k] == [s[0]] + s[1..][..k - 1];
      assert s[1..][k - 1..] == s[k..];
    }
  }

  // ----- Whole runs of the queue -----

  datatype Stamped<T> = Stamped(stamp: int, value: T)

  datatype Event<T> = PushEvent(value: T) | PushPrioEvent(key: int, value: T) | PopEvent

  // The entries after a run, head first. Values are stamped with their arrival number.
  function RunPrio<T>(es: seq<Event<T>>): (s: seq<Item<Stamped<T>>>)
    ensures |s| <= |es|
  {
    if es == [] then []
    else
      var s, e := RunPrio(es[..|es| - 1]), es[|es| - 1];
      match e
      case PushPrioEvent(key, v) => InsertItem(s, Item(key, Stamped(|es|, v)))
      case PushEvent(v) => [Item(0, Stamped(|es|, v))] + s
      case PopEvent => if s == [] then [] else s[..|s| - 1]
  }

  predicate OnlyPrio<T>(es: seq<Event<T>>) {
    forall i :: 0 <= i < |es| ==> !es[i].PushEvent?
  }

  // Entry a leaves before entry b: a smaller key, or an equal key and an earlier arrival.
  predicate Before<T>(a: Item<Stamped<T>>, b: Item<Stamped<T>>) {
    a.key < b.key || (a.key == b.key && a.value.stamp < b.value.stamp)
  }

  ghost predicate LeavesInOrder<T>(s: seq<Item<Stamped<T>>>) {
    forall i, j :: 0 <= i < j < |s| ==> Before(s[j], s[i])
  }

  lemma {:induction false} InsertPlace<T>(s: seq<Item<T>>, x: Item<T>) returns (k: nat)
    ensures k <= |s| && (forall i :: 0 <= i < k ==> s[i].key > x.key) && (k < |s| ==> s[k].key <= x.key)
    ensures InsertItem(s, x) == s[..k] + [x] + s[k..]
  {
    k := 0;
    while k < |s| && s[k].key > x.key
      invariant k <= |s| && forall i :: 0 <= i < k ==> s[i].key > x.key
    {
      k := k + 1;
    }
    InsertItemAt(s, x, k);
  }

  lemma InsertKeepsOrder<T>(s: seq<Item<Stamped<T>>>, x: Item<Stamped<T>>)
    requires LeavesInOrder(s) && forall i :: 0 <= i < |s| ==> s[i].value.stamp < x.value.stamp
    ensures LeavesInOrder(InsertItem(s, x))
    ensures forall i :: 0 <= i <= |s| ==> InsertItem(s, x)[i].value.stamp <= x.value.stamp
  {
    var k := InsertPlace(s, x);
    forall i | k < i < |s| ensures s[i].key <= x.key {
      assert Before(s[i], s[k]);
    }
  }

  /** In every run of priority pushes and pops, from an empty queue, the entry at the tail, which is the
      one the next pop returns, has the least key and, among equal keys, arrived first. */
  lemma {:induction false} PriorityRun<T>(es: seq<Event<T>>)
    requires OnlyPrio(es)
    ensures LeavesInOrder(RunPrio(es))
    ensures forall i :: 0 <= i < |RunPrio(es)| ==> RunPrio(es)[i].value.stamp <= |es|
  {
    if es != [] {
      var before := es[..|es| - 1];
      PriorityRun(before);
      var e := es[|es| - 1];
      if e.PushPrioEvent? {
        InsertKeepsOrder(RunPrio(before), Item(e.key, Stamped(|es|, e.value)));
      }
    }
  }

  // Values pushed and values popped over a run of plain pushes and pops.
  function Pushed<T>(es: seq<Event<T>>): seq<T> {
    if es == [] then []
    else Pushed(es[..|es| - 1]) + (var e := es[|es| - 1]; if e.PopEvent? then [] else [e.value])
  }

  function Popped<T>(es: seq<Event<T>>): seq<T> {
    if es == [] then []
    else
      var before := es[..|es| - 1];
      var s := RunPrio(before);
      Popped(before) + (if es[|es| - 1].PopEvent? && s != [] then [s[|s| - 1].value.value] else [])
  }

  function TailFirst<T>(s: seq<Item<Stamped<T>>>): (r: seq<T>)
    ensures |r| == |s|
  {
    if s == [] then [] else TailFirst(s[1..]) + [s[0].value.value]
  }

  lemma {:induction false} TailFirstPop<T>(s: seq<Item<Stamped<T>>>)
    requires s != []
    ensures TailFirst(s) == [s[|s| - 1].value.value] + TailFirst(s[..|s| - 1])
  {
    if |s| > 1 {
      TailFirstPop(s[1..]);
      assert s[1..][..|s| - 2] == s[..|s| - 1][1..];
    }
  }

  /** First in, first out: after any run of plain pushes and pops, the values popped followed by the
      values still queued, tail first, are exactly the values pushed, in order. */
  lemma {:induction false} FifoRun<T>(es: seq<Event<T>>)
    requires forall i :: 0 <= i < |es| ==> !es[i].PushPrioEvent?
    ensures Pushed(es) == Popped(es) + TailFirst(RunPrio(es))
  {
    if es != [] {
      var before, e := es[..|es| - 1], es[|es| - 1];
      FifoRun(before);
      var s := RunPrio(before);
      if e.PopEvent? && s != [] {
        TailFirstPop(s);
      } else if e.PushEvent? {
        assert RunPrio(es)[1..] == s;
        assert Popped(es) == Popped(before);
      }
    }
  }

  // ----- The linked structure -----

  const NULL: int := 0

  datatype Node<D> = Node(data: D, priority: int, enlisted: bool, next: int, prev: int)

  datatype QueueRecord = QueueRecord(head: int, tail: int, size: int)

  ghost predicate Distinct<T>(s: seq<T>) {
    forall i, j :: 0 <= i < j < |s| ==> s[i] != s[j]
  }

  function NextOf(l: seq<int>, i: int): int
    requires 0 <= i < |l|
  {
    if i + 1 < |l| then l[i + 1] else NULL
  }

  function PrevOf(l: seq<int>, i: int): int
    requires 0 <= i <= |l|
  {
    if i > 0 then l[i - 1] else NULL
  }

  // The node at position i is queued and linked to its neighbours.
  ghost predicate At<D>(nodes: map<int, Node<D>>, l: seq<int>, i: int)
    requires 0 <= i < |l|
  {
    && l[i] != NULL && l[i] in nodes && nodes[l[i]].enlisted
    && nodes[l[i]].next == NextOf(l, i) && nodes[l[i]].prev == PrevOf(l, i)
  }

  ghost predicate Differ(l: seq<int>, i: int, j: int)
    requires 0 <= i < |l| && 0 <= j < |l|
  {
    l[i] != l[j]
  }

  // The links of neighbours are mutually inverse, no node comes twice, and the ends are closed.
  ghost predicate Linked<D>(nodes: map<int, Node<D>>, q: QueueRecord, l: seq<int>) {
    && q.head == (if l == [] then NULL else l[0])
    && q.tail == (if l == [] then NULL else l[|l| - 1])
    && (forall i {:trigger At(nodes, l, i)} :: 0 <= i < |l| ==> At(nodes, l, i))
    && (forall i, j {:trigger Differ(l, i, j)} :: 0 <= i < j < |l| ==> Differ(l, i, j))
  }

  lemma PositionOf<D>(nodes: map<int, Node<D>>, q: QueueRecord, l: seq<int>, i: nat, j: nat)
    requires Linked(nodes, q, l) && i < |l| && j < |l| && l[i] == l[j]
    ensures i == j
  {
    assert i < j ==> Differ(l, i, j);
    assert j < i ==> Differ(l, j, i);
  }

  // A list whose nodes have not changed stays linked.
  lemma LinkedElsewhere<D>(nodes: map<int, Node<D>>, now: map<int, Node<D>>, q: QueueRecord, l: seq<int>)
    requires Linked(nodes, q, l) && forall i ::
      0 <= i < |l| ==> l[i] in now && (l[i] in nodes ==> now[l[i]] == nodes[l[i]])
    ensures Linked(now, q, l)
  {
    forall i | 0 <= i < |l| ensures At(now, l, i) { assert At(nodes, l, i); }
  }

  // A node linked in at position k.
  function LinkedIn<D>(nodes: map<int, Node<D>>, l: seq<int>, k: nat, node: int): map<int, Node<D>>
    requires k <= |l| && node in nodes && (k > 0 ==> l[k - 1] in nodes) && (k < |l| ==> l[k] in nodes)
  {
    var m1 := nodes[node := nodes[node].(next := if k < |l| then l[k] else NULL, prev := PrevOf(l, k),
      enlisted := true)];
    var m2 := if k > 0 then m1[l[k - 1] := m1[l[k - 1]].(next := node)] else m1;
    if k < |l| then m2[l[k] := m2[l[k]].(prev := node)] else m2
  }

  function EndsIn(q: QueueRecord, l: seq<int>, k: nat, node: int): QueueRecord
    requires k <= |l|
  {
    QueueRecord(if k == 0 then node else q.head, if k == |l| then node else q.tail, (q.size + 1) % W32)
  }

  lemma InsertLinked<D>(nodes: map<int, Node<D>>, q: QueueRecord, l: seq<int>, k: nat, node: int)
    requires Linked(nodes, q, l) && k <= |l| && node != NULL && node in nodes && node !in l
    ensures (k > 0 ==> l[k - 1] in nodes) && (k < |l| ==> l[k] in nodes)
    ensures Linked(LinkedIn(nodes, l, k, node), EndsIn(q, l, k, node), l[..k] + [node] + l[k..])
  {
    if k > 0 { assert At(nodes, l, k - 1); }
    if k < |l| { assert At(nodes, l, k); }
    if 0 < k < |l| { assert Differ(l, k - 1, k); }
    var m, r := LinkedIn(nodes, l, k, node), l[..k] + [node] + l[k..];
    forall i | 0 <= i < |r| ensures At(m, r, i) {
      if i < k {
        assert At(nodes, l, i);
        if i < k - 1 { assert Differ(l, i, k - 1); }
        if k < |l| { assert Differ(l, i, k); }
      } else if i > k {
        assert At(nodes, l, i - 1);
        if k > 0 { assert Differ(l, k - 1, i - 1); }
        if i > k + 1 { assert Differ(l, k, i - 1); }
      }
    }
    forall i, j | 0 <= i < j < |r| ensures Differ(r, i, j) {
      if i != k && j != k { assert Differ(l, if i < k then i else i - 1, if j < k then j else j - 1); }
    }
  }

  // The node at position k taken out.
  function LinkedOut<D>(nodes: map<int, Node<D>>, l: seq<int>, k: nat): map<int, Node<D>>
    requires k < |l| && l[k] in nodes && (k > 0 ==> l[k - 1] in nodes) && (k + 1 < |l| ==> l[k + 1] in nodes)
  {
    var m1 := if k > 0 then nodes[l[k - 1] := nodes[l[k - 1]].(next := NextOf(l, k))] else nodes;
    var m2 := if k + 1 < |l| then m1[l[k + 1] := m1[l[k + 1]].(prev := PrevOf(l, k))] else m1;
    m2[l[k] := m2[l[k]].(next := NULL, prev := NULL, enlisted := false)]
  }

  function EndsOut(q: QueueRecord, l: seq<int>, k: nat, size: int): QueueRecord
    requires k < |l|
  {
    QueueRecord(if k == 0 then NextOf(l, 0) else q.head, if k == |l| - 1 then PrevOf(l, k) else q.tail, size)
  }

  // What becomes of the node at another position.
  lemma OutAt<D>(nodes: map<int, Node<D>>, q: QueueRecord, l: seq<int>, k: nat, o: nat)
    requires Linked(nodes, q, l) && k < |l| && o < |l| && o != k
    ensures l[k] in nodes && (k > 0 ==> l[k - 1] in nodes) && (k + 1 < |l| ==> l[k + 1] in nodes)
    ensures var m := LinkedOut(nodes, l, k);
      && l[o] != l[k] && l[o] in nodes && l[o] in m
      && m[l[o]] == nodes[l[o]].(next := if o == k - 1 then NextOf(l, k) else NextOf(l, o),
                                 prev := if o == k + 1 then PrevOf(l, k) else PrevOf(l, o))
  {
    assert At(nodes, l, k) && At(nodes, l, o);
    if k > 0 { assert At(nodes, l, k - 1); }
    if k + 1 < |l| { assert At(nodes, l, k + 1); }
    if l[o] == l[k] { PositionOf(nodes, q, l, o, k); }
    if k > 0 && l[o] == l[k - 1] { PositionOf(nodes, q, l, o, k - 1); }
    if k + 1 < |l| && l[o] == l[k + 1] { PositionOf(nodes, q, l, o, k + 1); }
  }

  lemma OutRow<D>(nodes: map<int, Node<D>>, q: QueueRecord, l: seq<int>, k: nat, i: nat)
    requires Linked(nodes, q, l) && k < |l| && i < |l| - 1
    ensures l[k] in nodes && (k > 0 ==> l[k - 1] in nodes) && (k + 1 < |l| ==> l[k + 1] in nodes)
    ensures var r := l[..k] + l[k + 1..]; At(LinkedOut(nodes, l, k), r, i) && r[i] != l[k]
  {
    var r, o := l[..k] + l[k + 1..], if i < k then i else i + 1;
    assert At(nodes, l, o) && r[i] == l[o];
    OutAt(nodes, q, l, k, o);
    assert i + 1 < |r| ==> r[i + 1] == l[if i + 1 < k then i + 1 else i + 2];
    assert i > 0 ==> r[i - 1] == l[if i - 1 < k then i - 1 else i];
  }

  lemma RemoveLinked<D>(nodes: map<int, Node<D>>, q: QueueRecord, l: seq<int>, k: nat, size: int)
    requires Linked(nodes, q, l) && k < |l|
    ensures l[k] in nodes && (k > 0 ==> l[k - 1] in nodes) && (k + 1 < |l| ==> l[k + 1] in nodes)
    ensures Linked(LinkedOut(nodes, l, k), EndsOut(q, l, k, size), l[..k] + l[k + 1..]) && l[k] !in l[..k] + l[k + 1..]
  {
    assert At(nodes, l, k);
    if k > 0 { assert At(nodes, l, k - 1); }
    if k + 1 < |l| { assert At(nodes, l, k + 1); }
    var m, r := LinkedOut(nodes, l, k), l[..k] + l[k + 1..];
    forall i | 0 <= i < |r| ensures At(m, r, i) && r[i] != l[k] { OutRow(nodes, q, l, k, i); }
    forall i, j | 0 <= i < j < |r| ensures Differ(r, i, j) {
      assert Differ(l, if i < k then i else i + 1, if j < k then j else j + 1);
    }
  }

  // ----- All queues of the kernel -----

  // No node is in two queues.
  ghost predicate Apart(lists: map<int, seq<int>>, p: int, q: int)
    requires p in lists && q in lists
  {
    forall n :: n in lists[p] ==> n !in lists[q]
  }

  ghost predicate QueueOk<D>(nodes: map<int, Node<D>>, queues: map<int, QueueRecord>, lists: map<int, seq<int>>,
                            removed: map<int, nat>, q: int)
    requires q in queues
  {
    && q in lists && q in removed && Linked(nodes, queues[q], lists[q])
    && queues[q].size == (|lists[q]| + removed[q]) % W32
  }

  ghost predicate AllOk<D>(nodes: map<int, Node<D>>, queues: map<int, QueueRecord>, lists: map<int, seq<int>>,
                           removed: map<int, nat>) {
    && NULL !in nodes && lists.Keys == queues.Keys
    && (forall q {:trigger QueueOk(nodes, queues, lists, removed, q)} ::
       q in queues ==> QueueOk(nodes, queues, lists, removed, q))
    && (forall p, q {:trigger Apart(lists, p, q)} :: p in lists && q in lists && p != q ==> Apart(lists, p, q))
  }

  ghost predicate InNodes<D>(nodes: map<int, Node<D>>, l: seq<int>) {
    forall i :: 0 <= i < |l| ==> l[i] in nodes
  }

  // Everything about one queue.
  lemma QueueAt<D>(nodes: map<int, Node<D>>, queues: map<int, QueueRecord>, lists: map<int, seq<int>>,
                   removed: map<int, nat>, q: int)
    requires AllOk(nodes, queues, lists, removed) && q in queues
    ensures QueueOk(nodes, queues, lists, removed, q) && InNodes(nodes, lists[q])
  {
    assert QueueOk(nodes, queues, lists, removed, q);
    forall i | 0 <= i < |lists[q]| ensures lists[q][i] in nodes { assert At(nodes, lists[q], i); }
  }

  // A node that is not marked is in no queue.
  lemma NotQueued<D>(nodes: map<int, Node<D>>, queues: map<int, QueueRecord>, lists: map<int, seq<int>>,
                     removed: map<int, nat>, node: int)
    requires AllOk(nodes, queues, lists, removed) && node in nodes && !nodes[node].enlisted
    ensures forall q :: q in lists ==> node !in lists[q]
  {
    forall q | q in lists ensures node !in lists[q] {
      assert QueueOk(nodes, queues, lists, removed, q);
      forall i | 0 <= i < |lists[q]| ensures lists[q][i] != node { assert At(nodes, lists[q], i); }
    }
  }

  /** A change of one queue, of its nodes and of one node that is in no other queue leaves all other queues linked. */
  lemma OneQueueChanges<D>(nodes: map<int, Node<D>>, now: map<int, Node<D>>, queues: map<int, QueueRecord>,
                           lists: map<int, seq<int>>, removed: map<int, nat>, q: int, record: QueueRecord, l: seq<int>,
                             rem: nat, node: int)
    requires AllOk(nodes, queues, lists, removed) && q in queues
    requires Linked(now, record, l) && record.size == (|l| + rem) % W32
    requires forall n :: n in l ==> n in lists[q] || n == node
    requires forall p :: p in lists && p != q ==> node !in lists[p]
    requires forall n :: n in nodes && n !in lists[q] && n != node ==> n in now && now[n] == nodes[n]
    requires NULL !in now
    ensures AllOk(now, queues[q := record], lists[q := l], removed[q := rem])
  {
    var queues', lists', removed' := queues[q := record], lists[q := l], removed[q := rem];
    forall p | p in queues' ensures QueueOk(now, queues', lists', removed', p) {
      if p != q {
        QueueAt(nodes, queues, lists, removed, p);
        assert Apart(lists, p, q);
        forall i | 0 <= i < |lists[p]| ensures lists[p][i] in now && now[lists[p][i]] == nodes[lists[p][i]] {
          var n := lists[p][i];
          assert n in lists[p] && n in nodes;
          assert n !in lists[q] && n != node;
        }
        LinkedElsewhere(nodes, now, queues[p], lists[p]);
      }
    }
    forall a, b | a in lists' && b in lists' && a != b ensures Apart(lists', a, b) {
      assert Apart(lists, a, b);
      assert Apart(lists, b, a);
    }
  }

  // Data and priorities stay, except for the priority of one node.
  ghost predicate SameData<D>(was: map<int, Node<D>>, now: map<int, Node<D>>, but: int) {
    && now.Keys == was.Keys
    && forall n :: n in was ==> now[n].data == was[n].data && (n != but ==> now[n].priority == was[n].priority)
  }

  // Which nodes an insertion leaves alone, and which are in the list then.
  lemma InsertFrame<D>(nodes: map<int, Node<D>>, l: seq<int>, k: nat, node: int)
    requires k <= |l| && node in nodes && InNodes(nodes, l)
    ensures forall n :: n in nodes && n !in l && n != node ==>
      n in LinkedIn(nodes, l, k, node) && LinkedIn(nodes, l, k, node)[n] == nodes[n]
    ensures forall n :: n in l[..k] + [node] + l[k..] ==> n in l || n == node
  {
    if k > 0 { assert l[k - 1] in l; }
    if k < |l| { assert l[k] in l; }
  }

  // The list after an insertion, with its size, and what it leaves alone.
  lemma InsertedQueue<D>(nodes: map<int, Node<D>>, q: QueueRecord, l: seq<int>, k: nat, node: int, rem: nat)
    requires Linked(nodes, q, l) && InNodes(nodes, l) && q.size == (|l| + rem) % W32 && k <= |l|
    requires NULL !in nodes && node != NULL && node in nodes && node !in l
    ensures var m, e, r := LinkedIn(nodes, l, k, node), EndsIn(q, l, k, node), l[..k] + [node] + l[k..];
      && Linked(m, e, r) && e.size == (|r| + rem) % W32 && NULL !in m
      && (forall n :: n in r ==> n in l || n == node)
      && (forall n :: n in nodes && n !in l && n != node ==> n in m && m[n] == nodes[n])
  {
    InsertLinked(nodes, q, l, k, node);
    InsertFrame(nodes, l, k, node);
  }

  lemma RemoveFrame<D>(nodes: map<int, Node<D>>, l: seq<int>, k: nat)
    requires k < |l| && InNodes(nodes, l)
    ensures forall n :: n in nodes && n !in l ==> n in LinkedOut(nodes, l, k) && LinkedOut(nodes, l, k)[n] == nodes[n]
    ensures forall n :: n in l[..k] + l[k + 1..] ==> n in l
  {
    assert l[k] in l;
    if k > 0 { assert l[k - 1] in l; }
    if k + 1 < |l| { assert l[k + 1] in l; }
  }

  lemma SameDataTrans<D>(a: map<int, Node<D>>, b: map<int, Node<D>>, c: map<int, Node<D>>, but: int)
    requires SameData(a, b, but) && SameData(b, c, NULL) && NULL !in a
    ensures SameData(a, c, but)
  {
    forall n | n in a ensures c[n].data == a[n].data && (n != but ==> c[n].priority == a[n].priority) {
      assert n in b;
    }
  }

  lemma LinkedInData<D>(nodes: map<int, Node<D>>, l: seq<int>, k: nat, node: int)
    requires k <= |l| && node in nodes && (k > 0 ==> l[k - 1] in nodes) && (k < |l| ==> l[k] in nodes)
    ensures var m := LinkedIn(nodes, l, k, node);
      SameData(nodes, m, NULL) && forall n :: n in nodes ==> m[n].enlisted == (n == node || nodes[n].enlisted)
  {
  }

  // All queues after a node has been linked into one of them, and after one has been taken out.
  lemma InsertChanges<D>(nodes: map<int, Node<D>>, queues: map<int, QueueRecord>, lists: map<int, seq<int>>,
                         removed: map<int, nat>, q: int, k: nat, node: int)
    requires AllOk(nodes, queues, lists, removed) && q in queues && k <= |lists[q]|
    requires node in nodes && forall p :: p in lists ==> node !in lists[p]
    ensures var l := lists[q];
      && (k > 0 ==> l[k - 1] in nodes) && (k < |l| ==> l[k] in nodes)
      && AllOk(LinkedIn(nodes, l, k, node), queues[q := EndsIn(queues[q], l, k, node)],
         lists[q := l[..k] + [node] + l[k..]], removed)
  {
    var l := lists[q];
    QueueAt(nodes, queues, lists, removed, q);
    InsertedQueue(nodes, queues[q], l, k, node, removed[q]);
    OneQueueChanges(nodes, LinkedIn(nodes, l, k, node), queues, lists, removed, q, EndsIn(queues[q], l, k, node),
                    l[..k] + [node] + l[k..], removed[q], node);
    assert removed[q := removed[q]] == removed;
  }

  // The links written in front of the node at position k, before the node is marked.
  lemma LinkedBefore<D>(was: map<int, Node<D>>, l: seq<int>, k: nat, node: int, now: map<int, Node<D>>)
    requires k < |l| && node in was && l[k] in was && (k > 0 ==> l[k - 1] in was && l[k - 1] != l[k])
    requires
      var m1 := was[node := was[node].(next := l[k], prev := PrevOf(l, k))];
      var m2 := m1[l[k] := m1[l[k]].(prev := node)];
      now == if k > 0 then m2[l[k - 1] := m2[l[k - 1]].(next := node)] else m2
    ensures node in now && now[node := now[node].(enlisted := true)] == LinkedIn(was, l, k, node)
  {
  }

  // ----- Pushing a node that is queued -----

  // The next links run through the path from the head of the queue on.
  ghost predicate Path<D>(nodes: map<int, Node<D>>, q: QueueRecord, path: seq<int>) {
    && path != [] && path[0] == q.head && path[0] != NULL
    && forall i {:trigger Hop(nodes, path, i)} :: 0 <= i < |path| - 1 ==> Hop(nodes, path, i)
  }

  ghost predicate Hop<D>(nodes: map<int, Node<D>>, path: seq<int>, i: int)
    requires 0 <= i < |path| - 1
  {
    path[i] in nodes && nodes[path[i]].next == path[i + 1] != NULL
  }

  lemma {:induction false} PathFollowed<D>(nodes: map<int, Node<D>>, q: QueueRecord, l: seq<int>, path: seq<int>)
    requires Linked(nodes, q, l) && Path(nodes, q, path)
    ensures |path| <= |l| && forall i :: 0 <= i < |path| ==> l[i] == path[i]
  {
    var n := |path| - 1;
    if n > 0 {
      forall i | 0 <= i < n - 1 ensures Hop(nodes, path[..n], i) { assert Hop(nodes, path, i); }
      PathFollowed(nodes, q, l, path[..n]);
      assert l[n - 1] == path[n - 1] && Hop(nodes, path, n - 1);
      assert At(nodes, l, n - 1);
    }
  }

  // The links are those of some queues.
  ghost predicate AreQueues<D>(nodes: map<int, Node<D>>, queues: map<int, QueueRecord>) {
    exists lists, removed :: AllOk(nodes, queues, lists, removed)
  }

  ghost predicate InSome(lists: map<int, seq<int>>, node: int) {
    exists p :: p in lists && node in lists[p]
  }

  // Linking in moves the links of no other node of another queue.
  lemma PathElsewhere<D>(nodes: map<int, Node<D>>, queues: map<int, QueueRecord>, lists: map<int, seq<int>>,
                         removed: map<int, nat>, p: int, j: nat, q: int, k: nat)
    requires AllOk(nodes, queues, lists, removed) && p in queues && q in queues && p != q && j < |lists[p]|
      && k <= |lists[q]|
    requires (k > 0 ==> lists[q][k - 1] in nodes) && (k < |lists[q]| ==> lists[q][k] in nodes) && lists[p][j] in nodes
    ensures Path(LinkedIn(nodes, lists[q], k, lists[p][j]), queues[p], lists[p][..j + 1])
  {
    var l, path := lists[p], lists[p][..j + 1];
    QueueAt(nodes, queues, lists, removed, p);
    assert Apart(lists, p, q) && At(nodes, l, 0);
    forall i | 0 <= i < j ensures Hop(LinkedIn(nodes, lists[q], k, l[j]), path, i) {
      assert At(nodes, l, i) && At(nodes, l, i + 1) && Differ(l, i, j);
      assert l[i] in l && l[i] !in lists[q];
    }
  }

  // The queue itself, up to the node.
  lemma PathToNode<D>(nodes: map<int, Node<D>>, q: QueueRecord, l: seq<int>, k: nat, node: int)
    requires Linked(nodes, q, l) && k <= |l| && node in nodes && node != NULL && forall i :: 0 <= i < k ==> l[i] != node
    ensures (k > 0 ==> l[k - 1] in nodes) && (k < |l| ==> l[k] in nodes)
    ensures Path(LinkedIn(nodes, l, k, node), EndsIn(q, l, k, node), l[..k] + [node])
  {
    if k > 0 { assert At(nodes, l, k - 1) && At(nodes, l, 0); }
    if k < |l| { assert At(nodes, l, k); }
    var m, path := LinkedIn(nodes, l, k, node), l[..k] + [node];
    forall i | 0 <= i < k ensures Hop(m, path, i) {
      assert At(nodes, l, i);
      if i < k - 1 { assert Differ(l, i, k - 1) && At(nodes, l, i + 1); }
      if k < |l| { assert Differ(l, i, k); }
    }
  }

  // A node of another queue would be in both.
  lemma InTwoQueues<D>(nodes: map<int, Node<D>>, queues: map<int, QueueRecord>, lists: map<int, seq<int>>,
                       removed: map<int, nat>, p: int, j: nat, q: int, k: nat)
    requires AllOk(nodes, queues, lists, removed) && p in queues && q in queues && p != q && j < |lists[p]|
      && k <= |lists[q]|
    ensures lists[p][j] in nodes && (k > 0 ==> lists[q][k - 1] in nodes) && (k < |lists[q]| ==> lists[q][k] in nodes)
    ensures !AreQueues(LinkedIn(nodes, lists[q], k, lists[p][j]),
      queues[q := EndsIn(queues[q], lists[q], k, lists[p][j])])
  {
    var l, node := lists[q], lists[p][j];
    QueueAt(nodes, queues, lists, removed, p);
    QueueAt(nodes, queues, lists, removed, q);
    assert At(nodes, lists[p], j) && Apart(lists, q, p) && node in lists[p];
    PathToNode(nodes, queues[q], l, k, node);
    PathElsewhere(nodes, queues, lists, removed, p, j, q, k);
    var m, now := LinkedIn(nodes, l, k, node), queues[q := EndsIn(queues[q], l, k, node)];
    forall ls, rem ensures !AllOk(m, now, ls, rem) {
      if AllOk(m, now, ls, rem) {
        NotShared(m, now, ls, rem, p, q, lists[p][..j + 1], l[..k] + [node]);
      }
    }
  }

  // Two paths of different queues do not meet.
  lemma NotShared<D>(nodes: map<int, Node<D>>, queues: map<int, QueueRecord>, lists: map<int, seq<int>>,
                     removed: map<int, nat>, p: int, q: int, one: seq<int>, two: seq<int>)
    requires AllOk(nodes, queues, lists, removed) && p in queues && q in queues && p != q
    requires Path(nodes, queues[p], one) && Path(nodes, queues[q], two)
    ensures one[|one| - 1] != two[|two| - 1]
  {
    QueueAt(nodes, queues, lists, removed, p);
    QueueAt(nodes, queues, lists, removed, q);
    assert Apart(lists, q, p);
    PathFollowed(nodes, queues[q], lists[q], two);
    assert lists[q][|two| - 1] in lists[q];
    PathFollowed(nodes, queues[p], lists[p], one);
  }

  // A node of the queue itself would be in it twice, or have the wrong prev link.
  lemma InQueueTwice<D>(nodes: map<int, Node<D>>, q: QueueRecord, l: seq<int>, k: nat, j: nat)
    requires Linked(nodes, q, l) && j < |l| && k <= |l|
    ensures l[j] in nodes && (k > 0 ==> l[k - 1] in nodes) && (k < |l| ==> l[k] in nodes)
    ensures forall r :: !Linked(LinkedIn(nodes, l, k, l[j]), EndsIn(q, l, k, l[j]), r)
  {
    assert At(nodes, l, j);
    if k > 0 { assert At(nodes, l, k - 1); }
    if k < |l| { assert At(nodes, l, k); }
    var m, record := LinkedIn(nodes, l, k, l[j]), EndsIn(q, l, k, l[j]);
    if k <= j {
      Circle(nodes, q, l, k, j);
      forall r ensures !Linked(m, record, r) {
        if Linked(m, record, r) { NotTwice(m, record, r, l[..k] + [l[j]] + l[k..j + 1], k, j + 1); }
      }
    } else {
      WrongPrev(nodes, q, l, k, j);
      forall r ensures !Linked(m, record, r) {
        if Linked(m, record, r) { PrevFollowed(m, record, r, l[..j + 1]); }
      }
    }
  }

  // A path comes to no node twice, and each of its nodes has the one before as its prev link.
  lemma NotTwice<D>(nodes: map<int, Node<D>>, q: QueueRecord, l: seq<int>, path: seq<int>, i: nat, j: nat)
    requires Linked(nodes, q, l) && Path(nodes, q, path) && i < j < |path|
    ensures path[i] != path[j]
  {
    PathFollowed(nodes, q, l, path);
    assert Differ(l, i, j);
  }

  lemma PrevFollowed<D>(nodes: map<int, Node<D>>, q: QueueRecord, l: seq<int>, path: seq<int>)
    requires Linked(nodes, q, l) && Path(nodes, q, path)
    ensures var n := |path| - 1; path[n] in nodes && nodes[path[n]].prev == if n > 0 then path[n - 1] else NULL
  {
    PathFollowed(nodes, q, l, path);
    assert At(nodes, l, |path| - 1);
  }

  lemma Circle<D>(nodes: map<int, Node<D>>, q: QueueRecord, l: seq<int>, k: nat, j: nat)
    requires Linked(nodes, q, l) && k <= j < |l|
    ensures l[j] in nodes && l[k] in nodes && (k > 0 ==> l[k - 1] in nodes)
    ensures Path(LinkedIn(nodes, l, k, l[j]), EndsIn(q, l, k, l[j]), l[..k] + [l[j]] + l[k..j + 1])
  {
    forall i | 0 <= i < k ensures l[i] != l[j] { assert Differ(l, i, j); }
    assert At(nodes, l, j) && At(nodes, l, k);
    PathToNode(nodes, q, l, k, l[j]);
    var m, path := LinkedIn(nodes, l, k, l[j]), l[..k] + [l[j]] + l[k..j + 1];
    forall i | 0 <= i < |path| - 1 ensures Hop(m, path, i) {
      if i < k {
        assert Hop(m, l[..k] + [l[j]], i);
        assert (l[..k] + [l[j]])[i] == path[i] && (l[..k] + [l[j]])[i + 1] == path[i + 1];
      } else if i == k {
        assert path[i] == l[j] && path[i + 1] == l[k];
        if k > 0 { assert Differ(l, k - 1, j); }
      } else {
        assert path[i] == l[i - 1] && path[i + 1] == l[i];
        assert At(nodes, l, i - 1) && At(nodes, l, i) && Differ(l, i - 1, j);
        if k > 0 { assert Differ(l, k - 1, i - 1); }
      }
    }
  }

  lemma WrongPrev<D>(nodes: map<int, Node<D>>, q: QueueRecord, l: seq<int>, k: nat, j: nat)
    requires Linked(nodes, q, l) && j < k <= |l|
    ensures l[j] in nodes && l[k - 1] in nodes && (k < |l| ==> l[k] in nodes)
    ensures var m := LinkedIn(nodes, l, k, l[j]);
      && Path(m, EndsIn(q, l, k, l[j]), l[..j + 1]) && m[l[j]].prev == l[k - 1] != (if j > 0 then l[j - 1] else NULL)
  {
    assert At(nodes, l, j) && At(nodes, l, k - 1) && At(nodes, l, 0);
    if k < |l| { assert At(nodes, l, k) && Differ(l, j, k); }
    if j > 0 { assert Differ(l, j - 1, k - 1); }
    var m, path := LinkedIn(nodes, l, k, l[j]), l[..j + 1];
    forall i | 0 <= i < j ensures Hop(m, path, i) {
      assert At(nodes, l, i) && At(nodes, l, i + 1) && Differ(l, i, j) && Differ(l, i, k - 1);
      if k < |l| { assert Differ(l, i, k); }
    }
  }

  /** Linking a node into a queue, at any place, leaves queues exactly when the node is in no queue: in the queue itself
      it would come twice or have the wrong neighbour, with another one it would be shared. */
  lemma LinkingKeepsQueuesIff<D>(nodes: map<int, Node<D>>, queues: map<int, QueueRecord>, lists: map<int, seq<int>>,
                            removed: map<int, nat>, q: int, k: nat, node: int)
    requires AllOk(nodes, queues, lists, removed) && q in queues && k <= |lists[q]| && node in nodes
    ensures (k > 0 ==> lists[q][k - 1] in nodes) && (k < |lists[q]| ==> lists[q][k] in nodes)
    ensures AreQueues(LinkedIn(nodes, lists[q], k, node), queues[q := EndsIn(queues[q], lists[q], k, node)])
      <==> !InSome(lists, node)
  {
    QueueAt(nodes, queues, lists, removed, q);
    var m, now := LinkedIn(nodes, lists[q], k, node), queues[q := EndsIn(queues[q], lists[q], k, node)];
    if p, j :| p in lists && 0 <= j < |lists[p]| && lists[p][j] == node {
      if p == q {
        InQueueTwice(nodes, queues[q], lists[q], k, j);
        forall ls, rem ensures !AllOk(m, now, ls, rem) {
          if AllOk(m, now, ls, rem) { QueueAt(m, now, ls, rem, q); }
        }
      } else {
        InTwoQueues(nodes, queues, lists, removed, p, j, q, k);
      }
    } else {
      InsertChanges(nodes, queues, lists, removed, q, k, node);
      assert AllOk(m, now, lists[q := lists[q][..k] + [node] + lists[q][k..]], removed);
    }
  }

  // The links alone make a queue.
  lemma SameLinks<D>(was: map<int, Node<D>>, now: map<int, Node<D>>, queues: map<int, QueueRecord>,
                     lists: map<int, seq<int>>, removed: map<int, nat>)
    requires AllOk(was, queues, lists, removed) && now.Keys == was.Keys
    requires forall n :: n in was ==> now[n] == was[n].(priority := now[n].priority)
    ensures AllOk(now, queues, lists, removed)
  {
    forall q | q in queues ensures QueueOk(now, queues, lists, removed, q) {
      assert QueueOk(was, queues, lists, removed, q);
      forall i | 0 <= i < |lists[q]| ensures At(now, lists[q], i) { assert At(was, lists[q], i); }
    }
  }

  /** The same for a push of the node, and for a priority push wherever it puts the node: the priority is written
      first. */
  lemma PushKeepsQueuesIff<D>(nodes: map<int, Node<D>>, queues: map<int, QueueRecord>, lists: map<int, seq<int>>,
                            removed: map<int, nat>, q: int, k: nat, node: int, priority: int)
    requires AllOk(nodes, queues, lists, removed) && q in queues && k <= |lists[q]| && node in nodes
    ensures var was := nodes[node := nodes[node].(priority := priority)];
      && (k > 0 ==> lists[q][k - 1] in was) && (k < |lists[q]| ==> lists[q][k] in was)
      && (AreQueues(LinkedIn(was, lists[q], k, node), queues[q := EndsIn(queues[q], lists[q], k, node)])
          <==> !InSome(lists, node))
  {
    SameLinks(nodes, nodes[node := nodes[node].(priority := priority)], queues, lists, removed);
    LinkingKeepsQueuesIff(nodes[node := nodes[node].(priority := priority)], queues, lists, removed, q, k, node);
  }

  lemma LinkedOutData<D>(nodes: map<int, Node<D>>, l: seq<int>, k: nat)
    requires k < |l| && l[k] in nodes && (k > 0 ==> l[k - 1] in nodes) && (k + 1 < |l| ==> l[k + 1] in nodes)
    ensures var m := LinkedOut(nodes, l, k);
      SameData(nodes, m, NULL) && forall n :: n in nodes ==> m[n].enlisted == (n != l[k] && nodes[n].enlisted)
  {
  }

  lemma RemoveChanges<D>(nodes: map<int, Node<D>>, queues: map<int, QueueRecord>, lists: map<int, seq<int>>,
                         removed: map<int, nat>, q: int, k: nat, size: int, rem: nat)
    requires AllOk(nodes, queues, lists, removed) && q in queues && k < |lists[q]|
      && size == (|lists[q]| - 1 + rem) % W32
    ensures var l := lists[q];
      && l[k] in nodes && (k > 0 ==> l[k - 1] in nodes) && (k + 1 < |l| ==> l[k + 1] in nodes)
      && AllOk(LinkedOut(nodes, l, k), queues[q := EndsOut(queues[q], l, k, size)], lists[q := l[..k] + l[k + 1..]],
         removed[q := rem])
  {
    var l := lists[q];
    QueueAt(nodes, queues, lists, removed, q);
    RemoveLinked(nodes, queues[q], l, k, size);
    RemoveFrame(nodes, l, k);
    var node := l[k];
    assert node in lists[q];
    forall p | p in lists && p != q ensures node !in lists[p] { assert Apart(lists, q, p); }
    OneQueueChanges(nodes, LinkedOut(nodes, l, k), queues, lists, removed, q, EndsOut(queues[q], l, k, size),
                    l[..k] + l[k + 1..], rem, l[k]);
  }

  // Where an entry of the given priority goes.
  ghost predicate PrioPlace<D>(nodes: map<int, Node<D>>, l: seq<int>, k: nat, priority: int)
    requires InNodes(nodes, l) && k <= |l|
  {
    (forall i :: 0 <= i < k ==> nodes[l[i]].priority > priority) && (k < |l| ==> nodes[l[k]].priority <= priority)
  }

  // The entries of a list of nodes, head first: their priorities and addresses.
  ghost function NodesOf<D>(nodes: map<int, Node<D>>, l: seq<int>): (s: seq<Item<int>>)
    requires InNodes(nodes, l)
    ensures |s| == |l| && forall i :: 0 <= i < |s| ==> s[i] == Item(nodes[l[i]].priority, l[i])
  {
    seq(|l|, i requires 0 <= i < |l| => Item(nodes[l[i]].priority, l[i]))
  }

  // A node with its priority has entered a list at its place.
  ghost predicate Prioritised<D>(was: map<int, Node<D>>, now: map<int, Node<D>>, l: seq<int>, r: seq<int>, k: nat,
                            node: int, priority: int) {
    && InNodes(now, r) && InNodes(was, l) && k <= |l| && PrioPlace(was, l, k, priority)
    && node in now && now[node].priority == priority
    && NodesOf(now, r) == InsertItem(NodesOf(was, l), Item(priority, node))
  }

  lemma PricedItems<D>(was: map<int, Node<D>>, now: map<int, Node<D>>, lists: map<int, seq<int>>, queue: int, k: nat,
                       node: int, priority: int, l: seq<int>)
    requires node in was && node !in l && InNodes(was, l) && k <= |l| && queue in lists
      && lists[queue] == l[..k] + [node] + l[k..]
    requires PrioPlace(was[node := was[node].(priority := priority)], l, k, priority)
    requires SameData(was[node := was[node].(priority := priority)], now, NULL) && NULL !in was
    ensures SameData(was, now, node) && Prioritised(was, now, l, lists[queue], k, node, priority)
  {
    SameDataTrans(was, was[node := was[node].(priority := priority)], now, node);
    forall i | 0 <= i < |l| ensures l[i] != node { assert l[i] in l; }
    InsertedItems(was, now, l, k, node, priority);
  }

  class QueueMemory<D(==)> {
    var nodes: map<int, Node<D>>
    var queues: map<int, QueueRecord>
    ghost var lists: map<int, seq<int>>     // the nodes of each queue, head to tail
    ghost var removed: map<int, nat>        // successful calls of Remove on each queue

    ghost predicate Valid()
      reads this
    {
      AllOk(nodes, queues, lists, removed)
    }

    constructor ()
      ensures Valid() && nodes == map[] && queues == map[]
    {
      nodes, queues, lists, removed := map[], map[], map[], map[];
    }

    /** kernel_queue_create_node, at the address that kmalloc delivers. */
    method CreateNode(address: int, data: D)
      requires Valid() && address != NULL && address !in nodes
      modifies this
      ensures Valid() && queues == old(queues) && lists == old(lists) && removed == old(removed)
      ensures nodes == old(nodes)[address := Node(data, 0, false, NULL, NULL)]
    {
      ghost var was := nodes;
      nodes := nodes[address := Node(data, 0, false, NULL, NULL)];
      forall q | q in queues ensures QueueOk(nodes, queues, lists, removed, q) {
        QueueAt(was, queues, lists, removed, q);
        LinkedElsewhere(was, nodes, queues[q], lists[q]);
      }
    }

    /** kernel_queue_delete_node: refused while the node is queued. */
    method DeleteNode(address: int) returns (err: Error)
      requires Valid() && (address != NULL ==> address in nodes)
      modifies this
      ensures Valid() && queues == old(queues) && lists == old(lists) && removed == old(removed)
      ensures address == NULL ==> err == NullPointer && nodes == old(nodes)
      ensures address != NULL && old(nodes)[address].enlisted ==> err == UnauthorizedAction && nodes == old(nodes)
      ensures address != NULL && !old(nodes)[address].enlisted ==> err == NoErr && nodes == old(nodes) - {address}
    {
      if address == NULL {
        return NullPointer;
      }
      if nodes[address].enlisted {
        return UnauthorizedAction;
      }
      ghost var was := nodes;
      NotQueued(nodes, queues, lists, removed, address);
      nodes := nodes - {address};
      forall q | q in queues ensures QueueOk(nodes, queues, lists, removed, q) {
        QueueAt(was, queues, lists, removed, q);
        forall i | 0 <= i < |lists[q]| ensures lists[q][i] in nodes { assert lists[q][i] in lists[q]; }
        LinkedElsewhere(was, nodes, queues[q], lists[q]);
      }
      return NoErr;
    }

    /** kernel_queue_create_queue, at the address that kmalloc delivers. */
    method CreateQueue(address: int)
      requires Valid() && address != NULL && address !in queues
      modifies this
      ensures Valid() && nodes == old(nodes) && queues == old(queues)[address := QueueRecord(NULL, NULL, 0)]
      ensures lists == old(lists)[address := []] && removed == old(removed)[address := 0]
    {
      ghost var queues0, lists0, removed0 := queues, lists, removed;
      queues := queues[address := QueueRecord(NULL, NULL, 0)];
      lists, removed := lists[address := []], removed[address := 0];
      forall q | q in queues ensures QueueOk(nodes, queues, lists, removed, q) {
        if q != address { assert QueueOk(nodes, queues0, lists0, removed0, q); }
      }
      forall p, q | p in lists && q in lists && p != q ensures Apart(lists, p, q) {
        if p != address && q != address { assert Apart(lists0, p, q); }
      }
    }

    // The code that links a node in front of the head.
    method LinkHead(queue: int, node: int)
      requires Valid() && queue in queues && InNodes(nodes, lists[queue]) && node != NULL && node in nodes
      modifies this`nodes, this`queues
      ensures nodes == LinkedIn(old(nodes), lists[queue], 0, node)
      ensures queues == old(queues)[queue := EndsIn(old(queues)[queue], lists[queue], 0, node)]
    {
      QueueAt(nodes, queues, lists, removed, queue);
      assert lists[queue] != [] ==> At(nodes, lists[queue], 0);
      if queues[queue].head == NULL {
        queues := queues[queue := queues[queue].(head := node, tail := node)];
        nodes := nodes[node := nodes[node].(next := NULL, prev := NULL)];
      } else {
        var head := queues[queue].head;
        nodes := nodes[node := nodes[node].(next := head, prev := NULL)];
        nodes := nodes[head := nodes[head].(prev := node)];
        queues := queues[queue := queues[queue].(head := node)];
      }
      queues := queues[queue := queues[queue].(size := (queues[queue].size + 1) % W32)];
      nodes := nodes[node := nodes[node].(enlisted := true)];
    }

    /** kernel_queue_push: the node becomes the head, and the next == prev panic is unreachable. For a node that is
        queued already the links are those of no queues any more, and the panic is met when it is the head. */
    method Push(node: int, queue: int) returns (err: Error)
      requires Valid() && (queue != NULL ==> queue in queues) && (node != NULL ==> node in nodes)
      modifies this
      ensures node == NULL || queue == NULL ==>
        err == NullPointer && Valid() && queues == old(queues) && lists == old(lists)
      ensures node == NULL || queue == NULL ==> nodes == old(nodes) && removed == old(removed)
      ensures node != NULL && queue != NULL && !old(nodes)[node].enlisted ==>
        && Valid() && err == NoErr && queues.Keys == old(queues).Keys && removed == old(removed)
        && SameData(old(nodes), nodes, NULL) && lists == old(lists)[queue := [node] + old(lists)[queue]]
        && forall n :: n in nodes ==> nodes[n].enlisted == (n == node || old(nodes)[n].enlisted)
      ensures node != NULL && queue != NULL && InSome(old(lists), node) ==>
        !AreQueues(nodes, queues) && (err == Panic <==> old(lists)[queue] != [] && old(lists)[queue][0] == node)
    {
      if node == NULL || queue == NULL {
        return NullPointer;
      }
      ghost var was, l := nodes, lists[queue];
      QueueAt(nodes, queues, lists, removed, queue);
      LinkingKeepsQueuesIff(nodes, queues, lists, removed, queue, 0, node);
      if !nodes[node].enlisted {
        NotQueued(nodes, queues, lists, removed, node);
        InsertChanges(nodes, queues, lists, removed, queue, 0, node);
        LinkedInData(nodes, l, 0, node);
      }
      LinkHead(queue, node);
      if !was[node].enlisted {
        assert l[..0] + [node] + l[0..] == [node] + l;
        lists := lists[queue := [node] + l];
        EndsDiffer(node, queue, 0);
      }
      err := CheckEnds(node);
    }

    // A node between two others has two different neighbours.
    lemma EndsDiffer(node: int, queue: int, k: nat)
      requires Valid() && queue in queues && k < |lists[queue]| && lists[queue][k] == node && node in nodes
      ensures nodes[node].next != NULL && nodes[node].prev != NULL ==> nodes[node].next != nodes[node].prev
    {
      QueueAt(nodes, queues, lists, removed, queue);
      assert At(nodes, lists[queue], k);
      assert 0 < k < |lists[queue]| - 1 ==> Differ(lists[queue], k - 1, k + 1);
    }

    // The final check of both pushes.
    method CheckEnds(node: int) returns (err: Error)
      requires node in nodes
      ensures err == if nodes[node].next != NULL && nodes[node].prev != NULL && nodes[node].next == nodes[node].prev
        then Panic else NoErr
    {
      var next, prev := nodes[node].next, nodes[node].prev;
      if next != NULL && prev != NULL && next == prev {
        return Panic;
      }
      return NoErr;
    }

    // Where a priority push links its node: the cursor is the first node whose priority does not exceed the given one.
    method PrioCursor(queue: int, priority: int) returns (cursor: int, ghost k: nat)
      requires Valid() && queue in queues && InNodes(nodes, lists[queue])
      ensures k <= |lists[queue]| && cursor == if k < |lists[queue]| then lists[queue][k] else NULL
      ensures forall i :: 0 <= i < k ==> nodes[lists[queue][i]].priority > priority
      ensures k < |lists[queue]| ==> nodes[lists[queue][k]].priority <= priority
    {
      ghost var l := lists[queue];
      QueueAt(nodes, queues, lists, removed, queue);
      cursor, k := queues[queue].head, 0;
      while cursor != NULL && nodes[cursor].priority > priority
        invariant 0 <= k <= |l|
        invariant cursor == if k < |l| then l[k] else NULL
        invariant forall i :: 0 <= i < k ==> nodes[l[i]].priority > priority
        decreases |l| - k
      {
        assert At(nodes, l, k);
        cursor := nodes[cursor].next;
        k := k + 1;
      }
      assert k < |l| ==> At(nodes, l, k);
    }

    // The code that links a node in front of the cursor, and behind the tail.
    method LinkBefore(queue: int, node: int, cursor: int, ghost k: nat)
      requires Valid() && queue in queues && InNodes(nodes, lists[queue]) && node in nodes
      requires k < |lists[queue]| && cursor == lists[queue][k]
      modifies this`nodes, this`queues
      ensures nodes == LinkedIn(old(nodes), lists[queue], k, node)
      ensures queues == old(queues)[queue := EndsIn(old(queues)[queue], lists[queue], k, node)]
    {
      ghost var l := lists[queue];
      QueueAt(nodes, queues, lists, removed, queue);
      assert At(nodes, l, k);
      if k > 0 { assert At(nodes, l, k - 1) && Differ(l, k - 1, k); }
      var before := nodes[cursor].prev;
      ghost var was := nodes;
      nodes := nodes[node := nodes[node].(next := cursor, prev := before)];
      nodes := nodes[cursor := nodes[cursor].(prev := node)];
      if before != NULL {
        nodes := nodes[before := nodes[before].(next := node)];
      } else {
        queues := queues[queue := queues[queue].(head := node)];
      }
      LinkedBefore(was, l, k, node, nodes);
      CountIn(queue, node);
    }

    method LinkTail(queue: int, node: int)
      requires Valid() && queue in queues && InNodes(nodes, lists[queue]) && node in nodes
      modifies this`nodes, this`queues
      ensures nodes == LinkedIn(old(nodes), lists[queue], |lists[queue]|, node)
      ensures queues == old(queues)[queue := EndsIn(old(queues)[queue], lists[queue], |lists[queue]|, node)]
    {
      ghost var l := lists[queue];
      QueueAt(nodes, queues, lists, removed, queue);
      if l != [] { assert At(nodes, l, 0) && At(nodes, l, |l| - 1); }
      if queues[queue].head == NULL {
        queues := queues[queue := queues[queue].(head := node, tail := node)];
        nodes := nodes[node := nodes[node].(next := NULL, prev := NULL)];
      } else {
        var tail := queues[queue].tail;
        nodes := nodes[node := nodes[node].(prev := tail, next := NULL)];
        nodes := nodes[tail := nodes[tail].(next := node)];
        queues := queues[queue := queues[queue].(tail := node)];
      }
      CountIn(queue, node);
    }

    // Counts and marks a node that has just been linked.
    method CountIn(queue: int, node: int)
      requires queue in queues && node in nodes
      modifies this`nodes, this`queues
      ensures nodes == old(nodes)[node := old(nodes)[node].(enlisted := true)]
      ensures queues == old(queues)[queue := old(queues)[queue].(size := (old(queues)[queue].size + 1) % W32)]
    {
      queues := queues[queue := queues[queue].(size := (queues[queue].size + 1) % W32)];
      nodes := nodes[node := nodes[node].(enlisted := true)];
    }

    /** kernel_queue_push_prio: before the first node whose priority does not exceed the given one, and the next == prev
        panic is unreachable. For a node that is queued already the links are those of no queues any more. */
    method PushPrio(node: int, queue: int, priority: int) returns (err: Error, ghost k: nat)
      requires Valid() && (queue != NULL ==> queue in queues) && (node != NULL ==> node in nodes)
      modifies this
      ensures node == NULL || queue == NULL ==>
        err == NullPointer && Valid() && queues == old(queues) && lists == old(lists)
      ensures node == NULL || queue == NULL ==> nodes == old(nodes) && removed == old(removed)
      ensures node != NULL && queue != NULL && !old(nodes)[node].enlisted ==>
        && Valid() && err == NoErr && queues.Keys == old(queues).Keys && removed == old(removed)
        && SameData(old(nodes), nodes, node) && queue in lists && k <= |old(lists)[queue]|
        && lists == old(lists)[queue := old(lists)[queue][..k] + [node] + old(lists)[queue][k..]]
        && Prioritised(old(nodes), nodes, old(lists)[queue], lists[queue], k, node, priority)
        && forall n :: n in nodes ==> nodes[n].enlisted == (n == node || old(nodes)[n].enlisted)
      ensures node != NULL && queue != NULL && InSome(old(lists), node) ==> !AreQueues(nodes, queues)
    {
      if node == NULL || queue == NULL {
        return NullPointer, 0;
      }
      ghost var was := nodes;
      QueueAt(nodes, queues, lists, removed, queue);
      nodes := nodes[node := nodes[node].(priority := priority)];
      SameLinks(was, nodes, queues, lists, removed);
      err, k := Enlist(node, queue, priority);
      if !was[node].enlisted { PricedItems(was, nodes, lists, queue, k, node, priority, old(lists)[queue]); }
    }

    // What follows the new priority: the search of the place, the links, and the final check.
    method Enlist(node: int, queue: int, priority: int) returns (err: Error, ghost k: nat)
      requires Valid() && queue in queues && node != NULL && node in nodes
      modifies this
      ensures InNodes(old(nodes), old(lists)[queue]) && k <= |old(lists)[queue]|
        && PrioPlace(old(nodes), old(lists)[queue], k, priority)
      ensures !old(nodes)[node].enlisted ==>
        && Valid() && err == NoErr && queues.Keys == old(queues).Keys && removed == old(removed)
           && SameData(old(nodes), nodes, NULL)
        && lists == old(lists)[queue := old(lists)[queue][..k] + [node] + old(lists)[queue][k..]]
        && node !in old(lists)[queue]
        && forall n :: n in nodes ==> nodes[n].enlisted == (n == node || old(nodes)[n].enlisted)
      ensures InSome(old(lists), node) ==> !AreQueues(nodes, queues)
    {
      ghost var was, l := nodes, lists[queue];
      QueueAt(nodes, queues, lists, removed, queue);
      var cursor;
      cursor, k := PrioCursor(queue, priority);
      LinkingKeepsQueuesIff(nodes, queues, lists, removed, queue, k, node);
      if !nodes[node].enlisted {
        NotQueued(nodes, queues, lists, removed, node);
        InsertChanges(nodes, queues, lists, removed, queue, k, node);
        LinkedInData(nodes, l, k, node);
      }
      if cursor != NULL {
        LinkBefore(queue, node, cursor, k);
      } else {
        LinkTail(queue, node);
      }
      if !was[node].enlisted {
        lists := lists[queue := l[..k] + [node] + l[k..]];
        EndsDiffer(node, queue, k);
      }
      err := CheckEnds(node);
    }

    // The code that takes the tail out.
    method UnlinkTail(queue: int, node: int)
      requires Valid() && queue in queues && lists[queue] != [] && InNodes(nodes, lists[queue])
        && node == lists[queue][|lists[queue]| - 1]
      modifies this`nodes, this`queues
      ensures nodes == LinkedOut(old(nodes), lists[queue], |lists[queue]| - 1)
      ensures queues == old(queues)[queue := EndsOut(old(queues)[queue], lists[queue], |lists[queue]| - 1,
        (old(queues)[queue].size - 1) % W32)]
    {
      ghost var l := lists[queue];
      ghost var k := |l| - 1;
      QueueAt(nodes, queues, lists, removed, queue);
      assert At(nodes, l, k);
      if k > 0 { assert At(nodes, l, k - 1) && Differ(l, k - 1, k); }
      var before := nodes[node].prev;
      if before != NULL {
        nodes := nodes[before := nodes[before].(next := NULL)];
        queues := queues[queue := queues[queue].(tail := before)];
      } else {
        queues := queues[queue := queues[queue].(head := NULL, tail := NULL)];
      }
      queues := queues[queue := queues[queue].(size := (queues[queue].size - 1) % W32)];
      nodes := nodes[node := nodes[node].(next := NULL, prev := NULL, enlisted := false)];
    }

    /** kernel_queue_pop: unlinks and returns the tail, NULL when the queue is empty. */
    method Pop(queue: int) returns (node: int, err: Error)
      requires Valid() && (queue != NULL ==> queue in queues)
      modifies this
      ensures Valid() && queues.Keys == old(queues).Keys && removed == old(removed) && SameData(old(nodes), nodes, NULL)
      ensures queue == NULL ==> node == NULL && err == NullPointer
      ensures queue != NULL ==> err == NoErr && (node == NULL <==> old(lists)[queue] == [])
      ensures node == NULL ==> lists == old(lists) && nodes == old(nodes)
      ensures node != NULL ==> var l := old(lists)[queue];
        && node == l[|l| - 1] && lists == old(lists)[queue := l[..|l| - 1]]
        && node in nodes && nodes[node].next == NULL && nodes[node].prev == NULL
        && forall n :: n in nodes ==> nodes[n].enlisted == (n != node && old(nodes)[n].enlisted)
    {
      if queue == NULL {
        return NULL, NullPointer;
      }
      ghost var l := lists[queue];
      QueueAt(nodes, queues, lists, removed, queue);
      assert l != [] ==> At(nodes, l, 0) && At(nodes, l, |l| - 1);
      if queues[queue].head == NULL {
        return NULL, NoErr;
      }
      node := queues[queue].tail;
      PopTail(queue, node);
      return node, NoErr;
    }

    // The tail is taken out.
    method PopTail(queue: int, node: int)
      requires Valid() && queue in queues && lists[queue] != [] && node == lists[queue][|lists[queue]| - 1]
      modifies this
      ensures Valid() && queues.Keys == old(queues).Keys && removed == old(removed) && SameData(old(nodes), nodes, NULL)
      ensures lists == old(lists)[queue := old(lists)[queue][..|old(lists)[queue]| - 1]]
      ensures node in nodes && nodes[node].next == NULL && nodes[node].prev == NULL
      ensures forall n :: n in nodes ==> nodes[n].enlisted == (n != node && old(nodes)[n].enlisted)
    {
      ghost var l := lists[queue];
      QueueAt(nodes, queues, lists, removed, queue);
      SizeDown(|l| + removed[queue]);
      RemoveChanges(nodes, queues, lists, removed, queue, |l| - 1, (queues[queue].size - 1) % W32, removed[queue]);
      LinkedOutData(nodes, l, |l| - 1);
      UnlinkTail(queue, node);
      assert l[..|l| - 1] + l[|l|..] == l[..|l| - 1] && removed[queue := removed[queue]] == removed;
      lists := lists[queue := l[..|l| - 1]];
    }

    lemma SizeDown(n: int)
      ensures (n % W32 - 1) % W32 == (n - 1) % W32
    {
    }

    // The data carried by the first k nodes of a list.
    ghost predicate CarriedBefore(l: seq<int>, k: nat, data: D)
      requires InNodes(nodes, l) && k <= |l|
      reads this`nodes
    {
      exists i :: 0 <= i < k && nodes[l[i]].data == data
    }

    /** kernel_queue_find: the first node, from the head, that carries the data. */
    method Find(queue: int, data: D) returns (node: int, err: Error, ghost k: nat)
      requires Valid() && (queue != NULL ==> queue in queues)
      ensures queue == NULL ==> node == NULL && err == NullPointer
      ensures queue != NULL ==>
        InNodes(nodes, lists[queue]) && k <= |lists[queue]| && !CarriedBefore(lists[queue], k, data)
      ensures queue != NULL ==> (node == NULL <==> k == |lists[queue]|) && err == if node == NULL then NoSuchId
        else NoErr
      ensures node != NULL ==> queue != NULL && node == lists[queue][k] && nodes[node].data == data
    {
      if queue == NULL {
        return NULL, NullPointer, 0;
      }
      ghost var l := lists[queue];
      QueueAt(nodes, queues, lists, removed, queue);
      node, k := queues[queue].head, 0;
      while node != NULL && nodes[node].data != data
        invariant 0 <= k <= |l|
        invariant node == if k < |l| then l[k] else NULL
        invariant forall i :: 0 <= i < k ==> nodes[l[i]].data != data
        decreases |l| - k
      {
        assert At(nodes, l, k);
        node := nodes[node].next;
        k := k + 1;
      }
      assert k < |l| ==> At(nodes, l, k);
      err := if node == NULL then NoSuchId else NoErr;
    }

    // The code that takes a node out wherever it is.
    method Unlink(queue: int, cursor: int, ghost k: nat)
      requires Valid() && queue in queues && InNodes(nodes, lists[queue]) && k < |lists[queue]|
        && cursor == lists[queue][k]
      modifies this`nodes, this`queues
      ensures nodes == LinkedOut(old(nodes), lists[queue], k)
      ensures queues == old(queues)[queue := EndsOut(old(queues)[queue], lists[queue], k, old(queues)[queue].size)]
    {
      ghost var l := lists[queue];
      QueueAt(nodes, queues, lists, removed, queue);
      assert At(nodes, l, k);
      if k > 0 { assert At(nodes, l, k - 1) && Differ(l, k - 1, k); }
      if k + 1 < |l| { assert At(nodes, l, k + 1) && Differ(l, k, k + 1); }
      if 0 < k < |l| - 1 { assert Differ(l, k - 1, k + 1); }
      var prev, next := nodes[cursor].prev, nodes[cursor].next;
      if prev != NULL && next != NULL {
        nodes := nodes[prev := nodes[prev].(next := next)];
        nodes := nodes[next := nodes[next].(prev := prev)];
      } else if prev == NULL && next != NULL {
        queues := queues[queue := queues[queue].(head := next)];
        nodes := nodes[next := nodes[next].(prev := NULL)];
      } else if prev != NULL && next == NULL {
        queues := queues[queue := queues[queue].(tail := prev)];
        nodes := nodes[prev := nodes[prev].(next := NULL)];
      } else {
        queues := queues[queue := queues[queue].(head := NULL, tail := NULL)];
      }
      nodes := nodes[cursor := nodes[cursor].(next := NULL, prev := NULL, enlisted := false)];
    }

    // The search loop of Remove.
    method Locate(queue: int, node: int) returns (cursor: int, ghost k: nat)
      requires Valid() && queue in queues && node != NULL
      ensures k <= |lists[queue]| && (cursor == NULL <==> k == |lists[queue]|)
        && (cursor == NULL <==> node !in lists[queue])
      ensures cursor != NULL ==> cursor == node == lists[queue][k]
    {
      ghost var l := lists[queue];
      QueueAt(nodes, queues, lists, removed, queue);
      cursor, k := queues[queue].head, 0;
      while cursor != NULL && cursor != node
        invariant 0 <= k <= |l|
        invariant cursor == if k < |l| then l[k] else NULL
        invariant forall i :: 0 <= i < k ==> l[i] != node
        decreases |l| - k
      {
        assert At(nodes, l, k);
        cursor := nodes[cursor].next;
        k := k + 1;
      }
      assert k < |l| ==> At(nodes, l, k);
    }

    /** kernel_queue_remove: unlinks the node wherever it is. The size field is not decremented. */
    method Remove(queue: int, node: int) returns (err: Error, ghost k: nat)
      requires Valid() && (queue != NULL ==> queue in queues)
      modifies this
      ensures Valid() && queues.Keys == old(queues).Keys && SameData(old(nodes), nodes, NULL)
      ensures queue == NULL || node == NULL <==> err == NullPointer
      ensures queue != NULL && node != NULL ==>
        (err == NoErr <==> node in old(lists)[queue]) && (err == NoSuchId <==> node !in old(lists)[queue])
      ensures err != NoErr ==>
        nodes == old(nodes) && queues == old(queues) && lists == old(lists) && removed == old(removed)
      ensures err == NoErr ==> var l := old(lists)[queue];
        && k < |l| && l[k] == node && lists == old(lists)[queue := l[..k] + l[k + 1..]]
        && queues[queue].size == old(queues)[queue].size && queue in old(removed)
           && removed == old(removed)[queue := old(removed)[queue] + 1]
        && node in nodes && nodes[node].next == NULL && nodes[node].prev == NULL
        && forall n :: n in nodes ==> nodes[n].enlisted == (n != node && old(nodes)[n].enlisted)
    {
      k := 0;
      if queue == NULL || node == NULL {
        return NullPointer, 0;
      }
      ghost var l := lists[queue];
      QueueAt(nodes, queues, lists, removed, queue);
      var cursor;
      cursor, k := Locate(queue, node);
      if cursor == NULL {
        return NoSuchId, k;
      }
      RemoveAt(queue, cursor, k);
      return NoErr, k;
    }

    // The node at position k is taken out.
    method RemoveAt(queue: int, cursor: int, ghost k: nat)
      requires Valid() && queue in queues && k < |lists[queue]| && cursor == lists[queue][k]
      modifies this
      ensures Valid() && queues.Keys == old(queues).Keys && SameData(old(nodes), nodes, NULL)
      ensures lists == old(lists)[queue := old(lists)[queue][..k] + old(lists)[queue][k + 1..]]
      ensures queues[queue].size == old(queues)[queue].size && queue in old(removed)
        && removed == old(removed)[queue := old(removed)[queue] + 1]
      ensures cursor in nodes && nodes[cursor].next == NULL && nodes[cursor].prev == NULL
      ensures forall n :: n in nodes ==> nodes[n].enlisted == (n != cursor && old(nodes)[n].enlisted)
    {
      ghost var l := lists[queue];
      QueueAt(nodes, queues, lists, removed, queue);
      RemoveChanges(nodes, queues, lists, removed, queue, k, queues[queue].size, removed[queue] + 1);
      LinkedOutData(nodes, l, k);
      Unlink(queue, cursor, k);
      lists, removed := lists[queue := l[..k] + l[k + 1..]], removed[queue := removed[queue] + 1];
    }

    /** The size field tells the number of queued nodes exactly when no node was ever taken out by
        Remove (up to wrap-around of 2^32 removals). */
    lemma SizeIsLength(queue: int)
      requires Valid() && queue in queues && |lists[queue]| < W32
      ensures queue in removed && (queues[queue].size == |lists[queue]| <==> removed[queue] % W32 == 0)
    {
      QueueAt(nodes, queues, lists, removed, queue);
      var n, r := |lists[queue]|, removed[queue] % W32;
      assert (n + removed[queue]) % W32 == (n + r) % W32;
    }
  }

  lemma InsertedItems<D>(was: map<int, Node<D>>, now: map<int, Node<D>>, l: seq<int>, k: nat, node: int, priority: int)
    requires k <= |l| && InNodes(was, l) && node in now && now[node].priority == priority && SameData(was, now, node)
      && node !in l
    requires forall i :: 0 <= i < k ==> was[l[i]].priority > priority
    requires k < |l| ==> was[l[k]].priority <= priority
    ensures InNodes(now, l[..k] + [node] + l[k..])
    ensures NodesOf(now, l[..k] + [node] + l[k..]) == InsertItem(NodesOf(was, l), Item(priority, node))
  {
    var s := NodesOf(was, l);
    InsertItemAt(s, Item(priority, node), k);
    var r := l[..k] + [node] + l[k..];
    forall i | 0 <= i < |r|
      ensures r[i] in now && (r[i] == node || (r[i] in l && now[r[i]].priority == was[r[i]].priority)) {}
    assert NodesOf(now, r) == s[..k] + [Item(priority, node)] + s[k..];
  }
}
