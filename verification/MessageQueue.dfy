/**
  The bounded message queue (comm/queue.c): a ring buffer between two semaphores, used by any
  number of producers and consumers.
 */
module MessageQueue {

  import opened Basics
  import HeapModel
  import opened Semaphore

  // ----- The ring -----

  datatype Ring<V> = Ring(container: seq<V>, size: int, top: int, bot: int)

  ghost predicate RingOk<V>(r: Ring<V>) {
    var max := |r.container|;
    && 0 <= r.size <= max
    && (max == 0 ==> r.top == r.bot == 0)
    && (max > 0 ==> 0 <= r.bot < max && 0 <= r.top < max && r.top == Slot(r, r.size))
  }

  // The slot i places after the oldest element.
  function Slot<V>(r: Ring<V>, i: int): (k: int)
    requires |r.container| > 0 && 0 <= r.bot < |r.container| && 0 <= i <= |r.container|
    ensures 0 <= k < |r.container|
  {
    if r.bot + i < |r.container| then r.bot + i else r.bot + i - |r.container|
  }

  // The stored elements, oldest first.
  ghost function Contents<V>(r: Ring<V>): (s: seq<V>)
    requires RingOk(r)
    ensures |s| == r.size
    ensures forall i :: 0 <= i < r.size ==> s[i] == r.container[Slot(r, i)]
  {
    seq(r.size, i requires 0 <= i < r.size => r.container[Slot(r, i)])
  }

  function RingStore<V>(r: Ring<V>, v: V): Ring<V>
    requires |r.container| > 0 && 0 <= r.top < |r.container|
  {
    Ring(r.container[r.top := v], r.size + 1, (r.top + 1) % |r.container|, r.bot)
  }

  function RingTake<V>(r: Ring<V>): (V, Ring<V>)
    requires |r.container| > 0 && 0 <= r.bot < |r.container|
  {
    (r.container[r.bot], Ring(r.container, r.size - 1, r.top, (r.bot + 1) % |r.container|))
  }

  lemma NextIndex(i: int, max: int)
    requires 0 <= i < max
    ensures (i + 1) % max == if i + 1 == max then 0 else i + 1
  {
  }

  /** Storing appends, and overwrites no stored element, when the ring is not full. */
  lemma StoreAppends<V>(r: Ring<V>, v: V)
    requires RingOk(r) && r.size < |r.container|
    ensures RingOk(RingStore(r, v)) && Contents(RingStore(r, v)) == Contents(r) + [v]
  {
    NextIndex(r.top, |r.container|);
    var n := RingStore(r, v);
    assert Slot(r, r.size) == r.top;
    forall i | 0 <= i < n.size ensures Contents(n)[i] == (Contents(r) + [v])[i] {
      assert Slot(n, i) == Slot(r, i);
    }
  }

  /** Taking returns the oldest element when the ring is not empty. */
  lemma TakeRemoves<V>(r: Ring<V>)
    requires RingOk(r) && r.size > 0
    ensures RingOk(RingTake(r).1) && [RingTake(r).0] + Contents(RingTake(r).1) == Contents(r)
  {
    NextIndex(r.bot, |r.container|);
    var n := RingTake(r).1;
    assert Slot(r, 0) == r.bot;
    forall i | 0 <= i < n.size ensures Contents(n)[i] == Contents(r)[i + 1] {
      assert Slot(n, i) == Slot(r, i + 1);
    }
  }

  /** The fields of queue_t that the two critical sections of post and pend update. */
  class QueueObject<V(0)> {
    var container: array<V>
    var size: int
    var indexTop: int
    var indexBot: int
    const maxSize: int

    ghost predicate Valid()
      reads this, container
    {
      container.Length == maxSize && RingOk(View())
    }

    ghost function View(): Ring<V>
      reads this, container
    {
      Ring(container[..], size, indexTop, indexBot)
    }

    /** queue_init */
    constructor (maxSize: nat)
      ensures Valid() && fresh(container) && this.maxSize == maxSize && Contents(View()) == []
    {
      container := new V[maxSize];
      size, indexTop, indexBot := 0, 0, 0;
      this.maxSize := maxSize;
    }

    /** The element-writing section of queue_post. */
    method Store(element: V)
      requires Valid() && size < maxSize
      modifies this, container
      ensures Valid() && container == old(container)
      ensures View() == RingStore(old(View()), element)
      ensures Contents(View()) == old(Contents(View())) + [element]
    {
      ghost var r := View();
      StoreAppends(r, element);
      container[indexTop] := element;
      indexTop := (indexTop + 1) % maxSize;
      size := size + 1;
      assert View() == RingStore(r, element);
    }

    /** The element-reading section of queue_pend. */
    method Take() returns (element: V)
      requires Valid() && size > 0
      modifies this
      ensures Valid() && container == old(container)
      ensures (element, View()) == RingTake(old(View()))
      ensures [element] + Contents(View()) == old(Contents(View()))
    {
      ghost var r := View();
      TakeRemoves(r);
      element := container[indexBot];
      indexBot := (indexBot + 1) % maxSize;
      size := size - 1;
      assert View() == RingTake(r).1;
    }
  }

  // ----- Producers and consumers -----

  // writers: threads that have acquired the write semaphore and not stored yet, with their element.
  // readers: threads that have acquired the read semaphore and not taken yet.
  datatype QState<V> = QState(
    ring: Ring<V>,
    read: Semaphore.State,
    write: Semaphore.State,
    outbox: map<Tid, V>,
    writers: set<Tid>,
    readers: set<Tid>,
    log: Traffic<V>)

  // Every element stored and every element received, in order.
  datatype Traffic<V> = Traffic(stored: seq<V>, received: seq<V>)

  datatype Event<V> =
    | PostBegin(t: Tid, v: V)   // queue_post up to its first test of the write semaphore
    | PostRetest(t: Tid)        // a woken producer tests again
    | PostStore(t: Tid)         // the second critical section of queue_post
    | PendBegin(t: Tid)
    | PendRetest(t: Tid)
    | PendTake(t: Tid)

  // The level of a semaphore is a signed integer, the size of a queue an unsigned one.
  function Signed(size: nat): int {
    if size <= INT32_MAX then size else size - W32
  }

  // queue_init starts with nothing to read and every slot free.
  function Start<V>(slots: seq<V>): QState<V> {
    QState(Ring(slots, 0, 0, 0), Semaphore.Start(0), Semaphore.Start(Signed(|slots|)), map[], {}, {}, Traffic([], []))
  }

  // A thread is in at most one call.
  predicate Idle<V>(s: QState<V>, t: Tid) {
    && t !in s.writers && t !in s.readers
    && t !in s.read.sem.waiters && t !in s.read.woken
    && t !in s.write.sem.waiters && t !in s.write.woken
  }

  // A thread that holds a place in the ring can always finish: SectionsInBounds shows that the two
  // index conditions are no restriction.
  predicate Enabled<V>(s: QState<V>, e: Event<V>) {
    match e
    case PostBegin(t, _) => Idle(s, t)
    case PostRetest(t) => t in s.write.woken
    case PostStore(t) => t in s.writers && t in s.outbox && 0 <= s.ring.top < |s.ring.container|
    case PendBegin(t) => Idle(s, t)
    case PendRetest(t) => t in s.read.woken
    case PendTake(t) => t in s.readers && 0 <= s.ring.bot < |s.ring.container|
  }

  // A test of the write semaphore by producer t.
  function TestWrite<V>(s: QState<V>, e: Semaphore.Event, t: Tid): QState<V> {
    var w := Semaphore.Next(s.write, e);
    s.(write := w, writers := if w.count.pends > s.write.count.pends then s.writers + {t} else s.writers)
  }

  function TestRead<V>(s: QState<V>, e: Semaphore.Event, t: Tid): QState<V> {
    var r := Semaphore.Next(s.read, e);
    s.(read := r, readers := if r.count.pends > s.read.count.pends then s.readers + {t} else s.readers)
  }

  ghost predicate Inv<V>(s: QState<V>) {
    && RingOk(s.ring) && |s.ring.container| <= INT32_MAX
    && Semaphore.Inv(s.read) && Semaphore.Inv(s.write)
    && s.read.sem.live && s.write.sem.live
    && s.read.count.initial == 0 && s.write.count.initial == |s.ring.container|
    && s.write.sem.level + |s.writers| + s.ring.size == |s.ring.container|
    && s.read.sem.level + |s.readers| == s.ring.size
    && (forall t :: t in s.writers ==> t in s.outbox && t !in s.write.woken && t !in s.write.sem.waiters)
    && (forall t :: t in s.write.woken || t in s.write.sem.waiters ==> t in s.outbox)
    && (forall t :: t in s.readers ==> t !in s.read.woken && t !in s.read.sem.waiters)
    && s.log.stored == s.log.received + Contents(s.ring)
  }

  // The two critical sections that touch the ring read and write inside it.
  lemma SectionsInBounds<V>(s: QState<V>, t: Tid)
    requires Inv(s)
    ensures t in s.writers ==>
      Enabled(s, PostStore(t)) && s.ring.size < |s.ring.container| && s.read.sem.level < INT32_MAX
    ensures t in s.readers ==> Enabled(s, PendTake(t)) && 0 < s.ring.size && s.write.sem.level < INT32_MAX
  {
    if t in s.writers {
      assert |s.writers| >= 1 by { assert s.writers == {t} + (s.writers - {t}); }
    }
    if t in s.readers {
      assert |s.readers| >= 1 by { assert s.readers == {t} + (s.readers - {t}); }
    }
  }

  function Next<V>(s: QState<V>, e: Event<V>): QState<V> {
    if !Enabled(s, e) then s
    else match e
      case PostBegin(t, v) => TestWrite(s.(outbox := s.outbox[t := v]), Semaphore.PendCall(t), t)
      case PostRetest(t) => TestWrite(s, Semaphore.Retest(t), t)
      case PostStore(t) =>
        var v := s.outbox[t];
        s.(ring := RingStore(s.ring, v), read := Semaphore.Next(s.read, Semaphore.PostCall),
           writers := s.writers - {t}, log := s.log.(stored := s.log.stored + [v]))
      case PendBegin(t) => TestRead(s, Semaphore.PendCall(t), t)
      case PendRetest(t) => TestRead(s, Semaphore.Retest(t), t)
      case PendTake(t) =>
        var (v, ring) := RingTake(s.ring);
        s.(ring := ring, write := Semaphore.Next(s.write, Semaphore.PostCall),
           readers := s.readers - {t}, log := s.log.(received := s.log.received + [v]))
  }

  // What a test does to the semaphore: it takes one level, or queues the thread.
  lemma TestEffect(s: Semaphore.State, e: Semaphore.Event, t: Tid)
    requires Semaphore.Inv(s) && s.sem.live && Semaphore.Enabled(s, e)
    requires e == Semaphore.PendCall(t) || e == Semaphore.Retest(t)
    ensures var n := Semaphore.Next(s, e);
      && Semaphore.Inv(n) && n.sem.live && n.count.initial == s.count.initial
      && (n.count.pends > s.count.pends ==>
         n.sem.level == s.sem.level - 1 && n.sem.waiters == s.sem.waiters && n.woken == s.woken - {t})
      && (n.count.pends <= s.count.pends ==>
         n.sem.level == s.sem.level && n.sem.waiters == s.sem.waiters + [t] && n.woken == s.woken - {t})
  {
    Semaphore.NextKeepsInv(s, e);
  }

  lemma PostEffect(s: Semaphore.State)
    requires Semaphore.Inv(s) && s.sem.live && s.sem.level < INT32_MAX
    ensures var n := Semaphore.Next(s, Semaphore.PostCall);
      && Semaphore.Inv(n) && n.sem.live && n.count.initial == s.count.initial && n.sem.level == s.sem.level + 1
      && (forall t :: t in n.woken || t in n.sem.waiters <==> t in s.woken || t in s.sem.waiters)
  {
    Semaphore.NextKeepsInv(s, Semaphore.PostCall);
    if s.sem.waiters != [] {
      assert s.sem.waiters == [s.sem.waiters[0]] + s.sem.waiters[1..];
    }
  }

  lemma TestWriteKeepsInv<V>(s: QState<V>, e: Semaphore.Event, t: Tid)
    requires Inv(s) && t in s.outbox && t !in s.writers
    requires e == Semaphore.PendCall(t) || e == Semaphore.Retest(t)
    requires Semaphore.Enabled(s.write, e)
    ensures Inv(TestWrite(s, e, t))
  {
    TestEffect(s.write, e, t);
    assert |s.writers + {t}| == |s.writers| + 1;
    assert t !in s.write.sem.waiters;
  }

  lemma TestReadKeepsInv<V>(s: QState<V>, e: Semaphore.Event, t: Tid)
    requires Inv(s) && t !in s.readers
    requires e == Semaphore.PendCall(t) || e == Semaphore.Retest(t)
    requires Semaphore.Enabled(s.read, e)
    ensures Inv(TestRead(s, e, t))
  {
    TestEffect(s.read, e, t);
    assert |s.readers + {t}| == |s.readers| + 1;
    assert t !in s.read.sem.waiters;
  }

  lemma StoreKeepsInv<V>(s: QState<V>, t: Tid)
    requires Inv(s) && t in s.writers
    ensures Inv(Next(s, PostStore(t)))
  {
    SectionsInBounds(s, t);
    PostEffect(s.read);
    StoreAppends(s.ring, s.outbox[t]);
    assert |s.writers - {t}| == |s.writers| - 1;
    assert s.log.received + (Contents(s.ring) + [s.outbox[t]]) == s.log.received + Contents(s.ring) + [s.outbox[t]];
  }

  lemma TakeKeepsInv<V>(s: QState<V>, t: Tid)
    requires Inv(s) && t in s.readers
    ensures Inv(Next(s, PendTake(t)))
  {
    SectionsInBounds(s, t);
    PostEffect(s.write);
    TakeRemoves(s.ring);
    var (v, ring) := RingTake(s.ring);
    assert |s.readers - {t}| == |s.readers| - 1;
    assert s.log.received + ([v] + Contents(ring)) == s.log.received + [v] + Contents(ring);
  }

  lemma NextKeepsInv<V>(s: QState<V>, e: Event<V>)
    requires Inv(s)
    ensures Inv(Next(s, e)) && |Next(s, e).ring.container| == |s.ring.container|
  {
    if Enabled(s, e) {
      match e
      case PostBegin(t, v) => TestWriteKeepsInv(s.(outbox := s.outbox[t := v]), Semaphore.PendCall(t), t);
      case PostRetest(t) => TestWriteKeepsInv(s, Semaphore.Retest(t), t);
      case PostStore(t) => StoreKeepsInv(s, t);
      case PendBegin(t) => TestReadKeepsInv(s, Semaphore.PendCall(t), t);
      case PendRetest(t) => TestReadKeepsInv(s, Semaphore.Retest(t), t);
      case PendTake(t) => TakeKeepsInv(s, t);
    }
  }

  function Exec<V>(s: QState<V>, es: seq<Event<V>>): QState<V> {
    if es == [] then s else Next(Exec(s, es[..|es| - 1]), es[|es| - 1])
  }

  /** Every run of producers and consumers on a queue whose capacity is a level of a semaphore: free slots, writers in
      flight and stored elements add up to the capacity, the read level and readers in flight add up to the stored
      elements, and the elements received followed by those in the ring are the elements stored, in order. */
  lemma {:induction false} EveryRun<V>(slots: seq<V>, es: seq<Event<V>>)
    requires |slots| <= INT32_MAX
    ensures var s := Exec(Start(slots), es);
      Inv(s) && s.log.received <= s.log.stored && |s.ring.container| == |slots|
  {
    if es == [] {
      StartInv(slots);
    } else {
      EveryRun(slots, es[..|es| - 1]);
      NextKeepsInv(Exec(Start(slots), es[..|es| - 1]), es[|es| - 1]);
    }
  }

  lemma StartInv<V>(slots: seq<V>)
    requires |slots| <= INT32_MAX
    ensures Inv(Start(slots))
  {
    Semaphore.StartInv(0);
    Semaphore.StartInv(|slots|);
    assert |Contents(Start(slots).ring)| == 0;
  }

  // ----- What each producer posts -----

  // Thread t is in queue_post: it waits for a slot, has been woken, or holds a slot.
  predicate Posting<V>(s: QState<V>, t: Tid) {
    t in s.writers || t in s.write.woken || t in s.write.sem.waiters
  }

  // The element of the call that thread t is in.
  ghost function Pending<V>(s: QState<V>, t: Tid): seq<V>
    requires Inv(s)
  {
    if Posting(s, t) then [s.outbox[t]] else []
  }

  // What a step posts by thread t, and what it stores.
  function PostedAt<V>(s: QState<V>, e: Event<V>, t: Tid): seq<V> {
    if Enabled(s, e) && e.PostBegin? && e.t == t then [e.v] else []
  }

  function StoredAt<V>(s: QState<V>, e: Event<V>): seq<V> {
    var before, after := s.log.stored, Next(s, e).log.stored;
    if |before| <= |after| then after[|before|..] else []
  }

  // The elements that thread t has posted in a run, in the order of its calls.
  function Posted<V>(s: QState<V>, es: seq<Event<V>>, t: Tid): seq<V> {
    if es == [] then []
    else Posted(s, es[..|es| - 1], t) + PostedAt(Exec(s, es[..|es| - 1]), es[|es| - 1], t)
  }

  // The elements stored in a run by the steps of thread t, or of any thread, in order.
  function StoredBy<V>(s: QState<V>, es: seq<Event<V>>, t: Option<Tid>): seq<V> {
    if es == [] then []
    else
      StoredBy(s, es[..|es| - 1], t)
        + if t in {None, Some(es[|es| - 1].t)} then StoredAt(Exec(s, es[..|es| - 1]), es[|es| - 1]) else []
  }

  // A test by producer t, which has announced its element, as thread u sees it.
  lemma TestPending<V>(s: QState<V>, e: Semaphore.Event, t: Tid, u: Tid)
    requires Inv(s) && t in s.outbox && Semaphore.Enabled(s.write, e)
    requires e == Semaphore.PendCall(t) || e == Semaphore.Retest(t)
    ensures var n := TestWrite(s, e, t); n.log == s.log && n.outbox == s.outbox
    ensures Posting(TestWrite(s, e, t), u) <==> u == t || Posting(s, u)
  {
    TestEffect(s.write, e, t);
  }

  lemma StorePending<V>(s: QState<V>, t: Tid, u: Tid)
    requires Inv(s) && t in s.writers && Enabled(s, PostStore(t))
    ensures var n := Next(s, PostStore(t));
      && n.log.stored == s.log.stored + [s.outbox[t]] && n.outbox == s.outbox
      && (Posting(n, u) <==> Posting(s, u) && u != t) && Posting(s, t)
  {
  }

  lemma TakePending<V>(s: QState<V>, t: Tid, u: Tid)
    requires Inv(s) && t in s.readers && Enabled(s, PendTake(t))
    ensures var n := Next(s, PendTake(t));
      n.log.stored == s.log.stored && n.outbox == s.outbox && (Posting(n, u) <==> Posting(s, u))
  {
    SectionsInBounds(s, t);
    PostEffect(s.write);
  }

  lemma StoredIs<V>(s: QState<V>, e: Event<V>, x: seq<V>)
    requires Next(s, e).log.stored == s.log.stored + x
    ensures StoredAt(s, e) == x
  {
  }

  // One step of any thread, as thread u sees it.
  lemma PendingStep<V>(s: QState<V>, e: Event<V>, u: Tid)
    requires Inv(s) && Inv(Next(s, e))
    ensures Next(s, e).log.stored == s.log.stored + StoredAt(s, e)
    ensures Pending(s, u) + PostedAt(s, e, u) == (if e.t == u then StoredAt(s, e) else []) + Pending(Next(s, e), u)
  {
    StoredIs(s, e, if Enabled(s, e) && e.PostStore? then [s.outbox[e.t]] else []);
    if Enabled(s, e) {
      match e
      case PostBegin(t, v) => NextPostBegin(s, t, v, u);
      case PostRetest(t) => TestPending(s, Semaphore.Retest(t), t, u);
      case PostStore(t) => StorePending(s, t, u);
      case PendTake(t) => TakePending(s, t, u);
      case _ =>
    }
  }

  lemma NextPostBegin<V>(s: QState<V>, t: Tid, v: V, u: Tid)
    requires Inv(s) && Enabled(s, PostBegin(t, v))
    ensures var n := Next(s, PostBegin(t, v));
      && n.log == s.log && n.outbox == s.outbox[t := v]
      && (Posting(n, u) <==> u == t || Posting(s, u)) && !Posting(s, t)
  {
    var s' := s.(outbox := s.outbox[t := v]);
    assert Inv(s');
    TestPending(s', Semaphore.PendCall(t), t, u);
  }

  lemma Regroup<V>(a: seq<V>, p: seq<V>, q: seq<V>, b: seq<V>, r: seq<V>)
    requires p + q == b + r
    ensures (a + p) + q == (a + b) + r
  {
    assert (a + p) + q == a + (p + q) && (a + b) + r == a + (b + r);
  }

  /** Every element that a thread posts is stored, once and in the order of its calls, but for that of the call it is
      still in; and nothing else is stored. */
  lemma {:induction false} PostedIsStored<V>(slots: seq<V>, es: seq<Event<V>>, t: Tid)
    requires |slots| <= INT32_MAX
    ensures Inv(Exec(Start(slots), es))
    ensures Posted(Start(slots), es, t) == StoredBy(Start(slots), es, Some(t)) + Pending(Exec(Start(slots), es), t)
    ensures StoredBy(Start(slots), es, None) == Exec(Start(slots), es).log.stored
  {
    var s := Start(slots);
    EveryRun(slots, es);
    if es != [] {
      var before, e := es[..|es| - 1], es[|es| - 1];
      PostedIsStored(slots, before, t);
      var m, n := Exec(s, before), Exec(s, es);
      PendingStep(m, e, t);
      Regroup(StoredBy(s, before, Some(t)), Pending(m, t), PostedAt(m, e, t),
        if e.t == t then StoredAt(m, e) else [], Pending(n, t));
    }
  }

  /** No deadlock inside the queue: if threads are blocked and nobody is woken or between its two sections,
      then all blocked threads wait for the same side: consumers on an empty queue, or producers on a
      full one. */
  lemma BlockedMeansEmptyOrFull<V>(slots: seq<V>, es: seq<Event<V>>, s: QState<V>)
    requires |slots| <= INT32_MAX && s == Exec(Start(slots), es)
    requires s.read.woken == {} && s.write.woken == {} && s.readers == {} && s.writers == {}
    ensures s.read.sem.waiters != [] ==> s.ring.size == 0
    ensures s.write.sem.waiters != [] ==> s.ring.size == |s.ring.container|
    ensures |s.ring.container| > 0 ==> s.read.sem.waiters == [] || s.write.sem.waiters == []
  {
    EveryRun(slots, es);
  }

  // ----- The buffer -----

  // The bytes that queue_init asks for.
  function BufferBytes(size: nat): nat {
    4 * size % W32
  }

  // The bytes that kmalloc delivers for it: the rounded request, and less than a chunk more (HeapModel.MallocBlock).
  ghost predicate Delivered(size: nat, bytes: int) {
    HeapModel.Rounded(BufferBytes(size)) <= bytes < HeapModel.Rounded(BufferBytes(size)) + HeapModel.CHUNK
  }

  // In every run each store goes to a slot inside the buffer.
  ghost predicate StaysInside<V(!new)>(slots: seq<V>, bytes: int) {
    forall es, t :: StoreInside(Exec(Start(slots), es), t, bytes)
  }

  ghost predicate StoreInside<V>(s: QState<V>, t: Tid, bytes: int) {
    Enabled(s, PostStore(t)) ==> 4 * (s.ring.top + 1) <= bytes
  }

  // Thread 0 posts n times.
  function Fill<V>(v: V, n: nat): seq<Event<V>> {
    if n == 0 then [] else Fill(v, n - 1) + [PostBegin(0, v)] + [PostStore(0)]
  }

  lemma ExecSnoc<V>(s: QState<V>, es: seq<Event<V>>, e: Event<V>)
    ensures Exec(s, es + [e]) == Next(Exec(s, es), e)
  {
    assert (es + [e])[..|es|] == es;
  }

  // Nobody is in a call and n slots are taken.
  ghost predicate Filled<V>(s: QState<V>, n: nat) {
    && Inv(s) && s.ring.size == n && s.ring.bot == 0 && s.writers == {} && s.readers == {}
    && s.read.sem.waiters == [] && s.read.woken == {} && s.write.sem.waiters == [] && s.write.woken == {}
  }

  lemma PostFills<V>(s: QState<V>, n: nat, v: V)
    requires Filled(s, n) && n < |s.ring.container|
    ensures var w := Next(s, PostBegin(0, v));
      && Inv(w) && w.ring == s.ring && 0 in w.writers && Enabled(w, PostStore(0)) && w.ring.top == n
      && Filled(Next(w, PostStore(0)), n + 1) && Next(w, PostStore(0)).ring.container == s.ring.container[n := v]
  {
    NextKeepsInv(s, PostBegin(0, v));
    var w := Next(s, PostBegin(0, v));
    SectionsInBounds(w, 0);
    NextKeepsInv(w, PostStore(0));
  }

  lemma {:induction false} FillRuns<V>(slots: seq<V>, v: V, n: nat)
    requires n <= |slots| <= INT32_MAX
    ensures Filled(Exec(Start(slots), Fill(v, n)), n)
    ensures |Exec(Start(slots), Fill(v, n)).ring.container| == |slots|
  {
    if n == 0 {
      StartInv(slots);
    } else {
      FillRuns(slots, v, n - 1);
      var before := Fill(v, n - 1);
      PostFills(Exec(Start(slots), before), n - 1, v);
      ExecSnoc(Start(slots), before, PostBegin(0, v));
      ExecSnoc(Start(slots), before + [PostBegin(0, v)], PostStore(0));
    }
  }

  // From 2^30 slots on, the wrapped buffer ends in front of some slot, and a run of posts alone reaches it.
  lemma StoreBeyond<V>(slots: seq<V>, v: V, bytes: int)
    requires 0x4000_0000 <= |slots| <= INT32_MAX && Delivered(|slots|, bytes)
    ensures 0 <= bytes / 4 < |slots|
    ensures var s := Exec(Start(slots), Fill(v, bytes / 4) + [PostBegin(0, v)]);
      Enabled(s, PostStore(0)) && s.ring.top == bytes / 4 && !StoreInside(s, 0, bytes)
  {
    var n := bytes / 4;
    assert BufferBytes(|slots|) == 4 * |slots| - W32;
    ShortBuffer(|slots|, bytes);
    FillRuns(slots, v, n);
    PostFills(Exec(Start(slots), Fill(v, n)), n, v);
    ExecSnoc(Start(slots), Fill(v, n), PostBegin(0, v));
  }

  lemma ShortBuffer(size: nat, bytes: int)
    requires 0x4000_0000 <= size <= INT32_MAX && Delivered(size, bytes)
    ensures 0 <= bytes < 4 * size
  {
    var r := BufferBytes(size);
    assert r == 4 * size - W32 && r % 4 == 0;
    assert HeapModel.Rounded(r) == if r < HeapModel.MIN_SIZE then HeapModel.MIN_SIZE else r;
  }

  /** With a buffer that kmalloc delivers, a queue stores inside it in every run exactly when the queue has fewer than
      2^30 slots: from there on the size in bytes wraps. */
  lemma InsideIff<V(!new)>(slots: seq<V>, bytes: int)
    requires |slots| <= INT32_MAX && Delivered(|slots|, bytes)
    ensures StaysInside(slots, bytes) <==> |slots| < 0x4000_0000
  {
    if |slots| < 0x4000_0000 {
      forall es, t ensures StoreInside(Exec(Start(slots), es), t, bytes) { StoresFit(slots, es, t, bytes); }
    } else {
      StoreBeyond(slots, slots[0], bytes);
    }
  }

  lemma StoresFit<V>(slots: seq<V>, es: seq<Event<V>>, t: Tid, bytes: int)
    requires |slots| < 0x4000_0000 && Delivered(|slots|, bytes)
    ensures StoreInside(Exec(Start(slots), es), t, bytes)
  {
    EveryRun(slots, es);
    RingFits(Exec(Start(slots), es), t, bytes);
  }

  lemma RingFits<V>(s: QState<V>, t: Tid, bytes: int)
    requires Inv(s) && |s.ring.container| < 0x4000_0000 && Delivered(|s.ring.container|, bytes)
    ensures StoreInside(s, t, bytes)
  {
    assert BufferBytes(|s.ring.container|) == 4 * |s.ring.container|;
  }

  // Nobody is past a test.
  ghost predicate Shut<V>(s: QState<V>) {
    && s.writers == {} && s.readers == {} && s.read.woken == {} && s.write.woken == {}
    && s.write.sem.level < 0 && s.read.sem.level == 0 && s.read.sem.live && s.write.sem.live
    && s.log == Traffic([], [])
  }

  /** From 2^31 slots on the write level is negative: no run ever stores or receives an element. */
  lemma {:induction false} HugeQueueIsShut<V>(slots: seq<V>, es: seq<Event<V>>)
    requires INT32_MAX < |slots| < W32
    ensures Shut(Exec(Start(slots), es))
  {
    if es != [] {
      HugeQueueIsShut(slots, es[..|es| - 1]);
    }
  }
}
