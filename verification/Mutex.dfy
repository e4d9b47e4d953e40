/**
  Mutexes with optional recursion and priority elevation (sync/mutex.c), used by any number of
  threads. Each critical section is one atomic step; a woken thread tests the state again.
 */
module Mutex {

  import opened Basics
  import opened KernelQueue
  import opened WaitQueue

  type Tid = int
  type Mid = int

  const LOWEST_PRIORITY: int := 63
  const ELEVATION_NONE: int := 0xFFFF

  // The fields of mutex_t. The flags word is read as its two parts.
  datatype Mutex = Mutex(state: int, waiters: seq<Tid>, owner: Owner, flags: Flags)
  datatype Owner = Owner(lockerTid: Tid, savedPriority: int)
  datatype Flags = Flags(recursive: bool, priority: int)

  predicate Elevates(m: Mutex) {
    m.flags.priority != ELEVATION_NONE
  }

  // The priority given to the holder: the stored priority is shifted right once more than it was shifted left.
  function ElevatedPriority(m: Mutex): int {
    m.flags.priority / 256
  }

  // The priority given to the holder is one that sched_set_priority accepts; otherwise the first pend panics.
  predicate Sane(m: Mutex) {
    !Elevates(m) || ElevatedPriority(m) <= LOWEST_PRIORITY
  }

  // ----- The flags word -----

  function Or(a: nat, b: nat, bits: nat): (c: nat) {
    if bits == 0 then 0 else (if a % 2 == 1 || b % 2 == 1 then 1 else 0) + 2 * Or(a / 2, b / 2, bits - 1)
  }

  // The recursive bit, and the priority as it is read back.
  function FlagsOf(word: nat): Flags {
    Flags(word % 2 == 1, word / 256 % 0x1_0000)
  }

  function Shr(a: nat, k: nat): nat {
    if k == 0 then a else Shr(a / 2, k - 1)
  }

  lemma {:induction false} OrZero(b: nat, bits: nat)
    requires Shr(b, bits) == 0
    ensures Or(0, b, bits) == Or(b, 0, bits) == b
  {
    if bits > 0 { OrZero(b / 2, bits - 1); }
  }

  // The bits of a disjunction from position k on.
  lemma {:induction false} OrAbove(a: nat, b: nat, n: nat, k: nat)
    ensures Shr(Or(a, b, n + k), k) == Or(Shr(a, k), Shr(b, k), n)
    decreases k
  {
    if k > 0 {
      OrAbove(a / 2, b / 2, n, k - 1);
      assert Or(a, b, n + k) / 2 == Or(a / 2, b / 2, n + k - 1);
    }
  }

  /** Each bit of a disjunction is set exactly when it is set in one of the two words. */
  lemma {:induction false} OrBit(a: nat, b: nat, bits: nat, k: nat)
    ensures Shr(Or(a, b, bits), k) % 2 == 1 <==> k < bits && (Shr(a, k) % 2 == 1 || Shr(b, k) % 2 == 1)
  {
    if bits == 0 {
      ShrZero(k);
    } else if k > 0 {
      OrBit(a / 2, b / 2, bits - 1, k - 1);
      assert Or(a, b, bits) / 2 == Or(a / 2, b / 2, bits - 1);
    }
  }

  lemma {:induction false} ShrZero(k: nat)
    ensures Shr(0, k) == 0
  {
    if k > 0 { ShrZero(k - 1); }
  }

  lemma {:induction false} ShrTwice(a: nat, j: nat, k: nat)
    ensures Shr(a, j + k) == Shr(Shr(a, j), k)
    decreases j
  {
    if j > 0 { ShrTwice(a / 2, j - 1, k); }
  }

  lemma ShrFour(a: nat)
    ensures Shr(a, 4) == a / 16
  {
    assert Shr(a, 4) == Shr(a / 2, 3) == Shr(a / 2 / 2, 2) == Shr(a / 2 / 2 / 2, 1) == a / 2 / 2 / 2 / 2;
  }

  lemma ShrBytes(a: nat)
    ensures Shr(a, 8) == a / 256 && Shr(a, 16) == a / 0x1_0000
  {
    ShrTwice(a, 4, 4);
    ShrFour(a);
    ShrFour(a / 16);
    ShrTwice(a, 8, 8);
    ShrTwice(a / 256, 4, 4);
    ShrFour(a / 256);
    ShrFour(a / 256 / 16);
  }

  lemma PriorityAlone(priority: nat)
    requires priority <= LOWEST_PRIORITY
    ensures Or(0, priority, 24) == priority
  {
    ShrTwice(priority, 8, 16);
    ShrBytes(priority);
    ShrBytes(0);
    OrZero(priority, 24);
  }

  lemma UpperHalf(a: nat)
    requires a < 0x1_0000
    ensures Or(a, 0, 16) == a
  {
    ShrBytes(a);
    OrZero(a, 16);
  }

  // The word without its lowest byte, and without its lowest two.
  lemma WordAbove(flags: nat, priority: nat, n: nat)
    requires n >= 8
    ensures Or(flags, priority * 256, n) / 256 == Or(flags / 256, priority, n - 8)
  {
    var b := priority * 256;
    ShrBytes(flags);
    ShrBytes(b);
    ShrBytes(Or(flags, b, n));
    OrAbove(flags, b, n - 8, 8);
    DivUnique(b, 256, priority, 0);
  }

  lemma WordAboveTwo(flags: nat, b: nat, n: nat)
    requires n >= 16 && b < 0x1_0000
    ensures Or(flags, b, n) / 0x1_0000 == Or(flags / 0x1_0000, 0, n - 16)
  {
    ShrBytes(flags);
    ShrBytes(b);
    ShrBytes(Or(flags, b, n));
    OrAbove(flags, b, n - 16, 16);
  }

  lemma ReadBack(word: nat)
    ensures word / 256 % 0x1_0000 / 256 == word / 0x1_0000 % 256
  {
    var a := word / 256;
    var b := a / 256;
    var hi, mid, low := b / 256, b % 256, a % 256;
    DivUnique(word, 0x1_0000, b, 256 * low + word % 256);
    DivUnique(a, 0x1_0000, hi, 256 * mid + low);
    DivUnique(256 * mid + low, 256, mid, low);
  }

  lemma LowBit(a: nat, b: nat, n: nat)
    requires n > 0 && b % 2 == 0
    ensures Or(a, b, n) % 2 == a % 2
  {
  }

  lemma PlainFlags(flags: nat, priority: nat)
    requires flags < 256 && priority <= LOWEST_PRIORITY
    ensures Or(flags, priority * 256, 32) / 256 == priority
  {
    WordAbove(flags, priority, 32);
    assert flags / 256 == 0;
    PriorityAlone(priority);
  }

  lemma UpperFlags(flags: nat, priority: nat)
    requires flags < W32 && priority <= LOWEST_PRIORITY
    ensures Or(flags, priority * 256, 32) / 0x1_0000 == flags / 0x1_0000
  {
    WordAboveTwo(flags, priority * 256, 32);
    UpperHalf(flags / 0x1_0000);
  }

  /** mutex_init keeps the priority it is given when the flags leave bits 8 and up alone; the priority that a holder
      gets comes from bits 16 to 23 of the flags, so it is zero unless one of them is set, and a first pend panics
      exactly when they hold more than the lowest priority. */
  lemma StoredFlags(flags: nat, priority: nat, word: nat)
    requires flags < W32 && priority <= LOWEST_PRIORITY && word == Or(flags, priority * 256, 32)
    ensures FlagsOf(word).recursive == (flags % 2 == 1)
    ensures flags < 256 ==> FlagsOf(word).priority == priority
    ensures FlagsOf(word).priority / 256 == flags / 0x1_0000 % 256
  {
    if flags < 256 { PlainFlags(flags, priority); }
    UpperFlags(flags, priority);
    ReadBack(word);
    LowBit(flags, priority * 256, 32);
  }

  datatype Result = Acquired | Blocked | MutexLocked | ForbiddenPriority | Released

  // One test of the state by mutex_pend: the mutex, the caller's priority and the answer.
  function PendTest(m: Mutex, t: Tid, priority: int): (Mutex, int, Result) {
    if m.state != 1 && !(m.flags.recursive && t == m.owner.lockerTid) then
      (m.(waiters := m.waiters + [t]), priority, Blocked)
    else if Elevates(m) then
      (m.(state := 0, owner := Owner(t, priority)), ElevatedPriority(m), Acquired)
    else
      (m.(state := 0, owner := m.owner.(lockerTid := t)), priority, Acquired)
  }

  // mutex_post: the mutex, the caller's priority and the thread that is woken.
  function Post(m: Mutex, priority: int): (Mutex, int, Option<Tid>) {
    var freed := m.(state := 1,
                    owner := if Elevates(m) then m.owner.(savedPriority := LOWEST_PRIORITY) else m.owner,
                    waiters := if m.waiters == [] then [] else m.waiters[1..]);
    (freed, if Elevates(m) then m.owner.savedPriority else priority,
     if m.waiters == [] then None else Some(m.waiters[0]))
  }

  function TryPend(m: Mutex): (Mutex, Result) {
    if m.state != 1 then (m, MutexLocked) else (m.(state := 0), Acquired)
  }

  /** A try-pend takes a mutex exactly when it is free, as a pend does then, but leaves the owner and the saved priority
      of the last pend in place and does not elevate the caller. */
  lemma TryPendIsHalfAPend(m: Mutex, t: Tid, priority: int)
    requires m.state == 0 || m.state == 1
    ensures TryPend(m).1 == Acquired <==> m.state == 1
    ensures TryPend(m).1 == Acquired ==> PendTest(m, t, priority).2 == Acquired
    ensures TryPend(m).1 == Acquired ==>
      (TryPend(m).0 == PendTest(m, t, priority).0 <==>
        m.owner.lockerTid == t && (Elevates(m) ==> m.owner.savedPriority == priority))
    ensures TryPend(m).1 != Acquired ==> TryPend(m).0 == m
  {
  }

  // ----- The object -----

  // The wait queue is one of the queues in the kernel's memory.
  class MutexObject {
    var state: int
    var flags: nat
    var acquiredThreadPriority: int
    var lockerTid: Tid
    const memory: QueueMemory<Tid>
    var waitingThreads: int

    ghost predicate Valid()
      reads this, memory
    {
      memory.Valid() && waitingThreads != NULL && waitingThreads in memory.queues
    }

    // The flags word in its two parts, and the waiters in the order in which the linked queue is popped.
    ghost function View(): Mutex
      requires Valid()
      reads this, memory
    {
      Mutex(state, Order(memory, waitingThreads), Owner(lockerTid, acquiredThreadPriority), FlagsOf(flags))
    }

    constructor (memory: QueueMemory<Tid>)
      ensures this.memory == memory
    {
      this.memory := memory;
      state, flags, acquiredThreadPriority, lockerTid, waitingThreads := 0, 0, 0, 0, NULL;
    }

    /** mutex_init, with the queue that kernel_queue_create_queue delivers. */
    method Init(flags: nat, priority: nat, queue: int) returns (r: Result)
      requires flags < W32 && priority <= 0xFFFF && memory.Valid() && queue != NULL && queue !in memory.queues
      modifies this, memory
      ensures r == ForbiddenPriority <==> priority > LOWEST_PRIORITY && priority != ELEVATION_NONE
      ensures r == ForbiddenPriority ==> unchanged(this) && unchanged(memory)
      ensures r != ForbiddenPriority ==> waitingThreads == queue
      ensures r != ForbiddenPriority ==>
        memory.nodes == old(memory.nodes) && memory.lists == old(memory.lists)[queue := []]
      ensures r != ForbiddenPriority ==>
        Valid() && View() == Mutex(1, [], Owner(0, 0), FlagsOf(Or(flags, priority * 256, 32)))
    {
      if priority > LOWEST_PRIORITY && priority != ELEVATION_NONE {
        return ForbiddenPriority;
      }
      state, lockerTid, acquiredThreadPriority := 1, 0, 0;
      this.flags := Or(flags, priority * 256, 32);
      memory.CreateQueue(queue);
      waitingThreads := queue;
      return Released;
    }

    // The condition of the loop of mutex_pend, with the way out for the owner of a recursive mutex.
    predicate MustWait(t: Tid)
      reads this
    {
      state != 1 && !(flags % 2 == 1 && t == lockerTid)
    }

    predicate Elevating()
      reads this
    {
      flags / 256 % 0x1_0000 != ELEVATION_NONE
    }

    /** One pass of the loop of mutex_pend by the thread of the node, and what follows it when the loop is left. */
    method TestState(node: int, current: int) returns (next: int, r: Result)
      requires Valid() && node != NULL && node in memory.nodes && !memory.nodes[node].enlisted
      modifies this, memory
      ensures Valid() && waitingThreads == old(waitingThreads) && flags == old(flags)
        && OnlyQueue(memory, waitingThreads)
      ensures (View(), next, r) == PendTest(old(View()), old(memory.nodes)[node].data, current)
      ensures if old(MustWait(memory.nodes[node].data)) then Entered(memory, waitingThreads, node)
        else Untouched(memory)
    {
      next := current;
      var t := memory.nodes[node].data;
      if MustWait(t) {
        Enqueue(memory, waitingThreads, node);
        return next, Blocked;
      }
      state := 0;
      lockerTid := t;
      var prio := flags / 256 % 0x1_0000;
      if prio != ELEVATION_NONE {
        acquiredThreadPriority := current;
        next := prio / 256;
      }
      return next, Acquired;
    }

    /** mutex_post */
    method PostOne(current: int) returns (next: int, node: int)
      requires Valid()
      modifies this, memory
      ensures Valid() && waitingThreads == old(waitingThreads) && OnlyQueue(memory, waitingThreads)
      ensures node != NULL ==> node in memory.nodes && !memory.nodes[node].enlisted
      ensures (View(), next, if node == NULL then None else Some(memory.nodes[node].data)) == Post(old(View()), current)
      ensures if node == NULL then Untouched(memory) else Left(memory, waitingThreads, node)
    {
      state := 1;
      next := current;
      if Elevating() {
        next := acquiredThreadPriority;
        acquiredThreadPriority := LOWEST_PRIORITY;
      }
      ghost var w := Order(memory, waitingThreads);
      node := Dequeue(memory, waitingThreads);
      if node != NULL {
        assert w[0] == memory.nodes[node].data && w[1..] == Order(memory, waitingThreads);
      } else {
        assert w == [] && Order(memory, waitingThreads) == [];
      }
    }

    /** mutex_try_pend: sets neither the owner nor the saved priority. */
    method TryOnce() returns (r: Result)
      requires Valid()
      modifies this
      ensures Valid() && (View(), r) == TryPend(old(View()))
    {
      if state != 1 {
        return MutexLocked;
      }
      state := 0;
      return Acquired;
    }
  }

  // ----- Any number of threads and mutexes -----

  // One acquisition that has not been posted: who, what, the priority just before, and how.
  datatype Hold = Hold(t: Tid, m: Mid, before: int, tried: bool)

  // holds: the open acquisitions, oldest first. woken: threads popped from a mutex and not yet re-tested.
  datatype System = System(mutexes: map<Mid, Mutex>, priority: map<Tid, int>, holds: seq<Hold>, woken: set<(Tid, Mid)>)

  datatype Event = PendCall(t: Tid, m: Mid) | Retest(t: Tid, m: Mid) | PostCall(t: Tid, m: Mid) |
    TryPendCall(t: Tid, m: Mid)

  predicate Enabled(s: System, e: Event) {
    && e.m in s.mutexes && e.t in s.priority && Sane(s.mutexes[e.m])
    && (e.Retest? ==> (e.t, e.m) in s.woken)
  }

  // The acquisitions left when t gives back its newest one of m.
  function Drop(holds: seq<Hold>, t: Tid, m: Mid): (r: seq<Hold>)
    ensures |holds| - 1 <= |r| <= |holds|
  {
    if holds == [] then []
    else
      var h, rest := holds[|holds| - 1], holds[..|holds| - 1];
      if h.t == t && h.m == m then rest else Drop(rest, t, m) + [h]
  }

  function TestStep(s: System, t: Tid, m: Mid): System
    requires m in s.mutexes && t in s.priority
  {
    var (mu, p, r) := PendTest(s.mutexes[m], t, s.priority[t]);
    System(s.mutexes[m := mu], s.priority[t := p],
           if r == Acquired then s.holds + [Hold(t, m, s.priority[t], false)] else s.holds, s.woken)
  }

  function Next(s: System, e: Event): System {
    if !Enabled(s, e) then s
    else match e
      case PendCall(t, m) => TestStep(s, t, m)
      case Retest(t, m) => TestStep(s.(woken := s.woken - {(t, m)}), t, m)
      case PostCall(t, m) =>
        var (mu, p, w) := Post(s.mutexes[m], s.priority[t]);
        System(s.mutexes[m := mu], s.priority[t := p], Drop(s.holds, t, m),
               if w.Some? then s.woken + {(w.value, m)} else s.woken)
      case TryPendCall(t, m) =>
        var (mu, r) := TryPend(s.mutexes[m]);
        System(s.mutexes[m := mu], s.priority,
               if r == Acquired then s.holds + [Hold(t, m, s.priority[t], true)] else s.holds, s.woken)
  }

  function Exec(s: System, es: seq<Event>): System {
    if es == [] then s else Next(Exec(s, es[..|es| - 1]), es[|es| - 1])
  }

  // ----- The open acquisitions of one mutex, and of one thread, oldest first -----

  function OfMutex(holds: seq<Hold>, m: Mid): (r: seq<Hold>)
    ensures forall i :: 0 <= i < |r| ==> r[i].m == m
  {
    if holds == [] then []
    else
      var h, rest := holds[|holds| - 1], holds[..|holds| - 1];
      if h.m == m then OfMutex(rest, m) + [h] else OfMutex(rest, m)
  }

  function OfThread(holds: seq<Hold>, t: Tid): (r: seq<Hold>)
    ensures forall i :: 0 <= i < |r| ==> r[i].t == t
  {
    if holds == [] then []
    else
      var h, rest := holds[|holds| - 1], holds[..|holds| - 1];
      if h.t == t then OfThread(rest, t) + [h] else OfThread(rest, t)
  }

  lemma HoldsSnoc(holds: seq<Hold>, h: Hold, m: Mid, t: Tid)
    ensures OfMutex(holds + [h], m) == if h.m == m then OfMutex(holds, m) + [h] else OfMutex(holds, m)
    ensures OfThread(holds + [h], t) == if h.t == t then OfThread(holds, t) + [h] else OfThread(holds, t)
  {
    assert (holds + [h])[..|holds|] == holds;
  }

  lemma DropSnoc(hs: seq<Hold>, h: Hold, t: Tid, m: Mid)
    ensures Drop(hs + [h], t, m) == if h.t == t && h.m == m then hs else Drop(hs, t, m) + [h]
  {
    assert (hs + [h])[..|hs|] == hs;
  }

  lemma {:induction false} OfMutexDrop(holds: seq<Hold>, t: Tid, m: Mid, m': Mid)
    ensures OfMutex(Drop(holds, t, m), m') ==
      if m' == m then Drop(OfMutex(holds, m), t, m) else OfMutex(holds, m')
  {
    if holds != [] {
      var h, rest := holds[|holds| - 1], holds[..|holds| - 1];
      OfMutexDrop(rest, t, m, m');
      HoldsSnoc(Drop(rest, t, m), h, m', t);
      DropSnoc(OfMutex(rest, m), h, t, m);
    }
  }

  lemma {:induction false} OfThreadDrop(holds: seq<Hold>, t: Tid, m: Mid, t': Tid)
    ensures OfThread(Drop(holds, t, m), t') ==
      if t' == t then Drop(OfThread(holds, t), t, m) else OfThread(holds, t')
  {
    if holds != [] {
      var h, rest := holds[|holds| - 1], holds[..|holds| - 1];
      OfThreadDrop(rest, t, m, t');
      HoldsSnoc(Drop(rest, t, m), h, m, t');
      DropSnoc(OfThread(rest, t), h, t, m);
    }
  }

  // ----- Mutual exclusion -----

  // Mutual exclusion itself: the open acquisitions of each mutex are all by one thread.
  ghost predicate ByOne(on: seq<Hold>) {
    forall i :: 0 <= i < |on| ==> on[i].t == on[0].t
  }

  ghost predicate OneHolder(s: System) {
    forall m :: m in s.mutexes ==> ByOne(OfMutex(s.holds, m))
  }

  // What goes with it: a mutex that nobody holds is free, and one that is held is locked unless there is no other
  // thread; a free mutex that is waited for has a woken thread on its way; and no thread but the holder is recorded as
  // the locker of a held recursive mutex.
  ghost predicate MutexOk(mu: Mutex, on: seq<Hold>, someWoken: bool, threads: set<Tid>) {
    && ByOne(on)
    && (on == [] ==> mu.state == 1)
    && (mu.state == 1 && on != [] ==> Alone(threads, on[0].t))
    && (mu.state == 1 && mu.waiters != [] ==> someWoken)
    && (mu.flags.recursive && on != [] && mu.owner.lockerTid in threads ==> on[0].t == mu.owner.lockerTid)
  }

  ghost predicate Alone(threads: set<Tid>, t: Tid) {
    forall u :: u in threads ==> u == t
  }

  ghost predicate SomeWoken(s: System, m: Mid) {
    exists t :: (t, m) in s.woken
  }

  ghost predicate Exclusive(s: System) {
    forall m :: m in s.mutexes ==> MutexOk(s.mutexes[m], OfMutex(s.holds, m), SomeWoken(s, m), s.priority.Keys)
  }

  // What a caller must observe: a post comes from the only open acquisition, or finds none, or there is no thread but
  // the holder; and a try-pend that would succeed is not used on a recursive mutex last locked by another thread.
  ghost predicate Disciplined(s: System, e: Event) {
    Enabled(s, e) ==>
      match e
      case PendCall(_, _) => true
      case Retest(_, _) => true
      case PostCall(t, m) =>
        var on := OfMutex(s.holds, m);
        on == [] || (|on| == 1 && on[0].t == t) || Alone(s.priority.Keys, on[0].t)
      case TryPendCall(t, m) =>
        var mu := s.mutexes[m];
        mu.state == 1 && mu.flags.recursive && mu.owner.lockerTid in s.priority ==> mu.owner.lockerTid == t
  }

  // A step on m keeps the facts about every other mutex.
  lemma OnlyOne(s: System, n: System, m: Mid)
    requires Exclusive(s) && m in s.mutexes && n.mutexes.Keys == s.mutexes.Keys && n.priority.Keys == s.priority.Keys
    requires forall m' :: m' in s.mutexes && m' != m ==>
      n.mutexes[m'] == s.mutexes[m'] && OfMutex(n.holds, m') == OfMutex(s.holds, m')
        && (SomeWoken(s, m') ==> SomeWoken(n, m'))
    ensures Exclusive(n) <==> MutexOk(n.mutexes[m], OfMutex(n.holds, m), SomeWoken(n, m), n.priority.Keys)
  {
  }

  // One test, seen from its mutex alone.
  lemma TestMutexOk(mu: Mutex, on: seq<Hold>, before: bool, after: bool, threads: set<Tid>, t: Tid, priority: int,
                    h: Hold)
    requires MutexOk(mu, on, before, threads) && h.t == t && t in threads
    requires mu.state != 1 || before == after || PendTest(mu, t, priority).2 == Acquired
    ensures var (mu', _, r) := PendTest(mu, t, priority);
      MutexOk(mu', if r == Acquired then on + [h] else on, after, threads)
  {
    var (mu', _, r) := PendTest(mu, t, priority);
    if r == Acquired && on != [] {
      assert on[0].t == t;
      forall i | 0 <= i < |on + [h]| ensures (on + [h])[i].t == (on + [h])[0].t {
        assert i < |on| ==> on[i].t == on[0].t;
      }
    }
  }

  lemma TestKeepsExclusive(s: System, woken: set<(Tid, Mid)>, t: Tid, m: Mid)
    requires Exclusive(s) && m in s.mutexes && t in s.priority
    requires woken == s.woken || woken == s.woken - {(t, m)}
    ensures Exclusive(TestStep(s.(woken := woken), t, m))
  {
    var n := TestStep(s.(woken := woken), t, m);
    forall m' | m' in s.mutexes && m' != m
      ensures OfMutex(n.holds, m') == OfMutex(s.holds, m') && (SomeWoken(s, m') ==> SomeWoken(n, m'))
    {
      HoldsSnoc(s.holds, Hold(t, m, s.priority[t], false), m', t);
      WokenElsewhere(s, n, m', t, m);
    }
    TestHere(s, woken, t, m);
    OnlyOne(s, n, m);
  }

  lemma TestHere(s: System, woken: set<(Tid, Mid)>, t: Tid, m: Mid)
    requires Exclusive(s) && m in s.mutexes && t in s.priority
    requires woken == s.woken || woken == s.woken - {(t, m)}
    ensures var n := TestStep(s.(woken := woken), t, m);
      m in n.mutexes && MutexOk(n.mutexes[m], OfMutex(n.holds, m), SomeWoken(n, m), n.priority.Keys)
  {
    var n, h := TestStep(s.(woken := woken), t, m), Hold(t, m, s.priority[t], false);
    HoldsSnoc(s.holds, h, m, t);
    TestMutexOk(s.mutexes[m], OfMutex(s.holds, m), SomeWoken(s, m), SomeWoken(n, m), s.priority.Keys, t, s.priority[t],
      h);
  }

  lemma WokenElsewhere(s: System, n: System, m': Mid, t: Tid, m: Mid)
    requires m' != m && s.woken - {(t, m)} <= n.woken
    ensures SomeWoken(s, m') ==> SomeWoken(n, m')
  {
    if SomeWoken(s, m') {
      var w :| (w, m') in s.woken;
      assert (w, m') in s.woken - {(t, m)};
    }
  }

  lemma TryMutexOk(mu: Mutex, on: seq<Hold>, woken: bool, threads: set<Tid>, t: Tid, h: Hold)
    requires MutexOk(mu, on, woken, threads) && h.t == t && t in threads
    requires mu.state == 1 && mu.flags.recursive && mu.owner.lockerTid in threads ==> mu.owner.lockerTid == t
    ensures var (mu', r) := TryPend(mu); MutexOk(mu', if r == Acquired then on + [h] else on, woken, threads)
  {
    if mu.state == 1 && on != [] {
      assert on[0].t == t;
      forall i | 0 <= i < |on + [h]| ensures (on + [h])[i].t == (on + [h])[0].t {
        assert i < |on| ==> on[i].t == on[0].t;
      }
    }
  }

  // The acquisitions after a try-pend that succeeds.
  lemma TryElsewhere(s: System, t: Tid, m: Mid)
    requires Enabled(s, TryPendCall(t, m)) && s.mutexes[m].state == 1
    ensures var n := Next(s, TryPendCall(t, m));
      && OfMutex(n.holds, m) == OfMutex(s.holds, m) + [Hold(t, m, s.priority[t], true)]
      && forall m' :: m' in s.mutexes && m' != m ==> OfMutex(n.holds, m') == OfMutex(s.holds, m')
  {
    var n, h := Next(s, TryPendCall(t, m)), Hold(t, m, s.priority[t], true);
    assert n.holds == s.holds + [h];
    HoldsSnoc(s.holds, h, m, t);
    forall m' | m' in s.mutexes && m' != m ensures OfMutex(n.holds, m') == OfMutex(s.holds, m') {
      HoldsSnoc(s.holds, h, m', t);
    }
  }

  lemma TryRefused(s: System, t: Tid, m: Mid)
    requires Enabled(s, TryPendCall(t, m)) && s.mutexes[m].state != 1
    ensures Next(s, TryPendCall(t, m)) == s
  {
    assert s.mutexes[m := s.mutexes[m]] == s.mutexes;
  }

  lemma TryTaken(s: System, t: Tid, m: Mid)
    requires Exclusive(s) && Enabled(s, TryPendCall(t, m)) && Disciplined(s, TryPendCall(t, m))
      && s.mutexes[m].state == 1
    ensures Exclusive(Next(s, TryPendCall(t, m)))
  {
    TryElsewhere(s, t, m);
    TryHere(s, t, m);
    OnlyOne(s, Next(s, TryPendCall(t, m)), m);
  }

  lemma TryHere(s: System, t: Tid, m: Mid)
    requires Exclusive(s) && Enabled(s, TryPendCall(t, m)) && Disciplined(s, TryPendCall(t, m))
      && s.mutexes[m].state == 1
    ensures var n := Next(s, TryPendCall(t, m));
      m in n.mutexes && MutexOk(n.mutexes[m], OfMutex(n.holds, m), SomeWoken(n, m), n.priority.Keys)
  {
    var h := Hold(t, m, s.priority[t], true);
    HoldsSnoc(s.holds, h, m, t);
    TryMutexOk(s.mutexes[m], OfMutex(s.holds, m), SomeWoken(s, m), s.priority.Keys, t, h);
    SameWoken(s, Next(s, TryPendCall(t, m)));
  }

  lemma SameWoken(s: System, n: System)
    requires n.woken == s.woken
    ensures forall m :: SomeWoken(n, m) <==> SomeWoken(s, m)
  {
  }

  lemma TryKeeps(s: System, t: Tid, m: Mid)
    requires Exclusive(s) && Enabled(s, TryPendCall(t, m)) && Disciplined(s, TryPendCall(t, m))
    ensures Exclusive(Next(s, TryPendCall(t, m)))
  {
    if s.mutexes[m].state == 1 { TryTaken(s, t, m); } else { TryRefused(s, t, m); }
  }

  // Which acquisition lists become empty by one Drop.
  lemma DropEmpties(on: seq<Hold>, t: Tid, m: Mid)
    requires forall i :: 0 <= i < |on| ==> on[i].m == m
    ensures Drop(on, t, m) == [] <==> on == [] || (|on| == 1 && on[0].t == t)
  {
    if |on| == 1 {
      assert on[..0] == [];
      assert Drop(on[..0], t, m) == [];
    }
  }

  lemma WokenWitness(s: System, t: Tid, m: Mid)
    requires (t, m) in s.woken
    ensures SomeWoken(s, m)
  {
  }

  lemma {:induction false} DropKeepsThread(on: seq<Hold>, t: Tid, m: Mid, u: Tid)
    requires forall i :: 0 <= i < |on| ==> on[i].t == u
    ensures forall i :: 0 <= i < |Drop(on, t, m)| ==> Drop(on, t, m)[i].t == u
  {
    if on != [] {
      DropKeepsThread(on[..|on| - 1], t, m, u);
    }
  }

  // The other mutexes after a post of m.
  lemma PostElsewhere(s: System, t: Tid, m: Mid)
    requires Enabled(s, PostCall(t, m))
    ensures var n := Next(s, PostCall(t, m));
      && OfMutex(n.holds, m) == Drop(OfMutex(s.holds, m), t, m)
      && forall m' :: m' in s.mutexes && m' != m ==>
           n.mutexes[m'] == s.mutexes[m'] && OfMutex(n.holds, m') == OfMutex(s.holds, m')
             && (SomeWoken(s, m') ==> SomeWoken(n, m'))
  {
    var n := Next(s, PostCall(t, m));
    OfMutexDrop(s.holds, t, m, m);
    forall m' | m' in s.mutexes && m' != m
      ensures OfMutex(n.holds, m') == OfMutex(s.holds, m') && (SomeWoken(s, m') ==> SomeWoken(n, m'))
    {
      OfMutexDrop(s.holds, t, m, m');
      WokenElsewhere(s, n, m', t, m);
    }
  }

  lemma PostKeeps(s: System, t: Tid, m: Mid)
    requires Exclusive(s) && Enabled(s, PostCall(t, m)) && Disciplined(s, PostCall(t, m))
    ensures Exclusive(Next(s, PostCall(t, m)))
  {
    var n, on := Next(s, PostCall(t, m)), OfMutex(s.holds, m);
    PostElsewhere(s, t, m);
    DropEmpties(on, t, m);
    if on != [] { DropKeepsThread(on, t, m, on[0].t); }
    if s.mutexes[m].waiters != [] {
      WokenWitness(n, s.mutexes[m].waiters[0], m);
    }
    OnlyOne(s, n, m);
  }

  lemma StepKeeps(s: System, e: Event)
    requires Exclusive(s) && Disciplined(s, e)
    ensures Exclusive(Next(s, e))
  {
    if Enabled(s, e) {
      match e
      case PendCall(t, m) =>
        TestKeepsExclusive(s, s.woken, t, m);
        assert s.(woken := s.woken) == s;
      case Retest(t, m) => TestKeepsExclusive(s, s.woken - {(t, m)}, t, m);
      case PostCall(t, m) => PostKeeps(s, t, m);
      case TryPendCall(t, m) => TryKeeps(s, t, m);
    }
  }

  // A pend that takes a mutex while another thread has an open acquisition of it.
  lemma SecondHolder(n: System, m: Mid, u: Tid, h: Hold)
    requires m in n.mutexes && u in n.priority && Sane(n.mutexes[m]) && h in OfMutex(n.holds, m) && h.t != u
    requires n.mutexes[m].state == 1 || (n.mutexes[m].flags.recursive && n.mutexes[m].owner.lockerTid == u)
    ensures !OneHolder(Next(n, PendCall(u, m)))
  {
    var g := Hold(u, m, n.priority[u], false);
    var on := OfMutex(n.holds, m);
    HoldsSnoc(n.holds, g, m, u);
    var i :| 0 <= i < |on| && on[i] == h;
    var f := Next(n, PendCall(u, m));
    assert OfMutex(f.holds, m) == on + [g];
    assert (on + [g])[i].t != (on + [g])[|on|].t;
  }

  /** After an undisciplined post, whichever other thread pends next holds the mutex beside the first holder, and so
      does the thread that the post has woken when it tests again. */
  lemma UndisciplinedPost(s: System, t: Tid, m: Mid, u: Tid)
    requires Exclusive(s) && Enabled(s, PostCall(t, m)) && !Disciplined(s, PostCall(t, m))
    requires u in s.priority && OfMutex(s.holds, m) != [] && u != OfMutex(s.holds, m)[0].t
    ensures !OneHolder(Next(Next(s, PostCall(t, m)), PendCall(u, m)))
    ensures s.mutexes[m].waiters != [] && u == s.mutexes[m].waiters[0] ==>
      !OneHolder(Next(Next(s, PostCall(t, m)), Retest(u, m)))
  {
    var n, on := Next(s, PostCall(t, m)), OfMutex(s.holds, m);
    PostElsewhere(s, t, m);
    DropEmpties(on, t, m);
    DropKeepsThread(on, t, m, on[0].t);
    SecondHolder(n, m, u, OfMutex(n.holds, m)[0]);
    if s.mutexes[m].waiters != [] && u == s.mutexes[m].waiters[0] {
      RetestIsPend(n, u, m);
    }
  }

  // A woken thread that tests again does what a pend does, but for the record that it is on its way.
  lemma RetestIsPend(s: System, u: Tid, m: Mid)
    requires Enabled(s, PendCall(u, m)) && (u, m) in s.woken
    ensures Next(s, Retest(u, m)) == Next(s, PendCall(u, m)).(woken := Next(s, Retest(u, m)).woken)
  {
  }

  lemma UndisciplinedTry(s: System, t: Tid, m: Mid)
    requires Exclusive(s) && Enabled(s, TryPendCall(t, m)) && !Disciplined(s, TryPendCall(t, m))
    ensures !OneHolder(Next(Next(s, TryPendCall(t, m)), PendCall(s.mutexes[m].owner.lockerTid, m)))
  {
    var n, h := Next(s, TryPendCall(t, m)), Hold(t, m, s.priority[t], true);
    HoldsSnoc(s.holds, h, m, t);
    assert OfMutex(n.holds, m) == OfMutex(s.holds, m) + [h];
    SecondHolder(n, m, s.mutexes[m].owner.lockerTid, h);
  }

  // After the step, whichever thread pends next, one thread at most holds each mutex.
  ghost predicate StaysClosed(s: System, e: Event) {
    OneHolder(Next(s, e)) && forall u :: OneHolder(Next(Next(s, e), PendCall(u, e.m)))
  }

  /** Step by step: a call lets a second thread take the mutex, at once or by one further pend, exactly when it is not
      disciplined. */
  lemma StepExact(s: System, e: Event)
    requires Exclusive(s) && Enabled(s, e)
    ensures StaysClosed(s, e) <==> Disciplined(s, e)
    ensures Disciplined(s, e) ==> Exclusive(Next(s, e))
  {
    if Disciplined(s, e) {
      StepKeeps(s, e);
      forall u ensures OneHolder(Next(Next(s, e), PendCall(u, e.m))) {
        StepKeeps(Next(s, e), PendCall(u, e.m));
      }
    } else if e.PostCall? {
      var u :| u in s.priority && u != OfMutex(s.holds, e.m)[0].t;
      UndisciplinedPost(s, e.t, e.m, u);
    } else {
      UndisciplinedTry(s, e.t, e.m);
    }
  }

  ghost predicate DisciplinedRun(s: System, es: seq<Event>) {
    forall k :: 0 <= k < |es| ==> Disciplined(Exec(s, es[..k]), es[k])
  }

  ghost predicate Fresh(s: System) {
    && s.holds == [] && s.woken == {}
    && forall m :: m in s.mutexes ==> s.mutexes[m].state == 1 && s.mutexes[m].waiters == []
  }

  /** Over every disciplined run from unlocked mutexes, at most one thread holds each mutex, a mutex that
      nobody holds is free, and a free mutex with waiters has a woken thread on its way. */
  lemma {:induction false} EveryRun(s: System, es: seq<Event>)
    requires Fresh(s) && DisciplinedRun(s, es)
    ensures Exclusive(Exec(s, es)) && OneHolder(Exec(s, es))
  {
    if es != [] {
      var before, e := es[..|es| - 1], es[|es| - 1];
      forall k | 0 <= k < |before| ensures Disciplined(Exec(s, before[..k]), before[k]) {
        assert before[..k] == es[..k];
      }
      EveryRun(s, before);
      assert es[..|before|] == before;
      StepKeeps(Exec(s, before), e);
    }
  }

  // ----- Priorities -----

  // A post gives back the only open acquisition of the mutex, which is the caller's own, or finds none.
  predicate Strict(s: System, e: Event) {
    Enabled(s, e) && e.PostCall? ==>
      var on := OfMutex(s.holds, e.m);
      on == [] || (|on| == 1 && on[0].t == e.t)
  }

  // The saved priority of an elevating mutex belongs to its newest acquisition, if that was a pend.
  ghost predicate SavedFor(mu: Mutex, on: seq<Hold>) {
    Elevates(mu) && on != [] && !on[|on| - 1].tried ==> mu.owner.savedPriority == on[|on| - 1].before
  }

  ghost predicate SavedOk(s: System) {
    forall m :: m in s.mutexes ==> SavedFor(s.mutexes[m], OfMutex(s.holds, m))
  }

  lemma PostKeepsSaved(s: System, t: Tid, m: Mid)
    requires SavedOk(s) && Enabled(s, PostCall(t, m)) && Strict(s, PostCall(t, m))
    ensures SavedOk(Next(s, PostCall(t, m)))
  {
    var n := Next(s, PostCall(t, m));
    forall m' | m' in n.mutexes ensures SavedFor(n.mutexes[m'], OfMutex(n.holds, m')) {
      assert SavedFor(s.mutexes[m'], OfMutex(s.holds, m'));
      OfMutexDrop(s.holds, t, m, m');
      DropEmpties(OfMutex(s.holds, m), t, m);
    }
  }

  lemma AcquireKeepsSaved(s: System, n: System, h: Hold)
    requires SavedOk(s) && h.m in s.mutexes && h.m in n.mutexes && n.mutexes == s.mutexes[h.m := n.mutexes[h.m]]
    requires n.holds == s.holds + [h]
    requires Elevates(n.mutexes[h.m]) && !h.tried ==> n.mutexes[h.m].owner.savedPriority == h.before
    ensures SavedOk(n)
  {
    forall m' | m' in n.mutexes ensures SavedFor(n.mutexes[m'], OfMutex(n.holds, m')) {
      HoldsSnoc(s.holds, h, m', h.t);
      assert m' != h.m ==> SavedFor(s.mutexes[m'], OfMutex(s.holds, m'));
    }
  }

  lemma NextKeepsSaved(s: System, e: Event)
    requires SavedOk(s) && Strict(s, e)
    ensures SavedOk(Next(s, e))
  {
    if Enabled(s, e) {
      var n := Next(s, e);
      if e.PostCall? {
        PostKeepsSaved(s, e.t, e.m);
      } else if n.holds != s.holds {
        AcquireKeepsSaved(s, n, Hold(e.t, e.m, s.priority[e.t], e.TryPendCall?));
      } else {
        forall m | m in n.mutexes ensures SavedFor(n.mutexes[m], OfMutex(n.holds, m)) {
          assert SavedFor(s.mutexes[m], OfMutex(s.holds, m));
        }
      }
    }
  }

  /** A post of the caller's only open acquisition gives the caller back the priority it had just before that
      acquisition, if the mutex elevates, and otherwise leaves the priority alone; the only exception is
      an acquisition by try-pend that found another priority saved. */
  lemma PostRestores(s: System, t: Tid, m: Mid)
    requires SavedOk(s) && Enabled(s, PostCall(t, m)) && Strict(s, PostCall(t, m)) && OfMutex(s.holds, m) != []
    ensures var n, h := Next(s, PostCall(t, m)), OfMutex(s.holds, m)[0];
      && h.t == t
      && (!Elevates(s.mutexes[m]) ==> n.priority == s.priority)
      && (Elevates(s.mutexes[m]) ==>
           (n.priority[t] == h.before <==> !h.tried || s.mutexes[m].owner.savedPriority == h.before))
  {
    assert SavedFor(s.mutexes[m], OfMutex(s.holds, m));
    assert s.priority[t := s.priority[t]] == s.priority;
  }

  // The priority a thread should have while it holds hs, when its own priority is base.
  function Level(flags: map<Mid, Flags>, hs: seq<Hold>, base: int): int {
    if hs == [] then base
    else
      var h := hs[|hs| - 1];
      if h.m in flags && flags[h.m].priority != ELEVATION_NONE then flags[h.m].priority / 256
      else Level(flags, hs[..|hs| - 1], base)
  }

  // Every acquisition recorded the priority called for by the ones before it; none was a try-pend on an
  // elevating mutex.
  ghost predicate Chain(flags: map<Mid, Flags>, hs: seq<Hold>, base: int)
    decreases |hs|
  {
    hs == [] ||
    (var h, rest := hs[|hs| - 1], hs[..|hs| - 1];
     && Chain(flags, rest, base) && h.before == Level(flags, rest, base)
     && h.m in flags && (h.tried ==> flags[h.m].priority == ELEVATION_NONE))
  }

  ghost predicate ThreadOk(s: System, flags: map<Mid, Flags>, base: map<Tid, int>, t: Tid)
    requires t in base
  {
    && t in s.priority
    && Chain(flags, OfThread(s.holds, t), base[t])
    && s.priority[t] == Level(flags, OfThread(s.holds, t), base[t])
  }

  ghost predicate PriorityOk(s: System, flags: map<Mid, Flags>, base: map<Tid, int>) {
    && s.mutexes.Keys == flags.Keys && s.priority.Keys == base.Keys
    && (forall m :: m in s.mutexes ==> s.mutexes[m].flags == flags[m])
    && (forall t :: t in base ==> ThreadOk(s, flags, base, t))
  }

  // Last in, first out, and no try-pend on an elevating mutex.
  predicate Nested(s: System, e: Event) {
    && Strict(s, e)
    && (Enabled(s, e) ==>
          && (e.PostCall? ==> var hs := OfThread(s.holds, e.t); hs != [] && hs[|hs| - 1].m == e.m)
          && (e.TryPendCall? ==> !Elevates(s.mutexes[e.m])))
  }

  // An acquisition by h.t with its current priority keeps the chain of every thread.
  lemma AcquireKeepsThread(s: System, n: System, flags: map<Mid, Flags>, base: map<Tid, int>, h: Hold, t: Tid)
    requires t in base && ThreadOk(s, flags, base, t)
    requires h.t in s.priority && h.m in flags && h.before == s.priority[h.t]
    requires h.tried ==> flags[h.m].priority == ELEVATION_NONE
    requires n.holds == s.holds + [h]
    requires n.priority == s.priority[h.t := if flags[h.m].priority != ELEVATION_NONE then flags[h.m].priority / 256
      else h.before]
    ensures ThreadOk(n, flags, base, t)
  {
    HoldsSnoc(s.holds, h, h.m, t);
    if t == h.t {
      var hs := OfThread(s.holds, t);
      assert (hs + [h])[..|hs|] == hs;
    }
  }

  // Giving back the newest acquisition of t shortens its chain by one and no other.
  lemma PostKeepsThread(s: System, flags: map<Mid, Flags>, base: map<Tid, int>, t: Tid, m: Mid, t': Tid)
    requires PriorityOk(s, flags, base) && SavedOk(s) && Enabled(s, PostCall(t, m)) && Nested(s, PostCall(t, m))
    requires t' in base
    ensures ThreadOk(Next(s, PostCall(t, m)), flags, base, t')
  {
    assert ThreadOk(s, flags, base, t');
    OfThreadDrop(s.holds, t, m, t');
    if t' == t { PostKeepsOwn(s, flags, base, t, m); }
  }

  lemma PostKeepsOwn(s: System, flags: map<Mid, Flags>, base: map<Tid, int>, t: Tid, m: Mid)
    requires PriorityOk(s, flags, base) && SavedOk(s) && Enabled(s, PostCall(t, m)) && Nested(s, PostCall(t, m))
    requires t in base
    ensures ThreadOk(Next(s, PostCall(t, m)), flags, base, t)
  {
    var hs := OfThread(s.holds, t);
    assert ThreadOk(s, flags, base, t);
    OfThreadDrop(s.holds, t, m, t);
    SoleHold(s.holds, t, m);
    PostRestores(s, t, m);
    assert Drop(hs, t, m) == hs[..|hs| - 1];
  }

  // The newest acquisition of t, being the only one of m, is the one listed for m.
  lemma {:induction false} SoleHold(holds: seq<Hold>, t: Tid, m: Mid)
    requires OfThread(holds, t) != [] && OfThread(holds, t)[|OfThread(holds, t)| - 1].m == m
    ensures OfMutex(holds, m) != []
    ensures |OfMutex(holds, m)| == 1 ==> OfMutex(holds, m)[0] == OfThread(holds, t)[|OfThread(holds, t)| - 1]
  {
    var h, rest := holds[|holds| - 1], holds[..|holds| - 1];
    if h.t != t {
      SoleHold(rest, t, m);
    }
  }

  lemma NextKeepsPriority(s: System, flags: map<Mid, Flags>, base: map<Tid, int>, e: Event)
    requires PriorityOk(s, flags, base) && SavedOk(s) && Nested(s, e)
    ensures PriorityOk(Next(s, e), flags, base)
  {
    if Enabled(s, e) {
      FlagsStay(s, e);
      forall t | t in base ensures ThreadOk(Next(s, e), flags, base, t) { NextKeepsThread(s, flags, base, e, t); }
    }
  }

  lemma FlagsStay(s: System, e: Event)
    ensures Next(s, e).mutexes.Keys == s.mutexes.Keys && Next(s, e).priority.Keys == s.priority.Keys
    ensures forall m :: m in s.mutexes ==> Next(s, e).mutexes[m].flags == s.mutexes[m].flags
  {
  }

  lemma NextKeepsThread(s: System, flags: map<Mid, Flags>, base: map<Tid, int>, e: Event, t: Tid)
    requires PriorityOk(s, flags, base) && SavedOk(s) && Nested(s, e) && Enabled(s, e) && t in base
    ensures ThreadOk(Next(s, e), flags, base, t)
  {
    var n := Next(s, e);
    assert ThreadOk(s, flags, base, t);
    assert s.priority[e.t := s.priority[e.t]] == s.priority;
    if e.PostCall? {
      PostKeepsThread(s, flags, base, e.t, e.m, t);
    } else if n.holds != s.holds {
      AcquireKeepsThread(s, n, flags, base, Hold(e.t, e.m, s.priority[e.t], e.TryPendCall?), t);
    }
  }

  // The acquisitions newer than the newest one of m, and the level that the newest elevating one of some calls for.
  function Newer(hs: seq<Hold>, m: Mid): seq<Hold> {
    if hs == [] || hs[|hs| - 1].m == m then [] else Newer(hs[..|hs| - 1], m) + [hs[|hs| - 1]]
  }

  function TopLevel(flags: map<Mid, Flags>, hs: seq<Hold>): Option<int> {
    if hs == [] then None
    else
      var h := hs[|hs| - 1];
      if h.m in flags && flags[h.m].priority != ELEVATION_NONE then Some(flags[h.m].priority / 256)
      else TopLevel(flags, hs[..|hs| - 1])
  }

  // What is left when the newest acquisition of m is given back.
  lemma {:induction false} LevelAfterDrop(flags: map<Mid, Flags>, hs: seq<Hold>, base: int, t: Tid, m: Mid, h: Hold)
    requires Chain(flags, hs, base) && (forall i :: 0 <= i < |hs| ==> hs[i].t == t)
    requires h in hs && h.m == m && forall g :: g in hs && g.m == m ==> g == h
    ensures Level(flags, Drop(hs, t, m), base) ==
      if TopLevel(flags, Newer(hs, m)).Some? then TopLevel(flags, Newer(hs, m)).value else h.before
  {
    var last, rest := hs[|hs| - 1], hs[..|hs| - 1];
    if last.m == m {
      assert last in hs;
    } else {
      assert h in rest by { assert hs == rest + [last]; }
      assert forall g :: g in rest ==> g in hs;
      LevelAfterDrop(flags, rest, base, t, m, h);
      assert (Drop(rest, t, m) + [last])[..|Drop(rest, t, m)|] == Drop(rest, t, m);
      assert (Newer(rest, m) + [last])[..|Newer(rest, m)|] == Newer(rest, m);
    }
  }

  /** Where all priorities are right, a post leaves its caller at the priority that the open acquisitions call for
      exactly when the mutex does not elevate, or no newer acquisition does, or the newest one that does elevates to the
      very priority that the post gives back. */
  lemma PostRightIff(s: System, flags: map<Mid, Flags>, base: map<Tid, int>, t: Tid, m: Mid)
    requires PriorityOk(s, flags, base) && SavedOk(s) && Enabled(s, PostCall(t, m)) && Strict(s, PostCall(t, m))
    requires OfMutex(s.holds, m) != [] && t in base
    ensures var n, newer := Next(s, PostCall(t, m)), TopLevel(flags, Newer(OfThread(s.holds, t), m));
      n.priority[t] == Level(flags, OfThread(n.holds, t), base[t])
      <==> !Elevates(s.mutexes[m]) || newer == None || newer == Some(OfMutex(s.holds, m)[0].before)
  {
    var hs, h := OfThread(s.holds, t), OfMutex(s.holds, m)[0];
    assert ThreadOk(s, flags, base, t);
    OfThreadDrop(s.holds, t, m, t);
    OnlyHold(s.holds, t, m);
    LevelAfterDrop(flags, hs, base[t], t, m, h);
    ChainOf(flags, hs, base[t], h);
    PostRestores(s, t, m);
    if !Elevates(s.mutexes[m]) { LevelSame(flags, hs, base[t], t, m); }
  }

  lemma {:induction false} OnlyHold(holds: seq<Hold>, t: Tid, m: Mid)
    requires |OfMutex(holds, m)| == 1 && OfMutex(holds, m)[0].t == t
    ensures OfMutex(holds, m)[0] in OfThread(holds, t)
    ensures forall g :: g in OfThread(holds, t) && g.m == m ==> g == OfMutex(holds, m)[0]
  {
    var h, rest := holds[|holds| - 1], holds[..|holds| - 1];
    assert holds == rest + [h];
    HoldsSnoc(rest, h, m, t);
    if h.m != m {
      OnlyHold(rest, t, m);
    } else {
      NoHold(rest, t, m);
    }
  }

  lemma {:induction false} NoHold(holds: seq<Hold>, t: Tid, m: Mid)
    requires OfMutex(holds, m) == []
    ensures forall g :: g in OfThread(holds, t) ==> g.m != m
  {
    if holds != [] {
      var h, rest := holds[|holds| - 1], holds[..|holds| - 1];
      assert holds == rest + [h];
      HoldsSnoc(rest, h, m, t);
      NoHold(rest, t, m);
    }
  }

  // No acquisition of an elevating mutex is a try-pend.
  lemma {:induction false} ChainOf(flags: map<Mid, Flags>, hs: seq<Hold>, base: int, h: Hold)
    requires Chain(flags, hs, base) && h in hs
    ensures h.m in flags && (h.tried ==> flags[h.m].priority == ELEVATION_NONE)
  {
    var last, rest := hs[|hs| - 1], hs[..|hs| - 1];
    assert hs == rest + [last];
    if h != last { ChainOf(flags, rest, base, h); }
  }

  // Giving back a mutex that does not elevate does not change the level.
  lemma {:induction false} LevelSame(flags: map<Mid, Flags>, hs: seq<Hold>, base: int, t: Tid, m: Mid)
    requires m in flags && flags[m].priority == ELEVATION_NONE
    ensures Level(flags, Drop(hs, t, m), base) == Level(flags, hs, base)
  {
    if hs != [] {
      var last, rest := hs[|hs| - 1], hs[..|hs| - 1];
      LevelSame(flags, rest, base, t, m);
      if !(last.t == t && last.m == m) {
        assert (Drop(rest, t, m) + [last])[..|Drop(rest, t, m)|] == Drop(rest, t, m);
      }
    }
  }

  ghost predicate NestedRun(s: System, es: seq<Event>) {
    forall k :: 0 <= k < |es| ==> Nested(Exec(s, es[..k]), es[k])
  }

  /** Over every run with last-in first-out nesting and no try-pend on elevating mutexes, a thread
      that holds no mutex has the priority it started with, and a thread that holds some has exactly the
      elevation its open acquisitions call for. */
  lemma {:induction false} NestedRunRestores(s: System, es: seq<Event>, flags: map<Mid, Flags>)
    requires Fresh(s) && NestedRun(s, es)
    requires flags.Keys == s.mutexes.Keys && forall m :: m in flags ==> flags[m] == s.mutexes[m].flags
    ensures var f := Exec(s, es);
      && PriorityOk(f, flags, s.priority) && SavedOk(f)
      && (forall t :: t in s.priority && OfThread(f.holds, t) == [] ==>
         t in f.priority && f.priority[t] == s.priority[t])
  {
    if es != [] {
      var before, e := es[..|es| - 1], es[|es| - 1];
      forall k | 0 <= k < |before| ensures Nested(Exec(s, before[..k]), before[k]) {
        assert before[..k] == es[..k];
      }
      NestedRunRestores(s, before, flags);
      assert es[..|before|] == before;
      NextKeepsPriority(Exec(s, before), flags, s.priority, e);
      NextKeepsSaved(Exec(s, before), e);
    }
    var f := Exec(s, es);
    forall t | t in s.priority && OfThread(f.holds, t) == [] ensures t in f.priority && f.priority[t] == s.priority[t] {
      assert ThreadOk(f, flags, s.priority, t);
    }
  }

  // An uncontended pend of an elevating mutex, and its post.
  lemma PendElevates(s: System, t: Tid, m: Mid)
    requires t in s.priority && m in s.mutexes && s.mutexes[m].state == 1
    requires 0 <= s.mutexes[m].flags.priority <= LOWEST_PRIORITY
    ensures var n := Next(s, PendCall(t, m));
      && n.holds == s.holds + [Hold(t, m, s.priority[t], false)] && n.priority == s.priority[t := 0]
      && n.mutexes == s.mutexes[m := s.mutexes[m].(state := 0, owner := Owner(t, s.priority[t]))]
  {
  }

  lemma PostGivesBack(s: System, t: Tid, m: Mid)
    requires t in s.priority && m in s.mutexes && 0 <= s.mutexes[m].flags.priority <= LOWEST_PRIORITY
    ensures var n := Next(s, PostCall(t, m));
      && n.holds == Drop(s.holds, t, m) && n.priority == s.priority[t := s.mutexes[m].owner.savedPriority]
      && n.mutexes.Keys == s.mutexes.Keys && forall m' :: m' in s.mutexes && m' != m ==> n.mutexes[m'] == s.mutexes[m']
  {
  }

  /** Without last-in first-out order the elevation stays: two elevating mutexes posted in the order of their
      acquisition leave the thread, holding nothing, at the elevated priority. */
  lemma OutOfOrderStaysElevated(s: System, t: Tid, a: Mid, b: Mid)
    requires Fresh(s) && t in s.priority && a in s.mutexes && b in s.mutexes && a != b
    requires 0 <= s.mutexes[a].flags.priority <= LOWEST_PRIORITY && 0 <= s.mutexes[b].flags.priority <= LOWEST_PRIORITY
    ensures var f := Exec(s, [PendCall(t, a), PendCall(t, b), PostCall(t, a), PostCall(t, b)]);
      f.holds == [] && t in f.priority && f.priority[t] == 0
  {
    var s2 := Next(Next(s, PendCall(t, a)), PendCall(t, b));
    TwoPends(s, t, a, b);
    DropPair(s2.holds[0], s2.holds[1]);
    assert s2.holds == [s2.holds[0], s2.holds[1]];
    PostGivesBack(s2, t, a);
    PostGivesBack(Next(s2, PostCall(t, a)), t, b);
    FourSteps(s, PendCall(t, a), PendCall(t, b), PostCall(t, a), PostCall(t, b));
  }

  lemma TwoPends(s: System, t: Tid, a: Mid, b: Mid)
    requires Fresh(s) && t in s.priority && a in s.mutexes && b in s.mutexes && a != b
    requires 0 <= s.mutexes[a].flags.priority <= LOWEST_PRIORITY && 0 <= s.mutexes[b].flags.priority <= LOWEST_PRIORITY
    ensures var n := Next(Next(s, PendCall(t, a)), PendCall(t, b));
      && |n.holds| == 2 && n.holds[0].t == n.holds[1].t == t && n.holds[0].m == a && n.holds[1].m == b
      && t in n.priority && a in n.mutexes && b in n.mutexes
      && n.mutexes[a].flags == s.mutexes[a].flags && n.mutexes[b].flags == s.mutexes[b].flags
      && n.mutexes[b].owner.savedPriority == 0
  {
    PendElevates(s, t, a);
    PendElevates(Next(s, PendCall(t, a)), t, b);
  }

  // The first of two acquisitions of different mutexes given back, and then the second.
  lemma DropPair(ha: Hold, hb: Hold)
    requires ha.m != hb.m
    ensures Drop([ha, hb], ha.t, ha.m) == [hb] && Drop([hb], hb.t, hb.m) == []
  {
    assert [ha, hb] == [ha] + [hb] && [ha] == [] + [ha] && [hb] == [] + [hb];
    DropSnoc([ha], hb, ha.t, ha.m);
    DropSnoc([], ha, ha.t, ha.m);
    DropSnoc([], hb, hb.t, hb.m);
  }

  lemma FourSteps(s: System, a: Event, b: Event, c: Event, d: Event)
    ensures Exec(s, [a, b, c, d]) == Next(Next(Next(Next(s, a), b), c), d)
  {
    assert [a, b, c, d][..3] == [a, b, c] && [a, b, c][..2] == [a, b] && [a, b][..1] == [a] && [a][..0] == [];
    assert Exec(s, [a]) == Next(Exec(s, []), a);
    assert Exec(s, [a, b]) == Next(Exec(s, [a]), b);
    assert Exec(s, [a, b, c]) == Next(Exec(s, [a, b]), c);
  }

  // A pend by the holder of a recursive mutex, or of a free one, succeeds.
  lemma PendSucceeds(s: System, t: Tid, m: Mid)
    requires t in s.priority && m in s.mutexes
    requires Sane(s.mutexes[m]) && (s.mutexes[m].state == 1
      || (s.mutexes[m].flags.recursive && s.mutexes[m].owner.lockerTid == t))
    ensures var n := Next(s, PendCall(t, m));
      && n.holds == s.holds + [Hold(t, m, s.priority[t], false)] && n.priority.Keys == s.priority.Keys
      && m in n.mutexes && n.mutexes[m].state == 0 && n.mutexes[m].owner.lockerTid == t
      && n.mutexes[m].flags == s.mutexes[m].flags
  {
  }

  /** A recursive mutex keeps no nesting count: after two pends and one post by a, it is free for b while a
      still has an open acquisition. */
  lemma NestedPostAdmitsAnother(s: System, a: Tid, b: Tid, m: Mid)
    requires Fresh(s) && a != b && a in s.priority && b in s.priority && m in s.mutexes && s.mutexes[m].flags.recursive
    requires Sane(s.mutexes[m])
    ensures var f := Exec(s, [PendCall(a, m), PendCall(a, m), PostCall(a, m), PendCall(b, m)]);
      |f.holds| == 2 && f.holds[0].m == f.holds[1].m == m && f.holds[0].t == a && f.holds[1].t == b
  {
    var s1 := Next(s, PendCall(a, m));
    PendSucceeds(s, a, m);
    var s2 := Next(s1, PendCall(a, m));
    PendSucceeds(s1, a, m);
    var s3 := Next(s2, PostCall(a, m));
    DropSnoc(s1.holds, Hold(a, m, s1.priority[a], false), a, m);
    PendSucceeds(s3, b, m);
    FourSteps(s, PendCall(a, m), PendCall(a, m), PostCall(a, m), PendCall(b, m));
  }

  /** A try-pend records no owner: after b has held and posted a recursive mutex, a try-pend by a takes it, and a
      further pend by b, who is still recorded, takes it as well. */
  lemma TryAdmitsOwner(s: System, a: Tid, b: Tid, m: Mid)
    requires Fresh(s) && a != b && a in s.priority && b in s.priority && m in s.mutexes && s.mutexes[m].flags.recursive
    requires Sane(s.mutexes[m])
    ensures var f := Exec(s, [PendCall(b, m), PostCall(b, m), TryPendCall(a, m), PendCall(b, m)]);
      |f.holds| == 2 && f.holds[0].m == f.holds[1].m == m && f.holds[0].t == a && f.holds[1].t == b
  {
    var s1 := Next(s, PendCall(b, m));
    PendSucceeds(s, b, m);
    var s2 := Next(s1, PostCall(b, m));
    DropSnoc([], Hold(b, m, s.priority[b], false), b, m);
    assert [] + [Hold(b, m, s.priority[b], false)] == s1.holds;
    var s3 := Next(s2, TryPendCall(a, m));
    PendSucceeds(s3, b, m);
    FourSteps(s, PendCall(b, m), PostCall(b, m), TryPendCall(a, m), PendCall(b, m));
  }

  // ----- Who is woken, and what a try-pend gives back -----

  // The posts of m in a run.
  function PostsOf(s: System, es: seq<Event>, m: Mid): nat {
    if es == [] then 0
    else
      var e := es[|es| - 1];
      PostsOf(s, es[..|es| - 1], m) + if e.PostCall? && e.m == m && Enabled(Exec(s, es[..|es| - 1]), e) then 1 else 0
  }

  /** A post wakes the thread that has waited longest for the mutex, if any; a test that blocks queues its thread behind
      the others; no other step changes the waiters of the mutex. */
  lemma WaitersStep(s: System, e: Event, m: Mid)
    requires m in s.mutexes
    ensures var was, now := s.mutexes[m].waiters, Next(s, e).mutexes[m].waiters;
      if Enabled(s, e) && e.PostCall? && e.m == m then
        if was == [] then now == [] else now == was[1..] && (was[0], m) in Next(s, e).woken
      else now == was || (now == was + [e.t] && e.m == m && (e.PendCall? || e.Retest?) && was <= now)
  {
  }

  /** A thread is on its way to a mutex from the post that wakes it up to its next test, and not longer. */
  lemma WokenStep(s: System, e: Event, t: Tid, m: Mid)
    requires m in s.mutexes && Enabled(s, e)
    ensures (t, m) in Next(s, e).woken <==>
      (if (t, m) in s.woken then e != Retest(t, m)
       else e.PostCall? && e.m == m && s.mutexes[m].waiters != [] && s.mutexes[m].waiters[0] == t)
  {
  }

  /** First come, first woken: after n posts of the mutex its waiters are those of before without the first n, followed
      by those that came since, whatever the other threads do. */
  lemma {:induction false} WaitersInOrder(s: System, es: seq<Event>, m: Mid)
    requires m in s.mutexes && PostsOf(s, es, m) <= |s.mutexes[m].waiters|
    ensures m in Exec(s, es).mutexes
    ensures s.mutexes[m].waiters[PostsOf(s, es, m)..] <= Exec(s, es).mutexes[m].waiters
  {
    if es != [] {
      var before, e := es[..|es| - 1], es[|es| - 1];
      WaitersInOrder(s, before, m);
      WaitersStep(Exec(s, before), e, m);
    }
  }

  lemma TryThenPost(s: System, t: Tid, m: Mid)
    requires m in s.mutexes && t in s.priority && Sane(s.mutexes[m]) && Elevates(s.mutexes[m])
      && s.mutexes[m].state == 1
    ensures Next(Next(s, TryPendCall(t, m)), PostCall(t, m)).priority ==
      s.priority[t := s.mutexes[m].owner.savedPriority]
  {
  }

  // The mutex after a post.
  lemma PostSavesLowest(s: System, u: Tid, m: Mid)
    requires m in s.mutexes && u in s.priority && Sane(s.mutexes[m]) && Elevates(s.mutexes[m])
    ensures var n := Next(s, PostCall(u, m));
      && m in n.mutexes && n.priority.Keys == s.priority.Keys && Sane(n.mutexes[m]) && Elevates(n.mutexes[m])
      && n.mutexes[m].state == 1 && n.mutexes[m].owner.savedPriority == LOWEST_PRIORITY
  {
  }

  /** A try-pend saves no priority: whoever takes an elevating mutex by try-pend and posts it ends at the priority that
      was saved before. */
  lemma TryGivesBackSaved(s: System, t: Tid, m: Mid)
    requires m in s.mutexes && t in s.priority && Sane(s.mutexes[m]) && Elevates(s.mutexes[m])
      && s.mutexes[m].state == 1
    ensures Exec(s, [TryPendCall(t, m), PostCall(t, m)]).priority ==
      s.priority[t := s.mutexes[m].owner.savedPriority]
  {
    TwoSteps(s, TryPendCall(t, m), PostCall(t, m));
    TryThenPost(s, t, m);
  }

  /** A post leaves the lowest priority saved: after it, a try-pend and a post by anyone end at the lowest priority. */
  lemma TryAfterPost(s: System, t: Tid, u: Tid, m: Mid)
    requires m in s.mutexes && t in s.priority && u in s.priority && Sane(s.mutexes[m]) && Elevates(s.mutexes[m])
    ensures var f := Exec(s, [PostCall(u, m), TryPendCall(t, m), PostCall(t, m)]);
      t in f.priority && f.priority[t] == LOWEST_PRIORITY
  {
    ThreeSteps(s, PostCall(u, m), TryPendCall(t, m), PostCall(t, m));
    PostSavesLowest(s, u, m);
    TryThenPost(Next(s, PostCall(u, m)), t, m);
  }

  lemma ThreeSteps(s: System, a: Event, b: Event, c: Event)
    ensures Exec(s, [a, b, c]) == Next(Next(Next(s, a), b), c)
  {
    assert [a, b, c][..2] == [a, b];
    TwoSteps(s, a, b);
  }

  lemma TwoSteps(s: System, a: Event, b: Event)
    ensures Exec(s, [a, b]) == Next(Next(s, a), b)
  {
    assert [a, b][..1] == [a] && [a][..0] == [];
    assert Exec(s, [a]) == Next(Exec(s, []), a);
  }
}
