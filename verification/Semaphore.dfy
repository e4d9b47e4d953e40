/**
  Counting semaphores (sync/semaphore.c). A blocked thread that is woken tests the level again,
  so other threads may take the level before it does. Each critical section is one atomic step.
 */
module Semaphore {

  import opened Basics
  import opened KernelQueue
  import opened WaitQueue

  type Tid = int

  const INT32_MAX: int := 0x7FFF_FFFF

  // The fields of semaphore_t; the wait queue in the order in which it is popped.
  datatype Sem = Sem(level: int, live: bool, waiters: seq<Tid>)

  datatype Result = Acquired | Blocked | SemLocked(value: int) | Uninitialized | Posted

  // One test of the level by sem_pend, at the call or after a wake-up.
  function PendTest(s: Sem, t: Tid): (Sem, Result) {
    if !s.live then (s, Uninitialized)
    else if s.level < 1 then (s.(waiters := s.waiters + [t]), Blocked)
    else (s.(level := s.level - 1), Acquired)
  }

  function Post(s: Sem): (Sem, Option<Tid>, Result) {
    if !s.live then (s, None, Uninitialized)
    else
      var up := s.(level := s.level + 1);
      if up.level > 0 && up.waiters != [] then (up.(waiters := up.waiters[1..]), Some(up.waiters[0]), Posted)
      else (up, None, Posted)
  }

  function TryPend(s: Sem): (Sem, Result) {
    if !s.live then (s, Uninitialized)
    else if s.level < 1 then (s, SemLocked(s.level))
    else (s.(level := s.level - 1), Acquired)
  }

  // The threads a destruction wakes, in order.
  function Destroy(s: Sem): (Sem, seq<Tid>, Result) {
    if !s.live then (s, [], Uninitialized) else (Sem(s.level, false, []), s.waiters, Posted)
  }

  /** A try-pend is a pend that does not block: it takes a level exactly when a pend would, with the same effect, and
      otherwise changes nothing. */
  lemma TryPendIsPend(s: Sem, t: Tid)
    ensures TryPend(s).1 == Acquired <==> PendTest(s, t).1 == Acquired
    ensures TryPend(s).0 == if PendTest(s, t).1 == Blocked then s else PendTest(s, t).0
    ensures TryPend(s).1 == SemLocked(s.level) <==> PendTest(s, t).1 == Blocked
    ensures TryPend(s).1 == Uninitialized <==> PendTest(s, t).1 == Uninitialized
  {
  }

  /** A post undoes a pend that did not block; with nobody waiting it restores the level exactly. */
  lemma PostUndoesPend(s: Sem, t: Tid)
    requires PendTest(s, t).1 == Acquired
    ensures var (n, w, r) := Post(PendTest(s, t).0);
      n.level == s.level && (w == None <==> s.waiters == []) && (s.waiters == [] ==> n == s)
  {
  }

  // ----- The object -----

  // The wait queue is one of the queues in the kernel's memory.
  class SemaphoreObject {
    var semLevel: int
    var init: bool
    const memory: QueueMemory<Tid>
    const waitingThreads: int

    ghost predicate Valid()
      reads this, memory
    {
      memory.Valid() && waitingThreads != NULL && waitingThreads in memory.queues
    }

    // The waiters in the order in which the linked queue is popped.
    ghost function View(): Sem
      requires Valid()
      reads this, memory
    {
      Sem(semLevel, init, Order(memory, waitingThreads))
    }

    /** sem_init, with the queue that kernel_queue_create_queue delivers. */
    constructor (memory: QueueMemory<Tid>, queue: int, initLevel: int)
      requires memory.Valid() && queue != NULL && queue !in memory.queues
      modifies memory
      ensures Valid() && this.memory == memory && waitingThreads == queue && View() == Sem(initLevel, true, [])
      ensures memory.nodes == old(memory.nodes) && memory.lists == old(memory.lists)[queue := []]
    {
      this.memory, waitingThreads := memory, queue;
      semLevel, init := initLevel, true;
      new;
      memory.CreateQueue(queue);
    }

    // The condition of the loop of sem_pend.
    predicate MustWait()
      reads this
    {
      init && semLevel < 1
    }

    /** One pass of the loop of sem_pend by the thread of the node, entered with the lock held. */
    method TestLevel(node: int) returns (r: Result)
      requires Valid() && node != NULL && node in memory.nodes && !memory.nodes[node].enlisted
      modifies this, memory
      ensures Valid() && OnlyQueue(memory, waitingThreads)
      ensures (View(), r) == PendTest(old(View()), old(memory.nodes)[node].data)
      ensures if old(MustWait()) then Entered(memory, waitingThreads, node) else Untouched(memory)
    {
      if MustWait() {
        Enqueue(memory, waitingThreads, node);
        return Blocked;
      }
      if !init {
        return Uninitialized;
      }
      semLevel := semLevel - 1;
      return Acquired;
    }

    /** sem_post. A level at INT32_MAX would overflow a signed integer. */
    method PostOne() returns (node: int, r: Result)
      requires Valid() && semLevel < INT32_MAX
      modifies this, memory
      ensures Valid() && OnlyQueue(memory, waitingThreads)
      ensures node != NULL ==> node in memory.nodes && !memory.nodes[node].enlisted
      ensures (View(), if node == NULL then None else Some(memory.nodes[node].data), r) == Post(old(View()))
      ensures if node == NULL then Untouched(memory) else Left(memory, waitingThreads, node)
    {
      if !init {
        return NULL, Uninitialized;
      }
      semLevel := semLevel + 1;
      node := NULL;
      if semLevel > 0 {
        ghost var w := Order(memory, waitingThreads);
        node := Dequeue(memory, waitingThreads);
        if node != NULL {
          assert w[0] == memory.nodes[node].data && w[1..] == Order(memory, waitingThreads);
        } else {
          assert w == [] && Order(memory, waitingThreads) == [];
        }
      }
      return node, Posted;
    }

    /** sem_try_pend */
    method TryOnce() returns (r: Result)
      requires Valid()
      modifies this
      ensures Valid() && (View(), r) == TryPend(old(View()))
    {
      if !init {
        return Uninitialized;
      }
      if semLevel < 1 {
        return SemLocked(semLevel);
      }
      semLevel := semLevel - 1;
      return Acquired;
    }

    /** sem_destroy: every waiter is popped and unlocked. */
    method DestroyAll() returns (woken: seq<Tid>, r: Result)
      requires Valid()
      modifies this, memory
      ensures Valid() && OnlyQueue(memory, waitingThreads)
      ensures (View(), woken, r) == Destroy(old(View()))
    {
      woken := [];
      if !init {
        return woken, Uninitialized;
      }
      init := false;
      woken := DequeueAll(memory, waitingThreads);
      assert Order(memory, waitingThreads) == [];
      return woken, Posted;
    }
  }

  // ----- Runs of any number of threads -----

  // A semaphore with the threads that have been popped but have not yet tested the level again, and the
  // history the properties speak about.
  datatype State = State(sem: Sem, woken: set<Tid>, count: Count, log: Log)

  // The initial level, the successful posts, and the successful pends and try-pends.
  datatype Count = Count(initial: int, posts: nat, pends: nat)

  // Every enqueueing and every popping, in order.
  datatype Log = Log(queued: seq<Tid>, released: seq<Tid>)

  datatype Event = PendCall(t: Tid) | Retest(t: Tid) | PostCall | TryPendCall | DestroyCall

  function Start(level: int): State {
    State(Sem(level, true, []), {}, Count(level, 0, 0), Log([], []))
  }

  // A thread calls only while it is not blocked, re-tests only after it was popped, and a post does not
  // overflow the level.
  predicate Enabled(s: State, e: Event) {
    match e
    case PendCall(t) => t !in s.sem.waiters && t !in s.woken
    case Retest(t) => t in s.woken
    case PostCall => s.sem.level < INT32_MAX
    case TryPendCall => true
    case DestroyCall => true
  }

  function TestStep(s: State, t: Tid): State {
    var (sem, r) := PendTest(s.sem, t);
    s.(sem := sem,
       count := if r == Acquired then s.count.(pends := s.count.pends + 1) else s.count,
       log := if r == Blocked then s.log.(queued := s.log.queued + [t]) else s.log)
  }

  // Events that are not enabled change nothing.
  function Next(s: State, e: Event): State {
    if !Enabled(s, e) then s
    else match e
      case PendCall(t) => TestStep(s, t)
      case Retest(t) => TestStep(s.(woken := s.woken - {t}), t)
      case PostCall =>
        var (sem, w, r) := Post(s.sem);
        s.(sem := sem,
           count := if r == Posted then s.count.(posts := s.count.posts + 1) else s.count,
           woken := if w.Some? then s.woken + {w.value} else s.woken,
           log := if w.Some? then s.log.(released := s.log.released + [w.value]) else s.log)
      case TryPendCall =>
        var (sem, r) := TryPend(s.sem);
        s.(sem := sem, count := if r == Acquired then s.count.(pends := s.count.pends + 1) else s.count)
      case DestroyCall =>
        var (sem, ws, _) := Destroy(s.sem);
        s.(sem := sem, woken := s.woken + (set t | t in ws), log := s.log.(released := s.log.released + ws))
  }

  function Exec(s: State, es: seq<Event>): State {
    if es == [] then s else Next(Exec(s, es[..|es| - 1]), es[|es| - 1])
  }

  ghost predicate Distinct(q: seq<Tid>) {
    forall i, j :: 0 <= i < j < |q| ==> q[i] != q[j]
  }

  ghost predicate Inv(s: State) {
    && s.sem.level == s.count.initial + s.count.posts - s.count.pends
    && (s.sem.level >= 0 || s.sem.level >= s.count.initial)
    && Distinct(s.sem.waiters)
    && (forall t :: t in s.sem.waiters ==> t !in s.woken)
    && (s.sem.live && s.sem.waiters != [] ==> |s.woken| >= s.sem.level)
    && (!s.sem.live ==> s.sem.waiters == [])
    && s.log.queued == s.log.released + s.sem.waiters
  }

  lemma TestKeepsInv(s: State, t: Tid)
    requires Inv(s) || (Inv(s.(woken := s.woken + {t})) && t !in s.woken)
    requires t !in s.sem.waiters && t !in s.woken
    ensures Inv(TestStep(s, t))
  {
    assert |s.woken + {t}| == |s.woken| + 1;
  }

  lemma PostKeepsInv(s: State)
    requires Inv(s)
    ensures Inv(Next(s, PostCall))
  {
    if s.sem.waiters != [] {
      var w := s.sem.waiters[0];
      assert w in s.sem.waiters;
      assert |s.woken + {w}| == |s.woken| + 1;
      assert s.sem.waiters == [w] + s.sem.waiters[1..];
    }
  }

  lemma NextKeepsInv(s: State, e: Event)
    requires Inv(s)
    ensures Inv(Next(s, e))
  {
    if Enabled(s, e) {
      match e
      case PendCall(t) => TestKeepsInv(s, t);
      case Retest(t) =>
        assert s.woken - {t} + {t} == s.woken;
        TestKeepsInv(s.(woken := s.woken - {t}), t);
      case PostCall => PostKeepsInv(s);
      case TryPendCall =>
      case DestroyCall =>
    }
  }

  lemma StartInv(level: int)
    ensures Inv(Start(level))
  {
  }

  /** In every run: the level is the initial level plus posts minus successful pends and never falls below
      zero (or below a negative initial level); the popped threads are a prefix of the queued ones; and
      whenever threads wait on a live semaphore, at least as many threads are on their way to test it
      again as the level could admit, so no wake-up is lost. */
  lemma {:induction false} EveryRun(level: int, es: seq<Event>)
    ensures Inv(Exec(Start(level), es))
    ensures Exec(Start(level), es).count.initial == level
  {
    if es != [] {
      EveryRun(level, es[..|es| - 1]);
      NextKeepsInv(Exec(Start(level), es[..|es| - 1]), es[|es| - 1]);
    }
  }

  /** When nobody is on the way, a live semaphore has no waiter or nothing to give. */
  lemma NoLostWakeup(level: int, es: seq<Event>)
    ensures var s := Exec(Start(level), es);
      s.sem.live && s.sem.waiters != [] && s.sem.level > 0 ==> s.woken != {}
  {
    EveryRun(level, es);
  }

  function Posts(es: seq<Event>): nat {
    if es == [] then 0 else Posts(es[..|es| - 1]) + (if es[|es| - 1].PostCall? then 1 else 0)
  }

  ghost predicate NeverFull(s: State, es: seq<Event>) {
    forall k :: 0 <= k <= |es| ==> Exec(s, es[..k]).sem.level < INT32_MAX
  }

  // The posts it takes to bring a negative level up to zero.
  function Debt(s: State): nat {
    if s.sem.level < 0 then -s.sem.level else 0
  }

  // What one step does to the two histories and to the debt.
  lemma HistoryStep(s: State, e: Event)
    requires Inv(s) && s.sem.level < INT32_MAX
    ensures var n := Next(s, e);
      && Inv(n) && s.log.queued <= n.log.queued && s.log.released <= n.log.released
      && (s.sem.live && e == PostCall ==> Debt(n) == if Debt(s) > 0 then Debt(s) - 1 else 0)
      && (e != PostCall ==> Debt(n) == Debt(s))
      && (e == PostCall && Debt(s) == 0 && s.sem.waiters != [] ==> |n.log.released| == |s.log.released| + 1)
      && (n.sem.live ==> s.sem.live)
  {
    NextKeepsInv(s, e);
  }

  /** First come, first woken: the waiter at position k has been popped after k + 1 further posts, or as many more as
      the level is below zero, whatever the other threads do meanwhile. */
  lemma {:induction false} BoundedWait(s: State, es: seq<Event>, k: nat)
    requires Inv(s) && k < |s.sem.waiters|
    requires NeverFull(s, es)
    ensures var f := Exec(s, es);
      && Inv(f) && s.log.queued <= f.log.queued && s.log.released <= f.log.released
      && (f.sem.live ==> Debt(f) == if Debt(s) > Posts(es) then Debt(s) - Posts(es) else 0)
      && (Posts(es) > k + Debt(s) || !f.sem.live ==> |f.log.released| > |s.log.released| + k)
      && (Debt(s) <= Posts(es) <= k + Debt(s) ==> |f.log.released| >= |s.log.released| + Posts(es) - Debt(s))
  {
    if es != [] {
      var before, e := es[..|es| - 1], es[|es| - 1];
      forall i | 0 <= i <= |before| ensures Exec(s, before[..i]).sem.level < INT32_MAX {
        assert before[..i] == es[..i];
      }
      BoundedWait(s, before, k);
      assert es[..|before|] == before;
      HistoryStep(Exec(s, before), e);
    }
  }

  // The threads that a live semaphore may have woken.
  function WakesDue(c: Count): nat {
    if c.initial >= 0 then c.posts else if c.posts + c.initial > 0 then c.posts + c.initial else 0
  }

  // One step wakes at most one thread, and only a post that brings the level above zero does.
  lemma WakesStep(s: State, e: Event)
    requires Inv(s)
    ensures var n := Next(s, e);
      n.sem.live ==>
        && s.sem.live && n.count.initial == s.count.initial
        && (n.count.posts == s.count.posts || n.count.posts == s.count.posts + 1)
        && (n.count.posts == s.count.posts ==> n.log.released == s.log.released)
        && (n.count.posts > s.count.posts && n.sem.level <= 0 ==> n.log.released == s.log.released)
        && |n.log.released| <= |s.log.released| + 1
        && (n.sem.level < 0 ==> s.sem.level <= n.sem.level)
  {
    NextKeepsInv(s, e);
  }

  /** A post wakes one thread at most, and none while it only pays for a negative initial level: over every run a
      semaphore that is not destroyed has woken no more threads than it has been posted beyond that debt. */
  lemma {:induction false} WakesBounded(level: int, es: seq<Event>)
    ensures var s := Exec(Start(level), es);
      s.sem.live ==> |s.log.released| <= WakesDue(s.count) && (s.sem.level < 0 ==> s.log.released == [])
  {
    if es != [] {
      var before := es[..|es| - 1];
      EveryRun(level, before);
      EveryRun(level, es);
      WakesBounded(level, before);
      WakesStep(Exec(Start(level), before), es[|es| - 1]);
    }
  }

  /** A destroyed semaphore stays so: it refuses every call, and neither its level nor its histories change. */
  lemma {:induction false} DestroyedForever(s: State, es: seq<Event>)
    requires Inv(s) && !s.sem.live
    ensures var f := Exec(s, es);
      && f.sem == s.sem && f.count == s.count && f.log == s.log && f.woken <= s.woken
      && Post(f.sem).2 == TryPend(f.sem).1 == Uninitialized && Destroy(f.sem).2 == Uninitialized
      && forall t :: PendTest(f.sem, t) == (f.sem, Uninitialized)
  {
    if es != [] {
      DestroyedForever(s, es[..|es| - 1]);
    }
  }
}
