/**
  The scheduler, the semaphores and the mutexes (core/scheduler.c, sync/semaphore.c, sync/mutex.c) in one memory: the
  node of a thread goes from the linked tables of the scheduler to a linked wait queue and back.
 */
module Kernel {

  import opened Basics
  import opened KernelQueue
  import opened Scheduling
  import opened ThreadTables
  import opened Scheduler
  import opened WaitQueue
  import opened Blocking
  import S = Semaphore
  import M = Mutex

  // The threads of a wait queue in the order in which they are popped.
  function Backwards(w: seq<int>): (s: seq<int>)
    ensures |s| == |w| && forall i :: 0 <= i < |s| ==> s[i] == w[|w| - 1 - i]
  {
    seq(|w|, i requires 0 <= i < |w| => w[|w| - 1 - i])
  }

  // The queue at this address is a wait queue beside the tables.
  ghost predicate Beside(k: SchedulerObject, memory: QueueMemory<int>, q: int)
    reads k, k.memory
  {
    k.Valid() && Inv(k.View()) && memory == k.memory && q in k.waits
  }

  lemma QueueBeside(k: SchedulerObject, q: int)
    requires k.Valid() && q in k.waits
    ensures q != NULL && q in k.memory.queues && Order(k.memory, q) == Backwards(k.waits[q])
    ensures forall i, j :: 0 <= i < j < |k.memory.lists[q]| ==> k.memory.lists[q][i] != k.memory.lists[q][j]
  {
    k.WaitAt(q);
    k.QueueDistinct(q);
  }

  // The caller of a CPU is in no table and no wait queue.
  lemma CallerFree(k: SchedulerObject, c: int)
    requires k.Valid() && Inv(k.View()) && Calls(k.View(), c)
    ensures var t := k.Current(c);
      && t in k.threads && t in k.nodeOf && t !in k.blocked && t !in k.lay.where
      && k.nodeOf[t] != NULL && k.nodeOf[t] in k.memory.nodes
      && !k.memory.nodes[k.nodeOf[t]].enlisted && k.memory.nodes[k.nodeOf[t]].data == t
  {
    CallerOk(k.View(), c);
    k.Homeless(k.Current(c));
    k.NotHeld(k.Current(c));
  }

  // ----- One semaphore beside the scheduler -----

  /** One pass of the loop of sem_pend by the thread that CPU c runs: it blocks in the scheduler and enters the wait
      queue, or goes on. */
  method SemTestOn(k: SchedulerObject, o: S.SemaphoreObject, c: int) returns (r: S.Result)
    requires Beside(k, o.memory, o.waitingThreads) && o.Valid() && Calls(k.View(), c)
    requires o.MustWait() ==> k.Current(c) != k.IdleOf(c)
    modifies k`threads, k`lay, k`blocked, k`waits, k.memory, o
    ensures Beside(k, o.memory, o.waitingThreads) && o.Valid()
    ensures (o.View(), r) == S.PendTest(old(o.View()), old(k.Current(c)))
    ensures k.View() == if old(o.MustWait()) then Lock(old(k.View()), c, SemWait).0 else old(k.View())
    ensures if old(o.MustWait()) then OneMore(old(k.blocked), old(k.waits), k.blocked, k.waits, o.waitingThreads,
      old(k.Current(c)))
            else k.blocked == old(k.blocked) && k.waits == old(k.waits)
  {
    assert o as object != k && o as object != k.memory;
    CallerFree(k, c);
    QueueBeside(k, o.waitingThreads);
    var t := k.Current(c);
    if o.MustWait() {
      var thread := k.LockThread(c, SemWait);
      ghost var nodes, lists := k.memory.nodes, k.memory.lists;
      r := o.TestLevel(k.nodeOf[thread]);
      k.NoteEntered(nodes, lists, o.waitingThreads, t);
    } else {
      r := o.TestLevel(k.nodeOf[t]);
    }
  }

  /** sem_post up to the end of its critical section: the thread that has waited longest leaves the wait queue. */
  method SemPostOn(k: SchedulerObject, o: S.SemaphoreObject) returns (node: int, r: S.Result)
    requires Beside(k, o.memory, o.waitingThreads) && o.Valid() && o.semLevel < S.INT32_MAX
    modifies k`lay, k`blocked, k`waits, k.memory, o
    ensures Beside(k, o.memory, o.waitingThreads) && o.Valid() && k.View() == old(k.View())
    ensures node != NULL ==> node in k.memory.nodes && IsNodeOf(k.nodeOf, node, k.memory.nodes[node].data)
    ensures (o.View(), if node == NULL then None else Some(k.memory.nodes[node].data), r) == S.Post(old(o.View()))
    ensures if node == NULL then k.blocked == old(k.blocked) && k.waits == old(k.waits)
            else OneLess(old(k.blocked), old(k.waits), k.blocked, k.waits, o.waitingThreads, k.memory.nodes[node].data)
  {
    assert o as object != k && o as object != k.memory;
    ghost var q := o.waitingThreads;
    QueueBeside(k, q);
    ghost var nodes, lists := k.memory.nodes, k.memory.lists;
    k.WaitAt(q);
    node, r := o.PostOne();
    if node != NULL {
      k.NoteLeft(nodes, lists, q);
    }
  }

  // The node is the scheduling node of the thread, which is what sched_unlock_thread queues.
  ghost predicate IsNodeOf(nodeOf: map<int, int>, node: int, t: int) {
    t in nodeOf && nodeOf[t] == node
  }

  // The thread t has entered the wait queue q, or has been popped from it.
  ghost predicate OneMore(b: map<int, int>, w: map<int, seq<int>>, b': map<int, int>, w': map<int, seq<int>>, q: int,
                          t: int) {
    q in w && b' == b[t := q] && w' == w[q := [t] + w[q]]
  }

  ghost predicate OneLess(b: map<int, int>, w: map<int, seq<int>>, b': map<int, int>, w': map<int, seq<int>>, q: int,
                          t: int) {
    && q in w && w[q] != [] && t == w[q][|w[q]| - 1]
    && b' == b - {t} && w' == w[q := w[q][..|w[q]| - 1]]
  }

  // ----- One mutex beside the scheduler -----

  /** One pass of the loop of mutex_pend, and what follows it when the loop is left, by the thread that CPU c runs. */
  method MutexTestOn(k: SchedulerObject, o: M.MutexObject, c: int) returns (r: M.Result)
    requires Beside(k, o.memory, o.waitingThreads) && o.Valid() && Calls(k.View(), c)
    requires o.MustWait(k.Current(c)) ==> k.Current(c) != k.IdleOf(c)
    modifies k`threads, k`lay, k`blocked, k`waits, k.memory, o
    ensures Beside(k, o.memory, o.waitingThreads) && o.Valid() && o.waitingThreads == old(o.waitingThreads)
    ensures var t := old(k.Current(c));
      var (m, p, a) := M.PendTest(old(o.View()), t, old(k.threads)[t].prio);
      && o.View() == m && r == a
      && k.View() == if old(o.MustWait(t)) then Lock(old(k.View()), c, MutexWait).0
                     else if M.Elevates(old(o.View())) then SetPriority(old(k.View()), c, p).0 else old(k.View())
    ensures var t := old(k.Current(c));
      if old(o.MustWait(t)) then OneMore(old(k.blocked), old(k.waits), k.blocked, k.waits, o.waitingThreads, t)
      else k.blocked == old(k.blocked) && k.waits == old(k.waits)
  {
    assert o as object != k && o as object != k.memory;
    CallerFree(k, c);
    QueueBeside(k, o.waitingThreads);
    var t := k.Current(c);
    var prio := k.threads[t].prio;
    if o.MustWait(t) {
      var thread := k.LockThread(c, MutexWait);
      ghost var nodes, lists := k.memory.nodes, k.memory.lists;
      var next;
      next, r := o.TestState(k.nodeOf[thread], prio);
      k.NoteEntered(nodes, lists, o.waitingThreads, t);
    } else {
      var next;
      next, r := o.TestState(k.nodeOf[t], prio);
      if o.Elevating() {
        var code := k.ChangePriority(c, next);
      }
    }
  }

  /** mutex_post up to the end of its critical section. */
  method MutexPostOn(k: SchedulerObject, o: M.MutexObject, c: int) returns (node: int)
    requires Beside(k, o.memory, o.waitingThreads) && o.Valid() && Calls(k.View(), c) && 0 <= o.acquiredThreadPriority
    modifies k`threads, k`lay, k`blocked, k`waits, k.memory, o
    ensures Beside(k, o.memory, o.waitingThreads) && o.Valid() && o.waitingThreads == old(o.waitingThreads)
    ensures node != NULL ==> node in k.memory.nodes && IsNodeOf(k.nodeOf, node, k.memory.nodes[node].data)
    ensures var t := old(k.Current(c));
      var (m, p, w) := M.Post(old(o.View()), old(k.threads)[t].prio);
      && o.View() == m && w == (if node == NULL then None else Some(k.memory.nodes[node].data))
      && k.View() == if M.Elevates(old(o.View())) then SetPriority(old(k.View()), c, p).0 else old(k.View())
    ensures if node == NULL then k.blocked == old(k.blocked) && k.waits == old(k.waits)
            else OneLess(old(k.blocked), old(k.waits), k.blocked, k.waits, o.waitingThreads, k.memory.nodes[node].data)
  {
    assert o as object != k && o as object != k.memory;
    CallerFree(k, c);
    var elevating := o.Elevating();
    var next;
    next, node := MutexPop(k, o, k.threads[k.Current(c)].prio);
    if elevating {
      var code := k.ChangePriority(c, next);
    }
  }

  method MutexPop(k: SchedulerObject, o: M.MutexObject, prio: int) returns (next: int, node: int)
    requires Beside(k, o.memory, o.waitingThreads) && o.Valid()
    modifies k`lay, k`blocked, k`waits, k.memory, o
    ensures Beside(k, o.memory, o.waitingThreads) && o.Valid() && o.waitingThreads == old(o.waitingThreads)
    ensures k.View() == old(k.View())
    ensures node != NULL ==> node in k.memory.nodes && IsNodeOf(k.nodeOf, node, k.memory.nodes[node].data)
    ensures (o.View(), next, if node == NULL then None else Some(k.memory.nodes[node].data)) ==
      M.Post(old(o.View()), prio)
    ensures if node == NULL then k.blocked == old(k.blocked) && k.waits == old(k.waits)
            else OneLess(old(k.blocked), old(k.waits), k.blocked, k.waits, o.waitingThreads, k.memory.nodes[node].data)
  {
    assert o as object != k && o as object != k.memory;
    ghost var q := o.waitingThreads;
    QueueBeside(k, q);
    k.WaitAt(q);
    ghost var nodes, lists := k.memory.nodes, k.memory.lists;
    next, node := o.PostOne(prio);
    if node != NULL {
      k.NoteLeft(nodes, lists, q);
    }
  }

  // ----- The joint step machine -----

  // The scheduler stands for the joint state: the same threads and tables, and whoever is in a wait queue is queued
  // there.
  ghost predicate Coupled(k: SchedulerObject, j: Joint)
    reads k, k.memory
  {
    k.Valid() && JointInv(j) && j.sched == k.View() && QueuedOnly(k.blocked, j.role)
  }

  ghost predicate QueuedOnly(blocked: map<int, int>, role: map<int, Role>) {
    forall t :: t in blocked ==> t in role && role[t].Queued?
  }

  // The object stands for a semaphore, or a mutex, of the joint state.
  ghost predicate SemStands(k: SchedulerObject, o: S.SemaphoreObject, j: Joint, id: int)
    reads k, o
  {
    o.memory == k.memory && SemIs(o.semLevel, o.init, o.waitingThreads, k.waits, j, id)
  }

  ghost predicate SemIs(level: int, init: bool, q: int, waits: map<int, seq<int>>, j: Joint, id: int) {
    q in waits && id in j.sems && j.sems[id].sem == S.Sem(level, init, Backwards(waits[q]))
  }

  ghost predicate MutexStands(k: SchedulerObject, o: M.MutexObject, j: Joint, id: int)
    reads k, o
  {
    && o.memory == k.memory
    && MutexIs(o.state, o.waitingThreads, M.Owner(o.lockerTid, o.acquiredThreadPriority), M.FlagsOf(o.flags), k.waits,
       j, id)
  }

  ghost predicate MutexIs(state: int, q: int, owner: M.Owner, flags: M.Flags, waits: map<int, seq<int>>, j: Joint,
                          id: int) {
    q in waits && id in j.mutexes && j.mutexes[id] == M.Mutex(state, Backwards(waits[q]), owner, flags)
  }

  lemma SemReady(k: SchedulerObject, o: S.SemaphoreObject, j: Joint, id: int)
    requires k.Valid() && o.memory == k.memory && o.waitingThreads in k.waits && id in j.sems
    ensures o.Valid() && (SemStands(k, o, j, id) <==> j.sems[id].sem == o.View())
  {
    QueueBeside(k, o.waitingThreads);
  }

  lemma MutexReady(k: SchedulerObject, o: M.MutexObject, j: Joint, id: int)
    requires k.Valid() && o.memory == k.memory && o.waitingThreads in k.waits && id in j.mutexes
    ensures o.Valid() && (MutexStands(k, o, j, id) <==> j.mutexes[id] == o.View())
  {
    QueueBeside(k, o.waitingThreads);
  }

  // The joint state n after a test by the caller of CPU c.
  ghost predicate SemTested(j: Joint, n: Joint, c: int, id: int) {
    && JointInv(n) && id in j.sems && id in n.sems && Active(j.sched, c) in j.sched.threads
    && n.sems[id].sem == S.PendTest(j.sems[id].sem, Active(j.sched, c)).0
    && (SemBlocks(j, c, id) ==> Active(j.sched, c) != Idle(j.sched, c))
    && n.sched == (if SemBlocks(j, c, id) then Lock(j.sched, c, SemWait).0 else j.sched)
    && OnlyRoleOf(j.role, n.role, Active(j.sched, c))
    && (SemBlocks(j, c, id) ==> Active(j.sched, c) in n.role && n.role[Active(j.sched, c)].Queued?)
  }

  ghost predicate OnlyRoleOf(role: map<int, Role>, role': map<int, Role>, t: int) {
    forall u :: u in role && u != t ==> u in role' && role'[u] == role[u]
  }

  lemma SemTestStep(j: Joint, c: int, id: int)
    requires JointInv(j) && May(j, SemTest(c, id))
    ensures SemTested(j, Do(j, SemTest(c, id)), c, id)
  {
    TestAllowed(j, c, id);
    ActKeeps(j, SemTest(c, id));
  }

  // A thread that has become queued, and one that is in no wait queue and has a new role.
  lemma QueuedStays(b: map<int, int>, w: map<int, seq<int>>, b': map<int, int>, w': map<int, seq<int>>, q: int, t: int,
                    role: map<int, Role>, role': map<int, Role>)
    requires QueuedOnly(b, role) && OnlyRoleOf(role, role', t)
    requires || (OneMore(b, w, b', w', q, t) && t in role' && role'[t].Queued?)
             || (b' == b && w' == w && t !in b)
             || OneLess(b, w, b', w', q, t)
    ensures QueuedOnly(b', role') && OthersWait(w, w', q)
  {
  }

  method SemTestTo(k: SchedulerObject, o: S.SemaphoreObject, c: int, ghost j: Joint, ghost n: Joint, ghost id: int)
    returns (r: S.Result)
    requires Coupled(k, j) && SemStands(k, o, j, id) && Calls(j.sched, c) && SemTested(j, n, c, id)
    modifies k`threads, k`lay, k`blocked, k`waits, k.memory, o
    ensures Coupled(k, n) && SemStands(k, o, n, id)
    ensures r == S.PendTest(j.sems[id].sem, Active(j.sched, c)).1
    ensures OthersWait(old(k.waits), k.waits, o.waitingThreads)
  {
    ghost var b, w, t := k.blocked, k.waits, k.Current(c);
    CallerFree(k, c);
    SemReady(k, o, j, id);
    r := SemTestOn(k, o, c);
    QueuedStays(b, w, k.blocked, k.waits, o.waitingThreads, t, j.role, n.role);
    SemReady(k, o, n, id);
  }

  // Every other wait queue is as it was.
  ghost predicate OthersWait(was: map<int, seq<int>>, now: map<int, seq<int>>, q: int) {
    forall p :: p in was && p != q ==> p in now && now[p] == was[p]
  }

  // ----- A post -----

  // The joint state n after a post that pops the thread t, or none.
  ghost predicate Posted(j: Joint, n: Joint, sp: Spot, w: Option<int>) {
    && JointInv(n) && n.role.Keys >= j.role.Keys && (w == None ==> n.role == j.role)
    && (w.Some? ==> OnlyRoleOf(j.role, n.role, w.value) && w.value in n.role && n.role[w.value] == Popped(sp))
  }

  lemma SemPostStep(j: Joint, id: int)
    requires JointInv(j) && May(j, SemPost(id))
    ensures var n := Do(j, SemPost(id));
      && Posted(j, n, OnSem(id), S.Post(j.sems[id].sem).1) && n.sched == j.sched
      && id in n.sems && n.sems[id].sem == S.Post(j.sems[id].sem).0
  {
    ActKeeps(j, SemPost(id));
  }

  method SemPostTo(k: SchedulerObject, o: S.SemaphoreObject, ghost j: Joint, ghost n: Joint, ghost id: int)
    returns (popped: Option<int>)
    requires Coupled(k, j) && SemStands(k, o, j, id) && o.semLevel < S.INT32_MAX && n.sched == j.sched
    requires Posted(j, n, OnSem(id), S.Post(j.sems[id].sem).1) && id in n.sems
      && n.sems[id].sem == S.Post(j.sems[id].sem).0
    modifies k`lay, k`blocked, k`waits, k.memory, o
    ensures Coupled(k, n) && SemStands(k, o, n, id)
    ensures popped == S.Post(j.sems[id].sem).1
    ensures OthersWait(old(k.waits), k.waits, o.waitingThreads)
  {
    ghost var b, w := k.blocked, k.waits;
    SemReady(k, o, j, id);
    var node, r := SemPostOn(k, o);
    popped := None;
    if node != NULL {
      popped := Some(k.memory.nodes[node].data);
      QueuedStays(b, w, k.blocked, k.waits, o.waitingThreads, k.memory.nodes[node].data, j.role, n.role);
    }
    SemReady(k, o, n, id);
  }

  /** sched_unlock_thread of a popped thread succeeds and is the step of the joint machine. */
  method HandsBack(k: SchedulerObject, c: int, t: int, why: WaitType, ghost j: Joint)
    returns (code: Code, ghost n: Joint)
    requires Coupled(k, j) && t in j.role && j.role[t].Popped? && why == Reason(j.role[t].spot)
    modifies k`threads, k`lay, k.memory
    ensures May(j, HandBack(c, t)) && n == Do(j, HandBack(c, t)) && code == Done && Coupled(k, n)
  {
    n := Do(j, HandBack(c, t));
    HandBackSucceeds(j, c, t);
    ActKeeps(j, HandBack(c, t));
    code := k.UnlockThread(c, t, why);
  }

  /** A scheduling pass, with threads in any number of wait queues, is the step of the joint machine. */
  method Schedules(k: SchedulerObject, c: int, now: int, ghost j: Joint) returns (code: Code, ghost n: Joint)
    requires Coupled(k, j) && Active(j.sched, c) in j.sched.threads
    modifies k`threads, k`lay, k`activeThread, k.memory
    ensures May(j, Other(PassEvent(c, now))) && n == Do(j, Other(PassEvent(c, now))) && code == Done && Coupled(k, n)
  {
    ActKeeps(j, Other(PassEvent(c, now)));
    n := Do(j, Other(PassEvent(c, now)));
    code := SchedulesTo(k, c, now, j, n);
  }

  method SchedulesTo(k: SchedulerObject, c: int, now: int, ghost j: Joint, ghost n: Joint) returns (code: Code)
    requires Coupled(k, j) && Active(j.sched, c) in j.sched.threads
    requires JointInv(n) && n.sched == Pass(j.sched, c, now).0 && n.role == j.role
    modifies k`threads, k`lay, k`activeThread, k.memory
    ensures code == Done && Coupled(k, n)
  {
    code := k.SelectThread(c, now);
  }

  // ----- The same for a mutex -----

  ghost predicate MutexTested(j: Joint, n: Joint, c: int, id: int) {
    && JointInv(n) && id in j.mutexes && id in n.mutexes && Active(j.sched, c) in j.sched.threads
    && var (m, p, r) := M.PendTest(j.mutexes[id], Active(j.sched, c), Me(j.sched, c).prio);
      && n.mutexes[id] == m && (r == M.Blocked <==> MutexBlocks(j, c, id))
      && n.sched == (if r == M.Blocked then Lock(j.sched, c, MutexWait).0
                     else if M.Elevates(j.mutexes[id]) then SetPriority(j.sched, c, p).0 else j.sched)
      && (r == M.Blocked ==> Active(j.sched, c) != Idle(j.sched, c))
      && OnlyRoleOf(j.role, n.role, Active(j.sched, c))
      && (r == M.Blocked ==> Active(j.sched, c) in n.role && n.role[Active(j.sched, c)].Queued?)
  }

  lemma MutexTestStep(j: Joint, c: int, id: int)
    requires JointInv(j) && May(j, MutexTest(c, id))
    ensures MutexTested(j, Do(j, MutexTest(c, id)), c, id)
  {
    ActKeeps(j, MutexTest(c, id));
  }

  method MutexTestTo(k: SchedulerObject, o: M.MutexObject, c: int, ghost j: Joint, ghost n: Joint, ghost id: int)
    returns (r: M.Result)
    requires Coupled(k, j) && MutexStands(k, o, j, id) && Calls(j.sched, c) && MutexTested(j, n, c, id)
    modifies k`threads, k`lay, k`blocked, k`waits, k.memory, o
    ensures Coupled(k, n) && MutexStands(k, o, n, id) && (r == M.Blocked <==> MutexBlocks(j, c, id))
    ensures OthersWait(old(k.waits), k.waits, o.waitingThreads) && o.waitingThreads == old(o.waitingThreads)
  {
    ghost var b, w, t := k.blocked, k.waits, k.Current(c);
    CallerFree(k, c);
    MutexReady(k, o, j, id);
    r := MutexTestOn(k, o, c);
    QueuedStays(b, w, k.blocked, k.waits, o.waitingThreads, t, j.role, n.role);
    MutexReady(k, o, n, id);
  }

  lemma MutexPostStep(j: Joint, c: int, id: int)
    requires JointInv(j) && May(j, MutexPost(c, id))
    ensures MutexPosted(j, Do(j, MutexPost(c, id)), c, id)
  {
    ActKeeps(j, MutexPost(c, id));
  }

  ghost predicate MutexPosted(j: Joint, n: Joint, c: int, id: int) {
    && id in j.mutexes && id in n.mutexes && Active(j.sched, c) in j.sched.threads
    && var (m, p, w) := M.Post(j.mutexes[id], Me(j.sched, c).prio);
      && Posted(j, n, OnMutex(id), w) && n.mutexes[id] == m && 0 <= j.mutexes[id].owner.savedPriority
      && n.sched == if M.Elevates(j.mutexes[id]) then SetPriority(j.sched, c, p).0 else j.sched
  }

  method MutexPostTo(k: SchedulerObject, o: M.MutexObject, c: int, ghost j: Joint, ghost n: Joint, ghost id: int)
    returns (popped: Option<int>, due: bool)
    requires Coupled(k, j) && MutexStands(k, o, j, id) && Calls(j.sched, c) && MutexPosted(j, n, c, id)
    modifies k`threads, k`lay, k`blocked, k`waits, k.memory, o
    ensures Coupled(k, n) && MutexStands(k, o, n, id)
    ensures popped == M.Post(j.mutexes[id], Me(j.sched, c).prio).2 && due == (popped.Some? || M.Elevates(j.mutexes[id]))
    ensures OthersWait(old(k.waits), k.waits, o.waitingThreads) && o.waitingThreads == old(o.waitingThreads)
  {
    ghost var b, w := k.blocked, k.waits;
    MutexReady(k, o, j, id);
    due := o.Elevating();
    var node := MutexPostOn(k, o, c);
    popped := None;
    if node != NULL {
      popped, due := Some(k.memory.nodes[node].data), true;
      QueuedStays(b, w, k.blocked, k.waits, o.waitingThreads, k.memory.nodes[node].data, j.role, n.role);
    }
    MutexReady(k, o, n, id);
  }

  /** Every other call of the scheduler keeps the coupling: its methods change no wait queue. */
  lemma CallCoupled(k: SchedulerObject, j: Joint, e: Step)
    requires JointInv(j) && Unrelated(j, e) && k.Valid() && k.View() == Next(j.sched, e)
      && QueuedOnly(k.blocked, j.role)
    ensures May(j, Other(e)) && Coupled(k, Do(j, Other(e)))
  {
    ActKeeps(j, Other(e));
  }

  // ----- Whole calls -----

  lemma OneAct(j: Joint, a: Act)
    requires May(j, a)
    ensures Follows(j, [a]) && End(j, [a]) == Do(j, a)
  {
    assert [a][1..] == [];
  }

  lemma {:induction false} ThenActs(j: Joint, a: seq<Act>, b: seq<Act>)
    requires Follows(j, a) && Follows(End(j, a), b)
    ensures Follows(j, a + b) && End(j, a + b) == End(End(j, a), b)
    decreases |a|
  {
    if a == [] {
      assert a + b == b;
    } else {
      ThenActs(Do(j, a[0]), a[1..], b);
      assert (a + b)[1..] == a[1..] + b;
    }
  }

  lemma ThenAct(j: Joint, a: seq<Act>, b: Act)
    requires Follows(j, a) && May(End(j, a), b)
    ensures Follows(j, a + [b]) && End(j, a + [b]) == Do(End(j, a), b)
  {
    OneAct(End(j, a), b);
    ThenActs(j, a, [b]);
  }

  // The steps of one round of a pend: the test, and a scheduling pass when it blocks.
  function PendActs(test: Act, blocks: bool, c: int, now: int): seq<Act> {
    [test] + PassIf(blocks, c, now)
  }

  // The steps of a post: the post, the unlock of the popped thread, and a scheduling pass if one is due.
  function PostActs(post: Act, popped: Option<int>, passes: bool, c: int, now: int): seq<Act> {
    [post] + HandIf(popped, c) + PassIf(passes, c, now)
  }

  function HandIf(popped: Option<int>, c: int): seq<Act> {
    if popped.Some? then [HandBack(c, popped.value)] else []
  }

  // The joint state n is reached by these steps.
  ghost predicate Reaches(j: Joint, acts: seq<Act>, n: Joint) {
    Follows(j, acts) && n == End(j, acts)
  }

  lemma ReachesOn(j: Joint, acts: seq<Act>, m: Joint, a: Act)
    requires Reaches(j, acts, m) && May(m, a)
    ensures Reaches(j, acts + [a], Do(m, a))
  {
    ThenAct(j, acts, a);
  }

  /** sched_schedule after other steps, if it is due. */
  method ThenSchedules(k: SchedulerObject, due: bool, c: int, now: int, ghost j: Joint, ghost acts: seq<Act>,
                       ghost m: Joint)
    returns (ghost n: Joint)
    requires Coupled(k, m) && Reaches(j, acts, m) && (due ==> Active(m.sched, c) in m.sched.threads)
    modifies k`threads, k`lay, k`activeThread, k.memory
    ensures Coupled(k, n) && Reaches(j, acts + PassIf(due, c, now), n) && SameObjects(m, n)
    ensures k.waits == old(k.waits)
  {
    n := m;
    if due {
      var code;
      code, n := Schedules(k, c, now, m);
      ReachesOn(j, acts, m, Other(PassEvent(c, now)));
    } else {
      assert acts + [] == acts;
    }
  }

  function PassIf(due: bool, c: int, now: int): seq<Act> {
    if due then [Other(PassEvent(c, now))] else []
  }

  // The semaphores and mutexes are as they were.
  ghost predicate SameObjects(m: Joint, n: Joint) {
    n.sems == m.sems && n.mutexes == m.mutexes
  }

  // One round of sem_pend, for the joint state m after the test.
  method SemPendTo(k: SchedulerObject, o: S.SemaphoreObject, c: int, now: int, ghost j: Joint, ghost m: Joint,
                   ghost id: int)
    returns (r: S.Result, ghost n: Joint)
    requires Coupled(k, j) && SemStands(k, o, j, id) && Calls(j.sched, c) && SemTested(j, m, c, id)
      && Reaches(j, [SemTest(c, id)], m)
    requires Active(m.sched, c) in m.sched.threads
    modifies k`threads, k`lay, k`blocked, k`waits, k`activeThread, k.memory, o
    ensures r == S.PendTest(j.sems[id].sem, Active(j.sched, c)).1
    ensures Reaches(j, PendActs(SemTest(c, id), r == S.Blocked, c, now), n)
    ensures Coupled(k, n) && SemStands(k, o, n, id) && OthersWait(old(k.waits), k.waits, o.waitingThreads)
  {
    assert o as object != k && o as object != k.memory;
    r := SemTestTo(k, o, c, j, m, id);
    n := ThenSchedules(k, r == S.Blocked, c, now, j, [SemTest(c, id)], m);
  }

  /** One round of sem_pend: the test by the caller of CPU c, and sched_schedule when it blocks. Whatever the tables and
      the other wait queues hold, the linked structures go through steps of the joint machine. */
  method SemPend(k: SchedulerObject, o: S.SemaphoreObject, c: int, now: int, ghost j: Joint, ghost id: int)
    returns (r: S.Result, ghost n: Joint)
    requires Coupled(k, j) && SemStands(k, o, j, id) && May(j, SemTest(c, id))
    modifies k`threads, k`lay, k`blocked, k`waits, k`activeThread, k.memory, o
    ensures r == S.PendTest(j.sems[id].sem, Active(j.sched, c)).1
    ensures Reaches(j, PendActs(SemTest(c, id), r == S.Blocked, c, now), n)
    ensures Coupled(k, n) && SemStands(k, o, n, id) && OthersWait(old(k.waits), k.waits, o.waitingThreads)
  {
    SemTestStep(j, c, id);
    OneAct(j, SemTest(c, id));
    r, n := SemPendTo(k, o, c, now, j, Do(j, SemTest(c, id)), id);
  }

  /** One round of mutex_pend. */
  method MutexPend(k: SchedulerObject, o: M.MutexObject, c: int, now: int, ghost j: Joint, ghost id: int)
    returns (r: M.Result, ghost n: Joint)
    requires Coupled(k, j) && MutexStands(k, o, j, id) && May(j, MutexTest(c, id))
    modifies k`threads, k`lay, k`blocked, k`waits, k`activeThread, k.memory, o
    ensures r == M.Blocked <==> MutexBlocks(j, c, id)
    ensures Reaches(j, PendActs(MutexTest(c, id), r == M.Blocked, c, now), n)
    ensures Coupled(k, n) && MutexStands(k, o, n, id) && OthersWait(old(k.waits), k.waits, o.waitingThreads)
  {
    MutexTestStep(j, c, id);
    OneAct(j, MutexTest(c, id));
    r, n := MutexPendTo(k, o, c, now, j, Do(j, MutexTest(c, id)), id);
  }

  method MutexPendTo(k: SchedulerObject, o: M.MutexObject, c: int, now: int, ghost j: Joint, ghost m: Joint,
                     ghost id: int)
    returns (r: M.Result, ghost n: Joint)
    requires Coupled(k, j) && MutexStands(k, o, j, id) && Calls(j.sched, c) && MutexTested(j, m, c, id)
      && Reaches(j, [MutexTest(c, id)], m)
    requires Active(m.sched, c) in m.sched.threads
    modifies k`threads, k`lay, k`blocked, k`waits, k`activeThread, k.memory, o
    ensures r == M.Blocked <==> MutexBlocks(j, c, id)
    ensures Reaches(j, PendActs(MutexTest(c, id), r == M.Blocked, c, now), n)
    ensures Coupled(k, n) && MutexStands(k, o, n, id) && OthersWait(old(k.waits), k.waits, o.waitingThreads)
    ensures o.waitingThreads == old(o.waitingThreads)
  {
    assert o as object != k && o as object != k.memory;
    r := MutexTestTo(k, o, c, j, m, id);
    n := ThenSchedules(k, r == M.Blocked, c, now, j, [MutexTest(c, id)], m);
  }

  /** sched_unlock_thread after other steps, if a thread has been popped: it always succeeds. */
  method ThenHandsBack(k: SchedulerObject, popped: Option<int>, why: WaitType, c: int, ghost j: Joint,
                       ghost acts: seq<Act>, ghost m: Joint)
    returns (ghost n: Joint)
    requires Coupled(k, m) && Reaches(j, acts, m)
    requires popped.Some? ==>
      popped.value in m.role && m.role[popped.value].Popped? && why == Reason(m.role[popped.value].spot)
    modifies k`threads, k`lay, k.memory
    ensures Coupled(k, n) && Reaches(j, acts + HandIf(popped, c), n) && SameObjects(m, n)
    ensures Active(n.sched, c) == Active(m.sched, c) && n.sched.threads.Keys == m.sched.threads.Keys
  {
    n := m;
    if popped.Some? {
      var code;
      code, n := HandsBack(k, c, popped.value, why, m);
      ReachesOn(j, acts, m, HandBack(c, popped.value));
    } else {
      assert acts + [] == acts;
    }
  }

  // What follows the critical section of a post.
  method Wakes(k: SchedulerObject, popped: Option<int>, why: WaitType, due: bool, c: int, now: int, ghost j: Joint,
               ghost post: Act, ghost m: Joint)
    returns (ghost n: Joint)
    requires Coupled(k, m) && Reaches(j, [post], m) && (due ==> Active(m.sched, c) in m.sched.threads)
    requires popped.Some? ==>
      popped.value in m.role && m.role[popped.value].Popped? && why == Reason(m.role[popped.value].spot)
    modifies k`threads, k`lay, k`activeThread, k.memory
    ensures Coupled(k, n) && Reaches(j, PostActs(post, popped, due, c, now), n) && SameObjects(m, n)
    ensures k.waits == old(k.waits)
  {
    n := ThenHandsBack(k, popped, why, c, j, [post], m);
    n := ThenSchedules(k, due, c, now, j, [post] + HandIf(popped, c), n);
  }

  /** sem_post: the post, the unlock of the thread it pops, and the scheduling pass that the unlock raises outside of
      interrupt handlers. */
  method SemPosts(k: SchedulerObject, o: S.SemaphoreObject, c: int, now: int, inHandler: bool, ghost j: Joint,
                  ghost id: int)
    returns (ghost n: Joint)
    requires Coupled(k, j) && SemStands(k, o, j, id) && May(j, SemPost(id))
      && (!inHandler ==> Active(j.sched, c) in j.sched.threads)
    modifies k`threads, k`lay, k`blocked, k`waits, k`activeThread, k.memory, o
    ensures var w := S.Post(j.sems[id].sem).1; Reaches(j, PostActs(SemPost(id), w, w.Some? && !inHandler, c, now), n)
    ensures Coupled(k, n) && SemStands(k, o, n, id) && OthersWait(old(k.waits), k.waits, o.waitingThreads)
  {
    SemPostStep(j, id);
    OneAct(j, SemPost(id));
    n := SemPostsTo(k, o, c, now, inHandler, j, Do(j, SemPost(id)), id);
  }

  method SemPostsTo(k: SchedulerObject, o: S.SemaphoreObject, c: int, now: int, inHandler: bool, ghost j: Joint,
                    ghost m: Joint, ghost id: int)
    returns (ghost n: Joint)
    requires Coupled(k, j) && SemStands(k, o, j, id) && o.semLevel < S.INT32_MAX && m.sched == j.sched
      && Reaches(j, [SemPost(id)], m)
    requires Posted(j, m, OnSem(id), S.Post(j.sems[id].sem).1) && id in m.sems
      && m.sems[id].sem == S.Post(j.sems[id].sem).0
    requires !inHandler ==> Active(j.sched, c) in j.sched.threads
    modifies k`threads, k`lay, k`blocked, k`waits, k`activeThread, k.memory, o
    ensures var w := S.Post(j.sems[id].sem).1; Reaches(j, PostActs(SemPost(id), w, w.Some? && !inHandler, c, now), n)
    ensures Coupled(k, n) && SemStands(k, o, n, id) && OthersWait(old(k.waits), k.waits, o.waitingThreads)
  {
    assert o as object != k && o as object != k.memory;
    var popped := SemPostTo(k, o, j, m, id);
    n := Wakes(k, popped, SemWait, popped.Some? && !inHandler, c, now, j, SemPost(id), m);
  }

  /** mutex_post: the post, the unlock of the thread it pops, and a scheduling pass when it has popped one or given a
      priority back. */
  method MutexPosts(k: SchedulerObject, o: M.MutexObject, c: int, now: int, ghost j: Joint, ghost id: int)
    returns (ghost n: Joint)
    requires Coupled(k, j) && MutexStands(k, o, j, id) && May(j, MutexPost(c, id))
    modifies k`threads, k`lay, k`blocked, k`waits, k`activeThread, k.memory, o
    ensures var w := M.Post(j.mutexes[id], Me(j.sched, c).prio).2;
      Reaches(j, PostActs(MutexPost(c, id), w, w.Some? || M.Elevates(j.mutexes[id]), c, now), n)
    ensures Coupled(k, n) && MutexStands(k, o, n, id) && OthersWait(old(k.waits), k.waits, o.waitingThreads)
  {
    MutexPostStep(j, c, id);
    OneAct(j, MutexPost(c, id));
    ghost var w := M.Post(j.mutexes[id], Me(j.sched, c).prio).2;
    n := MutexPostsTo(k, o, c, now, j, Do(j, MutexPost(c, id)), id, w, w.Some? || M.Elevates(j.mutexes[id]));
  }

  // The same for the joint state m after the post, the thread it pops and whether a pass is due.
  method MutexPostsTo(k: SchedulerObject, o: M.MutexObject, c: int, now: int, ghost j: Joint, ghost m: Joint,
                      ghost id: int, ghost w: Option<int>, ghost d: bool) returns (ghost n: Joint)
    requires Coupled(k, j) && MutexStands(k, o, j, id) && Calls(j.sched, c) && MutexPosted(j, m, c, id)
    requires Reaches(j, [MutexPost(c, id)], m) && Active(m.sched, c) in m.sched.threads
    requires w == M.Post(j.mutexes[id], Me(j.sched, c).prio).2 && d == (w.Some? || M.Elevates(j.mutexes[id]))
    modifies k`threads, k`lay, k`blocked, k`waits, k`activeThread, k.memory, o
    ensures Reaches(j, PostActs(MutexPost(c, id), w, d, c, now), n)
    ensures Coupled(k, n) && MutexStands(k, o, n, id) && OthersWait(old(k.waits), k.waits, o.waitingThreads)
  {
    assert o as object != k && o as object != k.memory;
    var popped, due := MutexPostTo(k, o, c, j, m, id);
    n := Wakes(k, popped, MutexWait, due, c, now, j, MutexPost(c, id), m);
  }

  // ----- From the start -----

  /** A scheduler without wait queues stands for the joint state without semaphores and mutexes. */
  lemma StartCoupled(k: SchedulerObject)
    requires k.Valid() && Inv(k.View()) && k.waits == map[]
    requires forall t :: t in k.threads ==> k.threads[t].state != Waiting
    ensures Coupled(k, Joint(k.View(), map[], map[], map[]))
  {
    var j := Joint(k.View(), map[], map[], map[]);
    forall t ensures Fits(j.sched, j.role, t) {}
  }

  // A new semaphore, or mutex, and nothing else.
  ghost predicate Created(j: Joint, n: Joint) {
    JointInv(n) && n.sched == j.sched && n.role == j.role
  }

  /** sem_init of a new semaphore, with the queue that kernel_queue_create_queue delivers. */
  method CreateSemaphore(k: SchedulerObject, queue: int, level: int, ghost j: Joint, ghost id: int)
    returns (o: S.SemaphoreObject, ghost n: Joint)
    requires Coupled(k, j) && May(j, SemInit(id, level)) && queue != NULL && queue !in k.memory.queues
    modifies k`lay, k`waits, k.memory
    ensures n == Do(j, SemInit(id, level)) && Coupled(k, n) && SemStands(k, o, n, id)
    ensures k.waits == old(k.waits)[queue := []]
  {
    ActKeeps(j, SemInit(id, level));
    n := Do(j, SemInit(id, level));
    o := CreateSemaphoreTo(k, queue, level, j, n);
  }

  method CreateSemaphoreTo(k: SchedulerObject, queue: int, level: int, ghost j: Joint, ghost n: Joint)
    returns (o: S.SemaphoreObject)
    requires Coupled(k, j) && Created(j, n) && queue != NULL && queue !in k.memory.queues
    modifies k`lay, k`waits, k.memory
    ensures Coupled(k, n) && k.waits == old(k.waits)[queue := []]
    ensures o.memory == k.memory && o.waitingThreads == queue && o.semLevel == level && o.init
  {
    ghost var lists := k.memory.lists;
    o := new S.SemaphoreObject(k.memory, queue, level);
    k.NoteCreated(lists, queue);
  }

  /** mutex_init of a new mutex: refused with no change for a priority out of range. */
  method CreateMutex(k: SchedulerObject, queue: int, flags: nat, priority: nat, ghost j: Joint, ghost id: int)
    returns (o: M.MutexObject, r: M.Result, ghost n: Joint)
    requires Coupled(k, j) && queue != NULL && queue !in k.memory.queues && flags < W32 && priority <= 0xFFFF
    requires May(j, MutexInit(id, M.FlagsOf(M.Or(flags, priority * 256, 32))))
    modifies k`lay, k`waits, k.memory
    ensures r == M.ForbiddenPriority ==> n == j && k.waits == old(k.waits)
    ensures r != M.ForbiddenPriority ==>
      && n == Do(j, MutexInit(id, M.FlagsOf(M.Or(flags, priority * 256, 32)))) && k.waits == old(k.waits)[queue := []]
      && MutexStands(k, o, n, id)
    ensures Coupled(k, n)
  {
    ghost var f := M.FlagsOf(M.Or(flags, priority * 256, 32));
    ActKeeps(j, MutexInit(id, f));
    n := Do(j, MutexInit(id, f));
    o, r := CreateMutexTo(k, queue, flags, priority, j, n);
    if r == M.ForbiddenPriority { n := j; }
  }

  method CreateMutexTo(k: SchedulerObject, queue: int, flags: nat, priority: nat, ghost j: Joint, ghost n: Joint)
    returns (o: M.MutexObject, r: M.Result)
    requires Coupled(k, j) && Created(j, n) && queue != NULL && queue !in k.memory.queues && flags < W32
      && priority <= 0xFFFF
    modifies k`lay, k`waits, k.memory
    ensures r == M.ForbiddenPriority ==> Coupled(k, j) && k.waits == old(k.waits)
    ensures r != M.ForbiddenPriority ==>
      && Coupled(k, n) && k.waits == old(k.waits)[queue := []] && o.memory == k.memory
      && o.waitingThreads == queue && o.state == 1 && o.lockerTid == 0 && o.acquiredThreadPriority == 0
      && M.FlagsOf(o.flags) == M.FlagsOf(M.Or(flags, priority * 256, 32))
  {
    ghost var lists := k.memory.lists;
    o := new M.MutexObject(k.memory);
    r := o.Init(flags, priority, queue);
    if r != M.ForbiddenPriority {
      k.NoteCreated(lists, queue);
      QueueBeside(k, queue);
    }
  }
}
