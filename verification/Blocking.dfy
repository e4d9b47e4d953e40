/**
  Semaphores and mutexes (sync/semaphore.c, sync/mutex.c) together with the scheduler. A thread that blocks is taken
  from the scheduler and put in a wait queue. A post takes it out of the queue inside the critical section of the
  semaphore or mutex, and hands it back to the scheduler after it: between the two, other CPUs may take any step.
 */
module Blocking {

  import opened Basics
  import opened Scheduling
  import S = Semaphore
  import M = Mutex
  import SchedulingRuns

  // A semaphore or a mutex, by its address.
  datatype Spot = OnSem(id: int) | OnMutex(id: int)

  // Where a thread stands in a pend: in the wait queue, popped and not yet handed back to the scheduler, or handed back
  // and due to test again. A thread without a role is in no pend.
  datatype Role = Queued(spot: Spot) | Popped(spot: Spot) | Testing(spot: Spot)

  datatype Joint = Joint(sched: Sched, sems: map<int, S.State>, mutexes: map<int, M.Mutex>, role: map<int, Role>)

  datatype Act =
    | SemInit(id: int, level: int)
    | MutexInit(id: int, flags: M.Flags)
    | SemTest(cpu: int, id: int)
    | SemTry(cpu: int, id: int)
    | SemPost(id: int)
    | SemDestroy(id: int)
    | MutexTest(cpu: int, id: int)
    | MutexTry(cpu: int, id: int)
    | MutexPost(cpu: int, id: int)
    | HandBack(cpu: int, thread: int)
    | Other(step: Step)

  function Reason(sp: Spot): WaitType {
    match sp
    case OnSem(_) => SemWait
    case OnMutex(_) => MutexWait
  }

  // CPU c runs a thread that may start a pend of sp, or is due to test it again.
  predicate MayTest(j: Joint, c: int, sp: Spot) {
    Calls(j.sched, c) && (Active(j.sched, c) in j.role ==> j.role[Active(j.sched, c)] == Testing(sp))
  }

  predicate MayCall(j: Joint, c: int) {
    Calls(j.sched, c) && Active(j.sched, c) !in j.role
  }

  function NewMutex(flags: M.Flags): M.Mutex {
    M.Mutex(1, [], M.Owner(0, 0), flags)
  }

  predicate SemBlocks(j: Joint, c: int, id: int)
    requires id in j.sems
  {
    S.PendTest(j.sems[id].sem, Active(j.sched, c)).1 == S.Blocked
  }

  predicate MutexBlocks(j: Joint, c: int, id: int)
    requires id in j.mutexes
  {
    M.PendTest(j.mutexes[id], Active(j.sched, c), 0).2 == M.Blocked
  }

  // The steps of the scheduler that neither block nor unblock a thread; the caller is in no pend.
  predicate Unrelated(j: Joint, e: Step) {
    && Enabled(j.sched, e) && !e.LockEvent? && !e.UnlockEvent?
    && (e.PassEvent? || e.CreateEvent? || e.IdleEvent? || Active(j.sched, e.cpu) !in j.role)
  }

  // What the callers keep to: a post does not overflow the level, and a mutex is initialised with an elevation that can
  // be set. An idle thread does not block.
  predicate Called(j: Joint, a: Act) {
    match a
    case SemInit(id, _) => id !in j.sems
    case MutexInit(id, flags) => id !in j.mutexes && M.Sane(NewMutex(flags)) && flags.priority >= 0
    case SemTest(c, id) => id in j.sems && MayTest(j, c, OnSem(id))
    case SemTry(c, id) => id in j.sems && MayCall(j, c)
    case SemPost(id) => id in j.sems && j.sems[id].sem.level < S.INT32_MAX
    case SemDestroy(id) => id in j.sems
    case MutexTest(c, id) => id in j.mutexes && MayTest(j, c, OnMutex(id))
    case MutexTry(c, id) => id in j.mutexes && MayCall(j, c)
    case MutexPost(c, id) => id in j.mutexes && MayCall(j, c)
    case HandBack(_, t) => t in j.role && j.role[t].Popped?
    case Other(e) => Unrelated(j, e)
  }

  predicate IdleBlocks(j: Joint, a: Act)
    requires Called(j, a)
  {
    match a
    case SemTest(c, id) => SemBlocks(j, c, id) && Active(j.sched, c) == Idle(j.sched, c)
    case MutexTest(c, id) => MutexBlocks(j, c, id) && Active(j.sched, c) == Idle(j.sched, c)
    case _ => false
  }

  predicate May(j: Joint, a: Act) {
    Called(j, a) && !IdleBlocks(j, a)
  }

  // ----- The steps -----

  function SetRole(j: Joint, t: int, r: Role): map<int, Role> {
    j.role[t := r]
  }

  function DoSemTest(j: Joint, c: int, id: int): Joint
    requires id in j.sems && Active(j.sched, c) in j.sched.threads
  {
    var t, st := Active(j.sched, c), j.sems[id];
    var next := S.Next(st, if t in st.woken then S.Retest(t) else S.PendCall(t));
    if SemBlocks(j, c, id) then Joint(Lock(j.sched, c, SemWait).0, j.sems[id := next], j.mutexes,
      SetRole(j, t, Queued(OnSem(id))))
    else j.(sems := j.sems[id := next], role := j.role - {t})
  }

  function Released(role: map<int, Role>, sp: Spot, w: Option<int>): map<int, Role> {
    if w.Some? then role[w.value := Popped(sp)] else role
  }

  function DoMutexTest(j: Joint, c: int, id: int): Joint
    requires id in j.mutexes && Active(j.sched, c) in j.sched.threads
  {
    var t, m := Active(j.sched, c), j.mutexes[id];
    var (mu, p, r) := M.PendTest(m, t, Me(j.sched, c).prio);
    if r == M.Blocked then Joint(Lock(j.sched, c, MutexWait).0, j.sems, j.mutexes[id := mu],
      SetRole(j, t, Queued(OnMutex(id))))
    else Joint(if M.Elevates(m) then SetPriority(j.sched, c, p).0 else j.sched, j.sems, j.mutexes[id := mu],
      j.role - {t})
  }

  function DoMutexPost(j: Joint, c: int, id: int): Joint
    requires id in j.mutexes && Active(j.sched, c) in j.sched.threads
  {
    var m := j.mutexes[id];
    var (mu, p, w) := M.Post(m, Me(j.sched, c).prio);
    Joint(if M.Elevates(m) then SetPriority(j.sched, c, p).0 else j.sched, j.sems, j.mutexes[id := mu],
      Released(j.role, OnMutex(id), w))
  }

  // sem_destroy pops and hands back one waiter after the other; here all are popped in one step and handed back in
  // further ones, in any order.
  function Do(j: Joint, a: Act): Joint
    requires May(j, a)
  {
    match a
    case SemInit(id, level) => j.(sems := j.sems[id := S.Start(level)])
    case MutexInit(id, flags) => j.(mutexes := j.mutexes[id := NewMutex(flags)])
    case SemTest(c, id) => DoSemTest(j, c, id)
    case SemTry(_, id) => j.(sems := j.sems[id := S.Next(j.sems[id], S.TryPendCall)])
    case SemPost(id) =>
      j.(sems := j.sems[id := S.Next(j.sems[id], S.PostCall)],
        role := Released(j.role, OnSem(id), S.Post(j.sems[id].sem).1))
    case SemDestroy(id) =>
      j.(sems := j.sems[id := S.Next(j.sems[id], S.DestroyCall)],
         role := map t | t in j.role :: if j.role[t] == Queued(OnSem(id)) then Popped(OnSem(id)) else j.role[t])
    case MutexTest(c, id) => DoMutexTest(j, c, id)
    case MutexTry(_, id) => j.(mutexes := j.mutexes[id := M.TryPend(j.mutexes[id]).0])
    case MutexPost(c, id) => DoMutexPost(j, c, id)
    case HandBack(c, t) => j.(sched := Unlock(j.sched, c, t, Reason(j.role[t].spot)).0,
      role := SetRole(j, t, Testing(j.role[t].spot)))
    case Other(e) => j.(sched := Next(j.sched, e))
  }

  // ----- The joint invariant -----

  predicate InQueue(role: map<int, Role>, t: int, sp: Spot) {
    t in role && role[t] == Queued(sp)
  }

  predicate OnWay(role: map<int, Role>, t: int, sp: Spot) {
    t in role && (role[t] == Popped(sp) || role[t] == Testing(sp))
  }

  // A thread blocks in the scheduler exactly while it is queued or popped, for the reason that goes with the spot; a
  // thread that is due to test again is running or ready.
  ghost predicate Fits(sched: Sched, role: map<int, Role>, t: int) {
    && (t in role ==>
          && t in sched.threads
          && if role[t].Testing? then Awake(sched.threads[t].state)
             else sched.threads[t].state == Waiting && sched.threads[t].why == Reason(role[t].spot))
    && (t in sched.threads && sched.threads[t].state == Waiting ==> t in role && !role[t].Testing?)
  }

  ghost predicate QueueFits(role: map<int, Role>, sp: Spot, waiters: seq<int>) {
    S.Distinct(waiters) && forall t {:trigger InQueue(role, t, sp)} :: t in waiters <==> InQueue(role, t, sp)
  }

  ghost predicate WokenFits(role: map<int, Role>, sp: Spot, woken: set<int>) {
    forall t {:trigger OnWay(role, t, sp)} :: t in woken <==> OnWay(role, t, sp)
  }

  ghost predicate SomeOnWay(role: map<int, Role>, sp: Spot) {
    exists t {:trigger OnWay(role, t, sp)} :: OnWay(role, t, sp)
  }

  ghost predicate SemFits(role: map<int, Role>, id: int, st: S.State) {
    S.Inv(st) && QueueFits(role, OnSem(id), st.sem.waiters) && WokenFits(role, OnSem(id), st.woken)
  }

  // A free mutex that is waited for has a thread on its way; the priorities it may set are valid.
  ghost predicate MutexFits(role: map<int, Role>, id: int, mu: M.Mutex) {
    && QueueFits(role, OnMutex(id), mu.waiters) && M.Sane(mu)
    && (mu.state == 1 && mu.waiters != [] ==> SomeOnWay(role, OnMutex(id)))
    && 0 <= mu.owner.savedPriority <= LOWEST && mu.flags.priority >= 0
  }

  ghost predicate EachFits(sched: Sched, role: map<int, Role>) {
    forall t {:trigger Fits(sched, role, t)} :: Fits(sched, role, t)
  }

  ghost predicate AllFit(j: Joint) {
    && EachFits(j.sched, j.role)
    && (forall t :: t in j.role ==>
       if j.role[t].spot.OnSem? then j.role[t].spot.id in j.sems else j.role[t].spot.id in j.mutexes)
  }

  ghost predicate JointInv(j: Joint) {
    && Inv(j.sched) && AllFit(j)
    && (forall id :: id in j.sems ==> SemFits(j.role, id, j.sems[id]))
    && (forall id :: id in j.mutexes ==> MutexFits(j.role, id, j.mutexes[id]))
  }

  // ----- What a change of roles leaves alone -----

  predicate At(role: map<int, Role>, t: int, sp: Spot) {
    t in role && role[t].spot == sp
  }

  // The two assignments of roles give thread t the same role, or differ for it at another spot only.
  ghost predicate Agree(role: map<int, Role>, next: map<int, Role>, t: int, sp: Spot) {
    || (t in role && t in next && role[t] == next[t])
    || (!At(role, t, sp) && !At(next, t, sp))
  }

  ghost predicate AgreeAt(role: map<int, Role>, next: map<int, Role>, sp: Spot) {
    forall t {:trigger Agree(role, next, t, sp)} :: Agree(role, next, t, sp)
  }

  lemma AgreeKeeps(role: map<int, Role>, next: map<int, Role>, sp: Spot, waiters: seq<int>, woken: set<int>)
    requires AgreeAt(role, next, sp)
    ensures QueueFits(role, sp, waiters) ==> QueueFits(next, sp, waiters)
    ensures WokenFits(role, sp, woken) ==> WokenFits(next, sp, woken)
    ensures SomeOnWay(role, sp) ==> SomeOnWay(next, sp)
  {
    forall t ensures InQueue(role, t, sp) <==> InQueue(next, t, sp) { assert Agree(role, next, t, sp); }
    forall t ensures OnWay(role, t, sp) <==> OnWay(next, t, sp) { assert Agree(role, next, t, sp); }
  }

  // All spots but one.
  ghost predicate OnlyAt(role: map<int, Role>, next: map<int, Role>, sp: Spot) {
    forall other {:trigger AgreeAt(role, next, other)} :: other != sp ==> AgreeAt(role, next, other)
  }

  // One thread changes its role, at one spot.
  lemma OneRole(role: map<int, Role>, next: map<int, Role>, t: int, sp: Spot)
    requires next == role - {t} || (t in next && next == role[t := next[t]] && next[t].spot == sp)
    requires t in role ==> role[t].spot == sp
    ensures OnlyAt(role, next, sp)
  {
    forall other | other != sp ensures AgreeAt(role, next, other) {
      forall u ensures Agree(role, next, u, other) {}
    }
  }

  // A step that changes one semaphore and roles at it, and one that changes one mutex and roles at it.
  lemma OneSem(j: Joint, k: Joint, id: int)
    requires JointInv(j) && k.mutexes == j.mutexes && id in k.sems && k.sems == j.sems[id := k.sems[id]]
      && OnlyAt(j.role, k.role, OnSem(id))
    requires Inv(k.sched) && AllFit(k) && SemFits(k.role, id, k.sems[id])
    ensures JointInv(k)
  {
    forall i | i in k.sems ensures SemFits(k.role, i, k.sems[i]) {
      if i != id {
        assert AgreeAt(j.role, k.role, OnSem(i));
        AgreeKeeps(j.role, k.role, OnSem(i), k.sems[i].sem.waiters, k.sems[i].woken);
      }
    }
    forall i | i in k.mutexes ensures MutexFits(k.role, i, k.mutexes[i]) {
      assert AgreeAt(j.role, k.role, OnMutex(i));
      AgreeKeeps(j.role, k.role, OnMutex(i), k.mutexes[i].waiters, {});
    }
  }

  lemma OneMutex(j: Joint, k: Joint, id: int)
    requires JointInv(j) && k.sems == j.sems && id in k.mutexes && k.mutexes == j.mutexes[id := k.mutexes[id]]
      && OnlyAt(j.role, k.role, OnMutex(id))
    requires Inv(k.sched) && AllFit(k) && MutexFits(k.role, id, k.mutexes[id])
    ensures JointInv(k)
  {
    forall i | i in k.sems ensures SemFits(k.role, i, k.sems[i]) {
      assert AgreeAt(j.role, k.role, OnSem(i));
      AgreeKeeps(j.role, k.role, OnSem(i), k.sems[i].sem.waiters, k.sems[i].woken);
    }
    forall i | i in k.mutexes ensures MutexFits(k.role, i, k.mutexes[i]) {
      if i != id {
        assert AgreeAt(j.role, k.role, OnMutex(i));
        AgreeKeeps(j.role, k.role, OnMutex(i), k.mutexes[i].waiters, {});
      }
    }
  }

  // ----- Steps of the scheduler -----

  // Through a step of the scheduler that is no call of its own, a thread that blocks goes on blocking for the same
  // reason, and a thread that is running or ready stays so. No thread starts to block.
  lemma Bystander(j: Joint, e: Step, t: int)
    requires Inv(j.sched) && Unrelated(j, e) && Fits(j.sched, j.role, t)
    ensures Fits(Next(j.sched, e), j.role, t)
  {
    var s := j.sched;
    match e
    case PassEvent(d, now) => CallerOk(s, d); assert ThreadOk(s, NOBODY); PassBystander(s, d, now, t);
    case CleanEvent(d) => assert JoinOk(s, Active(s, d));
    case ExitEvent(d) => ExitBystander(j, d, t);
    case _ =>
  }

  lemma ExitBystander(j: Joint, d: int, t: int)
    requires Inv(j.sched) && Unrelated(j, ExitEvent(d)) && Fits(j.sched, j.role, t)
    ensures Fits(Exit(j.sched, d).0, j.role, t)
  {
    assert JoinOk(j.sched, Active(j.sched, d));
  }

  lemma PassBystander(s: Sched, d: int, now: int, t: int)
    requires Inv(s) && Active(s, d) in s.threads
    ensures var r := Pass(s, d, now).0;
      && (t in s.threads <==> t in r.threads)
      && (t in s.threads && Awake(s.threads[t].state) ==> Awake(r.threads[t].state))
      && (t in s.threads && s.threads[t].state == Waiting ==> r.threads[t] == s.threads[t])
      && (t in s.threads && r.threads[t].state == Waiting ==> s.threads[t].state == Waiting)
  {
    CallerOk(s, d);
    assert Active(s, d) == NOBODY <==> Idle(s, d) == NOBODY;
    PassMild(s, d, now);
    assert MildAt(s, Pass(s, d, now).0, t);
    if t in s.threads && s.threads[t].state == Waiting {
      SchedulingRuns.PassLeavesAlone(s, d, now, t);
    }
  }

  lemma OtherKeeps(j: Joint, e: Step)
    requires JointInv(j) && Unrelated(j, e)
    ensures JointInv(j.(sched := Next(j.sched, e)))
  {
    StepKeeps(j.sched, e);
    forall t ensures Fits(Next(j.sched, e), j.role, t) {
      assert Fits(j.sched, j.role, t);
      Bystander(j, e, t);
    }
  }

  // ----- Handing a popped thread back -----

  /** sched_unlock_thread as called for a popped thread succeeds on every CPU and queues the thread last at its level:
      the panics that follow the call are unreachable. */
  lemma HandBackSucceeds(j: Joint, c: int, t: int)
    requires JointInv(j) && t in j.role && j.role[t].Popped?
    ensures Unlock(j.sched, c, t, Reason(j.role[t].spot)).1 == Done
    ensures SchedulingRuns.QueuedLast(j.sched, Unlock(j.sched, c, t, Reason(j.role[t].spot)).0, t)
  {
    assert Fits(j.sched, j.role, t) && CpuOk(j.sched, c) && ThreadOk(j.sched, t);
    SchedulingRuns.BlockedUntilUnlocked(j.sched, UnlockEvent(c, t, Reason(j.role[t].spot)), t);
  }

  lemma HandBackKeeps(j: Joint, c: int, t: int)
    requires JointInv(j) && May(j, HandBack(c, t))
    ensures JointInv(Do(j, HandBack(c, t)))
  {
    var k := Do(j, HandBack(c, t));
    var sp := j.role[t].spot;
    HandBackSucceeds(j, c, t);
    UnlockStep(j.sched, c, t, Reason(sp));
    forall u ensures Fits(k.sched, k.role, u) { assert Fits(j.sched, j.role, u); }
    OneRole(j.role, k.role, t, sp);
    if sp.OnSem? {
      SameSpot(j.role, k.role, t, sp, k.sems[sp.id].sem.waiters, k.sems[sp.id].woken);
      OneSem(j, k, sp.id);
    } else {
      SameSpot(j.role, k.role, t, sp, k.mutexes[sp.id].waiters, {});
      OneMutex(j, k, sp.id);
    }
  }

  lemma SameSpot(role: map<int, Role>, next: map<int, Role>, t: int, sp: Spot, waiters: seq<int>, woken: set<int>)
    requires t in role && role[t] == Popped(sp) && next == role[t := Testing(sp)]
    ensures QueueFits(role, sp, waiters) ==> QueueFits(next, sp, waiters)
    ensures WokenFits(role, sp, woken) ==> WokenFits(next, sp, woken)
    ensures SomeOnWay(role, sp) ==> SomeOnWay(next, sp)
  {
    forall u ensures InQueue(role, u, sp) <==> InQueue(next, u, sp) {}
    forall u ensures OnWay(role, u, sp) <==> OnWay(next, u, sp) {}
  }

  // ----- One wait queue -----

  // The caller joins a queue at its end.
  lemma JoinsQueue(role: map<int, Role>, sp: Spot, waiters: seq<int>, t: int)
    requires QueueFits(role, sp, waiters) && !InQueue(role, t, sp)
    ensures QueueFits(role[t := Queued(sp)], sp, waiters + [t])
  {
    var next := role[t := Queued(sp)];
    assert t !in waiters;
    forall u ensures u in waiters + [t] <==> InQueue(next, u, sp) {
      assert InQueue(role, u, sp) <==> u in waiters;
    }
  }

  // A thread that is in no queue, or was due to test again, goes on.
  lemma LeavesPend(role: map<int, Role>, sp: Spot, waiters: seq<int>, t: int)
    requires QueueFits(role, sp, waiters) && !InQueue(role, t, sp)
    ensures QueueFits(role - {t}, sp, waiters)
  {
    forall u ensures InQueue(role, u, sp) <==> InQueue(role - {t}, u, sp) {}
  }

  // The first of a queue is popped.
  lemma LeavesQueue(role: map<int, Role>, sp: Spot, waiters: seq<int>)
    requires QueueFits(role, sp, waiters) && waiters != []
    ensures InQueue(role, waiters[0], sp) && QueueFits(role[waiters[0] := Popped(sp)], sp, waiters[1..])
    ensures SomeOnWay(role[waiters[0] := Popped(sp)], sp)
  {
    var t := waiters[0];
    var next := role[t := Popped(sp)];
    assert t in waiters;
    forall u ensures u in waiters[1..] <==> InQueue(next, u, sp) {
      assert InQueue(role, u, sp) <==> u in waiters;
      assert u in waiters <==> u == t || u in waiters[1..];
    }
    assert OnWay(next, t, sp);
  }

  lemma WokenChanges(role: map<int, Role>, next: map<int, Role>, sp: Spot, woken: set<int>, t: int)
    requires WokenFits(role, sp, woken) && (next == role - {t} || (t in next && next == role[t := next[t]]))
    ensures WokenFits(next, sp, if OnWay(next, t, sp) then woken + {t} else woken - {t})
  {
    forall u | u != t ensures OnWay(role, u, sp) <==> OnWay(next, u, sp) {}
    forall u ensures u in (if OnWay(next, t, sp) then woken + {t} else woken - {t}) <==> OnWay(next, u, sp) {
      assert OnWay(role, u, sp) <==> u in woken;
    }
  }

  // ----- The caller of a test -----

  // The caller blocks, or goes on: the scheduler and the roles fit afterwards.
  lemma CallerBlocks(j: Joint, c: int, sp: Spot)
    requires JointInv(j) && MayTest(j, c, sp) && Active(j.sched, c) != Idle(j.sched, c)
    ensures var t, s := Active(j.sched, c), Lock(j.sched, c, Reason(sp)).0;
      Inv(s) && EachFits(s, j.role[t := Queued(sp)])
  {
    var t := Active(j.sched, c);
    var s := Lock(j.sched, c, Reason(sp)).0;
    StepKeeps(j.sched, LockEvent(c, Reason(sp)));
    var next := j.role[t := Queued(sp)];
    forall u ensures Fits(s, next, u) { assert Fits(j.sched, j.role, u); }
  }

  lemma CallerGoesOn(j: Joint, c: int, sp: Spot, prio: int)
    requires JointInv(j) && MayTest(j, c, sp) && 0 <= prio <= LOWEST
    ensures var t, s := Active(j.sched, c), SetPriority(j.sched, c, prio).0;
      && SetPriority(j.sched, c, prio).1 == Done && Inv(s)
      && EachFits(s, j.role - {t}) && EachFits(j.sched, j.role - {t})
  {
    var t := Active(j.sched, c);
    var s := SetPriority(j.sched, c, prio).0;
    StepKeeps(j.sched, PriorityEvent(c, prio));
    var next := j.role - {t};
    forall u ensures Fits(s, next, u) { assert Fits(j.sched, j.role, u); }
    forall u ensures Fits(j.sched, next, u) { assert Fits(j.sched, j.role, u); }
  }

  // ----- Steps of semaphores -----

  // The test is a step that the semaphore allows, and the caller is not on its way any more.
  lemma TestAllowed(j: Joint, c: int, id: int)
    requires JointInv(j) && May(j, SemTest(c, id))
    ensures var t, st := Active(j.sched, c), j.sems[id];
      var next := S.Next(st, if t in st.woken then S.Retest(t) else S.PendCall(t));
      && !InQueue(j.role, t, OnSem(id)) && S.Inv(next) && next.woken == st.woken - {t}
      && next.sem == S.PendTest(st.sem, t).0
  {
    var t, st, sp := Active(j.sched, c), j.sems[id], OnSem(id);
    var e := if t in st.woken then S.Retest(t) else S.PendCall(t);
    assert Fits(j.sched, j.role, t) && SemFits(j.role, id, st) && (InQueue(j.role, t, sp) <==> t in st.sem.waiters);
    assert S.Enabled(st, e);
    S.NextKeepsInv(st, e);
  }

  lemma SemTestKeeps(j: Joint, c: int, id: int)
    requires JointInv(j) && May(j, SemTest(c, id))
    ensures JointInv(Do(j, SemTest(c, id)))
  {
    var k := Do(j, SemTest(c, id));
    var t, st, sp := Active(j.sched, c), j.sems[id], OnSem(id);
    TestAllowed(j, c, id);
    assert SemFits(j.role, id, st);
    OneRole(j.role, k.role, t, sp);
    WokenChanges(j.role, k.role, sp, st.woken, t);
    if SemBlocks(j, c, id) {
      CallerBlocks(j, c, sp);
      JoinsQueue(j.role, sp, st.sem.waiters, t);
      assert SemFits(k.role, id, k.sems[id]);
    } else {
      CallerGoesOn(j, c, sp, 0);
      LeavesPend(j.role, sp, st.sem.waiters, t);
      assert SemFits(k.role, id, k.sems[id]);
    }
    assert AllFit(k);
    OneSem(j, k, id);
  }

  lemma SemPostKeeps(j: Joint, id: int)
    requires JointInv(j) && May(j, SemPost(id))
    ensures JointInv(Do(j, SemPost(id)))
  {
    var k := Do(j, SemPost(id));
    var st, sp := j.sems[id], OnSem(id);
    S.NextKeepsInv(st, S.PostCall);
    var w := S.Post(st.sem).1;
    if w.Some? {
      LeavesQueue(j.role, sp, st.sem.waiters);
      OneRole(j.role, k.role, w.value, sp);
      WokenChanges(j.role, k.role, sp, st.woken, w.value);
      PoppedFits(j, k, w.value, sp);
    } else {
      SameRoles(j.role, sp);
    }
    OneSem(j, k, id);
  }

  lemma SameRoles(role: map<int, Role>, sp: Spot)
    ensures OnlyAt(role, role, sp)
  {
    forall other | other != sp ensures AgreeAt(role, role, other) {
      forall u ensures Agree(role, role, u, other) {}
    }
  }

  // A popped thread still blocks in the scheduler, for the same reason.
  lemma PoppedFits(j: Joint, k: Joint, t: int, sp: Spot)
    requires AllFit(j) && InQueue(j.role, t, sp) && k.sched == j.sched && k.role == j.role[t := Popped(sp)]
    requires k.sems.Keys == j.sems.Keys && k.mutexes.Keys == j.mutexes.Keys
    ensures AllFit(k)
  {
    forall u ensures Fits(k.sched, k.role, u) { assert Fits(j.sched, j.role, u); }
  }

  lemma SemTryKeeps(j: Joint, c: int, id: int)
    requires JointInv(j) && May(j, SemTry(c, id))
    ensures JointInv(Do(j, SemTry(c, id)))
  {
    S.NextKeepsInv(j.sems[id], S.TryPendCall);
    SameRoles(j.role, OnSem(id));
    OneSem(j, Do(j, SemTry(c, id)), id);
  }

  lemma SemDestroyKeeps(j: Joint, id: int)
    requires JointInv(j) && May(j, SemDestroy(id))
    ensures JointInv(Do(j, SemDestroy(id)))
  {
    var k := Do(j, SemDestroy(id));
    var st, sp := j.sems[id], OnSem(id);
    assert SemFits(j.role, id, st);
    S.NextKeepsInv(st, S.DestroyCall);
    forall other | other != sp ensures AgreeAt(j.role, k.role, other) {
      forall u ensures Agree(j.role, k.role, u, other) {}
    }
    forall u ensures Fits(k.sched, k.role, u) { assert Fits(j.sched, j.role, u); }
    forall u ensures u in k.sems[id].sem.waiters <==> InQueue(k.role, u, sp)
    { assert InQueue(j.role, u, sp) <==> u in st.sem.waiters; }
    forall u ensures u in k.sems[id].woken <==> OnWay(k.role, u, sp) {
      assert InQueue(j.role, u, sp) <==> u in st.sem.waiters;
      assert OnWay(j.role, u, sp) <==> u in st.woken;
    }
    OneSem(j, k, id);
  }

  lemma SemInitKeeps(j: Joint, id: int, level: int)
    requires JointInv(j) && May(j, SemInit(id, level))
    ensures JointInv(Do(j, SemInit(id, level)))
  {
    var k := Do(j, SemInit(id, level));
    S.StartInv(level);
    SameRoles(j.role, OnSem(id));
    forall u ensures !InQueue(j.role, u, OnSem(id)) && !OnWay(j.role, u, OnSem(id)) {}
    assert SemFits(k.role, id, k.sems[id]);
    OneSem(j, k, id);
  }

  // ----- Steps of mutexes -----

  // The priorities of the caller and of the mutex are valid, so it fits after the test.
  lemma TestFits(j: Joint, c: int, id: int)
    requires JointInv(j) && May(j, MutexTest(c, id))
    ensures !InQueue(j.role, Active(j.sched, c), OnMutex(id))
    ensures MutexFits(Do(j, MutexTest(c, id)).role, id, Do(j, MutexTest(c, id)).mutexes[id])
  {
    var t, mu, sp := Active(j.sched, c), j.mutexes[id], OnMutex(id);
    assert Fits(j.sched, j.role, t) && MutexFits(j.role, id, mu) && (InQueue(j.role, t, sp) <==> t in mu.waiters);
    CallerOk(j.sched, c);
    if MutexBlocks(j, c, id) {
      JoinsQueue(j.role, sp, mu.waiters, t);
    } else {
      LeavesPend(j.role, sp, mu.waiters, t);
    }
  }

  lemma MutexTestKeeps(j: Joint, c: int, id: int)
    requires JointInv(j) && May(j, MutexTest(c, id))
    ensures JointInv(Do(j, MutexTest(c, id)))
  {
    var k := Do(j, MutexTest(c, id));
    var t, mu, sp := Active(j.sched, c), j.mutexes[id], OnMutex(id);
    TestFits(j, c, id);
    OneRole(j.role, k.role, t, sp);
    if MutexBlocks(j, c, id) {
      CallerBlocks(j, c, sp);
    } else {
      assert MutexFits(j.role, id, mu);
      CallerGoesOn(j, c, sp, if M.Elevates(mu) then M.ElevatedPriority(mu) else 0);
    }
    assert AllFit(k);
    OneMutex(j, k, id);
  }

  lemma MutexPostKeeps(j: Joint, c: int, id: int)
    requires JointInv(j) && May(j, MutexPost(c, id))
    ensures JointInv(Do(j, MutexPost(c, id)))
  {
    var k := Do(j, MutexPost(c, id));
    var t, mu, sp := Active(j.sched, c), j.mutexes[id], OnMutex(id);
    assert MutexFits(j.role, id, mu);
    CallerGoesOn(j, c, sp, mu.owner.savedPriority);
    assert j.role - {t} == j.role;
    var m := j.(sched := k.sched);
    assert AllFit(m);
    if mu.waiters != [] {
      LeavesQueue(j.role, sp, mu.waiters);
      OneRole(j.role, k.role, mu.waiters[0], sp);
      PoppedFits(m, k, mu.waiters[0], sp);
    } else {
      SameRoles(j.role, sp);
    }
    OneMutex(j, k, id);
  }

  lemma MutexTryKeeps(j: Joint, c: int, id: int)
    requires JointInv(j) && May(j, MutexTry(c, id))
    ensures JointInv(Do(j, MutexTry(c, id)))
  {
    SameRoles(j.role, OnMutex(id));
    OneMutex(j, Do(j, MutexTry(c, id)), id);
  }

  lemma MutexInitKeeps(j: Joint, id: int, flags: M.Flags)
    requires JointInv(j) && May(j, MutexInit(id, flags))
    ensures JointInv(Do(j, MutexInit(id, flags)))
  {
    var k := Do(j, MutexInit(id, flags));
    SameRoles(j.role, OnMutex(id));
    forall u ensures !InQueue(j.role, u, OnMutex(id)) {}
    assert MutexFits(k.role, id, k.mutexes[id]);
    OneMutex(j, k, id);
  }

  /** Every step of the scheduler, the semaphores and the mutexes, on any CPU, keeps the joint invariant. */
  lemma ActKeeps(j: Joint, a: Act)
    requires JointInv(j) && May(j, a)
    ensures JointInv(Do(j, a))
  {
    match a
    case SemInit(id, level) => SemInitKeeps(j, id, level);
    case MutexInit(id, flags) => MutexInitKeeps(j, id, flags);
    case SemTest(c, id) => SemTestKeeps(j, c, id);
    case SemTry(c, id) => SemTryKeeps(j, c, id);
    case SemPost(id) => SemPostKeeps(j, id);
    case SemDestroy(id) => SemDestroyKeeps(j, id);
    case MutexTest(c, id) => MutexTestKeeps(j, c, id);
    case MutexTry(c, id) => MutexTryKeeps(j, c, id);
    case MutexPost(c, id) => MutexPostKeeps(j, c, id);
    case HandBack(c, t) => HandBackKeeps(j, c, t);
    case Other(e) => OtherKeeps(j, e);
  }

  // ----- What the scheduler sees -----

  // The scheduler when only the caller on CPU c changes.
  function Changed(s: Sched, c: int, th: Thread): Sched {
    SetThread(s, Active(s, c), th)
  }

  /** A call of a semaphore or mutex changes nothing in the scheduler but its caller: it blocks the caller when the test
      says so, and it sets its priority when a mutex that elevates is taken or given back. */
  lemma ActTouches(j: Joint, a: Act)
    requires JointInv(j) && May(j, a) && !a.Other? && !a.HandBack?
    ensures var s, r := j.sched, Do(j, a).sched;
      match a
      case SemTest(c, id) =>
        r == if SemBlocks(j, c, id) then Changed(s, c, Me(s, c).(state := Waiting, why := SemWait)) else s
      case MutexTest(c, id) =>
        if MutexBlocks(j, c, id) then r == Changed(s, c, Me(s, c).(state := Waiting, why := MutexWait))
        else if !M.Elevates(j.mutexes[id]) then r == s
        else r == Changed(s, c, Me(s, c).(prio := M.ElevatedPriority(j.mutexes[id])))
      case MutexPost(c, id) =>
        if !M.Elevates(j.mutexes[id]) then r == s
        else r == Changed(s, c, Me(s, c).(prio := j.mutexes[id].owner.savedPriority))
      case _ => r == s
  {
    match a
    case MutexTest(c, id) => assert MutexFits(j.role, id, j.mutexes[id]);
    case MutexPost(c, id) => assert MutexFits(j.role, id, j.mutexes[id]);
    case _ =>
  }

  // The step of its own machine that a semaphore takes.
  function SemEvent(j: Joint, a: Act, id: int): Option<S.Event>
    requires id in j.sems
  {
    match a
    case SemTest(c, i) =>
      var t := Active(j.sched, c);
      if i != id then None else Some(if OnWay(j.role, t, OnSem(id)) then S.Retest(t) else S.PendCall(t))
    case SemTry(_, i) => if i == id then Some(S.TryPendCall) else None
    case SemPost(i) => if i == id then Some(S.PostCall) else None
    case SemDestroy(i) => if i == id then Some(S.DestroyCall) else None
    case _ => None
  }

  /** Each step of the joint machine is a step of the machine of one semaphore, which allows it, or leaves the semaphore
      as it is. */
  lemma SemSteps(j: Joint, a: Act, id: int)
    requires JointInv(j) && May(j, a) && id in j.sems
    ensures id in Do(j, a).sems
    ensures match SemEvent(j, a, id)
      case Some(e) => S.Enabled(j.sems[id], e) && Do(j, a).sems[id] == S.Next(j.sems[id], e)
      case None => Do(j, a).sems[id] == j.sems[id]
  {
    assert SemFits(j.role, id, j.sems[id]);
    if a.SemTest? && a.id == id {
      var t := Active(j.sched, a.cpu);
      assert Fits(j.sched, j.role, t) && (OnWay(j.role, t, OnSem(id)) <==> t in j.sems[id].woken);
      assert InQueue(j.role, t, OnSem(id)) <==> t in j.sems[id].sem.waiters;
    }
  }

  // ----- Panics -----

  // A step ends in a panic of the kernel: sched_lock_thread has no node for the caller, sched_set_priority refuses the
  // priority of a mutex, sched_unlock_thread fails, or there is nothing to elect.
  predicate Panics(j: Joint, a: Act)
    requires Called(j, a)
  {
    match a
    case SemTest(c, id) => SemBlocks(j, c, id) && Lock(j.sched, c, SemWait).1 == NOBODY
    case MutexTest(c, id) =>
      if MutexBlocks(j, c, id) then Lock(j.sched, c, MutexWait).1 == NOBODY
      else M.Elevates(j.mutexes[id]) && SetPriority(j.sched, c, M.ElevatedPriority(j.mutexes[id])).1 != Done
    case MutexPost(c, id) => M.Elevates(j.mutexes[id])
      && SetPriority(j.sched, c, j.mutexes[id].owner.savedPriority).1 != Done
    case HandBack(c, t) => Unlock(j.sched, c, t, Reason(j.role[t].spot)).1 != Done
    case Other(PassEvent(c, now)) => Pass(j.sched, c, now).1 != Done
    case _ => false
  }

  /** Whatever the other threads and CPUs do, a step panics exactly when an idle thread would block. */
  lemma PanicsExactly(j: Joint, a: Act)
    requires JointInv(j) && Called(j, a)
    ensures Panics(j, a) <==> IdleBlocks(j, a)
  {
    match a
    case SemTest(c, id) => CallerOk(j.sched, c);
    case MutexTest(c, id) => CallerOk(j.sched, c); assert MutexFits(j.role, id, j.mutexes[id]);
    case MutexPost(c, id) => assert MutexFits(j.role, id, j.mutexes[id]);
    case HandBack(c, t) => HandBackSucceeds(j, c, t);
    case Other(e) => if e.PassEvent? { PassStep(j.sched, e.cpu, e.now); }
    case _ =>
  }

  // ----- Whole runs -----

  function Begin(cpus: int, idle: int, init: int): Joint {
    Joint(Booted(cpus, idle, init), map[], map[], map[])
  }

  ghost predicate Follows(j: Joint, acts: seq<Act>)
    decreases |acts|
  {
    acts != [] ==> May(j, acts[0]) && Follows(Do(j, acts[0]), acts[1..])
  }

  function End(j: Joint, acts: seq<Act>): Joint
    requires Follows(j, acts)
    decreases |acts|
  {
    if acts == [] then j else End(Do(j, acts[0]), acts[1..])
  }

  function Waiters(j: Joint, sp: Spot): seq<int> {
    match sp
    case OnSem(id) => if id in j.sems then j.sems[id].sem.waiters else []
    case OnMutex(id) => if id in j.mutexes then j.mutexes[id].waiters else []
  }

  // A thread that blocks is in no table of the scheduler. It is in one wait queue, once, or has just been popped.
  ghost predicate BlockedOnce(j: Joint, t: int)
    requires t in j.sched.threads
  {
    var th := j.sched.threads[t];
    && (forall pl :: pl != Nowhere ==> !Holds(Table(j.sched, pl), t))
    && t in j.role && !j.role[t].Testing?
    && th.why == Reason(j.role[t].spot)
    && forall sp :: t in Waiters(j, sp) <==> j.role[t] == Queued(sp)
  }

  // A semaphore or mutex that could be taken although threads wait for it.
  predicate Available(j: Joint, sp: Spot) {
    match sp
    case OnSem(id) => id in j.sems && j.sems[id].sem.live && j.sems[id].sem.level > 0
    case OnMutex(id) => id in j.mutexes && j.mutexes[id].state == 1
  }

  // Some thread will test sp again: it runs or is ready, or the unlock it is due succeeds on every CPU.
  ghost predicate Coming(j: Joint, sp: Spot) {
    exists t :: OnWay(j.role, t, sp) && t in j.sched.threads &&
      (Awake(j.sched.threads[t].state) || forall c :: Unlock(j.sched, c, t, Reason(sp)).1 == Done)
  }

  lemma {:induction false} RunKeepsJoint(j: Joint, acts: seq<Act>)
    requires JointInv(j) && Follows(j, acts)
    ensures JointInv(End(j, acts))
    decreases |acts|
  {
    if acts != [] {
      ActKeeps(j, acts[0]);
      RunKeepsJoint(Do(j, acts[0]), acts[1..]);
    }
  }

  lemma BeginInv(cpus: int, idle: int, init: int)
    requires cpus > 0 && idle != init && idle != NOBODY && init != NOBODY
    ensures JointInv(Begin(cpus, idle, init))
  {
    BootedInv(cpus, idle, init);
    var j := Begin(cpus, idle, init);
    forall t ensures Fits(j.sched, j.role, t) {}
  }

  lemma WaitersFit(j: Joint, t: int, sp: Spot)
    requires JointInv(j)
    ensures S.Distinct(Waiters(j, sp)) && (t in Waiters(j, sp) <==> InQueue(j.role, t, sp))
  {
    match sp
    case OnSem(id) => if id in j.sems { assert SemFits(j.role, id, j.sems[id]); }
    case OnMutex(id) => if id in j.mutexes { assert MutexFits(j.role, id, j.mutexes[id]); }
  }

  lemma InvBlockedOnce(j: Joint, t: int)
    requires JointInv(j) && t in j.sched.threads && j.sched.threads[t].state == Waiting
    ensures BlockedOnce(j, t)
  {
    assert Fits(j.sched, j.role, t);
    InvMatches(j.sched, t);
    forall sp ensures t in Waiters(j, sp) <==> j.role[t] == Queued(sp) { WaitersFit(j, t, sp); }
  }

  lemma Someone(woken: set<int>) returns (t: int)
    requires |woken| > 0
    ensures t in woken
  {
    if forall u :: u !in woken { assert false; }
    t :| t in woken;
  }

  lemma WayComing(j: Joint, t: int, sp: Spot)
    requires JointInv(j) && OnWay(j.role, t, sp)
    ensures Coming(j, sp)
  {
    assert Fits(j.sched, j.role, t);
    if j.role[t].Popped? {
      forall c ensures Unlock(j.sched, c, t, Reason(sp)).1 == Done { HandBackSucceeds(j, c, t); }
    }
  }

  lemma InvComing(j: Joint, sp: Spot)
    requires JointInv(j) && Available(j, sp) && Waiters(j, sp) != []
    ensures Coming(j, sp)
  {
    match sp
    case OnSem(id) =>
      assert SemFits(j.role, id, j.sems[id]);
      var t := Someone(j.sems[id].woken);
      assert OnWay(j.role, t, sp);
      WayComing(j, t, sp);
    case OnMutex(id) =>
      assert MutexFits(j.role, id, j.mutexes[id]);
      var t :| OnWay(j.role, t, sp);
      WayComing(j, t, sp);
  }

  // Whoever is in a wait queue is there once and is blocked for that reason.
  ghost predicate QueueBlocks(j: Joint, sp: Spot) {
    && S.Distinct(Waiters(j, sp))
    && forall t :: t in Waiters(j, sp) ==>
         t in j.sched.threads && j.sched.threads[t].state == Waiting && j.sched.threads[t].why == Reason(sp)
  }

  lemma InvQueueBlocks(j: Joint, sp: Spot)
    requires JointInv(j)
    ensures QueueBlocks(j, sp)
  {
    WaitersFit(j, 0, sp);
    forall t | t in Waiters(j, sp)
      ensures t in j.sched.threads && j.sched.threads[t].state == Waiting && j.sched.threads[t].why == Reason(sp)
    {
      WaitersFit(j, t, sp);
      assert Fits(j.sched, j.role, t);
    }
  }

  /** Every run of any number of threads, semaphores and mutexes on any number of CPUs: a blocked thread is in one wait
      queue, once, or on its way out of it, and in no table of the scheduler; whoever is in a wait queue is blocked for
      that reason; whatever could be taken while threads wait for it has a thread on its way to take it; and no step
      panics but that of an idle thread that would block. */
  lemma EveryRun(cpus: int, idle: int, init: int, acts: seq<Act>)
    requires cpus > 0 && idle != init && idle != NOBODY && init != NOBODY && Follows(Begin(cpus, idle, init), acts)
    ensures var j := End(Begin(cpus, idle, init), acts);
      && (forall t :: t in j.sched.threads && j.sched.threads[t].state == Waiting ==> BlockedOnce(j, t))
      && (forall sp :: QueueBlocks(j, sp))
      && (forall sp :: Available(j, sp) && Waiters(j, sp) != [] ==> Coming(j, sp))
      && (forall a :: Called(j, a) ==> (Panics(j, a) <==> IdleBlocks(j, a)))
  {
    BeginInv(cpus, idle, init);
    RunKeepsJoint(Begin(cpus, idle, init), acts);
    var j := End(Begin(cpus, idle, init), acts);
    forall t | t in j.sched.threads && j.sched.threads[t].state == Waiting
      ensures BlockedOnce(j, t) { InvBlockedOnce(j, t); }
    forall sp ensures QueueBlocks(j, sp) { InvQueueBlocks(j, sp); }
    forall sp | Available(j, sp) && Waiters(j, sp) != [] ensures Coming(j, sp) { InvComing(j, sp); }
    forall a | Called(j, a) ensures Panics(j, a) <==> IdleBlocks(j, a) { PanicsExactly(j, a); }
  }
}
