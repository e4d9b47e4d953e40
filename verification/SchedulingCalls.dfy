/**
  What each call of the scheduler (core/scheduler.c) does to every thread and to every table, and what no run of steps
  undoes.
 */
module SchedulingCalls {

  import opened Basics
  import opened KernelQueue
  import opened Scheduling
  import opened SchedulingRuns

  // ----- Frames -----

  ghost predicate OthersSame(s: Sched, r: Sched, t: int) {
    forall u :: u != t ==> SameThread(s, r, u)
  }

  ghost predicate TablesSame(s: Sched, r: Sched, except: set<Place>) {
    forall pl :: pl !in except ==> Table(r, pl) == Table(s, pl)
  }

  // The thread is in the table pl and in no other.
  ghost predicate OnlyIn(s: Sched, t: int, pl: Place) {
    forall p :: p != Nowhere ==> (Holds(Table(s, p), t) <==> p == pl)
  }

  lemma HomeIsOnly(s: Sched, t: int, pl: Place)
    requires QueueInv(s) && Home(s, t) == pl
    ensures OnlyIn(s, t, pl)
  {
    forall p | p != Nowhere ensures Holds(Table(s, p), t) <==> p == pl { assert TableOk(s, p) && AtHome(s, p, t); }
  }

  // The global table lists the threads, the newest first; x leaves it.
  ghost predicate Unlisted(s: Sched, r: Sched, x: int) {
    exists k :: 0 <= k < |s.roster.global| && s.roster.global[k] == x
      && r.roster.global == s.roster.global[..k] + s.roster.global[k + 1..]
  }

  lemma RemoveUnlists(s: Sched, x: int)
    requires RosterOk(s) && x in s.threads
    ensures Unlisted(s, Remove(s, x), x)
  {
    var g := s.roster.global;
    var k :| 0 <= k < |g| && g[k] == x;
    DropAt(g, x, k);
  }

  lemma RemoveFrame(s: Sched, x: int)
    requires RosterOk(s) && x in s.threads
    ensures var r := Remove(s, x);
      x !in r.threads && Unlisted(s, r, x) && OthersSame(s, r, x) && TablesSame(s, r, {ZombieTable})
        && r.active == s.active
  {
    RemoveUnlists(s, x);
  }

  // ----- Creation -----

  /** A creation succeeds exactly when the CPU and the priority are in range and the allocations succeed. The new thread
      is then ready with the priority and the CPU that were asked for, it joins nobody, and it stands behind everyone at
      its level. No other thread and no other table changes. */
  lemma CreateMeans(s: Sched, id: int, prio: int, affinity: int, ok: bool)
    requires Inv(s) && Enabled(s, CreateEvent(id, prio, affinity, ok))
    ensures var (r, code) := Create(s, id, prio, affinity, ok);
      var pl := ReadyTable(affinity, prio);
      && (code == Done <==> affinity < s.roster.cpus && prio <= LOWEST && ok)
      && (code != Done ==> r == s)
      && (code != Done ==> code == if affinity >= s.roster.cpus then Unauthorized
            else if prio > LOWEST then ForbiddenPriority else MallocFailure)
      && (code == Done ==>
          && id in r.threads && r.threads[id].state == Ready && r.threads[id].prio == prio
          && r.threads[id].cpu == affinity && r.threads[id].links == Links(NOBODY, NOBODY)
          && OnlyIn(r, id, pl) && Behind(r, affinity, prio, id, |Table(s, pl)|)
          && Grown(Table(s, pl), Table(r, pl)) && |Table(r, pl)| == |Table(s, pl)| + 1
          && OthersSame(s, r, id) && TablesSame(s, r, {pl}) && r.active == s.active
          && r.roster.global == [id] + s.roster.global)
  {
    var (r, code) := Create(s, id, prio, affinity, ok);
    if code == Done {
      CreateStep(s, id, prio, affinity, ok);
      HomeIsOnly(r, id, ReadyTable(affinity, prio));
    }
  }

  /** The idle thread of a CPU runs there at once, at the lowest priority, and is in no table. Nothing else changes. */
  lemma IdleMeans(s: Sched, c: int, id: int)
    requires Inv(s) && Enabled(s, IdleEvent(c, id))
    ensures var r := CreateIdle(s, c, id);
      && id in r.threads && r.threads[id].state == Running && r.threads[id].prio == LOWEST && r.threads[id].cpu == c
      && r.threads[id].links == Links(NOBODY, NOBODY)
      && Active(r, c) == Idle(r, c) == id && OnlyIn(r, id, Nowhere)
      && OthersSame(s, r, id) && TablesSame(s, r, {}) && r.roster.global == [id] + s.roster.global
      && forall d :: d != c ==> Active(r, d) == Active(s, d) && Idle(r, d) == Idle(s, d)
  {
    IdleStep(s, c, id);
    HomeIsOnly(CreateIdle(s, c, id), id, Nowhere);
  }

  /** At the start the idle thread of CPU 0 runs and init is ready there at the best level; there is no other thread. */
  lemma BootMeans(cpus: int, idle: int, init: int)
    requires cpus > 0 && idle != init && idle != NOBODY && init != NOBODY
    ensures var s := Booted(cpus, idle, init);
      && s.threads.Keys == {idle, init} && s.roster.init == init && s.roster.cpus == cpus
      && Active(s, 0) == Idle(s, 0) == idle && (forall c :: c != 0 ==> Active(s, c) == Idle(s, c) == NOBODY)
      && s.threads[idle].state == Running && s.threads[idle].prio == LOWEST && s.threads[idle].cpu == 0
      && s.threads[init].state == Ready && OnlyIn(s, init, ReadyTable(0, 0)) && Behind(s, 0, 0, init, 0)
  {
    var s := Sched(map[], map[], map[], Roster([], 0, cpus, map[], init));
    EmptyInv(s);
    IdleMeans(s, 0, idle);
    IdleStep(s, 0, idle);
    CreateMeans(CreateIdle(s, 0, idle), init, 0, 0, true);
    assert SameThread(CreateIdle(s, 0, idle), Booted(cpus, idle, init), idle);
    assert Booted(cpus, idle, init).threads.Keys == {idle, init};
  }

  // ----- The end of a thread -----

  // The threads and tables after the exit of a thread other than init.
  lemma ExitFrame(s: Sched, c: int, t: int, j: int)
    requires Inv(s) && Enabled(s, ExitEvent(c)) && t == Active(s, c) != s.roster.init && j == Me(s, c).links.joiner
    ensures var r := Exit(s, c).0;
      && (j != NOBODY ==> j in s.threads && s.threads[j].state == Joining && QueuedLast(s, r, j))
      && r == if j == NOBODY then Bury(s, t) else MakeReady(Bury(s, t), j, s.threads[j].cpu)
  {
    CallerOk(s, c);
    assert JoinOk(s, t) && ThreadOk(s, NOBODY);
    if j != NOBODY {
      assert JoinOk(s, j) && Names(s, t, j);
      ExitReadies(s, c, j);
    }
  }

  /** The caller of thread_exit has ended: it is a zombie and otherwise as before, and it is in the zombie table, unless
      it is init, which is in no table. Its joiner is readied behind everyone at its level, unless the caller is init.
      No other thread and no other table changes. */
  lemma ExitMeans(s: Sched, c: int)
    requires Inv(s) && Enabled(s, ExitEvent(c))
    ensures var (r, code) := Exit(s, c);
      var t := Active(s, c);
      var j := if t == s.roster.init then NOBODY else Me(s, c).links.joiner;
      && code == Done && t in r.threads && r.threads[t] == Me(s, c).(state := Zombie)
      && OnlyIn(r, t, if t == s.roster.init then Nowhere else ZombieTable)
      && (j != NOBODY ==> j in s.threads && s.threads[j].state == Joining && QueuedLast(s, r, j))
      && (forall u :: u != t && u != j ==> SameThread(s, r, u))
      && TablesSame(s, r,
           if t == s.roster.init then {}
           else if j == NOBODY then {ZombieTable}
           else {ZombieTable, ReadyTable(s.threads[j].cpu, s.threads[j].prio)})
      && (t != s.roster.init ==> Table(r, ZombieTable) == [Item(0, t)] + Table(s, ZombieTable))
      && r.active == s.active && r.roster == s.roster
  {
    var t := Active(s, c);
    CallerOk(s, c);
    ExitStep(s, c);
    HomeIsOnly(Exit(s, c).0, t, if t == s.roster.init then Nowhere else ZombieTable);
    if t != s.roster.init { ExitFrame(s, c, t, Me(s, c).links.joiner); }
  }

  /** thread_exit by an idle thread panics and changes nothing; no other call of it does. */
  lemma ExitPanicsIff(s: Sched, c: int)
    requires Inv(s) && Calls(s, c)
    ensures Exit(s, c).1 == KernelPanic <==> Active(s, c) == Idle(s, c)
    ensures Exit(s, c).1 == KernelPanic ==> Exit(s, c).0 == s
  {
  }

  predicate Ended(s: Sched, t: int) {
    t in s.threads && s.threads[t].state == Zombie
  }

  // The step is the removal of thread t by a thread that joins it.
  predicate Removes(s: Sched, e: Step, t: int)
    requires Enabled(s, e)
  {
    (e.WaitEvent? && e.thread == t) || (e.CleanEvent? && Me(s, e.cpu).links.target == t)
  }

  // The thread is the one that a pass has just elected.
  predicate ElectedBy(s: Sched, e: Step, t: int)
    requires Enabled(s, e)
  {
    e.PassEvent? && Active(Next(s, e), e.cpu) == t
  }

  /** A step leaves a thread that has ended as it is, except that a join removes it; a pass never elects it. */
  lemma EndedStep(s: Sched, e: Step, t: int)
    requires Inv(s) && Enabled(s, e) && Ended(s, t)
    ensures !ElectedBy(s, e, t)
    ensures t in Next(s, e).threads <==> !Removes(s, e, t)
    ensures t in Next(s, e).threads ==> Ended(Next(s, e), t) && Next(s, e).threads[t].cpu == s.threads[t].cpu
    ensures forall d :: Active(Next(s, e), d) == t ==> Active(s, d) == t || Removes(s, e, t)
  {
    assert ThreadOk(s, t) && ThreadOk(s, NOBODY);
    match e
    case PassEvent(d, now) =>
      PassLeavesAlone(s, d, now, t);
      PassElects(s, d, now);
      PassActive(s, d, now);
    case ExitEvent(d) => assert JoinOk(s, Active(s, d));
    case _ =>
  }

  // From here on to the end of the run, or to its removal, the thread is a zombie that no pass elects.
  ghost predicate NeverBack(s: Sched, es: seq<Step>, t: int)
    requires Runs(s, es)
    decreases |es|
  {
    && Ended(s, t)
    && (es != [] ==>
          && !ElectedBy(s, es[0], t)
          && if Removes(s, es[0], t) then t !in Next(s, es[0]).threads else NeverBack(Next(s, es[0]), es[1..], t))
  }

  /** A thread that has ended stays so through every run until it is removed by a join, and is never elected. */
  lemma {:induction false} EndedForever(s: Sched, es: seq<Step>, t: int)
    requires Inv(s) && Runs(s, es) && Ended(s, t)
    ensures NeverBack(s, es, t)
    decreases |es|
  {
    if es != [] {
      StepKeeps(s, es[0]);
      EndedStep(s, es[0], t);
      if !Removes(s, es[0], t) { EndedForever(Next(s, es[0]), es[1..], t); }
    }
  }

  /** After thread_exit the caller never runs again: through every run it is a zombie until a join removes it. */
  lemma ExitIsFinal(s: Sched, c: int, es: seq<Step>)
    requires Inv(s) && Enabled(s, ExitEvent(c)) && Runs(Exit(s, c).0, es)
    ensures NeverBack(Exit(s, c).0, es, Active(s, c))
  {
    ExitMeans(s, c);
    ExitStep(s, c);
    EndedForever(Exit(s, c).0, es, Active(s, c));
  }

  // ----- Joins -----

  /** A join of a thread that runs on blocks the caller, which remembers it; the thread remembers the caller. A thread
      that has ended is gone at once, and only it. A join of nothing is refused. */
  lemma WaitMeans(s: Sched, c: int, x: int)
    requires Inv(s) && Enabled(s, WaitEvent(c, x))
    ensures var (r, code) := Wait(s, c, x);
      var t := Active(s, c);
      && (x !in s.threads ==> r == s && code == NullArgument)
      && (Ended(s, x) ==> code == Done && x !in r.threads && OnlyIn(r, x, Nowhere) && Unlisted(s, r, x))
      && (Ended(s, x) ==> OthersSame(s, r, x) && TablesSame(s, r, {ZombieTable}) && r.active == s.active)
      && (x in s.threads && !Ended(s, x) ==>
            && code == Done && TablesSame(s, r, {}) && r.active == s.active && r.roster == s.roster
            && (forall u :: u != t && u != x ==> SameThread(s, r, u))
            && t in r.threads && r.threads[t].state == Joining && r.threads[t].links.target == x
            && x in r.threads && r.threads[x].links.joiner == t
            && r.threads[t] == s.threads[t].(state := Joining, links := r.threads[t].links)
            && (x != t ==> r.threads[t].links.joiner == s.threads[t].links.joiner)
            && (x != t ==> r.threads[x] == s.threads[x].(links := s.threads[x].links.(joiner := t))))
  {
    var r := Wait(s, c, x).0;
    StepKeeps(s, WaitEvent(c, x));
    if Ended(s, x) {
      HomeIsOnly(r, x, Nowhere);
      RemoveFrame(s, x);
    }
  }

  lemma CleanFrame(s: Sched, c: int, t: int, x: int)
    requires RosterOk(s) && t == Active(s, c) && t in s.threads && x in s.threads && x != t
      && x == Me(s, c).links.target
    ensures var r := Clean(s, c);
      && x !in r.threads && Unlisted(s, r, x) && TablesSame(s, r, {ZombieTable}) && r.active == s.active
      && t in r.threads && r.threads[t] == s.threads[t].(links := s.threads[t].links.(target := NOBODY))
      && (forall u :: u != t && u != x ==> SameThread(s, r, u))
  {
    var s1 := SetThread(s, t, Me(s, c).(links := Me(s, c).links.(target := NOBODY)));
    assert RosterOk(s1);
    RemoveFrame(s1, x);
  }

  /** The return from a join removes the joined thread and only it; the caller joins nobody any more. */
  lemma CleanMeans(s: Sched, c: int)
    requires Inv(s) && Enabled(s, CleanEvent(c))
    ensures var r, t, x := Clean(s, c), Active(s, c), Me(s, c).links.target;
      && x !in r.threads && OnlyIn(r, x, Nowhere) && Unlisted(s, r, x)
      && t in r.threads && r.threads[t] == s.threads[t].(links := s.threads[t].links.(target := NOBODY))
      && (forall u :: u != t && u != x ==> SameThread(s, r, u))
      && TablesSame(s, r, {ZombieTable}) && r.active == s.active
  {
    var t, x := Active(s, c), Me(s, c).links.target;
    assert x in s.threads && x != t by { assert JoinOk(s, t) && JoinOk(s, x); }
    CleanFrame(s, c, t, x);
    CleanStep(s, c);
    HomeIsOnly(Clean(s, c), x, Nowhere);
  }

  // ----- Blocking, waking and passing -----

  /** A sleep of an idle thread is refused. Any other caller falls asleep with its wake-up time; it is in no table until
      its CPU switches it out. Nothing else changes. */
  lemma SleepMeans(s: Sched, c: int, now: int, ms: int)
    requires Inv(s) && Enabled(s, SleepEvent(c, now, ms))
    ensures var ((r, code), t) := (Sleep(s, c, now, ms), Active(s, c));
      && (code == Unauthorized <==> t == Idle(s, c)) && (t == Idle(s, c) ==> r == s)
      && (t != Idle(s, c) ==> code == Done && t in r.threads && OnlyIn(r, t, Nowhere))
      && (t != Idle(s, c) ==>
            r.threads[t] == s.threads[t].(state := Sleeping, wakeup := (now + ms - TICK) % W64))
      && OthersSame(s, r, t) && TablesSame(s, r, {}) && r.active == s.active
  {
    StepKeeps(s, SleepEvent(c, now, ms));
    CallerOk(s, c);
    if Active(s, c) != Idle(s, c) { HomeIsOnly(Sleep(s, c, now, ms).0, Active(s, c), Nowhere); }
  }

  /** A lock by an idle thread is refused. Any other caller is blocked for the reason it gives and is in no table, also
      after every pass. Nothing else changes. */
  lemma LockMeans(s: Sched, c: int, why: WaitType)
    requires Inv(s) && Enabled(s, LockEvent(c, why))
    ensures var ((r, node), t) := (Lock(s, c, why), Active(s, c));
      && (t == Idle(s, c) ==> r == s && node == NOBODY)
      && (t != Idle(s, c) ==> node == t && t in r.threads && OnlyIn(r, t, Nowhere))
      && (t != Idle(s, c) ==> r.threads[t] == s.threads[t].(state := Waiting, why := why))
      && OthersSame(s, r, t) && TablesSame(s, r, {}) && r.active == s.active
  {
    StepKeeps(s, LockEvent(c, why));
    CallerOk(s, c);
    HomeIsOnly(Lock(s, c, why).0, Active(s, c), Nowhere);
  }

  /** An unlock readies exactly a thread that is blocked for the reason given, behind everyone at its level, and
      changes nothing else; otherwise it changes nothing and says why. */
  lemma UnlockMeans(s: Sched, c: int, t: int, why: WaitType)
    requires Inv(s)
    ensures var (r, code) := Unlock(s, c, t, why);
      && (code == Done <==> t in s.threads && s.threads[t].state == Waiting && s.threads[t].why == why)
      && (code != Done ==> r == s)
      && (code == NoSuchThread <==> t !in s.threads || t == Idle(s, c))
      && (code == NoSemBlocked ==> why == SemWait) && (code == NoMutexBlocked ==> why == MutexWait)
      && (code == NullArgument ==> why == KeyboardWait)
      && code in {Done, NoSuchThread, NoSemBlocked, NoMutexBlocked, NullArgument}
      && (code == Done ==> QueuedLast(s, r, t) && OthersSame(s, r, t) && r.active == s.active)
      && (code == Done ==> TablesSame(s, r, {ReadyTable(s.threads[t].cpu, s.threads[t].prio)}))
  {
    assert CpuOk(s, c) && ThreadOk(s, t) && ThreadOk(s, NOBODY);
  }

  /** A change of priority touches the priority of the caller and nothing else. */
  lemma PriorityMeans(s: Sched, c: int, prio: int)
    requires Inv(s) && Enabled(s, PriorityEvent(c, prio))
    ensures var ((r, code), t) := (SetPriority(s, c, prio), Active(s, c));
      && (code == ForbiddenPriority <==> prio > LOWEST) && (code != Done ==> r == s)
      && (code == Done ==> t in r.threads && r.threads[t] == s.threads[t].(prio := prio))
      && OthersSame(s, r, t) && TablesSame(s, r, {}) && r.active == s.active
  {
  }

  // A pass of CPU c changes at most the state of a thread, and only that of a thread of its own CPU.
  ghost predicate PassedAt(s: Sched, r: Sched, c: int, u: int) {
    && (u in s.threads <==> u in r.threads)
    && (u in s.threads ==> r.threads[u] == s.threads[u].(state := r.threads[u].state))
    && (u in s.threads && s.threads[u].cpu != c ==> r.threads[u] == s.threads[u])
  }

  lemma WakeTouches(s: Sched, c: int, now: int, u: int)
    requires QueueInv(s) && Active(s, c) == NOBODY && u in s.threads
    ensures PassedAt(s, Wake(s, c, now), c, u)
  {
    var q := Table(s, SleepTable(c));
    WakeByPosition(s, c, now, u);
    assert TableOk(s, SleepTable(c)) && AtHome(s, SleepTable(c), u);
  }

  lemma ElectTouches(s: Sched, c: int, u: int)
    requires QueueInv(s) && Active(s, c) == NOBODY && u in s.threads && Elect(s, c).1 == Done
    ensures PassedAt(s, Elect(s, c).0, c, u)
  {
    var p := BestFrom(s, c, 0);
    EntryIsThread(s, ReadyTable(c, p), |Table(s, ReadyTable(c, p))| - 1);
  }

  /** A pass of a CPU makes the elected thread the only running one there; the one that ran before is ready again, a
      thread that blocks stays blocked. It changes nothing but the states of threads of its own CPU. */
  lemma PassMeans(s: Sched, c: int, now: int, u: int)
    requires Inv(s) && Active(s, c) in s.threads
    ensures var r := Pass(s, c, now).0;
      && PassedAt(s, r, c, u) && r.roster == s.roster && (forall d :: d != c ==> Active(r, d) == Active(s, d))
      && (u in s.threads && s.threads[u].cpu == c ==>
            && (r.threads[u].state == Running <==> Active(r, c) == u)
            && (Awake(s.threads[u].state) && Active(r, c) != u ==> r.threads[u].state == Ready)
            && (!Awake(s.threads[u].state) && s.threads[u].state != Sleeping ==> r.threads[u] == s.threads[u])
            && (s.threads[u].state == Sleeping ==> r.threads[u].state == Sleeping || Awake(r.threads[u].state)))
  {
    CallerOk(s, c);
    var s1 := Requeue(s, c);
    RequeueKeeps(s, c);
    PassStep(s, c, now);
    PassActive(s, c, now);
    PassKeysStay(s, c, now);
    if u in s.threads {
      HasCurrent(s, c);
      PassMild(s, c, now);
      assert MildAt(s, Pass(s, c, now).0, u) && ThreadOk(Pass(s, c, now).0, u);
      assert PassedAt(s, s1, c, u);
      WakeTouches(s1, c, now, u);
      WakeKeeps(s1, c, now);
      ElectTouches(AtElection(s, c, now), c, u);
      PassElects(s, c, now);
    }
  }
}
