/**
  The scheduler's tables and calls (core/scheduler.c) as an object over the kernel's linked queues, proved against the
  steps of Scheduling. Each method body is one critical section; a blocking call ends where its scheduling pass is
  raised.
 */
module Scheduler {

  import opened Basics
  import opened KernelQueue
  import opened Scheduling
  import opened ThreadTables

  // The places for which there is a table.
  predicate HasTable(cpus: int, pl: Place) {
    match pl
    case Nowhere => false
    case ReadyTable(c, p) => 0 <= c < cpus && 0 <= p <= LOWEST
    case SleepTable(c) => 0 <= c < cpus
    case ZombieTable => true
  }

  class SchedulerObject {
    var threads: map<int, Thread>
    var activeThread: map<int, int>
    const memory: QueueMemory<int>
    const tables: map<Place, int>         // the queue of each table
    const globalTable: int
    var nodeOf: map<int, int>             // the scheduling node of each thread
    var threadCount: int
    const cpus: int
    var idleThread: map<int, int>
    var initThread: int

    ghost var lay: Layout                   // where the nodes are and what the linked tables stand for
    ghost var roll: seq<int>                // what the global table stands for
    ghost var blocked: map<int, int>        // the wait queue each waiting thread is in
    ghost var waits: map<int, seq<int>>     // the threads in each wait queue, head first

    ghost predicate Valid()
      reads this, memory
    {
      && memory.Valid() && LayoutOk(memory.nodes, memory.lists, lay) && nodeOf.Keys == threads.Keys
      && lay == Layout(tables, globalTable, nodeOf, lay.where, lay.rows, blocked, waits)
      && roll == Data(memory.nodes, memory.lists[globalTable])
      && (forall t :: t in blocked ==> t in threads && threads[t].state == Waiting)
      && Nowhere !in tables && forall pl {:trigger HasTable(cpus, pl)} :: HasTable(cpus, pl) ==> pl in tables
    }

    ghost function View(): Sched
      reads this
    {
      Sched(threads, activeThread, lay.rows, Roster(roll, threadCount, cpus, idleThread, initThread))
    }

    /** sched_init, with the empty queues it has created, up to the creation of the first idle thread. */
    constructor (memory: QueueMemory<int>, cpus: int, init: int, tables: map<Place, int>, globalTable: int)
      requires memory.Valid() && globalTable != NULL && globalTable in memory.queues && memory.lists[globalTable] == []
      requires forall pl :: pl in tables <==> HasTable(cpus, pl)
      requires forall pl :: pl in tables ==>
        tables[pl] != NULL && tables[pl] in memory.queues && tables[pl] != globalTable && memory.lists[tables[pl]] == []
      requires forall pl, ql :: pl in tables && ql in tables && pl != ql ==> tables[pl] != tables[ql]
      ensures Valid() && View().threads == map[] && View().active == map[] && (forall pl :: Table(View(), pl) == [])
      ensures View().roster == Roster([], 0, cpus, map[], init) && waits == map[]
    {
      this.memory, this.cpus, this.tables, this.globalTable := memory, cpus, tables, globalTable;
      threads, activeThread, nodeOf, blocked, waits := map[], map[], map[], map[], map[];
      threadCount, idleThread, initThread := 0, map[], init;
      new;
      lay, roll := Layout(tables, globalTable, map[], map[], map pl | pl in tables :: [], map[], map[]), [];
      forall pl | pl in tables ensures PlaceOk(memory.nodes, memory.lists, lay, pl) {}
      forall pl, ql | pl in tables && ql in tables && pl != ql ensures TwoPlaces(lay, pl, ql) {}
    }

    function Current(c: int): int
      reads this
    {
      if c in activeThread then activeThread[c] else NOBODY
    }

    function IdleOf(c: int): int
      reads this
    {
      if c in idleThread then idleThread[c] else NOBODY
    }

    // ----- The wait queues beside the tables -----

    // What holds while a wait queue changes: everything but the layout, which is that of the memory before.
    ghost predicate Between(nodes: Nodes, lists: map<int, seq<int>>)
      reads this, memory
    {
      && memory.Valid() && NULL !in nodes && LayoutOk(nodes, lists, lay) && nodeOf.Keys == threads.Keys
      && lay == Layout(tables, globalTable, nodeOf, lay.where, lay.rows, blocked, waits)
      && roll == Data(nodes, lists[globalTable])
      && (forall t :: t in blocked ==> t in threads && threads[t].state == Waiting)
      && Nowhere !in tables && forall pl {:trigger HasTable(cpus, pl)} :: HasTable(cpus, pl) ==> pl in tables
    }

    // A waiting thread has been pushed on a wait queue.
    ghost method NoteEntered(nodes: Nodes, lists: map<int, seq<int>>, q: int, t: int)
      requires Between(nodes, lists) && q in waits && q in lists
      requires t in threads && threads[t].state == Waiting && t !in blocked && t !in lay.where
      requires memory.lists == lists[q := [nodeOf[t]] + lists[q]] && SameData(nodes, memory.nodes, NULL)
      requires forall n :: n in nodes ==> memory.nodes[n].enlisted == (n == nodeOf[t] || nodes[n].enlisted)
      modifies this`lay, this`blocked, this`waits
      ensures Valid() && View() == old(View())
      ensures blocked == old(blocked)[t := q] && waits == old(waits)[q := [t] + old(waits)[q]]
    {
      var y := lay;
      blocked, waits := blocked[t := q], waits[q := [t] + waits[q]];
      lay := y.(blocked := blocked, waits := waits);
      WaitPushed(nodes, lists, memory.nodes, memory.lists, y, lay, q, t);
    }

    // The thread that has waited longest has been popped from a wait queue.
    ghost method NoteLeft(nodes: Nodes, lists: map<int, seq<int>>, q: int)
      requires Between(nodes, lists) && q in waits && q in lists && lists[q] != [] && waits[q] != []
      requires memory.lists == lists[q := lists[q][..|lists[q]| - 1]] && SameData(nodes, memory.nodes, NULL)
      requires forall i, j :: 0 <= i < j < |lists[q]| ==> lists[q][i] != lists[q][j]
      requires forall n :: n in nodes ==>
        memory.nodes[n].enlisted == (n != lists[q][|lists[q]| - 1] && nodes[n].enlisted)
      modifies this`lay, this`blocked, this`waits
      ensures Valid() && View() == old(View())
      ensures var w := old(waits)[q]; blocked == old(blocked) - {w[|w| - 1]} && waits == old(waits)[q := w[..|w| - 1]]
    {
      var y, w := lay, waits[q];
      var t := w[|w| - 1];
      blocked, waits := blocked - {t}, waits[q := w[..|w| - 1]];
      lay := y.(blocked := blocked, waits := waits);
      WaitPopped(nodes, lists, memory.nodes, memory.lists, y, lay, q, t);
    }

    // A wait queue has been created.
    ghost method NoteCreated(lists: map<int, seq<int>>, q: int)
      requires Between(memory.nodes, lists) && q != NULL && q !in lists && memory.lists == lists[q := []]
      modifies this`lay, this`waits
      ensures Valid() && View() == old(View()) && waits == old(waits)[q := []]
    {
      var y := lay;
      waits := waits[q := []];
      lay := y.(waits := waits);
      WaitCreated(memory.nodes, lists, memory.lists, y, lay, q);
    }

    // What a wait queue stands for.
    lemma WaitAt(q: int)
      requires Valid() && q in waits
      ensures q != NULL && q in memory.queues && q != globalTable && InNodes(memory.nodes, memory.lists[q])
      ensures waits[q] == Data(memory.nodes, memory.lists[q]) && |waits[q]| == |memory.lists[q]|
      ensures forall i :: 0 <= i < |waits[q]| ==> waits[q][i] in blocked && blocked[waits[q][i]] == q
      ensures forall i :: 0 <= i < |waits[q]| ==> waits[q][i] in nodeOf && nodeOf[waits[q][i]] == memory.lists[q][i]
    {
      assert WaitOk(memory.nodes, memory.lists, lay, q);
    }

    // The facts about one table.
    lemma TableAt(pl: Place)
      requires Valid() && pl in tables
      ensures tables[pl] != NULL && tables[pl] in memory.queues && PlaceOk(memory.nodes, memory.lists, lay, pl)
      ensures pl in lay.rows && Table(View(), pl) == lay.rows[pl] ==
        Rows(memory.nodes, memory.lists[tables[pl]], pl.SleepTable?)
    {
      assert PlaceOk(memory.nodes, memory.lists, lay, pl);
    }

    // A thread that no table and no wait queue holds has a node that is not queued.
    lemma NotHeld(t: int)
      requires Valid() && t in threads && t !in blocked && forall pl :: !Holds(Table(View(), pl), t)
      ensures t !in lay.where && nodeOf[t] != NULL && nodeOf[t] in memory.nodes && !memory.nodes[nodeOf[t]].enlisted
        && memory.nodes[nodeOf[t]].data == t
    {
      assert NodeAt(memory.nodes, memory.lists, lay, t);
      if t in lay.where {
        var pl := lay.where[t];
        HeldWhere(memory.nodes, memory.lists, lay, pl, t);
        TableAt(pl);
      }
    }

    // A thread whose node may be queued in a table.
    lemma MayEnter(pl: Place, t: int)
      requires Valid() && pl in tables && t in threads && t !in blocked && forall ql :: !Holds(Table(View(), ql), t)
      ensures t !in lay.where && nodeOf[t] != NULL && nodeOf[t] in memory.nodes && !memory.nodes[nodeOf[t]].enlisted
        && memory.nodes[nodeOf[t]].data == t
      ensures tables[pl] != NULL && tables[pl] in memory.queues && PlaceOk(memory.nodes, memory.lists, lay, pl)
      ensures pl in lay.rows && Table(View(), pl) == lay.rows[pl] ==
        Rows(memory.nodes, memory.lists[tables[pl]], pl.SleepTable?)
    {
      NotHeld(t);
      TableAt(pl);
    }

    // kernel_queue_push of a thread's node on a table.
    method PushOn(pl: Place, t: int)
      requires Valid() && pl in tables && !pl.SleepTable? && t in threads && t !in blocked
      requires forall ql :: !Holds(Table(View(), ql), t)
      modifies this`lay, memory
      ensures Valid() && View() == SetTable(old(View()), pl, [Item(0, t)] + Table(old(View()), pl))
    {
      MayEnter(pl, t);
      ghost var nodes, lists, y := memory.nodes, memory.lists, lay;
      var err := memory.Push(nodeOf[t], tables[pl]);
      lay := y.(where := y.where[t := pl], rows := y.rows[pl := [Item(0, t)] + y.rows[pl]]);
      PushedRows(nodes, lists, memory.nodes, memory.lists, y, lay, pl, t);
    }

    lemma NowhereHeld(t: int)
      requires Valid() && t !in lay.where
      ensures forall pl :: !Holds(Table(View(), pl), t)
    {
      forall pl ensures !Holds(Table(View(), pl), t) {
        if pl in tables {
          HeldWhere(memory.nodes, memory.lists, lay, pl, t);
          TableAt(pl);
        }
      }
    }

    // kernel_queue_push_prio of a thread's node on the sleep table of CPU c. The priority argument has 32 bits.
    method PushAsleep(t: int, c: int)
      requires Valid() && SleepTable(c) in tables && t in threads && t !in blocked
      requires forall ql :: !Holds(Table(View(), ql), t)
      modifies this`lay, memory
      ensures Valid() && View() == PushSleeper(old(View()), t, c)
    {
      SleepIn(t, SleepTable(c), threads[t].wakeup % W32);
    }

    method SleepIn(t: int, pl: Place, key: int)
      requires Valid() && pl in tables && pl.SleepTable? && t in threads && t !in blocked
      requires forall ql :: !Holds(Table(View(), ql), t)
      modifies this`lay, memory
      ensures Valid() && View() == SetTable(old(View()), pl, InsertItem(Table(old(View()), pl), Item(key, t)))
    {
      assert this as object != memory;
      MayEnter(pl, t);
      ghost var nodes, lists, y := memory.nodes, memory.lists, lay;
      var err, k := memory.PushPrio(nodeOf[t], tables[pl], key);
      lay := y.(where := y.where[t := pl], rows := y.rows[pl := InsertItem(y.rows[pl], Item(key, t))]);
      SleptRows(nodes, lists, memory.nodes, memory.lists, y, lay, pl, t, k, key);
    }

    // No node comes twice in a queue.
    lemma QueueDistinct(q: int)
      requires memory.Valid() && q in memory.queues
      ensures forall i, j :: 0 <= i < j < |memory.lists[q]| ==> memory.lists[q][i] != memory.lists[q][j]
    {
      QueueAt(memory.nodes, memory.queues, memory.lists, memory.removed, q);
      forall i, j | 0 <= i < j < |memory.lists[q]| ensures memory.lists[q][i] != memory.lists[q][j] {
        assert Differ(memory.lists[q], i, j);
      }
    }

    // kernel_queue_pop on a table: the thread at the tail.
    method PopFrom(pl: Place) returns (t: int, found: bool)
      requires Valid() && pl in tables
      modifies this`lay, memory
      ensures Valid()
      ensures var q := Table(old(View()), pl);
        && found == (q != [])
        && (found ==> t == q[|q| - 1].value && t in threads && View() == SetTable(old(View()), pl, q[..|q| - 1]))
        && (!found ==> View() == old(View()))
      ensures found ==> t !in blocked && forall ql :: !Holds(Table(View(), ql), t)
    {
      TableAt(pl);
      t, found := PopNode(pl);
      if found {
        NowhereHeld(t);
      }
    }

    method PopNode(pl: Place) returns (t: int, found: bool)
      requires Valid() && pl in tables && tables[pl] != NULL && tables[pl] in memory.queues && pl in lay.rows
        && |lay.rows[pl]| == |memory.lists[tables[pl]]|
      modifies this`lay, memory
      ensures Valid() && found == (old(lay).rows[pl] != [])
      ensures found ==> var q := old(lay).rows[pl];
        t == q[|q| - 1].value && t in threads && t !in lay.where && t !in blocked
          && lay.rows == old(lay).rows[pl := q[..|q| - 1]]
      ensures !found ==> lay.rows == old(lay).rows
    {
      QueueDistinct(tables[pl]);
      ghost var nodes, lists, y := memory.nodes, memory.lists, lay;
      ghost var l, q := lists[tables[pl]], lay.rows[pl];
      var node, err := memory.Pop(tables[pl]);
      t, found := NOBODY, node != NULL;
      if found {
        t := memory.nodes[node].data;
        lay := y.(where := y.where - {t}, rows := y.rows[pl := q[..|q| - 1]]);
        PoppedRows(nodes, lists, memory.nodes, memory.lists, y, lay, pl, t);
      }
    }

    ghost predicate PrioritiesOk()
      reads this
    {
      forall t :: t in threads ==> 0 <= threads[t].prio <= LOWEST
    }

    method SetReady(t: int, c: int)
      requires Valid() && t in threads && t !in blocked && 0 <= c < cpus && PrioritiesOk() && forall pl ::
        !Holds(Table(View(), pl), t)
      modifies this`threads, this`lay, memory
      ensures Valid() && PrioritiesOk() && View() == MakeReady(old(View()), t, c)
    {
      var th := threads[t];
      threads := threads[t := th.(state := Ready)];
      assert View() == old(View()).(threads := threads);
      assert forall pl :: Table(View(), pl) == Table(old(View()), pl);
      assert HasTable(cpus, ReadyTable(c, th.prio));
      PushOn(ReadyTable(c, th.prio), t);
    }

    // The wake-up loop of select_thread.
    method WakeSleepers(c: int, now: int)
      requires Valid() && 0 <= c < cpus && PrioritiesOk()
      modifies this`threads, this`lay, memory
      ensures Valid() && PrioritiesOk() && View() == Wake(old(View()), c, now)
    {
      ghost var s := View();
      var going := true;
      while going
        invariant Valid() && PrioritiesOk()
        invariant if going then Wake(View(), c, now) == Wake(s, c, now) else View() == Wake(s, c, now)
        decreases if going then 1 + |Table(View(), SleepTable(c))| else 0
      {
        going := WakeOne(c, now);
      }
    }

    lemma WakeDue(s: Sched, popped: Sched, c: int, now: int, t: int)
      requires var q := Table(s, SleepTable(c));
        q != [] && t == q[|q| - 1].value && t in s.threads && popped == SetTable(s, SleepTable(c), q[..|q| - 1])
      requires s.threads[t].wakeup < now
      ensures Wake(MakeReady(popped, t, c), c, now) == Wake(s, c, now)
      ensures |Table(MakeReady(popped, t, c), SleepTable(c))| < |Table(s, SleepTable(c))|
    {
    }

    // One pass of the loop: false when it ends.
    method WakeOne(c: int, now: int) returns (going: bool)
      requires Valid() && 0 <= c < cpus && PrioritiesOk()
      modifies this`threads, this`lay, memory
      ensures Valid() && PrioritiesOk()
      ensures if going then Wake(View(), c, now) == Wake(old(View()), c, now) else View() == Wake(old(View()), c, now)
      ensures going ==> |Table(View(), SleepTable(c))| < |Table(old(View()), SleepTable(c))|
    {
      ghost var s := View();
      assert HasTable(cpus, SleepTable(c));
      var t, found := PopFrom(SleepTable(c));
      ghost var popped := View();
      if !found {
        return false;
      }
      if threads[t].wakeup < now {
        SetReady(t, c);
        WakeDue(s, popped, c, now, t);
        return true;
      }
      PushAsleep(t, c);
      return false;
    }

    // The election loop of select_thread: the tail of the best level, if any level has one.
    method PopBest(c: int) returns (t: int, found: bool)
      requires Valid() && 0 <= c < cpus
      modifies this`lay, memory
      ensures Valid() && Picked(old(View()), c, t, found, View()) && (found ==> t !in blocked)
    {
      var i := 0;
      t, found := NOBODY, false;
      ghost var s := View();
      while i <= LOWEST && !found
        invariant 0 <= i <= LOWEST + 1 && Valid()
        invariant !found ==> View() == s && BestFrom(s, c, 0) == BestFrom(s, c, i)
        invariant found ==> i <= LOWEST && Picked(s, c, t, true, View()) && t !in blocked
        decreases LOWEST + 1 - i, !found
      {
        assert HasTable(cpus, ReadyTable(c, i));
        t, found := PopFrom(ReadyTable(c, i));
        if !found {
          i := i + 1;
        }
      }
    }

    ghost predicate Picked(s: Sched, c: int, t: int, found: bool, r: Sched) {
      var p := BestFrom(s, c, 0);
      if !found then p > LOWEST && r == s
      else
        && p <= LOWEST && t in s.threads
        && var q := Table(s, ReadyTable(c, p));
           q != [] && t == q[|q| - 1].value && r == SetTable(s, ReadyTable(c, p), q[..|q| - 1])
    }

    lemma PickedElect(s: Sched, c: int, t: int, found: bool, r: Sched)
      requires Picked(s, c, t, found, r)
      ensures Elect(s, c) == if found then (SetActive(SetThread(r, t, s.threads[t].(state := Running)), c, t), Done)
        else (s, KernelPanic)
    {
    }

    // The thread becomes the current one of CPU c.
    method Install(c: int, t: int)
      requires Valid() && t in threads && t !in blocked
      modifies this`threads, this`activeThread
      ensures Valid() && View() == SetActive(SetThread(old(View()), t, old(View()).threads[t].(state := Running)), c, t)
    {
      activeThread := activeThread[c := t];
      threads := threads[t := threads[t].(state := Running)];
    }

    // The election of select_thread.
    method ElectNext(c: int) returns (code: Code)
      requires Valid() && 0 <= c < cpus
      modifies this`threads, this`lay, this`activeThread, memory
      ensures Valid() && (View(), code) == Elect(old(View()), c)
    {
      ghost var s := View();
      var t, found := PopBest(c);
      PickedElect(s, c, t, found, View());
      if !found {
        return KernelPanic;
      }
      Install(c, t);
      return Done;
    }

    // What the callers of a CPU's own calls can rely on.
    lemma CallerAt(c: int)
      requires Valid() && Inv(View()) && Current(c) in threads
      ensures 0 <= c < cpus && threads[Current(c)].cpu == c && PrioritiesOk()
    {
      assert CpuOk(View(), c) && ThreadOk(View(), NOBODY) && ThreadOk(View(), Current(c));
      forall t | t in threads ensures 0 <= threads[t].prio <= LOWEST { assert ThreadOk(View(), t); }
    }

    // A thread that belongs to no table is in none.
    lemma Homeless(t: int)
      requires Valid() && QueueInv(View()) && Home(View(), t) == Nowhere
      ensures forall pl :: !Holds(Table(View(), pl), t)
    {
      forall pl ensures !Holds(Table(View(), pl), t) {
        if pl != Nowhere { assert TableOk(View(), pl) && AtHome(View(), pl, t); }
      }
    }

    /** select_thread: requeueing, wake-up and election on CPU c at uptime now. */
    method SelectThread(c: int, now: int) returns (code: Code)
      requires Valid() && Inv(View()) && Current(c) in threads
      modifies this`threads, this`lay, this`activeThread, memory
      ensures Valid() && Inv(View()) && code == Done && (View(), code) == Pass(old(View()), c, now)
    {
      CallerAt(c);
      CallerOk(View(), c);
      PassStep(View(), c, now);
      Requeued(c);
      WakeSleepers(c, now);
      code := ElectNext(c);
    }

    // The first part of select_thread.
    method Requeued(c: int)
      requires Valid() && Inv(View()) && Current(c) in threads && 0 <= c < cpus && threads[Current(c)].cpu == c
        && PrioritiesOk()
      modifies this`threads, this`lay, this`activeThread, memory
      ensures Valid() && PrioritiesOk() && View() == Requeue(old(View()), c)
    {
      var prev := Current(c);
      CallerOk(View(), c);
      if threads[prev].state == Running || threads[prev].state == Sleeping { Homeless(prev); }
      activeThread := activeThread[c := NOBODY];
      assert View() == SetActive(old(View()), c, NOBODY);
      assert forall pl :: Table(View(), pl) == Table(old(View()), pl);
      if threads[prev].state == Running {
        SetReady(prev, c);
      } else if threads[prev].state == Sleeping {
        assert HasTable(cpus, SleepTable(c));
        PushAsleep(prev, c);
      }
    }

    /** sched_sleep */
    method SleepFor(c: int, now: int, ms: int) returns (code: Code)
      requires Valid() && Inv(View()) && Calls(View(), c)
      modifies this`threads
      ensures Valid() && Inv(View()) && (View(), code) == Sleep(old(View()), c, now, ms)
    {
      StepKeeps(View(), SleepEvent(c, now, ms));
      var t := Current(c);
      if t == IdleOf(c) {
        return Unauthorized;
      }
      threads := threads[t := threads[t].(state := Sleeping, wakeup := (now + ms - TICK) % W64)];
      return Done;
    }

    /** sched_lock_thread */
    method LockThread(c: int, why: WaitType) returns (thread: int)
      requires Valid() && Inv(View()) && Calls(View(), c)
      modifies this`threads
      ensures Valid() && Inv(View()) && (View(), thread) == Lock(old(View()), c, why)
      ensures thread != NOBODY ==> thread !in blocked && thread !in lay.where
      ensures thread != NOBODY ==>
        thread in nodeOf && nodeOf[thread] in memory.nodes && !memory.nodes[nodeOf[thread]].enlisted
    {
      StepKeeps(View(), LockEvent(c, why));
      CallerOk(View(), c);
      var t := Current(c);
      if t == IdleOf(c) {
        return NOBODY;
      }
      Homeless(t);
      NotHeld(t);
      threads := threads[t := threads[t].(state := Waiting, why := why)];
      return t;
    }

    /** sched_unlock_thread, for a thread whose node has been taken out of its wait queue. */
    method UnlockThread(c: int, t: int, why: WaitType) returns (code: Code)
      requires Valid() && Inv(View()) && t !in blocked
      modifies this`threads, this`lay, memory
      ensures Valid() && Inv(View()) && (View(), code) == Unlock(old(View()), c, t, why)
    {
      StepKeeps(View(), UnlockEvent(c, t, why));
      if t !in threads || t == IdleOf(c) {
        return NoSuchThread;
      }
      if threads[t].state != Waiting || threads[t].why != why {
        return Mismatch(why);
      }
      assert ThreadOk(View(), t);
      forall u | u in threads ensures 0 <= threads[u].prio <= LOWEST { assert ThreadOk(View(), u); }
      Homeless(t);
      SetReady(t, threads[t].cpu);
      return Done;
    }

    /** sched_set_priority */
    method ChangePriority(c: int, prio: int) returns (code: Code)
      requires Valid() && Inv(View()) && Calls(View(), c) && 0 <= prio
      modifies this`threads
      ensures Valid() && Inv(View()) && (View(), code) == SetPriority(old(View()), c, prio)
    {
      StepKeeps(View(), PriorityEvent(c, prio));
      if prio > LOWEST {
        return ForbiddenPriority;
      }
      threads := threads[Current(c) := threads[Current(c)].(prio := prio)];
      return Done;
    }

    // The facts about the queue of a table, and of the global table.
    lemma QueuesAt()
      requires Valid()
      ensures globalTable != NULL && globalTable in memory.queues && NULL !in memory.nodes
      ensures InNodes(memory.nodes, memory.lists[globalTable])
    {
    }

    // A scheduling node is created.
    method AddNode(id: int, th: Thread, node: int)
      requires Valid() && id !in threads && node != NULL && node !in memory.nodes
      modifies this`threads, this`lay, this`nodeOf, memory
      ensures Valid() && View() == SetThread(old(View()), id, th)
      ensures memory.nodes.Keys == old(memory.nodes).Keys + {node} && nodeOf == old(nodeOf)[id := node]
    {
      ghost var nodes, y := memory.nodes, lay;
      memory.CreateNode(node, id);
      threads, nodeOf := threads[id := th], nodeOf[id := node];
      lay := y.(nodeOf := y.nodeOf[id := node]);
      NodeAdded(nodes, memory.lists, memory.nodes, y, lay, id, node);
    }

    // A node for the global table is created.
    method AddSpare(id: int, globalNode: int)
      requires Valid() && globalNode != NULL && globalNode !in memory.nodes
      modifies memory
      ensures Valid() && globalNode in memory.nodes && memory.nodes[globalNode] == Node(id, 0, false, NULL, NULL)
      ensures forall t :: t in nodeOf ==> nodeOf[t] != globalNode
    {
      ghost var nodes := memory.nodes;
      forall t | t in nodeOf ensures nodeOf[t] in nodes { assert NodeAt(nodes, memory.lists, lay, t); }
      memory.CreateNode(globalNode, id);
      NodesAdded(nodes, memory.lists, memory.nodes, lay);
    }

    // A second node of the thread goes to the global table.
    method EnterGlobal(id: int, globalNode: int)
      requires Valid() && globalNode != NULL && globalNode !in memory.nodes
      modifies this`roll, memory
      ensures Valid() && View() == old(View()).(roster := old(View()).roster.(global := [id]
        + old(View()).roster.global))
    {
      AddSpare(id, globalNode);
      PushGlobal(globalNode);
    }

    method PushGlobal(globalNode: int)
      requires Valid() && globalNode != NULL && globalNode in memory.nodes && !memory.nodes[globalNode].enlisted
      requires forall t :: t in nodeOf ==> nodeOf[t] != globalNode
      modifies this`roll, memory
      ensures Valid() && roll == [old(memory.nodes)[globalNode].data] + old(roll)
    {
      ghost var nodes, lists := memory.nodes, memory.lists;
      QueuesAt();
      var err := memory.Push(globalNode, globalTable);
      GlobalPushed(nodes, lists, memory.nodes, memory.lists, lay, globalNode);
      roll := [nodes[globalNode].data] + roll;
    }

    method EnrollThread(id: int, th: Thread, node: int, globalNode: int)
      requires Valid() && id !in threads && node != NULL && globalNode != NULL && node != globalNode
      requires node !in memory.nodes && globalNode !in memory.nodes
      modifies this`threads, this`roll, this`lay, this`nodeOf, this`threadCount, memory
      ensures Valid() && View() == Enroll(old(View()), id, th)
    {
      AddNode(id, th, node);
      EnterGlobal(id, globalNode);
      threadCount := threadCount + 1;
    }

    /** sched_create_kernel_thread. node and globalNode: the addresses that kernel_queue_create_node delivers. */
    method CreateThread(id: int, prio: int, cpu: int, ok: bool, node: int, globalNode: int) returns (code: Code)
      requires Valid() && Inv(View()) && Enabled(View(), CreateEvent(id, prio, cpu, ok))
      requires ok ==>
        node != NULL && globalNode != NULL && node != globalNode && node !in memory.nodes && globalNode !in memory.nodes
      modifies this`threads, this`lay, this`roll, this`nodeOf, this`threadCount, memory
      ensures Valid() && Inv(View()) && (View(), code) == Create(old(View()), id, prio, cpu, ok)
    {
      StepKeeps(View(), CreateEvent(id, prio, cpu, ok));
      if cpu > cpus - 1 {
        return Unauthorized;
      }
      if prio > LOWEST {
        return ForbiddenPriority;
      }
      if !ok {
        return MallocFailure;
      }
      Homeless(id);
      ghost var s := View();
      EnrollThread(id, NewThread(Ready, prio, cpu), node, globalNode);
      assert forall pl :: Table(View(), pl) == Table(s, pl);
      assert HasTable(cpus, ReadyTable(cpu, prio));
      PushOn(ReadyTable(cpu, prio), id);
      return Done;
    }

    /** create_idle */
    method StartIdle(c: int, id: int, node: int, globalNode: int)
      requires Valid() && Inv(View()) && Enabled(View(), IdleEvent(c, id))
      requires node != NULL && globalNode != NULL && node != globalNode && node !in memory.nodes
        && globalNode !in memory.nodes
      modifies this`threads, this`roll, this`lay, this`nodeOf, this`threadCount, this`idleThread, this`activeThread,
        memory
      ensures Valid() && Inv(View()) && View() == CreateIdle(old(View()), c, id)
    {
      StepKeeps(View(), IdleEvent(c, id));
      EnrollThread(id, NewThread(Running, LOWEST, c), node, globalNode);
      Assign(c, id);
    }

    method Assign(c: int, id: int)
      requires Valid()
      modifies this`idleThread, this`activeThread
      ensures Valid()
      ensures var r := SetActive(old(View()), c, id); View() == r.(roster := r.roster.(idle := r.roster.idle[c := id]))
    {
      idleThread := idleThread[c := id];
      activeThread := activeThread[c := id];
    }

    // The node of x in the zombie table, if it is there.
    method FindZombie(x: int) returns (node: int, ghost k: nat)
      requires Valid() && x in threads && forall pl :: pl != ZombieTable ==> !Holds(Table(View(), pl), x)
      ensures ZombieTable in tables && ZombieTable in lay.rows && tables[ZombieTable] in memory.queues
      ensures node == NULL ==> x !in lay.where && Without(lay.rows[ZombieTable], x) == lay.rows[ZombieTable]
      ensures node != NULL ==> var l := memory.lists[tables[ZombieTable]];
        k < |l| == |lay.rows[ZombieTable]| && l[k] == node == nodeOf[x]
          && Without(lay.rows[ZombieTable], x) == lay.rows[ZombieTable][..k] + lay.rows[ZombieTable][k + 1..]
    {
      assert HasTable(cpus, ZombieTable);
      TableAt(ZombieTable);
      var err;
      node, err, k := memory.Find(tables[ZombieTable], x);
      FoundRows(memory.nodes, memory.lists[tables[ZombieTable]], k, x);
      NowhereElse(x);
    }

    // The thread x leaves a table by the removal of its node at position k.
    method RemoveAt(pl: Place, x: int, ghost k: nat)
      requires Valid() && x in threads && pl in tables && tables[pl] in memory.queues
      requires k < |memory.lists[tables[pl]]| && memory.lists[tables[pl]][k] == nodeOf[x]
      modifies this`lay, memory
      ensures Valid() && pl in old(lay).rows && k < |old(lay).rows[pl]|
      ensures View() == SetTable(old(View()), pl, old(lay).rows[pl][..k] + old(lay).rows[pl][k + 1..])
        && lay.where == old(lay).where - {x}
    {
      TableAt(pl);
      QueueDistinct(tables[pl]);
      assert NodeAt(memory.nodes, memory.lists, lay, x);
      ghost var nodes, lists, y := memory.nodes, memory.lists, lay;
      var err, j := memory.Remove(tables[pl], nodeOf[x]);
      assert j == k;
      lay := y.(where := y.where - {x}, rows := y.rows[pl := y.rows[pl][..k] + y.rows[pl][k + 1..]]);
      LeftRows(nodes, lists, memory.nodes, memory.lists, y, lay, pl, x, k);
    }

    // The node of x leaves the zombie table, if it is there: find and remove.
    method TakeZombie(x: int) returns (node: int)
      requires Valid() && x in threads && forall pl :: pl != ZombieTable ==> !Holds(Table(View(), pl), x)
      modifies this`lay, memory
      ensures Valid() && View() == SetTable(old(View()), ZombieTable, Without(Table(old(View()), ZombieTable), x))
      ensures x !in lay.where && (node != NULL ==> node == nodeOf[x])
    {
      ghost var k;
      node, k := FindZombie(x);
      if node == NULL {
        assert lay.rows == lay.rows[ZombieTable := lay.rows[ZombieTable]];
        return NULL;
      }
      RemoveAt(ZombieTable, x, k);
    }

    // A thread that only the zombie table may hold.
    lemma NowhereElse(x: int)
      requires Valid() && x in threads && forall pl :: pl != ZombieTable ==> !Holds(Table(View(), pl), x)
      ensures x in lay.where ==> lay.where[x] == ZombieTable
      ensures x !in lay.where <==> !Holds(Table(View(), ZombieTable), x)
      ensures nodeOf[x] in memory.nodes && memory.nodes[nodeOf[x]].data == x
    {
      assert NodeAt(memory.nodes, memory.lists, lay, x) && HasTable(cpus, ZombieTable);
      TableAt(ZombieTable);
      HeldWhere(memory.nodes, memory.lists, lay, ZombieTable, x);
      if x in lay.where {
        TableAt(lay.where[x]);
        HeldWhere(memory.nodes, memory.lists, lay, lay.where[x], x);
      }
    }

    // The thread and its scheduling node are freed.
    method FreeThread(x: int, node: int)
      requires Valid() && x in threads && x !in lay.where && x !in blocked && (node != NULL ==> node == nodeOf[x])
      modifies this`threads, this`lay, this`nodeOf, memory
      ensures Valid() && View() == old(View()).(threads := old(View()).threads - {x})
    {
      ghost var nodes, y := memory.nodes, lay;
      assert NodeAt(nodes, memory.lists, y, x);
      NotQueued(nodes, memory.queues, memory.lists, memory.removed, nodeOf[x]);
      if node != NULL {
        var err := memory.DeleteNode(node);
      }
      threads, nodeOf := threads - {x}, nodeOf - {x};
      lay := y.(nodeOf := y.nodeOf - {x});
      NodeDropped(nodes, memory.lists, memory.nodes, y, lay, x);
    }

    // The node of x in the global table.
    method FindGlobal(x: int) returns (node: int, ghost k: nat)
      requires Valid() && x in roll
      ensures node != NULL && k < |memory.lists[globalTable]| && memory.lists[globalTable][k] == node
      ensures k < |roll| == |memory.lists[globalTable]| && Drop(roll, x) == roll[..k] + roll[k + 1..]
      ensures forall t :: t in nodeOf ==> nodeOf[t] != node
    {
      QueuesAt();
      var err;
      node, err, k := memory.Find(globalTable, x);
      ghost var i :| 0 <= i < |roll| && roll[i] == x;
      FoundData(memory.nodes, memory.lists[globalTable], k, x);
      GlobalNotScheduling(memory.nodes, memory.queues, memory.lists, memory.removed, lay, node);
    }

    // The node at position k of the global table is removed.
    method RemoveGlobal(node: int, ghost k: nat)
      requires Valid() && node != NULL && k < |memory.lists[globalTable]| && memory.lists[globalTable][k] == node
      requires forall t :: t in nodeOf ==> nodeOf[t] != node
      modifies this`roll, memory
      ensures Valid() && k < |old(roll)|
        && View() == old(View()).(roster := old(View()).roster.(global := old(roll)[..k] + old(roll)[k + 1..]))
      ensures node in memory.nodes && !memory.nodes[node].enlisted
    {
      ghost var nodes, lists := memory.nodes, memory.lists;
      QueuesAt();
      QueueDistinct(globalTable);
      ghost var l := lists[globalTable];
      var err, j := memory.Remove(globalTable, node);
      assert j == k;
      DataLeft(nodes, memory.nodes, l, k);
      GlobalChanges(nodes, lists, memory.nodes, memory.lists, l[..k] + l[k + 1..], lay, node);
      roll := roll[..k] + roll[k + 1..];
    }

    // A node that serves no thread is deleted.
    method DeleteSpare(node: int)
      requires Valid() && node != NULL && node in memory.nodes && !memory.nodes[node].enlisted && forall t ::
        t in nodeOf ==> nodeOf[t] != node
      modifies memory
      ensures Valid()
    {
      NotQueued(memory.nodes, memory.queues, memory.lists, memory.removed, node);
      OtherDropped(memory.nodes, memory.lists, lay, node);
      var err := memory.DeleteNode(node);
    }

    // A thread that has ended, seen from the tables.
    lemma EndedAt(x: int)
      requires Valid() && QueueInv(View()) && x in threads && threads[x].state == Zombie
      ensures forall pl :: pl != ZombieTable ==> !Holds(Table(View(), pl), x)
      ensures x in View().roster.global && x !in blocked
    {
      forall pl | pl != ZombieTable ensures !Holds(Table(View(), pl), x) {
        if pl != Nowhere { assert TableOk(View(), pl) && AtHome(View(), pl, x); }
      }
    }

    method CleanTables(x: int)
      requires Valid() && x in threads && x !in blocked && forall pl ::
        pl != ZombieTable ==> !Holds(Table(View(), pl), x)
      modifies this`threads, this`lay, this`nodeOf, memory
      ensures Valid() && roll == old(roll)
      ensures View() == SetTable(old(View()), ZombieTable,
        Without(Table(old(View()), ZombieTable), x)).(threads := old(View()).threads - {x})
    {
      var node := TakeZombie(x);
      FreeThread(x, node);
    }

    // The node of x leaves the global table: find, remove and delete.
    method CleanGlobal(x: int)
      requires Valid() && x in roll
      modifies this`roll, memory
      ensures Valid() && View() == old(View()).(roster := old(View()).roster.(global := Drop(old(View()).roster.global,
        x)))
    {
      var node, k := FindGlobal(x);
      RemoveGlobal(node, k);
      DeleteSpare(node);
    }

    /** sched_clean_joined_thread */
    method CleanJoined(x: int)
      requires Valid() && x in threads && x !in blocked && x in roll && forall pl ::
        pl != ZombieTable ==> !Holds(Table(View(), pl), x)
      modifies this`threads, this`lay, this`roll, this`nodeOf, this`threadCount, memory
      ensures Valid() && View() == Remove(old(View()), x)
    {
      CleanTables(x);
      CleanGlobal(x);
      threadCount := threadCount - 1;
    }

    /** sched_wait_thread up to its scheduling pass. */
    method WaitThread(c: int, x: int) returns (code: Code)
      requires Valid() && Inv(View()) && Enabled(View(), WaitEvent(c, x))
      modifies this`threads, this`lay, this`roll, this`nodeOf, this`threadCount, memory
      ensures Valid() && Inv(View()) && (View(), code) == Wait(old(View()), c, x)
    {
      StepKeeps(View(), WaitEvent(c, x));
      if x !in threads {
        return NullArgument;
      }
      if threads[x].state == Zombie {
        EndedAt(x);
        CleanJoined(x);
        return Done;
      }
      var t := Current(c);
      threads := threads[t := threads[t].(state := Joining, links := threads[t].links.(target := x))];
      threads := threads[x := threads[x].(links := threads[x].links.(joiner := t))];
      return Done;
    }

    /** sched_wait_thread from the return of its scheduling pass on. */
    method FinishWait(c: int)
      requires Valid() && Inv(View()) && Enabled(View(), CleanEvent(c))
      modifies this`threads, this`lay, this`roll, this`nodeOf, this`threadCount, memory
      ensures Valid() && Inv(View()) && View() == Clean(old(View()), c)
    {
      StepKeeps(View(), CleanEvent(c));
      var t := Current(c);
      assert JoinOk(View(), t);
      EndedAt(threads[t].links.target);
      LetGoAndClean(t);
    }

    method LetGoAndClean(t: int)
      requires Valid() && t in threads
      requires var x := threads[t].links.target; x in threads && x !in blocked && x in roll && forall pl ::
        pl != ZombieTable ==> !Holds(Table(View(), pl), x)
      modifies this`threads, this`lay, this`roll, this`nodeOf, this`threadCount, memory
      ensures Valid()
      ensures var s := old(View());
        View() == Remove(SetThread(s, t, s.threads[t].(links := s.threads[t].links.(target := NOBODY))),
          s.threads[t].links.target)
    {
      var x := threads[t].links.target;
      ghost var s := View();
      LetGo(t);
      assert forall pl :: Table(View(), pl) == Table(s, pl);
      CleanJoined(x);
    }

    method LetGo(t: int)
      requires Valid() && t in threads
      modifies this`threads
      ensures Valid() && View() == SetThread(old(View()), t,
        old(View()).threads[t].(links := old(View()).threads[t].links.(target := NOBODY)))
    {
      threads := threads[t := threads[t].(links := threads[t].links.(target := NOBODY))];
    }

    // The caller enters the zombie table.
    method BuryThread(t: int)
      requires Valid() && t in threads && t !in blocked && forall pl :: !Holds(Table(View(), pl), t)
      modifies this`threads, this`lay, memory
      ensures Valid() && View() == Bury(old(View()), t)
    {
      threads := threads[t := threads[t].(state := Zombie)];
      assert forall pl :: Table(View(), pl) == Table(old(View()), pl);
      assert HasTable(cpus, ZombieTable);
      PushOn(ZombieTable, t);
    }

    /** thread_exit up to its scheduling pass. */
    method ExitThread(c: int) returns (code: Code)
      requires Valid() && Inv(View()) && Calls(View(), c)
      modifies this`threads, this`lay, memory
      ensures Valid() && (View(), code) == Exit(old(View()), c)
      ensures code == Done ==> Inv(View())
    {
      var t := Current(c);
      if t == IdleOf(c) {
        return KernelPanic;
      }
      ExitStep(View(), c);
      CallerAt(c);
      CallerOk(View(), c);
      Homeless(t);
      if t == initThread {
        threads := threads[t := threads[t].(state := Zombie)];
        return Done;
      }
      var joiner := threads[t].links.joiner;
      ReadyJoiner(t, joiner);
      return Done;
    }

    method ReadyJoiner(t: int, joiner: int)
      requires Valid() && Inv(View()) && PrioritiesOk() && t in threads && threads[t].state == Running && forall pl ::
        !Holds(Table(View(), pl), t)
      requires t != initThread && t != IdleOf(threads[t].cpu) && joiner == threads[t].links.joiner
      modifies this`threads, this`lay, memory
      ensures Valid()
      ensures var s2 := Bury(old(View()), t);
        View() == if joiner in s2.threads && s2.threads[joiner].state == Joining
          then MakeReady(s2, joiner, s2.threads[joiner].cpu) else s2
    {
      if joiner in threads { assert ThreadOk(View(), joiner); }
      BuryKeeps(View(), t);
      BuryThread(t);
      assert PrioritiesOk();
      if joiner in threads && threads[joiner].state == Joining {
        Homeless(joiner);
        SetReady(joiner, threads[joiner].cpu);
      }
    }
  }
}
