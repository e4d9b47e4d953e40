/**
  The scheduler (core/scheduler.c) as a step machine on values. Every critical section and every scheduling pass is
  one atomic step; a blocking call changes the state of the calling thread and the next pass of its CPU switches
  it out.
 */
module Scheduling {

  import opened Basics
  import opened KernelQueue

  const NOBODY: int := -1
  const LOWEST: int := 63
  const TICK: int := 5

  datatype ThreadState = Running | Ready | Sleeping | Waiting | Joining | Zombie

  datatype WaitType = SemWait | MutexWait | KeyboardWait

  // Who joins the thread, and whom the thread joins and has not cleaned up yet.
  datatype Links = Links(joiner: int, target: int)

  datatype Thread = Thread(state: ThreadState, prio: int, cpu: int, wakeup: int, why: WaitType, links: Links)

  // The tables a scheduling node can be in.
  datatype Place = Nowhere | ReadyTable(cpu: int, prio: int) | SleepTable(cpu: int) | ZombieTable

  datatype Roster = Roster(global: seq<int>, count: int, cpus: int, idle: map<int, int>, init: int)

  datatype Sched = Sched(threads: map<int, Thread>, active: map<int, int>, tables: map<Place, seq<Item<int>>>,
    roster: Roster)

  datatype Code = Done | Unauthorized | ForbiddenPriority | MallocFailure | NoSuchThread | NoSemBlocked |
    NoMutexBlocked | NullArgument | KernelPanic

  function Table(s: Sched, pl: Place): seq<Item<int>> {
    if pl in s.tables then s.tables[pl] else []
  }

  function SetTable(s: Sched, pl: Place, q: seq<Item<int>>): Sched {
    s.(tables := s.tables[pl := q])
  }

  function Active(s: Sched, c: int): int {
    if c in s.active then s.active[c] else NOBODY
  }

  function SetActive(s: Sched, c: int, t: int): Sched {
    s.(active := s.active[c := t])
  }

  function Idle(s: Sched, c: int): int {
    if c in s.roster.idle then s.roster.idle[c] else NOBODY
  }

  function SetThread(s: Sched, t: int, th: Thread): Sched {
    s.(threads := s.threads[t := th])
  }

  // ----- select_thread -----

  // The thread becomes ready and goes to the head of its table on CPU c.
  function MakeReady(s: Sched, t: int, c: int): Sched
    requires t in s.threads
  {
    var th := s.threads[t];
    var pl := ReadyTable(c, th.prio);
    SetTable(SetThread(s, t, th.(state := Ready)), pl, [Item(0, t)] + Table(s, pl))
  }

  function PushSleeper(s: Sched, t: int, c: int): Sched
    requires t in s.threads
  {
    var pl := SleepTable(c);
    SetTable(s, pl, InsertItem(Table(s, pl), Item(s.threads[t].wakeup % W32, t)))
  }

  // What happens to the thread that was running. The CPU has no thread until the election.
  function Requeue(s: Sched, c: int): Sched
    requires Active(s, c) in s.threads
  {
    var t := Active(s, c);
    var off := SetActive(s, c, NOBODY);
    match s.threads[t].state
    case Running => MakeReady(off, t, c)
    case Sleeping => PushSleeper(off, t, c)
    case _ => off
  }

  // The wake-up loop: sleepers are popped while their time has passed; the first that must sleep on goes back.
  function Wake(s: Sched, c: int, now: int): Sched
    decreases |Table(s, SleepTable(c))|
  {
    var q := Table(s, SleepTable(c));
    if q == [] then s
    else
      var t := q[|q| - 1].value;
      var popped := SetTable(s, SleepTable(c), q[..|q| - 1]);
      if t !in s.threads then Wake(popped, c, now)
      else if s.threads[t].wakeup < now then Wake(MakeReady(popped, t, c), c, now)
      else PushSleeper(popped, t, c)
  }

  // The first level from i on with a ready thread, LOWEST + 1 if there is none.
  function BestFrom(s: Sched, c: int, i: int): (p: int)
    requires 0 <= i <= LOWEST + 1
    ensures i <= p <= LOWEST + 1
    ensures p <= LOWEST ==> Table(s, ReadyTable(c, p)) != []
    ensures forall j :: i <= j < p ==> Table(s, ReadyTable(c, j)) == []
    decreases s, c, LOWEST + 1 - i
  {
    if i > LOWEST || Table(s, ReadyTable(c, i)) != [] then i else BestFrom(s, c, i + 1)
  }

  // The thread popped from the best level runs next. Without one the kernel panics.
  function Elect(s: Sched, c: int): (Sched, Code) {
    var p := BestFrom(s, c, 0);
    if p > LOWEST then (s, KernelPanic)
    else
      var q := Table(s, ReadyTable(c, p));
      var t := q[|q| - 1].value;
      var popped := SetTable(s, ReadyTable(c, p), q[..|q| - 1]);
      if t !in s.threads then (popped, KernelPanic)
      else (SetActive(SetThread(popped, t, s.threads[t].(state := Running)), c, t), Done)
  }

  /** select_thread */
  function Pass(s: Sched, c: int, now: int): (Sched, Code)
    requires Active(s, c) in s.threads
  {
    Elect(Wake(Requeue(s, c), c, now), c)
  }

  // ----- The calls of threads. The caller is the active thread of CPU c. -----

  function Me(s: Sched, c: int): Thread
    requires Active(s, c) in s.threads
  {
    s.threads[Active(s, c)]
  }

  /** sched_sleep, up to its scheduling pass. */
  function Sleep(s: Sched, c: int, now: int, ms: int): (Sched, Code)
    requires Active(s, c) in s.threads
  {
    if Active(s, c) == Idle(s, c) then (s, Unauthorized)
    else (SetThread(s, Active(s, c), Me(s, c).(state := Sleeping, wakeup := (now + ms - TICK) % W64)), Done)
  }

  /** sched_lock_thread: the node of the caller, or nobody for an idle thread. */
  function Lock(s: Sched, c: int, why: WaitType): (Sched, int)
    requires Active(s, c) in s.threads
  {
    if Active(s, c) == Idle(s, c) then (s, NOBODY)
    else (SetThread(s, Active(s, c), Me(s, c).(state := Waiting, why := why)), Active(s, c))
  }

  function Mismatch(why: WaitType): Code {
    match why
    case SemWait => NoSemBlocked
    case MutexWait => NoMutexBlocked
    case KeyboardWait => NullArgument
  }

  /** sched_unlock_thread, called on CPU c. */
  function Unlock(s: Sched, c: int, t: int, why: WaitType): (Sched, Code) {
    if t !in s.threads || t == Idle(s, c) then (s, NoSuchThread)
    else if s.threads[t].state != Waiting || s.threads[t].why != why then (s, Mismatch(why))
    else (MakeReady(s, t, s.threads[t].cpu), Done)
  }

  function NewThread(state: ThreadState, prio: int, cpu: int): Thread {
    Thread(state, prio, cpu, 0, SemWait, Links(NOBODY, NOBODY))
  }

  function Enroll(s: Sched, id: int, th: Thread): Sched {
    SetThread(s, id, th).(roster := s.roster.(global := [id] + s.roster.global, count := s.roster.count + 1))
  }

  /** sched_create_kernel_thread. id: the new thread; ok: whether every allocation succeeds. */
  function Create(s: Sched, id: int, prio: int, cpu: int, ok: bool): (Sched, Code) {
    if cpu > s.roster.cpus - 1 then (s, Unauthorized)
    else if prio > LOWEST then (s, ForbiddenPriority)
    else if !ok then (s, MallocFailure)
    else
      var pl := ReadyTable(cpu, prio);
      (SetTable(Enroll(s, id, NewThread(Ready, prio, cpu)), pl, [Item(0, id)] + Table(s, pl)), Done)
  }

  /** create_idle: the idle thread of CPU c starts as its current thread. */
  function CreateIdle(s: Sched, c: int, id: int): Sched {
    var r := SetActive(Enroll(s, id, NewThread(Running, LOWEST, c)), c, id);
    r.(roster := r.roster.(idle := r.roster.idle[c := id]))
  }

  /** sched_set_priority */
  function SetPriority(s: Sched, c: int, prio: int): (Sched, Code)
    requires Active(s, c) in s.threads
  {
    if prio > LOWEST then (s, ForbiddenPriority)
    else (SetThread(s, Active(s, c), Me(s, c).(prio := prio)), Done)
  }

  // Taking the first entry of x out of a table, and out of the global table.
  function Without(q: seq<Item<int>>, x: int): seq<Item<int>> {
    if q == [] then [] else if q[0].value == x then q[1..] else [q[0]] + Without(q[1..], x)
  }

  function Drop(g: seq<int>, x: int): seq<int> {
    if g == [] then [] else if g[0] == x then g[1..] else [g[0]] + Drop(g[1..], x)
  }

  /** sched_clean_joined_thread, for the thread x. */
  function Remove(s: Sched, x: int): Sched {
    SetTable(s, ZombieTable, Without(Table(s, ZombieTable), x)).(threads := s.threads - {x},
      roster := s.roster.(global := Drop(s.roster.global, x), count := s.roster.count - 1))
  }

  /** sched_wait_thread, up to its scheduling pass. A thread that has already ended is removed at once. */
  function Wait(s: Sched, c: int, x: int): (Sched, Code)
    requires Active(s, c) in s.threads
  {
    if x !in s.threads then (s, NullArgument)
    else if s.threads[x].state == Zombie then (Remove(s, x), Done)
    else
      var t := Active(s, c);
      var s1 := SetThread(s, t, Me(s, c).(state := Joining, links := Me(s, c).links.(target := x)));
      (SetThread(s1, x, s1.threads[x].(links := s1.threads[x].links.(joiner := t))), Done)
  }

  /** sched_wait_thread, from the return of its scheduling pass on. */
  function Clean(s: Sched, c: int): Sched
    requires Active(s, c) in s.threads
  {
    var t := Active(s, c);
    Remove(SetThread(s, t, Me(s, c).(links := Me(s, c).links.(target := NOBODY))), Me(s, c).links.target)
  }

  // The thread becomes a zombie and enters the zombie table.
  function Bury(s: Sched, t: int): Sched
    requires t in s.threads
  {
    SetTable(SetThread(s, t, s.threads[t].(state := Zombie)), ZombieTable, [Item(0, t)] + Table(s, ZombieTable))
  }

  /** thread_exit, up to its scheduling pass: init only changes its state; another thread enters the zombie table and
      readies the thread that joins it. */
  function Exit(s: Sched, c: int): (Sched, Code)
    requires Active(s, c) in s.threads
  {
    var t := Active(s, c);
    if t == Idle(s, c) then (s, KernelPanic)
    else
      if t == s.roster.init then (SetThread(s, t, Me(s, c).(state := Zombie)), Done)
      else
        var s2 := Bury(s, t);
        var j := Me(s, c).links.joiner;
        if j in s2.threads && s2.threads[j].state == Joining then (MakeReady(s2, j, s2.threads[j].cpu), Done)
        else (s2, Done)
  }

  // ----- Which table a thread belongs to -----

  // An init thread that exits is not put in the zombie table; a thread that falls asleep enters the sleep table when
  // it is switched out.
  function Home(s: Sched, t: int): Place {
    if t !in s.threads then Nowhere
    else
      var th := s.threads[t];
      match th.state
      case Ready => ReadyTable(th.cpu, th.prio)
      case Sleeping => if Active(s, th.cpu) == t then Nowhere else SleepTable(th.cpu)
      case Zombie => if t == s.roster.init then Nowhere else ZombieTable
      case _ => Nowhere
  }

  ghost predicate Holds(q: seq<Item<int>>, t: int) {
    exists i :: 0 <= i < |q| && q[i].value == t
  }

  ghost predicate NoRepeats(q: seq<Item<int>>) {
    forall i, j :: 0 <= i < j < |q| ==> q[i].value != q[j].value
  }

  ghost predicate AtHome(s: Sched, pl: Place, t: int) {
    Holds(Table(s, pl), t) <==> Home(s, t) == pl
  }

  // A table holds, once each, exactly the threads that belong there.
  ghost predicate TableOk(s: Sched, pl: Place) {
    NoRepeats(Table(s, pl)) && forall t {:trigger AtHome(s, pl, t)} :: AtHome(s, pl, t)
  }

  ghost predicate Placed(s: Sched) {
    forall pl {:trigger TableOk(s, pl)} :: pl != Nowhere ==> TableOk(s, pl)
  }

  // r is q with one entry of t added somewhere.
  ghost predicate Gains(q: seq<Item<int>>, r: seq<Item<int>>, t: int) {
    |r| == |q| + 1 && exists k :: 0 <= k < |r| && r[k].value == t && q == r[..k] + r[k + 1..]
  }

  lemma GainsAt(q: seq<Item<int>>, r: seq<Item<int>>, k: int)
    requires 0 <= k < |r| == |q| + 1 && q == r[..k] + r[k + 1..]
    ensures Gains(q, r, r[k].value)
  {
  }

  lemma GainsHolds(q: seq<Item<int>>, r: seq<Item<int>>, t: int, u: int)
    requires Gains(q, r, t)
    ensures Holds(r, u) <==> Holds(q, u) || u == t
  {
    var k :| 0 <= k < |r| && r[k].value == t && q == r[..k] + r[k + 1..];
    if i :| 0 <= i < |r| && r[i].value == u && i != k {
      assert q[if i < k then i else i - 1] == r[i];
    }
    if i :| 0 <= i < |q| && q[i].value == u {
      assert r[if i < k then i else i + 1] == q[i];
    }
  }

  lemma GainsRepeatsNot(q: seq<Item<int>>, r: seq<Item<int>>, t: int, k: int)
    requires 0 <= k < |r| == |q| + 1 && r[k].value == t && q == r[..k] + r[k + 1..] && NoRepeats(q) && !Holds(q, t)
    ensures NoRepeats(r)
  {
    forall i, j | 0 <= i < j < |r| ensures r[i].value != r[j].value {
      if i != k { assert r[i] == q[if i < k then i else i - 1]; }
      if j != k { assert r[j] == q[if j < k then j else j - 1]; }
    }
  }

  lemma LosesRepeatsNot(q: seq<Item<int>>, r: seq<Item<int>>, t: int, k: int)
    requires 0 <= k < |r| == |q| + 1 && r[k].value == t && q == r[..k] + r[k + 1..] && NoRepeats(r)
    ensures NoRepeats(q) && !Holds(q, t)
  {
    forall i | 0 <= i < |q| ensures q[i] == r[if i < k then i else i + 1] && q[i].value != t {}
    forall i, j | 0 <= i < j < |q| ensures q[i].value != q[j].value {
      assert q[i] == r[if i < k then i else i + 1] && q[j] == r[if j < k then j else j + 1];
    }
  }

  lemma GainsNoRepeats(q: seq<Item<int>>, r: seq<Item<int>>, t: int)
    requires Gains(q, r, t)
    ensures NoRepeats(r) <==> NoRepeats(q) && !Holds(q, t)
  {
    var k :| 0 <= k < |r| && r[k].value == t && q == r[..k] + r[k + 1..];
    if NoRepeats(r) { LosesRepeatsNot(q, r, t, k); }
    if NoRepeats(q) && !Holds(q, t) { GainsRepeatsNot(q, r, t, k); }
  }

  // The tables when one thread changes its place, or keeps it with its table reordered.
  ghost predicate Moved(s: Sched, r: Sched, t: int, pl: Place) {
    var q, q' := Table(s, pl), Table(r, pl);
    if Home(s, t) == pl then
      if Home(r, t) == pl then q == q' || (exists q0 :: Gains(q0, q, t) && Gains(q0, q', t))
      else Gains(q', q, t)
    else if Home(r, t) == pl then Gains(q, q', t)
    else q == q'
  }

  lemma MovedTable(s: Sched, r: Sched, t: int, pl: Place)
    requires TableOk(s, pl) && Moved(s, r, t, pl) && forall u :: u != t ==> Home(r, u) == Home(s, u)
    ensures TableOk(r, pl)
  {
    var q, q' := Table(s, pl), Table(r, pl);
    assert AtHome(s, pl, t);
    if q != q' {
      if Home(s, t) == pl && Home(r, t) == pl {
        var q0 :| Gains(q0, q, t) && Gains(q0, q', t);
        GainsNoRepeats(q0, q, t);
        GainsNoRepeats(q0, q', t);
        forall u ensures Holds(q', u) <==> Holds(q, u) {
          GainsHolds(q0, q, t, u);
          GainsHolds(q0, q', t, u);
        }
      } else if Home(s, t) == pl {
        GainsNoRepeats(q', q, t);
        forall u ensures Holds(q, u) <==> Holds(q', u) || u == t {
          GainsHolds(q', q, t, u);
        }
      } else {
        GainsNoRepeats(q, q', t);
        forall u ensures Holds(q', u) <==> Holds(q, u) || u == t {
          GainsHolds(q, q', t, u);
        }
      }
    }
    forall u ensures AtHome(r, pl, u) {
      assert AtHome(s, pl, u);
    }
  }

  // One thread changes its place.
  lemma Move(s: Sched, r: Sched, t: int)
    requires Placed(s) && forall u :: u != t ==> Home(r, u) == Home(s, u)
    requires forall pl {:trigger Moved(s, r, t, pl)} :: pl != Nowhere ==> Moved(s, r, t, pl)
    ensures Placed(r)
  {
    forall pl | pl != Nowhere ensures TableOk(r, pl) {
      assert TableOk(s, pl) && Moved(s, r, t, pl);
      MovedTable(s, r, t, pl);
    }
  }

  // ----- The invariant of the tables -----

  // A running thread is the active one of its CPU; an idle thread is always running or ready.
  ghost predicate ThreadOk(s: Sched, t: int) {
    t in s.threads ==>
      var th := s.threads[t];
      && t != NOBODY && 0 <= th.cpu < s.roster.cpus && 0 <= th.prio <= LOWEST
      && (th.state == Running ==> Active(s, th.cpu) == t)
      && (Idle(s, th.cpu) == t ==> th.state == Running || th.state == Ready)
  }

  ghost predicate CpuOk(s: Sched, c: int) {
    && (Active(s, c) != NOBODY ==> Active(s, c) in s.threads && s.threads[Active(s, c)].cpu == c)
    && (Idle(s, c) != NOBODY ==> Idle(s, c) in s.threads && s.threads[Idle(s, c)].cpu == c)
  }

  // A sleep table is sorted by the low 32 bits of the wake-up times, the smallest at the tail.
  ghost predicate SleepOk(s: Sched, c: int) {
    var q := Table(s, SleepTable(c));
    && (forall i, j :: 0 <= i < j < |q| ==> q[i].key >= q[j].key)
    && (forall i :: 0 <= i < |q| && q[i].value in s.threads ==> q[i].key == s.threads[q[i].value].wakeup % W32)
  }

  ghost predicate RosterOk(s: Sched) {
    && Distinct(s.roster.global) && s.roster.count == |s.roster.global|
    && forall t :: t in s.roster.global <==> t in s.threads
  }

  ghost predicate QueueInv(s: Sched) {
    && Placed(s) && RosterOk(s)
    && (forall t {:trigger ThreadOk(s, t)} :: ThreadOk(s, t))
    && (forall c {:trigger CpuOk(s, c)} :: CpuOk(s, c))
    && (forall c {:trigger SleepOk(s, c)} :: SleepOk(s, c))
  }

  ghost predicate SameThread(s: Sched, r: Sched, u: int) {
    (u in s.threads <==> u in r.threads) && (u in s.threads ==> r.threads[u] == s.threads[u])
  }

  // Only thread t and the current thread of CPU c change.
  ghost predicate OnlyTouches(s: Sched, r: Sched, t: int, c: int) {
    && (forall u {:trigger SameThread(s, r, u)} :: u != t ==> SameThread(s, r, u))
    && (forall d {:trigger Active(r, d)} :: d != c ==> Active(r, d) == Active(s, d))
    && (forall d {:trigger Idle(r, d)} :: d != c ==> Idle(r, d) == Idle(s, d))
    && (Active(r, c) != Active(s, c) ==> Active(r, c) in {t, NOBODY} && Active(s, c) in {t, NOBODY})
    && (Idle(r, c) == Idle(s, c) || (Idle(s, c) == NOBODY && Idle(r, c) == t))
    && r.roster.cpus == s.roster.cpus && r.roster.init == s.roster.init
  }

  lemma OthersStay(s: Sched, r: Sched, t: int, c: int, u: int)
    requires OnlyTouches(s, r, t, c) && u != t && u != NOBODY
    ensures Home(r, u) == Home(s, u)
    ensures ThreadOk(s, u) ==> ThreadOk(r, u)
  {
    assert SameThread(s, r, u);
    if u in s.threads {
      assert s.threads[u].cpu != c ==> Active(r, s.threads[u].cpu) == Active(s, s.threads[u].cpu);
      assert s.threads[u].cpu != c ==> Idle(r, s.threads[u].cpu) == Idle(s, s.threads[u].cpu);
    }
  }

  /** When one thread moves to another table, the invariant is kept if it holds for that thread and its CPU. */
  lemma OneThreadMoves(s: Sched, r: Sched, t: int, c: int)
    requires QueueInv(s) && OnlyTouches(s, r, t, c) && ThreadOk(r, t) && CpuOk(r, c) && RosterOk(r)
      && NOBODY !in r.threads
    requires t in s.threads ==> if t in r.threads then r.threads[t].cpu == s.threads[t].cpu else forall d ::
      Active(r, d) != t && Idle(r, d) != t
    requires forall pl {:trigger Moved(s, r, t, pl)} :: pl != Nowhere ==> Moved(s, r, t, pl)
    requires forall d {:trigger SleepOk(r, d)} :: SleepOk(r, d)
    ensures QueueInv(r)
  {
    forall u | u != t ensures Home(r, u) == Home(s, u) {
      if u != NOBODY { OthersStay(s, r, t, c, u); }
      else { assert ThreadOk(s, NOBODY); assert SameThread(s, r, NOBODY); }
    }
    Move(s, r, t);
    forall u ensures ThreadOk(r, u) {
      if u != t && u != NOBODY { OthersStay(s, r, t, c, u); assert ThreadOk(s, u); }
    }
    forall d ensures CpuOk(r, d) {
      if d != c {
        assert CpuOk(s, d) && Active(r, d) == Active(s, d) && Idle(r, d) == Idle(s, d);
        assert SameThread(s, r, Active(s, d)) || Active(s, d) == t;
        assert SameThread(s, r, Idle(s, d)) || Idle(s, d) == t;
      }
    }
  }

  // ----- A scheduling pass keeps the invariant -----

  lemma PushGains(q: seq<Item<int>>, t: int)
    ensures Gains(q, [Item(0, t)] + q, t)
  {
    var r := [Item(0, t)] + q;
    assert r[..0] + r[1..] == q;
    GainsAt(q, r, 0);
  }

  lemma PopLoses(q: seq<Item<int>>)
    requires q != []
    ensures Gains(q[..|q| - 1], q, q[|q| - 1].value)
  {
    assert q[..|q| - 1] + q[|q|..] == q[..|q| - 1];
    GainsAt(q[..|q| - 1], q, |q| - 1);
  }

  lemma InsertGains(q: seq<Item<int>>, x: Item<int>)
    ensures Gains(q, InsertItem(q, x), x.value)
  {
    var k := InsertPlace(q, x);
    var r := InsertItem(q, x);
    assert r[..k] + r[k + 1..] == q;
    GainsAt(q, r, k);
  }

  lemma InsertSorted(q: seq<Item<int>>, x: Item<int>)
    requires forall i, j :: 0 <= i < j < |q| ==> q[i].key >= q[j].key
    ensures var r := InsertItem(q, x); forall i, j :: 0 <= i < j < |r| ==> r[i].key >= r[j].key
    ensures forall i :: 0 <= i < |q| + 1 ==> InsertItem(q, x)[i] == x || InsertItem(q, x)[i] in q
  {
    var k := InsertPlace(q, x);
  }

  // A sleep table that is not touched stays in order.
  lemma SleepStays(s: Sched, r: Sched, t: int, c: int, d: int)
    requires SleepOk(s, d) && OnlyTouches(s, r, t, c) && Table(r, SleepTable(d)) == Table(s, SleepTable(d))
    requires (t in s.threads && t in r.threads && r.threads[t].wakeup == s.threads[t].wakeup)
      || !Holds(Table(s, SleepTable(d)), t)
    ensures SleepOk(r, d)
  {
    var q := Table(r, SleepTable(d));
    forall i | 0 <= i < |q| && q[i].value in r.threads ensures q[i].key == r.threads[q[i].value].wakeup % W32 {
      assert q[i].value != t ==> SameThread(s, r, q[i].value);
    }
  }

  // All the facts about the other tables when one thread enters a table, or leaves one.
  lemma Enters(s: Sched, r: Sched, t: int, to: Place)
    requires Home(s, t) == Nowhere && Home(r, t) == to != Nowhere && Gains(Table(s, to), Table(r, to), t)
    requires forall pl :: pl != to ==> Table(r, pl) == Table(s, pl)
    ensures forall pl {:trigger Moved(s, r, t, pl)} :: pl != Nowhere ==> Moved(s, r, t, pl)
  {
  }

  lemma Leaves(s: Sched, r: Sched, t: int, from: Place, to: Place)
    requires Home(s, t) == from != Nowhere && Home(r, t) == to != from && Gains(Table(r, from), Table(s, from), t)
    requires to != Nowhere ==> Gains(Table(s, to), Table(r, to), t)
    requires forall pl :: pl != to && pl != from ==> Table(r, pl) == Table(s, pl)
    ensures forall pl {:trigger Moved(s, r, t, pl)} :: pl != Nowhere ==> Moved(s, r, t, pl)
  {
  }

  lemma Reorders(s: Sched, r: Sched, t: int, at: Place, rest: seq<Item<int>>)
    requires Home(s, t) == Home(r, t) == at && Gains(rest, Table(s, at), t) && Gains(rest, Table(r, at), t)
    requires forall pl :: pl != at ==> Table(r, pl) == Table(s, pl)
    ensures forall pl {:trigger Moved(s, r, t, pl)} :: pl != Nowhere ==> Moved(s, r, t, pl)
  {
  }

  lemma MakeReadyKeeps(s: Sched, t: int, c: int)
    requires QueueInv(s) && t in s.threads && s.threads[t].cpu == c && Home(s, t) == Nowhere
    requires s.threads[t].state == Running ==> Active(s, c) == t
    ensures QueueInv(MakeReady(s, t, c))
  {
    var r := MakeReady(s, t, c);
    var to := ReadyTable(c, s.threads[t].prio);
    assert ThreadOk(s, t) && ThreadOk(s, NOBODY) && CpuOk(s, c);
    PushGains(Table(s, to), t);
    Enters(s, r, t, to);
    forall d ensures SleepOk(r, d) { assert SleepOk(s, d); SleepStays(s, r, t, c, d); }
    OneThreadMoves(s, r, t, c);
  }

  // Inserting a sleeper keeps the table in order.
  lemma SleeperSorted(s: Sched, t: int, c: int)
    requires SleepOk(s, c) && t in s.threads
    ensures SleepOk(PushSleeper(s, t, c), c)
  {
    var q, x, s' := Table(s, SleepTable(c)), Item(s.threads[t].wakeup % W32, t), PushSleeper(s, t, c);
    InsertSorted(q, x);
    var r := Table(s', SleepTable(c));
    assert r == InsertItem(q, x) && s'.threads == s.threads;
    forall i | 0 <= i < |r| && r[i].value in s'.threads ensures r[i].key == s'.threads[r[i].value].wakeup % W32 {
      assert r[i] == InsertItem(q, x)[i];
      if r[i] != x {
        var j :| 0 <= j < |q| && q[j] == r[i];
        assert q[j].key == s.threads[q[j].value].wakeup % W32;
      }
    }
    forall i, j | 0 <= i < j < |r| ensures r[i].key >= r[j].key {
      assert InsertItem(q, x)[i].key >= InsertItem(q, x)[j].key;
    }
  }

  lemma PushSleeperKeeps(s: Sched, t: int, c: int)
    requires QueueInv(s) && t in s.threads && s.threads[t].cpu == c && Active(s, c) == t
      && s.threads[t].state == Sleeping
    ensures QueueInv(PushSleeper(SetActive(s, c, NOBODY), t, c))
  {
    var r := PushSleeper(SetActive(s, c, NOBODY), t, c);
    var to := SleepTable(c);
    var x := Item(s.threads[t].wakeup % W32, t);
    assert ThreadOk(s, t) && ThreadOk(s, NOBODY) && CpuOk(s, c);
    InsertGains(Table(s, to), x);
    Enters(s, r, t, to);
    forall d ensures SleepOk(r, d) {
      assert SleepOk(s, d);
      if d == c {
        assert SleepOk(SetActive(s, c, NOBODY), c);
        SleeperSorted(SetActive(s, c, NOBODY), t, c);
      } else {
        SleepStays(s, r, t, c, d);
      }
    }
    OneThreadMoves(s, r, t, c);
  }

  lemma DismissKeeps(s: Sched, t: int, c: int)
    requires QueueInv(s) && t in s.threads && s.threads[t].cpu == c && Active(s, c) == t
    requires s.threads[t].state != Sleeping && s.threads[t].state != Running
    ensures QueueInv(SetActive(s, c, NOBODY))
  {
    var r := SetActive(s, c, NOBODY);
    assert ThreadOk(s, t) && ThreadOk(s, NOBODY) && CpuOk(s, c);
    assert Home(r, t) == Home(s, t);
    forall d ensures SleepOk(r, d) { assert SleepOk(s, d); SleepStays(s, r, t, c, d); }
    OneThreadMoves(s, r, t, c);
  }

  lemma RequeueKeeps(s: Sched, c: int)
    requires QueueInv(s) && Active(s, c) in s.threads
    ensures QueueInv(Requeue(s, c)) && Active(Requeue(s, c), c) == NOBODY
  {
    var t := Active(s, c);
    assert CpuOk(s, c) && ThreadOk(s, NOBODY) && ThreadOk(s, t);
    match s.threads[t].state
    case Running =>
      MakeReadyKeeps(s, t, c);
      DismissKeeps(MakeReady(s, t, c), t, c);
      assert Requeue(s, c) == SetActive(MakeReady(s, t, c), c, NOBODY);
    case Sleeping => PushSleeperKeeps(s, t, c);
    case _ => DismissKeeps(s, t, c);
  }

  // A woken sleeper goes from the sleep table to its ready table.
  lemma WakeOneMoves(s: Sched, r: Sched, t: int, c: int)
    requires QueueInv(s) && Active(s, c) == NOBODY && Table(s, SleepTable(c)) != []
    requires t == Table(s, SleepTable(c))[|Table(s, SleepTable(c))| - 1].value && t in s.threads
    requires r == MakeReady(SetTable(s, SleepTable(c), Table(s, SleepTable(c))[..|Table(s, SleepTable(c))| - 1]), t, c)
    ensures Home(s, t) == SleepTable(c) && OnlyTouches(s, r, t, c)
    ensures forall pl {:trigger Moved(s, r, t, pl)} :: pl != Nowhere ==> Moved(s, r, t, pl)
  {
    var q := Table(s, SleepTable(c));
    assert TableOk(s, SleepTable(c)) && AtHome(s, SleepTable(c), t);
    var to := ReadyTable(c, s.threads[t].prio);
    PushGains(Table(s, to), t);
    PopLoses(q);
    assert Home(r, t) == to && Table(r, SleepTable(c)) == q[..|q| - 1];
    assert forall pl :: pl != to && pl != SleepTable(c) ==> Table(r, pl) == Table(s, pl);
    Leaves(s, r, t, SleepTable(c), to);
  }

  lemma ShorterSleepOk(s: Sched, r: Sched, t: int, c: int)
    requires SleepOk(s, c) && t in s.threads && t in r.threads && r.threads[t].wakeup == s.threads[t].wakeup
      && OnlyTouches(s, r, t, c)
    requires Table(s, SleepTable(c)) != []
      && Table(r, SleepTable(c)) == Table(s, SleepTable(c))[..|Table(s, SleepTable(c))| - 1]
    ensures SleepOk(r, c)
  {
    var q := Table(r, SleepTable(c));
    forall i | 0 <= i < |q| && q[i].value in r.threads ensures q[i].key == r.threads[q[i].value].wakeup % W32 {
      assert q[i] == Table(s, SleepTable(c))[i];
      assert q[i].value != t ==> SameThread(s, r, q[i].value);
    }
  }

  lemma WakeOneKeeps(s: Sched, t: int, c: int)
    requires QueueInv(s) && Active(s, c) == NOBODY && Table(s, SleepTable(c)) != []
    requires t == Table(s, SleepTable(c))[|Table(s, SleepTable(c))| - 1].value && t in s.threads
    ensures QueueInv(MakeReady(SetTable(s, SleepTable(c), Table(s, SleepTable(c))[..|Table(s, SleepTable(c))| - 1]), t,
      c))
  {
    var q := Table(s, SleepTable(c));
    var r := MakeReady(SetTable(s, SleepTable(c), q[..|q| - 1]), t, c);
    assert ThreadOk(s, t) && ThreadOk(s, NOBODY) && CpuOk(s, c);
    WakeOneMoves(s, r, t, c);
    forall d ensures SleepOk(r, d) {
      assert SleepOk(s, d);
      if d == c { ShorterSleepOk(s, r, t, c); } else { SleepStays(s, r, t, c, d); }
    }
    OneThreadMoves(s, r, t, c);
  }

  // The sleeper that goes back to its table.
  lemma PutBack(s: Sched, r: Sched, t: int, c: int, rest: seq<Item<int>>)
    requires Home(s, t) == SleepTable(c) && Active(s, c) == NOBODY && t in s.threads
    requires r == PushSleeper(SetTable(s, SleepTable(c), rest), t, c)
    ensures Home(r, t) == SleepTable(c) && OnlyTouches(s, r, t, c) && t in r.threads && r.threads == s.threads
      && r.roster == s.roster
    ensures Table(r, SleepTable(c)) == InsertItem(rest, Item(s.threads[t].wakeup % W32, t))
    ensures forall pl :: pl != SleepTable(c) ==> Table(r, pl) == Table(s, pl)
  {
  }

  lemma PutBackMoves(s: Sched, r: Sched, t: int, c: int, rest: seq<Item<int>>, x: Item<int>)
    requires Home(s, t) == Home(r, t) == SleepTable(c) && x.value == t
    requires Gains(rest, Table(s, SleepTable(c)), t) && Table(r, SleepTable(c)) == InsertItem(rest, x)
    requires forall pl :: pl != SleepTable(c) ==> Table(r, pl) == Table(s, pl)
    ensures forall pl {:trigger Moved(s, r, t, pl)} :: pl != Nowhere ==> Moved(s, r, t, pl)
  {
    InsertGains(rest, x);
    Reorders(s, r, t, SleepTable(c), rest);
  }

  lemma PutBackSleepOk(s: Sched, t: int, c: int, d: int)
    requires QueueInv(s) && Active(s, c) == NOBODY && Table(s, SleepTable(c)) != [] && t in s.threads
    ensures SleepOk(PushSleeper(SetTable(s, SleepTable(c), Table(s, SleepTable(c))[..|Table(s, SleepTable(c))| - 1]),
      t, c), d)
  {
    var q := Table(s, SleepTable(c));
    var popped := SetTable(s, SleepTable(c), q[..|q| - 1]);
    var r := PushSleeper(popped, t, c);
    assert SleepOk(s, d) && SleepOk(s, c);
    if d == c {
      ShorterSleepOk(s, popped, t, c);
      SleeperSorted(popped, t, c);
    } else {
      SleepStays(s, r, t, c, d);
    }
  }

  lemma KeepAsleepKeeps(s: Sched, t: int, c: int)
    requires QueueInv(s) && Active(s, c) == NOBODY && Table(s, SleepTable(c)) != []
    requires t == Table(s, SleepTable(c))[|Table(s, SleepTable(c))| - 1].value && t in s.threads
    ensures QueueInv(PushSleeper(SetTable(s, SleepTable(c), Table(s, SleepTable(c))[..|Table(s, SleepTable(c))| - 1]),
      t, c))
  {
    var q := Table(s, SleepTable(c));
    var r := PushSleeper(SetTable(s, SleepTable(c), q[..|q| - 1]), t, c);
    assert ThreadOk(s, t) && ThreadOk(s, NOBODY) && CpuOk(s, c);
    EntryIsThread(s, SleepTable(c), |q| - 1);
    PutBack(s, r, t, c, q[..|q| - 1]);
    PopLoses(q);
    PutBackMoves(s, r, t, c, q[..|q| - 1], Item(s.threads[t].wakeup % W32, t));
    forall d ensures SleepOk(r, d) { PutBackSleepOk(s, t, c, d); }
    OneThreadMoves(s, r, t, c);
  }

  // Every entry of a table is a thread.
  lemma EntryIsThread(s: Sched, pl: Place, i: nat)
    requires QueueInv(s) && pl != Nowhere && i < |Table(s, pl)|
    ensures Home(s, Table(s, pl)[i].value) == pl && Table(s, pl)[i].value in s.threads
  {
    assert TableOk(s, pl) && AtHome(s, pl, Table(s, pl)[i].value);
  }

  lemma {:induction false} WakeKeeps(s: Sched, c: int, now: int)
    requires QueueInv(s) && Active(s, c) == NOBODY
    ensures QueueInv(Wake(s, c, now)) && Active(Wake(s, c, now), c) == NOBODY
    decreases |Table(s, SleepTable(c))|
  {
    var q := Table(s, SleepTable(c));
    if q != [] {
      var t := q[|q| - 1].value;
      EntryIsThread(s, SleepTable(c), |q| - 1);
      if s.threads[t].wakeup < now {
        WakeOneKeeps(s, t, c);
        WakeKeeps(MakeReady(SetTable(s, SleepTable(c), q[..|q| - 1]), t, c), c, now);
      } else {
        KeepAsleepKeeps(s, t, c);
      }
    }
  }

  // The idle thread of a CPU without current thread is ready, so some level is not empty.
  lemma SomeoneReady(s: Sched, c: int)
    requires QueueInv(s) && Active(s, c) == NOBODY && Idle(s, c) != NOBODY
    ensures BestFrom(s, c, 0) <= LOWEST
  {
    var t := Idle(s, c);
    assert CpuOk(s, c) && ThreadOk(s, t);
    var pl := ReadyTable(c, s.threads[t].prio);
    assert TableOk(s, pl) && AtHome(s, pl, t);
  }

  lemma ElectKeeps(s: Sched, c: int)
    requires QueueInv(s) && Active(s, c) == NOBODY && Idle(s, c) != NOBODY
    ensures QueueInv(Elect(s, c).0) && Elect(s, c).1 == Done && Active(Elect(s, c).0, c) != NOBODY
  {
    SomeoneReady(s, c);
    var p := BestFrom(s, c, 0);
    var q := Table(s, ReadyTable(c, p));
    var t := q[|q| - 1].value;
    EntryIsThread(s, ReadyTable(c, p), |q| - 1);
    var r := Elect(s, c).0;
    assert ThreadOk(s, t) && ThreadOk(s, NOBODY) && CpuOk(s, c);
    PopLoses(q);
    forall d ensures SleepOk(r, d) { assert SleepOk(s, d); SleepStays(s, r, t, c, d); }
    OneThreadMoves(s, r, t, c);
  }

  /** A pass keeps the invariant and always finds a thread: the empty-election panic is unreachable. */
  lemma PassKeeps(s: Sched, c: int, now: int)
    requires QueueInv(s) && Active(s, c) in s.threads && Idle(s, c) != NOBODY
    ensures var (r, code) := Pass(s, c, now); QueueInv(r) && code == Done && Active(r, c) in r.threads
  {
    RequeueKeeps(s, c);
    WakeKeeps(Requeue(s, c), c, now);
    WakeKeepsRoster(Requeue(s, c), c, now);
    ElectKeeps(Wake(Requeue(s, c), c, now), c);
    assert CpuOk(Pass(s, c, now).0, c);
  }

  lemma {:induction false} WakeKeepsRoster(s: Sched, c: int, now: int)
    ensures Wake(s, c, now).roster == s.roster && Wake(s, c, now).active == s.active
    decreases |Table(s, SleepTable(c))|
  {
    var q := Table(s, SleepTable(c));
    if q != [] {
      var t := q[|q| - 1].value;
      var popped := SetTable(s, SleepTable(c), q[..|q| - 1]);
      if t !in s.threads { WakeKeepsRoster(popped, c, now); }
      else if s.threads[t].wakeup < now { WakeKeepsRoster(MakeReady(popped, t, c), c, now); }
    }
  }

  // ----- The calls keep the invariant of the tables -----

  // A change of the caller, or of the links of a thread, that moves nothing.
  lemma StaysPut(s: Sched, t: int, th: Thread)
    requires QueueInv(s) && t in s.threads && th.cpu == s.threads[t].cpu && 0 <= th.prio <= LOWEST
    requires Home(s, t) == Home(SetThread(s, t, th), t)
    requires th.wakeup == s.threads[t].wakeup || Home(s, t) == Nowhere
    requires th.state == Running ==> Active(s, th.cpu) == t
    requires Idle(s, th.cpu) == t ==> th.state == Running || th.state == Ready
    ensures QueueInv(SetThread(s, t, th))
  {
    var r := SetThread(s, t, th);
    var c := th.cpu;
    assert ThreadOk(s, t) && ThreadOk(s, NOBODY) && CpuOk(s, c);
    forall d ensures SleepOk(r, d) {
      assert SleepOk(s, d);
      assert TableOk(s, SleepTable(d)) && AtHome(s, SleepTable(d), t);
      SleepStays(s, r, t, c, d);
    }
    OneThreadMoves(s, r, t, c);
  }

  lemma {:induction false} WithoutAt(q: seq<Item<int>>, x: int, k: nat)
    requires k < |q| && q[k].value == x && forall i :: 0 <= i < k ==> q[i].value != x
    ensures Without(q, x) == q[..k] + q[k + 1..]
  {
    if k > 0 {
      WithoutAt(q[1..], x, k - 1);
      assert q[..k] == [q[0]] + q[1..][..k - 1] && q[1..][k..] == q[k + 1..];
    }
  }

  lemma {:induction false} WithoutNone(q: seq<Item<int>>, x: int)
    requires !Holds(q, x)
    ensures Without(q, x) == q
  {
    if q != [] {
      forall i | 0 <= i < |q| - 1 ensures q[1..][i].value != x { assert q[1..][i] == q[i + 1]; }
      WithoutNone(q[1..], x);
    }
  }

  lemma WithoutLoses(q: seq<Item<int>>, x: int)
    requires Holds(q, x)
    ensures Gains(Without(q, x), q, x)
  {
    var k := 0;
    while q[k].value != x
      invariant 0 <= k < |q| && (forall i :: 0 <= i < k ==> q[i].value != x) && exists i ::
        k <= i < |q| && q[i].value == x
      decreases |q| - k
    {
      k := k + 1;
    }
    WithoutAt(q, x, k);
    GainsAt(Without(q, x), q, k);
  }

  lemma {:induction false} DropAt(g: seq<int>, x: int, k: nat)
    requires k < |g| && g[k] == x && forall i :: 0 <= i < k ==> g[i] != x
    ensures Drop(g, x) == g[..k] + g[k + 1..]
  {
    if k > 0 {
      DropAt(g[1..], x, k - 1);
      assert g[..k] == [g[0]] + g[1..][..k - 1] && g[1..][k..] == g[k + 1..];
    }
  }

  lemma DropDistinct(g: seq<int>, x: int)
    requires Distinct(g) && x in g
    ensures Distinct(Drop(g, x)) && |Drop(g, x)| == |g| - 1
    ensures forall t :: t in Drop(g, x) <==> t in g && t != x
  {
    var k :| 0 <= k < |g| && g[k] == x;
    DropAt(g, x, k);
    CutDistinct(g, k);
    CutMembers(g, k);
  }

  lemma CutDistinct(g: seq<int>, k: nat)
    requires Distinct(g) && k < |g|
    ensures Distinct(g[..k] + g[k + 1..])
  {
    var h := g[..k] + g[k + 1..];
    forall i, j | 0 <= i < j < |h| ensures h[i] != h[j] {
      assert h[i] == g[if i < k then i else i + 1] && h[j] == g[if j < k then j else j + 1];
    }
  }

  lemma CutMembers(g: seq<int>, k: nat)
    requires Distinct(g) && k < |g|
    ensures forall t :: t in g[..k] + g[k + 1..] <==> t in g && t != g[k]
  {
    var h := g[..k] + g[k + 1..];
    forall t | t in g && t != g[k] ensures t in h {
      var i :| 0 <= i < |g| && g[i] == t;
      assert h[if i < k then i else i - 1] == t;
    }
    forall t | t in h ensures t in g && t != g[k] {
      var i :| 0 <= i < |h| && h[i] == t;
      assert h[i] == g[if i < k then i else i + 1];
    }
  }

  lemma RemoveKeeps(s: Sched, x: int)
    requires QueueInv(s) && x in s.threads && s.threads[x].state == Zombie && Active(s, s.threads[x].cpu) != x
    ensures QueueInv(Remove(s, x))
  {
    var r := Remove(s, x);
    var c := s.threads[x].cpu;
    assert ThreadOk(s, x) && ThreadOk(s, NOBODY) && CpuOk(s, c);
    assert TableOk(s, ZombieTable) && AtHome(s, ZombieTable, x);
    if x != s.roster.init { WithoutLoses(Table(s, ZombieTable), x); } else { WithoutNone(Table(s, ZombieTable), x); }
    DropDistinct(s.roster.global, x);
    forall d ensures SleepOk(r, d) {
      assert SleepOk(s, d);
      assert TableOk(s, SleepTable(d)) && AtHome(s, SleepTable(d), x);
      SleepStays(s, r, x, c, d);
    }
    forall d ensures Active(r, d) != x && Idle(r, d) != x { assert CpuOk(s, d); }
    OneThreadMoves(s, r, x, c);
  }

  lemma CreateKeeps(s: Sched, id: int, prio: int, cpu: int)
    requires QueueInv(s) && id !in s.threads && id != NOBODY && 0 <= prio && 0 <= cpu
    ensures QueueInv(Create(s, id, prio, cpu, true).0)
  {
    var (r, code) := Create(s, id, prio, cpu, true);
    if code == Done {
      var pl := ReadyTable(cpu, prio);
      assert CpuOk(s, cpu) && ThreadOk(s, NOBODY);
      PushGains(Table(s, pl), id);
      Enters(s, r, id, pl);
      forall d ensures SleepOk(r, d) {
        assert SleepOk(s, d);
        assert TableOk(s, SleepTable(d)) && AtHome(s, SleepTable(d), id);
        SleepStays(s, r, id, cpu, d);
      }
      OneThreadMoves(s, r, id, cpu);
    }
  }

  lemma CreateIdleKeeps(s: Sched, c: int, id: int)
    requires QueueInv(s) && id !in s.threads && id != NOBODY && 0 <= c < s.roster.cpus
    requires Active(s, c) == NOBODY && Idle(s, c) == NOBODY
    ensures QueueInv(CreateIdle(s, c, id))
  {
    var r := CreateIdle(s, c, id);
    assert CpuOk(s, c) && ThreadOk(s, NOBODY);
    forall d ensures SleepOk(r, d) {
      assert SleepOk(s, d);
      assert TableOk(s, SleepTable(d)) && AtHome(s, SleepTable(d), id);
      SleepStays(s, r, id, c, d);
    }
    OneThreadMoves(s, r, id, c);
  }

  // The caller becomes a zombie.
  lemma BuryKeeps(s: Sched, t: int)
    requires QueueInv(s) && t in s.threads && s.threads[t].state == Running && t != s.roster.init
      && t != Idle(s, s.threads[t].cpu)
    ensures QueueInv(Bury(s, t))
  {
    var r := Bury(s, t);
    var c := s.threads[t].cpu;
    assert ThreadOk(s, t) && ThreadOk(s, NOBODY) && CpuOk(s, c);
    PushGains(Table(s, ZombieTable), t);
    Enters(s, r, t, ZombieTable);
    forall d ensures SleepOk(r, d) { assert SleepOk(s, d); SleepStays(s, r, t, c, d); }
    OneThreadMoves(s, r, t, c);
  }

  // ----- Joins -----

  // Thread t joins x: it waits for x to end, or x has ended and t has not removed it yet.
  ghost predicate Joins(s: Sched, t: int, x: int)
    requires t in s.threads
  {
    && x in s.threads && s.threads[x].links.joiner == t && x != s.roster.init
    && if s.threads[t].state == Joining then s.threads[x].state != Zombie
       else s.threads[x].state == Zombie && (s.threads[t].state == Ready || s.threads[t].state == Running)
  }

  // The exit of u will ready t. The exit of init readies nobody.
  ghost predicate Names(s: Sched, u: int, t: int) {
    u in s.threads && s.threads[u].links.joiner == t && u != s.roster.init
  }

  // A joining thread that no exit will ready: another thread has joined its target after it, or its target is init.
  ghost predicate Stranded(s: Sched, t: int) {
    t in s.threads && s.threads[t].state == Joining && forall u {:trigger Names(s, u, t)} :: !Names(s, u, t)
  }

  lemma StaysStranded(s: Sched, r: Sched, t: int)
    requires Stranded(s, t) && t in r.threads && r.threads[t].state == Joining && r.roster.init == s.roster.init
    requires forall u :: u in r.threads && r.threads[u].links.joiner == t ==>
      u in s.threads && s.threads[u].links.joiner == t
    ensures Stranded(r, t)
  {
    forall u ensures !Names(r, u, t) { assert !Names(s, u, t); }
  }

  ghost predicate JoinOk(s: Sched, t: int) {
    t in s.threads ==>
      var links := s.threads[t].links;
      && (s.threads[t].state == Joining ==> links.target != NOBODY)
      && (links.target != NOBODY ==> Joins(s, t, links.target) || Stranded(s, t))
      && (links.joiner != NOBODY ==> links.joiner in s.threads && s.threads[links.joiner].links.target == t)
  }

  ghost predicate JoinInv(s: Sched) {
    forall t {:trigger JoinOk(s, t)} :: JoinOk(s, t)
  }

  predicate Awake(st: ThreadState) {
    st == Running || st == Ready
  }

  // A step that only readies and elects threads.
  ghost predicate MildAt(s: Sched, r: Sched, u: int) {
    && (u in s.threads <==> u in r.threads)
    && (u in s.threads ==>
          && r.threads[u].links == s.threads[u].links
          && (r.threads[u].state == s.threads[u].state
              || ((Awake(s.threads[u].state) || s.threads[u].state == Sleeping) && Awake(r.threads[u].state))))
  }

  ghost predicate Mild(s: Sched, r: Sched) {
    r.roster == s.roster && forall u {:trigger MildAt(s, r, u)} :: MildAt(s, r, u)
  }

  lemma MildTrans(s: Sched, r: Sched, q: Sched)
    requires Mild(s, r) && Mild(r, q)
    ensures Mild(s, q)
  {
    forall u ensures MildAt(s, q, u) { assert MildAt(s, r, u) && MildAt(r, q, u); }
  }

  lemma MildKeepsJoins(s: Sched, r: Sched)
    requires JoinInv(s) && Mild(s, r)
    ensures JoinInv(r)
  {
    forall t ensures JoinOk(r, t) {
      assert JoinOk(s, t) && MildAt(s, r, t);
      if t in s.threads {
        var links := s.threads[t].links;
        assert MildAt(s, r, links.target) && MildAt(s, r, links.joiner);
        if Stranded(s, t) {
          forall u | u in r.threads && r.threads[u].links.joiner == t
            ensures u in s.threads && s.threads[u].links.joiner == t {
            assert MildAt(s, r, u);
          }
          StaysStranded(s, r, t);
        }
      }
    }
  }

  lemma RequeueMild(s: Sched, c: int)
    requires Active(s, c) in s.threads
    ensures Mild(s, Requeue(s, c))
  {
    forall u ensures MildAt(s, Requeue(s, c), u) {}
  }

  lemma {:induction false} WakeMild(s: Sched, c: int, now: int)
    requires QueueInv(s) && Active(s, c) == NOBODY
    ensures Mild(s, Wake(s, c, now))
    decreases |Table(s, SleepTable(c))|
  {
    var q := Table(s, SleepTable(c));
    if q == [] {
      forall u ensures MildAt(s, s, u) {}
    } else {
      var t := q[|q| - 1].value;
      EntryIsThread(s, SleepTable(c), |q| - 1);
      if s.threads[t].wakeup < now {
        var r := MakeReady(SetTable(s, SleepTable(c), q[..|q| - 1]), t, c);
        WakeOneKeeps(s, t, c);
        WakeMild(r, c, now);
        forall u ensures MildAt(s, r, u) {}
        MildTrans(s, r, Wake(r, c, now));
      } else {
        forall u ensures MildAt(s, Wake(s, c, now), u) {}
      }
    }
  }

  lemma ElectMild(s: Sched, c: int)
    requires QueueInv(s)
    ensures Elect(s, c).1 == Done ==> Mild(s, Elect(s, c).0)
  {
    var p := BestFrom(s, c, 0);
    if p <= LOWEST {
      var q := Table(s, ReadyTable(c, p));
      EntryIsThread(s, ReadyTable(c, p), |q| - 1);
      forall u ensures MildAt(s, Elect(s, c).0, u) {}
    }
  }

  lemma PassMild(s: Sched, c: int, now: int)
    requires QueueInv(s) && Active(s, c) in s.threads && Idle(s, c) != NOBODY
    ensures Mild(s, Pass(s, c, now).0)
  {
    var s1 := Requeue(s, c);
    RequeueKeeps(s, c);
    RequeueMild(s, c);
    var s2 := Wake(s1, c, now);
    WakeKeeps(s1, c, now);
    WakeMild(s1, c, now);
    ElectMild(s2, c);
    PassKeeps(s, c, now);
    MildTrans(s, s1, s2);
    MildTrans(s, s2, Pass(s, c, now).0);
  }

  // ----- Steps -----

  datatype Step =
    | PassEvent(cpu: int, now: int)
    | SleepEvent(cpu: int, now: int, ms: int)
    | LockEvent(cpu: int, why: WaitType)
    | UnlockEvent(cpu: int, thread: int, why: WaitType)
    | CreateEvent(id: int, prio: int, affinity: int, ok: bool)
    | IdleEvent(cpu: int, id: int)
    | PriorityEvent(cpu: int, prio: int)
    | WaitEvent(cpu: int, thread: int)
    | CleanEvent(cpu: int)
    | ExitEvent(cpu: int)

  // CPU c runs a thread that is free to call the scheduler: it is not switching out or finishing a join.
  predicate Calls(s: Sched, c: int) {
    Active(s, c) in s.threads && Me(s, c).state == Running && Me(s, c).links.target == NOBODY
  }

  // The thread is not the current thread of its CPU any more.
  predicate SwitchedOut(s: Sched, x: int) {
    x in s.threads && Active(s, s.threads[x].cpu) != x
  }

  // What the callers keep to: an idle thread neither joins nor exits, and a thread that has ended is removed by one
  // joiner only, after its CPU has left it.
  predicate Enabled(s: Sched, e: Step) {
    match e
    case PassEvent(c, _) => Active(s, c) in s.threads
    case SleepEvent(c, _, _) => Calls(s, c)
    case LockEvent(c, _) => Calls(s, c)
    case UnlockEvent(_, _, _) => true
    case CreateEvent(id, prio, affinity, _) => id !in s.threads && id != NOBODY && 0 <= prio && 0 <= affinity
    case IdleEvent(c, id) => id !in s.threads && id != NOBODY && 0 <= c < s.roster.cpus && Idle(s, c) == NOBODY
    case PriorityEvent(c, prio) => Calls(s, c) && 0 <= prio
    case WaitEvent(c, x) =>
      Calls(s, c) && Active(s, c) != Idle(s, c) && (x in s.threads && s.threads[x].state == Zombie ==> Removable(s, x))
    case CleanEvent(c) =>
      Active(s, c) in s.threads && Me(s, c).state == Running && Me(s, c).links.target != NOBODY
        && SwitchedOut(s, Me(s, c).links.target)
    case ExitEvent(c) => Calls(s, c) && Active(s, c) != Idle(s, c)
  }

  // Nobody else is going to remove the thread, and its CPU has left it. The joiners of init are stranded.
  predicate Removable(s: Sched, x: int)
    requires x in s.threads
  {
    SwitchedOut(s, x) && (s.threads[x].links.joiner == NOBODY || x == s.roster.init)
  }

  function Next(s: Sched, e: Step): Sched
    requires Enabled(s, e)
  {
    match e
    case PassEvent(c, now) => Pass(s, c, now).0
    case SleepEvent(c, now, ms) => Sleep(s, c, now, ms).0
    case LockEvent(c, why) => Lock(s, c, why).0
    case UnlockEvent(c, t, why) => Unlock(s, c, t, why).0
    case CreateEvent(id, prio, affinity, ok) => Create(s, id, prio, affinity, ok).0
    case IdleEvent(c, id) => CreateIdle(s, c, id)
    case PriorityEvent(c, prio) => SetPriority(s, c, prio).0
    case WaitEvent(c, x) => Wait(s, c, x).0
    case CleanEvent(c) => Clean(s, c)
    case ExitEvent(c) => Exit(s, c).0
  }

  // A CPU has a current thread from the creation of its idle thread on.
  ghost predicate Staffed(s: Sched) {
    forall c {:trigger Active(s, c)} :: Active(s, c) == NOBODY <==> Idle(s, c) == NOBODY
  }

  ghost predicate Inv(s: Sched) {
    QueueInv(s) && JoinInv(s) && Staffed(s)
  }

  lemma CallerOk(s: Sched, c: int)
    requires QueueInv(s) && Active(s, c) in s.threads
    ensures Active(s, c) != NOBODY && Me(s, c).cpu == c && 0 <= Me(s, c).prio <= LOWEST
    ensures Home(s, Active(s, c)) == Nowhere <== Me(s, c).state == Running || Me(s, c).state == Sleeping
  {
    assert ThreadOk(s, NOBODY) && ThreadOk(s, Active(s, c)) && CpuOk(s, c);
  }

  lemma PassStep(s: Sched, c: int, now: int)
    requires Inv(s) && Active(s, c) in s.threads
    ensures Inv(Pass(s, c, now).0) && Pass(s, c, now).1 == Done
  {
    CallerOk(s, c);
    PassKeeps(s, c, now);
    PassMild(s, c, now);
    MildKeepsJoins(s, Pass(s, c, now).0);
    var r := Pass(s, c, now).0;
    PassActive(s, c, now);
    forall d ensures Active(r, d) == NOBODY <==> Idle(r, d) == NOBODY {
      assert Active(s, d) == NOBODY <==> Idle(s, d) == NOBODY;
      assert ThreadOk(r, NOBODY);
    }
  }

  lemma RequeueActive(s: Sched, c: int)
    requires Active(s, c) in s.threads
    ensures Requeue(s, c).active == s.active[c := NOBODY] && Requeue(s, c).roster == s.roster
  {
  }

  lemma ElectActive(s: Sched, c: int)
    ensures Elect(s, c).0.roster == s.roster
    ensures forall d :: d != c ==> Active(Elect(s, c).0, d) == Active(s, d)
  {
  }

  lemma PassActive(s: Sched, c: int, now: int)
    requires Active(s, c) in s.threads
    ensures forall d :: d != c ==> Active(Pass(s, c, now).0, d) == Active(s, d)
    ensures Pass(s, c, now).0.roster == s.roster
  {
    RequeueActive(s, c);
    WakeKeepsRoster(Requeue(s, c), c, now);
    var woken := Wake(Requeue(s, c), c, now);
    ElectActive(woken, c);
    forall d | d != c ensures Active(Elect(woken, c).0, d) == Active(s, d) {
      assert Active(woken, d) == Active(s, d);
    }
  }

  // A call that changes the state, the wake-up time or the priority of its caller.
  lemma CallerStep(s: Sched, c: int, th: Thread)
    requires Inv(s) && Calls(s, c) && th.cpu == Me(s, c).cpu && th.links == Me(s, c).links && 0 <= th.prio <= LOWEST
    requires th.state == Running || (Active(s, c) != Idle(s, c) && (th.state == Sleeping || th.state == Waiting))
    ensures Inv(SetThread(s, Active(s, c), th))
  {
    var t := Active(s, c);
    var r := SetThread(s, t, th);
    CallerOk(s, c);
    StaysPut(s, t, th);
    forall u ensures JoinOk(r, u) {
      assert JoinOk(s, u) && JoinOk(s, t);
      if Stranded(s, u) { StaysStranded(s, r, u); }
    }
    forall d ensures Active(r, d) == NOBODY <==> Idle(r, d) == NOBODY {
      assert Active(s, d) == NOBODY <==> Idle(s, d) == NOBODY;
    }
  }

  lemma UnlockStep(s: Sched, c: int, t: int, why: WaitType)
    requires Inv(s)
    ensures Inv(Unlock(s, c, t, why).0)
  {
    var (r, code) := Unlock(s, c, t, why);
    if code == Done {
      MakeReadyKeeps(s, t, s.threads[t].cpu);
      forall u ensures JoinOk(r, u) {
        assert JoinOk(s, u) && JoinOk(s, t);
        if Stranded(s, u) { StaysStranded(s, r, u); }
      }
      StaffedStays(s, r);
    }
  }

  lemma StaffedStays(s: Sched, r: Sched)
    requires Staffed(s) && r.active == s.active && r.roster.idle == s.roster.idle
    ensures Staffed(r)
  {
    forall d ensures Active(r, d) == NOBODY <==> Idle(r, d) == NOBODY {
      assert Active(s, d) == NOBODY <==> Idle(s, d) == NOBODY;
    }
  }

  lemma NewcomerJoins(s: Sched, r: Sched, id: int)
    requires JoinInv(s) && NOBODY !in s.threads && id !in s.threads && r.threads.Keys == s.threads.Keys +
    {id} && r.roster.init == s.roster.init
    requires forall u :: u in s.threads ==> r.threads[u] == s.threads[u]
    requires r.threads[id].links == Links(NOBODY, NOBODY) && r.threads[id].state != Joining
    ensures JoinInv(r)
  {
    forall u ensures JoinOk(r, u) {
      assert JoinOk(s, u) && JoinOk(s, NOBODY);
      if Stranded(s, u) { StaysStranded(s, r, u); }
    }
  }

  lemma CreateStep(s: Sched, id: int, prio: int, cpu: int, ok: bool)
    requires Inv(s) && id !in s.threads && id != NOBODY && 0 <= prio && 0 <= cpu
    ensures Inv(Create(s, id, prio, cpu, ok).0)
  {
    var (r, code) := Create(s, id, prio, cpu, ok);
    if code == Done {
      CreateKeeps(s, id, prio, cpu);
      assert ThreadOk(s, NOBODY);
      NewcomerJoins(s, r, id);
      StaffedStays(s, r);
    }
  }

  lemma IdleStep(s: Sched, c: int, id: int)
    requires Inv(s) && id !in s.threads && id != NOBODY && 0 <= c < s.roster.cpus && Idle(s, c) == NOBODY
    ensures Inv(CreateIdle(s, c, id))
  {
    var r := CreateIdle(s, c, id);
    assert Active(s, c) == NOBODY;
    CreateIdleKeeps(s, c, id);
    assert ThreadOk(s, NOBODY);
    NewcomerJoins(s, r, id);
    forall d ensures Active(r, d) == NOBODY <==> Idle(r, d) == NOBODY {
      assert Active(s, d) == NOBODY <==> Idle(s, d) == NOBODY;
    }
  }

  // A thread without joiner that has ended, or whose joiner has let go of it, can be removed.
  lemma RemoveJoins(s: Sched, x: int)
    requires JoinInv(s) && NOBODY !in s.threads && x in s.threads && s.threads[x].links.target == NOBODY
    requires s.threads[x].links.joiner == NOBODY || x == s.roster.init
    ensures JoinInv(Remove(s, x))
  {
    var r := Remove(s, x);
    forall u ensures JoinOk(r, u) {
      assert JoinOk(s, u);
      if u in s.threads {
        assert JoinOk(s, s.threads[u].links.joiner);
        if Stranded(s, u) && u != x { StaysStranded(s, r, u); }
      }
    }
  }

  lemma RemoveStep(s: Sched, x: int)
    requires Inv(s) && x in s.threads && s.threads[x].state == Zombie && Removable(s, x)
    ensures Inv(Remove(s, x))
  {
    assert JoinOk(s, x) && ThreadOk(s, NOBODY);
    RemoveKeeps(s, x);
    RemoveJoins(s, x);
    StaffedStays(s, Remove(s, x));
  }

  // The links of a thread do not matter to the tables.
  lemma RelinkKeeps(s: Sched, t: int, links: Links)
    requires QueueInv(s) && t in s.threads
    ensures QueueInv(SetThread(s, t, s.threads[t].(links := links)))
  {
    assert ThreadOk(s, t);
    StaysPut(s, t, s.threads[t].(links := links));
  }

  lemma WaitStep(s: Sched, c: int, x: int)
    requires Inv(s) && Calls(s, c) && Active(s, c) != Idle(s, c)
    requires x in s.threads && s.threads[x].state != Zombie
    ensures Inv(Wait(s, c, x).0)
  {
    var t := Active(s, c);
    CallerOk(s, c);
    var th := Me(s, c).(state := Joining, links := Me(s, c).links.(target := x));
    StaysPut(s, t, th);
    var s1 := SetThread(s, t, th);
    var r := Wait(s, c, x).0;
    RelinkKeeps(s1, x, s1.threads[x].links.(joiner := t));
    assert ThreadOk(s, NOBODY);
    WaitJoins(s, c, x);
    StaffedStays(s, r);
  }

  // The caller joins x, or is stranded at once when x is init; a thread that joined x before is stranded.
  lemma WaitJoins(s: Sched, c: int, x: int)
    requires JoinInv(s) && NOBODY !in s.threads && Calls(s, c) && x in s.threads && s.threads[x].state != Zombie
    ensures JoinInv(Wait(s, c, x).0)
    ensures x != s.roster.init && s.threads[x].links.joiner != NOBODY ==>
      Stranded(Wait(s, c, x).0, s.threads[x].links.joiner)
    ensures x == s.roster.init ==> Stranded(Wait(s, c, x).0, Active(s, c))
  {
    var t, r, j := Active(s, c), Wait(s, c, x).0, s.threads[x].links.joiner;
    assert JoinOk(s, t) && JoinOk(s, x) && JoinOk(s, j);
    if x == s.roster.init {
      forall u ensures !Names(r, u, t) { assert JoinOk(s, u); }
    } else if j != NOBODY {
      forall u ensures !Names(r, u, j) { assert JoinOk(s, u); }
    }
    forall u ensures JoinOk(r, u) {
      assert JoinOk(s, u);
      if Stranded(s, u) { StaysStranded(s, r, u); }
    }
  }

  // Letting go of a thread that has ended, which is removed next.
  lemma CleanStep(s: Sched, c: int)
    requires Inv(s) && Enabled(s, CleanEvent(c))
    ensures Inv(Clean(s, c))
  {
    var t := Active(s, c);
    var x := Me(s, c).links.target;
    assert JoinOk(s, t) && JoinOk(s, x);
    CallerOk(s, c);
    RelinkKeeps(s, t, Me(s, c).links.(target := NOBODY));
    var s1 := SetThread(s, t, Me(s, c).(links := Me(s, c).links.(target := NOBODY)));
    assert ThreadOk(s, NOBODY);
    RemoveKeeps(s1, x);
    CleanJoins(s, t, x);
    StaffedStays(s, Clean(s, c));
  }

  lemma CleanJoins(s: Sched, t: int, x: int)
    requires JoinInv(s) && NOBODY !in s.threads && t in s.threads && x != NOBODY && s.threads[t].links.target == x
      && s.threads[t].state == Running
    requires x in s.threads && s.threads[x].state == Zombie && s.threads[x].links.joiner == t
    ensures JoinInv(Remove(SetThread(s, t, s.threads[t].(links := s.threads[t].links.(target := NOBODY))), x))
  {
    var r := Remove(SetThread(s, t, s.threads[t].(links := s.threads[t].links.(target := NOBODY))), x);
    assert JoinOk(s, x);
    forall u ensures JoinOk(r, u) {
      assert JoinOk(s, u);
      if u in s.threads {
        assert JoinOk(s, s.threads[u].links.joiner) && JoinOk(s, s.threads[u].links.target);
        if Stranded(s, u) { StaysStranded(s, r, u); }
      }
    }
  }

  lemma ExitJoins(s: Sched, r: Sched, t: int)
    requires JoinInv(s) && t in s.threads && s.threads[t].state == Running && s.threads[t].links.target == NOBODY
    requires r.threads.Keys == s.threads.Keys && r.roster.init == s.roster.init
    requires r.threads[t] == s.threads[t].(state := Zombie)
    requires var j := s.threads[t].links.joiner;
      forall u :: u in s.threads && u != t ==>
        r.threads[u] == if u == j && t != s.roster.init then s.threads[u].(state := Ready) else s.threads[u]
    requires NOBODY !in s.threads
    ensures JoinInv(r)
  {
    var j := s.threads[t].links.joiner;
    assert JoinOk(s, t) && JoinOk(s, j);
    assert j in s.threads && t != s.roster.init ==> Names(s, t, j);
    forall u ensures JoinOk(r, u) {
      assert JoinOk(s, u);
      if u in s.threads {
        assert JoinOk(s, s.threads[u].links.target);
        if Stranded(s, u) { StaysStranded(s, r, u); }
      }
    }
  }

  lemma ExitStep(s: Sched, c: int)
    requires Inv(s) && Calls(s, c) && Active(s, c) != Idle(s, c)
    ensures Inv(Exit(s, c).0)
  {
    var t := Active(s, c);
    var r := Exit(s, c).0;
    CallerOk(s, c);
    assert JoinOk(s, t) && ThreadOk(s, NOBODY);
    var j := Me(s, c).links.joiner;
    assert JoinOk(s, j);
    StaffedStays(s, r);
    if t == s.roster.init {
      StaysPut(s, t, Me(s, c).(state := Zombie));
      ExitJoins(s, r, t);
    } else {
      BuryKeeps(s, t);
      var s2 := Bury(s, t);
      assert j != NOBODY ==> j in s2.threads && s2.threads[j].state == Joining;
      if j in s2.threads {
        MakeReadyKeeps(s2, j, s2.threads[j].cpu);
      }
      ExitJoins(s, r, t);
    }
  }

  /** Every step a program can take keeps the invariant. */
  lemma StepKeeps(s: Sched, e: Step)
    requires Inv(s) && Enabled(s, e)
    ensures Inv(Next(s, e))
  {
    match e
    case PassEvent(c, now) => PassStep(s, c, now);
    case SleepEvent(c, now, ms) =>
      CallerOk(s, c);
      if Active(s, c) != Idle(s, c) { CallerStep(s, c,
        Me(s, c).(state := Sleeping, wakeup := (now + ms - TICK) % W64)); }
    case LockEvent(c, why) =>
      CallerOk(s, c);
      if Active(s, c) != Idle(s, c) { CallerStep(s, c, Me(s, c).(state := Waiting, why := why)); }
    case UnlockEvent(c, t, why) => UnlockStep(s, c, t, why);
    case CreateEvent(id, prio, affinity, ok) => CreateStep(s, id, prio, affinity, ok);
    case IdleEvent(c, id) => IdleStep(s, c, id);
    case PriorityEvent(c, prio) => if prio <= LOWEST { CallerStep(s, c, Me(s, c).(prio := prio)); }
    case WaitEvent(c, x) =>
      if x in s.threads {
        if s.threads[x].state == Zombie { RemoveStep(s, x); } else { WaitStep(s, c, x); }
      }
    case CleanEvent(c) => CleanStep(s, c);
    case ExitEvent(c) => ExitStep(s, c);
  }

  // ----- Whole runs -----

  // sched_init: the idle thread of CPU 0, then init in the best ready table.
  function Booted(cpus: int, idle: int, init: int): Sched {
    var s := CreateIdle(Sched(map[], map[], map[], Roster([], 0, cpus, map[], init)), 0, idle);
    Create(s, init, 0, 0, true).0
  }

  ghost predicate Runs(s: Sched, es: seq<Step>)
    decreases |es|
  {
    es != [] ==> Enabled(s, es[0]) && Runs(Next(s, es[0]), es[1..])
  }

  function After(s: Sched, es: seq<Step>): Sched
    requires Runs(s, es)
    decreases |es|
  {
    if es == [] then s else After(Next(s, es[0]), es[1..])
  }

  lemma EmptyInv(s: Sched)
    requires s.threads == map[] && s.active == map[] && s.tables == map[] && s.roster.global == []
      && s.roster.count == 0 && s.roster.idle == map[]
    ensures Inv(s)
  {
    forall pl | pl != Nowhere ensures TableOk(s, pl) {
      forall t ensures AtHome(s, pl, t) {}
    }
  }

  lemma BootedInv(cpus: int, idle: int, init: int)
    requires cpus > 0 && idle != init && idle != NOBODY && init != NOBODY
    ensures Inv(Booted(cpus, idle, init))
  {
    var s := Sched(map[], map[], map[], Roster([], 0, cpus, map[], init));
    EmptyInv(s);
    IdleStep(s, 0, idle);
    CreateStep(CreateIdle(s, 0, idle), init, 0, 0, true);
  }

  lemma {:induction false} RunKeeps(s: Sched, es: seq<Step>)
    requires Inv(s) && Runs(s, es)
    ensures Inv(After(s, es))
    decreases |es|
  {
    if es != [] {
      StepKeeps(s, es[0]);
      RunKeeps(Next(s, es[0]), es[1..]);
    }
  }

  lemma {:induction false} DistinctCount(g: seq<int>, keys: set<int>)
    requires Distinct(g) && forall t :: t in g <==> t in keys
    ensures |g| == |keys|
  {
    if g == [] {
      assert forall t :: t in keys ==> t in g;
      assert keys == {};
    } else {
      assert g[0] !in g[1..];
      forall t ensures t in g[1..] <==> t in keys - {g[0]} {
        assert t in g <==> t == g[0] || t in g[1..];
      }
      DistinctCount(g[1..], keys - {g[0]});
    }
  }

  // Where the scheduling node of a thread is, by the state of the thread.
  ghost predicate Matches(s: Sched, t: int)
    requires t in s.threads
  {
    var th := s.threads[t];
    var current := Active(s, th.cpu) == t;
    && (forall pl :: pl != Nowhere ==> (Holds(Table(s, pl), t) <==> Home(s, t) == pl))
    && (th.state == Running ==> current)
    && (th.state == Ready ==> Holds(Table(s, ReadyTable(th.cpu, th.prio)), t))
    && (th.state == Sleeping && !current ==> Holds(Table(s, SleepTable(th.cpu)), t))
    && (th.state == Zombie && t != s.roster.init ==> Holds(Table(s, ZombieTable), t))
    && 0 <= th.cpu < s.roster.cpus && 0 <= th.prio <= LOWEST
  }

  /** In every reachable state each scheduling node is in the one table that matches the state of its thread, once, or
      in none; the thread count is the number of threads and of nodes in the global table; and every CPU that has
      started can elect a thread. */
  lemma EveryRun(cpus: int, idle: int, init: int, es: seq<Step>)
    requires cpus > 0 && idle != init && idle != NOBODY && init != NOBODY && Runs(Booted(cpus, idle, init), es)
    ensures var s := After(Booted(cpus, idle, init), es);
      && Inv(s)
      && (forall t :: t in s.threads ==> Matches(s, t))
      && (forall pl :: pl != Nowhere ==> NoRepeats(Table(s, pl)))
      && s.roster.count == |s.roster.global| == |s.threads|
      && (forall c, now :: Active(s, c) in s.threads ==> Pass(s, c, now).1 == Done)
  {
    BootedInv(cpus, idle, init);
    RunKeeps(Booted(cpus, idle, init), es);
    var s := After(Booted(cpus, idle, init), es);
    forall t | t in s.threads ensures Matches(s, t) {
      InvMatches(s, t);
    }
    forall pl | pl != Nowhere ensures NoRepeats(Table(s, pl)) { assert TableOk(s, pl); }
    DistinctCount(s.roster.global, s.threads.Keys);
    forall c, now | Active(s, c) in s.threads ensures Pass(s, c, now).1 == Done { PassStep(s, c, now); }
  }

  lemma InvMatches(s: Sched, t: int)
    requires QueueInv(s) && t in s.threads
    ensures Matches(s, t)
  {
    assert ThreadOk(s, t);
    forall pl | pl != Nowhere ensures Holds(Table(s, pl), t) <==> Home(s, t) == pl {
      assert TableOk(s, pl) && AtHome(s, pl, t);
    }
  }

  /** A join of a thread that has not ended keeps the invariant exactly when the caller is not an idle thread, which
      would leave its CPU with nothing to elect. */
  lemma JoinExact(s: Sched, c: int, x: int)
    requires Inv(s) && Calls(s, c) && x in s.threads && s.threads[x].state != Zombie
    ensures Inv(Wait(s, c, x).0) <==> Active(s, c) != Idle(s, c)
  {
    CallerOk(s, c);
    if Active(s, c) != Idle(s, c) {
      WaitStep(s, c, x);
    } else {
      assert !ThreadOk(Wait(s, c, x).0, Active(s, c));
    }
  }

  /** A second joiner takes the place of the first: no exit will ready the first any more. The same goes for whoever
      joins init. */
  lemma SecondJoinerStrands(s: Sched, c: int, x: int)
    requires Inv(s) && Calls(s, c) && Active(s, c) != Idle(s, c) && x in s.threads && s.threads[x].state != Zombie
    ensures var r := Wait(s, c, x).0;
      && Inv(r)
      && (x != s.roster.init && s.threads[x].links.joiner != NOBODY ==> Stranded(r, s.threads[x].links.joiner))
      && (x == s.roster.init ==> Stranded(r, Active(s, c)))
  {
    WaitStep(s, c, x);
    assert ThreadOk(s, NOBODY);
    WaitJoins(s, c, x);
  }

  /** A join of a thread that has ended keeps the invariant exactly when the CPU of that thread has left it and no
      earlier joiner is going to remove it, which is never so for init. */
  lemma RemoveExact(s: Sched, c: int, x: int)
    requires Inv(s) && Calls(s, c) && Active(s, c) != Idle(s, c) && x in s.threads && s.threads[x].state == Zombie
    ensures Inv(Wait(s, c, x).0) <==> Removable(s, x)
  {
    var r, j := Wait(s, c, x).0, s.threads[x].links.joiner;
    assert ThreadOk(s, NOBODY) && ThreadOk(s, x) && JoinOk(s, x);
    if Removable(s, x) {
      RemoveStep(s, x);
    } else if !SwitchedOut(s, x) {
      assert !CpuOk(r, s.threads[x].cpu);
    } else {
      assert JoinOk(s, j) && Names(s, x, j);
      assert !JoinOk(r, j);
    }
  }

  /** When the thread has an earlier joiner, ready or running, the second one removes it at once and leaves the first
      with a link to a thread that is gone. When the first one runs it removes the thread once more, and the thread
      count is then one too small. */
  lemma RemovedTwice(s: Sched, c: int, x: int)
    requires Inv(s) && Calls(s, c) && x in s.threads && s.threads[x].state == Zombie
    requires s.threads[x].links.joiner != NOBODY && x != s.roster.init
    ensures var r, j := Wait(s, c, x).0, s.threads[x].links.joiner;
      && j in r.threads && Awake(r.threads[j].state) && r.threads[j].links.target == x && x !in r.threads
      && forall d :: Active(r, d) == j ==> CountsTooFew(Clean(r, d))
  {
    var r, j := Wait(s, c, x).0, s.threads[x].links.joiner;
    assert ThreadOk(s, NOBODY) && JoinOk(s, x) && JoinOk(s, j) && Names(s, x, j);
    DistinctCount(s.roster.global, s.threads.Keys);
    assert r.threads.Keys == s.threads.Keys - {x};
    forall d | Active(r, d) == j ensures CountsTooFew(Clean(r, d)) {
      assert Clean(r, d).threads.Keys == r.threads.Keys;
      assert |Clean(r, d).threads| == |Clean(r, d).threads.Keys|;
    }
  }

  ghost predicate CountsTooFew(s: Sched) {
    s.roster.count == |s.threads| - 1
  }

  /** Removing a thread that has ended keeps the invariant exactly when its CPU has switched away from it. */
  lemma CleanExact(s: Sched, c: int)
    requires Inv(s) && Active(s, c) in s.threads && Me(s, c).state == Running && Me(s, c).links.target != NOBODY
    ensures Inv(Clean(s, c)) <==> SwitchedOut(s, Me(s, c).links.target)
    ensures var x := Me(s, c).links.target; x in s.threads && s.threads[x].cpu == c ==> SwitchedOut(s, x)
  {
    var x := Me(s, c).links.target;
    assert JoinOk(s, Active(s, c));
    CallerOk(s, c);
    if SwitchedOut(s, x) {
      CleanStep(s, c);
    } else {
      var r := Clean(s, c);
      assert ThreadOk(s, NOBODY);
      assert !CpuOk(r, s.threads[x].cpu);
    }
  }
}
