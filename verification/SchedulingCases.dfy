/**
  Two runs of the scheduler from its start that end where a property fails: a sleeper that is due and stays asleep, and
  a thread that is freed while a CPU still runs it.
 */
module SchedulingCases {

  import opened Basics
  import opened KernelQueue
  import opened Scheduling

  // The run leads from one state to the other.
  ghost predicate Leads(s: Sched, es: seq<Step>, r: Sched) {
    Runs(s, es) && After(s, es) == r
  }

  lemma {:induction false} Chain(s: Sched, es: seq<Step>, m: Sched, fs: seq<Step>, r: Sched)
    requires Leads(s, es, m) && Leads(m, fs, r)
    ensures Leads(s, es + fs, r)
    decreases |es|
  {
    if es == [] {
      assert es + fs == fs;
    } else {
      Chain(Next(s, es[0]), es[1..], m, fs, r);
      assert (es + fs)[1..] == es[1..] + fs;
    }
  }

  lemma OneStep(s: Sched, e: Step)
    requires Enabled(s, e)
    ensures Leads(s, [e], Next(s, e))
  {
    assert [e][1..] == [];
  }

  lemma TwoSteps(s: Sched, e: Step, f: Step)
    requires Enabled(s, e) && Enabled(Next(s, e), f)
    ensures Leads(s, [e, f], Next(Next(s, e), f))
  {
    OneStep(s, e);
    OneStep(Next(s, e), f);
    Chain(s, [e], Next(s, e), [f], Next(Next(s, e), f));
    assert [e] + [f] == [e, f];
  }

  // What a CPU runs, its best and its lowest level, and its sleepers. The levels between are empty.
  datatype Desk = Desk(active: int, high: seq<Item<int>>, low: seq<Item<int>>, asleep: seq<Item<int>>)

  ghost predicate On(s: Sched, c: int, d: Desk) {
    && Active(s, c) == d.active && Table(s, SleepTable(c)) == d.asleep
    && Table(s, ReadyTable(c, 0)) == d.high && Table(s, ReadyTable(c, LOWEST)) == d.low
    && forall p :: 0 < p < LOWEST ==> Table(s, ReadyTable(c, p)) == []
  }

  // Everything but one CPU.
  ghost predicate Elsewhere(s: Sched, r: Sched, c: int) {
    && s.roster == r.roster && s.threads.Keys == r.threads.Keys && Table(s, ZombieTable) == Table(r, ZombieTable)
    && forall d, e :: d != c && On(s, d, e) ==> On(r, d, e)
  }

  lemma ElectedElsewhere(s: Sched, c: int)
    requires BestFrom(s, c, 0) <= LOWEST && Elect(s, c).1 == Done
    ensures Elsewhere(s, Elect(s, c).0, c)
  {
  }

  // The election takes the oldest thread of the best level, or of the lowest when that is empty.
  lemma Elected(s: Sched, c: int, d: Desk, t: int)
    requires On(s, c, d) && t in s.threads
    requires if d.high != [] then d.high[|d.high| - 1].value == t else d.low != [] && d.low[|d.low| - 1].value == t
    ensures var (r, code) := Elect(s, c);
      && code == Done && r.threads == s.threads[t := s.threads[t].(state := Running)]
      && On(r, c, if d.high != [] then d.(active := t, high := d.high[..|d.high| - 1])
         else d.(active := t, low := d.low[..|d.low| - 1]))
      && Elsewhere(s, r, c)
  {
    var p := BestFrom(s, c, 0);
    assert p == if d.high != [] then 0 else LOWEST;
    ElectedElsewhere(s, c);
  }

  // Nobody sleeps, or the sleeper at the tail must sleep on.
  ghost predicate Calm(s: Sched, q: seq<Item<int>>, now: int) {
    q == [] || (
      var x := q[|q| - 1];
      x.value in s.threads && s.threads[x.value].wakeup >= now && x.key == s.threads[x.value].wakeup % W32
        && InsertItem(q[..|q| - 1], x) == q)
  }

  lemma Undisturbed(s: Sched, c: int, now: int)
    requires Calm(s, Table(s, SleepTable(c)), now)
    ensures Wake(s, c, now) == s
  {
    var q := Table(s, SleepTable(c));
    if q != [] {
      assert s.tables[SleepTable(c) := q[..|q| - 1]][SleepTable(c) := q] == s.tables;
    }
  }

  // A pass, from the requeueing on.
  lemma Passed(s: Sched, c: int, now: int, q: Sched, d: Desk, t: int)
    requires Active(s, c) in s.threads && q == Requeue(s, c) && On(q, c, d) && Calm(q, d.asleep, now) && t in q.threads
    requires if d.high != [] then d.high[|d.high| - 1].value == t else d.low != [] && d.low[|d.low| - 1].value == t
    ensures var r := Next(s, PassEvent(c, now));
      && r.threads == q.threads[t := q.threads[t].(state := Running)]
      && On(r, c, if d.high != [] then d.(active := t, high := d.high[..|d.high| - 1])
         else d.(active := t, low := d.low[..|d.low| - 1]))
      && Elsewhere(q, r, c)
  {
    Undisturbed(q, c, now);
    Elected(q, c, d, t);
  }

  // ----- A sleeper that is due stays asleep -----

  predicate Three(i: int, a: int, b: int) {
    i != a && i != b && a != b && i != NOBODY && a != NOBODY && b != NOBODY
  }

  // The idle thread i and two threads of the best level on one CPU, with their states and wake-up times.
  ghost predicate Crew(s: Sched, i: int, a: int, b: int, states: (ThreadState, ThreadState, ThreadState),
                       times: (int, int)) {
    && Three(i, a, b) && s.threads.Keys == {i, a, b} && Idle(s, 0) == i
    && s.threads[i].prio == LOWEST && s.threads[a].prio == 0 && s.threads[b].prio == 0
    && s.threads[i].state == states.0 && s.threads[a].state == states.1 && s.threads[b].state == states.2
    && s.threads[a].wakeup == times.0 && s.threads[b].wakeup == times.1
    && forall t :: t in s.threads ==> s.threads[t].links.target == NOBODY
  }

  lemma CrewStarts(i: int, a: int, b: int)
    requires Three(i, a, b)
    ensures var s := Booted(1, i, a);
      && Enabled(s, CreateEvent(b, 0, 0, true))
      && var r := Next(s, CreateEvent(b, 0, 0, true));
        Crew(r, i, a, b, (Running, Ready, Ready), (0, 0)) && On(r, 0, Desk(i, [Item(0, b), Item(0, a)], [], []))
  {
  }

  // a is elected and sleeps 20 ms at uptime 5.
  lemma FirstSleeps(s: Sched, i: int, a: int, b: int)
    requires Crew(s, i, a, b, (Running, Ready, Ready), (0, 0)) && On(s, 0, Desk(i, [Item(0, b), Item(0, a)], [], []))
    ensures Enabled(s, PassEvent(0, 5)) && Enabled(Next(s, PassEvent(0, 5)), SleepEvent(0, 5, 20))
    ensures var r := Next(Next(s, PassEvent(0, 5)), SleepEvent(0, 5, 20));
      Crew(r, i, a, b, (Ready, Sleeping, Ready), (20, 0)) && On(r, 0, Desk(a, [Item(0, b)], [Item(0, i)], []))
  {
    var q := Requeue(s, 0);
    Passed(s, 0, 5, q, Desk(NOBODY, [Item(0, b), Item(0, a)], [Item(0, i)], []), a);
  }

  // b is elected and sleeps 2^32 - 5 ms at uptime 20.
  lemma SecondSleeps(s: Sched, i: int, a: int, b: int)
    requires Crew(s, i, a, b, (Ready, Sleeping, Ready), (20, 0)) && On(s, 0, Desk(a, [Item(0, b)], [Item(0, i)], []))
    ensures Enabled(s, PassEvent(0, 5)) && Enabled(Next(s, PassEvent(0, 5)), SleepEvent(0, 20, W32 - 5))
    ensures var r := Next(Next(s, PassEvent(0, 5)), SleepEvent(0, 20, W32 - 5));
      Crew(r, i, a, b, (Ready, Sleeping, Sleeping), (20, W32 + 10))
        && On(r, 0, Desk(b, [], [Item(0, i)], [Item(20, a)]))
  {
    var q := Requeue(s, 0);
    Passed(s, 0, 5, q, Desk(NOBODY, [Item(0, b)], [Item(0, i)], [Item(20, a)]), b);
  }

  // Both sleep, the one with the later time at the tail.
  lemma BothAsleep(s: Sched, i: int, a: int, b: int)
    requires Crew(s, i, a, b, (Ready, Sleeping, Sleeping), (20, W32 + 10))
      && On(s, 0, Desk(b, [], [Item(0, i)], [Item(20, a)]))
    ensures Enabled(s, PassEvent(0, 20))
    ensures var r := Next(s, PassEvent(0, 20));
      Crew(r, i, a, b, (Running, Sleeping, Sleeping), (20, W32 + 10))
        && On(r, 0, Desk(i, [], [], [Item(20, a), Item(10, b)]))
  {
    var q := Requeue(s, 0);
    InsertItemAt([Item(20, a)], Item(10, b), 1);
    assert Table(q, SleepTable(0)) == [Item(20, a), Item(10, b)];
    Passed(s, 0, 20, q, Desk(NOBODY, [], [Item(0, i)], [Item(20, a), Item(10, b)]), i);
  }

  // Everybody else sleeps and the tail of the sleep table hides a, whose time has come.
  ghost predicate Hidden(s: Sched, i: int, a: int, b: int) {
    Crew(s, i, a, b, (Running, Sleeping, Sleeping), (20, W32 + 10))
      && On(s, 0, Desk(i, [], [], [Item(20, a), Item(10, b)]))
  }

  lemma StaysHidden(s: Sched, i: int, a: int, b: int, now: int)
    requires Hidden(s, i, a, b) && now <= W32 + 10
    ensures Enabled(s, PassEvent(0, now)) && Hidden(Next(s, PassEvent(0, now)), i, a, b)
  {
    var q := Requeue(s, 0);
    InsertItemAt([Item(20, a)], Item(10, b), 1);
    Passed(s, 0, now, q, Desk(NOBODY, [], [Item(0, i)], [Item(20, a), Item(10, b)]), i);
  }

  function PassesAt(times: seq<int>): seq<Step> {
    if times == [] then [] else [PassEvent(0, times[0])] + PassesAt(times[1..])
  }

  lemma {:induction false} StayHidden(s: Sched, i: int, a: int, b: int, times: seq<int>)
    requires Hidden(s, i, a, b) && forall k :: 0 <= k < |times| ==> times[k] <= W32 + 10
    ensures Runs(s, PassesAt(times)) && Hidden(After(s, PassesAt(times)), i, a, b)
    decreases |times|
  {
    if times != [] {
      StaysHidden(s, i, a, b, times[0]);
      StayHidden(Next(s, PassEvent(0, times[0])), i, a, b, times[1..]);
      assert PassesAt(times)[1..] == PassesAt(times[1..]);
    }
  }

  // init sleeps 20 ms at uptime 5, and b sleeps 2^32 - 5 ms at uptime 20.
  function TwoSleeps(b: int): seq<Step> {
    [CreateEvent(b, 0, 0, true)] + [PassEvent(0, 5), SleepEvent(0, 5, 20)] +
    [PassEvent(0, 5), SleepEvent(0, 20, W32 - 5)] + [PassEvent(0, 20)]
  }

  lemma TwoSleepsRun(i: int, a: int, b: int) returns (s: Sched)
    requires Three(i, a, b)
    ensures Leads(Booted(1, i, a), TwoSleeps(b), s) && Hidden(s, i, a, b)
  {
    var m := FirstPart(i, a, b);
    s := SecondPart(m, i, a, b);
    var first := [CreateEvent(b, 0, 0, true)] + [PassEvent(0, 5), SleepEvent(0, 5, 20)];
    var second := [PassEvent(0, 5), SleepEvent(0, 20, W32 - 5)] + [PassEvent(0, 20)];
    Chain(Booted(1, i, a), first, m, second, s);
    assert first + second == TwoSleeps(b);
  }

  lemma FirstPart(i: int, a: int, b: int) returns (r: Sched)
    requires Three(i, a, b)
    ensures Leads(Booted(1, i, a), [CreateEvent(b, 0, 0, true)] + [PassEvent(0, 5), SleepEvent(0, 5, 20)], r)
    ensures Crew(r, i, a, b, (Ready, Sleeping, Ready), (20, 0)) && On(r, 0, Desk(a, [Item(0, b)], [Item(0, i)], []))
  {
    var s := Booted(1, i, a);
    CrewStarts(i, a, b);
    var m := Next(s, CreateEvent(b, 0, 0, true));
    OneStep(s, CreateEvent(b, 0, 0, true));
    FirstSleeps(m, i, a, b);
    r := Next(Next(m, PassEvent(0, 5)), SleepEvent(0, 5, 20));
    TwoSteps(m, PassEvent(0, 5), SleepEvent(0, 5, 20));
    Chain(s, [CreateEvent(b, 0, 0, true)], m, [PassEvent(0, 5), SleepEvent(0, 5, 20)], r);
  }

  lemma SecondPart(s: Sched, i: int, a: int, b: int) returns (r: Sched)
    requires Crew(s, i, a, b, (Ready, Sleeping, Ready), (20, 0)) && On(s, 0, Desk(a, [Item(0, b)], [Item(0, i)], []))
    ensures Leads(s, [PassEvent(0, 5), SleepEvent(0, 20, W32 - 5)] + [PassEvent(0, 20)], r) && Hidden(r, i, a, b)
  {
    SecondSleeps(s, i, a, b);
    var m := Next(Next(s, PassEvent(0, 5)), SleepEvent(0, 20, W32 - 5));
    TwoSteps(s, PassEvent(0, 5), SleepEvent(0, 20, W32 - 5));
    BothAsleep(m, i, a, b);
    OneStep(m, PassEvent(0, 20));
    r := Next(m, PassEvent(0, 20));
    Chain(s, [PassEvent(0, 5), SleepEvent(0, 20, W32 - 5)], m, [PassEvent(0, 20)], r);
  }

  /** Beyond 2^32 the sleep table is out of order: after this run from the start, init is due from uptime 21 on, and no
      pass up to uptime 2^32 + 10 wakes it. */
  lemma LateSleeperHidesDue(i: int, a: int, b: int, times: seq<int>)
    requires Three(i, a, b) && forall k :: 0 <= k < |times| ==> times[k] <= W32 + 10
    ensures var es := TwoSleeps(b) + PassesAt(times);
      && Runs(Booted(1, i, a), es)
      && var s := After(Booted(1, i, a), es);
        a in s.threads && s.threads[a].state == Sleeping && s.threads[a].wakeup == 20
  {
    var m := TwoSleepsRun(i, a, b);
    StayHidden(m, i, a, b, times);
    Chain(Booted(1, i, a), TwoSleeps(b), m, PassesAt(times), After(m, PassesAt(times)));
  }

  // ----- A thread is freed while its CPU still runs it -----

  // The idle threads of two CPUs, init on the first and a thread on the second, with their states and who joins whom.
  ghost predicate Pair(s: Sched, i: int, j: int, a: int, b: int,
                       states: (ThreadState, ThreadState, ThreadState, ThreadState), joined: bool) {
    && Three(i, a, b) && j != i && j != a && j != b && j != NOBODY
    && s.threads.Keys == {i, j, a, b} && Idle(s, 0) == i && Idle(s, 1) == j && s.roster.init == a && s.roster.cpus == 2
    && s.threads[i].prio == LOWEST && s.threads[j].prio == LOWEST && s.threads[a].prio == 0 && s.threads[b].prio == 0
    && s.threads[a].cpu == 0 && s.threads[b].cpu == 1
    && s.threads[i].state == states.0 && s.threads[j].state == states.1 && s.threads[a].state == states.2
       && s.threads[b].state == states.3
    && s.threads[i].links.target == s.threads[j].links.target == s.threads[b].links.target == NOBODY
    && s.threads[a].links.target == (if joined then b else NOBODY)
       && s.threads[b].links.joiner == (if joined then a else NOBODY)
  }

  // The second CPU starts and gets a thread.
  lemma PairStarted(i: int, j: int, a: int, b: int) returns (r: Sched)
    requires Three(i, a, b) && j != i && j != a && j != b && j != NOBODY
    ensures Leads(Booted(2, i, a), [IdleEvent(1, j), CreateEvent(b, 0, 1, true)], r)
    ensures Pair(r, i, j, a, b, (Running, Running, Ready, Ready), false)
    ensures On(r, 0, Desk(i, [Item(0, a)], [], [])) && On(r, 1, Desk(j, [Item(0, b)], [], []))
  {
    var s := Booted(2, i, a);
    r := Next(Next(s, IdleEvent(1, j)), CreateEvent(b, 0, 1, true));
    TwoSteps(s, IdleEvent(1, j), CreateEvent(b, 0, 1, true));
  }

  // Both CPUs leave their idle threads.
  lemma PairElected(s: Sched, i: int, j: int, a: int, b: int) returns (r: Sched)
    requires Pair(s, i, j, a, b, (Running, Running, Ready, Ready), false)
    requires On(s, 0, Desk(i, [Item(0, a)], [], [])) && On(s, 1, Desk(j, [Item(0, b)], [], []))
    ensures Leads(s, [PassEvent(0, 0), PassEvent(1, 0)], r)
    ensures Pair(r, i, j, a, b, (Ready, Ready, Running, Running), false)
    ensures On(r, 0, Desk(a, [], [Item(0, i)], [])) && On(r, 1, Desk(b, [], [Item(0, j)], []))
  {
    var q := Requeue(s, 0);
    Passed(s, 0, 0, q, Desk(NOBODY, [Item(0, a)], [Item(0, i)], []), a);
    var m := Next(s, PassEvent(0, 0));
    assert On(q, 1, Desk(j, [Item(0, b)], [], []));
    var q1 := Requeue(m, 1);
    Passed(m, 1, 0, q1, Desk(NOBODY, [Item(0, b)], [Item(0, j)], []), b);
    assert On(q1, 0, Desk(a, [], [Item(0, i)], []));
    r := Next(m, PassEvent(1, 0));
    TwoSteps(s, PassEvent(0, 0), PassEvent(1, 0));
  }

  // init joins b and is switched out.
  lemma PairJoined(s: Sched, i: int, j: int, a: int, b: int) returns (r: Sched)
    requires Pair(s, i, j, a, b, (Ready, Ready, Running, Running), false)
    requires On(s, 0, Desk(a, [], [Item(0, i)], [])) && On(s, 1, Desk(b, [], [Item(0, j)], []))
    ensures Leads(s, [WaitEvent(0, b), PassEvent(0, 0)], r)
    ensures Pair(r, i, j, a, b, (Running, Ready, Joining, Running), true)
    ensures On(r, 0, Desk(i, [], [], [])) && On(r, 1, Desk(b, [], [Item(0, j)], []))
  {
    var m := Next(s, WaitEvent(0, b));
    var q := Requeue(m, 0);
    assert On(q, 1, Desk(b, [], [Item(0, j)], []));
    Passed(m, 0, 0, q, Desk(NOBODY, [], [Item(0, i)], []), i);
    r := Next(m, PassEvent(0, 0));
    TwoSteps(s, WaitEvent(0, b), PassEvent(0, 0));
  }

  // b ends and has not been switched out when init runs again.
  lemma PairEnded(s: Sched, i: int, j: int, a: int, b: int) returns (r: Sched)
    requires Pair(s, i, j, a, b, (Running, Ready, Joining, Running), true)
    requires On(s, 0, Desk(i, [], [], [])) && On(s, 1, Desk(b, [], [Item(0, j)], []))
    ensures Leads(s, [ExitEvent(1), PassEvent(0, 0)], r)
    ensures Pair(r, i, j, a, b, (Ready, Ready, Running, Zombie), true)
    ensures Active(r, 0) == a && On(r, 1, Desk(b, [], [Item(0, j)], []))
  {
    var m := Next(s, ExitEvent(1));
    var q := Requeue(m, 0);
    assert On(q, 1, Desk(b, [], [Item(0, j)], []));
    Passed(m, 0, 0, q, Desk(NOBODY, [Item(0, a)], [Item(0, i)], []), a);
    r := Next(m, PassEvent(0, 0));
    TwoSteps(s, ExitEvent(1), PassEvent(0, 0));
  }

  function EarlyJoin(j: int, b: int): seq<Step> {
    ([IdleEvent(1, j), CreateEvent(b, 0, 1, true)] + [PassEvent(0, 0), PassEvent(1, 0)]) +
    ([WaitEvent(0, b), PassEvent(0, 0)] + [ExitEvent(1), PassEvent(0, 0)])
  }

  lemma EarlyJoinRun(i: int, j: int, a: int, b: int) returns (r: Sched)
    requires Three(i, a, b) && j != i && j != a && j != b && j != NOBODY
    ensures Leads(Booted(2, i, a), EarlyJoin(j, b), r)
    ensures Pair(r, i, j, a, b, (Ready, Ready, Running, Zombie), true)
    ensures Active(r, 0) == a && On(r, 1, Desk(b, [], [Item(0, j)], []))
  {
    var s0 := Booted(2, i, a);
    var s1 := PairStarted(i, j, a, b);
    var s2 := PairElected(s1, i, j, a, b);
    Chain(s0, [IdleEvent(1, j), CreateEvent(b, 0, 1, true)], s1, [PassEvent(0, 0), PassEvent(1, 0)], s2);
    var s3 := PairJoined(s2, i, j, a, b);
    r := PairEnded(s3, i, j, a, b);
    Chain(s2, [WaitEvent(0, b), PassEvent(0, 0)], s3, [ExitEvent(1), PassEvent(0, 0)], r);
    Chain(s0, [IdleEvent(1, j), CreateEvent(b, 0, 1, true)] + [PassEvent(0, 0), PassEvent(1, 0)], s2,
          [WaitEvent(0, b), PassEvent(0, 0)] + [ExitEvent(1), PassEvent(0, 0)], r);
  }

  /** After this run from the start, init on CPU 0 is about to remove the thread it has joined, which CPU 1 has not
      left: the thread is freed and CPU 1 still runs it. */
  lemma FreedWhileCurrent(i: int, j: int, a: int, b: int)
    requires Three(i, a, b) && j != i && j != a && j != b && j != NOBODY
    ensures Runs(Booted(2, i, a), EarlyJoin(j, b))
    ensures var s := After(Booted(2, i, a), EarlyJoin(j, b));
      && Inv(s) && Active(s, 0) == a && a in s.threads && Me(s, 0).state == Running && Me(s, 0).links.target == b
      && !SwitchedOut(s, b) && Active(Clean(s, 0), 1) == b && b !in Clean(s, 0).threads
  {
    var s := EarlyJoinRun(i, j, a, b);
    BootedInv(2, i, a);
    RunKeeps(Booted(2, i, a), EarlyJoin(j, b));
  }

  // CPU 1 leaves b for a new thread.
  lemma NewcomerElected(s: Sched, i: int, j: int, a: int, b: int, n: int) returns (r: Sched)
    requires Pair(s, i, j, a, b, (Ready, Ready, Running, Zombie), true)
    requires Active(s, 0) == a && On(s, 1, Desk(b, [], [Item(0, j)], [])) && n !in s.threads && n != NOBODY
    ensures Leads(s, [CreateEvent(n, 0, 1, true), PassEvent(1, 0)], r)
    ensures Calls(r, 1) && Active(r, 1) == n && Active(r, 0) == a && Idle(r, 1) == j && r.roster.init == s.roster.init
    ensures a in r.threads && r.threads[a] == s.threads[a] && b in r.threads && r.threads[b] == s.threads[b]
  {
    var m := Next(s, CreateEvent(n, 0, 1, true));
    var q := Requeue(m, 1);
    Passed(m, 1, 0, q, Desk(NOBODY, [Item(0, n)], [Item(0, j)], []), n);
    r := Next(m, PassEvent(1, 0));
    assert Active(r, 0) == a && r.roster == m.roster by { PassActive(m, 1, 0); }
    TwoSteps(s, CreateEvent(n, 0, 1, true), PassEvent(1, 0));
  }

  /** One run in which a thread is removed twice: init has been readied by the end of b, and a thread n on CPU 1 joins b
      before init removes it. The thread count ends one too small. */
  lemma RemovedTwiceReached(i: int, j: int, a: int, b: int, n: int)
    requires Three(i, a, b) && j != i && j != a && j != b && j != NOBODY && n !in {i, j, a, b, NOBODY}
    ensures var es := EarlyJoin(j, b) + [CreateEvent(n, 0, 1, true), PassEvent(1, 0)];
      && Runs(Booted(2, i, a), es)
      && var s := After(Booted(2, i, a), es);
        && Calls(s, 1) && Active(s, 1) == n && n != Idle(s, 1)
        && var r := Wait(s, 1, b).0;
          Active(r, 0) == a && a in r.threads && Clean(r, 0).roster.count == |Clean(r, 0).threads| - 1
  {
    var es := EarlyJoin(j, b) + [CreateEvent(n, 0, 1, true), PassEvent(1, 0)];
    var m := EarlyJoinRun(i, j, a, b);
    var s := NewcomerElected(m, i, j, a, b, n);
    Chain(Booted(2, i, a), EarlyJoin(j, b), m, [CreateEvent(n, 0, 1, true), PassEvent(1, 0)], s);
    BootedInv(2, i, a);
    RunKeeps(Booted(2, i, a), es);
    RemovedTwice(s, 1, b);
  }

  // ----- A joiner that nobody will ready -----

  // The idle thread, init a and two threads of the best level on one CPU, with their states and the joiner of d.
  ghost predicate Squad(s: Sched, i: int, a: int, b: int, d: int, states: (ThreadState, ThreadState, ThreadState),
                        joiner: int) {
    && Three(i, a, b) && d !in {i, a, b, NOBODY} && s.threads.Keys ==
    {i, a, b, d} && Idle(s, 0) == i && s.roster.init == a
    && s.threads[i].prio == LOWEST && s.threads[a].prio == 0 && s.threads[b].prio == 0 && s.threads[d].prio == 0
    && s.threads[a].state == states.0 && s.threads[b].state == states.1 && s.threads[d].state == states.2
    && s.threads[b].links.target == NOBODY && s.threads[d].links.joiner == joiner
    && s.threads[i].links.target == NOBODY && (joiner == NOBODY ==> s.threads[a].links.target == NOBODY)
  }

  lemma SquadStarts(i: int, a: int, b: int, d: int) returns (r: Sched)
    requires Three(i, a, b) && d !in {i, a, b, NOBODY}
    ensures Leads(Booted(1, i, a), [CreateEvent(b, 0, 0, true), CreateEvent(d, 0, 0, true)], r)
    ensures Squad(r, i, a, b, d, (Ready, Ready, Ready), NOBODY) && r.threads[i].state == Running
    ensures On(r, 0, Desk(i, [Item(0, d), Item(0, b), Item(0, a)], [], []))
  {
    var s := Booted(1, i, a);
    r := Next(Next(s, CreateEvent(b, 0, 0, true)), CreateEvent(d, 0, 0, true));
    TwoSteps(s, CreateEvent(b, 0, 0, true), CreateEvent(d, 0, 0, true));
  }

  // init is elected and joins d.
  lemma InitJoins(s: Sched, i: int, a: int, b: int, d: int) returns (r: Sched)
    requires Squad(s, i, a, b, d, (Ready, Ready, Ready), NOBODY) && s.threads[i].state == Running
    requires On(s, 0, Desk(i, [Item(0, d), Item(0, b), Item(0, a)], [], []))
    ensures Leads(s, [PassEvent(0, 0), WaitEvent(0, d)], r)
    ensures Squad(r, i, a, b, d, (Joining, Ready, Ready), a)
    ensures On(r, 0, Desk(a, [Item(0, d), Item(0, b)], [Item(0, i)], []))
  {
    var q := Requeue(s, 0);
    Passed(s, 0, 0, q, Desk(NOBODY, [Item(0, d), Item(0, b), Item(0, a)], [Item(0, i)], []), a);
    r := Next(Next(s, PassEvent(0, 0)), WaitEvent(0, d));
    TwoSteps(s, PassEvent(0, 0), WaitEvent(0, d));
  }

  lemma SecondElected(s: Sched, i: int, a: int, b: int, d: int) returns (r: Sched)
    requires Squad(s, i, a, b, d, (Joining, Ready, Ready), a)
    requires On(s, 0, Desk(a, [Item(0, d), Item(0, b)], [Item(0, i)], []))
    ensures Leads(s, [PassEvent(0, 0)], r) && Squad(r, i, a, b, d, (Joining, Running, Ready), a) && Active(r, 0) == b
  {
    var q := Requeue(s, 0);
    Passed(s, 0, 0, q, Desk(NOBODY, [Item(0, d), Item(0, b)], [Item(0, i)], []), b);
    r := Next(s, PassEvent(0, 0));
    OneStep(s, PassEvent(0, 0));
  }

  function TwoJoiners(b: int, d: int): seq<Step> {
    [CreateEvent(b, 0, 0, true), CreateEvent(d, 0, 0, true)] + [PassEvent(0, 0), WaitEvent(0, d)] + [PassEvent(0, 0)]
      + [WaitEvent(0, d)]
  }

  /** After this run from the start, init has joined d, b has joined it after init, and nobody will ready init any
      more. */
  lemma InitStranded(i: int, a: int, b: int, d: int)
    requires Three(i, a, b) && d !in {i, a, b, NOBODY}
    ensures Runs(Booted(1, i, a), TwoJoiners(b, d)) && Stranded(After(Booted(1, i, a), TwoJoiners(b, d)), a)
  {
    var s0 := Booted(1, i, a);
    var one, two := [CreateEvent(b, 0, 0, true), CreateEvent(d, 0, 0, true)], [PassEvent(0, 0), WaitEvent(0, d)];
    var s1 := SquadStarts(i, a, b, d);
    var s2 := InitJoins(s1, i, a, b, d);
    Chain(s0, one, s1, two, s2);
    var s3 := SecondElected(s2, i, a, b, d);
    Chain(s0, one + two, s2, [PassEvent(0, 0)], s3);
    BootedInv(1, i, a);
    RunKeeps(s0, one + two + [PassEvent(0, 0)]);
    SecondJoinerStrands(s3, 0, d);
    OneStep(s3, WaitEvent(0, d));
    Chain(s0, one + two + [PassEvent(0, 0)], s3, [WaitEvent(0, d)], Next(s3, WaitEvent(0, d)));
  }
}
