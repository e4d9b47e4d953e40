/**
  When threads are elected and when sleepers wake up (core/scheduler.c), over whole runs of scheduler steps.
 */
module SchedulingRuns {

  import opened Basics
  import opened KernelQueue
  import opened Scheduling

  // ----- Election -----

  // r is q with entries added at the head.
  ghost predicate Grown(q: seq<Item<int>>, r: seq<Item<int>>) {
    |q| <= |r| && r[|r| - |q|..] == q
  }

  lemma GrownTrans(q: seq<Item<int>>, r: seq<Item<int>>, w: seq<Item<int>>)
    requires Grown(q, r) && Grown(r, w)
    ensures Grown(q, w)
  {
    assert w[|w| - |q|..] == w[|w| - |r|..][|r| - |q|..];
  }

  // k threads are ahead of t in the ready table of CPU c and priority p.
  ghost predicate Behind(s: Sched, c: int, p: int, t: int, k: nat) {
    var q := Table(s, ReadyTable(c, p));
    k < |q| && q[|q| - 1 - k].value == t
  }

  lemma MakeReadyGrows(s: Sched, t: int, d: int, c: int, p: int)
    requires t in s.threads
    ensures Grown(Table(s, ReadyTable(c, p)), Table(MakeReady(s, t, d), ReadyTable(c, p)))
    ensures d != c ==> Table(MakeReady(s, t, d), ReadyTable(c, p)) == Table(s, ReadyTable(c, p))
  {
  }

  lemma RequeueGrows(s: Sched, d: int, c: int, p: int)
    requires Active(s, d) in s.threads
    ensures Grown(Table(s, ReadyTable(c, p)), Table(Requeue(s, d), ReadyTable(c, p)))
    ensures d != c ==> Table(Requeue(s, d), ReadyTable(c, p)) == Table(s, ReadyTable(c, p))
  {
    MakeReadyGrows(SetActive(s, d, NOBODY), Active(s, d), d, c, p);
  }

  // Nothing is taken out of a ready table; a table of another CPU stays as it is.
  ghost predicate ReadyGrows(s: Sched, r: Sched, d: int, c: int, p: int) {
    && Grown(Table(s, ReadyTable(c, p)), Table(r, ReadyTable(c, p)))
    && (d != c ==> Table(r, ReadyTable(c, p)) == Table(s, ReadyTable(c, p)))
  }

  // One sleeper is popped and readied.
  lemma WakeOneGrows(s: Sched, q: seq<Item<int>>, t: int, d: int, c: int, p: int)
    requires t in s.threads
    ensures ReadyGrows(s, MakeReady(SetTable(s, SleepTable(d), q), t, d), d, c, p)
  {
    MakeReadyGrows(SetTable(s, SleepTable(d), q), t, d, c, p);
  }

  lemma ReadyGrowsTrans(s: Sched, r: Sched, w: Sched, d: int, c: int, p: int)
    requires ReadyGrows(s, r, d, c, p) && ReadyGrows(r, w, d, c, p)
    ensures ReadyGrows(s, w, d, c, p)
  {
    GrownTrans(Table(s, ReadyTable(c, p)), Table(r, ReadyTable(c, p)), Table(w, ReadyTable(c, p)));
  }

  lemma SleepersOnly(s: Sched, q: seq<Item<int>>, d: int, c: int, p: int)
    ensures ReadyGrows(s, SetTable(s, SleepTable(d), q), d, c, p)
    ensures ReadyGrows(s, s, d, c, p)
  {
  }

  // The state from which the loop goes on, or its result.
  function WakeStep(s: Sched, d: int, now: int): (Sched, bool) {
    var q := Table(s, SleepTable(d));
    if q == [] then (s, false)
    else
      var t, popped := q[|q| - 1].value, SetTable(s, SleepTable(d), q[..|q| - 1]);
      if t !in s.threads then (popped, true)
      else if s.threads[t].wakeup < now then (MakeReady(popped, t, d), true)
      else (PushSleeper(popped, t, d), false)
  }

  lemma WakeByStep(s: Sched, d: int, now: int)
    ensures var (r, on) := WakeStep(s, d, now);
      Wake(s, d, now) == (if on then Wake(r, d, now) else r)
        && (on ==> |Table(r, SleepTable(d))| < |Table(s, SleepTable(d))|)
  {
  }

  lemma WakeStepGrows(s: Sched, d: int, now: int, c: int, p: int)
    ensures ReadyGrows(s, WakeStep(s, d, now).0, d, c, p)
  {
    var q := Table(s, SleepTable(d));
    if q == [] {
      SleepersOnly(s, q, d, c, p);
    } else {
      var t, popped := q[|q| - 1].value, SetTable(s, SleepTable(d), q[..|q| - 1]);
      SleepersOnly(s, q[..|q| - 1], d, c, p);
      if t in s.threads {
        if s.threads[t].wakeup < now {
          WakeOneGrows(s, q[..|q| - 1], t, d, c, p);
        } else {
          SleepersOnly(popped, Table(PushSleeper(popped, t, d), SleepTable(d)), d, c, p);
          ReadyGrowsTrans(s, popped, PushSleeper(popped, t, d), d, c, p);
        }
      }
    }
  }

  lemma {:induction false} WakeGrows(s: Sched, d: int, now: int, c: int, p: int)
    ensures ReadyGrows(s, Wake(s, d, now), d, c, p)
    decreases |Table(s, SleepTable(d))|
  {
    var (r, on) := WakeStep(s, d, now);
    WakeByStep(s, d, now);
    WakeStepGrows(s, d, now, c, p);
    if on {
      WakeGrows(r, d, now, c, p);
      ReadyGrowsTrans(s, r, Wake(r, d, now), d, c, p);
    }
  }

  // The state in which CPU c elects its next thread.
  function AtElection(s: Sched, c: int, now: int): Sched
    requires Active(s, c) in s.threads
  {
    Wake(Requeue(s, c), c, now)
  }

  lemma ElectionGrows(s: Sched, d: int, now: int, c: int, p: int)
    requires Active(s, d) in s.threads
    ensures Grown(Table(s, ReadyTable(c, p)), Table(AtElection(s, d, now), ReadyTable(c, p)))
    ensures d != c ==> Table(AtElection(s, d, now), ReadyTable(c, p)) == Table(s, ReadyTable(c, p))
  {
    RequeueGrows(s, d, c, p);
    WakeGrows(Requeue(s, d), d, now, c, p);
    GrownTrans(Table(s, ReadyTable(c, p)), Table(Requeue(s, d), ReadyTable(c, p)),
      Table(AtElection(s, d, now), ReadyTable(c, p)));
  }

  lemma BehindGrows(s: Sched, r: Sched, c: int, p: int, t: int, k: nat)
    requires Behind(s, c, p, t, k) && Grown(Table(s, ReadyTable(c, p)), Table(r, ReadyTable(c, p)))
    ensures Behind(r, c, p, t, k)
  {
    var q, q' := Table(s, ReadyTable(c, p)), Table(r, ReadyTable(c, p));
    assert q'[|q'| - |q|..][|q| - 1 - k] == q'[|q'| - 1 - k];
  }

  /** A pass elects the thread that has been queued longest at the best level that is not empty. */
  lemma PassElects(s: Sched, c: int, now: int)
    requires Inv(s) && Active(s, c) in s.threads
    ensures var w := AtElection(s, c, now);
      var p := BestFrom(w, c, 0);
      && p <= LOWEST && (forall better :: 0 <= better < p ==> Table(w, ReadyTable(c, better)) == [])
      && (forall t :: Active(Pass(s, c, now).0, c) == t <==> Behind(w, c, p, t, 0))
      && (forall t :: t in Pass(s, c, now).0.threads && Active(Pass(s, c, now).0, c) == t ==>
         Pass(s, c, now).0.threads[t].state == Running)
  {
    PassStep(s, c, now);
    var w := AtElection(s, c, now);
    var p := BestFrom(w, c, 0);
    var r := Pass(s, c, now).0;
    assert CpuOk(r, c);
    var q := Table(w, ReadyTable(c, p));
    assert Active(r, c) == q[|q| - 1].value;
  }

  /** A priority out of range is refused and changes nothing. Another one counts from the next pass on: the caller then
      stands behind all who are ready at its new level. */
  lemma PriorityTakesEffect(s: Sched, c: int, prio: int, now: int)
    requires Inv(s) && Calls(s, c) && 0 <= prio
    ensures SetPriority(s, c, prio).1 == Done <==> prio <= LOWEST
    ensures prio > LOWEST ==> SetPriority(s, c, prio).0 == s
    ensures prio <= LOWEST ==>
      Behind(AtElection(SetPriority(s, c, prio).0, c, now), c, prio, Active(s, c), |Table(s, ReadyTable(c, prio))|)
  {
    if prio <= LOWEST {
      var r := SetPriority(s, c, prio).0;
      RequeuedLast(r, c);
      WakeGrows(Requeue(r, c), c, now, c, prio);
      BehindGrows(Requeue(r, c), AtElection(r, c, now), c, prio, Active(s, c), |Table(s, ReadyTable(c, prio))|);
    }
  }

  // A thread that goes on running stands last at its level when it is requeued.
  lemma RequeuedLast(s: Sched, c: int)
    requires Active(s, c) in s.threads && Me(s, c).state == Running
    ensures var p := Me(s, c).prio; Behind(Requeue(s, c), c, p, Active(s, c), |Table(s, ReadyTable(c, p))|)
  {
    var p := Me(s, c).prio;
    assert Table(Requeue(s, c), ReadyTable(c, p)) == [Item(0, Active(s, c))] + Table(s, ReadyTable(c, p));
  }

  // An election at level p moves everyone at that level up by one.
  lemma ElectMovesUp(w: Sched, c: int, p: int, t: int, k: nat)
    requires Behind(w, c, p, t, k) && BestFrom(w, c, 0) == p && Elect(w, c).1 == Done
    ensures if k == 0 then Active(Elect(w, c).0, c) == t else Behind(Elect(w, c).0, c, p, t, k - 1)
  {
    var q := Table(w, ReadyTable(c, p));
    if k > 0 {
      assert Table(Elect(w, c).0, ReadyTable(c, p)) == q[..|q| - 1];
    }
  }

  lemma PassMovesUp(s: Sched, c: int, now: int, p: int, t: int, k: nat)
    requires Inv(s) && Active(s, c) in s.threads && Behind(s, c, p, t, k) && 0 <= p <= LOWEST
    requires BestFrom(AtElection(s, c, now), c, 0) >= p
    ensures var r := Pass(s, c, now).0; if k == 0 then Active(r, c) == t else Behind(r, c, p, t, k - 1)
  {
    var w := AtElection(s, c, now);
    ElectionGrows(s, c, now, c, p);
    BehindGrows(s, w, c, p, t, k);
    assert Table(w, ReadyTable(c, p)) != [];
    PassStep(s, c, now);
    ElectMovesUp(w, c, p, t, k);
  }

  lemma ElectElsewhere(w: Sched, d: int, c: int, p: int)
    requires d != c
    ensures Table(Elect(w, d).0, ReadyTable(c, p)) == Table(w, ReadyTable(c, p))
  {
  }

  // The other steps only add entries at the head of a ready table.
  lemma StepGrows(s: Sched, e: Step, c: int, p: int)
    requires Enabled(s, e) && !(e.PassEvent? && e.cpu == c)
    ensures Grown(Table(s, ReadyTable(c, p)), Table(Next(s, e), ReadyTable(c, p)))
  {
    match e
    case PassEvent(d, now) =>
      ElectionGrows(s, d, now, c, p);
      ElectElsewhere(AtElection(s, d, now), d, c, p);
    case UnlockEvent(d, t, why) =>
      if t in s.threads { MakeReadyGrows(s, t, s.threads[t].cpu, c, p); }
    case ExitEvent(d) => ExitGrows(s, d, c, p);
    case CreateEvent(id, prio, affinity, ok) => CreateGrows(s, id, prio, affinity, ok, c, p);
    case WaitEvent(d, x) => WaitSame(s, d, x, c, p);
    case _ =>
  }

  lemma WaitSame(s: Sched, d: int, x: int, c: int, p: int)
    requires Active(s, d) in s.threads
    ensures Table(Wait(s, d, x).0, ReadyTable(c, p)) == Table(s, ReadyTable(c, p))
  {
  }

  lemma CreateGrows(s: Sched, id: int, prio: int, cpu: int, ok: bool, c: int, p: int)
    ensures Grown(Table(s, ReadyTable(c, p)), Table(Create(s, id, prio, cpu, ok).0, ReadyTable(c, p)))
  {
  }

  lemma ExitGrows(s: Sched, d: int, c: int, p: int)
    requires Active(s, d) in s.threads
    ensures Grown(Table(s, ReadyTable(c, p)), Table(Exit(s, d).0, ReadyTable(c, p)))
  {
    var t := Active(s, d);
    if t != Idle(s, d) && t != s.roster.init {
      var s2, j := Bury(s, t), Me(s, d).links.joiner;
      assert Table(s2, ReadyTable(c, p)) == Table(s, ReadyTable(c, p));
      if j in s2.threads && s2.threads[j].state == Joining {
        MakeReadyGrows(s2, j, s2.threads[j].cpu, c, p);
        assert Exit(s, d).0 == MakeReady(s2, j, s2.threads[j].cpu);
      } else {
        assert Exit(s, d).0 == s2;
      }
    } else {
      assert Table(Exit(s, d).0, ReadyTable(c, p)) == Table(s, ReadyTable(c, p));
    }
  }

  function Passes(es: seq<Step>, c: int): nat {
    if es == [] then 0 else (if es[0].PassEvent? && es[0].cpu == c then 1 else 0) + Passes(es[1..], c)
  }

  // At every pass of CPU c, no level better than p has a ready thread.
  ghost predicate NothingBetter(s: Sched, es: seq<Step>, c: int, p: int)
    requires Runs(s, es)
    decreases |es|
  {
    es != [] ==>
      && (es[0].PassEvent? && es[0].cpu == c ==> BestFrom(AtElection(s, c, es[0].now), c, 0) >= p)
      && NothingBetter(Next(s, es[0]), es[1..], c, p)
  }

  ghost predicate ElectedIn(s: Sched, es: seq<Step>, c: int, t: int)
    requires Runs(s, es)
    decreases |es|
  {
    es != [] &&
    ((es[0].PassEvent? && es[0].cpu == c && Active(Next(s, es[0]), c) == t) || ElectedIn(Next(s, es[0]), es[1..], c, t))
  }

  // One step: the thread keeps its place, or a pass of its CPU brings it forward by one.
  lemma StepMovesUp(s: Sched, e: Step, c: int, p: int, t: int, k: nat)
    requires Inv(s) && Enabled(s, e) && Behind(s, c, p, t, k) && 0 <= p <= LOWEST
    requires e.PassEvent? && e.cpu == c ==> BestFrom(AtElection(s, c, e.now), c, 0) >= p
    ensures Inv(Next(s, e))
    ensures if !(e.PassEvent? && e.cpu == c) then Behind(Next(s, e), c, p, t, k)
      else if k == 0 then Active(Next(s, e), c) == t else Behind(Next(s, e), c, p, t, k - 1)
  {
    StepKeeps(s, e);
    if e.PassEvent? && e.cpu == c {
      PassMovesUp(s, c, e.now, p, t, k);
    } else {
      StepGrows(s, e, c, p);
      BehindGrows(s, Next(s, e), c, p, t, k);
    }
  }

  lemma RunStep(s: Sched, es: seq<Step>, c: int, p: int)
    requires es != [] && Runs(s, es) && NothingBetter(s, es, c, p)
    ensures Enabled(s, es[0]) && Runs(Next(s, es[0]), es[1..]) && NothingBetter(Next(s, es[0]), es[1..], c, p)
    ensures es[0].PassEvent? && es[0].cpu == c ==> BestFrom(AtElection(s, c, es[0].now), c, 0) >= p
  {
  }

  // The rest of the run, from the state r after its first step.
  lemma {:induction false} ElectedFrom(s: Sched, r: Sched, es: seq<Step>, c: int, p: int, t: int, k: nat)
    requires es != [] && Runs(s, es) && r == Next(s, es[0]) && Inv(r) && NothingBetter(r, es[1..], c, p)
      && 0 <= p <= LOWEST
    requires Passes(es, c) >= k + 1
    requires if !(es[0].PassEvent? && es[0].cpu == c) then Behind(r, c, p, t, k)
      else if k == 0 then Active(r, c) == t else Behind(r, c, p, t, k - 1)
    ensures ElectedIn(s, es, c, t)
    decreases |es|, 0
  {
    if !(es[0].PassEvent? && es[0].cpu == c) {
      ElectedWithin(r, es[1..], c, p, t, k);
    } else if k > 0 {
      ElectedWithin(r, es[1..], c, p, t, k - 1);
    }
  }

  /** A ready thread with k threads ahead of it at its level is elected by the (k + 1)st pass of its CPU, whatever steps
      come in between, if nothing better is ready at those passes. */
  lemma {:induction false} ElectedWithin(s: Sched, es: seq<Step>, c: int, p: int, t: int, k: nat)
    requires Inv(s) && Runs(s, es) && Behind(s, c, p, t, k) && 0 <= p <= LOWEST
    requires NothingBetter(s, es, c, p) && Passes(es, c) >= k + 1
    ensures ElectedIn(s, es, c, t)
    decreases |es|, 1
  {
    RunStep(s, es, c, p);
    StepMovesUp(s, es[0], c, p, t, k);
    ElectedFrom(s, Next(s, es[0]), es, c, p, t, k);
  }

  // ----- Waking up -----

  predicate Due(s: Sched, t: int, now: int) {
    t in s.threads && s.threads[t].wakeup < now
  }

  ghost predicate DueFrom(s: Sched, q: seq<Item<int>>, i: int, now: int) {
    forall j :: 0 <= i <= j < |q| ==> Due(s, q[j].value, now)
  }

  lemma WakeStepPositions(s: Sched, r: Sched, c: int, now: int, i: nat)
    requires QueueInv(s) && Active(s, c) == NOBODY && Table(s, SleepTable(c)) != []
    requires var q := Table(s, SleepTable(c)); var t := q[|q| - 1].value;
      i < |q| - 1 && Due(s, t, now) && r == MakeReady(SetTable(s, SleepTable(c), q[..|q| - 1]), t, c)
    ensures var q := Table(s, SleepTable(c)); DueFrom(s, q, i, now) <==> DueFrom(r, q[..|q| - 1], i, now)
  {
    var q := Table(s, SleepTable(c));
    var q' := q[..|q| - 1];
    assert TableOk(s, SleepTable(c));
    assert forall j :: 0 <= j < |q'| ==> q'[j].value == q[j].value && q[j].value != q[|q| - 1].value;
    if DueFrom(r, q', i, now) {
      forall j | i <= j < |q| ensures Due(s, q[j].value, now) {
        if j < |q| - 1 { assert Due(r, q'[j].value, now); }
      }
    }
    if DueFrom(s, q, i, now) {
      forall j | i <= j < |q'| ensures Due(r, q'[j].value, now) {
        assert Due(s, q[j].value, now);
      }
    }
  }

  /** The wake-up loop readies exactly the sleepers in the part of the table at the tail whose times have all passed,
      and touches no other thread. */
  lemma {:induction false} WakeByPosition(s: Sched, c: int, now: int, t: int)
    requires QueueInv(s) && Active(s, c) == NOBODY && t in s.threads
    ensures var q := Table(s, SleepTable(c));
      var r := Wake(s, c, now);
      && t in r.threads
      && (!Holds(q, t) ==> r.threads[t] == s.threads[t])
      && (forall i :: 0 <= i < |q| && q[i].value == t ==>
            r.threads[t] == if DueFrom(s, q, i, now) then s.threads[t].(state := Ready) else s.threads[t])
    decreases |Table(s, SleepTable(c))|
  {
    var q := Table(s, SleepTable(c));
    if q != [] {
      var u := q[|q| - 1].value;
      EntryIsThread(s, SleepTable(c), |q| - 1);
      var q' := q[..|q| - 1];
      assert TableOk(s, SleepTable(c));
      if s.threads[u].wakeup < now {
        var r := MakeReady(SetTable(s, SleepTable(c), q'), u, c);
        WakeOneKeeps(s, u, c);
        WakeByPosition(r, c, now, t);
        TailLeaves(q, t);
        forall i | 0 <= i < |q| && q[i].value == t
          ensures Wake(s, c, now).threads[t] == if DueFrom(s, q, i, now) then s.threads[t].(state := Ready)
            else s.threads[t]
        {
          if i < |q| - 1 {
            WakeStepPositions(s, r, c, now, i);
            assert q'[i].value == t && r.threads[t] == s.threads[t];
          }
        }
      } else {
        assert forall i :: 0 <= i < |q| ==> !DueFrom(s, q, i, now) by {
          assert !Due(s, q[|q| - 1].value, now);
        }
      }
    }
  }

  lemma TailLeaves(q: seq<Item<int>>, t: int)
    requires q != [] && NoRepeats(q)
    ensures Holds(q[..|q| - 1], t) <==> Holds(q, t) && q[|q| - 1].value != t
  {
    var q' := q[..|q| - 1];
    if i :| 0 <= i < |q| && q[i].value == t && i < |q| - 1 { assert q'[i].value == t; }
    if i :| 0 <= i < |q'| && q'[i].value == t { assert q[i].value == t; }
  }

  // No due sleeper is in the table behind, as seen from the tail, one that is not due.
  ghost predicate DueOrder(s: Sched, q: seq<Item<int>>, now: int) {
    forall i, j :: 0 <= i <= j < |q| && Due(s, q[i].value, now) ==> Due(s, q[j].value, now)
  }

  ghost predicate AllDueWake(s: Sched, c: int, now: int) {
    forall t :: t in s.threads && Home(s, t) == SleepTable(c) && Due(s, t, now) ==>
      t in Wake(s, c, now).threads && Wake(s, c, now).threads[t].state == Ready
  }

  lemma WakesInOrder(s: Sched, c: int, now: int, t: int)
    requires QueueInv(s) && Active(s, c) == NOBODY && DueOrder(s, Table(s, SleepTable(c)), now)
    requires t in s.threads && Home(s, t) == SleepTable(c)
    ensures t in Wake(s, c, now).threads
    ensures Wake(s, c, now).threads[t] == if Due(s, t, now) then s.threads[t].(state := Ready) else s.threads[t]
  {
    var q := Table(s, SleepTable(c));
    assert TableOk(s, SleepTable(c)) && AtHome(s, SleepTable(c), t);
    var i :| 0 <= i < |q| && q[i].value == t;
    WakeByPosition(s, c, now, t);
    assert DueFrom(s, q, i, now) <==> Due(s, t, now) by {
      if DueFrom(s, q, i, now) { assert Due(s, q[i].value, now); }
    }
  }

  /** A pass readies every sleeper whose time has passed exactly when the table has them all at its tail. */
  lemma AllDueWakeIff(s: Sched, c: int, now: int)
    requires QueueInv(s) && Active(s, c) == NOBODY
    ensures AllDueWake(s, c, now) <==> DueOrder(s, Table(s, SleepTable(c)), now)
  {
    var q := Table(s, SleepTable(c));
    if DueOrder(s, q, now) {
      forall t | t in s.threads && Home(s, t) == SleepTable(c) && Due(s, t, now)
        ensures t in Wake(s, c, now).threads && Wake(s, c, now).threads[t].state == Ready
      {
        WakesInOrder(s, c, now, t);
      }
    }
    if AllDueWake(s, c, now) {
      forall i, j | 0 <= i <= j < |q| && Due(s, q[i].value, now) ensures Due(s, q[j].value, now) {
        EntryIsThread(s, SleepTable(c), i);
        WakeByPosition(s, c, now, q[i].value);
        assert Wake(s, c, now).threads[q[i].value].state == Ready;
        assert DueFrom(s, q, i, now);
      }
    }
  }

  // The part of the wake-up time by which the table is sorted.
  function LowTime(s: Sched, t: int): int {
    if t in s.threads then s.threads[t].wakeup % W32 else 0
  }

  // Each due sleeper has smaller low bits than each one that is not due, or the same ones and fell asleep before it:
  // among equals, later entries are nearer to the head.
  ghost predicate DueFirst(s: Sched, q: seq<Item<int>>, now: int) {
    forall i, j :: 0 <= i < |q| && 0 <= j < |q| && Due(s, q[i].value, now) && !Due(s, q[j].value, now) ==>
      LowTime(s, q[i].value) < LowTime(s, q[j].value) || (LowTime(s, q[i].value) == LowTime(s, q[j].value) && j < i)
  }

  /** In wake-up times: a pass readies every sleeper whose time has passed exactly when the low 32 bits put them all
      before the sleepers whose time has not passed. */
  lemma AllDueWakeByTimes(s: Sched, c: int, now: int)
    requires QueueInv(s) && Active(s, c) == NOBODY
    ensures AllDueWake(s, c, now) <==> DueFirst(s, Table(s, SleepTable(c)), now)
  {
    var q := Table(s, SleepTable(c));
    AllDueWakeIff(s, c, now);
    assert SleepOk(s, c);
    forall i | 0 <= i < |q| ensures q[i].key == LowTime(s, q[i].value) { EntryIsThread(s, SleepTable(c), i); }
    if DueOrder(s, q, now) {
      forall i, j | 0 <= i < |q| && 0 <= j < |q| && Due(s, q[i].value, now) && !Due(s, q[j].value, now)
        ensures LowTime(s, q[i].value) < LowTime(s, q[j].value)
          || (LowTime(s, q[i].value) == LowTime(s, q[j].value) && j < i)
      {
        assert j < i;
      }
    }
  }

  // The wake-up times of the sleepers of CPU c fit in 32 bits.
  ghost predicate ShortTimes(s: Sched, c: int) {
    forall t :: t in s.threads && s.threads[t].state == Sleeping && s.threads[t].cpu == c ==>
      0 <= s.threads[t].wakeup < W32
  }

  lemma ShortTimesInOrder(s: Sched, c: int, now: int)
    requires QueueInv(s) && ShortTimes(s, c)
    ensures DueOrder(s, Table(s, SleepTable(c)), now)
  {
    var q := Table(s, SleepTable(c));
    assert SleepOk(s, c);
    forall i, j | 0 <= i <= j < |q| && Due(s, q[i].value, now) ensures Due(s, q[j].value, now) {
      EntryIsThread(s, SleepTable(c), i);
      EntryIsThread(s, SleepTable(c), j);
      assert q[i].key == s.threads[q[i].value].wakeup && q[j].key == s.threads[q[j].value].wakeup;
    }
  }

  /** With wake-up times below 2^32, a pass of CPU c wakes exactly its sleepers whose time lies before now, the thread
      that just fell asleep included. */
  lemma PassWakes(s: Sched, c: int, now: int, t: int)
    requires Inv(s) && Active(s, c) in s.threads && ShortTimes(s, c)
    requires t in s.threads && s.threads[t].state == Sleeping && s.threads[t].cpu == c
    ensures var r := Pass(s, c, now).0;
      && t in r.threads && (s.threads[t].wakeup < now <==> Awake(r.threads[t].state))
      && (s.threads[t].wakeup >= now ==> r.threads[t] == s.threads[t])
  {
    CallerOk(s, c);
    var s1 := Requeue(s, c);
    RequeueKeeps(s, c);
    RequeueSleepers(s, c, t);
    ShortTimesInOrder(s1, c, now);
    WakesInOrder(s1, c, now, t);
    PassStep(s, c, now);
    WakeKeeps(s1, c, now);
    ElectOne(AtElection(s, c, now), c, t);
  }

  lemma RequeueSleepers(s: Sched, c: int, t: int)
    requires QueueInv(s) && Active(s, c) in s.threads && ShortTimes(s, c)
    requires t in s.threads && s.threads[t].state == Sleeping && s.threads[t].cpu == c
    ensures var s1 := Requeue(s, c);
      t in s1.threads && s1.threads[t] == s.threads[t] && Home(s1, t) == SleepTable(c) && ShortTimes(s1, c)
  {
    CallerOk(s, c);
    RequeueKeeps(s, c);
    assert ThreadOk(Requeue(s, c), t);
  }

  lemma ElectOne(w: Sched, c: int, t: int)
    requires QueueInv(w) && t in w.threads && Elect(w, c).1 == Done
    ensures var r := Elect(w, c).0;
      t in r.threads && (r.threads[t] == w.threads[t]
        || (w.threads[t].state == Ready && r.threads[t] == w.threads[t].(state := Running)))
  {
    var p := BestFrom(w, c, 0);
    EntryIsThread(w, ReadyTable(c, p), |Table(w, ReadyTable(c, p))| - 1);
  }

  // A step other than a pass of its CPU leaves a sleeper asleep.
  lemma SleepsOn(s: Sched, e: Step, t: int)
    requires Inv(s) && Enabled(s, e) && t in s.threads && s.threads[t].state == Sleeping
    requires !(e.PassEvent? && e.cpu == s.threads[t].cpu)
    ensures var r := Next(s, e);
      t in r.threads && r.threads[t].state == Sleeping && r.threads[t].wakeup == s.threads[t].wakeup
        && r.threads[t].cpu == s.threads[t].cpu
  {
    match e
    case PassEvent(d, now) => PassElsewhere(s, d, now, t);
    case CleanEvent(d) => assert JoinOk(s, Active(s, d));
    case ExitEvent(d) => assert JoinOk(s, Active(s, d));
    case _ =>
  }

  lemma PassElsewhere(s: Sched, d: int, now: int, t: int)
    requires Inv(s) && Active(s, d) in s.threads && t in s.threads && s.threads[t].state == Sleeping
      && s.threads[t].cpu != d
    ensures t in Pass(s, d, now).0.threads && Pass(s, d, now).0.threads[t] == s.threads[t]
  {
    CallerOk(s, d);
    var s1 := Requeue(s, d);
    RequeueKeeps(s, d);
    assert s1.threads[t] == s.threads[t];
    assert TableOk(s1, SleepTable(d)) && AtHome(s1, SleepTable(d), t);
    WakeByPosition(s1, d, now, t);
    WakeKeeps(s1, d, now);
    PassStep(s, d, now);
    ElectOne(AtElection(s, d, now), d, t);
  }

  // Every pass of CPU c in the run comes before the deadline, and wake-up times stay below 2^32.
  ghost predicate Early(s: Sched, es: seq<Step>, c: int, deadline: int)
    requires Runs(s, es)
    decreases |es|
  {
    es != [] ==>
      && (es[0].PassEvent? && es[0].cpu == c ==> es[0].now % TICK == 0 && es[0].now < deadline && ShortTimes(s, c))
      && Early(Next(s, es[0]), es[1..], c, deadline)
  }

  // The time a sleep ends: the start plus the whole ticks asked for.
  function Deadline(start: int, ms: int): int {
    start + TICK * (ms / TICK)
  }

  lemma DueAtDeadline(start: int, ms: int, now: int)
    requires start % TICK == 0 && now % TICK == 0
    ensures start + ms - TICK < now <==> now >= Deadline(start, ms)
  {
    var a, b, k, m := start / TICK, now / TICK, ms / TICK, ms % TICK;
    assert start == TICK * a && now == TICK * b && ms == TICK * k + m;
  }

  // A CPU that has started keeps its idle thread, so it always has a current thread.
  lemma IdleStays(s: Sched, e: Step, c: int)
    requires Enabled(s, e) && Idle(s, c) != NOBODY
    ensures Idle(Next(s, e), c) == Idle(s, c)
  {
    match e
    case PassEvent(d, now) => PassActive(s, d, now);
    case _ =>
  }

  lemma HasCurrent(s: Sched, c: int)
    requires Inv(s)
    ensures Idle(s, c) != NOBODY <==> Active(s, c) in s.threads
  {
    assert Active(s, c) == NOBODY <==> Idle(s, c) == NOBODY;
    assert CpuOk(s, c) && ThreadOk(s, NOBODY);
  }

  lemma {:induction false} StaysAsleep(s: Sched, es: seq<Step>, t: int, c: int, start: int, ms: int)
    requires Inv(s) && Runs(s, es) && start % TICK == 0 && Early(s, es, c, Deadline(start, ms))
    requires t in s.threads && s.threads[t].state == Sleeping && s.threads[t].cpu == c
      && s.threads[t].wakeup == start + ms - TICK
    requires Idle(s, c) != NOBODY
    ensures Inv(After(s, es)) && Idle(After(s, es), c) != NOBODY
    ensures var r := After(s, es);
      t in r.threads && r.threads[t].state == Sleeping && r.threads[t].cpu == c
        && r.threads[t].wakeup == start + ms - TICK
    decreases |es|
  {
    if es != [] {
      var e := es[0];
      StepKeeps(s, e);
      if e.PassEvent? && e.cpu == c {
        DueAtDeadline(start, ms, e.now);
        PassWakes(s, c, e.now, t);
      } else {
        SleepsOn(s, e, t);
      }
      IdleStays(s, e, c);
      StaysAsleep(Next(s, e), es[1..], t, c, start, ms);
    }
  }

  /** A sleep of ms milliseconds begun at start goes on through every run whose passes come before start plus the whole
      ticks in ms, and the next pass after that ends it. */
  lemma SleepUntil(s: Sched, c: int, start: int, ms: int, es: seq<Step>, now: int)
    requires Inv(s) && Calls(s, c) && Active(s, c) != Idle(s, c)
    requires 0 <= start && 0 <= ms && start % TICK == 0 && now % TICK == 0 && TICK <= start + ms < W64
    requires Runs(Sleep(s, c, start, ms).0, es)
    requires Early(Sleep(s, c, start, ms).0, es, c, Deadline(start, ms))
      && ShortTimes(After(Sleep(s, c, start, ms).0, es), c)
    requires now >= Deadline(start, ms)
    ensures var t, r := Active(s, c), After(Sleep(s, c, start, ms).0, es);
      && t in r.threads && r.threads[t].state == Sleeping
      && Active(r, c) in r.threads && t in Pass(r, c, now).0.threads && Awake(Pass(r, c, now).0.threads[t].state)
  {
    var t, s1 := Active(s, c), Sleep(s, c, start, ms).0;
    StepKeeps(s, SleepEvent(c, start, ms));
    CallerOk(s, c);
    HasCurrent(s, c);
    StaysAsleep(s1, es, t, c, start, ms);
    var r := After(s1, es);
    HasCurrent(r, c);
    DueAtDeadline(start, ms, now);
    PassWakes(r, c, now, t);
  }

  /** The stored wake-up time gives this end exactly when the subtraction of a tick does not go below zero: a sleep of
      less than a tick at uptime zero outlasts every 64-bit uptime that is a multiple of the tick. */
  lemma DeadlineIff(start: int, ms: int)
    requires 0 <= start && 0 <= ms < W32 && start % TICK == 0 && start + ms < W64
    ensures (forall now :: 0 <= now < W64 && now % TICK == 0 ==>
        ((start + ms - TICK) % W64 < now <==> now >= Deadline(start, ms))) <==> start + ms >= TICK
  {
    if start + ms >= TICK {
      forall now | 0 <= now < W64 && now % TICK == 0
        ensures (start + ms - TICK) % W64 < now <==> now >= Deadline(start, ms)
      {
        DueAtDeadline(start, ms, now);
      }
    } else {
      assert Deadline(start, ms) == 0;
      var now := 0;
      assert (start + ms - TICK) % W64 == start + ms - TICK + W64;
      assert 0 <= now < W64 && now % TICK == 0 && now >= Deadline(start, ms);
    }
  }

  // ----- A join by an idle thread -----

  // The ready tables and the sleep table of a CPU hold threads with valid priorities.
  ghost predicate Manned(s: Sched, c: int) {
    && (forall i {:trigger Table(s, SleepTable(c))[i]} :: 0 <= i < |Table(s, SleepTable(c))| ==>
          var t := Table(s, SleepTable(c))[i].value; t in s.threads && 0 <= s.threads[t].prio <= LOWEST)
    && (forall p, i {:trigger Table(s, ReadyTable(c, p))[i]} :: 0 <= i < |Table(s, ReadyTable(c, p))| ==>
          Table(s, ReadyTable(c, p))[i].value in s.threads)
  }

  ghost predicate NobodyReady(s: Sched, c: int) {
    forall p :: 0 <= p <= LOWEST ==> Table(s, ReadyTable(c, p)) == []
  }

  // No sleeper is at the tail of the sleep table, or one that must sleep on.
  predicate NobodyDue(s: Sched, c: int, now: int) {
    var q := Table(s, SleepTable(c));
    q == [] || (q[|q| - 1].value in s.threads && s.threads[q[|q| - 1].value].wakeup >= now)
  }

  lemma {:induction false} WakeManned(s: Sched, c: int, now: int)
    requires Manned(s, c)
    ensures Manned(Wake(s, c, now), c)
    ensures NobodyReady(Wake(s, c, now), c) <==> NobodyReady(s, c) && NobodyDue(s, c, now)
    decreases |Table(s, SleepTable(c))|
  {
    var q := Table(s, SleepTable(c));
    if q != [] {
      var t := q[|q| - 1].value;
      assert Table(s, SleepTable(c))[|q| - 1].value == t;
      var popped := SetTable(s, SleepTable(c), q[..|q| - 1]);
      if s.threads[t].wakeup < now {
        WokenManned(s, popped, t, c);
        WakeManned(MakeReady(popped, t, c), c, now);
      } else {
        PutBackManned(s, popped, t, c);
      }
    }
  }

  lemma WokenManned(s: Sched, popped: Sched, t: int, c: int)
    requires Manned(s, c) && t in s.threads && 0 <= s.threads[t].prio <= LOWEST
    requires var q := Table(s, SleepTable(c)); q != [] && popped == SetTable(s, SleepTable(c), q[..|q| - 1])
    ensures Manned(MakeReady(popped, t, c), c) && !NobodyReady(MakeReady(popped, t, c), c)
  {
    var r := MakeReady(popped, t, c);
    forall i | 0 <= i < |Table(r, SleepTable(c))|
      ensures var u := Table(r, SleepTable(c))[i].value; u in r.threads && 0 <= r.threads[u].prio <= LOWEST
    {
      assert Table(r, SleepTable(c))[i] == Table(s, SleepTable(c))[i];
    }
    forall p, i | 0 <= i < |Table(r, ReadyTable(c, p))| ensures Table(r, ReadyTable(c, p))[i].value in r.threads {
      var q := Table(s, ReadyTable(c, p));
      if p == s.threads[t].prio {
        assert Table(r, ReadyTable(c, p)) == [Item(0, t)] + q;
        if i > 0 { assert Table(r, ReadyTable(c, p))[i] == Table(s, ReadyTable(c, p))[i - 1]; }
      } else {
        assert Table(r, ReadyTable(c, p))[i] == Table(s, ReadyTable(c, p))[i];
      }
    }
    assert Table(r, ReadyTable(c, s.threads[t].prio)) != [];
  }

  lemma ElectFailsIff(s: Sched, c: int)
    requires Manned(s, c)
    ensures Elect(s, c).1 != Done <==> NobodyReady(s, c)
  {
    var p := BestFrom(s, c, 0);
    if p <= LOWEST {
      var l := Table(s, ReadyTable(c, p));
      assert Table(s, ReadyTable(c, p))[|l| - 1].value in s.threads;
    }
  }

  lemma PutBackManned(s: Sched, popped: Sched, t: int, c: int)
    requires Manned(s, c) && t in s.threads && 0 <= s.threads[t].prio <= LOWEST
    requires var q := Table(s, SleepTable(c)); q != [] && popped == SetTable(s, SleepTable(c), q[..|q| - 1])
    ensures Manned(PushSleeper(popped, t, c), c) && (NobodyReady(PushSleeper(popped, t, c), c) <==> NobodyReady(s, c))
  {
    var r, q := PushSleeper(popped, t, c), Table(s, SleepTable(c))[..|Table(s, SleepTable(c))| - 1];
    var x := Item(s.threads[t].wakeup % W32, t);
    var k := InsertPlace(q, x);
    InsertItemAt(q, x, k);
    forall i | 0 <= i < |Table(r, SleepTable(c))|
      ensures var u := Table(r, SleepTable(c))[i].value; u in r.threads && 0 <= r.threads[u].prio <= LOWEST
    {
      if i != k { assert Table(r, SleepTable(c))[i] == Table(s, SleepTable(c))[if i < k then i else i - 1]; }
    }
    assert forall p :: Table(r, ReadyTable(c, p)) == Table(s, ReadyTable(c, p));
  }

  /** An idle thread that joins is not queued again: the next pass of its CPU panics exactly when nobody is ready there
      and no sleeper is due. */
  lemma IdleJoinPanicsIff(s: Sched, c: int, x: int, now: int)
    requires Inv(s) && Calls(s, c) && Active(s, c) == Idle(s, c) && x in s.threads && s.threads[x].state != Zombie
    ensures Pass(Wait(s, c, x).0, c, now).1 != Done <==> NobodyReady(s, c) && NobodyDue(s, c, now)
  {
    var r := Wait(s, c, x).0;
    var q := Requeue(r, c);
    InvManned(s, c);
    assert forall pl :: Table(q, pl) == Table(s, pl);
    assert q.threads.Keys == s.threads.Keys;
    SameManned(s, q, c, now);
    WakeManned(q, c, now);
    ElectFailsIff(Wake(q, c, now), c);
  }

  lemma SameManned(s: Sched, q: Sched, c: int, now: int)
    requires Manned(s, c) && (forall pl :: Table(q, pl) == Table(s, pl)) && q.threads.Keys == s.threads.Keys
    requires forall t :: t in s.threads ==>
      q.threads[t].prio == s.threads[t].prio && q.threads[t].wakeup == s.threads[t].wakeup
    ensures Manned(q, c) && (NobodyReady(q, c) <==> NobodyReady(s, c))
      && (NobodyDue(q, c, now) <==> NobodyDue(s, c, now))
  {
    forall i | 0 <= i < |Table(q, SleepTable(c))|
      ensures var t := Table(q, SleepTable(c))[i].value; t in q.threads && 0 <= q.threads[t].prio <= LOWEST
    {
      assert Table(q, SleepTable(c))[i] == Table(s, SleepTable(c))[i];
    }
    forall p, i | 0 <= i < |Table(q, ReadyTable(c, p))| ensures Table(q, ReadyTable(c, p))[i].value in q.threads {
      assert Table(q, ReadyTable(c, p))[i] == Table(s, ReadyTable(c, p))[i];
    }
  }

  lemma InvManned(s: Sched, c: int)
    requires QueueInv(s)
    ensures Manned(s, c)
  {
    forall i | 0 <= i < |Table(s, SleepTable(c))|
      ensures var t := Table(s, SleepTable(c))[i].value; t in s.threads && 0 <= s.threads[t].prio <= LOWEST
    {
      EntryIsThread(s, SleepTable(c), i);
      assert ThreadOk(s, Table(s, SleepTable(c))[i].value);
    }
    forall p, i | 0 <= i < |Table(s, ReadyTable(c, p))| ensures Table(s, ReadyTable(c, p))[i].value in s.threads {
      EntryIsThread(s, ReadyTable(c, p), i);
    }
  }

  // ----- Blocking and joining -----

  // A pass touches only threads that run, are ready or sleep.
  lemma PassLeavesAlone(s: Sched, d: int, now: int, t: int)
    requires Inv(s) && Active(s, d) in s.threads && t in s.threads && !Awake(s.threads[t].state)
      && s.threads[t].state != Sleeping
    ensures t in Pass(s, d, now).0.threads && Pass(s, d, now).0.threads[t] == s.threads[t]
  {
    CallerOk(s, d);
    var s1 := Requeue(s, d);
    RequeueKeeps(s, d);
    assert s1.threads[t] == s.threads[t];
    assert TableOk(s1, SleepTable(d)) && AtHome(s1, SleepTable(d), t);
    WakeByPosition(s1, d, now, t);
    WakeKeeps(s1, d, now);
    PassStep(s, d, now);
    ElectOne(AtElection(s, d, now), d, t);
  }

  // The thread is ready, behind everyone who was ready at its level.
  ghost predicate QueuedLast(s: Sched, r: Sched, t: int)
    requires t in s.threads
  {
    && t in r.threads && r.threads[t] == s.threads[t].(state := Ready)
    && Behind(r, s.threads[t].cpu, s.threads[t].prio, t, |Table(s, ReadyTable(s.threads[t].cpu, s.threads[t].prio))|)
  }

  /** A blocked thread stays blocked through every step but one: an unlock for the reason it waits for, which queues it
      last at its level. */
  lemma BlockedUntilUnlocked(s: Sched, e: Step, t: int)
    requires Inv(s) && Enabled(s, e) && t in s.threads && s.threads[t].state == Waiting
    ensures t in Next(s, e).threads
    ensures Next(s, e).threads[t].state == Waiting <==> !(e.UnlockEvent? && e.thread == t && e.why == s.threads[t].why)
    ensures Next(s, e).threads[t].state != Waiting ==> QueuedLast(s, Next(s, e), t)
  {
    match e
    case PassEvent(d, now) => PassLeavesAlone(s, d, now, t);
    case UnlockEvent(d, u, why) => assert CpuOk(s, d) && ThreadOk(s, t);
    case CleanEvent(d) => assert JoinOk(s, Active(s, d));
    case ExitEvent(d) => assert JoinOk(s, Active(s, d));
    case _ =>
  }

  /** A joining thread stays so through every step but one: the exit of the thread it joins, which queues it last at its
      level, unless it is stranded. */
  lemma JoinsUntilExit(s: Sched, e: Step, t: int)
    requires Inv(s) && Enabled(s, e) && t in s.threads && s.threads[t].state == Joining
    ensures t in Next(s, e).threads
    ensures Next(s, e).threads[t].state == Joining <==>
      !(e.ExitEvent? && Active(s, e.cpu) == s.threads[t].links.target && !Stranded(s, t))
    ensures Next(s, e).threads[t].state != Joining ==> QueuedLast(s, Next(s, e), t)
  {
    assert JoinOk(s, t) && ThreadOk(s, NOBODY);
    match e
    case PassEvent(d, now) => PassLeavesAlone(s, d, now, t);
    case CleanEvent(d) => assert JoinOk(s, Active(s, d));
    case ExitEvent(d) => ExitReadies(s, d, t);
    case _ =>
  }

  lemma ExitReadies(s: Sched, d: int, t: int)
    requires Inv(s) && Enabled(s, ExitEvent(d)) && t in s.threads && s.threads[t].state == Joining
    ensures var r := Exit(s, d).0;
      && t in r.threads
      && if Active(s, d) == s.threads[t].links.target && !Stranded(s, t) then QueuedLast(s, r, t)
         else r.threads[t].state == Joining
  {
    var x := Active(s, d);
    assert JoinOk(s, t) && JoinOk(s, x) && ThreadOk(s, NOBODY);
    if x == s.threads[t].links.target && !Stranded(s, t) {
      var s2 := Bury(s, x);
      assert x != s.roster.init && s2.threads[t] == s.threads[t];
      assert Exit(s, d).0 == MakeReady(s2, t, s.threads[t].cpu);
    } else {
      assert Stranded(s, t) ==> !Names(s, x, t);
    }
  }

  // No step names a stranded thread as a joiner or changes its state.
  lemma StrandedStep(s: Sched, e: Step, t: int)
    requires Inv(s) && Enabled(s, e) && Stranded(s, t)
    ensures Stranded(Next(s, e), t)
  {
    JoinsUntilExit(s, e, t);
    var r := Next(s, e);
    StepRosterInit(s, e);
    forall u | u in r.threads && r.threads[u].links.joiner == t
      ensures u in s.threads && s.threads[u].links.joiner == t {
      JoinerLinks(s, e, u, t);
    }
    StaysStranded(s, r, t);
  }

  lemma StepRosterInit(s: Sched, e: Step)
    requires Enabled(s, e)
    ensures Next(s, e).roster.init == s.roster.init
  {
    match e
    case PassEvent(d, now) => PassActive(s, d, now);
    case _ =>
  }

  // Only a join makes a thread the joiner of another, and then it is the caller.
  lemma JoinerLinks(s: Sched, e: Step, u: int, t: int)
    requires Inv(s) && Enabled(s, e) && t in s.threads && s.threads[t].state == Joining
    requires u in Next(s, e).threads && Next(s, e).threads[u].links.joiner == t
    ensures u in s.threads && s.threads[u].links.joiner == t
  {
    assert ThreadOk(s, NOBODY);
    match e
    case PassEvent(d, now) =>
      HasCurrent(s, d);
      PassMild(s, d, now);
      assert MildAt(s, Pass(s, d, now).0, u);
    case _ =>
  }

  /** A stranded joiner is never readied: it stays stranded through every run. */
  lemma {:induction false} StrandedForever(s: Sched, es: seq<Step>, t: int)
    requires Inv(s) && Runs(s, es) && Stranded(s, t)
    ensures Inv(After(s, es)) && Stranded(After(s, es), t)
    decreases |es|
  {
    if es != [] {
      StepKeeps(s, es[0]);
      StrandedStep(s, es[0], t);
      StrandedForever(Next(s, es[0]), es[1..], t);
    }
  }

  /** Threads come from the two creation calls only and go only when they are joined, one at a time. */
  lemma Population(s: Sched, e: Step)
    requires Inv(s) && Enabled(s, e)
    ensures var r := Next(s, e);
      && (forall t :: t in r.threads && t !in s.threads ==>
         (e.CreateEvent? || e.IdleEvent?) && t == e.id && Awake(r.threads[t].state))
      && (forall t :: t in s.threads && t !in r.threads ==>
         (e.CleanEvent? || e.WaitEvent?) && s.threads[t].state == Zombie)
      && (e.IdleEvent? ==> e.id in r.threads)
      && (e.CreateEvent? ==> (e.id in r.threads <==> e.ok && e.prio <= LOWEST && e.affinity < s.roster.cpus))
      && (e.CleanEvent? ==> Me(s, e.cpu).links.target !in r.threads)
  {
    match e
    case PassEvent(d, now) => PassKeysStay(s, d, now);
    case CleanEvent(d) => assert JoinOk(s, Active(s, d));
    case _ =>
  }

  lemma PassKeysStay(s: Sched, d: int, now: int)
    requires Inv(s) && Active(s, d) in s.threads
    ensures forall u :: u in Pass(s, d, now).0.threads <==> u in s.threads
  {
    HasCurrent(s, d);
    PassMild(s, d, now);
    forall u ensures u in Pass(s, d, now).0.threads <==> u in s.threads {
      assert MildAt(s, Pass(s, d, now).0, u);
    }
  }
}
