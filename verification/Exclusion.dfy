/**
  Mutual exclusion in the joint machine of scheduler, semaphores and mutexes (sync/mutex.c, core/scheduler.c): its steps
  on mutexes are the steps of the mutex machine, whatever the scheduler and the semaphores do in between.
 */
module Exclusion {

  import opened Basics
  import opened Scheduling
  import opened Blocking
  import M = Mutex

  // The joint state and the acquisitions of mutexes that have not been posted, oldest first.
  datatype Tracked = Tracked(joint: Joint, holds: seq<M.Hold>)

  // The threads that have been popped from a mutex and have not tested it again.
  function WokenOf(role: map<int, Role>): set<(int, int)> {
    set t | t in role && !role[t].Queued? && role[t].spot.OnMutex? :: (t, role[t].spot.id)
  }

  lemma WokenIs(role: map<int, Role>, t: int, id: int)
    ensures (t, id) in WokenOf(role) <==> OnWay(role, t, OnMutex(id))
  {
    if OnWay(role, t, OnMutex(id)) { assert (t, role[t].spot.id) in WokenOf(role); }
  }

  // The priorities that the mutex machine sees.
  function PrioritiesOf(s: Sched, all: set<int>): map<int, int> {
    map t | t in all :: if t in s.threads then s.threads[t].prio else 0
  }

  // What the mutex machine sees. all: every thread that takes part in the run.
  function SystemOf(x: Tracked, all: set<int>): M.System {
    M.System(x.joint.mutexes, PrioritiesOf(x.joint.sched, all), x.holds, WokenOf(x.joint.role))
  }

  // The step of the mutex machine that a step of the joint machine is.
  function EventOf(j: Joint, a: Act): Option<M.Event> {
    match a
    case MutexTest(c, id) =>
      var t := Active(j.sched, c);
      if OnWay(j.role, t, OnMutex(id)) then Some(M.Retest(t, id)) else Some(M.PendCall(t, id))
    case MutexTry(c, id) => Some(M.TryPendCall(Active(j.sched, c), id))
    case MutexPost(c, id) => Some(M.PostCall(Active(j.sched, c), id))
    case _ => None
  }

  function Track(x: Tracked, a: Act, all: set<int>): Tracked
    requires May(x.joint, a)
  {
    var e := EventOf(x.joint, a);
    Tracked(Do(x.joint, a), if e.Some? then M.Next(SystemOf(x, all), e.value).holds else x.holds)
  }

  // The caller observes what Mutex.StepExact asks for, and takes part in the run.
  ghost predicate Observes(x: Tracked, a: Act, all: set<int>) {
    var e := EventOf(x.joint, a);
    e.Some? ==> e.value.t in all && M.Disciplined(SystemOf(x, all), e.value)
  }

  ghost predicate Holding(x: Tracked, all: set<int>) {
    && JointInv(x.joint) && M.Exclusive(SystemOf(x, all))
    && forall i :: 0 <= i < |x.holds| ==> x.holds[i].m in x.joint.mutexes
  }

  // Two states that the mutex machine tells apart by priorities only.
  ghost predicate Alike(s: M.System, n: M.System) {
    s.mutexes == n.mutexes && s.holds == n.holds && s.woken == n.woken && s.priority.Keys == n.priority.Keys
  }

  lemma AlikeExclusive(s: M.System, n: M.System)
    requires Alike(s, n) && M.Exclusive(s)
    ensures M.Exclusive(n)
  {
    M.SameWoken(s, n);
  }

  // ----- The steps of mutexes -----

  lemma TestCommutes(x: Tracked, c: int, id: int, all: set<int>)
    requires JointInv(x.joint) && May(x.joint, MutexTest(c, id)) && Active(x.joint.sched, c) in all
    ensures var e := EventOf(x.joint, MutexTest(c, id)).value;
      M.Enabled(SystemOf(x, all), e) && M.Next(SystemOf(x, all), e) == SystemOf(Track(x, MutexTest(c, id), all), all)
  {
    var j, t := x.joint, Active(x.joint.sched, c);
    assert Fits(j.sched, j.role, t) && MutexFits(j.role, id, j.mutexes[id]);
    var n := Do(j, MutexTest(c, id));
    assert n.role == (if MutexBlocks(j, c, id) then j.role[t := Queued(OnMutex(id))] else j.role - {t});
    WokenAfterTest(j.role, n.role, t, id);
    PriorityOfCaller(j.sched, n.sched, t, all);
  }

  lemma PriorityOfCaller(s: Sched, r: Sched, t: int, all: set<int>)
    requires t in s.threads && t in r.threads && t in all && r.threads == s.threads[t := r.threads[t]]
    ensures PrioritiesOf(r, all) == PrioritiesOf(s, all)[t := r.threads[t].prio]
  {
  }

  lemma WokenAfterTest(role: map<int, Role>, next: map<int, Role>, t: int, id: int)
    requires t in role ==> role[t] == Testing(OnMutex(id))
    requires next == role - {t} || next == role[t := Queued(OnMutex(id))]
    ensures WokenOf(next) == WokenOf(role) - {(t, id)}
    ensures OnWay(role, t, OnMutex(id)) <==> (t, id) in WokenOf(role)
  {
    forall p: (int, int) ensures p in WokenOf(next) <==> p in WokenOf(role) - {(t, id)} {
      WokenIs(next, p.0, p.1);
      WokenIs(role, p.0, p.1);
      assert p == (p.0, p.1);
    }
    WokenIs(role, t, id);
  }

  lemma TryCommutes(x: Tracked, c: int, id: int, all: set<int>)
    requires JointInv(x.joint) && May(x.joint, MutexTry(c, id)) && Active(x.joint.sched, c) in all
    ensures var e := EventOf(x.joint, MutexTry(c, id)).value;
      M.Enabled(SystemOf(x, all), e) && M.Next(SystemOf(x, all), e) == SystemOf(Track(x, MutexTry(c, id), all), all)
  {
    assert MutexFits(x.joint.role, id, x.joint.mutexes[id]);
  }

  lemma PostCommutes(x: Tracked, c: int, id: int, all: set<int>)
    requires JointInv(x.joint) && May(x.joint, MutexPost(c, id)) && Active(x.joint.sched, c) in all
    ensures var e := EventOf(x.joint, MutexPost(c, id)).value;
      M.Enabled(SystemOf(x, all), e) && M.Next(SystemOf(x, all), e) == SystemOf(Track(x, MutexPost(c, id), all), all)
  {
    var j, mu := x.joint, x.joint.mutexes[id];
    assert MutexFits(j.role, id, mu);
    PriorityOfCaller(j.sched, Do(j, MutexPost(c, id)).sched, Active(j.sched, c), all);
    if mu.waiters != [] {
      assert mu.waiters[0] in mu.waiters && InQueue(j.role, mu.waiters[0], OnMutex(id));
      WokenAfterPost(j.role, mu.waiters[0], id);
    }
  }

  lemma WokenAfterPost(role: map<int, Role>, t: int, id: int)
    requires InQueue(role, t, OnMutex(id))
    ensures WokenOf(role[t := Popped(OnMutex(id))]) == WokenOf(role) + {(t, id)}
  {
    var next := role[t := Popped(OnMutex(id))];
    forall p: (int, int) ensures p in WokenOf(next) <==> p in WokenOf(role) + {(t, id)} {
      WokenIs(next, p.0, p.1);
      WokenIs(role, p.0, p.1);
      assert p == (p.0, p.1);
    }
  }

  /** A step of the joint machine on a mutex is a step of the mutex machine on the same mutexes, acquisitions and woken
      threads, and on the priorities that the scheduler keeps. */
  lemma MutexSteps(x: Tracked, a: Act, all: set<int>)
    requires JointInv(x.joint) && May(x.joint, a) && EventOf(x.joint, a).Some? && EventOf(x.joint, a).value.t in all
    ensures M.Enabled(SystemOf(x, all), EventOf(x.joint, a).value)
    ensures SystemOf(Track(x, a, all), all) == M.Next(SystemOf(x, all), EventOf(x.joint, a).value)
  {
    match a {
      case MutexTest(c, id) => TestCommutes(x, c, id, all);
      case MutexTry(c, id) => TryCommutes(x, c, id, all);
      case MutexPost(c, id) => PostCommutes(x, c, id, all);
      case _ => assert false;
    }
  }

  // ----- All other steps -----

  // Roles change at semaphores only, or from popped to testing.
  lemma WokenSame(role: map<int, Role>, next: map<int, Role>)
    requires forall t {:trigger Steady(role, next, t)} :: Steady(role, next, t)
    ensures WokenOf(next) == WokenOf(role)
  {
    forall p: (int, int) ensures p in WokenOf(next) <==> p in WokenOf(role) {
      assert Steady(role, next, p.0) && p == (p.0, p.1);
      WokenIs(next, p.0, p.1);
      WokenIs(role, p.0, p.1);
    }
  }

  ghost predicate Steady(role: map<int, Role>, next: map<int, Role>, t: int) {
    OnItsWay(role, t) == OnItsWay(next, t)
  }

  function OnItsWay(role: map<int, Role>, t: int): Option<int> {
    if t in role && !role[t].Queued? && role[t].spot.OnMutex? then Some(role[t].spot.id) else None
  }

  lemma OtherSteady(j: Joint, a: Act)
    requires JointInv(j) && May(j, a) && EventOf(j, a) == None
    ensures WokenOf(Do(j, a).role) == WokenOf(j.role)
    ensures if a.MutexInit? then Do(j, a).mutexes == j.mutexes[a.id := NewMutex(a.flags)]
      else Do(j, a).mutexes == j.mutexes
  {
    var n := Do(j, a);
    forall t ensures Steady(j.role, n.role, t) {
      match a
      case SemTest(c, id) =>
      case SemPost(id) =>
        var ws := j.sems[id].sem.waiters;
        assert SemFits(j.role, id, j.sems[id]);
        if ws != [] { assert ws[0] in ws && InQueue(j.role, ws[0], OnSem(id)); }
      case _ =>
    }
    WokenSame(j.role, n.role);
  }

  // A new mutex is held by nobody.
  lemma NewIsExclusive(s: M.System, n: M.System, id: int, flags: M.Flags)
    requires M.Exclusive(s) && id !in s.mutexes && n.mutexes == s.mutexes[id := NewMutex(flags)]
    requires n.holds == s.holds && n.woken == s.woken && n.priority.Keys == s.priority.Keys
    requires forall i :: 0 <= i < |s.holds| ==> s.holds[i].m in s.mutexes
    ensures M.Exclusive(n)
  {
    NoneHeld(s.holds, id);
    M.SameWoken(s, n);
  }

  lemma {:induction false} NoneHeld(holds: seq<M.Hold>, id: int)
    requires forall i :: 0 <= i < |holds| ==> holds[i].m != id
    ensures M.OfMutex(holds, id) == []
  {
    if holds != [] { NoneHeld(holds[..|holds| - 1], id); }
  }

  lemma {:induction false} DropMembers(holds: seq<M.Hold>, t: int, m: int)
    ensures forall i :: 0 <= i < |M.Drop(holds, t, m)| ==> M.Drop(holds, t, m)[i] in holds
  {
    if holds != [] {
      var h, rest := holds[|holds| - 1], holds[..|holds| - 1];
      DropMembers(rest, t, m);
      assert holds == rest + [h];
      assert forall g :: g in rest ==> g in holds;
    }
  }

  lemma HoldsKnown(s: M.System, e: M.Event)
    requires M.Enabled(s, e) && forall i :: 0 <= i < |s.holds| ==> s.holds[i].m in s.mutexes
    ensures M.Next(s, e).mutexes.Keys == s.mutexes.Keys
    ensures forall i :: 0 <= i < |M.Next(s, e).holds| ==> M.Next(s, e).holds[i].m in s.mutexes
  {
    if e.PostCall? {
      DropMembers(s.holds, e.t, e.m);
      var d := M.Drop(s.holds, e.t, e.m);
      forall i | 0 <= i < |d| ensures d[i].m in s.mutexes {
        var k :| 0 <= k < |s.holds| && s.holds[k] == d[i];
      }
    }
  }

  /** Every step of the joint machine whose caller observes the discipline keeps mutual exclusion. */
  lemma TrackKeeps(x: Tracked, a: Act, all: set<int>)
    requires Holding(x, all) && May(x.joint, a) && Observes(x, a, all)
    ensures Holding(Track(x, a, all), all)
  {
    ActKeeps(x.joint, a);
    var s, n := SystemOf(x, all), SystemOf(Track(x, a, all), all);
    var e := EventOf(x.joint, a);
    if e.Some? {
      MutexSteps(x, a, all);
      M.StepKeeps(s, e.value);
      HoldsKnown(s, e.value);
    } else {
      OtherSteady(x.joint, a);
      if a.MutexInit? { NewIsExclusive(s, n, a.id, a.flags); } else { AlikeExclusive(s, n); }
    }
  }

  // ----- Whole runs -----

  ghost predicate ObservedRun(x: Tracked, acts: seq<Act>, all: set<int>)
    decreases |acts|
  {
    acts != [] ==>
      May(x.joint, acts[0]) && Observes(x, acts[0], all) && ObservedRun(Track(x, acts[0], all), acts[1..], all)
  }

  function TrackAll(x: Tracked, acts: seq<Act>, all: set<int>): Tracked
    requires ObservedRun(x, acts, all)
    decreases |acts|
  {
    if acts == [] then x else TrackAll(Track(x, acts[0], all), acts[1..], all)
  }

  lemma {:induction false} RunHolds(x: Tracked, acts: seq<Act>, all: set<int>)
    requires Holding(x, all) && ObservedRun(x, acts, all)
    ensures Follows(x.joint, acts) && TrackAll(x, acts, all).joint == End(x.joint, acts)
    ensures Holding(TrackAll(x, acts, all), all)
    decreases |acts|
  {
    if acts != [] {
      TrackKeeps(x, acts[0], all);
      RunHolds(Track(x, acts[0], all), acts[1..], all);
    }
  }

  /** In every run of scheduler, semaphores and mutexes from the start, in which the callers of mutexes observe the
      discipline, the open acquisitions of each mutex are all by one thread. */
  lemma EveryRunExcludes(cpus: int, idle: int, init: int, acts: seq<Act>, all: set<int>)
    requires cpus > 0 && idle != init && idle != NOBODY && init != NOBODY
    requires ObservedRun(Tracked(Begin(cpus, idle, init), []), acts, all)
    ensures var x := TrackAll(Tracked(Begin(cpus, idle, init), []), acts, all);
      && Follows(Begin(cpus, idle, init), acts) && x.joint == End(Begin(cpus, idle, init), acts)
      && forall id :: id in x.joint.mutexes ==> M.ByOne(M.OfMutex(x.holds, id))
  {
    BeginInv(cpus, idle, init);
    RunHolds(Tracked(Begin(cpus, idle, init), []), acts, all);
  }
}
