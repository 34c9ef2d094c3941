/**
 Who is asleep, and until when: over every run a process that goes to sleep on a channel is asleep there until a wakeup of
 that channel or a kill of its pid, and no longer.
 */
module ProcSleep {
  import opened ProcTable
  import opened ProcKill
  import K = ProcKernel

  // ---------------------------------------------------------------- pids

  /** No two slots have a pid in common, in use or not, but for the 0 of slots that have none. */
  ghost predicate PidsApart(t: Table) {
    && (forall p :: 0 <= p < |t.procs| ==> 0 <= t.procs[p].pid < t.nextpid)
    && (forall p, q :: 0 <= p < q < |t.procs| && t.procs[p].pid != 0 ==> t.procs[p].pid != t.procs[q].pid)
  }

  lemma PidAfter(t: Table, a: Action, p: nat)
    requires Inv(t) && Enabled(t, a) && p < |t.procs|
    ensures var r := Do(t, a);
            && |r.procs| == |t.procs|
            && r.procs[p].pid == (if Allocates(t, a, p) then t.nextpid else if Reaps(t, a, p) then 0 else t.procs[p].pid)
            && (Allocates(t, a, p) ==> r.nextpid == t.nextpid + 1)
            && r.nextpid >= t.nextpid
  {
    hide Do, Find;
    if a.Wait? {
      WaitStep(t, a.c, p);
    } else if a.Kill? || a.Fault? {
      MarkingStep(t, a, p);
    } else if a.ForkAlloc? {
      AllocStep(t, a.c, p);
      NextPid(t, a.c, p);
    } else if a.Exit? {
      ExitIs(t, a.c);
      ExitStep(t, a.c, p);
    } else {
      PlainStep(t, a, p);
    }
  }

  lemma NextPid(t: Table, c: nat, p: nat)
    requires Enabled(t, ForkAlloc(c)) && p < |t.procs|
    ensures Allocates(t, ForkAlloc(c), p) ==> Do(t, ForkAlloc(c)).nextpid == t.nextpid + 1
  {
    hide Find;
  }

  lemma ApartKept(t: Table, a: Action)
    requires Inv(t) && Enabled(t, a) && PidsApart(t)
    ensures PidsApart(Do(t, a))
  {
    hide Do, Find, Inv;
    LengthKept(t, a);
    var r := Do(t, a);
    forall p | 0 <= p < |r.procs|
      ensures 0 <= r.procs[p].pid < r.nextpid
    {
      PidAfter(t, a, p);
      NextPidPositive(t);
    }
    forall p, q | 0 <= p < q < |r.procs| && r.procs[p].pid != 0
      ensures r.procs[p].pid != r.procs[q].pid
    {
      PidAfter(t, a, p);
      PidAfter(t, a, q);
    }
  }

  lemma NextPidPositive(t: Table)
    requires Inv(t)
    ensures t.nextpid > 0
  {
  }

  lemma {:induction false} RunApart(ts: seq<Table>, acts: seq<Action>, k: nat)
    requires Run(ts, acts) && Zeroed(ts[0]) && k < |ts|
    ensures Inv(ts[k]) && PidsApart(ts[k])
  {
    hide Do, Enabled;
    RunInv(ts, acts, k);
    if k > 0 {
      RunApart(ts, acts, k - 1);
      ApartKept(ts[k - 1], acts[k - 1]);
    }
  }

  // ---------------------------------------------------------------- one step

  predicate AsleepOn(x: Proc, addr: int) {
    x.state == SLEEPING && x.chan == OnOther(addr)
  }

  /** kill of a pid that a process has is kill of that process. */
  lemma KillFinds(t: Table, pid: int, p: nat)
    requires Inv(t) && PidsApart(t) && p < |t.procs| && InUse(t.procs[p])
    ensures Find(t.procs, HasPid(pid)) == p <==> t.procs[p].pid == pid
  {
    hide Find;
    if t.procs[p].pid == pid {
      assert FirstWhere(t.procs, HasPid(pid), p);
      FindIs(t.procs, HasPid(pid), p);
    } else {
      FindFacts(t.procs, HasPid(pid));
    }
  }

  /** kill marks the process that has the pid and makes it runnable if it sleeps, on whatever channel. */
  lemma KillWakes(t: Table, c: nat, pid: int, p: nat)
    requires Inv(t) && PidsApart(t) && Enabled(t, Kill(c, pid)) && p < |t.procs| && InUse(t.procs[p])
    ensures var x, y := t.procs[p], Do(t, Kill(c, pid)).procs;
            && |y| == |t.procs|
            && y[p] == if x.pid == pid then x.(killed := true, state := if x.state == SLEEPING then RUNNABLE else x.state) else x
  {
    hide Find, Inv;
    KillFinds(t, pid, p);
  }

  /** Another step than a wakeup of the channel or a kill leaves a sleeper asleep. */
  lemma OtherStep(t: Table, a: Action, p: nat, addr: int)
    requires Inv(t) && Enabled(t, a) && p < |t.procs| && AsleepOn(t.procs[p], addr) && a != Wakeup(addr) && !a.Kill?
    ensures |Do(t, a).procs| == |t.procs| && AsleepOn(Do(t, a).procs[p], addr) && Do(t, a).procs[p].pid == t.procs[p].pid
  {
    hide Find, ParentsOk, WaitersOk, PidsOk, Reparent;
    LengthKept(t, a);
    if a.Exit? {
      SleeperThroughExit(t, a.c, p);
    } else if a.ForkAlloc? {
      FindFacts(t.procs, IsUnused());
    } else if a.Wait? {
      FindFacts(t.procs, ZombieOf(t.cpus[a.c]));
    }
  }

  lemma SleeperThroughExit(t: Table, c: nat, p: nat)
    requires Inv(t) && Enabled(t, Exit(c)) && p < |t.procs| && t.procs[p].state == SLEEPING && t.procs[p].chan.OnOther?
    ensures var y := DoExit(t, c).procs;
            |y| == |t.procs| && y[p].state == SLEEPING && y[p].chan == t.procs[p].chan && y[p].pid == t.procs[p].pid
  {
    hide HasZombie, ParentsOk, WaitersOk, PidsOk;
  }

  /** A wakeup makes runnable who sleeps on the channel, and changes nobody else. */
  lemma WakeupExactly(t: Table, addr: int, p: nat)
    requires p < |t.procs|
    ensures var y := Do(t, Wakeup(addr)).procs;
            |y| == |t.procs| && y[p] == if AsleepOn(t.procs[p], addr) then t.procs[p].(state := RUNNABLE) else t.procs[p]
  {
  }

  /** The step ends the sleep of the process in slot `p`. */
  predicate Ends(a: Action, pid: int, addr: int) {
    a == Wakeup(addr) || (a.Kill? && a.pid == pid)
  }

  lemma SleeperStep(t: Table, a: Action, p: nat, addr: int)
    requires Inv(t) && PidsApart(t) && Enabled(t, a) && p < |t.procs| && AsleepOn(t.procs[p], addr)
    ensures var y := Do(t, a).procs;
            && |y| == |t.procs| && y[p].pid == t.procs[p].pid
            && (Ends(a, t.procs[p].pid, addr) ==> y[p].state == RUNNABLE)
            && (!Ends(a, t.procs[p].pid, addr) ==> AsleepOn(y[p], addr))
  {
    hide Do, Inv;
    if a == Wakeup(addr) {
      WakeupExactly(t, addr, p);
    } else if a.Kill? {
      KillWakes(t, a.c, a.pid, p);
    } else {
      OtherStep(t, a, p, addr);
    }
  }

  // ---------------------------------------------------------------- over runs

  lemma SleepStep(t: Table, c: nat, addr: int)
    requires Enabled(t, Sleep(c, addr))
    ensures var r, p := Do(t, Sleep(c, addr)), t.cpus[c];
            && 0 <= p < |t.procs| == |r.procs| && AsleepOn(r.procs[p], addr) && r.procs[p].pid == t.procs[p].pid
            && |r.cpus| == |t.cpus| && r.cpus[c] == NONE
  {
  }

  /**
   A process that goes to sleep on `addr` in step `i` has left its CPU and is asleep there in every later state, as long
   as nobody wakes `addr` up or kills its pid; and the first step that does makes it runnable.
   */
  lemma {:induction false} AsleepUntilWoken(ts: seq<Table>, acts: seq<Action>, i: nat, j: nat, c: nat, addr: int)
    requires Run(ts, acts) && Zeroed(ts[0]) && i < j < |ts| && acts[i] == Sleep(c, addr)
    requires forall k :: i < k < j ==> Runs(ts[i], c) && !Ends(acts[k], ts[i].procs[ts[i].cpus[c]].pid, addr)
    ensures Runs(ts[i], c) && ts[i].cpus[c] < |ts[j].procs|
    ensures var p := ts[i].cpus[c];
            && AsleepOn(ts[j].procs[p], addr) && ts[j].procs[p].pid == ts[i].procs[p].pid
            && (j < |acts| && Ends(acts[j], ts[i].procs[p].pid, addr) ==>
                  p < |ts[j + 1].procs| && ts[j + 1].procs[p].state == RUNNABLE)
    decreases j - i
  {
    hide Do, Inv, Zeroed, PidsApart, AsleepOn, Ends;
    RunApart(ts, acts, i);
    assert Enabled(ts[i], acts[i]);
    if j == i + 1 {
      SleepStep(ts[i], c, addr);
    } else {
      AsleepUntilWoken(ts, acts, i, j - 1, c, addr);
      RunApart(ts, acts, j - 1);
      assert Enabled(ts[j - 1], acts[j - 1]);
      SleeperStep(ts[j - 1], acts[j - 1], ts[i].cpus[c], addr);
    }
    RunApart(ts, acts, j);
    if j < |acts| {
      assert Enabled(ts[j], acts[j]);
      SleeperStep(ts[j], acts[j], ts[i].cpus[c], addr);
    }
  }

  // ---------------------------------------------------------------- wait

  predicate InWait(x: Proc, p: nat) {
    x.state == SLEEPING && x.chan == OnProc(p)
  }

  /** The step is the exit of a child of `p`, or one that hands a zombie to init, or a kill. */
  predicate EndsWait(t: Table, a: Action, p: nat)
    requires p < |t.procs|
  {
    || (a.Kill? && a.pid == t.procs[p].pid)
    || (a.Exit? && Runs(t, a.c) && (t.procs[t.cpus[a.c]].parent == p || (p == t.init && K.GetsZombie(t.procs, t.cpus[a.c]))))
  }

  /** Whoever sleeps in wait does so until one of these steps, and is runnable after it. */
  lemma WaiterStep(t: Table, a: Action, p: nat)
    requires Inv(t) && PidsApart(t) && Enabled(t, a) && p < |t.procs| && InWait(t.procs[p], p)
    ensures var y := Do(t, a).procs;
            && |y| == |t.procs| && y[p].pid == t.procs[p].pid
            && (EndsWait(t, a, p) ==> y[p].state == RUNNABLE)
            && (!EndsWait(t, a, p) ==> InWait(y[p], p))
  {
    hide Find, Reparent, ParentsOk, WaitersOk, PidsOk;
    LengthKept(t, a);
    if a.Kill? {
      KillWakes(t, a.c, a.pid, p);
    } else if a.Exit? {
      ExitIs(t, a.c);
      K.LeftAll(t, a.c);
      assert K.Left(t.procs, DoExit(t, a.c).procs[p], p, t.cpus[a.c], t.init);
    } else if a.ForkAlloc? {
      FindFacts(t.procs, IsUnused());
    } else if a.Wait? {
      FindFacts(t.procs, ZombieOf(t.cpus[a.c]));
    }
  }

  // ---------------------------------------------------------------- fork

  /** Who has a parent has the one that forked it, or init. */
  ghost predicate Adopted(t: Table) {
    forall q :: 0 <= q < |t.procs| && InUse(t.procs[q]) && t.procs[q].parent != NONE ==>
      t.procs[q].parent == t.procs[q].maker || t.procs[q].parent == t.init
  }

  lemma AdoptedStep(t: Table, a: Action, q: nat)
    requires Inv(t) && Adopted(t) && Enabled(t, a) && q < |t.procs| == |Do(t, a).procs|
    requires InUse(Do(t, a).procs[q]) && Do(t, a).procs[q].parent != NONE
    ensures var y := Do(t, a); y.init == t.init && (y.procs[q].parent == y.procs[q].maker || y.procs[q].parent == y.init)
  {
    hide Find, Reparent, WaitersOk, PidsOk;
    SlotStep(t, a, q);
    if a.Exit? {
      ExitIs(t, a.c);
      K.LeftAll(t, a.c);
      assert K.Left(t.procs, DoExit(t, a.c).procs[q], q, t.cpus[a.c], t.init);
    } else if a.ForkAlloc? {
      FindFacts(t.procs, IsUnused());
      assert ParentOk(t, q);
    } else if a.Wait? {
      FindFacts(t.procs, ZombieOf(t.cpus[a.c]));
    }
  }

  /** In every run the parent of a process is the process that forked it, or init. */
  lemma {:induction false} ParentMadeIt(ts: seq<Table>, acts: seq<Action>, k: nat)
    requires Run(ts, acts) && Zeroed(ts[0]) && k < |ts|
    ensures Adopted(ts[k])
  {
    hide Do, Enabled, Inv;
    if k > 0 {
      ParentMadeIt(ts, acts, k - 1);
      RunInv(ts, acts, k - 1);
      LengthKept(ts[k - 1], acts[k - 1]);
      var t, a, y := ts[k - 1], acts[k - 1], ts[k];
      forall q | 0 <= q < |y.procs| && InUse(y.procs[q]) && y.procs[q].parent != NONE
        ensures y.procs[q].parent == y.procs[q].maker || y.procs[q].parent == y.init
      {
        AdoptedStep(t, a, q);
      }
    }
  }

  /** fork's four sections for one slot: taken by the caller with a new pid, and in the end a runnable child of it. */
  lemma ForkSteps(t: Table, c: nat, e: nat)
    requires Inv(t) && Runs(t, c) && e < |t.procs|
    ensures Enabled(t, ForkAlloc(c))
    ensures t.procs[e].state == UNUSED && (forall i :: 0 <= i < e ==> t.procs[i].state != UNUSED) ==>
              && Do(t, ForkAlloc(c)).procs ==
                 t.procs[e := t.procs[e].(state := EMBRYO, pid := t.nextpid, maker := t.cpus[c])]
              && Do(t, ForkAlloc(c)).nextpid == t.nextpid + 1
    ensures t.procs[e].state == EMBRYO && t.procs[e].maker == t.cpus[c] && t.procs[e].parent == NONE ==>
              && Enabled(t, ForkParent(c, e)) && Enabled(t, ForkFail(c, e))
              && Do(t, ForkParent(c, e)).procs == t.procs[e := t.procs[e].(parent := t.cpus[c])]
              && Do(t, ForkFail(c, e)).procs == t.procs[e := t.procs[e].(state := UNUSED)]
    ensures t.procs[e].state == EMBRYO && t.procs[e].maker == t.cpus[c] && t.procs[e].parent == t.cpus[c] ==>
              && Enabled(t, ForkDone(c, e))
              && Do(t, ForkDone(c, e)).procs == t.procs[e := t.procs[e].(state := RUNNABLE)]
  {
    hide Find;
    if t.procs[e].state == UNUSED && forall i :: 0 <= i < e ==> t.procs[i].state != UNUSED {
      assert FirstWhere(t.procs, IsUnused(), e);
      FindIs(t.procs, IsUnused(), e);
    }
  }

  // ---------------------------------------------------------------- the life of a process

  /** The process in slot `p` runs on the CPU on which the step is taken. */
  predicate Own(t: Table, c: nat, p: nat) {
    Runs(t, c) && t.cpus[c] == p
  }

  /** The steps that may take the process in slot `p` from state `x` to another state `y`. */
  predicate Arrow(t: Table, a: Action, p: nat, x: PState, y: PState)
    requires p < |t.procs|
  {
    match x
    case UNUSED => y == EMBRYO && a.ForkAlloc?
    case EMBRYO => (y == RUNNABLE && a.ForkDone? && a.e == p) || (y == UNUSED && a.ForkFail? && a.e == p)
    case RUNNABLE => y == RUNNING && a.Schedule? && a.p == p
    case RUNNING =>
      || (y == RUNNABLE && a.Yield? && Own(t, a.c, p))
      || (y == SLEEPING && (a.Sleep? || a.Wait?) && Own(t, a.c, p))
      || (y == ZOMBIE && a.Exit? && Own(t, a.c, p))
    case SLEEPING =>
      && y == RUNNABLE
      && ((a.Wakeup? && t.procs[p].chan == OnOther(a.addr)) || (a.Kill? && a.pid == t.procs[p].pid) || (a.Exit? && t.procs[p].chan.OnProc?))
    case ZOMBIE => y == UNUSED && a.Wait? && Runs(t, a.c) && t.procs[p].parent == t.cpus[a.c]
  }

  /** What a step of its own makes of a process. */
  predicate Becomes(t: Table, a: Action, p: nat, y: Proc) {
    && (a.Schedule? && a.p == p ==> y.state == RUNNING && y.chan == NoChan)
    && (a.Yield? && Own(t, a.c, p) ==> y.state == RUNNABLE)
    && (a.Sleep? && Own(t, a.c, p) ==> y.state == SLEEPING && y.chan == OnOther(a.addr))
    && (a.Exit? && Own(t, a.c, p) ==> y.state == ZOMBIE)
    && (a.ForkDone? && a.e == p ==> y.state == RUNNABLE)
    && (a.ForkFail? && a.e == p ==> y.state == UNUSED)
    && (a.Fault? && Own(t, a.c, p) ==> y.killed)
  }

  lemma DiagramStep(t: Table, a: Action, p: nat)
    requires Inv(t) && Enabled(t, a) && p < |t.procs|
    ensures |Do(t, a).procs| == |t.procs| && Becomes(t, a, p, Do(t, a).procs[p])
    ensures Do(t, a).procs[p].state == t.procs[p].state || Arrow(t, a, p, t.procs[p].state, Do(t, a).procs[p].state)
  {
    if a.Exit? {
      DiagramExit(t, a.c, p);
    } else if a.Schedule? || a.Yield? || a.Sleep? || a.Wait? || a.ForkAlloc? || a.Fault? {
      DiagramOwn(t, a, p);
    }
  }

  lemma DiagramOwn(t: Table, a: Action, p: nat)
    requires CpusOk(t) && Enabled(t, a) && p < |t.procs|
    requires a.Schedule? || a.Yield? || a.Sleep? || a.Wait? || a.ForkAlloc? || a.Fault?
    ensures |Do(t, a).procs| == |t.procs| && Becomes(t, a, p, Do(t, a).procs[p])
    ensures Do(t, a).procs[p].state == t.procs[p].state || Arrow(t, a, p, t.procs[p].state, Do(t, a).procs[p].state)
  {
  }

  lemma DiagramExit(t: Table, c: nat, p: nat)
    requires CpusOk(t) && Enabled(t, Exit(c)) && p < |t.procs|
    ensures |Do(t, Exit(c)).procs| == |t.procs| && Becomes(t, Exit(c), p, Do(t, Exit(c)).procs[p])
    ensures Do(t, Exit(c)).procs[p].state == t.procs[p].state || Arrow(t, Exit(c), p, t.procs[p].state, Do(t, Exit(c)).procs[p].state)
  {
  }

  /**
   In every run a process changes its state only along these arrows: made by fork, run by the scheduler, off the CPU by
   its own yield, sleep, wait or exit, awake by a wakeup, an exit or a kill, and gone by its parent's wait.
   */
  lemma StateDiagram(ts: seq<Table>, acts: seq<Action>, k: nat, p: nat)
    requires Run(ts, acts) && Booted(ts[0]) && k < |acts| && p < |ts[k].procs|
    ensures |ts[k + 1].procs| == |ts[k].procs| && Becomes(ts[k], acts[k], p, ts[k + 1].procs[p])
    ensures var x, y := ts[k].procs[p].state, ts[k + 1].procs[p].state; y == x || Arrow(ts[k], acts[k], p, x, y)
  {
    hide Inv, Do, Enabled, Booted;
    RunInv(ts, acts, k);
    assert Enabled(ts[k], acts[k]) && ts[k + 1] == Do(ts[k], acts[k]);
    DiagramStep(ts[k], acts[k], p);
  }
}
