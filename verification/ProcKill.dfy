/**
 Who is killed by kill. A mark belongs to a slot of the table, and slots outlive processes: kill does not look at the
 state of the slot it finds, allocproc does not clear the mark, and only wait does.
 */
module ProcKill {
  import opened ProcTable

  predicate InUse(x: Proc) {
    x.state != UNUSED
  }

  /** The step marks slot `p`. */
  predicate Marks(t: Table, a: Action, p: nat) {
    || (a.Kill? && Find(t.procs, HasPid(a.pid)) == p)
    || (a.Fault? && Runs(t, a.c) && t.cpus[a.c] == p)
  }

  /** allocproc takes slot `p`. */
  predicate Allocates(t: Table, a: Action, p: nat) {
    a.ForkAlloc? && Find(t.procs, IsUnused()) == p
  }

  predicate Reaps(t: Table, a: Action, p: nat) {
    a.Wait? && Runs(t, a.c) && Find(t.procs, ZombieOf(t.cpus[a.c])) == p
  }

  /** Same mark, same pid, and in use if and only if it was. */
  predicate SameOwner(x: Proc, y: Proc) {
    y.killed == x.killed && y.pid == x.pid && (InUse(y) <==> InUse(x))
  }

  lemma ExitStep(t: Table, c: nat, p: nat)
    requires Runs(t, c) && p < |t.procs|
    requires t.procs[t.cpus[c]].state == RUNNING
    ensures |DoExit(t, c).procs| == |t.procs| && SameOwner(t.procs[p], DoExit(t, c).procs[p]) && DoExit(t, c).nextpid == t.nextpid
  {
    hide HasZombie;
  }

  lemma PlainStep(t: Table, a: Action, p: nat)
    requires CpusOk(t) && Enabled(t, a) && p < |t.procs| && !a.Kill? && !a.Fault? && !a.ForkAlloc? && !a.Wait? && !a.Exit?
    ensures var r := Do(t, a);
            && |r.procs| == |t.procs| && r.nextpid == t.nextpid
            && (if a.ForkFail? && a.e == p then
                  !InUse(r.procs[p]) && r.procs[p].killed == t.procs[p].killed && r.procs[p].pid == t.procs[p].pid
                else SameOwner(t.procs[p], r.procs[p]))
  {
  }

  lemma WaitStep(t: Table, c: nat, p: nat)
    requires CpusOk(t) && Enabled(t, Wait(c)) && p < |t.procs|
    ensures var r := Do(t, Wait(c));
            && |r.procs| == |t.procs| && r.nextpid == t.nextpid
            && (if Reaps(t, Wait(c), p) then !InUse(r.procs[p]) && !r.procs[p].killed && r.procs[p].pid == 0
                else SameOwner(t.procs[p], r.procs[p]))
  {
    hide Find;
    FindFacts(t.procs, ZombieOf(t.cpus[c]));
  }

  lemma MarkingStep(t: Table, a: Action, p: nat)
    requires Enabled(t, a) && p < |t.procs| && (a.Kill? || a.Fault?)
    ensures var r := Do(t, a);
            && |r.procs| == |t.procs| && r.nextpid == t.nextpid
            && r.procs[p].pid == t.procs[p].pid && (InUse(r.procs[p]) <==> InUse(t.procs[p]))
            && (r.procs[p].killed <==> t.procs[p].killed || Marks(t, a, p))
  {
    hide Find;
    if a.Kill? {
      FindFacts(t.procs, HasPid(a.pid));
    }
  }

  lemma AllocStep(t: Table, c: nat, p: nat)
    requires Enabled(t, ForkAlloc(c)) && p < |t.procs|
    ensures var r := Do(t, ForkAlloc(c));
            && |r.procs| == |t.procs| && r.nextpid >= t.nextpid && r.procs[p].killed == t.procs[p].killed
            && (if Allocates(t, ForkAlloc(c), p) then InUse(r.procs[p]) && r.procs[p].pid == t.nextpid && !InUse(t.procs[p])
                else r.procs[p] == t.procs[p])
  {
    hide Find;
    FindFacts(t.procs, IsUnused());
  }

  lemma FindFacts(procs: seq<Proc>, f: Proc -> bool)
    ensures var q := Find(procs, f);
            q <= |procs| && (q < |procs| ==> f(procs[q]))
  {
  }

  /**
   A mark comes from kill or a fault and stays until the slot is reaped. A slot gets into use only by being
   allocated, with a pid that is new, and keeps its pid as long as it is in use.
   */
  lemma SlotStep(t: Table, a: Action, p: nat)
    requires Inv(t) && Enabled(t, a) && p < |t.procs|
    ensures var r := Do(t, a);
            && |r.procs| == |t.procs| && r.nextpid >= t.nextpid
            && (r.procs[p].killed <==> Marks(t, a, p) || (t.procs[p].killed && !Reaps(t, a, p)))
            && (InUse(r.procs[p]) ==> !Reaps(t, a, p))
            && (InUse(r.procs[p]) && !Allocates(t, a, p) ==> r.procs[p].pid == t.procs[p].pid && InUse(t.procs[p]))
            && (Allocates(t, a, p) ==> InUse(r.procs[p]) && r.procs[p].pid == t.nextpid && !InUse(t.procs[p]))
            && (!InUse(r.procs[p]) && InUse(t.procs[p]) ==> Reaps(t, a, p) || (a.ForkFail? && a.e == p))
  {
    hide Do, Find;
    if a.Wait? {
      WaitStep(t, a.c, p);
    } else if a.Kill? || a.Fault? {
      MarkingStep(t, a, p);
    } else if a.ForkAlloc? {
      AllocStep(t, a.c, p);
    } else if a.Exit? {
      ExitIs(t, a.c);
      ExitStep(t, a.c, p);
    } else {
      PlainStep(t, a, p);
    }
  }

  lemma ExitIs(t: Table, c: nat)
    requires Inv(t) && Enabled(t, Exit(c))
    ensures Do(t, Exit(c)) == DoExit(t, c) && Runs(t, c) && t.procs[t.cpus[c]].state == RUNNING
  {
    hide ParentsOk, WaitersOk, PidsOk, DoExit;
  }

  // ---------------------------------------------------------------- unused slots

  predicate Unmarked(t: Table) {
    forall p :: 0 <= p < |t.procs| && !InUse(t.procs[p]) ==> !t.procs[p].killed
  }

  /** kill finds a slot that no process has: its pid is left over from a failed fork, or it is 0, the pid of free slots. */
  predicate HitsUnused(t: Table, a: Action) {
    a.Kill? && exists q :: 0 <= q < |t.procs| && Marks(t, a, q) && !InUse(t.procs[q])
  }

  /** fork gives up a child that has been killed meanwhile. */
  predicate DropsMarked(t: Table, a: Action) {
    a.ForkFail? && a.e < |t.procs| && t.procs[a.e].killed
  }

  /** A step leaves an unused slot marked if and only if it is one of these two. */
  lemma UnmarkedKeptExactly(t: Table, a: Action)
    requires Inv(t) && Enabled(t, a) && Unmarked(t)
    ensures Unmarked(Do(t, a)) <==> !HitsUnused(t, a) && !DropsMarked(t, a)
  {
    hide Find, Inv;
    var r := Do(t, a);
    if HitsUnused(t, a) {
      var q :| 0 <= q < |t.procs| && Marks(t, a, q) && !InUse(t.procs[q]);
      MarkingStep(t, a, q);
    } else if DropsMarked(t, a) {
      assert !InUse(r.procs[a.e]) && r.procs[a.e].killed;
    } else {
      forall p | 0 <= p < |r.procs| && !InUse(r.procs[p])
        ensures !r.procs[p].killed
      {
        UnmarkedSlot(t, a, p);
      }
    }
  }

  lemma UnmarkedSlot(t: Table, a: Action, p: nat)
    requires Inv(t) && Enabled(t, a) && Unmarked(t) && !HitsUnused(t, a) && !DropsMarked(t, a)
    requires p < |Do(t, a).procs| && !InUse(Do(t, a).procs[p])
    ensures !Do(t, a).procs[p].killed
  {
    hide Find, Do;
    LengthKept(t, a);
    SlotStep(t, a, p);
    if a.Fault? {
      RunnerInUse(t, a);
    }
  }

  lemma LengthKept(t: Table, a: Action)
    requires Inv(t) && Enabled(t, a)
    ensures |Do(t, a).procs| == |t.procs|
  {
    if |t.procs| > 0 {
      SlotStep(t, a, 0);
    }
  }

  lemma RunnerInUse(t: Table, a: Action)
    requires Inv(t) && Enabled(t, a) && a.Fault?
    ensures Runs(t, a.c) && InUse(t.procs[t.cpus[a.c]])
  {
  }

  // ---------------------------------------------------------------- whose mark it is

  /** The process in slot `p` is marked by a kill of its own pid, or by its own fault. */
  predicate Own(t: Table, a: Action, p: nat, pid: int) {
    p < |t.procs| && InUse(t.procs[p]) && t.procs[p].pid == pid && Marks(t, a, p)
  }

  /** The process is marked from the start: it gets a slot that is. */
  predicate BornMarked(t: Table, a: Action, p: nat, pid: int) {
    p < |t.procs| && Allocates(t, a, p) && t.procs[p].killed && t.nextpid == pid
  }

  /** The table at boot is all zeroes but for init. */
  predicate Zeroed(t: Table) {
    Booted(t) && forall p :: 0 <= p < |t.procs| && p != t.init ==> t.procs[p].pid == 0 && !t.procs[p].killed
  }

  /** In every run a process that is marked was marked by its own kill or fault, or got a marked slot. */
  lemma {:induction false} MarkedBecause(ts: seq<Table>, acts: seq<Action>, k: nat, p: nat) returns (j: nat)
    requires Run(ts, acts) && Zeroed(ts[0]) && k < |ts| && p < |ts[k].procs| && InUse(ts[k].procs[p]) && ts[k].procs[p].killed
    ensures j < k && (Own(ts[j], acts[j], p, ts[k].procs[p].pid) || BornMarked(ts[j], acts[j], p, ts[k].procs[p].pid))
  {
    hide Do, Enabled, Inv, Find, Booted;
    if k == 0 {
      BootUnmarked(ts[0], p);
      assert false;
    }
    RunInv(ts, acts, k - 1);
    j := k - 1;
    LengthKept(ts[j], acts[j]);
    SlotStep(ts[j], acts[j], p);
    if !Own(ts[j], acts[j], p, ts[k].procs[p].pid) && !BornMarked(ts[j], acts[j], p, ts[k].procs[p].pid) {
      AllocMarksNothing(ts[j], acts[j], p);
      j := MarkedBecause(ts, acts, k - 1, p);
    }
  }

  lemma BootUnmarked(t: Table, p: nat)
    requires Zeroed(t) && p < |t.procs|
    ensures !t.procs[p].killed
  {
  }

  lemma AllocMarksNothing(t: Table, a: Action, p: nat)
    ensures !(Allocates(t, a, p) && Marks(t, a, p))
  {
  }

  lemma {:induction false} PidsGrow(ts: seq<Table>, acts: seq<Action>, i: nat, j: nat)
    requires Run(ts, acts) && Booted(ts[0]) && i <= j < |ts|
    ensures ts[i].nextpid <= ts[j].nextpid && |ts[i].procs| == |ts[j].procs|
    decreases j - i
  {
    hide Do, Enabled, Inv, Find, Booted;
    if i < j {
      PidsGrow(ts, acts, i, j - 1);
      RunInv(ts, acts, j - 1);
      LengthKept(ts[j - 1], acts[j - 1]);
      PidStep(ts[j - 1], acts[j - 1]);
    }
  }

  lemma PidStep(t: Table, a: Action)
    requires Inv(t) && Enabled(t, a)
    ensures Do(t, a).nextpid >= t.nextpid
  {
    hide Do, Enabled, Find;
    SlotStep(t, a, t.init);
  }

  /** A process born with a mark has not been marked by a step of its own when it is born. */
  lemma BornNotOwn(ts: seq<Table>, acts: seq<Action>, i: nat, j: nat, p: nat)
    requires Run(ts, acts) && Booted(ts[0]) && i <= j < |acts|
    ensures !Own(ts[i], acts[i], p, ts[j].nextpid)
  {
    hide Do, Enabled, Find, Booted;
    RunInv(ts, acts, i);
    PidsGrow(ts, acts, i, j);
  }

  ghost predicate AllOwn(ts: seq<Table>, acts: seq<Action>)
    requires |ts| == |acts| + 1
  {
    forall k, p :: 0 <= k < |ts| && 0 <= p < |ts[k].procs| && InUse(ts[k].procs[p]) && ts[k].procs[p].killed ==>
      exists j :: 0 <= j < k && Own(ts[j], acts[j], p, ts[k].procs[p].pid)
  }

  ghost predicate NoneBornMarked(ts: seq<Table>, acts: seq<Action>)
    requires |ts| == |acts| + 1
  {
    forall j, p :: 0 <= j < |acts| && 0 <= p < |ts[j].procs| && Allocates(ts[j], acts[j], p) ==> !ts[j].procs[p].killed
  }

  /** All marks are their owners' own, in every state of a run, if and only if allocproc never takes a marked slot. */
  lemma OwnMarksExactly(ts: seq<Table>, acts: seq<Action>)
    requires Run(ts, acts) && Zeroed(ts[0])
    ensures AllOwn(ts, acts) <==> NoneBornMarked(ts, acts)
  {
    hide Do, Enabled, Find, Inv, Zeroed;
    if NoneBornMarked(ts, acts) {
      forall k, p | 0 <= k < |ts| && 0 <= p < |ts[k].procs| && InUse(ts[k].procs[p]) && ts[k].procs[p].killed
        ensures exists j :: 0 <= j < k && Own(ts[j], acts[j], p, ts[k].procs[p].pid)
      {
        var j := MarkedBecause(ts, acts, k, p);
      }
    }
    if AllOwn(ts, acts) {
      forall j, p | 0 <= j < |acts| && 0 <= p < |ts[j].procs| && Allocates(ts[j], acts[j], p)
        ensures !ts[j].procs[p].killed
      {
        BornOwn(ts, acts, j, p);
      }
    }
  }

  lemma BornOwn(ts: seq<Table>, acts: seq<Action>, j: nat, p: nat)
    requires Run(ts, acts) && Zeroed(ts[0]) && AllOwn(ts, acts)
    requires j < |acts| && p < |ts[j].procs| && Allocates(ts[j], acts[j], p)
    ensures !ts[j].procs[p].killed
  {
    hide Do, Enabled, Find, Inv, Own;
    RunInv(ts, acts, j);
    LengthKept(ts[j], acts[j]);
    SlotStep(ts[j], acts[j], p);
    AllocMarksNothing(ts[j], acts[j], p);
    if ts[j + 1].procs[p].killed {
      var i :| 0 <= i < j + 1 && Own(ts[i], acts[i], p, ts[j + 1].procs[p].pid);
      BornNotOwn(ts, acts, i, j, p);
      assert false;
    }
  }

  /** If no kill hits an unused slot and no fork gives up a killed child, every mark is its owner's own. */
  lemma OwnMarks(ts: seq<Table>, acts: seq<Action>)
    requires Run(ts, acts) && Zeroed(ts[0])
    requires forall k :: 0 <= k < |acts| ==> !HitsUnused(ts[k], acts[k]) && !DropsMarked(ts[k], acts[k])
    ensures AllOwn(ts, acts)
  {
    hide Do, Enabled, Find, Inv, Zeroed, AllOwn;
    forall j, p | 0 <= j < |acts| && 0 <= p < |ts[j].procs| && Allocates(ts[j], acts[j], p)
      ensures !ts[j].procs[p].killed
    {
      RunUnmarked(ts, acts, j);
      AllocFree(ts[j], acts[j], p);
    }
    OwnMarksExactly(ts, acts);
  }

  lemma AllocFree(t: Table, a: Action, p: nat)
    requires Allocates(t, a, p) && p < |t.procs|
    ensures !InUse(t.procs[p])
  {
    hide Find;
    FindFacts(t.procs, IsUnused());
  }

  lemma {:induction false} RunUnmarked(ts: seq<Table>, acts: seq<Action>, k: nat)
    requires Run(ts, acts) && Zeroed(ts[0]) && k < |ts|
    requires forall k :: 0 <= k < |acts| ==> !HitsUnused(ts[k], acts[k]) && !DropsMarked(ts[k], acts[k])
    ensures Unmarked(ts[k])
  {
    hide Do, Enabled, Find, Inv;
    if k > 0 {
      RunUnmarked(ts, acts, k - 1);
      RunInv(ts, acts, k - 1);
      UnmarkedKeptExactly(ts[k - 1], acts[k - 1]);
    }
  }

  // ---------------------------------------------------------------- a run

  function Child(s: PState, parent: int): Proc {
    Proc(s, 2, parent, NoChan, true, 0)
  }

  /** init calls kill(0) and then fork: the child is killed, although nobody has killed its pid. */
  lemma KilledUnasked() returns (ts: seq<Table>, acts: seq<Action>)
    ensures Run(ts, acts) && Zeroed(ts[0])
    ensures acts == [Schedule(0, 0), Kill(0, 0), ForkAlloc(0), ForkParent(0, 1), ForkDone(0, 1)]
    ensures |ts[5].procs| == 2 && ts[5].procs[1] == Child(RUNNABLE, 0)
  {
    var init := Proc(RUNNABLE, 1, NONE, NoChan, false, NONE);
    var run := init.(state := RUNNING);
    var free := Proc(UNUSED, 0, NONE, NoChan, false, NONE);
    var t0 := Table([init, free], [NONE], 2, 0, {}, []);
    var t1 := Table([run, free], [0], 2, 0, {}, []);
    var t2 := Table([run, free.(killed := true)], [0], 2, 0, {}, []);
    var t3 := Table([run, Child(EMBRYO, NONE)], [0], 3, 0, {}, []);
    var t4 := Table([run, Child(EMBRYO, 0)], [0], 3, 0, {}, []);
    var t5 := Table([run, Child(RUNNABLE, 0)], [0], 3, 0, {}, []);
    FindIs(t1.procs, HasPid(0), 1);
    FindIs(t2.procs, IsUnused(), 1);
    hide Find;
    assert Do(t0, Schedule(0, 0)) == t1;
    assert Do(t1, Kill(0, 0)) == t2;
    assert Do(t2, ForkAlloc(0)) == t3;
    assert Do(t3, ForkParent(0, 1)) == t4;
    assert Do(t4, ForkDone(0, 1)) == t5;
    ts := [t0, t1, t2, t3, t4, t5];
    acts := [Schedule(0, 0), Kill(0, 0), ForkAlloc(0), ForkParent(0, 1), ForkDone(0, 1)];
  }
}
