/**
 proc.c's table operations as an object: the loops over ptable.proc[] that wakeup1, allocproc, exit, wait,
 kill and the scheduler run with ptable.lock held, each proved to be the corresponding action of ProcTable.
 */
module ProcKernel {
  import opened ProcTable

  /** What exit's loop leaves in slot `i`: a child of `cur` is init's, and init is awake if it got a zombie. */
  ghost predicate PassedOn(before: seq<Proc>, x: Proc, i: nat, cur: int, init: int)
    requires i < |before|
  {
    var y := before[i];
    && x.pid == y.pid && x.killed == y.killed && x.chan == y.chan && x.maker == y.maker
    && x.parent == (if y.parent == cur then init else y.parent)
    && x.state == if y.state == SLEEPING && y.chan == OnProc(init) && GetsZombie(before, cur) then RUNNABLE else y.state
  }

  predicate GetsZombie(procs: seq<Proc>, cur: int) {
    exists q :: 0 <= q < |procs| && procs[q].parent == cur && procs[q].state == ZOMBIE
  }

  /** What exit leaves in slot `i`: the caller a zombie, its parent awake, its children init's. */
  ghost predicate Left(before: seq<Proc>, x: Proc, i: nat, cur: int, init: int)
    requires i < |before| && 0 <= cur < |before|
  {
    var y := before[i];
    && x.pid == y.pid && x.killed == y.killed && x.chan == y.chan && x.maker == y.maker
    && x.parent == (if y.parent == cur then init else y.parent)
    && x.state ==
       if i == cur then ZOMBIE
       else if y.state == SLEEPING && (y.chan == OnProc(before[cur].parent) || (y.chan == OnProc(init) && GetsZombie(before, cur)))
       then RUNNABLE
       else y.state
  }

  /** The first zombie child of `cur`, whose pid is `pid`, has made room. */
  ghost predicate FirstReaped(before: seq<Proc>, after: seq<Proc>, cur: int, pid: int) {
    exists q :: 0 <= q < |before| && ReapedAt(before, after, cur, pid, q)
  }

  predicate ReapedAt(before: seq<Proc>, after: seq<Proc>, cur: int, pid: int, q: nat)
    requires q < |before|
  {
    && before[q].parent == cur && before[q].state == ZOMBIE && before[q].pid == pid
    && (forall i :: 0 <= i < q ==> before[i].parent != cur || before[i].state != ZOMBIE)
    && after == before[q := before[q].(state := UNUSED, pid := 0, parent := NONE, killed := false)]
  }

  class Ptable {
    var procs: seq<Proc>
    var cpus: seq<int>
    var nextpid: int
    const init: nat
    ghost var exited: set<int>
    ghost var reaped: seq<int>

    ghost function T(): Table
      reads this
    {
      Table(procs, cpus, nextpid, init, exited, reaped)
    }

    /** userinit: one runnable process, everything else unused. */
    constructor (nproc: nat, ncpu: nat, init: nat)
      requires init < nproc
      ensures Booted(T()) && |procs| == nproc && |cpus| == ncpu
      ensures forall p :: 0 <= p < nproc && p != init ==> procs[p] == Proc(UNUSED, 0, NONE, NoChan, false, NONE)
    {
      this.init := init;
      procs := seq(nproc, i => if i == init then Proc(RUNNABLE, 1, NONE, NoChan, false, NONE)
                               else Proc(UNUSED, 0, NONE, NoChan, false, NONE));
      cpus := seq(ncpu, i => NONE);
      nextpid := 2;
      exited := {};
      reaped := [];
    }

    method Wakeup1(ch: Chan)
      modifies this`procs
      ensures procs == WakeAll(old(procs), ch)
      ensures forall i :: 0 <= i < |procs| ==>
                (old(procs)[i].state == SLEEPING && old(procs)[i].chan == ch ==> procs[i] == old(procs)[i].(state := RUNNABLE))
      ensures forall i :: 0 <= i < |procs| ==>
                (old(procs)[i].state != SLEEPING || old(procs)[i].chan != ch ==> procs[i] == old(procs)[i])
    {
      var p := 0;
      while p < |procs|
        invariant 0 <= p <= |procs| == |old(procs)|
        invariant forall i :: 0 <= i < p ==> procs[i] == WakeAll(old(procs), ch)[i]
        invariant forall i :: p <= i < |procs| ==> procs[i] == old(procs)[i]
      {
        if procs[p].state == SLEEPING && procs[p].chan == ch {
          procs := procs[p := procs[p].(state := RUNNABLE)];
        }
        p := p + 1;
      }
    }

    /** allocproc's critical section: claim the first unused slot, or find none. */
    method Allocproc(c: nat) returns (e: int)
      requires Runs(T(), c)
      modifies this`procs, this`nextpid
      ensures T() == DoAlloc(old(T()), c)
      ensures e == NONE <==> NoneWhere(old(procs), IsUnused())
      ensures e == NONE ==> (forall i :: 0 <= i < |procs| ==> old(procs)[i].state != UNUSED) && T() == old(T())
      ensures e != NONE ==> 0 <= e < |procs| == |old(procs)| && old(procs)[e].state == UNUSED
      ensures e != NONE ==> forall i :: 0 <= i < e ==> old(procs)[i].state != UNUSED
      ensures e != NONE ==> procs == old(procs)[e := old(procs)[e].(state := EMBRYO, pid := old(nextpid), maker := cpus[c])]
      ensures e != NONE ==> nextpid == old(nextpid) + 1
    {
      ghost var t := T();
      var p := 0;
      while p < |procs|
        invariant 0 <= p <= |procs| && T() == t
        invariant forall i :: 0 <= i < p ==> !IsUnused()(procs[i])
      {
        if procs[p].state == UNUSED {
          FindIs(procs, IsUnused(), p);
          procs := procs[p := procs[p].(state := EMBRYO, pid := nextpid, maker := cpus[c])];
          nextpid := nextpid + 1;
          return p;
        }
        p := p + 1;
      }
      FindIsNone(procs, IsUnused());
      return NONE;
    }

    /** Mark the first process with this pid killed and wake it; 0 if there was one, else -1. */
    method Kill(pid: int) returns (r: int, ghost q: nat)
      modifies this`procs
      ensures T() == DoKill(old(T()), pid)
      ensures r == -1 <==> forall i :: 0 <= i < |old(procs)| ==> old(procs)[i].pid != pid
      ensures r == -1 ==> procs == old(procs)
      ensures r != -1 ==> r == 0 && q < |old(procs)| && old(procs)[q].pid == pid && forall i :: 0 <= i < q ==> old(procs)[i].pid != pid
      ensures r != -1 ==>
                var x := old(procs)[q];
                procs == old(procs)[q := x.(killed := true, state := if x.state == SLEEPING then RUNNABLE else x.state)]
    {
      q := 0;
      ghost var t := T();
      var p := 0;
      while p < |procs|
        invariant 0 <= p <= |procs| && T() == t
        invariant forall i :: 0 <= i < p ==> !HasPid(pid)(procs[i])
      {
        if procs[p].pid == pid {
          FindIs(procs, HasPid(pid), p);
          assert !NoneWhere(procs, HasPid(pid));
          procs := procs[p := procs[p].(killed := true)];
          if procs[p].state == SLEEPING {
            procs := procs[p := procs[p].(state := RUNNABLE)];
          }
          return 0, p;
        }
        p := p + 1;
      }
      FindIsNone(procs, HasPid(pid));
      return -1, 0;
    }

    /** exit's loop: pass the children of `cur` to init, waking init for each zombie. */
    method PassChildren(cur: nat)
      requires cur != init
      modifies this`procs
      ensures procs == Reparent(old(procs), cur, init, |old(procs)|)
      ensures |procs| == |old(procs)|
      ensures forall i :: 0 <= i < |procs| ==> PassedOn(old(procs), procs[i], i, cur, init)
    {
      ghost var s := procs;
      ReparentNone(s, cur, init);
      var p := 0;
      while p < |procs|
        invariant 0 <= p <= |procs| == |s| && procs == Reparent(s, cur, init, p)
      {
        ReparentStep(s, cur, init, p);
        if procs[p].parent == cur {
          procs := procs[p := procs[p].(parent := init)];
          if procs[p].state == ZOMBIE {
            Wakeup1(OnProc(init));
          }
        }
        p := p + 1;
      }
      PassedOnAll(s, cur, init);
    }

    /** exit, from taking ptable.lock to entering the scheduler. */
    method Exit(c: nat)
      requires Inv(T()) && Enabled(T(), ProcTable.Action.Exit(c))
      modifies this`procs, this`cpus, this`exited
      ensures T() == DoExit(old(T()), c) && Inv(T())
      ensures |procs| == |old(procs)| && cpus == old(cpus)[c := NONE]
      ensures forall i :: 0 <= i < |procs| ==> Left(old(procs), procs[i], i, old(cpus)[c], init)
    {
      ghost var t := T();
      ExitKeeps(t, c);
      var p := cpus[c];
      Wakeup1(OnProc(procs[p].parent));
      PassChildren(p);
      procs := procs[p := procs[p].(state := ZOMBIE)];
      cpus := cpus[c := NONE];
      exited := exited + {t.procs[p].pid};
      LeftAll(t, c);
    }

    /** wait's scan: the first zombie child of `cur`, or the table size and whether `cur` has children at all. */
    method ScanChildren(cur: int) returns (q: nat, havekids: bool)
      ensures q == Find(procs, ZombieOf(cur)) && q <= |procs|
      ensures q < |procs| ==> procs[q].parent == cur && procs[q].state == ZOMBIE
      ensures q == |procs| ==> (havekids <==> !NoneWhere(procs, ChildOf(cur)))
      ensures q == |procs| ==> forall i :: 0 <= i < |procs| ==> procs[i].parent != cur || procs[i].state != ZOMBIE
      ensures q == |procs| ==> (havekids <==> exists i :: 0 <= i < |procs| && procs[i].parent == cur)
    {
      havekids := false;
      q := 0;
      while q < |procs|
        invariant 0 <= q <= |procs|
        invariant forall i :: 0 <= i < q ==> !ZombieOf(cur)(procs[i]) && (procs[i].parent != cur || procs[i].state != ZOMBIE)
        invariant havekids <==> exists i :: 0 <= i < q && ChildOf(cur)(procs[i])
        invariant havekids <==> exists i :: 0 <= i < q && procs[i].parent == cur
      {
        if procs[q].parent == cur {
          assert ChildOf(cur)(procs[q]);
          havekids := true;
          if procs[q].state == ZOMBIE {
            FindIs(procs, ZombieOf(cur), q);
            return;
          }
        }
        q := q + 1;
      }
      FindIsNone(procs, ZombieOf(cur));
    }

    /** One turn of wait's loop: reap a zombie child, give up, or sleep. The result is the pid, -1, or 0 for asleep. */
    method Wait(c: nat) returns (r: int)
      requires Inv(T()) && Runs(T(), c)
      modifies this`procs, this`cpus, this`reaped
      ensures T() == DoWait(old(T()), c) && Inv(T())
      ensures r > 0 <==> exists q :: 0 <= q < |old(procs)| && old(procs)[q].parent == old(cpus)[c] && old(procs)[q].state == ZOMBIE
      ensures r > 0 ==> reaped == old(reaped) + [r] && FirstReaped(old(procs), procs, old(cpus)[c], r) && cpus == old(cpus)
      ensures r == -1 <==> r <= 0 && (old(procs)[old(cpus)[c]].killed
                                      || forall q :: 0 <= q < |old(procs)| ==> old(procs)[q].parent != old(cpus)[c])
      ensures r == -1 ==> T() == old(T())
      ensures r == 0 || r == -1 || r > 0
      ensures r == 0 ==> cpus == old(cpus)[c := NONE] && reaped == old(reaped)
      ensures r == 0 ==>
                procs == old(procs)[old(cpus)[c] := old(procs)[old(cpus)[c]].(state := SLEEPING, chan := OnProc(old(cpus)[c]))]
    {
      hide Inv, Find, NoneWhere;
      ghost var t := T();
      WaitKeeps(t, c);
      var cur := cpus[c];
      var q, havekids := ScanChildren(cur);
      if q < |procs| {
        ZombiePid(t, q);
        r := procs[q].pid;
        procs := procs[q := procs[q].(state := UNUSED, pid := 0, parent := NONE, killed := false)];
        reaped := reaped + [r];
        ReapedFirst(t, cur, q);
        return;
      }
      if !havekids || procs[cur].killed {
        return -1;
      }
      procs := procs[cur := procs[cur].(state := SLEEPING, chan := OnProc(cur))];
      cpus := cpus[c := NONE];
      return 0;
    }

    /** The scheduler's scan on an idle CPU from slot `from`: run the first RUNNABLE process, or find none. */
    method Scheduler(c: nat, from: nat) returns (p: nat)
      requires c < |cpus| && cpus[c] == NONE && from <= |procs|
      modifies this`procs, this`cpus
      ensures from <= p <= |procs| == |old(procs)| && forall i :: from <= i < p ==> old(procs)[i].state != RUNNABLE
      ensures p < |procs| ==> Enabled(old(T()), Schedule(c, p)) && T() == Do(old(T()), Schedule(c, p))
      ensures p < |procs| ==> old(procs)[p].state == RUNNABLE && cpus == old(cpus)[c := p]
      ensures p < |procs| ==> procs == old(procs)[p := old(procs)[p].(state := RUNNING, chan := NoChan)]
      ensures p == |procs| ==> T() == old(T())
    {
      p := from;
      while p < |procs|
        invariant from <= p <= |procs| && T() == old(T())
        invariant forall i :: from <= i < p ==> procs[i].state != RUNNABLE
      {
        if procs[p].state == RUNNABLE {
          cpus := cpus[c := p];
          procs := procs[p := procs[p].(state := RUNNING, chan := NoChan)];
          return;
        }
        p := p + 1;
      }
    }
  }

  lemma PassedOnAll(s: seq<Proc>, cur: int, init: int)
    ensures forall i :: 0 <= i < |s| ==> PassedOn(s, Reparent(s, cur, init, |s|)[i], i, cur, init)
  {
    assert HasZombie(s, cur, |s|) <==> GetsZombie(s, cur) by {
      if GetsZombie(s, cur) {
        var q :| 0 <= q < |s| && s[q].parent == cur && s[q].state == ZOMBIE;
        assert ZombieChild(s, cur, q);
      }
    }
  }

  lemma LeftAll(t: Table, c: nat)
    requires Inv(t) && Enabled(t, Exit(c))
    ensures |DoExit(t, c).procs| == |t.procs| && 0 <= t.cpus[c] < |t.procs|
    ensures forall i :: 0 <= i < |t.procs| ==> Left(t.procs, DoExit(t, c).procs[i], i, t.cpus[c], t.init)
  {
    hide ParentsOk, WaitersOk, PidsOk, Reparent;
    var p := t.cpus[c];
    var woken := WakeAll(t.procs, OnProc(t.procs[p].parent));
    PassedOnAll(woken, p, t.init);
    assert GetsZombie(woken, p) <==> GetsZombie(t.procs, p) by {
      if GetsZombie(t.procs, p) {
        var q :| 0 <= q < |t.procs| && t.procs[q].parent == p && t.procs[q].state == ZOMBIE;
        assert woken[q].parent == p && woken[q].state == ZOMBIE;
      }
    }
    forall i | 0 <= i < |t.procs|
      ensures Left(t.procs, DoExit(t, c).procs[i], i, p, t.init)
    {
      assert PassedOn(woken, Reparent(woken, p, t.init, |woken|)[i], i, p, t.init);
    }
  }

  lemma ReapedFirst(t: Table, cur: int, q: nat)
    requires q < |t.procs| && q == Find(t.procs, ZombieOf(cur))
    ensures FirstReaped(t.procs, t.procs[q := t.procs[q].(state := UNUSED, pid := 0, parent := NONE, killed := false)], cur,
                        t.procs[q].pid)
  {
    var after := t.procs[q := t.procs[q].(state := UNUSED, pid := 0, parent := NONE, killed := false)];
    assert ReapedAt(t.procs, after, cur, t.procs[q].pid, q) by {
      forall i | 0 <= i < q
        ensures t.procs[i].parent != cur || t.procs[i].state != ZOMBIE
      {
        assert !ZombieOf(cur)(t.procs[i]);
      }
    }
  }

  lemma ReparentNone(s: seq<Proc>, p: int, init: int)
    ensures Reparent(s, p, init, 0) == s
  {
  }

  lemma ReparentStep(s: seq<Proc>, cur: int, init: int, p: nat)
    requires p < |s| && cur != init
    ensures var r := Reparent(s, cur, init, p);
            var r' := Reparent(s, cur, init, p + 1);
            && r[p].parent == s[p].parent
            && (s[p].parent != cur ==> r' == r)
            && (s[p].parent == cur && s[p].state != ZOMBIE ==> r' == r[p := r[p].(parent := init)] && r[p].state != ZOMBIE)
            && (s[p].parent == cur && s[p].state == ZOMBIE ==>
                  r[p].state == ZOMBIE && r' == WakeAll(r[p := r[p].(parent := init)], OnProc(init)))
  {
    assert HasZombie(s, cur, p + 1) <==> HasZombie(s, cur, p) || ZombieChild(s, cur, p);
  }

  lemma ZombiePid(t: Table, p: nat)
    requires Inv(t) && p < |t.procs| && t.procs[p].state == ZOMBIE
    ensures t.procs[p].pid > 0
  {
  }
}
