/**
 The process table of proc.c. Each action is one section under ptable.lock (or, in fork, one store made
 without it); actions of different CPUs interleave freely.
 */
module ProcTable {

  datatype PState = UNUSED | EMBRYO | SLEEPING | RUNNABLE | RUNNING | ZOMBIE

  /** Sleep channels: the address of a proc (only wait sleeps there) or any other address. */
  datatype Chan = NoChan | OnProc(slot: int) | OnOther(addr: int)

  const NONE := -1

  /** `parent` is a slot or NONE; `maker` is the slot whose fork is filling in an EMBRYO slot. */
  datatype Proc = Proc(state: PState, pid: int, parent: int, chan: Chan, killed: bool, maker: int)

  /** `cpus[c]` is c->proc, a slot or NONE. `exited` and `reaped` record pids for the statement of the properties. */
  datatype Table = Table(procs: seq<Proc>, cpus: seq<int>, nextpid: int, init: nat, exited: set<int>, reaped: seq<int>)

  predicate Live(s: PState) {
    s == SLEEPING || s == RUNNABLE || s == RUNNING
  }

  // ---------------------------------------------------------------- table scans

  /** wakeup1: everybody asleep on `ch` becomes RUNNABLE. */
  function WakeAll(procs: seq<Proc>, ch: Chan): (r: seq<Proc>)
    ensures |r| == |procs|
  {
    seq(|procs|, i requires 0 <= i < |procs| =>
      if procs[i].state == SLEEPING && procs[i].chan == ch then procs[i].(state := RUNNABLE) else procs[i])
  }

  predicate ZombieChild(procs: seq<Proc>, p: int, q: int) {
    0 <= q < |procs| && procs[q].parent == p && procs[q].state == ZOMBIE
  }

  predicate HasZombie(procs: seq<Proc>, p: int, k: int) {
    exists q :: 0 <= q < k && ZombieChild(procs, p, q)
  }

  /** exit's loop over the first `k` slots: children of `p` go to `init`, which is woken if one is a zombie. */
  function Reparent(procs: seq<Proc>, p: int, init: int, k: int): (r: seq<Proc>)
    ensures |r| == |procs|
  {
    var base := if HasZombie(procs, p, k) then WakeAll(procs, OnProc(init)) else procs;
    seq(|procs|, i requires 0 <= i < |procs| =>
      if i < k && procs[i].parent == p then base[i].(parent := init) else base[i])
  }

  // ---------------------------------------------------------------- actions

  datatype Action =
    | Schedule(c: nat, p: nat)
    | Yield(c: nat)
    | Sleep(c: nat, addr: int)
    | Wakeup(addr: int)
    | Kill(c: nat, pid: int)
    | Fault(c: nat)
    | ForkAlloc(c: nat)
    | ForkFail(c: nat, e: nat)
    | ForkParent(c: nat, e: nat)
    | ForkDone(c: nat, e: nat)
    | Exit(c: nat)
    | Wait(c: nat)

  /** The process CPU `c` is running. */
  predicate Runs(t: Table, c: nat) {
    c < |t.cpus| && 0 <= t.cpus[c] < |t.procs|
  }

  /** Slot `e` is the EMBRYO that the fork of the process on `c` is filling in. */
  predicate Making(t: Table, c: nat, e: nat) {
    Runs(t, c) && e < |t.procs| && t.procs[e].state == EMBRYO && t.procs[e].maker == t.cpus[c]
  }

  predicate FirstWhere(procs: seq<Proc>, f: Proc -> bool, q: nat) {
    q < |procs| && f(procs[q]) && forall i :: 0 <= i < q ==> !f(procs[i])
  }

  predicate NoneWhere(procs: seq<Proc>, f: Proc -> bool) {
    forall i :: 0 <= i < |procs| ==> !f(procs[i])
  }

  function IsUnused(): Proc -> bool {
    (x: Proc) => x.state == UNUSED
  }

  function HasPid(pid: int): Proc -> bool {
    (x: Proc) => x.pid == pid
  }

  function ChildOf(p: int): Proc -> bool {
    (x: Proc) => x.parent == p
  }

  function ZombieOf(p: int): Proc -> bool {
    (x: Proc) => x.parent == p && x.state == ZOMBIE
  }

  /** The first slot that satisfies `f`, or the table size. */
  function Find(procs: seq<Proc>, f: Proc -> bool): (q: nat)
    ensures q <= |procs|
    ensures q < |procs| ==> FirstWhere(procs, f, q)
    ensures q == |procs| ==> NoneWhere(procs, f)
  {
    if procs == [] then 0
    else
      var n := |procs| - 1;
      var q := Find(procs[..n], f);
      if q < n then q else if f(procs[n]) then n else n + 1
  }

  predicate Enabled(t: Table, a: Action) {
    match a
    case Schedule(c, p) => c < |t.cpus| && t.cpus[c] == NONE && p < |t.procs| && t.procs[p].state == RUNNABLE
    case Yield(c) => Runs(t, c)
    case Sleep(c, _) => Runs(t, c)
    // also from an interrupt, whether or not the CPU that takes it runs a process
    case Wakeup(_) => true
    case Kill(c, _) => Runs(t, c)
    // a trap marks the current process without the lock
    case Fault(c) => Runs(t, c)
    case ForkAlloc(c) => Runs(t, c)
    case ForkFail(c, e) => Making(t, c, e) && t.procs[e].parent == NONE
    case ForkParent(c, e) => Making(t, c, e) && t.procs[e].parent == NONE
    case ForkDone(c, e) => Making(t, c, e) && t.procs[e].parent == t.cpus[c]
    // exit panics for init, and a process inside fork is not at the same time in exit
    case Exit(c) => Runs(t, c) && t.cpus[c] != t.init &&
                    forall e :: 0 <= e < |t.procs| && t.procs[e].state == EMBRYO ==> t.procs[e].maker != t.cpus[c]
    case Wait(c) => Runs(t, c)
  }

  function Put(t: Table, p: nat, x: Proc): (r: Table)
    requires p < |t.procs|
    ensures |r.procs| == |t.procs|
  {
    t.(procs := t.procs[p := x])
  }

  /** The process on CPU `c` leaves it with state `s` and channel `ch`. */
  function Leave(t: Table, c: nat, s: PState, ch: Chan): (r: Table)
    requires Runs(t, c)
    ensures |r.procs| == |t.procs|
  {
    var p := t.cpus[c];
    t.(procs := t.procs[p := t.procs[p].(state := s, chan := ch)], cpus := t.cpus[c := NONE])
  }

  function DoKill(t: Table, pid: int): Table {
    var q := Find(t.procs, HasPid(pid));
    if q == |t.procs| then t
    else
      var x := t.procs[q].(killed := true);
      Put(t, q, if x.state == SLEEPING then x.(state := RUNNABLE) else x)
  }

  function DoAlloc(t: Table, c: nat): Table
    requires Runs(t, c)
  {
    var q := Find(t.procs, IsUnused());
    if q == |t.procs| then t
    else Put(t, q, t.procs[q].(state := EMBRYO, pid := t.nextpid, maker := t.cpus[c])).(nextpid := t.nextpid + 1)
  }

  function DoExit(t: Table, c: nat): Table
    requires Runs(t, c)
  {
    var p := t.cpus[c];
    var woken := WakeAll(t.procs, OnProc(t.procs[p].parent));
    var given := Reparent(woken, p, t.init, |t.procs|);
    Leave(t.(procs := given), c, ZOMBIE, given[p].chan).(exited := t.exited + {t.procs[p].pid})
  }

  /** wait reaps the first zombie child, gives up, or goes to sleep on its own proc. */
  function DoWait(t: Table, c: nat): Table
    requires Runs(t, c)
  {
    var p := t.cpus[c];
    var q := Find(t.procs, ZombieOf(p));
    if q < |t.procs| then
      Put(t, q, t.procs[q].(state := UNUSED, pid := 0, parent := NONE, killed := false))
      .(reaped := t.reaped + [t.procs[q].pid])
    else if NoneWhere(t.procs, ChildOf(p)) || t.procs[p].killed then t
    else Leave(t, c, SLEEPING, OnProc(p))
  }

  function Do(t: Table, a: Action): Table
    requires Enabled(t, a)
  {
    match a
    case Schedule(c, p) =>
      t.(procs := t.procs[p := t.procs[p].(state := RUNNING, chan := NoChan)], cpus := t.cpus[c := p])
    case Yield(c) => Leave(t, c, RUNNABLE, t.procs[t.cpus[c]].chan)
    case Sleep(c, addr) => Leave(t, c, SLEEPING, OnOther(addr))
    case Wakeup(addr) => t.(procs := WakeAll(t.procs, OnOther(addr)))
    case Kill(c, pid) => DoKill(t, pid)
    case Fault(c) => Put(t, t.cpus[c], t.procs[t.cpus[c]].(killed := true))
    case ForkAlloc(c) => DoAlloc(t, c)
    case ForkFail(c, e) => Put(t, e, t.procs[e].(state := UNUSED))
    case ForkParent(c, e) => Put(t, e, t.procs[e].(parent := t.cpus[c]))
    case ForkDone(c, e) => Put(t, e, t.procs[e].(state := RUNNABLE))
    case Exit(c) => DoExit(t, c)
    case Wait(c) => DoWait(t, c)
  }

  // ---------------------------------------------------------------- the invariant

  /** A process is RUNNING exactly when it is c->proc of exactly one CPU. */
  ghost predicate CpusOk(t: Table) {
    && (forall c :: 0 <= c < |t.cpus| && t.cpus[c] != NONE ==> Runs(t, c) && t.procs[t.cpus[c]].state == RUNNING)
    && (forall c, d :: 0 <= c < d < |t.cpus| && t.cpus[c] != NONE ==> t.cpus[c] != t.cpus[d])
    && (forall p :: 0 <= p < |t.procs| && t.procs[p].state == RUNNING ==> p in t.cpus)
  }

  /** Every live or zombie process but init has a live parent; init is live; unused slots have no parent. */
  ghost predicate ParentsOk(t: Table) {
    && t.init < |t.procs| && Live(t.procs[t.init].state) && t.procs[t.init].parent == NONE
    && (forall p :: 0 <= p < |t.procs| ==> ParentOk(t, p))
  }

  predicate ParentOk(t: Table, p: nat)
    requires p < |t.procs|
  {
    var x := t.procs[p];
    && (x.state == UNUSED ==> x.parent == NONE)
    && (x.state == EMBRYO ==> LiveSlot(t, x.maker) && x.maker != p && (x.parent == NONE || x.parent == x.maker))
    && ((Live(x.state) || x.state == ZOMBIE) && p != t.init ==> LiveSlot(t, x.parent) && x.parent != p)
  }

  predicate LiveSlot(t: Table, p: int) {
    0 <= p < |t.procs| && Live(t.procs[p].state)
  }

  /** No process asleep in wait has a zombie child. */
  ghost predicate WaitersOk(t: Table) {
    && (forall p :: 0 <= p < |t.procs| && t.procs[p].state == SLEEPING && t.procs[p].chan.OnProc? ==> t.procs[p].chan.slot == p)
    && (forall p, q :: 0 <= p < |t.procs| && t.procs[p].state == SLEEPING && t.procs[p].chan.OnProc? ==> !ZombieChild(t.procs, p, q))
  }

  /** Pids in use are distinct; an exited pid is a zombie's or has been reaped, and no pid is reaped twice. */
  ghost predicate PidsOk(t: Table) {
    && t.nextpid > 0
    && (forall p :: 0 <= p < |t.procs| && t.procs[p].state != UNUSED ==> 0 < t.procs[p].pid < t.nextpid)
    && (forall p, q :: 0 <= p < q < |t.procs| && t.procs[p].state != UNUSED && t.procs[q].state != UNUSED ==> t.procs[p].pid != t.procs[q].pid)
    && (forall p :: 0 <= p < |t.procs| && t.procs[p].state != UNUSED ==>
          (t.procs[p].pid in t.exited <==> t.procs[p].state == ZOMBIE) && t.procs[p].pid !in t.reaped)
    && (forall x :: x in t.exited ==> 0 < x < t.nextpid && (x in t.reaped || exists p :: 0 <= p < |t.procs| && IsZombie(t, p, x)))
    && (forall x :: x in t.reaped ==> x in t.exited)
    && (forall i, j :: 0 <= i < j < |t.reaped| ==> t.reaped[i] != t.reaped[j])
  }

  predicate IsZombie(t: Table, p: nat, pid: int) {
    p < |t.procs| && t.procs[p].state == ZOMBIE && t.procs[p].pid == pid
  }

  ghost predicate Inv(t: Table) {
    CpusOk(t) && ParentsOk(t) && WaitersOk(t) && PidsOk(t)
  }

  // ---------------------------------------------------------------- frames for the four parts

  /** States changed only among live ones, and nothing a zombie or a pid depends on. */
  ghost predicate LiveOnly(t: Table, r: Table) {
    && |r.procs| == |t.procs| && r.init == t.init && r.nextpid == t.nextpid && r.exited == t.exited && r.reaped == t.reaped
    && (forall p :: 0 <= p < |t.procs| ==> SameButLive(t.procs[p], r.procs[p]))
  }

  predicate SameButLive(x: Proc, y: Proc) {
    && y.pid == x.pid && y.parent == x.parent && y.maker == x.maker
    && (y.state == x.state || (Live(x.state) && Live(y.state)))
  }

  lemma SameParents(t: Table, r: Table)
    requires ParentsOk(t) && LiveOnly(t, r)
    ensures ParentsOk(r)
  {
    forall q | LiveSlot(t, q) ensures LiveSlot(r, q) {
      assert SameButLive(t.procs[q], r.procs[q]);
    }
    forall p | 0 <= p < |r.procs| ensures ParentOk(r, p) {
      assert ParentOk(t, p) && SameButLive(t.procs[p], r.procs[p]);
    }
    assert SameButLive(t.procs[t.init], r.procs[t.init]);
  }

  lemma SamePids(t: Table, r: Table)
    requires PidsOk(t) && LiveOnly(t, r)
    ensures PidsOk(r)
  {
    forall p | 0 <= p < |t.procs|
      ensures r.procs[p].pid == t.procs[p].pid
      ensures (r.procs[p].state == UNUSED <==> t.procs[p].state == UNUSED) && (r.procs[p].state == ZOMBIE <==> t.procs[p].state == ZOMBIE)
    {
      assert SameButLive(t.procs[p], r.procs[p]);
    }
    hide SameButLive, LiveOnly;
    forall x | x in r.exited && x !in r.reaped ensures exists p :: 0 <= p < |r.procs| && IsZombie(r, p, x) {
      var p :| 0 <= p < |t.procs| && IsZombie(t, p, x);
      assert IsZombie(r, p, x);
    }
  }

  /** No new waiter and no new zombie. */
  predicate Calm(x: Proc, y: Proc) {
    && (y.state == SLEEPING && y.chan.OnProc? ==> x.state == SLEEPING && x.chan == y.chan)
    && (y.state == ZOMBIE ==> x.state == ZOMBIE && x.parent == y.parent)
  }

  lemma SameWaiters(t: Table, r: Table)
    requires WaitersOk(t) && |r.procs| == |t.procs|
    requires forall p :: 0 <= p < |t.procs| ==> Calm(t.procs[p], r.procs[p])
    ensures WaitersOk(r)
  {
    forall p, q | 0 <= p < |r.procs| && r.procs[p].state == SLEEPING && r.procs[p].chan.OnProc?
      ensures !ZombieChild(r.procs, p, q)
    {
      assert Calm(t.procs[p], r.procs[p]);
      assert !ZombieChild(t.procs, p, q);
      if 0 <= q < |r.procs| {
        assert Calm(t.procs[q], r.procs[q]);
      }
    }
    assert forall p :: 0 <= p < |t.procs| ==> Calm(t.procs[p], r.procs[p]);
  }

  lemma SameCpus(t: Table, r: Table)
    requires CpusOk(t) && r.cpus == t.cpus && |r.procs| == |t.procs|
    requires forall p :: 0 <= p < |t.procs| ==> (r.procs[p].state == RUNNING <==> t.procs[p].state == RUNNING)
    ensures CpusOk(r)
  {
    forall c | 0 <= c < |r.cpus| && r.cpus[c] != NONE ensures Runs(r, c) && r.procs[r.cpus[c]].state == RUNNING {
      assert Runs(t, c);
    }
  }

  lemma LeaveCpus(t: Table, r: Table, c: nat)
    requires CpusOk(t) && Runs(t, c) && r.cpus == t.cpus[c := NONE] && |r.procs| == |t.procs|
    requires forall p :: 0 <= p < |t.procs| ==> (r.procs[p].state == RUNNING <==> t.procs[p].state == RUNNING && p != t.cpus[c])
    ensures CpusOk(r)
  {
    forall d | 0 <= d < |r.cpus| && r.cpus[d] != NONE ensures Runs(r, d) && r.procs[r.cpus[d]].state == RUNNING {
      assert Runs(t, d);
    }
    forall q | 0 <= q < |r.procs| && r.procs[q].state == RUNNING ensures q in r.cpus {
      var d :| 0 <= d < |t.cpus| && t.cpus[d] == q;
      assert r.cpus[d] == q;
    }
  }

  lemma EnterCpus(t: Table, r: Table, c: nat, p: nat)
    requires CpusOk(t) && c < |t.cpus| && t.cpus[c] == NONE && p < |t.procs| && t.procs[p].state != RUNNING
    requires r.cpus == t.cpus[c := p] && |r.procs| == |t.procs|
    requires forall q :: 0 <= q < |t.procs| ==> (r.procs[q].state == RUNNING <==> t.procs[q].state == RUNNING || q == p)
    ensures CpusOk(r)
  {
    assert r.cpus[c] == p;
    forall d | 0 <= d < |r.cpus| && r.cpus[d] != NONE ensures Runs(r, d) && r.procs[r.cpus[d]].state == RUNNING {
      assert d != c ==> Runs(t, d);
    }
    forall q | 0 <= q < |r.procs| && r.procs[q].state == RUNNING ensures q in r.cpus {
      if q != p {
        var d :| 0 <= d < |t.cpus| && t.cpus[d] == q;
        assert r.cpus[d] == q;
      }
    }
  }

  // ---------------------------------------------------------------- actions that only move live processes

  lemma QuietKeeps(t: Table, r: Table)
    requires Inv(t) && LiveOnly(t, r) && CpusOk(r)
    requires forall p :: 0 <= p < |t.procs| ==> Calm(t.procs[p], r.procs[p])
    ensures Inv(r)
  {
    SameParents(t, r);
    SamePids(t, r);
    SameWaiters(t, r);
  }

  lemma ScheduleKeeps(t: Table, c: nat, p: nat)
    requires Inv(t) && Enabled(t, Schedule(c, p))
    ensures Inv(Do(t, Schedule(c, p)))
  {
    hide ParentsOk, WaitersOk, PidsOk, CpusOk;
    var r := Do(t, Schedule(c, p));
    EnterCpus(t, r, c, p);
    QuietKeeps(t, r);
  }

  lemma LeaveKeeps(t: Table, c: nat, s: PState, ch: Chan)
    requires Inv(t) && Runs(t, c) && (s == RUNNABLE || (s == SLEEPING && !ch.OnProc?))
    ensures Inv(Leave(t, c, s, ch))
  {
    var r := Leave(t, c, s, ch);
    assert t.procs[t.cpus[c]].state == RUNNING;
    hide ParentsOk, WaitersOk, PidsOk, CpusOk;
    LeaveCpus(t, r, c);
    QuietKeeps(t, r);
  }

  lemma WakeKeeps(t: Table, ch: Chan)
    requires Inv(t)
    ensures Inv(t.(procs := WakeAll(t.procs, ch)))
  {
    hide ParentsOk, WaitersOk, PidsOk, CpusOk;
    var r := t.(procs := WakeAll(t.procs, ch));
    SameCpus(t, r);
    QuietKeeps(t, r);
  }

  lemma KillKeeps(t: Table, pid: int)
    requires Inv(t)
    ensures Inv(DoKill(t, pid))
  {
    hide ParentsOk, WaitersOk, PidsOk, CpusOk, Find;
    var q := Find(t.procs, HasPid(pid));
    FindBound(t.procs, HasPid(pid));
    var r := DoKill(t, pid);
    SameCpus(t, r);
    QuietKeeps(t, r);
  }

  lemma FaultKeeps(t: Table, c: nat)
    requires Inv(t) && Runs(t, c)
    ensures Inv(Put(t, t.cpus[c], t.procs[t.cpus[c]].(killed := true)))
  {
    hide ParentsOk, WaitersOk, PidsOk, CpusOk;
    var r := Put(t, t.cpus[c], t.procs[t.cpus[c]].(killed := true));
    SameCpus(t, r);
    QuietKeeps(t, r);
  }

  lemma FindIs(procs: seq<Proc>, f: Proc -> bool, q: nat)
    requires FirstWhere(procs, f, q)
    ensures Find(procs, f) == q
  {
    FindBound(procs, f);
  }

  lemma FindIsNone(procs: seq<Proc>, f: Proc -> bool)
    requires NoneWhere(procs, f)
    ensures Find(procs, f) == |procs|
  {
    FindBound(procs, f);
  }

  lemma FindBound(procs: seq<Proc>, f: Proc -> bool)
    ensures Find(procs, f) <= |procs|
    ensures Find(procs, f) < |procs| ==> FirstWhere(procs, f, Find(procs, f))
    ensures Find(procs, f) == |procs| ==> NoneWhere(procs, f)
  {
  }

  // ---------------------------------------------------------------- fork

  lemma ForkCalm(t: Table, e: nat, x: Proc)
    requires CpusOk(t) && WaitersOk(t) && e < |t.procs|
    requires t.procs[e].state == UNUSED || t.procs[e].state == EMBRYO
    requires x.state == UNUSED || x.state == EMBRYO || x.state == RUNNABLE
    ensures CpusOk(Put(t, e, x)) && WaitersOk(Put(t, e, x))
  {
    hide CpusOk, WaitersOk;
    SameCpus(t, Put(t, e, x));
    SameWaiters(t, Put(t, e, x));
  }

  lemma ForkParents(t: Table, e: nat, x: Proc)
    requires ParentsOk(t) && e < |t.procs| && (t.procs[e].state == UNUSED || t.procs[e].state == EMBRYO)
    requires ParentOk(Put(t, e, x), e)
    ensures ParentsOk(Put(t, e, x))
  {
    var r := Put(t, e, x);
    forall q | LiveSlot(t, q) ensures LiveSlot(r, q) { }
    forall p | 0 <= p < |r.procs| ensures ParentOk(r, p) {
      assert ParentOk(t, p);
    }
  }

  /** Only EMBRYO and RUNNABLE slots come and go here: nothing that exit or wait keep books about. */
  lemma ForkPids(t: Table, e: nat, x: Proc)
    requires PidsOk(t) && e < |t.procs| && t.procs[e].state == EMBRYO && x.pid == t.procs[e].pid && x.state != ZOMBIE
    ensures PidsOk(Put(t, e, x))
  {
    var r := Put(t, e, x);
    forall y | y in r.exited && y !in r.reaped ensures exists p :: 0 <= p < |r.procs| && IsZombie(r, p, y) {
      var p :| 0 <= p < |t.procs| && IsZombie(t, p, y);
      assert IsZombie(r, p, y);
    }
  }

  lemma AllocPids(t: Table, e: nat, x: Proc)
    requires PidsOk(t) && e < |t.procs| && t.procs[e].state == UNUSED && x.pid == t.nextpid && x.state == EMBRYO
    ensures PidsOk(Put(t, e, x).(nextpid := t.nextpid + 1))
  {
    var r := Put(t, e, x).(nextpid := t.nextpid + 1);
    forall y | y in r.exited && y !in r.reaped ensures exists p :: 0 <= p < |r.procs| && IsZombie(r, p, y) {
      var p :| 0 <= p < |t.procs| && IsZombie(t, p, y);
      assert IsZombie(r, p, y);
    }
  }

  lemma RunnerFacts(t: Table, c: nat)
    requires Inv(t) && Runs(t, c)
    ensures t.procs[t.cpus[c]].state == RUNNING && LiveSlot(t, t.cpus[c])
  {
  }

  lemma UnusedFacts(t: Table, q: nat)
    requires Inv(t) && q < |t.procs| && t.procs[q].state == UNUSED
    ensures t.procs[q].parent == NONE && q != t.init
  {
    assert ParentOk(t, q);
  }

  lemma AllocKeeps(t: Table, c: nat)
    requires Inv(t) && Runs(t, c)
    ensures Inv(DoAlloc(t, c))
  {
    hide CpusOk, PidsOk, ParentsOk, WaitersOk, Find;
    FindBound(t.procs, IsUnused());
    var q := Find(t.procs, IsUnused());
    if q < |t.procs| {
      RunnerFacts(t, c);
      UnusedFacts(t, q);
      var x := t.procs[q].(state := EMBRYO, pid := t.nextpid, maker := t.cpus[c]);
      ForkCalm(t, q, x);
      ForkParents(t, q, x);
      AllocPids(t, q, x);
      NextPidFrame(Put(t, q, x), t.nextpid + 1);
    }
  }

  lemma NextPidFrame(t: Table, n: int)
    requires CpusOk(t) && ParentsOk(t) && WaitersOk(t)
    ensures var r := t.(nextpid := n); CpusOk(r) && ParentsOk(r) && WaitersOk(r)
  {
    var r := t.(nextpid := n);
    forall c | 0 <= c < |r.cpus| && r.cpus[c] != NONE ensures Runs(r, c) { assert Runs(t, c); }
    forall p | 0 <= p < |r.procs| ensures ParentOk(r, p) { assert ParentOk(t, p); }
  }

  lemma ForkKeeps(t: Table, a: Action)
    requires Inv(t) && Enabled(t, a) && (a.ForkFail? || a.ForkParent? || a.ForkDone?)
    ensures Inv(Do(t, a))
  {
    var x := t.procs[a.e];
    assert ParentOk(t, a.e);
    var y := if a.ForkFail? then x.(state := UNUSED) else if a.ForkParent? then x.(parent := t.cpus[a.c]) else x.(state := RUNNABLE);
    ForkCalm(t, a.e, y);
    ForkParents(t, a.e, y);
    ForkPids(t, a.e, y);
  }

  // ---------------------------------------------------------------- exit

  /** The table after exit has passed the children of `p` to init. */
  function Given(t: Table, p: nat): Table {
    t.(procs := Reparent(t.procs, p, t.init, |t.procs|))
  }

  lemma ReparentAt(t: Table, p: nat, q: nat)
    requires q < |t.procs|
    ensures var x, y := t.procs[q], Given(t, p).procs[q];
            && y.pid == x.pid && y.maker == x.maker && y.chan == x.chan && y.killed == x.killed
            && y.parent == (if x.parent == p then t.init else x.parent)
            && (y.state == x.state || (x.state == SLEEPING && x.chan == OnProc(t.init) && y.state == RUNNABLE))
            && (HasZombie(t.procs, p, |t.procs|) && x.state == SLEEPING && x.chan == OnProc(t.init) ==> y.state == RUNNABLE)
  {
  }

  lemma GivenParents(t: Table, p: nat)
    requires ParentsOk(t) && p < |t.procs| && p != t.init && Live(t.procs[p].state)
    requires forall e :: 0 <= e < |t.procs| && t.procs[e].state == EMBRYO ==> t.procs[e].maker != p
    ensures ParentsOk(Given(t, p))
    ensures forall q :: 0 <= q < |t.procs| ==> Given(t, p).procs[q].parent != p
  {
    var r := Given(t, p);
    forall q | 0 <= q < |t.procs| ensures Live(t.procs[q].state) ==> Live(r.procs[q].state) {
      ReparentAt(t, p, q);
    }
    forall q | 0 <= q < |r.procs| ensures ParentOk(r, q) && r.procs[q].parent != p {
      ReparentAt(t, p, q);
      assert ParentOk(t, q);
    }
    ReparentAt(t, p, t.init);
  }

  lemma GivenWaiters(t: Table, p: nat)
    requires WaitersOk(t)
    ensures WaitersOk(Given(t, p))
  {
    var r := Given(t, p);
    forall w | 0 <= w < |r.procs| && r.procs[w].state == SLEEPING && r.procs[w].chan.OnProc?
      ensures r.procs[w].chan.slot == w && forall q :: !ZombieChild(r.procs, w, q)
    {
      ReparentAt(t, p, w);
      forall q ensures !ZombieChild(r.procs, w, q) {
        assert !ZombieChild(t.procs, w, q);
        if ZombieChild(r.procs, w, q) {
          ReparentAt(t, p, q);
          assert ZombieChild(t.procs, p, q);
        }
      }
    }
  }

  lemma GivenPids(t: Table, p: nat)
    requires PidsOk(t)
    ensures PidsOk(Given(t, p))
  {
    var r := Given(t, p);
    forall q | 0 <= q < |t.procs|
      ensures r.procs[q].pid == t.procs[q].pid
      ensures (r.procs[q].state == UNUSED <==> t.procs[q].state == UNUSED) && (r.procs[q].state == ZOMBIE <==> t.procs[q].state == ZOMBIE)
    {
      ReparentAt(t, p, q);
    }
    hide Reparent;
    forall y | y in r.exited && y !in r.reaped ensures exists q :: 0 <= q < |r.procs| && IsZombie(r, q, y) {
      var q :| 0 <= q < |t.procs| && IsZombie(t, q, y);
      assert IsZombie(r, q, y);
    }
  }

  lemma GivenCpus(t: Table, p: nat)
    requires CpusOk(t)
    ensures CpusOk(Given(t, p))
  {
    forall q | 0 <= q < |t.procs| ensures Given(t, p).procs[q].state == RUNNING <==> t.procs[q].state == RUNNING {
      ReparentAt(t, p, q);
    }
    SameCpus(t, Given(t, p));
  }

  /** The last step of exit: a process without children, whose parent is awake, becomes a zombie. */
  function Zombified(t: Table, c: nat): Table
    requires Runs(t, c)
  {
    Leave(t, c, ZOMBIE, t.procs[t.cpus[c]].chan).(exited := t.exited + {t.procs[t.cpus[c]].pid})
  }

  lemma ZombieParents(t: Table, c: nat)
    requires ParentsOk(t) && Runs(t, c) && t.cpus[c] != t.init && t.procs[t.cpus[c]].state == RUNNING
    requires forall q :: 0 <= q < |t.procs| ==> t.procs[q].parent != t.cpus[c]
    requires forall e :: 0 <= e < |t.procs| && t.procs[e].state == EMBRYO ==> t.procs[e].maker != t.cpus[c]
    ensures ParentsOk(Zombified(t, c))
  {
    var r := Zombified(t, c);
    forall q | 0 <= q < |r.procs| ensures ParentOk(r, q) {
      assert ParentOk(t, q);
    }
  }

  lemma ZombieWaiters(t: Table, c: nat)
    requires WaitersOk(t) && Runs(t, c)
    requires var x := t.procs[t.cpus[c]]; 0 <= x.parent < |t.procs| ==>
             !(t.procs[x.parent].state == SLEEPING && t.procs[x.parent].chan == OnProc(x.parent))
    ensures WaitersOk(Zombified(t, c))
  {
    var r := Zombified(t, c);
    var p := t.cpus[c];
    forall w, q | 0 <= w < |r.procs| && r.procs[w].state == SLEEPING && r.procs[w].chan.OnProc?
      ensures !ZombieChild(r.procs, w, q)
    {
      assert w != p && t.procs[w].chan.slot == w;
      assert !ZombieChild(t.procs, w, q);
    }
  }

  lemma ZombiePids(t: Table, c: nat)
    requires PidsOk(t) && Runs(t, c) && t.procs[t.cpus[c]].state == RUNNING
    ensures PidsOk(Zombified(t, c))
  {
    var r := Zombified(t, c);
    var p := t.cpus[c];
    forall y | y in r.exited && y !in r.reaped ensures exists q :: 0 <= q < |r.procs| && IsZombie(r, q, y) {
      if y == t.procs[p].pid {
        assert IsZombie(r, p, y);
      } else {
        var q :| 0 <= q < |t.procs| && IsZombie(t, q, y);
        assert IsZombie(r, q, y);
      }
    }
  }

  lemma ExitIsZombified(t: Table, c: nat)
    requires Runs(t, c)
    ensures var p := t.cpus[c];
            var t1 := t.(procs := WakeAll(t.procs, OnProc(t.procs[p].parent)));
            && Runs(Given(t1, p), c)
            && DoExit(t, c) == Zombified(Given(t1, p), c)
  {
    var p := t.cpus[c];
    var t1 := t.(procs := WakeAll(t.procs, OnProc(t.procs[p].parent)));
    ReparentAt(t1, p, p);
  }

  lemma ParentAwake(t: Table, p: nat)
    requires p < |t.procs|
    ensures var t1 := t.(procs := WakeAll(t.procs, OnProc(t.procs[p].parent)));
            var t2 := Given(t1, p); var P := t.procs[p].parent;
            t2.procs[p].parent == (if P == p then t.init else P) &&
            (0 <= P < |t.procs| ==> !(t2.procs[P].state == SLEEPING && t2.procs[P].chan == OnProc(P)))
  {
    var P := t.procs[p].parent;
    var t1 := t.(procs := WakeAll(t.procs, OnProc(P)));
    ReparentAt(t1, p, p);
    if 0 <= P < |t.procs| {
      ReparentAt(t1, p, P);
    }
  }

  /** Nothing in fork has `p` as its maker. */
  predicate NotForking(t: Table, p: int) {
    forall e :: 0 <= e < |t.procs| && t.procs[e].state == EMBRYO ==> t.procs[e].maker != p
  }

  lemma GivenKeeps(t: Table, p: nat)
    requires Inv(t) && p < |t.procs| && p != t.init && t.procs[p].state == RUNNING && NotForking(t, p)
    ensures var r := Given(t, p);
            && Inv(r) && NotForking(r, p) && r.procs[p].state == RUNNING
            && (forall q :: 0 <= q < |t.procs| ==> r.procs[q].parent != p)
  {
    hide CpusOk, PidsOk, ParentsOk, WaitersOk;
    GivenParents(t, p);
    GivenWaiters(t, p);
    GivenPids(t, p);
    GivenCpus(t, p);
    forall e | 0 <= e < |t.procs| && Given(t, p).procs[e].state == EMBRYO ensures Given(t, p).procs[e].maker != p {
      ReparentAt(t, p, e);
    }
    ReparentAt(t, p, p);
  }

  lemma ExitFacts(t: Table, c: nat)
    requires Inv(t) && Enabled(t, Exit(c))
    ensures var p := t.cpus[c];
            t.procs[p].state == RUNNING && NotForking(t, p) && 0 <= t.procs[p].parent < |t.procs| && t.procs[p].parent != p
  {
    RunnerFacts(t, c);
    assert ParentOk(t, t.cpus[c]);
  }

  lemma ExitKeeps(t: Table, c: nat)
    requires Inv(t) && Enabled(t, Exit(c))
    ensures Inv(DoExit(t, c))
  {
    hide Inv, DoExit, Zombified, Given;
    var p := t.cpus[c];
    ExitFacts(t, c);
    var t1 := t.(procs := WakeAll(t.procs, OnProc(t.procs[p].parent)));
    WakeKeeps(t, OnProc(t.procs[p].parent));
    GivenKeeps(t1, p);
    ExitIsZombified(t, c);
    ParentAwake(t, p);
    GivenShape(t1, p);
    ZombieKeeps(Given(t1, p), c);
  }

  lemma GivenShape(t: Table, p: nat)
    ensures var r := Given(t, p); |r.procs| == |t.procs| && r.cpus == t.cpus && r.init == t.init
  {
  }

  lemma ZombieKeeps(t: Table, c: nat)
    requires Inv(t) && Runs(t, c) && t.cpus[c] != t.init && t.procs[t.cpus[c]].state == RUNNING && NotForking(t, t.cpus[c])
    requires forall q :: 0 <= q < |t.procs| ==> t.procs[q].parent != t.cpus[c]
    requires var x := t.procs[t.cpus[c]]; 0 <= x.parent < |t.procs| ==>
             !(t.procs[x.parent].state == SLEEPING && t.procs[x.parent].chan == OnProc(x.parent))
    ensures Inv(Zombified(t, c))
  {
    hide CpusOk, PidsOk, ParentsOk, WaitersOk, Zombified;
    ZombieParents(t, c);
    ZombieWaiters(t, c);
    ZombiePids(t, c);
    ZombieCpus(t, c);
  }

  lemma ZombieCpus(t: Table, c: nat)
    requires CpusOk(t) && Runs(t, c)
    ensures CpusOk(Zombified(t, c))
  {
    LeaveCpus(t, Zombified(t, c), c);
  }

  // ---------------------------------------------------------------- wait

  function Reaped(t: Table, q: nat): Table
    requires q < |t.procs|
  {
    Put(t, q, t.procs[q].(state := UNUSED, pid := 0, parent := NONE, killed := false)).(reaped := t.reaped + [t.procs[q].pid])
  }

  lemma ReapKeeps(t: Table, q: nat)
    requires Inv(t) && q < |t.procs| && t.procs[q].state == ZOMBIE
    ensures Inv(Reaped(t, q))
  {
    var r := Reaped(t, q);
    SameCpus(t, r);
    SameWaiters(t, r);
    ReapParents(t, q);
    ReapPids(t, q);
  }

  lemma ReapParents(t: Table, q: nat)
    requires ParentsOk(t) && q < |t.procs| && t.procs[q].state == ZOMBIE
    ensures ParentsOk(Reaped(t, q))
  {
    var r := Reaped(t, q);
    forall p | 0 <= p < |r.procs| ensures ParentOk(r, p) {
      assert ParentOk(t, p);
    }
  }

  lemma ReapPids(t: Table, q: nat)
    requires PidsOk(t) && q < |t.procs| && t.procs[q].state == ZOMBIE
    ensures PidsOk(Reaped(t, q))
  {
    var r := Reaped(t, q);
    assert r.reaped[|t.reaped|] == t.procs[q].pid;
    forall y | y in r.exited && y !in r.reaped ensures exists p :: 0 <= p < |r.procs| && IsZombie(r, p, y) {
      var p :| 0 <= p < |t.procs| && IsZombie(t, p, y);
      assert p != q;
      assert IsZombie(r, p, y);
    }
  }

  lemma WaitSleepKeeps(t: Table, c: nat)
    requires Inv(t) && Runs(t, c) && NoneWhere(t.procs, ZombieOf(t.cpus[c]))
    ensures Inv(Leave(t, c, SLEEPING, OnProc(t.cpus[c])))
  {
    var r := Leave(t, c, SLEEPING, OnProc(t.cpus[c]));
    RunnerFacts(t, c);
    SleeperWaiters(t, c);
    hide CpusOk, PidsOk, ParentsOk, WaitersOk;
    LeaveCpus(t, r, c);
    SameParents(t, r);
    SamePids(t, r);
  }

  lemma SleeperWaiters(t: Table, c: nat)
    requires WaitersOk(t) && Runs(t, c) && NoneWhere(t.procs, ZombieOf(t.cpus[c]))
    ensures WaitersOk(Leave(t, c, SLEEPING, OnProc(t.cpus[c])))
  {
    var r := Leave(t, c, SLEEPING, OnProc(t.cpus[c]));
    forall w, q | 0 <= w < |r.procs| && r.procs[w].state == SLEEPING && r.procs[w].chan.OnProc?
      ensures !ZombieChild(r.procs, w, q)
    {
      assert w != t.cpus[c] ==> !ZombieChild(t.procs, w, q);
    }
  }

  lemma WaitKeeps(t: Table, c: nat)
    requires Inv(t) && Runs(t, c)
    ensures Inv(DoWait(t, c))
  {
    hide CpusOk, PidsOk, ParentsOk, WaitersOk, Find;
    var p := t.cpus[c];
    var zombie := ZombieOf(p);
    FindBound(t.procs, zombie);
    var q := Find(t.procs, zombie);
    if q < |t.procs| {
      ReapKeeps(t, q);
    } else {
      WaitSleepKeeps(t, c);
    }
  }

  // ---------------------------------------------------------------- every run

  lemma StepKeeps(t: Table, a: Action)
    requires Inv(t) && Enabled(t, a)
    ensures Inv(Do(t, a))
  {
    hide Inv, DoExit, DoWait, DoAlloc, DoKill, Leave;
    match a
    case Schedule(c, p) => ScheduleKeeps(t, c, p);
    case Yield(c) => LeaveKeeps(t, c, RUNNABLE, t.procs[t.cpus[c]].chan);
    case Sleep(c, addr) => LeaveKeeps(t, c, SLEEPING, OnOther(addr));
    case Wakeup(addr) => WakeKeeps(t, OnOther(addr));
    case Kill(c, pid) => KillKeeps(t, pid);
    case Fault(c) => FaultKeeps(t, c);
    case ForkAlloc(c) => AllocKeeps(t, c);
    case ForkFail(c, e) => ForkKeeps(t, a);
    case ForkParent(c, e) => ForkKeeps(t, a);
    case ForkDone(c, e) => ForkKeeps(t, a);
    case Exit(c) => ExitKeeps(t, c);
    case Wait(c) => WaitKeeps(t, c);
  }

  predicate Run(ts: seq<Table>, acts: seq<Action>) {
    && |ts| == |acts| + 1
    && (forall i :: 0 <= i < |acts| ==> Enabled(ts[i], acts[i]) && ts[i + 1] == Do(ts[i], acts[i]))
  }

  /** userinit's table: init in slot `i` is RUNNABLE with pid 1, everything else is unused, all CPUs idle. */
  predicate Booted(t: Table) {
    && t.init < |t.procs| && t.procs[t.init] == Proc(RUNNABLE, 1, NONE, NoChan, false, NONE) && t.nextpid == 2
    && t.exited == {} && t.reaped == []
    && (forall p :: 0 <= p < |t.procs| && p != t.init ==> t.procs[p].state == UNUSED && t.procs[p].parent == NONE)
    && (forall c :: 0 <= c < |t.cpus| ==> t.cpus[c] == NONE)
  }

  lemma BootedInv(t: Table)
    requires Booted(t)
    ensures Inv(t)
  {
    forall p | 0 <= p < |t.procs| ensures ParentOk(t, p) { }
  }

  lemma {:induction false} RunInv(ts: seq<Table>, acts: seq<Action>, k: nat)
    requires Run(ts, acts) && Booted(ts[0]) && k < |ts|
    ensures Inv(ts[k])
  {
    if k == 0 {
      BootedInv(ts[0]);
    } else {
      RunInv(ts, acts, k - 1);
      StepKeeps(ts[k - 1], acts[k - 1]);
    }
  }

  /** The table safety properties, in every state of every interleaving. */
  lemma TableSafety(ts: seq<Table>, acts: seq<Action>, k: nat, p: nat)
    requires Run(ts, acts) && Booted(ts[0]) && k < |ts| && p < |ts[k].procs|
    ensures var t := ts[k];
            && (t.procs[p].state == RUNNING <==> p in t.cpus)
            && (forall c, d :: 0 <= c < d < |t.cpus| && t.cpus[c] == p ==> t.cpus[d] != p)
            && ((Live(t.procs[p].state) || t.procs[p].state == ZOMBIE) && p != t.init ==> LiveSlot(t, t.procs[p].parent))
            && (t.procs[p].state == SLEEPING && t.procs[p].chan.OnProc? ==>
                  t.procs[p].chan.slot == p && !HasZombie(t.procs, p, |t.procs|))
  {
    RunInv(ts, acts, k);
    var t := ts[k];
    assert ParentOk(t, p);
    if p in t.cpus {
      var c :| 0 <= c < |t.cpus| && t.cpus[c] == p;
      assert Runs(t, c);
    }
  }

  /** Every pid that exited is a zombie's or was reaped, never twice, and never while its slot is in use. */
  lemma ReapedExactlyOnce(ts: seq<Table>, acts: seq<Action>, k: nat, pid: int)
    requires Run(ts, acts) && Booted(ts[0]) && k < |ts| && pid in ts[k].exited
    ensures var t := ts[k];
            && (pid in t.reaped <==> !exists p :: 0 <= p < |t.procs| && IsZombie(t, p, pid))
            && (forall i, j :: 0 <= i < j < |t.reaped| ==> t.reaped[i] != t.reaped[j])
  {
    RunInv(ts, acts, k);
  }

  /** A reaped pid belonged to a zombie whose parent was the process that called wait. */
  lemma ReapedByParent(t: Table, a: Action)
    requires Inv(t) && Enabled(t, a)
    ensures Do(t, a).reaped == t.reaped ||
            (a.Wait? && exists q :: 0 <= q < |t.procs| && ZombieChild(t.procs, t.cpus[a.c], q)
                                    && Do(t, a).reaped == t.reaped + [t.procs[q].pid]
                                    && Do(t, a).procs[q].state == UNUSED)
  {
    if a.Wait? {
      var p := t.cpus[a.c];
      var zombie := ZombieOf(p);
      var q := Find(t.procs, zombie);
      if q < |t.procs| {
        assert ZombieChild(t.procs, p, q);
      }
    }
  }
}
