/**
 begin_op, log_write and end_op under every interleaving of any number of processes. Each step is one section
 under log.lock, except that log_write tests its guard before it takes the lock and that end_op commits without
 it; those are steps of their own. The log of this system has size LOGSIZE, as mkfs lays it out.
 */
module LogAdmission {
  import opened LogDevice
  import opened CrashLog
  import opened Sets

  /**
   Where a process is with respect to the log; `used` counts the blocks it has newly listed. Past log_write's
   guard, where it read `n` listed blocks, it has yet to list block `b`.
   */
  datatype Role =
    | Outside
    | Trying
    | Asleep
    | InOp(used: nat)
    | PastGuard(used: nat, b: int, n: nat)
    | Committing
    | Cleared

  datatype State = State(outstanding: int, committing: bool, blocks: seq<int>, roles: seq<Role>)

  datatype Action =
    | Enter(p: nat)
    | TryBegin(p: nat)
    | Check(p: nat, b: int)
    | Append(p: nat)
    | End(p: nat)
    | Clear(p: nat)
    | Finish(p: nat)
    | Wake(p: nat)

  function WakeAll(roles: seq<Role>): (r: seq<Role>)
    ensures |r| == |roles|
  {
    seq(|roles|, i requires 0 <= i < |roles| => if roles[i] == Asleep then Trying else roles[i])
  }

  predicate Enabled(s: State, a: Action) {
    && a.p < |s.roles|
    && match a
       case Enter(p) => s.roles[p] == Outside
       case TryBegin(p) => s.roles[p] == Trying
       // The panic of log_write halts the system. Its last read of lh.n decides, since lh.n does not fall meanwhile.
       case Check(p, b) => s.roles[p].InOp? && !LogWritePanics(|s.blocks|, s.outstanding, LOGSIZE)
       // An operation lists at most MAXOPBLOCKS new blocks.
       case Append(p) => s.roles[p].PastGuard? && (s.roles[p].b in s.blocks || s.roles[p].used < MAXOPBLOCKS)
       case End(p) => s.roles[p].InOp?
       case Clear(p) => s.roles[p] == Committing
       case Finish(p) => s.roles[p] == Cleared
       case Wake(p) => s.roles[p] == Asleep
  }

  function Do(s: State, a: Action): (t: State)
    requires Enabled(s, a)
  {
    match a
    case Enter(p) => s.(roles := s.roles[p := Trying])
    case TryBegin(p) =>
      if Admits(s.outstanding, s.committing, |s.blocks|)
      then s.(outstanding := s.outstanding + 1, roles := s.roles[p := InOp(0)])
      else s.(roles := s.roles[p := Asleep])
    case Check(p, b) => s.(roles := s.roles[p := PastGuard(s.roles[p].used, b, |s.blocks|)])
    case Append(p) =>
      var r := s.roles[p];
      s.(blocks := Absorb(s.blocks, r.b), roles := s.roles[p := InOp(if r.b in s.blocks then r.used else r.used + 1)])
    case End(p) =>
      (match EndResult(s.outstanding, s.committing)
       case CommittingPanic => s.(outstanding := s.outstanding - 1)
       case StartCommit => s.(outstanding := s.outstanding - 1, committing := true, roles := s.roles[p := Committing])
       case WakeSleepers => s.(outstanding := s.outstanding - 1, roles := WakeAll(s.roles[p := Outside])))
    case Clear(p) => s.(blocks := [], roles := s.roles[p := Cleared])
    case Finish(p) => s.(committing := false, roles := WakeAll(s.roles[p := Outside]))
    case Wake(p) => s.(roles := s.roles[p := Trying])
  }

  // ---------------------------------------------------------------- counting

  /** Between begin_op and end_op. */
  predicate Operating(r: Role) {
    r.InOp? || r.PastGuard?
  }

  function Slack(r: Role): int {
    if Operating(r) then MAXOPBLOCKS - r.used else 0
  }

  function Active(r: Role): int {
    if Operating(r) then 1 else 0
  }

  function Commits(r: Role): int {
    if r == Committing || r == Cleared then 1 else 0
  }

  function Sum(f: Role -> int, roles: seq<Role>): int {
    if roles == [] then 0 else Sum(f, roles[..|roles| - 1]) + f(roles[|roles| - 1])
  }

  lemma {:induction false} SumUpdate(f: Role -> int, roles: seq<Role>, p: nat, r: Role)
    requires p < |roles|
    ensures Sum(f, roles[p := r]) == Sum(f, roles) - f(roles[p]) + f(r)
    decreases |roles|
  {
    var n := |roles| - 1;
    if p == n {
      assert roles[p := r][..n] == roles[..n];
    } else {
      assert roles[p := r][..n] == roles[..n][p := r];
      SumUpdate(f, roles[..n], p, r);
    }
  }

  lemma {:induction false} SumWakeAll(f: Role -> int, roles: seq<Role>)
    requires f(Asleep) == f(Trying)
    ensures Sum(f, WakeAll(roles)) == Sum(f, roles)
    decreases |roles|
  {
    if roles != [] {
      var n := |roles| - 1;
      assert WakeAll(roles)[..n] == WakeAll(roles[..n]);
      SumWakeAll(f, roles[..n]);
    }
  }

  lemma {:induction false} SumBounds(f: Role -> int, roles: seq<Role>, p: nat)
    requires p < |roles|
    requires forall i :: 0 <= i < |roles| ==> f(roles[i]) >= 0
    ensures Sum(f, roles) >= f(roles[p])
    decreases |roles|
  {
    var n := |roles| - 1;
    if p < n {
      SumBounds(f, roles[..n], p);
    } else if n > 0 {
      SumBounds(f, roles[..n], 0);
    }
  }

  lemma {:induction false} SumPositive(f: Role -> int, roles: seq<Role>) returns (p: nat)
    requires Sum(f, roles) > 0
    ensures p < |roles| && f(roles[p]) > 0
    decreases |roles|
  {
    var n := |roles| - 1;
    if f(roles[n]) > 0 {
      p := n;
    } else {
      p := SumPositive(f, roles[..n]);
    }
  }

  lemma {:induction false} SumScaled(roles: seq<Role>)
    requires forall i :: 0 <= i < |roles| && Operating(roles[i]) ==> roles[i].used <= MAXOPBLOCKS
    ensures 0 <= Sum(Slack, roles) <= MAXOPBLOCKS * Sum(Active, roles)
    decreases |roles|
  {
    if roles != [] {
      SumScaled(roles[..|roles| - 1]);
    }
  }

  // ---------------------------------------------------------------- the invariant

  ghost predicate Inv(s: State) {
    && s.outstanding == Sum(Active, s.roles)
    && (if s.committing then 1 else 0) == Sum(Commits, s.roles)
    && (s.committing ==> s.outstanding == 0)
    && (forall i :: 0 <= i < |s.roles| && Operating(s.roles[i]) ==> s.roles[i].used <= MAXOPBLOCKS)
    && (forall i :: 0 <= i < |s.roles| && s.roles[i].PastGuard? ==> s.roles[i].n <= |s.blocks| && s.roles[i].n < LOGSIZE - 1)
    && (forall i, j :: 0 <= i < j < |s.blocks| ==> s.blocks[i] != s.blocks[j])
    && |s.blocks| + Sum(Slack, s.roles) <= LOGSIZE
    && (Committing !in s.roles && s.outstanding == 0 ==> s.blocks == [])
    && (Asleep in s.roles ==> s.committing || s.outstanding > 0)
  }

  predicate Initial(s: State) {
    s.outstanding == 0 && !s.committing && s.blocks == [] && forall i :: 0 <= i < |s.roles| ==> s.roles[i] == Outside
  }

  lemma {:induction false} SumZero(f: Role -> int, roles: seq<Role>)
    requires forall i :: 0 <= i < |roles| ==> f(roles[i]) == 0
    ensures Sum(f, roles) == 0
    decreases |roles|
  {
    if roles != [] {
      SumZero(f, roles[..|roles| - 1]);
    }
  }

  lemma InitialInv(s: State)
    requires Initial(s)
    ensures Inv(s)
  {
    SumZero(Active, s.roles);
    SumZero(Slack, s.roles);
    SumZero(Commits, s.roles);
  }

  lemma Updates(roles: seq<Role>, p: nat, r: Role)
    requires p < |roles|
    ensures Sum(Active, roles[p := r]) == Sum(Active, roles) - Active(roles[p]) + Active(r)
    ensures Sum(Slack, roles[p := r]) == Sum(Slack, roles) - Slack(roles[p]) + Slack(r)
    ensures Sum(Commits, roles[p := r]) == Sum(Commits, roles) - Commits(roles[p]) + Commits(r)
  {
    SumUpdate(Active, roles, p, r);
    SumUpdate(Slack, roles, p, r);
    SumUpdate(Commits, roles, p, r);
  }

  lemma WakeAllSums(roles: seq<Role>)
    ensures Sum(Active, WakeAll(roles)) == Sum(Active, roles)
    ensures Sum(Slack, WakeAll(roles)) == Sum(Slack, roles)
    ensures Sum(Commits, WakeAll(roles)) == Sum(Commits, roles)
    ensures Asleep !in WakeAll(roles)
    ensures forall x :: x in WakeAll(roles) && x != Trying ==> x in roles
  {
    SumWakeAll(Active, roles);
    SumWakeAll(Slack, roles);
    SumWakeAll(Commits, roles);
  }

  lemma UpdateMembers(roles: seq<Role>, p: nat, r: Role)
    requires p < |roles|
    ensures forall x :: x in roles && x != roles[p] ==> x in roles[p := r]
    ensures forall x :: x in roles[p := r] ==> x == r || x in roles
  {
    forall x | x in roles && x != roles[p] ensures x in roles[p := r] {
      var i :| 0 <= i < |roles| && roles[i] == x;
      assert roles[p := r][i] == x;
    }
  }

  lemma QuietSteps(s: State, a: Action)
    requires Inv(s) && Enabled(s, a) && (a.Enter? || a.Wake?)
    ensures Inv(Do(s, a))
  {
    Updates(s.roles, a.p, Trying);
    UpdateMembers(s.roles, a.p, Trying);
  }

  /** With no operation running and no commit under way the log is empty, so begin_op admits. */
  lemma EmptyLogAdmits(s: State)
    requires Inv(s) && !s.committing && s.outstanding == 0
    ensures s.blocks == [] && Admits(s.outstanding, s.committing, |s.blocks|)
  {
    if Committing in s.roles {
      var i :| 0 <= i < |s.roles| && s.roles[i] == Committing;
      SumBounds(Commits, s.roles, i);
    }
  }

  lemma AdmitKeeps(s: State, p: nat)
    requires Inv(s) && Enabled(s, TryBegin(p)) && Admits(s.outstanding, s.committing, |s.blocks|)
    ensures Inv(Do(s, TryBegin(p)))
  {
    Updates(s.roles, p, InOp(0));
    SumScaled(s.roles);
    UpdateMembers(s.roles, p, InOp(0));
  }

  lemma SleepKeeps(s: State, p: nat)
    requires Inv(s) && Enabled(s, TryBegin(p)) && !Admits(s.outstanding, s.committing, |s.blocks|)
    ensures Inv(Do(s, TryBegin(p)))
  {
    Updates(s.roles, p, Asleep);
    UpdateMembers(s.roles, p, Asleep);
    SumScaled(s.roles);
    if !s.committing && s.outstanding == 0 {
      EmptyLogAdmits(s);
    }
  }

  lemma TryBeginKeeps(s: State, p: nat)
    requires Inv(s) && Enabled(s, TryBegin(p))
    ensures Inv(Do(s, TryBegin(p)))
  {
    if Admits(s.outstanding, s.committing, |s.blocks|) {
      AdmitKeeps(s, p);
    } else {
      SleepKeeps(s, p);
    }
  }

  lemma CheckKeeps(s: State, p: nat, b: int)
    requires Inv(s) && Enabled(s, Check(p, b))
    ensures Inv(Do(s, Check(p, b)))
  {
    var r := PastGuard(s.roles[p].used, b, |s.blocks|);
    Updates(s.roles, p, r);
    UpdateMembers(s.roles, p, r);
  }

  /** The entry log_write stores to is inside lh.block, even for a block that is not listed yet. */
  lemma AppendKeeps(s: State, p: nat)
    requires Inv(s) && Enabled(s, Append(p))
    ensures Inv(Do(s, Append(p)))
    ensures s.roles[p].b !in s.blocks ==> |s.blocks| < LOGSIZE
  {
    var r := Do(s, Append(p)).roles[p];
    Updates(s.roles, p, r);
    UpdateMembers(s.roles, p, r);
    AbsorbKeepsDistinct(s.blocks, s.roles[p].b);
    SumBounds(Active, s.roles, p);
    SumBounds(Slack, s.roles, p);
  }

  lemma EndKeeps(s: State, p: nat)
    requires Inv(s) && Enabled(s, End(p))
    ensures EndResult(s.outstanding, s.committing) != CommittingPanic
    ensures Inv(Do(s, End(p)))
  {
    SumBounds(Active, s.roles, p);
    Updates(s.roles, p, Committing);
    Updates(s.roles, p, Outside);
    WakeAllSums(s.roles[p := Outside]);
    if EndResult(s.outstanding, s.committing) == StartCommit {
      assert s.roles[p := Committing][p] == Committing;
    }
  }

  lemma ClearKeeps(s: State, p: nat)
    requires Inv(s) && Enabled(s, Clear(p))
    ensures Inv(Do(s, Clear(p)))
  {
    Updates(s.roles, p, Cleared);
    SumScaled(s.roles);
    SumBounds(Commits, s.roles, p);
    NothingPending(s);
  }

  lemma FinishKeeps(s: State, p: nat)
    requires Inv(s) && Enabled(s, Finish(p))
    ensures Inv(Do(s, Finish(p)))
  {
    SumBounds(Commits, s.roles, p);
    Updates(s.roles, p, Outside);
    WakeAllSums(s.roles[p := Outside]);
    NoOtherCommitter(s.roles, p);
  }

  /** While one process is past clearing the log, no other one is committing. */
  lemma NoOtherCommitter(roles: seq<Role>, p: nat)
    requires p < |roles| && Commits(roles[p]) == 1 && Sum(Commits, roles) == 1
    ensures forall i :: 0 <= i < |roles| && i != p ==> Commits(roles[i]) == 0
  {
    Updates(roles, p, Outside);
    forall i | 0 <= i < |roles| && i != p ensures Commits(roles[i]) == 0 {
      SumBounds(Commits, roles[p := Outside], i);
    }
  }

  lemma StepKeeps(s: State, a: Action)
    requires Inv(s) && Enabled(s, a)
    ensures Inv(Do(s, a))
  {
    match a
    case Enter(p) => QuietSteps(s, a);
    case TryBegin(p) => TryBeginKeeps(s, p);
    case Check(p, b) => CheckKeeps(s, p, b);
    case Append(p) => AppendKeeps(s, p);
    case End(p) => EndKeeps(s, p);
    case Clear(p) => ClearKeeps(s, p);
    case Finish(p) => FinishKeeps(s, p);
    case Wake(p) => QuietSteps(s, a);
  }

  // ---------------------------------------------------------------- every run

  predicate Run(ss: seq<State>, acts: seq<Action>) {
    && |ss| == |acts| + 1
    && (forall i :: 0 <= i < |acts| ==> Enabled(ss[i], acts[i]) && ss[i + 1] == Do(ss[i], acts[i]))
  }

  lemma {:induction false} RunInv(ss: seq<State>, acts: seq<Action>, k: nat)
    requires Run(ss, acts) && Initial(ss[0]) && k < |ss|
    ensures Inv(ss[k])
  {
    if k == 0 {
      InitialInv(ss[0]);
    } else {
      RunInv(ss, acts, k - 1);
      StepKeeps(ss[k - 1], acts[k - 1]);
    }
  }

  /**
   In every state of every interleaving: listed blocks plus the unused part of every reservation are at most
   LOGSIZE, the list has no duplicates, a commit runs alone, end_op does not panic, and log_write stores within
   the header's array.
   */
  lemma AdmissionSafety(ss: seq<State>, acts: seq<Action>, k: nat)
    requires Run(ss, acts) && Initial(ss[0]) && k < |ss|
    ensures |ss[k].blocks| + Sum(Slack, ss[k].roles) <= LOGSIZE
    ensures |ss[k].blocks| <= LOGSIZE
    ensures forall i, j :: 0 <= i < j < |ss[k].blocks| ==> ss[k].blocks[i] != ss[k].blocks[j]
    ensures ss[k].committing ==> ss[k].outstanding == 0
    ensures forall p :: 0 <= p < |ss[k].roles| && Operating(ss[k].roles[p]) ==>
              EndResult(ss[k].outstanding, ss[k].committing) != CommittingPanic
    ensures forall p :: 0 <= p < |ss[k].roles| && Enabled(ss[k], Append(p)) ==>
              ss[k].roles[p].b in ss[k].blocks || |ss[k].blocks| < LOGSIZE
  {
    var s := ss[k];
    RunInv(ss, acts, k);
    SumScaled(s.roles);
    forall p | 0 <= p < |s.roles| && Operating(s.roles[p])
      ensures EndResult(s.outstanding, s.committing) != CommittingPanic
    {
      SumBounds(Active, s.roles, p);
    }
    forall p | 0 <= p < |s.roles| && Enabled(s, Append(p))
      ensures s.roles[p].b in s.blocks || |s.blocks| < LOGSIZE
    {
      AppendKeeps(s, p);
    }
  }

  /** The processes between begin_op and end_op. */
  ghost function Members(roles: seq<Role>): set<nat> {
    set p: nat | p < |roles| && (roles[p].InOp? || roles[p].PastGuard?)
  }

  lemma {:induction false} MembersCounted(roles: seq<Role>)
    ensures |Members(roles)| == Sum(Active, roles)
    decreases |roles|
  {
    if roles == [] {
      assert Members(roles) == {};
    } else {
      var n := |roles| - 1;
      MembersCounted(roles[..n]);
      assert Members(roles) == Members(roles[..n]) + if Operating(roles[n]) then {n} else {};
    }
  }

  /**
   In every state of every run a turn of begin_op goes to sleep if and only if a commit is under way or the blocks
   listed, with ten for every operation under way and ten for this one, are more than thirty; else it takes part. Nobody
   else is affected.
   */
  lemma BeginExactly(ss: seq<State>, acts: seq<Action>, k: nat, p: nat)
    requires Run(ss, acts) && Initial(ss[0]) && k < |ss| && p < |ss[k].roles| && ss[k].roles[p] == Trying
    ensures Enabled(ss[k], TryBegin(p))
    ensures var s, t := ss[k], Do(ss[k], TryBegin(p));
            var full := (exists q :: 0 <= q < |s.roles| && (s.roles[q] == Committing || s.roles[q] == Cleared))
                        || |s.blocks| + 10 * (|Members(s.roles)| + 1) > 30;
            && t.roles == s.roles[p := if full then Asleep else InOp(0)] && t.blocks == s.blocks
            && Members(t.roles) == Members(s.roles) + if full then {} else {p}
  {
    var s := ss[k];
    RunInv(ss, acts, k);
    MembersCounted(s.roles);
    if q: nat :| q < |s.roles| && (s.roles[q] == Committing || s.roles[q] == Cleared) {
      SumBounds(Commits, s.roles, q);
    } else if s.committing {
      var q := SumPositive(Commits, s.roles);
    }
  }

  /**
   The end of an operation: the last one out commits, any other leaves and wakes exactly those asleep in begin_op. The
   same wakeup follows the commit.
   */
  lemma EndExactly(ss: seq<State>, acts: seq<Action>, k: nat, p: nat)
    requires Run(ss, acts) && Initial(ss[0]) && k < |ss| && p < |ss[k].roles|
    ensures ss[k].roles[p].InOp? ==>
              && Enabled(ss[k], End(p)) && Do(ss[k], End(p)).blocks == ss[k].blocks
              && |Do(ss[k], End(p)).roles| == |ss[k].roles|
              && (forall q :: 0 <= q < |ss[k].roles| ==>
                    Do(ss[k], End(p)).roles[q] ==
                    if q == p then (if Members(ss[k].roles) == {p} then Committing else Outside)
                    else if Members(ss[k].roles) != {p} && ss[k].roles[q] == Asleep then Trying
                    else ss[k].roles[q])
    ensures ss[k].roles[p] == Cleared ==>
              && Enabled(ss[k], Finish(p)) && |Do(ss[k], Finish(p)).roles| == |ss[k].roles|
              && (forall q :: 0 <= q < |ss[k].roles| ==>
                    Do(ss[k], Finish(p)).roles[q] ==
                    if q == p then Outside else if ss[k].roles[q] == Asleep then Trying else ss[k].roles[q])
  {
    var s := ss[k];
    RunInv(ss, acts, k);
    if s.roles[p].InOp? {
      EndKeeps(s, p);
      MembersCounted(s.roles);
      assert p in Members(s.roles);
      if |Members(s.roles)| == 1 {
        assert |Members(s.roles) - {p}| == 0;
        assert Members(s.roles) == {p};
      }
    }
  }

  /**
   No process sleeps in begin_op for nobody: some operation or commit is under way, and when the last such
   operation ends and its commit finishes, or any other operation ends, every sleeper is awake again.
   */
  lemma SleepersAreWoken(ss: seq<State>, acts: seq<Action>, k: nat)
    requires Run(ss, acts) && Initial(ss[0]) && k < |ss| && Asleep in ss[k].roles
    ensures exists p :: 0 <= p < |ss[k].roles| && (Operating(ss[k].roles[p]) || Commits(ss[k].roles[p]) == 1)
    ensures forall p :: 0 <= p < |ss[k].roles| && ss[k].roles[p].InOp? ==>
              var t := Do(ss[k], End(p));
              Asleep !in t.roles || (p < |t.roles| && t.roles[p] == Committing)
    ensures forall p :: 0 <= p < |ss[k].roles| && ss[k].roles[p] == Cleared ==>
              Asleep !in Do(ss[k], Finish(p)).roles
  {
    var s := ss[k];
    RunInv(ss, acts, k);
    if s.committing {
      var p := SumPositive(Commits, s.roles);
    } else {
      var p := SumPositive(Active, s.roles);
    }
    forall p | 0 <= p < |s.roles| && s.roles[p].InOp?
      ensures Asleep !in Do(s, End(p)).roles || Do(s, End(p)).roles[p] == Committing
    {
      EndKeeps(s, p);
      WakeAllSums(s.roles[p := Outside]);
    }
    forall p | 0 <= p < |s.roles| && s.roles[p] == Cleared
      ensures Asleep !in Do(s, Finish(p)).roles
    {
      WakeAllSums(s.roles[p := Outside]);
    }
  }

  // ---------------------------------------------------------------- log_write's panic

  /**
   The guard stops one block short of the log: an operation that has not used up its reservation runs into "too
   big a transaction" exactly when the number of listed blocks it reads has reached LOGSIZE - 1.
   */
  lemma ReservedWritePanicsExactly(ss: seq<State>, acts: seq<Action>, k: nat, p: nat, b: int)
    requires Run(ss, acts) && Initial(ss[0]) && k < |ss|
    requires p < |ss[k].roles| && ss[k].roles[p].InOp?
    ensures LogWritePanics(|ss[k].blocks|, ss[k].outstanding, LOGSIZE) <==> |ss[k].blocks| >= LOGSIZE - 1
    ensures Enabled(ss[k], Check(p, b)) <==> |ss[k].blocks| < LOGSIZE - 1
  {
    RunInv(ss, acts, k);
    SumBounds(Active, ss[k].roles, p);
  }

  // ---------------------------------------------------------------- overrunning the log area

  /** The blocks that processes past the guard are about to list. */
  ghost function Claims(roles: seq<Role>): set<int> {
    set p | 0 <= p < |roles| && roles[p].PastGuard? :: roles[p].b
  }

  /** Listed already or about to be. */
  ghost function Claimed(s: State): set<int> {
    (set b | b in s.blocks) + Claims(s.roles)
  }

  /** Passing the guard claims a block; listing it, and every other step but the end of a commit, changes no claim. */
  lemma ClaimedStep(s: State, a: Action)
    requires Inv(s) && Enabled(s, a) && !a.Clear?
    ensures Claimed(Do(s, a)) == if a.Check? then Claimed(s) + {a.b} else Claimed(s)
  {
    var t := Do(s, a);
    if a.End? {
      EndKeeps(s, a.p);
    }
    forall p | 0 <= p < |s.roles| && p != a.p
      ensures t.roles[p].PastGuard? <==> s.roles[p].PastGuard?
      ensures s.roles[p].PastGuard? ==> t.roles[p] == s.roles[p]
    {
    }
    forall x | x in Claims(s.roles)
      ensures x in Claims(t.roles) || (a.Append? && x == s.roles[a.p].b)
    {
      var p :| 0 <= p < |s.roles| && s.roles[p].PastGuard? && s.roles[p].b == x;
      assert p != a.p ==> t.roles[p].PastGuard? && t.roles[p].b == x;
    }
    forall x | x in Claims(t.roles)
      ensures x in Claims(s.roles) || (a.Check? && x == a.b)
    {
      var p :| 0 <= p < |t.roles| && t.roles[p].PastGuard? && t.roles[p].b == x;
      assert p != a.p ==> s.roles[p].PastGuard? && s.roles[p].b == x;
    }
    if a.Check? {
      assert t.roles[a.p].PastGuard? && t.roles[a.p].b == a.b;
    }
  }

  lemma {:induction false} ClaimedGrows(ss: seq<State>, acts: seq<Action>, i: nat, j: nat)
    requires Run(ss, acts) && Initial(ss[0]) && i <= j < |ss|
    requires forall k :: i <= k < j ==> !acts[k].Clear?
    ensures Claimed(ss[i]) <= Claimed(ss[j])
    decreases j - i
  {
    if i < j {
      ClaimedGrows(ss, acts, i, j - 1);
      RunInv(ss, acts, j - 1);
      ClaimedStep(ss[j - 1], acts[j - 1]);
    }
  }

  /** With no operation running nothing is pending, so what is claimed is what is listed. */
  lemma NothingPending(s: State)
    requires Inv(s) && s.outstanding == 0
    ensures forall p :: 0 <= p < |s.roles| ==> !s.roles[p].PastGuard?
    ensures Claims(s.roles) == {} && |Claimed(s)| == |s.blocks|
  {
    forall p | 0 <= p < |s.roles| && s.roles[p].PastGuard?
      ensures false
    {
      SumScaled(s.roles);
      SumBounds(Active, s.roles, p);
    }
    assert Claimed(s) == set b | b in s.blocks;
    ListSize(s.blocks);
  }

  /**
   Exactly when a transaction overruns the log area, which has room for LOGSIZE - 1 blocks. Take any stretch of a
   run that lies within one transaction and ends when its last operation has ended. Then LOGSIZE blocks are
   listed if and only if at some moment of it the blocks listed and those claimed by processes past the guard
   came to LOGSIZE.
   */
  lemma OverrunExactly(ss: seq<State>, acts: seq<Action>, i: nat, j: nat)
    requires Run(ss, acts) && Initial(ss[0]) && i <= j < |ss| && ss[j].outstanding == 0
    requires forall k :: i <= k < j ==> !acts[k].Clear?
    ensures |ss[j].blocks| >= LOGSIZE <==> exists k :: i <= k <= j && |Claimed(ss[k])| >= LOGSIZE
  {
    RunInv(ss, acts, j);
    NothingPending(ss[j]);
    forall k | i <= k <= j
      ensures |Claimed(ss[k])| <= |Claimed(ss[j])|
    {
      ClaimedGrows(ss, acts, k, j);
      SubsetSize(Claimed(ss[k]), Claimed(ss[j]));
    }
  }

  /** The same for one passage of the guard: it brings the claims to LOGSIZE if and only if this one block does. */
  lemma CheckOverrunsExactly(s: State, p: nat, b: int)
    requires Inv(s) && Enabled(s, Check(p, b)) && |Claimed(s)| < LOGSIZE
    ensures |Claimed(Do(s, Check(p, b)))| >= LOGSIZE <==> b !in Claimed(s) && |Claimed(s)| == LOGSIZE - 1
  {
    ClaimedStep(s, Check(p, b));
  }

  // ---------------------------------------------------------------- runs that show it

  function Numbers(n: nat): (r: seq<int>)
    ensures |r| == n
  {
    seq(n, i => i)
  }

  lemma Extend(ss: seq<State>, acts: seq<Action>, a: Action) returns (ss': seq<State>, acts': seq<Action>)
    requires Run(ss, acts) && Enabled(ss[|acts|], a)
    ensures Run(ss', acts') && ss'[0] == ss[0] && ss'[|acts'|] == Do(ss[|acts|], a)
  {
    ss', acts' := ss + [Do(ss[|acts|], a)], acts + [a];
  }

  lemma {:induction false} LogMany(ss: seq<State>, acts: seq<Action>, p: nat, k: nat)
    returns (ss': seq<State>, acts': seq<Action>)
    requires Run(ss, acts)
    requires var s := ss[|acts|];
             && p < |s.roles| && s.roles[p].InOp? && s.roles[p].used + k <= MAXOPBLOCKS
             && s.outstanding >= 1 && |s.blocks| + k < LOGSIZE && s.blocks == Numbers(|s.blocks|)
    ensures Run(ss', acts') && ss'[0] == ss[0]
    ensures var s := ss[|acts|];
            ss'[|acts'|] == s.(blocks := Numbers(|s.blocks| + k), roles := s.roles[p := InOp(s.roles[p].used + k)])
    decreases k
  {
    var s := ss[|acts|];
    if k == 0 {
      ss', acts' := ss, acts;
      assert s.roles[p := InOp(s.roles[p].used)] == s.roles;
    } else {
      var n := |s.blocks|;
      assert n !in s.blocks;
      assert Numbers(n) + [n] == Numbers(n + 1);
      ss', acts' := Extend(ss, acts, Check(p, n));
      ss', acts' := Extend(ss', acts', Append(p));
      ss', acts' := LogMany(ss', acts', p, k - 1);
    }
  }

  lemma BeginOne(ss: seq<State>, acts: seq<Action>, p: nat) returns (ss': seq<State>, acts': seq<Action>)
    requires Run(ss, acts)
    requires var s := ss[|acts|];
             p < |s.roles| && s.roles[p] == Outside && Admits(s.outstanding, s.committing, |s.blocks|)
    ensures Run(ss', acts') && ss'[0] == ss[0]
    ensures var s := ss[|acts|];
            ss'[|acts'|] == s.(outstanding := s.outstanding + 1, roles := s.roles[p := InOp(0)])
  {
    ss', acts' := Extend(ss, acts, Enter(p));
    ss', acts' := Extend(ss', acts', TryBegin(p));
  }

  /** Three operations that have listed 10, a and b blocks. */
  lemma ThreeOperations(a: nat, b: nat) returns (ss: seq<State>, acts: seq<Action>)
    requires a <= MAXOPBLOCKS && b <= MAXOPBLOCKS && a + b < 20
    ensures Run(ss, acts) && Initial(ss[0])
    ensures ss[|acts|] == State(3, false, Numbers(10 + a + b), [InOp(10), InOp(a), InOp(b)])
  {
    ss, acts := [State(0, false, [], [Outside, Outside, Outside])], [];
    ss, acts := BeginOne(ss, acts, 0);
    ss, acts := BeginOne(ss, acts, 1);
    ss, acts := BeginOne(ss, acts, 2);
    ss, acts := LogMany(ss, acts, 0, 10);
    ss, acts := LogMany(ss, acts, 1, a);
    ss, acts := LogMany(ss, acts, 2, b);
  }

  /** A run of three operations in which the third, one block short of its reservation, meets the panic. */
  lemma ReservedWriteCanPanic() returns (ss: seq<State>, acts: seq<Action>)
    ensures Run(ss, acts) && Initial(ss[0])
    ensures var s := ss[|acts|];
            && |s.roles| == 3 && s.roles[2].InOp? && s.roles[2].used < MAXOPBLOCKS
            && LogWritePanics(|s.blocks|, s.outstanding, LOGSIZE)
  {
    ss, acts := ThreeOperations(10, 9);
  }

  /** A run in which two operations pass the guard before either lists its block, and LOGSIZE blocks are listed. */
  lemma LogCanOverrun() returns (ss: seq<State>, acts: seq<Action>)
    ensures Run(ss, acts) && Initial(ss[0])
    ensures var s := ss[|acts|];
            |s.blocks| == LOGSIZE && s.roles == [InOp(MAXOPBLOCKS), InOp(MAXOPBLOCKS), InOp(MAXOPBLOCKS)]
  {
    ss, acts := ThreeOperations(9, 9);
    ss, acts := Extend(ss, acts, Check(1, 28));
    ss, acts := Extend(ss, acts, Check(2, 29));
    ss, acts := Extend(ss, acts, Append(1));
    ss, acts := Extend(ss, acts, Append(2));
  }
}
