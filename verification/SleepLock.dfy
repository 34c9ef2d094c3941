/**
 acquiresleep and releasesleep of one sleep-lock, interleaved over any number of processes down to the
 single spinlock operations of sleeplock.c and of sleep/wakeup in proc.c. Acquiring a spinlock is one
 atomic step, taken when it is free.
 */
module SleepLock {

  /** Where a process is. The comment says which spinlocks it holds there. */
  datatype Pc =
    | Outside          // none
    | AcqEnter         // none; about to acquire lk->lk
    | AcqTest          // lk->lk; about to test lk->locked
    | SleepLocking     // lk->lk; saw locked, about to acquire ptable.lock in sleep
    | SleepUnlocking   // both; about to release lk->lk
    | SleepMarking     // ptable.lock; about to set SLEEPING and switch away
    | Asleep           // none; SLEEPING on lk
    | Woken            // none; RUNNABLE, still inside sleep
    | Holding          // none; owns the sleep-lock
    | RelEnter         // none; about to acquire lk->lk
    | RelClear         // lk->lk; about to clear lk->locked
    | RelWaking        // lk->lk; cleared, about to acquire ptable.lock in wakeup
    | RelScan          // both; about to scan the table
    | RelLeave         // lk->lk; about to release it

  const NOBODY := -1
  /** Some process that is busy with other channels holds ptable.lock. */
  const ELSEWHERE := -2

  /** `spin` and `pt` are the holders of lk->lk and ptable.lock; `pid` is lk->pid (as a process index). */
  datatype State = State(pcs: seq<Pc>, locked: bool, pid: int, spin: int, pt: int)

  predicate HoldsSpin(pc: Pc) {
    pc == AcqTest || pc == SleepLocking || pc == SleepUnlocking || pc == RelClear || pc == RelWaking || pc == RelScan || pc == RelLeave
  }

  predicate HoldsPt(pc: Pc) {
    pc == SleepUnlocking || pc == SleepMarking || pc == RelScan
  }

  /** Between acquiresleep's assignment and releasesleep's. */
  predicate Owns(pc: Pc) {
    pc == Holding || pc == RelEnter || pc == RelClear
  }

  function WakeAll(pcs: seq<Pc>): (r: seq<Pc>)
    ensures |r| == |pcs|
  {
    seq(|pcs|, i requires 0 <= i < |pcs| => if pcs[i] == Asleep then Woken else pcs[i])
  }

  datatype Action = Step(p: nat) | Kill(p: nat) | TakePt | DropPt

  /** A process can take its next step unless it waits for a spinlock somebody holds, or sleeps. */
  predicate Enabled(s: State, a: Action) {
    match a
    case Step(p) =>
      && p < |s.pcs|
      && (match s.pcs[p]
          case AcqEnter => s.spin == NOBODY
          case RelEnter => s.spin == NOBODY
          case SleepLocking => s.pt == NOBODY
          case RelWaking => s.pt == NOBODY
          case Woken => s.pt == NOBODY  // scheduled, which takes ptable.lock for a moment
          case Asleep => false
          case _ => true)
    case Kill(p) => p < |s.pcs| && s.pcs[p] == Asleep && s.pt == NOBODY
    case TakePt => s.pt == NOBODY
    case DropPt => s.pt == ELSEWHERE
  }

  function Do(s: State, a: Action): State
    requires Enabled(s, a)
  {
    match a
    case Kill(p) => s.(pcs := s.pcs[p := Woken])
    case TakePt => s.(pt := ELSEWHERE)
    case DropPt => s.(pt := NOBODY)
    case Step(p) =>
      match s.pcs[p]
      case Outside => s.(pcs := s.pcs[p := AcqEnter])
      case AcqEnter => s.(pcs := s.pcs[p := AcqTest], spin := p)
      case AcqTest =>
        if s.locked then s.(pcs := s.pcs[p := SleepLocking])
        else s.(pcs := s.pcs[p := Holding], locked := true, pid := p, spin := NOBODY)
      case SleepLocking => s.(pcs := s.pcs[p := SleepUnlocking], pt := p)
      case SleepUnlocking => s.(pcs := s.pcs[p := SleepMarking], spin := NOBODY)
      case SleepMarking => s.(pcs := s.pcs[p := Asleep], pt := NOBODY)
      case Asleep => s
      case Woken => s.(pcs := s.pcs[p := AcqEnter])
      case Holding => s.(pcs := s.pcs[p := RelEnter])
      case RelEnter => s.(pcs := s.pcs[p := RelClear], spin := p)
      case RelClear => s.(pcs := s.pcs[p := RelWaking], locked := false, pid := NOBODY)
      case RelWaking => s.(pcs := s.pcs[p := RelScan], pt := p)
      case RelScan => s.(pcs := WakeAll(s.pcs[p := RelLeave]), pt := NOBODY)
      case RelLeave => s.(pcs := s.pcs[p := Outside], spin := NOBODY)
  }

  /** A process that has cleared the lock and not yet woken the sleepers. */
  predicate WakerAtWork(s: State) {
    0 <= s.spin < |s.pcs| && (s.pcs[s.spin] == RelWaking || s.pcs[s.spin] == RelScan)
  }

  ghost predicate Inv(s: State) {
    && (forall p :: 0 <= p < |s.pcs| ==> (HoldsSpin(s.pcs[p]) <==> s.spin == p))
    && (forall p :: 0 <= p < |s.pcs| ==> (HoldsPt(s.pcs[p]) <==> s.pt == p))
    && (forall p :: 0 <= p < |s.pcs| ==> (Owns(s.pcs[p]) <==> s.locked && s.pid == p))
    && (s.locked ==> 0 <= s.pid < |s.pcs|)
    && (s.spin == NOBODY || 0 <= s.spin < |s.pcs|)
    && (s.pt == NOBODY || s.pt == ELSEWHERE || 0 <= s.pt < |s.pcs|)
    && (forall p :: 0 <= p < |s.pcs| && (s.pcs[p] == SleepLocking || s.pcs[p] == SleepUnlocking) ==> s.locked)
    && (forall p :: 0 <= p < |s.pcs| && (s.pcs[p] == SleepMarking || s.pcs[p] == Asleep) ==> s.locked || WakerAtWork(s))
  }

  lemma EnvironmentKeeps(s: State, a: Action)
    requires Inv(s) && Enabled(s, a) && !a.Step?
    ensures Inv(Do(s, a))
  {
  }

  lemma AcquireKeeps(s: State, p: nat)
    requires Inv(s) && Enabled(s, Step(p))
    requires s.pcs[p] == Outside || s.pcs[p] == AcqEnter || s.pcs[p] == AcqTest || s.pcs[p] == Woken
    ensures Inv(Do(s, Step(p)))
  {
    if s.pcs[p] == AcqTest {
      TestKeeps(s, p);
    } else if s.pcs[p] == Outside {
      BeginKeeps(s, p);
    } else {
      EnterKeeps(s, p);
    }
  }

  lemma BeginKeeps(s: State, p: nat)
    requires Inv(s) && Enabled(s, Step(p)) && s.pcs[p] == Outside
    ensures Inv(Do(s, Step(p)))
  {
  }

  lemma EnterKeeps(s: State, p: nat)
    requires Inv(s) && Enabled(s, Step(p))
    requires s.pcs[p] == AcqEnter || s.pcs[p] == Woken
    ensures Inv(Do(s, Step(p)))
  {
  }

  lemma TestKeeps(s: State, p: nat)
    requires Inv(s) && Enabled(s, Step(p)) && s.pcs[p] == AcqTest
    ensures Inv(Do(s, Step(p)))
  {
  }

  lemma SleepKeeps(s: State, p: nat)
    requires Inv(s) && Enabled(s, Step(p))
    requires s.pcs[p] == SleepLocking || s.pcs[p] == SleepUnlocking || s.pcs[p] == SleepMarking
    ensures Inv(Do(s, Step(p)))
  {
  }

  lemma ReleaseKeeps(s: State, p: nat)
    requires Inv(s) && Enabled(s, Step(p))
    requires s.pcs[p] == Holding || s.pcs[p] == RelEnter || s.pcs[p] == RelClear
    ensures Inv(Do(s, Step(p)))
  {
  }

  lemma WakeKeeps(s: State, p: nat)
    requires Inv(s) && Enabled(s, Step(p))
    requires s.pcs[p] == RelWaking || s.pcs[p] == RelLeave
    ensures Inv(Do(s, Step(p)))
  {
  }

  /** The scan leaves nobody asleep, and nobody can be on the way to sleep while ptable.lock is held here. */
  lemma ScanKeeps(s: State, p: nat)
    requires Inv(s) && Enabled(s, Step(p)) && s.pcs[p] == RelScan
    ensures Inv(Do(s, Step(p)))
  {
    var t := Do(s, Step(p));
    assert forall q :: 0 <= q < |s.pcs| ==> t.pcs[q] != Asleep && (t.pcs[q] == Woken || q == p || t.pcs[q] == s.pcs[q]);
  }

  lemma StepKeeps(s: State, a: Action)
    requires Inv(s) && Enabled(s, a)
    ensures Inv(Do(s, a))
  {
    hide Inv, Do;
    if a.Step? {
      match s.pcs[a.p]
      case Outside => AcquireKeeps(s, a.p);
      case AcqEnter => AcquireKeeps(s, a.p);
      case AcqTest => AcquireKeeps(s, a.p);
      case Woken => AcquireKeeps(s, a.p);
      case SleepLocking => SleepKeeps(s, a.p);
      case SleepUnlocking => SleepKeeps(s, a.p);
      case SleepMarking => SleepKeeps(s, a.p);
      case Holding => ReleaseKeeps(s, a.p);
      case RelEnter => ReleaseKeeps(s, a.p);
      case RelClear => ReleaseKeeps(s, a.p);
      case RelWaking => WakeKeeps(s, a.p);
      case RelScan => ScanKeeps(s, a.p);
      case RelLeave => WakeKeeps(s, a.p);
    } else {
      EnvironmentKeeps(s, a);
    }
  }

  /** Every run from an unheld lock with everybody outside. */
  ghost predicate Run(ss: seq<State>, acts: seq<Action>) {
    && |ss| == |acts| + 1
    && (forall i :: 0 <= i < |ss[0].pcs| ==> ss[0].pcs[i] == Outside)
    && !ss[0].locked && ss[0].spin == NOBODY && ss[0].pt == NOBODY
    && (forall k :: 0 <= k < |acts| ==> Enabled(ss[k], acts[k]) && ss[k + 1] == Do(ss[k], acts[k]))
  }

  lemma {:induction false} RunInv(ss: seq<State>, acts: seq<Action>, k: nat)
    requires Run(ss, acts) && k < |ss|
    ensures Inv(ss[k])
  {
    if k > 0 {
      RunInv(ss, acts, k - 1);
      StepKeeps(ss[k - 1], acts[k - 1]);
    }
  }

  /**
   In every state of every run at most one process owns the lock, which is then marked with that process;
   holdingsleep tells a process that owns the lock from every other.
   */
  lemma MutualExclusion(ss: seq<State>, acts: seq<Action>, k: nat, p: nat, q: nat)
    requires Run(ss, acts) && k < |ss| && p < |ss[k].pcs| && q < |ss[k].pcs|
    ensures Owns(ss[k].pcs[p]) && Owns(ss[k].pcs[q]) ==> p == q
    ensures (ss[k].locked && ss[k].pid == p) <==> Owns(ss[k].pcs[p])
  {
    RunInv(ss, acts, k);
  }

  datatype Phase = Away | Acquiring | Owning | Releasing

  /** Outside acquiresleep and releasesleep, in acquiresleep, in possession of the lock, or done with it in releasesleep. */
  function PhaseOf(pc: Pc): Phase {
    match pc
    case Outside => Away
    case AcqEnter => Acquiring
    case AcqTest => Acquiring
    case SleepLocking => Acquiring
    case SleepUnlocking => Acquiring
    case SleepMarking => Acquiring
    case Asleep => Acquiring
    case Woken => Acquiring
    case Holding => Owning
    case RelEnter => Owning
    case RelClear => Owning
    case RelWaking => Releasing
    case RelScan => Releasing
    case RelLeave => Releasing
  }

  predicate Follows(x: Phase, y: Phase) {
    y == x || (x == Away && y == Acquiring) || (x == Acquiring && y == Owning) || (x == Owning && y == Releasing)
    || (x == Releasing && y == Away)
  }

  /** No step takes a process out of acquiresleep without the lock, or lets it go without waking the sleepers. */
  lemma PhaseStep(ss: seq<State>, acts: seq<Action>, k: nat, p: nat)
    requires Run(ss, acts) && k < |acts| && p < |ss[k].pcs|
    ensures |ss[k + 1].pcs| == |ss[k].pcs| && Follows(PhaseOf(ss[k].pcs[p]), PhaseOf(ss[k + 1].pcs[p]))
    ensures PhaseOf(ss[k].pcs[p]) == Acquiring && PhaseOf(ss[k + 1].pcs[p]) == Owning ==>
              !ss[k].locked && ss[k + 1].locked && ss[k + 1].pid == p
    ensures PhaseOf(ss[k].pcs[p]) == Owning && PhaseOf(ss[k + 1].pcs[p]) != Owning ==> !ss[k + 1].locked
  {
    RunInv(ss, acts, k);
    assert Enabled(ss[k], acts[k]) && ss[k + 1] == Do(ss[k], acts[k]);
  }

  /**
   In every run a process that has called acquiresleep stays in it, whoever kills or wakes it, until it owns the lock;
   so when the call returns the lock is its own.
   */
  lemma {:induction false} AcquiredBeforeReturn(ss: seq<State>, acts: seq<Action>, i: nat, j: nat, p: nat)
    requires Run(ss, acts) && i <= j < |ss| && p < |ss[i].pcs| && PhaseOf(ss[i].pcs[p]) == Acquiring
    requires forall k :: i <= k <= j && p < |ss[k].pcs| ==> !(ss[k].locked && ss[k].pid == p)
    ensures p < |ss[j].pcs| && PhaseOf(ss[j].pcs[p]) == Acquiring
    decreases j - i
  {
    if i < j {
      AcquiredBeforeReturn(ss, acts, i, j - 1, p);
      PhaseStep(ss, acts, j - 1, p);
    }
  }

  /**
   No wakeup is lost: whenever lk->lk is free, a process sleeping on the lock sleeps because another one
   owns it; and the scan of the owner that releases it makes every sleeper runnable.
   */
  lemma NoLostWakeup(ss: seq<State>, acts: seq<Action>, k: nat, p: nat)
    requires Run(ss, acts) && k < |ss| && p < |ss[k].pcs| && ss[k].pcs[p] == Asleep
    ensures ss[k].spin == NOBODY ==>
              ss[k].locked && 0 <= ss[k].pid < |ss[k].pcs| && Owns(ss[k].pcs[ss[k].pid]) && ss[k].pid != p
    ensures !ss[k].locked ==> WakerAtWork(ss[k])
    ensures k < |acts| && acts[k].Step? && ss[k].pcs[acts[k].p] == RelScan ==> ss[k + 1].pcs[p] == Woken
  {
    RunInv(ss, acts, k);
  }

  /**
   The two spinlocks cannot deadlock: a process that waits for lk->lk never holds ptable.lock, so whoever
   holds one of them can either step or waits only for ptable.lock, whose holder can step.
   */
  lemma HolderCanStep(ss: seq<State>, acts: seq<Action>, k: nat)
    requires Run(ss, acts) && k < |ss| && (ss[k].spin != NOBODY || ss[k].pt != NOBODY)
    ensures exists a: Action :: Enabled(ss[k], a) && (a == DropPt || (a.Step? && (a.p == ss[k].spin || a.p == ss[k].pt)))
  {
    RunInv(ss, acts, k);
    var s := ss[k];
    if s.pt == ELSEWHERE {
      assert Enabled(s, DropPt);
    } else if s.pt != NOBODY {
      assert Enabled(s, Step(s.pt));
    } else {
      assert Enabled(s, Step(s.spin));
    }
  }
}
