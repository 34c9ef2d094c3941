/**
 Every interleaving of readers, writers, kills and closes of one pipe, a section at a time. A process that
 is inside pipewrite or piperead keeps its end of the pipe open, because it holds a reference to the file.
 */
module PipeRuns {
  import opened PipeQueue

  datatype Proc =
    | Away
    | Writing(addr: seq<Byte>, from: nat)
    | WriteAsleep(addr: seq<Byte>, from: nat)
    | Reading(n: nat)
    | ReadAsleep(n: nat)

  datatype State = State(q: Queue, procs: seq<Proc>, killed: seq<bool>)

  /**
   Kill wakes a process it finds asleep. kill takes only ptable.lock, so it can also come between a process's test of
   its killed flag and its sleep, when it finds the process running; Mark sets the flag and wakes nobody.
   */
  datatype Action =
    | StartWrite(p: nat, addr: seq<Byte>)
    | StartRead(p: nat, n: nat)
    | Section(p: nat)
    | Kill(p: nat)
    | Mark(p: nat)
    | Close(writable: bool)

  predicate Writer(c: Proc) {
    c.Writing? || c.WriteAsleep?
  }

  predicate Reader(c: Proc) {
    c.Reading? || c.ReadAsleep?
  }

  function WokenReader(c: Proc): Proc {
    if c.ReadAsleep? then Reading(c.n) else c
  }

  function WokenWriter(c: Proc): Proc {
    if c.WriteAsleep? then Writing(c.addr, c.from) else c
  }

  /** wakeup(&p->nread) */
  function WakeReaders(procs: seq<Proc>): (r: seq<Proc>)
    ensures |r| == |procs|
  {
    seq(|procs|, i requires 0 <= i < |procs| => WokenReader(procs[i]))
  }

  /** wakeup(&p->nwrite) */
  function WakeWriters(procs: seq<Proc>): (r: seq<Proc>)
    ensures |r| == |procs|
  {
    seq(|procs|, i requires 0 <= i < |procs| => WokenWriter(procs[i]))
  }

  /** In range; every reachable state is, so the guard in Do never bites. */
  ghost predicate Sound(s: State) {
    && Fifo(s.q)
    && |s.killed| == |s.procs|
    && forall p :: 0 <= p < |s.procs| && Writer(s.procs[p]) ==> s.procs[p].from <= |s.procs[p].addr|
  }

  predicate Enabled(s: State, a: Action) {
    match a
    case StartWrite(p, addr) => p < |s.procs| && s.procs[p] == Away && s.q.writeopen
    case StartRead(p, n) => p < |s.procs| && s.procs[p] == Away && s.q.readopen
    case Section(p) => p < |s.procs| && (s.procs[p].Writing? || s.procs[p].Reading?)
    case Kill(p) => p < |s.procs| && p < |s.killed|
    case Mark(p) => p < |s.killed|
    case Close(writable) =>
      if writable then s.q.writeopen && forall p :: 0 <= p < |s.procs| ==> !Writer(s.procs[p])
      else s.q.readopen && forall p :: 0 <= p < |s.procs| ==> !Reader(s.procs[p])
  }

  /** The section of pipewrite that RingBuffer.WriteSection runs. */
  ghost function WriteStep(s: State, p: nat): State
    requires Sound(s) && p < |s.procs| && s.procs[p].Writing?
  {
    var c := s.procs[p];
    var n := |c.addr| - c.from;
    var done := c.from + WriteCount(s.q, n);
    var t := s.(q := Put(s.q, c.addr[c.from..done]));
    match WriteOutcome(s.q, n, s.killed[p])
    case Returned => t.(procs := WakeReaders(s.procs)[p := Away])
    case Failed => t.(procs := s.procs[p := Away])
    case Slept => t.(procs := WakeReaders(s.procs)[p := WriteAsleep(c.addr, done)])
  }

  /** The section of piperead that RingBuffer.ReadSection runs. */
  ghost function ReadStep(s: State, p: nat): State
    requires Sound(s) && p < |s.procs| && s.procs[p].Reading?
  {
    var n := s.procs[p].n;
    match ReadOutcome(s.q, s.killed[p])
    case Returned => s.(q := Take(s.q, ReadCount(s.q, n, s.killed[p])), procs := WakeWriters(s.procs)[p := Away])
    case Failed => s.(procs := s.procs[p := Away])
    case Slept => s.(procs := s.procs[p := ReadAsleep(n)])
  }

  ghost function Do(s: State, a: Action): State
    requires Enabled(s, a)
  {
    match a
    case StartWrite(p, addr) => s.(procs := s.procs[p := Writing(addr, 0)])
    case StartRead(p, n) => s.(procs := s.procs[p := Reading(n)])
    case Section(p) => if !Sound(s) then s else if s.procs[p].Writing? then WriteStep(s, p) else ReadStep(s, p)
    case Kill(p) => s.(killed := s.killed[p := true], procs := s.procs[p := WokenReader(WokenWriter(s.procs[p]))])
    case Mark(p) => s.(killed := s.killed[p := true])
    case Close(writable) =>
      if writable then s.(q := s.q.(writeopen := false), procs := WakeReaders(s.procs))
      else s.(q := s.q.(readopen := false), procs := WakeWriters(s.procs))
  }

  /** Holds in every reachable state: whoever is inside has its end open, and a sleeping writer faces a full pipe. */
  ghost predicate Inv(s: State) {
    && Sound(s)
    && (forall p :: 0 <= p < |s.procs| && Writer(s.procs[p]) ==> s.q.writeopen)
    && (forall p :: 0 <= p < |s.procs| && Reader(s.procs[p]) ==> s.q.readopen)
    && (forall p :: 0 <= p < |s.procs| && s.procs[p].WriteAsleep? ==> Waiting(s.q) == PIPESIZE && s.q.readopen)
  }

  /** A sleeping reader faces an empty pipe whose write end is open. */
  ghost predicate ReadersOk(s: State) {
    forall p :: 0 <= p < |s.procs| && s.procs[p].ReadAsleep? ==> Waiting(s.q) == 0 && s.q.writeopen
  }

  /** The one step that can break ReadersOk: a killed writer fills the pipe, gives up, and wakes nobody. */
  ghost predicate Abandons(s: State, a: Action)
    requires Sound(s) && Enabled(s, a)
  {
    && a.Section? && s.procs[a.p].Writing? && s.killed[a.p]
    && |s.procs[a.p].addr| - s.procs[a.p].from > PIPESIZE
    && exists r :: 0 <= r < |s.procs| && s.procs[r].ReadAsleep?
  }

  lemma WriteKeeps(s: State, p: nat)
    requires Inv(s) && p < |s.procs| && s.procs[p].Writing?
    ensures Inv(WriteStep(s, p)) && s.q.accepted <= WriteStep(s, p).q.accepted
  {
  }

  lemma ReadKeeps(s: State, p: nat)
    requires Inv(s) && p < |s.procs| && s.procs[p].Reading?
    ensures Inv(ReadStep(s, p)) && s.q.delivered <= ReadStep(s, p).q.delivered
  {
  }

  lemma StepKeeps(s: State, a: Action)
    requires Inv(s) && Enabled(s, a)
    ensures Inv(Do(s, a))
    ensures s.q.accepted <= Do(s, a).q.accepted && s.q.delivered <= Do(s, a).q.delivered
  {
    if a.Section? {
      if s.procs[a.p].Writing? {
        WriteKeeps(s, a.p);
      } else {
        ReadKeeps(s, a.p);
      }
    }
  }

  predicate Asleep(c: Proc) {
    c.ReadAsleep? || c.WriteAsleep?
  }

  /** Exactly when a step leaves a reader asleep that has something to read or nobody to wait for. */
  lemma ReadersOkExactly(s: State, a: Action)
    requires Inv(s) && ReadersOk(s) && Enabled(s, a)
    ensures ReadersOk(Do(s, a)) <==> !Abandons(s, a)
  {
    if Abandons(s, a) {
      var r :| 0 <= r < |s.procs| && s.procs[r].ReadAsleep?;
      assert Do(s, a).procs[r].ReadAsleep?;
    }
  }

  ghost predicate Run(ss: seq<State>, acts: seq<Action>) {
    && |ss| == |acts| + 1
    && ss[0].q == Queue([], [], true, true)
    && |ss[0].killed| == |ss[0].procs|
    && (forall p :: 0 <= p < |ss[0].procs| ==> ss[0].procs[p] == Away)
    && (forall k :: 0 <= k < |acts| ==> Enabled(ss[k], acts[k]) && ss[k + 1] == Do(ss[k], acts[k]))
  }

  lemma {:induction false} RunInv(ss: seq<State>, acts: seq<Action>, k: nat)
    requires Run(ss, acts) && k < |ss|
    ensures Inv(ss[k])
  {
    if k > 0 {
      RunInv(ss, acts, k - 1);
      StepKeeps(ss[k - 1], acts[k - 1]);
    }
  }

  /**
   In every state of every run the bytes delivered are a prefix of the bytes accepted, at most PIPESIZE are
   under way, a sleeping writer faces a full pipe with a reader's end open, and nobody is inside a freed pipe.
   */
  lemma FifoSafety(ss: seq<State>, acts: seq<Action>, k: nat, p: nat)
    requires Run(ss, acts) && k < |ss| && p < |ss[k].procs|
    ensures ss[k].q.delivered <= ss[k].q.accepted && 0 <= Waiting(ss[k].q) <= PIPESIZE
    ensures ss[k].procs[p].WriteAsleep? ==> |ss[k].q.accepted| - |ss[k].q.delivered| == 512 && ss[k].q.readopen
    ensures ss[k].procs[p] != Away ==> ss[k].q.readopen || ss[k].q.writeopen
  {
    RunInv(ss, acts, k);
  }

  /**
   Who falls asleep and who wakes up, at every step of every run. A process falls asleep only in its own section: a
   reader of an empty pipe whose write end is open, a writer that cannot put all its bytes while the read end is open,
   neither of them killed. A read that returns wakes every writer, a write that returns or goes to sleep every reader,
   the close of one end everybody asleep at the other, and a kill its process.
   */
  lemma SleepAndWake(ss: seq<State>, acts: seq<Action>, k: nat, p: nat)
    requires Run(ss, acts) && k < |acts| && p < |ss[k].procs|
    ensures var s, a, t := ss[k], acts[k], ss[k + 1];
            var room := 512 - (|s.q.accepted| - |s.q.delivered|);
            && |t.procs| == |s.procs| && |t.killed| == |s.killed| == |s.procs|
            && (Asleep(t.procs[p]) && !Asleep(s.procs[p]) ==> a == Section(p) && !s.killed[p])
            && (a == Section(p) && s.procs[p].Reading? ==>
                  (t.procs[p].ReadAsleep? <==> room == 512 && s.q.writeopen && !s.killed[p]))
            && (a == Section(p) && s.procs[p].Writing? ==>
                  (t.procs[p].WriteAsleep? <==> |s.procs[p].addr| - s.procs[p].from > room && s.q.readopen && !s.killed[p]))
            && (a.Section? && s.procs[a.p].Reading? && (room < 512 || !s.q.writeopen) ==> !t.procs[p].WriteAsleep?)
            && (a.Section? && s.procs[a.p].Writing? && |s.procs[a.p].addr| - s.procs[a.p].from <= room ==>
                  !t.procs[p].ReadAsleep?)
            && (a.Section? && s.procs[a.p].Writing? && t.procs[a.p].WriteAsleep? ==> !t.procs[p].ReadAsleep?)
            && (a == Close(true) ==> !t.procs[p].ReadAsleep? && !t.q.writeopen && t.q.readopen == s.q.readopen)
            && (a == Close(false) ==> !t.procs[p].WriteAsleep? && !t.q.readopen && t.q.writeopen == s.q.writeopen)
            && (a == Kill(p) ==> !Asleep(t.procs[p]) && t.killed[p])
            && (a == Mark(p) ==> t.procs[p] == s.procs[p] && t.killed[p])
  {
    RunInv(ss, acts, k);
  }

  /** How many bytes a section moves, at every step of every run: as many as there is room or something waiting for. */
  lemma SectionMoves(ss: seq<State>, acts: seq<Action>, k: nat)
    requires Run(ss, acts) && k < |acts|
    ensures var s, a, t := ss[k], acts[k], ss[k + 1];
            var waiting := |s.q.accepted| - |s.q.delivered|;
            && (!a.Section? ==> t.q.accepted == s.q.accepted && t.q.delivered == s.q.delivered)
            && (a.Section? && s.procs[a.p].Writing? ==>
                  var c := s.procs[a.p];
                  var m := if |c.addr| - c.from < 512 - waiting then |c.addr| - c.from else 512 - waiting;
                  && 0 <= m <= |c.addr| - c.from && t.q.delivered == s.q.delivered
                  && t.q.accepted == s.q.accepted + c.addr[c.from..c.from + m])
            && (a.Section? && s.procs[a.p].Reading? ==>
                  var m := if s.procs[a.p].n < waiting then s.procs[a.p].n else waiting;
                  && t.q.accepted == s.q.accepted
                  && |s.q.delivered| + m <= |s.q.accepted| && t.q.delivered == s.q.accepted[..|s.q.delivered| + m])
  {
    RunInv(ss, acts, k);
  }

  /** As long as no killed writer abandons a full pipe, no reader sleeps beside data or a closed write end. */
  lemma {:induction false} SleepingReaders(ss: seq<State>, acts: seq<Action>, k: nat)
    requires Run(ss, acts) && k < |ss|
    requires forall i :: 0 <= i < k ==> Sound(ss[i]) ==> !Abandons(ss[i], acts[i])
    ensures ReadersOk(ss[k])
  {
    if k > 0 {
      SleepingReaders(ss, acts, k - 1);
      RunInv(ss, acts, k - 1);
      ReadersOkExactly(ss[k - 1], acts[k - 1]);
    }
  }

  /** In particular when nobody is killed. */
  lemma {:induction false} NobodyKilled(ss: seq<State>, acts: seq<Action>, k: nat)
    requires Run(ss, acts) && k < |ss|
    requires forall p :: 0 <= p < |ss[0].killed| ==> !ss[0].killed[p]
    requires forall i :: 0 <= i < |acts| ==> !acts[i].Kill? && !acts[i].Mark?
    ensures ReadersOk(ss[k]) && ss[k].killed == ss[0].killed
  {
    if k > 0 {
      NobodyKilled(ss, acts, k - 1);
      RunInv(ss, acts, k - 1);
      ReadersOkExactly(ss[k - 1], acts[k - 1]);
    }
  }

  /** A run that loses the wakeup: process 0 sleeps in piperead while the pipe holds PIPESIZE bytes. */
  lemma WakeupCanBeLost(addr: seq<Byte>) returns (ss: seq<State>, acts: seq<Action>)
    requires |addr| > PIPESIZE
    ensures Run(ss, acts) && |acts| == 5
    ensures ss[5].procs == [ReadAsleep(1), Away] && ss[5].q.accepted == addr[..PIPESIZE] && ss[5].q.delivered == []
  {
    var s0 := State(Queue([], [], true, true), [Away, Away], [false, false]);
    var s1 := Do(s0, StartRead(0, 1));
    var s2 := Do(s1, Section(0));
    var s3 := Do(s2, StartWrite(1, addr));
    var s4 := Do(s3, Kill(1));
    var s5 := Do(s4, Section(1));
    ss := [s0, s1, s2, s3, s4, s5];
    acts := [StartRead(0, 1), Section(0), StartWrite(1, addr), Kill(1), Section(1)];
  }
}
