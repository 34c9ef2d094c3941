/**
 The disk drivers. memide.c copies a block at once; ide.c queues the buffer, starts one command at a time
 and finishes a request in the interrupt handler. Buffers are locked by their users throughout a request.
 */
module DiskQueue {
  import CrashLog

  type Block = CrashLog.Block
  type Disk = CrashLog.Disk

  const NIL := -1
  const ROOTDEV := 1

  datatype Option<T> = None | Some(value: T)

  datatype Buf = Buf(valid: bool, dirty: bool, dev: nat, blockno: nat, data: Block)

  /** What idestart hands to the controller: the block number and, for a write, the data. */
  datatype Cmd = Cmd(write: bool, blockno: nat, data: Block)

  /** What iderw demands: work to do, on a block of the root disk. Anything else panics. */
  predicate Requestable(b: Buf, d: Disk) {
    !(b.valid && !b.dirty) && b.dev == ROOTDEV && b.blockno < |d|
  }

  function Synced(b: Buf, d: Disk): Buf
    requires b.blockno < |d|
  {
    b.(valid := true, dirty := false, data := if b.dirty then b.data else d[b.blockno])
  }

  function SyncedDisk(b: Buf, d: Disk): Disk
    requires b.blockno < |d|
  {
    if b.dirty then d[b.blockno := b.data] else d
  }

  class RamDisk {
    var bufs: seq<Buf>
    var disk: Disk

    constructor (bufs: seq<Buf>, disk: Disk)
      ensures this.bufs == bufs && this.disk == disk
    {
      this.bufs, this.disk := bufs, disk;
    }

    method Iderw(b: nat)
      requires b < |bufs| && Requestable(bufs[b], disk)
      modifies this
      ensures bufs == old(bufs)[b := Synced(old(bufs[b]), old(disk))]
      ensures disk == SyncedDisk(old(bufs[b]), old(disk))
      ensures bufs[b].valid && !bufs[b].dirty && bufs[b].data == disk[bufs[b].blockno]
      ensures old(bufs[b].dirty) ==> bufs[b].data == old(bufs[b].data)
      ensures !old(bufs[b].dirty) ==> disk == old(disk)
      ensures forall x :: 0 <= x < |disk| && x != old(bufs[b].blockno) ==> disk[x] == old(disk)[x]
    {
      var p := bufs[b].blockno;
      if bufs[b].dirty {
        bufs := bufs[b := bufs[b].(dirty := false)];
        disk := disk[p := bufs[b].data];
      } else {
        bufs := bufs[b := bufs[b].(data := disk[p])];
      }
      bufs := bufs[b := bufs[b].(valid := true)];
    }
  }

  // ---------------------------------------------------------------- the queue machine

  /** busy: the buffers whose iderw has been called and has not returned. */
  datatype State = State(bufs: seq<Buf>, disk: Disk, queue: seq<nat>, cmd: Option<Cmd>, busy: set<nat>)

  datatype Action = Request(b: nat) | Interrupt | Return(b: nat) | Edit(b: nat, buf: Buf)

  function CmdFor(b: Buf): Cmd {
    Cmd(b.dirty, b.blockno, b.data)
  }

  function Started(bufs: seq<Buf>, queue: seq<nat>): Option<Cmd>
    requires forall k :: 0 <= k < |queue| ==> queue[k] < |bufs|
  {
    if queue == [] then None else Some(CmdFor(bufs[queue[0]]))
  }

  ghost predicate Inv(s: State) {
    && (forall k :: 0 <= k < |s.queue| ==> s.queue[k] < |s.bufs| && s.queue[k] in s.busy && Requestable(s.bufs[s.queue[k]], s.disk))
    && (forall i, j :: 0 <= i < j < |s.queue| ==> s.queue[i] != s.queue[j])
    && (forall b :: b in s.busy ==> b < |s.bufs|)
    && (forall b :: b in s.busy && b !in s.queue ==> s.bufs[b].valid && !s.bufs[b].dirty)
    && s.cmd == Started(s.bufs, s.queue)
  }

  /** A process edits only a buffer it has locked, so none that a caller of iderw waits for. */
  predicate Enabled(s: State, a: Action) {
    match a
    case Request(b) => b < |s.bufs| && b !in s.busy && Requestable(s.bufs[b], s.disk)
    case Interrupt => true
    case Return(b) => b in s.busy && b < |s.bufs| && s.bufs[b].valid && !s.bufs[b].dirty
    case Edit(b, _) => b < |s.bufs| && b !in s.busy
  }

  /** A command is under way and its numbers are in range. */
  predicate Pending(s: State) {
    && s.queue != [] && s.cmd.Some? && s.cmd.value.blockno < |s.disk|
    && forall k :: 0 <= k < |s.queue| ==> s.queue[k] < |s.bufs|
  }

  /** The handler: the controller carries out the command it was given, then the next one is started. */
  function Served(s: State): State
    requires Pending(s)
  {
    var b, c := s.queue[0], s.cmd.value;
    var data := if s.bufs[b].dirty then s.bufs[b].data else s.disk[c.blockno];
    var bufs := s.bufs[b := s.bufs[b].(valid := true, dirty := false, data := data)];
    State(bufs, if c.write then s.disk[c.blockno := c.data] else s.disk, s.queue[1..], Started(bufs, s.queue[1..]), s.busy)
  }

  function Do(s: State, a: Action): State
    requires Enabled(s, a)
  {
    match a
    case Request(b) =>
      var queue := s.queue + [b];
      s.(queue := queue, busy := s.busy + {b}, cmd := if queue[0] == b then Some(CmdFor(s.bufs[b])) else s.cmd)
    case Interrupt => if Pending(s) then Served(s) else s
    case Return(b) => s.(busy := s.busy - {b})
    case Edit(b, buf) => s.(bufs := s.bufs[b := buf])
  }

  lemma NotQueued(s: State, b: nat)
    requires Inv(s) && b !in s.busy
    ensures b !in s.queue
  {
  }

  lemma RequestKeeps(s: State, b: nat)
    requires Inv(s) && Enabled(s, Request(b))
    ensures Inv(Do(s, Request(b)))
  {
    var t := Do(s, Request(b));
    assert b !in s.queue;
    assert t.queue[|s.queue|] == b && forall k :: 0 <= k < |s.queue| ==> t.queue[k] == s.queue[k];
    assert forall c :: c in s.queue ==> c in t.queue;
  }

  lemma ServeKeeps(s: State)
    requires Inv(s) && s.queue != []
    ensures Inv(Served(s))
  {
    var t := Served(s);
    assert forall k :: 0 <= k < |t.queue| ==> t.queue[k] == s.queue[k + 1];
    forall c | c in s.queue && c != s.queue[0]
      ensures c in t.queue
    {
      var k :| 0 <= k < |s.queue| && s.queue[k] == c;
      assert t.queue[k - 1] == c;
    }
  }

  lemma EditKeeps(s: State, b: nat, buf: Buf)
    requires Inv(s) && Enabled(s, Edit(b, buf))
    ensures Inv(Do(s, Edit(b, buf)))
  {
    assert b !in s.queue;
  }

  /** A caller's wait loop can end exactly when its request has been served. */
  lemma DoneExactly(s: State, b: nat)
    requires Inv(s) && b in s.busy
    ensures b < |s.bufs| && (b in s.queue <==> !(s.bufs[b].valid && !s.bufs[b].dirty))
  {
    if b in s.queue {
      var k :| 0 <= k < |s.queue| && s.queue[k] == b;
      assert Requestable(s.bufs[s.queue[k]], s.disk);
    }
  }

  lemma ReturnKeeps(s: State, b: nat)
    requires Inv(s) && Enabled(s, Return(b))
    ensures Inv(Do(s, Return(b)))
  {
    DoneExactly(s, b);
  }

  lemma HeadPending(s: State)
    requires Inv(s) && s.queue != []
    ensures Pending(s)
  {
  }

  lemma StepKeeps(s: State, a: Action)
    requires Inv(s) && Enabled(s, a)
    ensures Inv(Do(s, a)) && |Do(s, a).bufs| == |s.bufs| && |Do(s, a).disk| == |s.disk|
  {
    hide Inv;
    match a
    case Request(b) => RequestKeeps(s, b);
    case Interrupt => if s.queue != [] { ServeKeeps(s); HeadPending(s); }
    case Return(b) => ReturnKeeps(s, b);
    case Edit(b, buf) => EditKeeps(s, b, buf);
  }

  /** Every step of the queue machine is a step of the RAM disk, served at the interrupt, or changes no block. */
  lemma StepRefines(s: State, a: Action)
    requires Inv(s) && Enabled(s, a)
    ensures a == Interrupt && s.queue != [] ==>
              var b := s.queue[0];
              && b < |s.bufs| && Requestable(s.bufs[b], s.disk)
              && Do(s, a).bufs == s.bufs[b := Synced(s.bufs[b], s.disk)]
              && Do(s, a).disk == SyncedDisk(s.bufs[b], s.disk)
    ensures a.Request? || a.Return? || (a == Interrupt && s.queue == []) ==> Do(s, a).bufs == s.bufs && Do(s, a).disk == s.disk
    ensures a.Edit? ==> Do(s, a).disk == s.disk
  {
  }

  ghost predicate Run(ss: seq<State>, acts: seq<Action>) {
    && |ss| == |acts| + 1
    && ss[0].queue == [] && ss[0].busy == {} && ss[0].cmd == None
    && (forall k :: 0 <= k < |acts| ==> Enabled(ss[k], acts[k]) && ss[k + 1] == Do(ss[k], acts[k]))
  }

  lemma {:induction false} RunInv(ss: seq<State>, acts: seq<Action>, k: nat)
    requires Run(ss, acts) && k < |ss|
    ensures Inv(ss[k]) && |ss[k].bufs| == |ss[0].bufs| && |ss[k].disk| == |ss[0].disk|
  {
    if k > 0 {
      RunInv(ss, acts, k - 1);
      StepKeeps(ss[k - 1], acts[k - 1]);
    }
  }

  /** Interrupts among acts[i..t]. */
  function Interrupts(acts: seq<Action>, i: nat, t: nat): nat
    requires i <= t <= |acts|
    decreases t - i
  {
    if t == i then 0 else Interrupts(acts, i, t - 1) + (if acts[t - 1] == Interrupt then 1 else 0)
  }

  /** At step k the interrupt of b's request: the RAM disk's effect on the buffer as it was requested. */
  ghost predicate ServedAt(ss: seq<State>, acts: seq<Action>, i: nat, k: nat, b: nat)
    requires |ss| == |acts| + 1 && i < k < |acts|
  {
    && b < |ss[i].bufs| && b < |ss[k + 1].bufs| && ss[i].bufs[b].blockno < |ss[k].disk|
    && acts[k] == Interrupt && ss[k].queue != [] && ss[k].queue[0] == b
    && Interrupts(acts, i, k) == |ss[i].queue|
    && ss[k + 1].bufs[b] == Synced(ss[i].bufs[b], ss[k].disk)
    && ss[k + 1].disk == SyncedDisk(ss[i].bufs[b], ss[k].disk)
  }

  /** Until its interrupt a requested buffer is untouched and moves up one place with every interrupt. */
  ghost predicate InLine(ss: seq<State>, acts: seq<Action>, i: nat, t: nat, b: nat)
    requires |ss| == |acts| + 1 && i < t < |ss|
  {
    && b < |ss[i].bufs| && |ss[t].bufs| == |ss[i].bufs| && ss[t].bufs[b] == ss[i].bufs[b] && b in ss[t].busy
    && var place := |ss[i].queue| - Interrupts(acts, i, t);
       0 <= place < |ss[t].queue| && ss[t].queue[place] == b
  }

  /** From its interrupt on, until its iderw returns, it stays as the interrupt left it. */
  ghost predicate Finished(ss: seq<State>, acts: seq<Action>, i: nat, k: nat, t: nat, b: nat)
    requires |ss| == |acts| + 1 && i < k < t < |ss|
  {
    && ServedAt(ss, acts, i, k, b)
    && |ss[t].bufs| == |ss[k + 1].bufs| && ss[t].bufs[b] == ss[k + 1].bufs[b]
    && b in ss[t].busy && b !in ss[t].queue
  }

  lemma {:induction false} Follow(ss: seq<State>, acts: seq<Action>, i: nat, t: nat, b: nat)
    requires Run(ss, acts) && i < t < |ss| && acts[i] == Request(b)
    requires forall k :: i < k < t ==> acts[k] != Return(b)
    ensures InLine(ss, acts, i, t, b) || exists k :: i < k < t && Finished(ss, acts, i, k, t, b)
    decreases t
  {
    hide InLine, Finished, Do, Inv;
    if t == i + 1 {
      JoinStep(ss, acts, i, b);
    } else {
      Follow(ss, acts, i, t - 1, b);
      if InLine(ss, acts, i, t - 1, b) {
        WaitStep(ss, acts, i, t, b);
      } else {
        var k :| i < k < t - 1 && Finished(ss, acts, i, k, t - 1, b);
        RestStep(ss, acts, i, k, t, b);
      }
    }
  }

  lemma JoinStep(ss: seq<State>, acts: seq<Action>, i: nat, b: nat)
    requires Run(ss, acts) && i < |acts| && acts[i] == Request(b)
    ensures InLine(ss, acts, i, i + 1, b)
  {
    RunInv(ss, acts, i);
    assert Interrupts(acts, i, i) == 0 && Interrupts(acts, i, i + 1) == 0;
    assert ss[i + 1] == Do(ss[i], acts[i]);
  }

  lemma RestStep(ss: seq<State>, acts: seq<Action>, i: nat, k: nat, t: nat, b: nat)
    requires Run(ss, acts) && i < k < t - 1 < |acts| && acts[t - 1] != Return(b)
    requires Finished(ss, acts, i, k, t - 1, b)
    ensures Finished(ss, acts, i, k, t, b)
  {
    RunInv(ss, acts, t - 1);
    assert Enabled(ss[t - 1], acts[t - 1]) && ss[t] == Do(ss[t - 1], acts[t - 1]);
  }

  lemma WaitStep(ss: seq<State>, acts: seq<Action>, i: nat, t: nat, b: nat)
    requires Run(ss, acts) && i + 1 < t < |ss| && acts[i] == Request(b) && acts[t - 1] != Return(b)
    requires InLine(ss, acts, i, t - 1, b)
    ensures InLine(ss, acts, i, t, b) || Finished(ss, acts, i, t - 1, t, b)
  {
    hide Inv;
    RunStep(ss, acts, t - 1);
    if acts[t - 1] == Interrupt {
      MoveUp(ss, acts, i, t, b);
    } else {
      StepRefines(ss[t - 1], acts[t - 1]);
    }
  }

  lemma RunStep(ss: seq<State>, acts: seq<Action>, k: nat)
    requires Run(ss, acts) && k < |acts|
    ensures Inv(ss[k]) && Enabled(ss[k], acts[k]) && ss[k + 1] == Do(ss[k], acts[k])
  {
    RunInv(ss, acts, k);
  }

  lemma MoveUp(ss: seq<State>, acts: seq<Action>, i: nat, t: nat, b: nat)
    requires |ss| == |acts| + 1 && i + 1 < t < |ss| && acts[t - 1] == Interrupt
    requires Inv(ss[t - 1]) && ss[t] == Do(ss[t - 1], Interrupt)
    requires InLine(ss, acts, i, t - 1, b)
    ensures InLine(ss, acts, i, t, b) || Finished(ss, acts, i, t - 1, t, b)
  {
    var s := ss[t - 1];
    var place := |ss[i].queue| - Interrupts(acts, i, t - 1);
    StepRefines(s, Interrupt);
    assert ss[t].queue == s.queue[1..] && ss[t].busy == s.busy;
    if place == 0 {
      assert s.queue[0] == b;
      assert Finished(ss, acts, i, t - 1, t, b);
    } else {
      assert ss[t].queue[place - 1] == s.queue[place];
      assert s.queue[0] != s.queue[place];
    }
  }

  /**
   Asynchronous refines synchronous. Between the call of iderw for b and its return there is a step at which
   the RAM disk's iderw happens to exactly the buffer and block the caller asked for; requests are served in
   order, since that step is the interrupt number |queue| + 1 counted from the call; and the caller gets the
   buffer back as the RAM disk would have left it.
   */
  lemma Linearized(ss: seq<State>, acts: seq<Action>, i: nat, j: nat, b: nat) returns (k: nat)
    requires Run(ss, acts) && i < j < |acts| && acts[i] == Request(b) && acts[j] == Return(b)
    requires forall t :: i < t < j ==> acts[t] != Return(b)
    ensures i < k < j && ServedAt(ss, acts, i, k, b)
    ensures ss[j].bufs[b] == Synced(ss[i].bufs[b], ss[k].disk)
    ensures var asked, got, d, e := ss[i].bufs[b], ss[j].bufs[b], ss[k].disk, ss[k + 1].disk;
            && got.blockno == asked.blockno < |d| == |e| && got.data == (if asked.dirty then asked.data else d[asked.blockno])
            && forall x :: 0 <= x < |d| ==> e[x] == if x == asked.blockno then got.data else d[x]
  {
    Follow(ss, acts, i, j, b);
    RunInv(ss, acts, j);
    assert Enabled(ss[j], acts[j]);
    assert !InLine(ss, acts, i, j, b);
    k :| i < k < j && Finished(ss, acts, i, k, j, b);
  }

  // ---------------------------------------------------------------- the driver

  class Ide {
    var bufs: seq<Buf>
    var disk: Disk
    /** b->qnext for every buffer, and the head of the list. */
    var qnext: seq<int>
    var idequeue: int
    var cmd: Option<Cmd>
    ghost var queue: seq<nat>
    ghost var busy: set<nat>

    ghost function S(): State
      reads this
    {
      State(bufs, disk, queue, cmd, busy)
    }

    ghost predicate Linked()
      reads this
    {
      ListOf(|bufs|, qnext, idequeue, queue)
    }

    constructor (bufs: seq<Buf>, disk: Disk)
      ensures Linked() && S() == State(bufs, disk, [], None, {}) && Inv(S())
    {
      this.bufs, this.disk := bufs, disk;
      qnext, idequeue, cmd := seq(|bufs|, _ => NIL), NIL, None;
      queue, busy := [], {};
    }

    /** Walk to the last link and hang b there. */
    method Append(b: nat)
      requires Linked() && b < |bufs| && b !in queue
      modifies this`qnext, this`idequeue, this`queue
      ensures Linked() && queue == old(queue) + [b]
    {
      qnext := qnext[b := NIL];
      if idequeue == NIL {
        idequeue := b;
      } else {
        var p := idequeue;
        ghost var k := 0;
        while qnext[p] != NIL
          invariant 0 <= k < |queue| && p == queue[k]
          invariant forall i :: 0 <= i < |queue| ==> qnext[queue[i]] == After(queue, i)
          decreases |queue| - k
        {
          p := qnext[p];
          k := k + 1;
        }
        qnext := qnext[p := b];
      }
      queue := queue + [b];
    }

    method Idestart(b: nat)
      requires b < |bufs|
      modifies this`cmd
      ensures cmd == Some(CmdFor(bufs[b]))
    {
      cmd := Some(Cmd(bufs[b].dirty, bufs[b].blockno, bufs[b].data));
    }

    method Pop() returns (b: nat)
      requires Linked() && queue != []
      modifies this`idequeue, this`queue
      ensures Linked() && b == old(queue)[0] && queue == old(queue)[1..]
    {
      b := idequeue;
      assert qnext[queue[0]] == After(queue, 0);
      idequeue := qnext[b];
      queue := queue[1..];
      assert forall k :: 0 <= k < |queue| ==> queue[k] == old(queue)[k + 1] && After(queue, k) == After(old(queue), k + 1);
    }

    /** iderw up to its sleep. */
    method IderwStart(b: nat)
      requires Linked() && Inv(S()) && Enabled(S(), Request(b))
      modifies this
      ensures Linked() && Inv(S()) && S() == Do(old(S()), Request(b))
    {
      hide Inv;
      RequestKeeps(S(), b);
      NotQueued(S(), b);
      Append(b);
      if idequeue == b {
        Idestart(b);
      }
      busy := busy + {b};
    }

    /** What the controller does with the command it was given. */
    method RunCommand() returns (data: Block)
      requires cmd.Some? && cmd.value.blockno < |disk|
      modifies this`disk
      ensures data == old(disk)[cmd.value.blockno]
      ensures disk == if cmd.value.write then old(disk)[cmd.value.blockno := cmd.value.data] else old(disk)
    {
      data := disk[cmd.value.blockno];
      if cmd.value.write {
        disk := disk[cmd.value.blockno := cmd.value.data];
      }
    }

    /** Start the disk on the next buffer, if there is one. */
    method StartNext()
      requires Linked()
      modifies this`cmd
      ensures cmd == Started(bufs, queue)
    {
      if idequeue != NIL {
        Idestart(idequeue);
      } else {
        cmd := None;
      }
    }

    /** The interrupt handler, at the end of the command under way if there is one. */
    method Ideintr()
      requires Linked() && Inv(S())
      modifies this
      ensures Linked() && Inv(S()) && S() == Do(old(S()), Interrupt)
    {
      hide Inv, Started, CmdFor, ListOf;
      ListHead(|bufs|, qnext, idequeue, queue);
      if idequeue == NIL {
        return;
      }
      ServeKeeps(S());
      HeadPending(S());
      var data := RunCommand();
      var b := Pop();
      if !bufs[b].dirty {
        bufs := bufs[b := bufs[b].(data := data)];
      }
      bufs := bufs[b := bufs[b].(valid := true, dirty := false)];
      StartNext();
      ghost var t := Served(old(S()));
      assert bufs == t.bufs && disk == t.disk && queue == t.queue;
      assert S() == t;
    }

    /** The test of iderw's wait loop: once it holds the call is over. */
    method IderwReturn(b: nat) returns (done: bool)
      requires Linked() && Inv(S()) && b in busy
      modifies this`busy
      ensures Linked() && Inv(S()) && done == (b !in queue)
      ensures S() == if done then Do(old(S()), Return(b)) else old(S())
    {
      hide Inv;
      DoneExactly(S(), b);
      done := bufs[b].valid && !bufs[b].dirty;
      if done {
        ReturnKeeps(S(), b);
        busy := busy - {b};
      }
    }
  }

  function After(queue: seq<nat>, k: nat): int
    requires k < |queue|
  {
    if k + 1 < |queue| then queue[k + 1] else NIL
  }

  /** Following qnext from the head visits exactly the queue. */
  ghost predicate ListOf(n: nat, qnext: seq<int>, head: int, queue: seq<nat>) {
    && |qnext| == n
    && (forall k :: 0 <= k < |queue| ==> queue[k] < n)
    && (forall i, j :: 0 <= i < j < |queue| ==> queue[i] != queue[j])
    && head == (if queue == [] then NIL else queue[0])
    && forall k :: 0 <= k < |queue| ==> qnext[queue[k]] == After(queue, k)
  }

  lemma ListHead(n: nat, qnext: seq<int>, head: int, queue: seq<nat>)
    requires ListOf(n, qnext, head, queue)
    ensures head == NIL <==> queue == []
    ensures queue != [] ==> head == queue[0] < n
    ensures forall k :: 0 <= k < |queue| ==> queue[k] < n
  {
  }
}
