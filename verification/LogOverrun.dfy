/**
 A run of the log on the buffer cache in which three operations, each within its reservation, list LOGSIZE blocks.
 It exists on every disk that has as many home blocks behind the log. LogRuns says how it ends.
 */
module LogOverrun {
  import opened Sets
  import opened BufRing
  import L = CrashLog
  import opened LogRuns
  import DiskQueue
  import D = LogDevice
  import A = LogAdmission
  import B = BufCache

  lemma Extend(lay: L.Layout, ss: seq<State>, acts: seq<Action>, a: Action) returns (ss': seq<State>, acts': seq<Action>)
    requires Run(lay, ss, acts) && Enabled(lay, ss[|acts|], a)
    ensures Run(lay, ss', acts') && ss'[0] == ss[0] && ss'[|acts'|] == Do(lay, ss[|acts|], a)
  {
    hide Start, Enabled, Do;
    ss', acts' := ss + [Do(lay, ss[|acts|], a)], acts + [a];
  }

  // ---------------------------------------------------------------- bread and brelse

  lemma {:induction false} OldestAmong(c: B.Cache, n: nat) returns (b: nat)
    requires B.Sized(c) && n <= NBUF && exists e :: 0 <= e < n && B.Eligible(c, e)
    ensures b < n && B.Eligible(c, b) && forall e :: 0 <= e < n && B.Eligible(c, e) ==> c.stamps[b] <= c.stamps[e]
  {
    var m := n - 1;
    if exists e :: 0 <= e < m && B.Eligible(c, e) {
      b := OldestAmong(c, m);
      if B.Eligible(c, m) && c.stamps[m] < c.stamps[b] {
        b := m;
      }
    } else {
      b := m;
    }
  }

  /** Only buffer `b` is different, and the blocks are not. */
  ghost predicate OnlyBuffer(c: B.Cache, d: B.Cache, b: nat) {
    && B.Sized(c) && B.Sized(d) && b < NBUF && d.disk == c.disk && d.contents == c.contents
    && forall e :: 0 <= e < NBUF && e != b ==>
         d.bufs[e] == c.bufs[e] && d.refs[e] == c.refs[e] && d.locked[e] == c.locked[e]
  }

  /** bread of a block that is not cached, while some buffer is free. */
  lemma Bread(lay: L.Layout, ss: seq<State>, acts: seq<Action>, x: nat) returns (ss': seq<State>, acts': seq<Action>, b: nat)
    requires Run(lay, ss, acts)
    requires var s := ss[|acts|];
             && B.Sized(s.cache) && x < |s.cache.disk| && !B.Cached(s.cache, DiskQueue.ROOTDEV, x)
             && (exists e :: 0 <= e < NBUF && B.Eligible(s.cache, e))
             && forall e :: 0 <= e < NBUF && s.cache.locked[e] ==> s.cache.refs[e] > 0
    ensures Run(lay, ss', acts') && ss'[0] == ss[0]
    ensures var s, t := ss[|acts|], ss'[|acts'|];
            && t == s.(cache := t.cache) && OnlyBuffer(s.cache, t.cache, b) && B.Eligible(s.cache, b)
            && Held(t.cache, b, x) && t.cache.refs[b] == 1 && !t.cache.bufs[b].dirty
  {
    hide Start;
    var s := ss[|acts|];
    b := OldestAmong(s.cache, NBUF);
    ss', acts' := Extend(lay, ss, acts, Buffer(B.Recycle(b, DiskQueue.ROOTDEV, x)));
    ss', acts' := Extend(lay, ss', acts', Buffer(B.Lock(b)));
    ss', acts' := Extend(lay, ss', acts', Buffer(B.Fill(b)));
  }

  /** brelse of a buffer nobody else refers to. */
  lemma Brelse(lay: L.Layout, ss: seq<State>, acts: seq<Action>, b: nat) returns (ss': seq<State>, acts': seq<Action>)
    requires Run(lay, ss, acts)
    requires var s := ss[|acts|]; B.Sized(s.cache) && b < NBUF && s.cache.locked[b] && s.cache.refs[b] == 1
    ensures Run(lay, ss', acts') && ss'[0] == ss[0]
    ensures var s, t := ss[|acts|], ss'[|acts'|];
            && t == s.(cache := t.cache) && OnlyBuffer(s.cache, t.cache, b)
            && t.cache.bufs == s.cache.bufs && t.cache.refs[b] == 0 && !t.cache.locked[b]
  {
    hide Start;
    ss', acts' := Extend(lay, ss, acts, Buffer(B.Unlock(b)));
    ss', acts' := Extend(lay, ss', acts', Buffer(B.Drop(b)));
  }

  // ---------------------------------------------------------------- one log_write

  /** Block number `i` behind the log. */
  function Nth(lay: L.Layout, i: nat): nat {
    lay.start + lay.size + i
  }

  function Blocks(lay: L.Layout, n: nat): (r: seq<int>)
    ensures |r| == n
  {
    seq(n, i requires 0 <= i < n => Nth(lay, i))
  }

  /** Nobody holds a buffer, and the first `n` blocks behind the log are listed and cached, no others behind it. */
  ghost predicate Resting(lay: L.Layout, s: State, n: nat) {
    && s.pc == Idle && B.Sized(s.cache) && s.log.blocks == Blocks(lay, n)
    && (forall b :: 0 <= b < NBUF ==> s.cache.refs[b] == 0 && !s.cache.locked[b])
    && OnlyFirst(lay, s.cache, n)
  }

  ghost predicate OnlyFirst(lay: L.Layout, c: B.Cache, n: nat) {
    forall b :: 0 <= b < |c.bufs| && c.bufs[b].dev == DiskQueue.ROOTDEV ==> c.bufs[b].blockno < Nth(lay, n)
  }

  lemma FreeBuffer(lay: L.Layout, ss: seq<State>, acts: seq<Action>, n: nat)
    requires Run(lay, ss, acts) && Resting(lay, ss[|acts|], n) && n < NBUF
    ensures exists e :: 0 <= e < NBUF && B.Eligible(ss[|acts|].cache, e)
  {
    hide Start, Enabled, Do, A.Inv, B.Inv, L.Represents, InPhase, Pinned, OnlyFirst, L.HomeBlocks;
    var s := ss[|acts|];
    RunInv(lay, ss, acts, |acts|);
    ListedDistinct(lay, s);
    CleanBuffer(s.cache, s.log.blocks);
    var b :| 0 <= b < NBUF && !s.cache.bufs[b].dirty;
    assert B.Eligible(s.cache, b);
  }

  lemma ListedDistinct(lay: L.Layout, s: State)
    requires Listed(lay, s)
    ensures forall i, j :: 0 <= i < j < |s.log.blocks| ==> s.log.blocks[i] != s.log.blocks[j]
  {
  }

  /** log_write of a buffer that is held, by an operation past the guard. */
  lemma StoreHeld(lay: L.Layout, ss: seq<State>, acts: seq<Action>, p: nat, b: nat)
    returns (ss': seq<State>, acts': seq<Action>)
    requires Run(lay, ss, acts)
    requires var s := ss[|acts|];
             && A.Enabled(s.log, A.Append(p)) && Held(s.cache, b, s.log.roles[p].b)
    ensures Run(lay, ss', acts') && ss'[0] == ss[0]
    ensures var s, t := ss[|acts|], ss'[|acts'|];
            && t == s.(cache := t.cache, log := A.Do(s.log, A.Append(p)))
            && B.Sized(s.cache) && B.Sized(t.cache) && t.cache.disk == s.cache.disk
            && t.cache.refs == s.cache.refs && t.cache.locked == s.cache.locked
            && (forall e :: 0 <= e < NBUF ==> B.Is(t.cache.bufs[e], s.cache.bufs[e].dev, s.cache.bufs[e].blockno))
            && (forall e :: 0 <= e < NBUF ==> t.cache.bufs[e].valid == s.cache.bufs[e].valid)
  {
    hide Start;
    ss', acts' := Extend(lay, ss, acts, Store(p, b, ss[|acts|].cache.bufs[b].data));
  }

  lemma NextBlock(lay: L.Layout, n: nat)
    ensures Blocks(lay, n) + [Nth(lay, n)] == Blocks(lay, n + 1) && Nth(lay, n) !in Blocks(lay, n)
  {
  }

  /** bread, the guard and the rest of log_write, and brelse, for the next block behind the log. */
  lemma ListOne(lay: L.Layout, ss: seq<State>, acts: seq<Action>, p: nat, n: nat)
    returns (ss': seq<State>, acts': seq<Action>)
    requires Run(lay, ss, acts) && Resting(lay, ss[|acts|], n) && n < L.LOGSIZE - 1 && lay.size == L.LOGSIZE
    requires var s := ss[|acts|];
             && Nth(lay, n) < |s.cache.disk| && s.log.outstanding >= 1
             && p < |s.log.roles| && s.log.roles[p].InOp? && s.log.roles[p].used < D.MAXOPBLOCKS
    ensures Run(lay, ss', acts') && ss'[0] == ss[0] && Resting(lay, ss'[|acts'|], n + 1)
    ensures var s, t := ss[|acts|], ss'[|acts'|];
            && t.log == s.log.(blocks := Blocks(lay, n + 1), roles := s.log.roles[p := A.InOp(s.log.roles[p].used + 1)])
            && |t.cache.disk| == |s.cache.disk|
  {
    hide Start, Enabled, Do, B.Eligible, Blocks;
    var b;
    FreeBuffer(lay, ss, acts, n);
    NextBlock(lay, n);
    ss', acts', b := Bread(lay, ss, acts, Nth(lay, n));
    GuardPassed(lay, ss'[|acts'|], p, Nth(lay, n));
    ss', acts' := Extend(lay, ss', acts', Lock(A.Check(p, Nth(lay, n))));
    ss', acts' := StoreHeld(lay, ss', acts', p, b);
    ss', acts' := Brelse(lay, ss', acts', b);
  }

  lemma GuardPassed(lay: L.Layout, s: State, p: nat, x: nat)
    requires p < |s.log.roles| && s.log.roles[p].InOp? && s.log.outstanding >= 1 && |s.log.blocks| < L.LOGSIZE - 1
    requires x < |s.cache.disk| && !L.InLog(lay, x)
    ensures Enabled(lay, s, Lock(A.Check(p, x)))
    ensures Do(lay, s, Lock(A.Check(p, x))) ==
            s.(log := s.log.(roles := s.log.roles[p := A.PastGuard(s.log.roles[p].used, x, |s.log.blocks|)]))
  {
  }

  lemma {:induction false} ListMany(lay: L.Layout, ss: seq<State>, acts: seq<Action>, p: nat, n: nat, k: nat)
    returns (ss': seq<State>, acts': seq<Action>)
    requires Run(lay, ss, acts) && Resting(lay, ss[|acts|], n) && n + k < L.LOGSIZE && lay.size == L.LOGSIZE
    requires var s := ss[|acts|];
             && Nth(lay, n + k) <= |s.cache.disk| && s.log.outstanding >= 1
             && p < |s.log.roles| && s.log.roles[p].InOp? && s.log.roles[p].used + k <= D.MAXOPBLOCKS
    ensures Run(lay, ss', acts') && ss'[0] == ss[0] && Resting(lay, ss'[|acts'|], n + k)
    ensures var s, t := ss[|acts|], ss'[|acts'|];
            && t.log == s.log.(blocks := Blocks(lay, n + k), roles := s.log.roles[p := A.InOp(s.log.roles[p].used + k)])
            && |t.cache.disk| == |s.cache.disk|
    decreases k
  {
    hide Start, Enabled, Do, Blocks;
    var s := ss[|acts|];
    if k == 0 {
      ss', acts' := ss, acts;
      assert s.log.roles[p := A.InOp(s.log.roles[p].used)] == s.log.roles;
    } else {
      ss', acts' := ListOne(lay, ss, acts, p, n);
      ss', acts' := ListMany(lay, ss', acts', p, n + 1, k - 1);
    }
  }

  // ---------------------------------------------------------------- two operations past the guard

  lemma TwoClean(c: B.Cache, n: nat, b: nat)
    requires |c.bufs| == n && b < n && !c.bufs[b].dirty && |DirtyBufs(c)| + 1 < n
    ensures exists e :: 0 <= e < n && e != b && !c.bufs[e].dirty
  {
    var taken := DirtyBufs(c) + {b};
    assert |taken| == |DirtyBufs(c)| + 1;
    assert taken != AllBufs(n) && taken <= AllBufs(n);
    assert exists e :: e in AllBufs(n) && e !in taken;
  }

  /** With one buffer held there is another one free. */
  lemma AnotherBuffer(lay: L.Layout, ss: seq<State>, acts: seq<Action>, b: nat)
    requires Run(lay, ss, acts) && ss[|acts|].pc == Idle && |ss[|acts|].log.blocks| + 1 < NBUF
    requires var c := ss[|acts|].cache;
             && B.Sized(c) && b < NBUF && !c.bufs[b].dirty && forall e :: 0 <= e < NBUF && e != b ==> c.refs[e] == 0
    ensures exists e :: 0 <= e < NBUF && B.Eligible(ss[|acts|].cache, e)
  {
    hide Start, Enabled, Do, A.Inv, B.Inv, L.Represents, InPhase, Pinned, L.HomeBlocks, DirtyBufs;
    var s := ss[|acts|];
    RunInv(lay, ss, acts, |acts|);
    ListedDistinct(lay, s);
    PinCount(s.cache, s.log.blocks);
    TwoClean(s.cache, NBUF, b);
    var e :| 0 <= e < NBUF && e != b && !s.cache.bufs[e].dirty;
    assert B.Eligible(s.cache, e);
  }

  /** Two operations hold the next two blocks, and neither has met the guard yet. */
  lemma HoldTwo(lay: L.Layout, ss: seq<State>, acts: seq<Action>, n: nat)
    returns (ss': seq<State>, acts': seq<Action>, b: nat, e: nat)
    requires Run(lay, ss, acts) && Resting(lay, ss[|acts|], n) && n + 1 < NBUF
    requires Nth(lay, n + 1) < |ss[|acts|].cache.disk|
    ensures Run(lay, ss', acts') && ss'[0] == ss[0]
    ensures var s, t := ss[|acts|], ss'[|acts'|];
            && t == s.(cache := t.cache) && |t.cache.disk| == |s.cache.disk| && b != e
            && Held(t.cache, b, Nth(lay, n)) && Held(t.cache, e, Nth(lay, n + 1)) && t.cache.refs[b] == t.cache.refs[e] == 1
            && (forall f :: 0 <= f < NBUF && f != b && f != e ==> t.cache.refs[f] == 0)
  {
    hide Start, Enabled, Do, Blocks;
    FreeBuffer(lay, ss, acts, n);
    ss', acts', b := Bread(lay, ss, acts, Nth(lay, n));
    AnotherBuffer(lay, ss', acts', b);
    ss', acts', e := Bread(lay, ss', acts', Nth(lay, n + 1));
  }

  /** Both pass the guard before either lists its block. */
  lemma ListTwo(lay: L.Layout, ss: seq<State>, acts: seq<Action>, p: nat, q: nat, n: nat)
    returns (ss': seq<State>, acts': seq<Action>)
    requires Run(lay, ss, acts) && Resting(lay, ss[|acts|], n) && n + 2 == L.LOGSIZE == lay.size && p != q
    requires var s := ss[|acts|];
             && Nth(lay, n + 1) < |s.cache.disk| && s.log.outstanding >= 1
             && p < |s.log.roles| && s.log.roles[p].InOp? && s.log.roles[p].used < D.MAXOPBLOCKS
             && q < |s.log.roles| && s.log.roles[q].InOp? && s.log.roles[q].used < D.MAXOPBLOCKS
    ensures Run(lay, ss', acts') && ss'[0] == ss[0]
    ensures var s, t := ss[|acts|], ss'[|acts'|];
            && t.log == s.log.(blocks := Blocks(lay, n + 2),
                               roles := s.log.roles[p := A.InOp(s.log.roles[p].used + 1)][q := A.InOp(s.log.roles[q].used + 1)])
            && t.pc == Idle && B.Sized(t.cache) && forall b :: 0 <= b < NBUF ==> t.cache.refs[b] == 0
  {
    hide Start, Enabled, Do, Blocks;
    var b, e;
    NextBlock(lay, n);
    NextBlock(lay, n + 1);
    ss', acts', b, e := HoldTwo(lay, ss, acts, n);
    GuardPassed(lay, ss'[|acts'|], p, Nth(lay, n));
    ss', acts' := Extend(lay, ss', acts', Lock(A.Check(p, Nth(lay, n))));
    GuardPassed(lay, ss'[|acts'|], q, Nth(lay, n + 1));
    ss', acts' := Extend(lay, ss', acts', Lock(A.Check(q, Nth(lay, n + 1))));
    ss', acts' := StoreHeld(lay, ss', acts', p, b);
    ss', acts' := StoreHeld(lay, ss', acts', q, e);
    ss', acts' := Brelse(lay, ss', acts', b);
    ss', acts' := Brelse(lay, ss', acts', e);
  }

  // ---------------------------------------------------------------- the run

  function BootCache(d: L.Disk): B.Cache {
    B.Cache(seq(NBUF, _ => DiskQueue.Buf(false, false, 0, 0, seq(L.WORDS, _ => 0))), seq(NBUF, _ => 0), seq(NBUF, _ => false),
            seq(NBUF, i requires 0 <= i < NBUF => NBUF - 1 - i), seq(NBUF, i => i), NBUF, d, d)
  }

  lemma BootFresh(d: L.Disk)
    ensures Fresh(BootCache(d)) && B.Booted(BootCache(d))
  {
    B.PushedSorted(BootCache(d));
    B.BootedInv(BootCache(d));
  }

  lemma Begin(lay: L.Layout, ss: seq<State>, acts: seq<Action>, p: nat) returns (ss': seq<State>, acts': seq<Action>)
    requires Run(lay, ss, acts)
    requires var s := ss[|acts|].log;
             p < |s.roles| && s.roles[p] == A.Outside && D.Admits(s.outstanding, s.committing, |s.blocks|)
    ensures Run(lay, ss', acts') && ss'[0] == ss[0]
    ensures var s := ss[|acts|];
            ss'[|acts'|] == s.(log := s.log.(outstanding := s.log.outstanding + 1, roles := s.log.roles[p := A.InOp(0)]))
  {
    hide Start;
    ss', acts' := Extend(lay, ss, acts, Lock(A.Enter(p)));
    ss', acts' := Extend(lay, ss', acts', Lock(A.TryBegin(p)));
  }

  lemma Booted(lay: L.Layout, d: L.Disk, s: State)
    requires L.Quiet(lay, d) && lay.size == L.LOGSIZE
    requires s == State(A.State(0, false, [], [A.Outside, A.Outside, A.Outside]), BootCache(d), Idle, d)
    ensures Run(lay, [s], []) && Resting(lay, s, 0)
  {
    BootFresh(d);
  }

  /** After boot three operations begin. */
  lemma BeginThree(lay: L.Layout, d: L.Disk) returns (ss: seq<State>, acts: seq<Action>)
    requires L.Quiet(lay, d) && lay.size == L.LOGSIZE
    ensures Run(lay, ss, acts) && ss[0].cache.disk == d && Resting(lay, ss[|acts|], 0)
    ensures ss[|acts|].log == A.State(3, false, [], [A.InOp(0), A.InOp(0), A.InOp(0)])
    ensures ss[|acts|].cache.disk == d
  {
    hide Start, Enabled, Do, Blocks;
    var s := State(A.State(0, false, [], [A.Outside, A.Outside, A.Outside]), BootCache(d), Idle, d);
    Booted(lay, d, s);
    hide BootCache, Run;
    ss, acts := Begin(lay, [s], [], 0);
    ss, acts := Begin(lay, ss, acts, 1);
    ss, acts := Begin(lay, ss, acts, 2);
  }

  /** They list 10, 9 and 9 blocks. */
  lemma ThreeOperations(lay: L.Layout, d: L.Disk) returns (ss: seq<State>, acts: seq<Action>)
    requires L.Quiet(lay, d) && lay.size == L.LOGSIZE && Nth(lay, L.LOGSIZE) <= |d|
    ensures Run(lay, ss, acts) && ss[0].cache.disk == d && Resting(lay, ss[|acts|], 28)
    ensures ss[|acts|].log == A.State(3, false, Blocks(lay, 28), [A.InOp(10), A.InOp(9), A.InOp(9)])
    ensures |ss[|acts|].cache.disk| == |d|
  {
    hide Start, Enabled, Do, Blocks, Resting;
    ss, acts := BeginThree(lay, d);
    ss, acts := ListMany(lay, ss, acts, 0, 0, 10);
    ss, acts := ListMany(lay, ss, acts, 1, 10, 9);
    ss, acts := ListMany(lay, ss, acts, 2, 19, 9);
  }

  lemma EndOne(lay: L.Layout, ss: seq<State>, acts: seq<Action>, p: nat) returns (ss': seq<State>, acts': seq<Action>)
    requires Run(lay, ss, acts)
    requires var s := ss[|acts|].log; p < |s.roles| && s.roles[p].InOp? && A.Asleep !in s.roles && !s.committing
    ensures Run(lay, ss', acts') && ss'[0] == ss[0]
    ensures var s, t := ss[|acts|], ss'[|acts'|];
            t == s.(log := s.log.(outstanding := s.log.outstanding - 1, committing := s.log.outstanding == 1,
                                  roles := s.log.roles[p := if s.log.outstanding == 1 then A.Committing else A.Outside]),
                    pc := if s.log.outstanding == 1 && s.log.blocks != [] then Logging(0) else s.pc)
  {
    hide Start;
    var s := ss[|acts|].log;
    assert A.Asleep !in s.roles[p := A.Outside];
    assert A.WakeAll(s.roles[p := A.Outside]) == s.roles[p := A.Outside];
    ss', acts' := Extend(lay, ss, acts, Lock(A.End(p)));
  }

  /**
   On every disk with an empty log and LOGSIZE home blocks behind it: three operations that stay within their
   reservations can end, with LOGSIZE blocks listed and no buffer held by anybody, in a commit that gets no buffer.
   */
  lemma OverrunReached(lay: L.Layout, d: L.Disk) returns (ss: seq<State>, acts: seq<Action>)
    requires L.Quiet(lay, d) && lay.size == L.LOGSIZE && Nth(lay, L.LOGSIZE) <= |d|
    ensures Run(lay, ss, acts) && ss[0].cache.disk == d
    ensures var s := ss[|acts|];
            && s.pc == Logging(0) && |s.log.blocks| == L.LOGSIZE && B.Sized(s.cache)
            && (forall b :: 0 <= b < NBUF ==> s.cache.refs[b] == 0) && !Available(s.cache, lay.start + 1)
  {
    hide Start, Enabled, Do, Blocks, Resting, Available;
    ss, acts := ThreeOperations(lay, d);
    ss, acts := ListTwo(lay, ss, acts, 1, 2, 28);
    ss, acts := EndOne(lay, ss, acts, 0);
    ss, acts := EndOne(lay, ss, acts, 1);
    ss, acts := EndOne(lay, ss, acts, 2);
    OverrunHalts(lay, ss, acts, |acts|, |acts|, lay.start + 1);
  }
}
