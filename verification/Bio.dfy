/** binit, bget, bread, bwrite and brelse on the linked list, proved to be steps of BufCache. */
module Bio {
  import opened BufRing
  import opened Sequences
  import opened DiskQueue
  import B = BufCache

  /** e is met before f. */
  ghost predicate InFront(order: seq<nat>, e: nat, f: nat) {
    exists i, j :: 0 <= i < j < |order| && order[i] == e && order[j] == f
  }

  /** The buffers but b are met in the order in which they were. */
  ghost predicate OthersInOrder(order: seq<nat>, order': seq<nat>, b: nat) {
    forall e, f :: InFront(order, e, f) && e != b && f != b ==> InFront(order', e, f)
  }

  lemma FrontKeepsOthers(order: seq<nat>, p: nat)
    requires Distinct(order) && p < |order|
    ensures OthersInOrder(order, ToFront(order, p), order[p]) && ToFront(order, p)[0] == order[p]
  {
    hide InFront, ToFront;
    B.FrontAt(order, p);
    forall e, f | InFront(order, e, f) && e != order[p] && f != order[p]
      ensures InFront(ToFront(order, p), e, f)
    {
      FrontKeepsOrder(order, p, e, f);
    }
  }

  lemma FrontKeepsOrder(order: seq<nat>, p: nat, e: nat, f: nat)
    requires Distinct(order) && p < |order| && InFront(order, e, f) && e != order[p] && f != order[p]
    ensures InFront(ToFront(order, p), e, f)
  {
    hide ToFront, Distinct;
    var i, j :| 0 <= i < j < |order| && order[i] == e && order[j] == f;
    FrontIndex(order, p, i);
    FrontIndex(order, p, j);
    assert Moved(p, i) < Moved(p, j);
  }

  /** Where the buffer at i is after the one at p has gone to the front. */
  function Moved(p: nat, i: nat): nat {
    if i < p then i + 1 else i
  }

  lemma FrontIndex(order: seq<nat>, p: nat, i: nat)
    requires p < |order| && i < |order| && i != p
    ensures Moved(p, i) < |ToFront(order, p)| && ToFront(order, p)[Moved(p, i)] == order[i]
  {
  }

  lemma NoMove(order: seq<nat>, b: nat)
    ensures OthersInOrder(order, order, b)
  {
  }

  class Bcache {
    var bufs: seq<Buf>
    var refs: seq<nat>
    var locked: seq<bool>
    var prev: seq<int>
    var next: seq<int>
    var disk: Disk
    ghost var order: seq<nat>
    ghost var stamps: seq<int>
    ghost var clock: int
    ghost var contents: Disk

    ghost function C(): B.Cache
      reads this
    {
      B.Cache(bufs, refs, locked, order, stamps, clock, disk, contents)
    }

    ghost predicate Valid()
      reads this
    {
      B.Inv(C()) && Ring(prev, next, order)
    }

    /** The loop of binit: every buffer goes behind the head. */
    static method LinkAll() returns (pv: seq<int>, nx: seq<int>, ghost o: seq<nat>)
      ensures Ring(pv, nx, o) && |o| == NBUF && forall i :: 0 <= i < NBUF ==> o[i] == NBUF - 1 - i
    {
      pv, nx := seq(NBUF + 1, _ => HEAD), seq(NBUF + 1, _ => HEAD);
      o := [];
      var b := 0;
      while b < NBUF
        invariant 0 <= b <= NBUF && |pv| == |nx| == NBUF + 1
        invariant Ring(pv, nx, o) && |o| == b && forall i :: 0 <= i < b ==> o[i] == b - 1 - i
      {
        PushRing(pv, nx, o, b);
        nx := nx[b := nx[HEAD]];
        pv := pv[b := HEAD];
        pv := pv[nx[HEAD] := b];
        nx := nx[HEAD := b];
        o := [b] + o;
        b := b + 1;
      }
    }

    /** binit */
    constructor (disk: Disk, data: Block)
      ensures Valid() && B.Booted(C()) && this.disk == disk
    {
      this.disk, contents := disk, disk;
      bufs, refs, locked := seq(NBUF, _ => Buf(false, false, 0, 0, data)), seq(NBUF, _ => 0), seq(NBUF, _ => false);
      var pv, nx, o := LinkAll();
      prev, next, order := pv, nx, o;
      stamps, clock := seq(NBUF, i => i), NBUF;
      new;
      B.PushedSorted(C());
      B.BootedInv(C());
    }

    /** The first scan of bget, forwards. */
    method FindCached(dev: nat, blockno: nat) returns (b: int)
      requires Valid()
      ensures b == HEAD <==> !B.Cached(C(), dev, blockno)
      ensures b != HEAD ==> 0 <= b < NBUF && B.Is(bufs[b], dev, blockno)
    {
      assert Adjacent(prev, next, order, 0);
      b := next[HEAD];
      ghost var k := 0;
      while b != HEAD
        invariant 0 <= k <= |order| && b == Node(order, k)
        invariant forall i :: 0 <= i < k ==> !B.Is(bufs[order[i]], dev, blockno)
        decreases |order| - k
      {
        if bufs[b].dev == dev && bufs[b].blockno == blockno {
          return;
        }
        assert Adjacent(prev, next, order, k + 1);
        b := next[b];
        k := k + 1;
      }
      forall e | 0 <= e < NBUF
        ensures !B.Is(bufs[e], dev, blockno)
      {
        var i := B.Place(order, e);
      }
    }

    /** `b` is in place `k` of the list, and every buffer behind it is in use or holds data not on disk yet. */
    ghost predicate LastEligible(k: int, b: int)
      reads this
    {
      && |refs| == |bufs| == NBUF && 0 <= k < |order| && order[k] == b
      && forall i :: k < i < |order| ==> order[i] < NBUF && (refs[order[i]] > 0 || bufs[order[i]].dirty)
    }

    /** The second scan of bget, backwards: what it meets first was released longest ago. */
    method FindVictim() returns (b: int)
      requires Valid()
      ensures b == HEAD <==> forall e :: 0 <= e < NBUF ==> !B.Eligible(C(), e)
      ensures b != HEAD ==> 0 <= b < NBUF && B.Oldest(C(), b)
      ensures b != HEAD ==> refs[b] == 0 && !bufs[b].dirty && exists k :: LastEligible(k, b)
    {
      assert Adjacent(prev, next, order, |order|);
      b := prev[HEAD];
      ghost var k := |order| - 1;
      while b != HEAD
        invariant -1 <= k < |order| && b == Node(order, k)
        invariant forall i :: k < i < |order| ==> !B.Eligible(C(), order[i])
        decreases k
      {
        if refs[b] == 0 && !bufs[b].dirty {
          forall e | 0 <= e < NBUF && B.Eligible(C(), e)
            ensures stamps[b] <= stamps[e]
          {
            var i := B.Place(order, e);
          }
          assert B.Eligible(C(), b) && LastEligible(k, b);
          return;
        }
        assert Adjacent(prev, next, order, k);
        b := prev[b];
        k := k - 1;
      }
      forall e | 0 <= e < NBUF
        ensures !B.Eligible(C(), e)
      {
        var i := B.Place(order, e);
      }
    }

    /** bget before its acquiresleep; HEAD stands for the panic "no buffers". */
    method Bget(dev: nat, blockno: nat) returns (b: int)
      requires Valid()
      modifies this`bufs, this`refs
      ensures Valid() && 0 <= b <= HEAD
      ensures b == HEAD <==> !B.Cached(old(C()), dev, blockno) && forall e :: 0 <= e < NBUF ==> !B.Eligible(old(C()), e)
      ensures b == HEAD ==> C() == old(C())
      ensures b != HEAD ==> B.Is(bufs[b], dev, blockno)
      ensures b != HEAD && B.Cached(old(C()), dev, blockno) ==> bufs == old(bufs) && refs == old(refs)[b := old(refs)[b] + 1]
      ensures b != HEAD && !B.Cached(old(C()), dev, blockno) ==> refs == old(refs)[b := 1] && !bufs[b].valid && !bufs[b].dirty
      ensures forall e :: 0 <= e < NBUF && e != b ==> bufs[e] == old(bufs)[e]
      ensures b != HEAD ==>
                var a := if B.Cached(old(C()), dev, blockno) then B.Hit(b, dev, blockno) else B.Recycle(b, dev, blockno);
                B.Enabled(old(C()), a) && C() == B.Do(old(C()), a)
    {
      b := FindCached(dev, blockno);
      if b != HEAD {
        B.StepKeeps(C(), B.Hit(b, dev, blockno));
        refs := refs[b := refs[b] + 1];
        return;
      }
      b := FindVictim();
      if b != HEAD {
        B.StepKeeps(C(), B.Recycle(b, dev, blockno));
        bufs := bufs[b := Buf(false, false, dev, blockno, bufs[b].data)];
        refs := refs[b := 1];
      }
    }

    /** acquiresleep on a buffer the caller has a reference to, at the moment it succeeds. */
    method Acquire(b: nat)
      requires Valid() && b < NBUF && refs[b] > 0 && !locked[b]
      modifies this`locked
      ensures Valid() && locked == old(locked)[b := true] && C() == B.Do(old(C()), B.Lock(b))
    {
      B.StepKeeps(C(), B.Lock(b));
      locked := locked[b := true];
    }

    /** bread's disk read of a buffer that bget has just recycled. */
    method ReadIn(b: nat)
      requires Valid() && B.Enabled(C(), B.Fill(b))
      modifies this`bufs, this`disk
      ensures Valid() && C() == B.Do(old(C()), B.Fill(b))
    {
      B.StepKeeps(C(), B.Fill(b));
      bufs, disk := bufs[b := Synced(bufs[b], disk)], SyncedDisk(bufs[b], disk);
    }

    /** bread from the moment acquiresleep succeeds: the buffer has the data last logged or written to its block. */
    method BreadLocked(b: nat, blockno: nat)
      requires Valid() && b < NBUF && refs[b] > 0 && !locked[b] && B.Is(bufs[b], ROOTDEV, blockno) && blockno < |disk|
      modifies this`bufs, this`locked, this`disk
      ensures Valid() && locked == old(locked)[b := true] && disk == old(disk)
      ensures bufs[b].valid && B.Is(bufs[b], ROOTDEV, blockno) && bufs[b].data == contents[blockno]
      ensures forall e :: 0 <= e < NBUF && e != b ==> bufs[e] == old(bufs)[e]
    {
      Acquire(b);
      if !bufs[b].valid {
        ReadIn(b);
      }
    }

    /**
     bread of a block of the root disk. Unless no buffer is left, the caller gets a reference to the block's buffer.
     If another process has that buffer locked the caller waits, and goes on with BreadLocked once it is free: its
     reference keeps the buffer for the block meanwhile. Else it has the buffer locked, with the data last logged
     or written to the block. No block changes.
     */
    method Bread(blockno: nat) returns (b: int, waits: bool)
      requires Valid() && blockno < |disk|
      modifies this
      ensures Valid() && 0 <= b <= HEAD && contents == old(contents) && disk == old(disk)
      ensures b == HEAD <==> !B.Cached(old(C()), ROOTDEV, blockno) && forall e :: 0 <= e < NBUF ==> !B.Eligible(old(C()), e)
      ensures b != HEAD ==> refs[b] > 0 && B.Is(bufs[b], ROOTDEV, blockno) && locked[b]
      ensures b != HEAD && B.Cached(old(C()), ROOTDEV, blockno) ==> refs[b] == old(refs)[b] + 1
      ensures waits <==> b != HEAD && old(locked)[b]
      ensures waits ==> B.Enabled(old(C()), B.Hit(b, ROOTDEV, blockno)) && C() == B.Do(old(C()), B.Hit(b, ROOTDEV, blockno))
      ensures b != HEAD && !waits ==> bufs[b].valid && bufs[b].data == old(contents)[blockno]
    {
      ghost var c := C();
      b := Bget(ROOTDEV, blockno);
      if b == HEAD {
        return b, false;
      }
      assert B.Coherent(c);
      waits := locked[b];
      if !waits {
        BreadLocked(b, blockno);
      }
    }

    /** The caller changes a locked buffer and hands it to log_write, which marks it dirty. */
    method Log(b: nat, data: Block)
      requires Valid() && b < NBUF && locked[b] && bufs[b].valid && bufs[b].dev == ROOTDEV && bufs[b].blockno < |disk|
      modifies this`bufs, this`contents
      ensures Valid() && C() == B.Do(old(C()), B.LogData(b, data))
      ensures bufs == old(bufs)[b := old(bufs)[b].(data := data, dirty := true)]
      ensures contents == old(contents)[old(bufs)[b].blockno := data]
    {
      B.StepKeeps(C(), B.LogData(b, data));
      contents := contents[bufs[b].blockno := data];
      bufs := bufs[b := bufs[b].(data := data)];
      bufs := bufs[b := bufs[b].(dirty := true)];
      assert C() == B.Do(old(C()), B.LogData(b, data));
    }

    /** The caller changes a locked buffer and hands it to bwrite. */
    method Bwrite(b: nat, data: Block)
      requires Valid() && b < NBUF && locked[b] && bufs[b].valid && bufs[b].dev == ROOTDEV && bufs[b].blockno < |disk|
      modifies this`bufs, this`disk, this`contents
      ensures Valid() && C() == B.Do(old(C()), B.WriteData(b, data))
      ensures bufs == old(bufs)[b := old(bufs)[b].(data := data, dirty := false)]
      ensures disk == old(disk)[old(bufs)[b].blockno := data] && contents == old(contents)[old(bufs)[b].blockno := data]
    {
      B.StepKeeps(C(), B.WriteData(b, data));
      contents := contents[bufs[b].blockno := data];
      bufs := bufs[b := bufs[b].(data := data)];
      bufs := bufs[b := bufs[b].(dirty := true)];
      bufs, disk := bufs[b := Synced(bufs[b], disk)], SyncedDisk(bufs[b], disk);
      assert C() == B.Do(old(C()), B.WriteData(b, data));
    }

    /** The list surgery of brelse. */
    method MoveToFront(b: nat)
      requires Ring(prev, next, order) && b in order
      modifies this`prev, this`next, this`order
      ensures Ring(prev, next, order) && order == ToFront(old(order), B.Place(old(order), b))
    {
      ghost var p := B.Place(order, b);
      UnlinkRing(prev, next, order, p);
      prev := prev[next[b] := prev[b]];
      next := next[prev[b] := next[b]];
      ghost var rest := Remove(order, p);
      assert b !in rest;
      PushRing(prev, next, rest, b);
      next := next[b := next[HEAD]];
      prev := prev[b := HEAD];
      prev := prev[next[HEAD] := b];
      next := next[HEAD := b];
      order := [b] + rest;
    }

    /** brelse: the sleep-lock first, then the reference. */
    method Brelse(b: nat)
      requires Valid() && b < NBUF && locked[b]
      modifies this
      ensures Valid() && B.Enabled(B.Do(old(C()), B.Unlock(b)), B.Drop(b))
      ensures C() == B.Do(B.Do(old(C()), B.Unlock(b)), B.Drop(b))
      ensures locked == old(locked)[b := false] && bufs == old(bufs) && disk == old(disk) && contents == old(contents)
      ensures old(refs)[b] > 0 && refs == old(refs)[b := old(refs)[b] - 1]
      ensures refs[b] > 0 ==> order == old(order)
      ensures refs[b] == 0 ==> |order| == NBUF && order[0] == b
      ensures OthersInOrder(old(order), order, b)
    {
      B.StepKeeps(C(), B.Unlock(b));
      locked := locked[b := false];
      DropRef(b);
    }

    method DropRef(b: nat)
      requires Valid() && B.Enabled(C(), B.Drop(b))
      modifies this`refs, this`prev, this`next, this`order, this`stamps, this`clock
      ensures Valid() && C() == B.Do(old(C()), B.Drop(b))
      ensures refs == old(refs)[b := old(refs)[b] - 1]
      ensures refs[b] > 0 ==> order == old(order)
      ensures refs[b] == 0 ==> |order| == NBUF && order[0] == b
      ensures OthersInOrder(old(order), order, b)
    {
      hide InFront, OthersInOrder;
      B.StepKeeps(C(), B.Drop(b));
      assert b in order;
      refs := refs[b := refs[b] - 1];
      NoMove(order, b);
      if refs[b] == 0 {
        FrontKeepsOthers(order, B.Place(order, b));
        MoveToFront(b);
        stamps, clock := stamps[b := clock], clock + 1;
      }
    }
  }
}
