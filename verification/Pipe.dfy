/**
 The pipe of pipe.c: a ring of PIPESIZE bytes with two 32-bit counters that wrap, shared by any number of
 readers and writers. A section is what runs between taking the pipe's lock and giving it up, by returning
 or by sleeping. Class RingBuffer holds the bytes; Queue is what it stands for.
 */
module PipeQueue {

  type Byte = bv8

  const PIPESIZE := 512
  const WRAP := 0x1_0000_0000

  /** All bytes accepted from writers and all bytes delivered to readers since the pipe was made. */
  datatype Queue = Queue(accepted: seq<Byte>, delivered: seq<Byte>, readopen: bool, writeopen: bool)

  /** How a section ends. */
  datatype Outcome = Returned | Failed | Slept

  ghost predicate Fifo(q: Queue) {
    && q.delivered <= q.accepted
    && |q.accepted| - |q.delivered| <= PIPESIZE
  }

  function Waiting(q: Queue): int {
    |q.accepted| - |q.delivered|
  }

  function Min(a: int, b: int): int {
    if a < b then a else b
  }

  function Put(q: Queue, bytes: seq<Byte>): Queue {
    q.(accepted := q.accepted + bytes)
  }

  /** How many bytes a writer that still has n to go moves in one section. */
  function WriteCount(q: Queue, n: nat): int {
    Min(PIPESIZE - Waiting(q), n)
  }

  function WriteOutcome(q: Queue, n: nat, killed: bool): Outcome {
    if WriteCount(q, n) == n then Returned
    else if !q.readopen || killed then Failed
    else Slept
  }

  /** How a reader that wants n bytes fares in one section. */
  function ReadOutcome(q: Queue, killed: bool): Outcome {
    if Waiting(q) != 0 || !q.writeopen then Returned
    else if killed then Failed
    else Slept
  }

  function ReadCount(q: Queue, n: nat, killed: bool): int {
    if ReadOutcome(q, killed) == Returned then Min(n, Waiting(q)) else 0
  }

  function Take(q: Queue, m: nat): Queue
    requires |q.delivered| + m <= |q.accepted|
  {
    q.(delivered := q.delivered + q.accepted[|q.delivered|..|q.delivered| + m])
  }

  class RingBuffer {
    const data: array<Byte>
    var nread: int
    var nwrite: int
    var readopen: bool
    var writeopen: bool
    ghost var accepted: seq<Byte>
    ghost var delivered: seq<Byte>

    ghost function Q(): Queue
      reads this
    {
      Queue(accepted, delivered, readopen, writeopen)
    }

    /** The counters are the true counts modulo 2^32 and the ring holds the bytes under way. */
    ghost predicate Valid()
      reads this, data
    {
      && Fifo(Q())
      && data.Length == PIPESIZE
      && nread == |delivered| % WRAP
      && nwrite == |accepted| % WRAP
      && forall k :: |delivered| <= k < |accepted| ==> data[k % PIPESIZE] == accepted[k]
    }

    constructor ()
      ensures Valid() && fresh(data)
      ensures Q() == Queue([], [], true, true)
    {
      data := new Byte[PIPESIZE];
      nread, nwrite := 0, 0;
      readopen, writeopen := true, true;
      accepted, delivered := [], [];
    }

    /** One section of pipewrite: bytes addr[from..], of which the first `done - from` go in. */
    method WriteSection(addr: seq<Byte>, from: nat, killed: bool) returns (done: nat, out: Outcome, woke: bool)
      requires Valid() && from <= |addr|
      modifies this, data
      ensures Valid()
      ensures from <= done <= |addr| && done - from == WriteCount(old(Q()), |addr| - from)
      ensures Q() == Put(old(Q()), addr[from..done])
      ensures out == WriteOutcome(old(Q()), |addr| - from, killed)
      ensures done < |addr| ==> |accepted| - |delivered| == 512
      ensures accepted == old(accepted) + addr[from..done] && delivered == old(delivered)
      ensures readopen == old(readopen) && writeopen == old(writeopen)
      ensures out == Returned <==> done == |addr|
      ensures out == Failed <==> done < |addr| && (!readopen || killed)
      ensures woke <==> out != Failed
    {
      done := from;
      while done < |addr|
        invariant Valid() && from <= done <= |addr|
        invariant Q() == Put(old(Q()), addr[from..done])
      {
        Wrapped(|delivered|, |accepted|);
        if nwrite == (nread + PIPESIZE) % WRAP {
          if !readopen || killed {
            return done, Failed, false;
          }
          return done, Slept, true;
        }
        PutByte(addr[done]);
        assert addr[from..done + 1] == addr[from..done] + [addr[done]];
        done := done + 1;
      }
      return done, Returned, true;
    }

    method PutByte(b: Byte)
      requires Valid() && Waiting(Q()) < PIPESIZE
      modifies this, data
      ensures Valid() && Q() == Put(old(Q()), [b])
    {
      Slots(|accepted|);
      data[nwrite % PIPESIZE] := b;
      nwrite := (nwrite + 1) % WRAP;
      accepted := accepted + [b];
      forall k | |delivered| <= k < |accepted|
        ensures data[k % PIPESIZE] == accepted[k]
      {
        SlotsDiffer(k, |accepted| - 1);
      }
    }

    method GetByte() returns (b: Byte)
      requires Valid() && Waiting(Q()) > 0
      modifies this
      ensures Valid() && Q() == Take(old(Q()), 1) && b == accepted[old(|delivered|)]
    {
      Slots(|delivered|);
      b := data[nread % PIPESIZE];
      nread := (nread + 1) % WRAP;
      delivered := delivered + [b];
    }

    /** piperead's copy loop. */
    method CopyOut(n: nat) returns (got: seq<Byte>)
      requires Valid()
      modifies this
      ensures Valid() && |got| == Min(n, Waiting(old(Q())))
      ensures Q() == Take(old(Q()), |got|) && delivered == old(delivered) + got
    {
      got := [];
      while |got| < n
        invariant Valid() && |got| <= n
        invariant accepted == old(accepted) && readopen == old(readopen) && writeopen == old(writeopen)
        invariant delivered == old(delivered) + got
        decreases n - |got|
      {
        Wrapped(|delivered|, |accepted|);
        if nread == nwrite {
          break;
        }
        var b := GetByte();
        got := got + [b];
      }
    }

    /** One section of piperead: the bytes handed over are the next ones, in order. */
    method ReadSection(n: nat, killed: bool) returns (got: seq<Byte>, out: Outcome, woke: bool)
      requires Valid()
      modifies this
      ensures Valid()
      ensures out == ReadOutcome(old(Q()), killed)
      ensures |got| == ReadCount(old(Q()), n, killed)
      ensures out == Returned <==> |old(accepted)| > |old(delivered)| || !old(writeopen)
      ensures out != Returned ==> got == [] && (out == Failed <==> killed)
      ensures out == Returned ==> |got| == n || (|got| < n && |delivered| == |accepted|)
      ensures accepted == old(accepted) && readopen == old(readopen) && writeopen == old(writeopen)
      ensures Q() == Take(old(Q()), |got|) && delivered == old(delivered) + got
      ensures woke <==> out == Returned
    {
      Wrapped(|delivered|, |accepted|);
      got := [];
      if nread == nwrite && writeopen {
        if killed {
          return [], Failed, false;
        }
        return [], Slept, false;
      }
      got := CopyOut(n);
      return got, Returned, true;
    }

    /** pipeclose: freed tells that both ends are now closed and the page goes back. */
    method Close(writable: bool) returns (freed: bool)
      requires Valid()
      modifies this
      ensures Valid()
      ensures Q() == if writable then old(Q()).(writeopen := false) else old(Q()).(readopen := false)
      ensures freed <==> !readopen && !writeopen
    {
      if writable {
        writeopen := false;
      } else {
        readopen := false;
      }
      freed := !readopen && !writeopen;
    }
  }

  /** Counters that wrap still tell the number of bytes under way, a full pipe and an empty one. */
  lemma Wrapped(r: nat, w: nat)
    requires 0 <= w - r <= PIPESIZE
    ensures (w % WRAP - r % WRAP) % WRAP == w - r
    ensures w % WRAP == (r % WRAP + PIPESIZE) % WRAP <==> w - r == PIPESIZE
    ensures w % WRAP == r % WRAP <==> w == r
  {
    assert w == w / WRAP * WRAP + w % WRAP && r == r / WRAP * WRAP + r % WRAP;
    assert w / WRAP == r / WRAP || w / WRAP == r / WRAP + 1;
  }

  /** 2^32 is a multiple of PIPESIZE, so a wrapped counter still names the right slot. */
  lemma Slots(n: nat)
    ensures (n % WRAP) % PIPESIZE == n % PIPESIZE
    ensures (n % WRAP + 1) % WRAP == (n + 1) % WRAP
  {
    SlotOf(n / WRAP * 8388608, n % WRAP);
  }

  lemma SlotOf(c: nat, r: nat)
    ensures (c * PIPESIZE + r) % PIPESIZE == r % PIPESIZE
  {
    var q := r / PIPESIZE;
    assert c * PIPESIZE + r == (c + q) * PIPESIZE + r % PIPESIZE;
  }

  lemma SlotsDiffer(j: nat, k: nat)
    requires j <= k < j + PIPESIZE
    ensures j % PIPESIZE == k % PIPESIZE <==> j == k
  {
  }
}
