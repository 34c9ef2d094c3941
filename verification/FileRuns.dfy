/**
 filewrite by any number of processes on one inode. Each chunk is a transaction under the inode's lock, which is
 dropped between chunks, so chunks of different processes interleave, through the same open file or through others.
 A chunk does to the bytes what FileSystem's WriteChunk is proved to do.
 */
module FileRuns {
  import opened FsBlocks
  import opened FsFile
  import opened FileSystem

  /** A call of filewrite through open file `f`, `done` bytes of which are written. */
  datatype Job = Job(f: nat, src: seq<byte>, done: nat, failed: bool)

  /** The file's bytes, the offsets of the open files that refer to it, and what every process is writing. */
  datatype State = State(bytes: seq<byte>, offs: seq<nat>, jobs: seq<Job>)

  datatype Action =
    | Begin(p: nat, f: nat, src: seq<byte>)
    | Write(p: nat)
    | Read(f: nat, n: nat)

  function Chunk(j: Job): (c: seq<byte>)
    requires j.done <= |j.src|
    ensures |c| <= CHUNK && |c| <= |j.src| - j.done && (j.done < |j.src| ==> 0 < |c|)
    ensures c == j.src[j.done..j.done + |c|]
  {
    j.src[j.done..j.done + if |j.src| - j.done > CHUNK then CHUNK else |j.src| - j.done]
  }

  /** writei's two checks. */
  predicate Accepts(s: State, off: nat, n: nat) {
    off <= |s.bytes| && off + n <= MAXFILE * BSIZE
  }

  predicate Busy(s: State, p: nat) {
    p < |s.jobs| && !s.jobs[p].failed && s.jobs[p].done < |s.jobs[p].src| && s.jobs[p].f < |s.offs|
  }

  predicate Enabled(s: State, a: Action) {
    match a
    case Begin(p, f, _) => p < |s.jobs| && !Busy(s, p) && f < |s.offs|
    case Write(p) => Busy(s, p)
    case Read(f, _) => f < |s.offs|
  }

  /** The step writes bytes, through the open file of its process. */
  predicate Puts(s: State, a: Action) {
    a.Write? && Busy(s, a.p) && Accepts(s, s.offs[s.jobs[a.p].f], |Chunk(s.jobs[a.p])|)
  }

  function Min(a: nat, b: nat): nat {
    if a < b then a else b
  }

  function Do(s: State, a: Action): State
    requires Enabled(s, a)
  {
    match a
    case Begin(p, f, src) => s.(jobs := s.jobs[p := Job(f, src, 0, false)])
    case Write(p) =>
      var j := s.jobs[p];
      var off, c := s.offs[j.f], Chunk(j);
      if Accepts(s, off, |c|)
      then State(Overwrite(s.bytes, off, c), s.offs[j.f := off + |c|], s.jobs[p := j.(done := j.done + |c|)])
      else s.(jobs := s.jobs[p := j.(failed := true)])
    case Read(f, n) =>
      if s.offs[f] <= |s.bytes| then s.(offs := s.offs[f := s.offs[f] + Min(n, |s.bytes| - s.offs[f])]) else s
  }

  predicate Run(ss: seq<State>, acts: seq<Action>) {
    && |ss| == |acts| + 1
    && forall k :: 0 <= k < |acts| ==> Enabled(ss[k], acts[k]) && ss[k + 1] == Do(ss[k], acts[k])
  }

  /** No offset is behind the end of the file, so writei never finds a hole. */
  predicate Inv(s: State) {
    && |s.bytes| <= MAXFILE * BSIZE && (forall f :: 0 <= f < |s.offs| ==> s.offs[f] <= |s.bytes|)
    && (forall p :: 0 <= p < |s.jobs| ==> s.jobs[p].done <= |s.jobs[p].src|)
  }

  lemma StepKeeps(s: State, a: Action)
    requires Inv(s) && Enabled(s, a)
    ensures Inv(Do(s, a)) && |Do(s, a).offs| == |s.offs| && |Do(s, a).jobs| == |s.jobs| && |s.bytes| <= |Do(s, a).bytes|
  {
  }

  lemma {:induction false} RunInv(ss: seq<State>, acts: seq<Action>, i: nat, j: nat)
    requires Run(ss, acts) && i <= j < |ss| && Inv(ss[i])
    ensures Inv(ss[j]) && |ss[j].offs| == |ss[i].offs| && |ss[j].jobs| == |ss[i].jobs| && |ss[i].bytes| <= |ss[j].bytes|
    decreases j - i
  {
    if i < j {
      RunInv(ss, acts, i, j - 1);
      StepKeeps(ss[j - 1], acts[j - 1]);
    }
  }

  // ---------------------------------------------------------------- one step

  /** The step writes to position `x`. */
  predicate PutsAt(s: State, a: Action, x: nat) {
    Puts(s, a) && var off := s.offs[s.jobs[a.p].f]; off <= x < off + |Chunk(s.jobs[a.p])|
  }

  lemma ByteStep(s: State, a: Action, x: nat)
    requires Inv(s) && Enabled(s, a)
    ensures PutsAt(s, a, x) ==> x < |Do(s, a).bytes| && Do(s, a).bytes[x] == Chunk(s.jobs[a.p])[x - s.offs[s.jobs[a.p].f]]
    ensures !PutsAt(s, a, x) && x < |s.bytes| ==> x < |Do(s, a).bytes| && Do(s, a).bytes[x] == s.bytes[x]
  {
    if Puts(s, a) && x < |Do(s, a).bytes| {
      OverwriteAt(s.bytes, s.offs[s.jobs[a.p].f], Chunk(s.jobs[a.p]), x);
    }
  }

  /** A read moves its open file's offset on, but not past the end of the file; no other step but a write moves one. */
  lemma OffsetStep(ss: seq<State>, acts: seq<Action>, k: nat, f: nat)
    requires Run(ss, acts) && k < |acts| && Inv(ss[0]) && f < |ss[k].offs|
    ensures var s, a, t := ss[k], acts[k], ss[k + 1];
            && |t.offs| == |s.offs|
            && (a.Read? && a.f == f && s.offs[f] + a.n <= |s.bytes| ==> t.offs[f] == s.offs[f] + a.n)
            && (a.Read? && a.f == f && s.offs[f] + a.n > |s.bytes| ==> t.offs[f] == |s.bytes|)
            && (!a.Write? && !(a.Read? && a.f == f) ==> t.offs[f] == s.offs[f])
            && (!a.Write? ==> t.bytes == s.bytes)
            && (a.Write? && s.jobs[a.p].f != f ==> t.offs[f] == s.offs[f])
  {
    RunInv(ss, acts, 0, k);
  }

  // ---------------------------------------------------------------- an open file shared by several processes

  /** The step leaves the offset of open file `f` alone, unless it writes through it. */
  predicate OnlyWrites(s: State, a: Action, f: nat) {
    !(a.Read? && a.f == f)
  }

  predicate PutsThrough(s: State, a: Action, f: nat) {
    Puts(s, a) && s.jobs[a.p].f == f
  }

  /** What went through open file `f` in steps i..j, in the order of the steps. */
  function Through(ss: seq<State>, acts: seq<Action>, f: nat, i: nat, j: nat): seq<byte>
    requires |ss| == |acts| + 1 && i <= j < |ss|
    decreases j - i
  {
    if i == j then []
    else
      Through(ss, acts, f, i, j - 1) +
      if PutsThrough(ss[j - 1], acts[j - 1], f) then Chunk(ss[j - 1].jobs[acts[j - 1].p]) else []
  }

  lemma {:induction false} OffsetMoves(ss: seq<State>, acts: seq<Action>, f: nat, i: nat, j: nat)
    requires Run(ss, acts) && i <= j < |ss| && Inv(ss[i]) && f < |ss[i].offs|
    requires forall k :: i <= k < j ==> OnlyWrites(ss[k], acts[k], f)
    ensures |ss[j].offs| == |ss[i].offs| && ss[j].offs[f] == ss[i].offs[f] + |Through(ss, acts, f, i, j)|
    decreases j - i
  {
    RunInv(ss, acts, i, j);
    if i < j {
      OffsetMoves(ss, acts, f, i, j - 1);
      assert OnlyWrites(ss[j - 1], acts[j - 1], f);
      assert Enabled(ss[j - 1], acts[j - 1]);
    }
  }

  /**
   As long as the file is written through one open file only, by however many processes that share it, the chunks land
   one behind the other in the order of the steps: none is lost, split or overwritten.
   */
  lemma {:induction false} SharedOffset(ss: seq<State>, acts: seq<Action>, f: nat, i: nat, j: nat)
    requires Run(ss, acts) && i <= j < |ss| && Inv(ss[i]) && f < |ss[i].offs|
    requires forall k :: i <= k < j ==> OnlyWrites(ss[k], acts[k], f) && (Puts(ss[k], acts[k]) ==> PutsThrough(ss[k], acts[k], f))
    ensures ss[j].bytes == Overwrite(ss[i].bytes, ss[i].offs[f], Through(ss, acts, f, i, j))
    decreases j - i
  {
    hide Overwrite, Do, Enabled, Inv, Puts, PutsThrough, OnlyWrites;
    OffsetMoves(ss, acts, f, i, j);
    RunInv(ss, acts, i, j);
    OffsetsInside(ss[i], f);
    if i < j {
      SharedOffset(ss, acts, f, i, j - 1);
      RunInv(ss, acts, i, j - 1);
      OffsetMoves(ss, acts, f, i, j - 1);
      assert OnlyWrites(ss[j - 1], acts[j - 1], f);
      SharedStep(ss[j - 1], acts[j - 1], f, ss[i].bytes, ss[i].offs[f], Through(ss, acts, f, i, j - 1));
    } else {
      OverwriteNone(ss[i].bytes, ss[i].offs[f]);
    }
  }

  lemma OffsetsInside(s: State, f: nat)
    requires Inv(s) && f < |s.offs|
    ensures s.offs[f] <= |s.bytes|
  {
  }

  lemma SharedStep(s: State, a: Action, f: nat, bytes: seq<byte>, off: nat, th: seq<byte>)
    requires Inv(s) && Enabled(s, a) && f < |s.offs| && off <= |bytes| && (Puts(s, a) ==> PutsThrough(s, a, f))
    requires s.bytes == Overwrite(bytes, off, th) && s.offs[f] == off + |th|
    ensures Do(s, a).bytes == Overwrite(bytes, off, th + if PutsThrough(s, a, f) then Chunk(s.jobs[a.p]) else [])
  {
    hide Overwrite, Chunk;
    BytesStep(s, a);
    if Puts(s, a) {
      OverwriteTwice(bytes, off, th, Chunk(s.jobs[a.p]));
    } else {
      assert th + [] == th;
    }
  }

  lemma BytesStep(s: State, a: Action)
    requires Inv(s) && Enabled(s, a)
    ensures Do(s, a).bytes == if Puts(s, a) then Overwrite(s.bytes, s.offs[s.jobs[a.p].f], Chunk(s.jobs[a.p])) else s.bytes
  {
  }

  lemma OverwriteNone(c: seq<byte>, off: nat)
    requires off <= |c|
    ensures Overwrite(c, off, []) == c
  {
  }

  // ---------------------------------------------------------------- an open file of one's own

  /** Nobody but `p` uses open file `f`, and `p` is in one call of filewrite. */
  predicate Private(s: State, a: Action, p: nat, f: nat) {
    && OnlyWrites(s, a, f)
    && (a.Begin? ==> a.p != p && a.f != f)
    && (a.Write? && a.p != p && a.p < |s.jobs| ==> s.jobs[a.p].f != f)
  }

  /** How far the call is. */
  ghost predicate Progress(s: State, t: State, p: nat, f: nat, src: seq<byte>) {
    && p < |s.jobs| == |t.jobs| && f < |s.offs| == |t.offs|
    && t.jobs[p].f == f && t.jobs[p].src == src && t.jobs[p].done <= |src|
    && t.offs[f] == s.offs[f] + t.jobs[p].done
    && (t.jobs[p].failed ==> s.offs[f] + |src| > MAXFILE * BSIZE)
  }

  lemma ProgressStep(s: State, t: State, a: Action, p: nat, f: nat, src: seq<byte>)
    requires Inv(t) && Enabled(t, a) && Private(t, a, p, f) && Progress(s, t, p, f, src)
    ensures Progress(s, Do(t, a), p, f, src)
  {
  }

  /** Some other process writes to `x` in the step. */
  predicate OtherPutsAt(s: State, a: Action, p: nat, x: nat) {
    PutsAt(s, a, x) && a.p != p
  }

  /** No other process writes to `x` in steps i..j. */
  ghost predicate Spared(ss: seq<State>, acts: seq<Action>, p: nat, x: nat, i: nat, j: nat)
    requires |ss| == |acts| + 1 && j < |ss|
  {
    forall k :: i <= k < j ==> !OtherPutsAt(ss[k], acts[k], p, x)
  }

  /** The bytes of the call are in the file, wherever no other process has written meanwhile. */
  lemma {:induction false} OwnBytes(ss: seq<State>, acts: seq<Action>, p: nat, f: nat, src: seq<byte>, i: nat, j: nat, n: nat)
    requires Run(ss, acts) && i <= j < |ss| && Inv(ss[i]) && Progress(ss[i], ss[i], p, f, src) && ss[i].jobs[p].done == 0
    requires forall k :: i <= k < j ==> Private(ss[k], acts[k], p, f)
    requires n < |src| && Spared(ss, acts, p, ss[i].offs[f] + n, i, j)
    ensures Progress(ss[i], ss[j], p, f, src) && ByteThere(ss[i], ss[j], p, f, src, n)
    decreases j - i
  {
    hide Do, Enabled, Inv, Private, OtherPutsAt;
    if i < j {
      var s, a := ss[j - 1], acts[j - 1];
      OwnBytes(ss, acts, p, f, src, i, j - 1, n);
      RunInv(ss, acts, i, j - 1);
      assert Private(s, a, p, f) && !OtherPutsAt(s, a, p, ss[i].offs[f] + n);
      ProgressStep(ss[i], s, a, p, f, src);
      OwnByteStep(ss[i], s, a, p, f, src, n);
    }
  }

  ghost predicate ByteThere(s: State, t: State, p: nat, f: nat, src: seq<byte>, n: nat)
    requires Progress(s, t, p, f, src) && n < |src|
  {
    n < t.jobs[p].done ==> s.offs[f] + n < |t.bytes| && t.bytes[s.offs[f] + n] == src[n]
  }

  lemma OwnByteStep(s: State, t: State, a: Action, p: nat, f: nat, src: seq<byte>, n: nat)
    requires Inv(t) && Enabled(t, a) && Private(t, a, p, f) && Progress(s, t, p, f, src) && n < |src|
    requires !OtherPutsAt(t, a, p, s.offs[f] + n) && ByteThere(s, t, p, f, src, n)
    ensures Progress(s, Do(t, a), p, f, src) && ByteThere(s, Do(t, a), p, f, src, n)
  {
    ProgressStep(s, t, a, p, f, src);
    ByteStep(t, a, s.offs[f] + n);
    hide Overwrite;
  }

  lemma {:induction false} CallProgress(ss: seq<State>, acts: seq<Action>, p: nat, f: nat, src: seq<byte>, i: nat, j: nat)
    requires Run(ss, acts) && i <= j < |ss| && Inv(ss[i]) && Progress(ss[i], ss[i], p, f, src)
    requires forall k :: i <= k < j ==> Private(ss[k], acts[k], p, f)
    ensures Progress(ss[i], ss[j], p, f, src)
    decreases j - i
  {
    hide Do, Enabled, Inv, Private, Progress;
    if i < j {
      CallProgress(ss, acts, p, f, src, i, j - 1);
      RunInv(ss, acts, i, j - 1);
      assert Private(ss[j - 1], acts[j - 1], p, f);
      ProgressStep(ss[i], ss[j - 1], acts[j - 1], p, f, src);
    }
  }

  /**
   A call of filewrite through an open file of its own, with any others at work on the inode between its chunks. When
   it has returned, it has written everything if and only if its bytes fit the largest file, its offset has moved by
   what it wrote, and every byte it wrote is in the file unless another process has written to that place meanwhile.
   */
  lemma FilewriteAmongOthers(ss: seq<State>, acts: seq<Action>, p: nat, f: nat, src: seq<byte>, i: nat, j: nat)
    requires Run(ss, acts) && i < j < |ss| && Inv(ss[i]) && acts[i] == Begin(p, f, src)
    requires forall k :: i < k < j ==> Private(ss[k], acts[k], p, f)
    requires !Busy(ss[j], p)
    ensures |ss[i].offs| == |ss[j].offs| && |ss[j].jobs| == |ss[i].jobs|
    ensures ss[j].offs[f] == ss[i].offs[f] + ss[j].jobs[p].done
    ensures ss[j].jobs[p].done == |src| <==> ss[i].offs[f] + |src| <= 140 * 512
    ensures ss[j].jobs[p].done <= |src|
    ensures forall n :: 0 <= n < ss[j].jobs[p].done && Spared(ss, acts, p, ss[i].offs[f] + n, i + 1, j) ==>
              ss[i].offs[f] + n < |ss[j].bytes| && ss[j].bytes[ss[i].offs[f] + n] == src[n]
  {
    assert Enabled(ss[i], acts[i]);
    StepKeeps(ss[i], acts[i]);
    assert Progress(ss[i + 1], ss[i + 1], p, f, src);
    CallProgress(ss, acts, p, f, src, i + 1, j);
    RunInv(ss, acts, i, j);
    forall n | 0 <= n < ss[j].jobs[p].done && Spared(ss, acts, p, ss[i].offs[f] + n, i + 1, j)
      ensures ss[i].offs[f] + n < |ss[j].bytes| && ss[j].bytes[ss[i].offs[f] + n] == src[n]
    {
      OwnBytes(ss, acts, p, f, src, i + 1, j, n);
    }
  }
}
