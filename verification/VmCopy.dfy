/** copyout: bytes into the user pages of an address space, page by page. */
module VmCopy {
  import opened VmSpace
  import opened VmSteps
  import opened VmLife
  import opened VmFrames
  import opened VmKernel

  const PTE_U := 4

  /** Present and accessible to the user. */
  predicate UserPage(s: Vm, d: nat, v: nat) {
    Pte(s, d, v).Entry? && Pte(s, d, v).flags / PTE_U % 2 == 1
  }

  /** A directory as setupkvm and the user-page operations make it: the kernel's pages are not the user's. */
  ghost predicate Ready(s: Vm, d: nat) {
    && Good(s) && d in s.dirs
    && (forall v :: UVPAGES <= v < VPAGES ==> !UserPage(s, d, v))
    && (forall f :: f in s.owner && s.owner[f].AsUser? ==> f in s.mem && s.mem[f].Bytes? && |s.mem[f].bytes| == PGSIZE)
  }

  /** The user of `d` can access address `a`. */
  predicate Accessible(s: Vm, d: nat, a: nat) {
    a / PGSIZE < VPAGES && UserPage(s, d, a / PGSIZE)
  }

  ghost function UserByte(s: Vm, d: nat, a: nat): int
    requires Ready(s, d) && Accessible(s, d, a)
  {
    PageOf(s, d, a / PGSIZE);
    s.mem[Pte(s, d, a / PGSIZE).frame].bytes[a % PGSIZE]
  }

  lemma PageOf(s: Vm, d: nat, v: nat)
    requires Ready(s, d) && v < VPAGES && UserPage(s, d, v)
    ensures v < UVPAGES
    ensures var f := Pte(s, d, v).frame;
            f in s.owner && s.owner[f] == AsUser(d, v) && f in s.mem && s.mem[f].Bytes? && |s.mem[f].bytes| == PGSIZE
  {
  }

  function Splice(bytes: seq<int>, off: nat, chunk: seq<int>): (r: seq<int>)
    requires off + |chunk| <= |bytes|
    ensures |r| == |bytes|
    ensures forall i :: 0 <= i < |r| ==> r[i] == if off <= i < off + |chunk| then chunk[i - off] else bytes[i]
  {
    bytes[..off] + chunk + bytes[off + |chunk|..]
  }

  /** Frame `f` overwritten at `off`. */
  function Written(s: Vm, f: nat, off: nat, chunk: seq<int>): Vm
    requires f in s.mem && s.mem[f].Bytes? && off + |chunk| <= |s.mem[f].bytes|
  {
    s.(mem := s.mem[f := Bytes(Splice(s.mem[f].bytes, off, chunk))])
  }

  lemma WrittenTables(s: Vm, d: nat, v: nat, f: nat, off: nat, chunk: seq<int>)
    requires Good(s) && f in s.owner && s.owner[f] == AsUser(d, v)
    requires f in s.mem && s.mem[f].Bytes? && off + |chunk| <= |s.mem[f].bytes|
    ensures var t := Written(s, f, off, chunk);
            && (forall d', x :: d' in s.dirs ==> Pde(t, d', x) == Pde(s, d', x))
            && (forall d', v' :: d' in s.dirs ==> Pte(t, d', v') == Pte(s, d', v') && (HasTable(t, d', v') <==> HasTable(s, d', v')))
  {
    var t := Written(s, f, off, chunk);
    assert SameTables(s, t);
    SameTablesAll(s, t);
    assert forall g :: IsTable(t, g) <==> IsTable(s, g);
  }

  lemma WrittenGood(s: Vm, d: nat, v: nat, off: nat, chunk: seq<int>)
    requires Ready(s, d) && v < VPAGES && UserPage(s, d, v) && off + |chunk| <= PGSIZE
    ensures var f := Pte(s, d, v).frame;
            f in s.mem && s.mem[f].Bytes? && off + |chunk| <= |s.mem[f].bytes| && Ready(Written(s, f, off, chunk), d)
  {
    PageOf(s, d, v);
    var f := Pte(s, d, v).frame;
    WrittenTables(s, d, v, f, off, chunk);
    hide Pde, Pte, UserPage;
    var t := Written(s, f, off, chunk);
    assert forall g :: IsTable(t, g) <==> IsTable(s, g);
    forall w | UVPAGES <= w < VPAGES
      ensures !UserPage(t, d, w)
    {
      SamePages(s, t, d, w);
    }
  }

  lemma SamePages(s: Vm, t: Vm, d: nat, v: nat)
    requires Pte(t, d, v) == Pte(s, d, v)
    ensures UserPage(t, d, v) == UserPage(s, d, v)
  {
  }

  /** The bytes of the pages after one chunk. */
  lemma WrittenBytes(s: Vm, d: nat, v: nat, off: nat, chunk: seq<int>, a: nat)
    requires Ready(s, d) && v < VPAGES && UserPage(s, d, v) && off + |chunk| <= PGSIZE && Accessible(s, d, a)
    ensures var f := Pte(s, d, v).frame;
            && f in s.mem && s.mem[f].Bytes? && off + |chunk| <= |s.mem[f].bytes|
            && var t := Written(s, f, off, chunk);
               && Ready(t, d) && Accessible(t, d, a)
               && UserByte(t, d, a) ==
                  if v * PGSIZE + off <= a < v * PGSIZE + off + |chunk| then chunk[a - v * PGSIZE - off] else UserByte(s, d, a)
  {
    WrittenGood(s, d, v, off, chunk);
    PageOf(s, d, v);
    PageOf(s, d, a / PGSIZE);
    var f := Pte(s, d, v).frame;
    WrittenTables(s, d, v, f, off, chunk);
    hide Pte, Ready, Pde;
    assert a == a / PGSIZE * PGSIZE + a % PGSIZE;
  }

  // ---------------------------------------------------------------- the loop

  /** From `s` to `t` the first `n` bytes of `data` went to the user pages of `d` from `va` on, and nothing else changed. */
  ghost predicate CopiedBytes(s: Vm, t: Vm, d: nat, va: nat, data: seq<int>, n: nat) {
    && Ready(s, d) && Ready(t, d) && n <= |data|
    && t == s.(mem := t.mem) && t.mem.Keys == s.mem.Keys
    && (forall v :: Pte(t, d, v) == Pte(s, d, v) && (HasTable(t, d, v) <==> HasTable(s, d, v)))
    && (forall a: nat :: Accessible(s, d, a) ==>
          Accessible(t, d, a) && UserByte(t, d, a) == if va <= a < va + n then data[a - va] else UserByte(s, d, a))
    && (forall f :: f in s.mem && !UserFrame(s, d, f) ==> t.mem[f] == s.mem[f])
  }

  predicate UserFrame(s: Vm, d: nat, f: nat) {
    f in s.owner && s.owner[f].AsUser? && s.owner[f].d == d
  }

  lemma CopiedNone(s: Vm, d: nat, va: nat, data: seq<int>)
    requires Ready(s, d)
    ensures CopiedBytes(s, s, d, va, data, 0)
  {
  }

  lemma CopiedStep(s: Vm, t: Vm, d: nat, va: nat, data: seq<int>, n: nat, v: nat, off: nat, m: nat)
    requires CopiedBytes(s, t, d, va, data, n) && v < VPAGES && UserPage(t, d, v)
    requires n + m <= |data| && off + m <= PGSIZE && v * PGSIZE + off == va + n
    ensures var f := Pte(t, d, v).frame;
            && f in t.mem && t.mem[f].Bytes? && off + m <= |t.mem[f].bytes|
            && CopiedBytes(s, Written(t, f, off, data[n..n + m]), d, va, data, n + m)
  {
    hide Ready, Pte, HasTable, Splice;
    var chunk := data[n..n + m];
    WrittenGood(t, d, v, off, chunk);
    PageOf(t, d, v);
    ReadyGood(t, d);
    var f := Pte(t, d, v).frame;
    WrittenTables(t, d, v, f, off, chunk);
    var u := Written(t, f, off, chunk);
    forall a: nat | Accessible(s, d, a)
      ensures Accessible(u, d, a) && UserByte(u, d, a) == if va <= a < va + n + m then data[a - va] else UserByte(s, d, a)
    {
      WrittenBytes(t, d, v, off, chunk, a);
    }
  }

  lemma ReadyGood(s: Vm, d: nat)
    requires Ready(s, d)
    ensures Good(s) && d in s.dirs
  {
  }

  datatype CopyResult = Copied | Refused | NullTable

  /** What uva2ka finds for page `v`. */
  datatype Uva = NullPte | NotUser | At(frame: nat)

  function Uva2ka(s: Vm, d: nat, v: nat): Uva {
    if !HasTable(s, d, v) then NullPte else if UserPage(s, d, v) then At(Pte(s, d, v).frame) else NotUser
  }

  method FindPage(k: Kernel, d: nat, v: nat) returns (u: Uva)
    requires Good(k.S()) && d in k.dirs && v < VPAGES
    modifies k`mem, k`free, k`owner
    ensures unchanged(k) && u == Uva2ka(k.S(), d, v)
  {
    var ok := k.Walkpgdir(d, v, false);
    if !ok {
      return NullPte;
    }
    var e := k.mem[k.mem[d].entries[v / NENTRIES].frame].entries[v % NENTRIES];
    if e.NoEntry? {
      return NotUser;
    }
    if e.flags / PTE_U % 2 == 0 {
      return NotUser;
    }
    return At(e.frame);
  }

  ghost predicate AllAccessible(s: Vm, d: nat, lo: nat, hi: nat) {
    forall a: nat :: lo <= a < hi ==> Accessible(s, d, a)
  }

  lemma MoreAccessible(s: Vm, t: Vm, d: nat, va: nat, n: nat, v: nat, m: nat)
    requires AllAccessible(s, d, va, va + n) && v * PGSIZE <= va + n && va + n + m <= v * PGSIZE + PGSIZE
    requires Pte(t, d, v) == Pte(s, d, v) && UserPage(t, d, v) && v < VPAGES
    ensures AllAccessible(s, d, va, va + n + m)
  {
    hide Pte;
    forall a: nat | va <= a < va + n + m
      ensures Accessible(s, d, a)
    {
      if a >= va + n {
        assert a / PGSIZE == v;
      }
    }
  }

  lemma CopiedSame(s: Vm, t: Vm, d: nat, va: nat, data: seq<int>, n: nat, v: nat)
    requires CopiedBytes(s, t, d, va, data, n)
    ensures Good(t) && d in t.dirs && Ready(t, d) && Pte(t, d, v) == Pte(s, d, v) && Uva2ka(t, d, v) == Uva2ka(s, d, v)
  {
    hide Ready, Pte;
    ReadyGood(t, d);
  }

  /** memmove to one page. */
  method CopyPage(k: Kernel, ghost s: Vm, d: nat, ghost va: nat, data: seq<int>, n: nat, v: nat, f: nat, off: nat, m: nat)
    requires CopiedBytes(s, k.S(), d, va, data, n) && AllAccessible(s, d, va, va + n)
    requires v < VPAGES && Uva2ka(k.S(), d, v) == At(f)
    requires n + m <= |data| && off + m <= PGSIZE && v * PGSIZE + off == va + n
    modifies k`mem
    ensures CopiedBytes(s, k.S(), d, va, data, n + m) && AllAccessible(s, d, va, va + n + m) && v < UVPAGES
  {
    hide CopiedBytes, Ready, Pte, HasTable, Good, AllAccessible;
    CopiedSame(s, k.S(), d, va, data, n, v);
    CopiedStep(s, k.S(), d, va, data, n, v, off, m);
    PageOf(k.S(), d, v);
    MoreAccessible(s, k.S(), d, va, n, v, m);
    k.mem := k.mem[f := Bytes(Splice(k.mem[f].bytes, off, data[n..n + m]))];
  }

  /**
   Copy `data` to address `va` of directory `d`. The first `n` bytes arrive, up to the first address the user cannot
   access. If there is one, the outcome depends on whether its page has a page table: if it has, copyout returns -1;
   if not, uva2ka follows the null pointer it got from walkpgdir.
   */
  method Copyout(k: Kernel, d: nat, va: nat, data: seq<int>) returns (r: CopyResult, n: nat)
    requires Ready(k.S(), d) && va / PGSIZE < VPAGES
    modifies k`mem, k`free, k`owner
    ensures CopiedBytes(old(k.S()), k.S(), d, va, data, n)
    ensures AllAccessible(old(k.S()), d, va, va + n)
    ensures n < |data| ==> !Accessible(old(k.S()), d, va + n)
    ensures r == Copied <==> n == |data|
    ensures r == NullTable <==> n < |data| && !HasTable(old(k.S()), d, (va + n) / PGSIZE)
  {
    hide CopiedBytes, Ready, Pte, HasTable, Good, Splice, AllAccessible, Pde, IsTable;
    ghost var s := k.S();
    CopiedNone(s, d, va, data);
    NoneToAccess(s, d, va);
    n := 0;
    var a := va;
    while n < |data|
      invariant n <= |data| && CopiedBytes(s, k.S(), d, va, data, n)
      invariant n < |data| ==> a == va + n && a / PGSIZE < VPAGES
      invariant AllAccessible(s, d, va, va + n)
      decreases |data| - n
    {
      var v := a / PGSIZE;
      CopiedSame(s, k.S(), d, va, data, n, v);
      var u := FindPage(k, d, v);
      FoundPage(s, d, a);
      if u == NullPte {
        return NullTable, n;
      }
      if u == NotUser {
        return Refused, n;
      }
      var off := a - v * PGSIZE;
      var m := if PGSIZE - off > |data| - n then |data| - n else PGSIZE - off;
      CopyPage(k, s, d, va, data, n, v, u.frame, off, m);
      n := n + m;
      a := v * PGSIZE + PGSIZE;
    }
    return Copied, n;
  }

  lemma FoundPage(s: Vm, d: nat, a: nat)
    ensures !Uva2ka(s, d, a / PGSIZE).At? ==> !Accessible(s, d, a)
    ensures Uva2ka(s, d, a / PGSIZE) == NullPte <==> !HasTable(s, d, a / PGSIZE)
  {
  }

  lemma NoneToAccess(s: Vm, d: nat, a: nat)
    ensures AllAccessible(s, d, a, a)
  {
  }

  /** A directory without user pages: copyout to address 0 meets the null pointer. */
  lemma NullTableMet() returns (s: Vm)
    ensures Ready(s, 1) && !HasTable(s, 1, 0) && Uva2ka(s, 1, 0) == NullPte
  {
    s := Vm([], map[1 := EmptyTable()], {1}, map[1 := AsDir]);
    assert forall x :: Pde(s, 1, x).NoEntry?;
    assert forall v :: Pte(s, 1, v).NoEntry?;
  }

  // ---------------------------------------------------------------- what the user sees of the other operations

  /** The paging hardware wants the bit in both entries; the directory entry always has it. */
  lemma HardwareAgrees(s: Vm, d: nat, a: nat)
    requires Good(s) && d in s.dirs && a / PGSIZE < VPAGES
    ensures Accessible(s, d, a) <==>
            && Pde(s, d, a / PGSIZE / NENTRIES).Entry? && Pde(s, d, a / PGSIZE / NENTRIES).flags / 4 % 2 == 1
            && Pte(s, d, a / PGSIZE).Entry? && Pte(s, d, a / PGSIZE).flags / 4 % 2 == 1
  {
    assert a / PGSIZE / NENTRIES < NENTRIES;
  }

  /** From `s` to `t` the user of `d` sees at address `a` what was there before. */
  ghost predicate SameAt(s: Vm, t: Vm, d: nat, a: nat) {
    && Ready(s, d) && Ready(t, d)
    && (Accessible(s, d, a) <==> Accessible(t, d, a))
    && (Accessible(s, d, a) ==> UserByte(t, d, a) == UserByte(s, d, a))
  }

  lemma SamePageSame(s: Vm, t: Vm, d: nat, a: nat)
    requires Ready(s, d) && Ready(t, d) && a / PGSIZE < VPAGES && SamePage(s, t, d, a / PGSIZE)
    ensures SameAt(s, t, d, a)
  {
    if Accessible(s, d, a) {
      PageOf(s, d, a / PGSIZE);
    }
  }

  /** User pages keep their size when one address space changes. */
  lemma StillReady(s: Vm, t: Vm, d: nat, lo: nat, hi: nat)
    requires Ready(s, d) && Good(t) && d in t.dirs && Keeps(s, t, d, {}) && hi <= UVPAGES
    requires forall v :: 0 <= v < VPAGES && !(lo <= v < hi) ==> SamePage(s, t, d, v)
    requires forall v :: lo <= v < hi ==> Pte(t, d, v).NoEntry? || ZeroPageAt(t, d, v)
    ensures Ready(t, d)
  {
    hide Good, Keeps, Pte, ZeroBytes;
    ReadyGood(s, d);
    forall v | UVPAGES <= v < VPAGES
      ensures !UserPage(t, d, v)
    {
      assert SamePage(s, t, d, v);
      SamePages(s, t, d, v);
    }
    forall f | f in t.owner && t.owner[f].AsUser?
      ensures f in t.mem && t.mem[f].Bytes? && |t.mem[f].bytes| == PGSIZE
    {
      var v := t.owner[f].v;
      if t.owner[f].d == d {
        UserUse(t, d, f);
        if lo <= v < hi {
          ZeroPageSize(t, d, v);
        } else {
          assert SamePage(s, t, d, v);
          PageSize(s, d, v);
        }
      } else {
        OtherFrame(s, t, d, f);
      }
    }
  }

  lemma UserUse(t: Vm, d: nat, f: nat)
    requires Good(t) && f in t.owner && t.owner[f].AsUser? && t.owner[f].d == d
    ensures t.owner[f].v < UVPAGES && Pte(t, d, t.owner[f].v).Entry? && Pte(t, d, t.owner[f].v).frame == f
  {
  }

  lemma ZeroPageSize(t: Vm, d: nat, v: nat)
    requires ZeroPageAt(t, d, v)
    ensures var f := Pte(t, d, v).frame; f in t.mem && t.mem[f].Bytes? && |t.mem[f].bytes| == PGSIZE
  {
  }

  lemma PageSize(s: Vm, d: nat, v: nat)
    requires Ready(s, d) && v < UVPAGES && Pte(s, d, v).Entry?
    ensures var f := Pte(s, d, v).frame; f in s.mem && s.mem[f].Bytes? && |s.mem[f].bytes| == PGSIZE
  {
  }

  lemma OtherFrame(s: Vm, t: Vm, d: nat, f: nat)
    requires Good(t) && Keeps(s, t, d, {}) && d in t.dirs && f in t.owner && t.owner[f].AsUser? && t.owner[f].d != d
    ensures f in s.owner && s.owner[f] == t.owner[f] && f in s.mem && f in t.mem && t.mem[f] == s.mem[f]
  {
    hide Good;
    NotOfDir(t, d, f);
  }

  lemma NotOfDir(t: Vm, d: nat, f: nat)
    requires Good(t) && d in t.dirs && f in t.owner && t.owner[f].AsUser? && t.owner[f].d != d
    ensures !Belongs(t, f, d)
  {
  }

  /** After allocuvm: new addresses are the user's and read 0, all others are as before. */
  lemma GrownBytes(s: Vm, t: Vm, d: nat, oldsz: nat, newsz: nat)
    requires Ready(s, d) && Grown(s, t, d, Up(oldsz), Up(newsz), {}) && newsz < KERNBASE
    ensures Ready(t, d)
    ensures forall a: nat :: a / PGSIZE < VPAGES ==>
              if (oldsz + 4095) / 4096 <= a / 4096 < (newsz + 4095) / 4096 then Accessible(t, d, a) && UserByte(t, d, a) == 0
              else SameAt(s, t, d, a)
  {
    hide Good, Keeps, Pte, Ready, ZeroBytes;
    StillReady(s, t, d, Up(oldsz), Up(newsz));
    forall a: nat | a / PGSIZE < VPAGES
      ensures if (oldsz + 4095) / 4096 <= a / 4096 < (newsz + 4095) / 4096 then Accessible(t, d, a) && UserByte(t, d, a) == 0
              else SameAt(s, t, d, a)
    {
      if Up(oldsz) <= a / PGSIZE < Up(newsz) {
        ZeroByteAt(t, d, a);
      } else {
        SamePageSame(s, t, d, a);
      }
    }
  }

  lemma ZeroByteAt(t: Vm, d: nat, a: nat)
    requires Ready(t, d) && a / PGSIZE < VPAGES && ZeroPageAt(t, d, a / PGSIZE)
    ensures Accessible(t, d, a) && UserByte(t, d, a) == 0
  {
  }

  /** After deallocuvm: the addresses given up are nobody's, all others are as before. */
  lemma ShrunkBytes(s: Vm, t: Vm, d: nat, oldsz: nat, newsz: nat)
    requires Ready(s, d) && Shrunk(s, t, d, Up(newsz), Up(oldsz)) && oldsz <= KERNBASE
    ensures Ready(t, d)
    ensures forall a: nat :: a / PGSIZE < VPAGES ==>
              if (newsz + 4095) / 4096 <= a / 4096 < (oldsz + 4095) / 4096 then !Accessible(t, d, a) else SameAt(s, t, d, a)
  {
    hide Good, Keeps, Pte, Ready;
    StillReady(s, t, d, Up(newsz), Up(oldsz));
    forall a: nat | a / PGSIZE < VPAGES
      ensures if (newsz + 4095) / 4096 <= a / 4096 < (oldsz + 4095) / 4096 then !Accessible(t, d, a) else SameAt(s, t, d, a)
    {
      if !(Up(newsz) <= a / PGSIZE < Up(oldsz)) {
        SamePageSame(s, t, d, a);
      }
    }
  }

  /** Memory that was just allocated takes what copyout is given, and reads back. */
  method GrowAndFill(k: Kernel, d: nat, oldsz: nat, data: seq<int>) returns (ok: bool)
    requires Ready(k.S(), d) && oldsz % 4096 == 0 && oldsz + |data| < KERNBASE
    requires forall w :: Up(oldsz) <= w < Up(oldsz + |data|) ==> Pte(k.S(), d, w).NoEntry?
    modifies k
    ensures ok ==> Ready(k.S(), d)
    ensures ok ==> forall i :: 0 <= i < |data| ==> ReadsAt(k.S(), d, oldsz, data, i)
    ensures ok <==> Need(old(k.S()), d, Up(oldsz), Up(oldsz + |data|)) <= |old(k.free)|
  {
    hide Good, Ready, Grown, CopiedBytes, Need;
    ghost var s := k.S();
    ReadyGood(s, d);
    var sz;
    sz, ok := k.Allocuvm(d, oldsz, oldsz + |data|);
    if !ok {
      return;
    }
    GrownBytes(s, k.S(), d, oldsz, oldsz + |data|);
    ghost var t := k.S();
    var r, n := Copyout(k, d, oldsz, data);
    CopiedAll(t, k.S(), d, oldsz, data, r, n);
  }

  ghost predicate ReadsAt(s: Vm, d: nat, va: nat, data: seq<int>, i: nat)
    requires i < |data|
  {
    Ready(s, d) && Accessible(s, d, va + i) && UserByte(s, d, va + i) == data[i]
  }

  lemma CopiedAll(t: Vm, u: Vm, d: nat, va: nat, data: seq<int>, r: CopyResult, n: nat)
    requires CopiedBytes(t, u, d, va, data, n) && (n < |data| ==> !Accessible(t, d, va + n)) && va % 4096 == 0
    requires va + |data| < KERNBASE
    requires forall a: nat :: a / PGSIZE < VPAGES && (va + 4095) / 4096 <= a / 4096 < (va + |data| + 4095) / 4096 ==> Accessible(t, d, a)
    ensures n == |data| && Ready(u, d) && forall i :: 0 <= i < |data| ==> ReadsAt(u, d, va, data, i)
  {
    hide Ready, Pte;
    if n < |data| {
      InsidePages(va, |data|, n);
      assert false;
    }
    forall i | 0 <= i < |data|
      ensures ReadsAt(u, d, va, data, i)
    {
      InsidePages(va, |data|, i);
    }
  }

  lemma InsidePages(va: nat, n: nat, i: nat)
    requires va % 4096 == 0 && i < n && va + n < KERNBASE
    ensures (va + 4095) / 4096 <= (va + i) / 4096 < (va + n + 4095) / 4096 && (va + i) / PGSIZE < VPAGES
  {
  }

  // ---------------------------------------------------------------- fork

  /** No entry of the kernel's map is the user's. */
  predicate KernelOnlyMap(km: seq<Kmap>) {
    forall j :: 0 <= j < |km| ==> km[j].perm / 4 % 2 == 0
  }

  lemma {:induction false} KernEntryPrivate(km: seq<Kmap>, v: nat)
    requires KernelOnlyMap(km)
    ensures KernEntry(km, v).Entry? ==> KernEntry(km, v).flags / 4 % 2 == 0
    decreases |km|
  {
    if km != [] {
      KernEntryPrivate(km[..|km| - 1], v);
    }
  }

  lemma ChildReady(s: Vm, t: Vm, d: nat, d2: nat, n: nat, km: seq<Kmap>)
    requires Ready(s, d) && VmKernel.Copied(s, t, d, d2, n, km) && n <= UVPAGES && KernelOnlyMap(km) && GoodKmap(km)
    ensures Ready(t, d2)
  {
    hide Good, Keeps, Pte, KernEntry;
    ReadyGood(s, d);
    forall v | UVPAGES <= v < VPAGES
      ensures !UserPage(t, d2, v)
    {
      KernEntryPrivate(km, v);
    }
    forall f | f in t.owner && t.owner[f].AsUser?
      ensures f in t.mem && t.mem[f].Bytes? && |t.mem[f].bytes| == PGSIZE
    {
      if t.owner[f].d == d2 {
        UserUse(t, d2, f);
        var v := t.owner[f].v;
        if v < n {
          assert CopyOf(s, t, d, d2, v);
          PageSize(s, d, v);
        } else {
          KernEntryBelow(km, v);
        }
      } else {
        OtherFrame(s, t, d2, f);
      }
    }
  }

  /** After copyuvm the child can access below the size what the parent can, reads the same bytes, and nothing beyond. */
  lemma ChildBytes(s: Vm, t: Vm, d: nat, d2: nat, sz: nat, km: seq<Kmap>, a: nat)
    requires Ready(s, d) && VmKernel.Copied(s, t, d, d2, Up(sz), km) && sz <= KERNBASE && KernelOnlyMap(km) && GoodKmap(km)
    requires a / PGSIZE < VPAGES
    ensures Ready(t, d2)
    ensures a < (sz + 4095) / 4096 * 4096 ==> (Accessible(t, d2, a) <==> Accessible(s, d, a))
    ensures a < (sz + 4095) / 4096 * 4096 && Accessible(s, d, a) ==> UserByte(t, d2, a) == UserByte(s, d, a)
    ensures a >= (sz + 4095) / 4096 * 4096 ==> !Accessible(t, d2, a)
  {
    hide Good, Keeps, Pte, KernEntry;
    ChildReady(s, t, d, d2, Up(sz), km);
    var v := a / PGSIZE;
    if v < Up(sz) {
      assert CopyOf(s, t, d, d2, v);
      if Accessible(s, d, a) {
        PageOf(s, d, v);
      }
    } else {
      KernEntryPrivate(km, v);
    }
  }
}
