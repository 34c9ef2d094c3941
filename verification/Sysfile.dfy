/** dirlookup, dirlink, isdirempty, create, sys_link and sys_unlink on the inode table, proved to be steps of Links. */
module Sysfile {
  import opened Links
  import opened LinkSteps
  import LinkRuns

  /** Entry `k` of directory `d` is live, has this name and names inode `x`. */
  predicate EntryFor(inodes: seq<Inode>, d: nat, name: string, k: nat, x: nat) {
    && d < |inodes| && k < |inodes[d].entries|
    && inodes[d].entries[k].inum == x != 0 && inodes[d].entries[k].name == name
  }

  predicate NoEntryFor(inodes: seq<Inode>, d: nat, name: string)
    requires d < |inodes|
  {
    forall k :: 0 <= k < |inodes[d].entries| ==> inodes[d].entries[k].inum == 0 || inodes[d].entries[k].name != name
  }

  predicate OnlyDots(entries: seq<Dirent>) {
    forall k :: 2 <= k < |entries| ==> entries[k].inum == 0
  }

  /** No directory has a name twice. */
  lemma OneEntry(fs: Fs, d: nat, name: string, k: nat, x: nat)
    requires Tree(fs) && EntryFor(fs.inodes, d, name, k, x)
    ensures x < |fs.inodes|
    ensures forall j: nat, y: nat :: EntryFor(fs.inodes, d, name, j, y) ==> j == k && y == x
  {
    hide Tree;
    InodeAt(fs, d);
  }

  lemma MadeShape(fs: Fs, d: nat, name: string, kind: Kind, i: nat)
    requires d < |fs.inodes| && 0 < i < |fs.inodes| && i != d && fs.inodes[i].kind == Free
    requires forall j :: 0 < j < i ==> fs.inodes[j].kind != Free
    ensures MadeIn(fs.inodes, Created(fs, d, name, kind, i).inodes, d, name, kind, i, Slot(fs.inodes[d].entries))
  {
    hide Slot, Inserted;
    InsertedPut(fs.inodes[d].entries, Dirent(i, name));
  }

  lemma InsertedPut(entries: seq<Dirent>, e: Dirent)
    ensures PutEntry(entries, Inserted(entries, e), e, Slot(entries))
  {
  }

  lemma TakenShape(fs: Fs, d: nat, k: nat, x: nat)
    requires d < |fs.inodes| && k < |fs.inodes[d].entries| && fs.inodes[d].entries[k].inum == x < |fs.inodes| && x != d
    ensures TakenFrom(fs.inodes, Unlinked(fs, d, k).inodes, d, k, x)
  {
  }

  /** `after` is `before` with entry `e` in place `k`, the first unused one or a new one at the end. */
  predicate PutEntry(before: seq<Dirent>, after: seq<Dirent>, e: Dirent, k: nat) {
    && k <= |before| && |after| == (if k == |before| then |before| + 1 else |before|) && after[k] == e
    && (forall j :: 0 <= j < k ==> before[j].inum != 0) && (k < |before| ==> before[k].inum == 0)
    && (forall j :: 0 <= j < |before| && j != k ==> after[j] == before[j])
  }

  /** create made inode `i` of this kind and entry `k` of `d` for it; a new directory has its dots and counts for `d`. */
  ghost predicate MadeIn(before: seq<Inode>, after: seq<Inode>, d: nat, name: string, kind: Kind, i: nat, k: nat) {
    && |after| == |before| && d < |before| && 0 < i < |before| && i != d && before[i].kind == Free
    && (forall j :: 0 < j < i ==> before[j].kind != Free)
    && after[i] == Inode(kind, 1, if kind == Dir then [Dirent(i, "."), Dirent(d, "..")] else [])
    && after[d].kind == before[d].kind && after[d].nlink == before[d].nlink + (if kind == Dir then 1 else 0)
    && PutEntry(before[d].entries, after[d].entries, Dirent(i, name), k)
    && (forall j :: 0 <= j < |before| && j != i && j != d ==> after[j] == before[j])
  }

  /** sys_unlink took entry `k` of `d` away, which named `x`. */
  predicate TakenFrom(before: seq<Inode>, after: seq<Inode>, d: nat, k: nat, x: nat) {
    && |after| == |before| && d < |before| && x < |before| && x != d && k < |before[d].entries|
    && after[d] == before[d].(entries := before[d].entries[k := Dirent(0, "")],
                              nlink := before[d].nlink - if before[x].kind == Dir then 1 else 0)
    && after[x] == before[x].(nlink := before[x].nlink - 1)
    && (forall j :: 0 <= j < |before| && j != x && j != d ==> after[j] == before[j])
  }

  class Directories {
    var inodes: seq<Inode>
    ghost var pending: seq<nat>

    ghost function F(): Fs
      reads this
    {
      Fs(inodes, pending)
    }

    constructor (inodes: seq<Inode>)
      ensures F() == Fs(inodes, seq(|inodes|, _ => 0))
    {
      this.inodes := inodes;
      pending := seq(|inodes|, _ => 0);
    }

    /** The index of the entry, or the number of entries when there is none. */
    method Dirlookup(d: nat, name: string) returns (k: nat)
      requires d < |inodes| && inodes[d].kind == Dir
      ensures k == Find(inodes[d].entries, name) <= |inodes[d].entries|
      ensures k < |inodes[d].entries| ==> EntryFor(inodes, d, name, k, inodes[d].entries[k].inum)
      ensures forall j :: 0 <= j < k ==> inodes[d].entries[j].inum == 0 || inodes[d].entries[j].name != name
    {
      k := 0;
      while k < |inodes[d].entries|
        invariant k <= |inodes[d].entries|
        invariant Find(inodes[d].entries, name) == Find(inodes[d].entries, name, k)
      {
        if inodes[d].entries[k].inum != 0 && inodes[d].entries[k].name == name {
          return;
        }
        k := k + 1;
      }
    }

    /** Fails exactly when the name is there already. */
    method Dirlink(d: nat, name: string, inum: nat) returns (ok: bool)
      requires d < |inodes| && inodes[d].kind == Dir
      modifies this`inodes
      ensures ok <==> Absent(old(F()), d, name)
      ensures ok <==> NoEntryFor(old(inodes), d, name)
      ensures |inodes| == |old(inodes)| && (ok ==> inodes == old(inodes)[d := old(inodes)[d].(entries := inodes[d].entries)])
      ensures ok ==> PutEntry(old(inodes)[d].entries, inodes[d].entries, Dirent(inum, name), Slot(old(inodes)[d].entries))
      ensures inodes == if ok then WithEntries(old(F()), d, Inserted(old(inodes)[d].entries, Dirent(inum, name))).inodes else old(inodes)
    {
      var found := Dirlookup(d, name);
      if found < |inodes[d].entries| {
        return false;
      }
      var k := 0;
      while k < |inodes[d].entries| && inodes[d].entries[k].inum != 0
        invariant k <= |inodes[d].entries|
        invariant Slot(inodes[d].entries) == Slot(inodes[d].entries, k)
      {
        k := k + 1;
      }
      var e := inodes[d].entries;
      e := if k == |e| then e + [Dirent(inum, name)] else e[k := Dirent(inum, name)];
      inodes := inodes[d := inodes[d].(entries := e)];
      return true;
    }

    method Isdirempty(d: nat) returns (empty: bool)
      requires d < |inodes|
      ensures empty <==> Empty(inodes[d].entries)
      ensures empty <==> forall k :: 2 <= k < |inodes[d].entries| ==> inodes[d].entries[k].inum == 0
    {
      var k := 2;
      while k < |inodes[d].entries|
        invariant forall j :: 2 <= j < k && j < |inodes[d].entries| ==> inodes[d].entries[j].inum == 0
      {
        if inodes[d].entries[k].inum != 0 {
          return false;
        }
        k := k + 1;
      }
      return true;
    }

    /** ialloc: the first free inode, or the number of inodes. */
    method Ialloc() returns (i: nat)
      requires |inodes| > 0
      ensures 0 < i <= |inodes| && (i < |inodes| ==> inodes[i].kind == Free)
      ensures forall j :: 0 < j < i ==> inodes[j].kind != Free
    {
      i := 1;
      while i < |inodes| && inodes[i].kind != Free
        invariant 1 <= i <= |inodes|
        invariant forall j :: 0 < j < i ==> inodes[j].kind != Free
      {
        i := i + 1;
      }
    }

    /**
     create: the inode it returns, 0 for none. An existing file is opened when a file is wanted; a missing
     name is created, unless all inodes are taken, which panics. In a directory that is still linked that keeps
     the invariant; in one that is not, the link counts are wrong afterwards.
     */
    method Create(d: nat, name: string, kind: Kind) returns (i: nat, ghost k: nat)
      requires Inv(F()) && d < |inodes| && inodes[d].kind == Dir && kind != Free
      modifies this`inodes
      ensures Linked(old(F()), d) ==> Inv(F())
      ensures F() != old(F()) ==> (Counts(F()) <==> Linked(old(F()), d))
      ensures !NoEntryFor(old(inodes), d, name) ==> F() == old(F())
      ensures forall j: nat, x: nat :: EntryFor(old(inodes), d, name, j, x) && x < |old(inodes)| ==>
                i == if kind == File && old(inodes)[x].kind == File then x else 0
      ensures NoEntryFor(old(inodes), d, name) && i == |old(inodes)| ==>
                F() == old(F()) && forall j :: 0 < j < |inodes| ==> inodes[j].kind != Free
      ensures NoEntryFor(old(inodes), d, name) && i != |old(inodes)| ==> MadeIn(old(inodes), inodes, d, name, kind, i, k)
      ensures NoEntryFor(old(inodes), d, name) && i != |old(inodes)| ==>
                CodeAllows(old(F()), Links.Create(d, name, kind, i)) && F() == Do(old(F()), Links.Create(d, name, kind, i))
    {
      hide Counts, Tree, Find, MadeIn, PutEntry, Inserted, Slot;
      InodeAt(F(), d);
      k := 0;
      var e := Dirlookup(d, name);
      if e < |inodes[d].entries| {
        i := inodes[d].entries[e].inum;
        OneEntry(F(), d, name, e, i);
        if kind == File && inodes[i].kind == File {
          return;
        }
        return 0, 0;
      }
      i := Ialloc();
      if i == |inodes| {
        return;
      }
      MadeShape(F(), d, name, kind, i);
      LinkRuns.CreateExactly(F(), d, name, kind, i);
      if Linked(F(), d) {
        StepKeeps(F(), Links.Create(d, name, kind, i));
      }
      k := Slot(inodes[d].entries);
      MakeInode(d, kind, i);
      assert Absent(F(), d, name);
      var ok := Dirlink(d, name, i);
    }

    /** The new inode, and for a directory the parent's count for "..". */
    method MakeInode(d: nat, kind: Kind, i: nat)
      requires d < |inodes| && 0 < i < |inodes| && d != i && kind != Free
      modifies this`inodes
      ensures inodes ==
              var f := WithNode(old(F()), i, NewInode(d, kind, i));
              (if kind == Dir then WithLink(f, d, 1) else f).inodes
    {
      inodes := inodes[i := Inode(kind, 1, [])];
      if kind == Dir {
        inodes := inodes[d := inodes[d].(nlink := inodes[d].nlink + 1)];
        var dot := Dirlink(i, ".", i);
        assert inodes[i].entries == [Dirent(i, ".")];
        var dotdot := Dirlink(i, "..", d);
        assert inodes[i].entries == [Dirent(i, "."), Dirent(d, "..")];
        assert inodes[i] == NewInode(d, kind, i);
      }
    }

    /** The first half of sys_link: directories are refused. */
    method LinkBegin(i: nat) returns (ok: bool)
      requires Inv(F()) && i < |inodes| && inodes[i].kind != Free
      modifies this
      ensures Inv(F()) && (ok <==> old(inodes)[i].kind != Dir)
      ensures inodes == if ok then old(inodes)[i := old(inodes)[i].(nlink := old(inodes)[i].nlink + 1)] else old(inodes)
      ensures F() == if ok then Do(old(F()), Links.LinkBegin(i)) else old(F())
    {
      hide Counts, Tree, Find;
      InodeAt(F(), i);
      if inodes[i].kind == Dir {
        return false;
      }
      StepKeeps(F(), Links.LinkBegin(i));
      inodes := inodes[i := inodes[i].(nlink := inodes[i].nlink + 1)];
      pending := pending[i := pending[i] + 1];
      return true;
    }

    /**
     The second half, with the new parent found: an entry, or the count taken back. The invariant is kept unless an
     entry is made in a directory that is no longer linked, and then the link counts are wrong.
     */
    method LinkEnd(i: nat, d: nat, name: string) returns (ok: bool)
      requires |pending| == |inodes| && i < |inodes| && pending[i] > 0 && d < |inodes| && inodes[d].kind == Dir && Inv(F())
      modifies this
      ensures ok <==> NoEntryFor(old(inodes), d, name)
      ensures |inodes| == |old(inodes)| && (ok ==> inodes == old(inodes)[d := old(inodes)[d].(entries := inodes[d].entries)])
      ensures ok ==> PutEntry(old(inodes)[d].entries, inodes[d].entries, Dirent(i, name), Slot(old(inodes)[d].entries))
      ensures !ok ==> inodes == old(inodes)[i := old(inodes)[i].(nlink := old(inodes)[i].nlink - 1)]
      ensures !ok || Linked(old(F()), d) ==> Inv(F())
      ensures ok ==> (Counts(F()) <==> Linked(old(F()), d))
      ensures var a := if ok then Links.LinkEnd(i, d, name) else Links.LinkFail(i);
              CodeAllows(old(F()), a) && F() == Do(old(F()), a)
    {
      hide Counts, Tree, Find;
      InodeAt(F(), i);
      InodeAt(F(), d);
      ghost var a := if Absent(F(), d, name) then Links.LinkEnd(i, d, name) else Links.LinkFail(i);
      if a.LinkFail? || Linked(F(), d) {
        StepKeeps(F(), a);
      }
      if a.LinkEnd? {
        LinkRuns.LinkExactly(F(), i, d, name);
      }
      ok := Dirlink(d, name, i);
      if !ok {
        inodes := inodes[i := inodes[i].(nlink := inodes[i].nlink - 1)];
      }
      pending := pending[i := pending[i] - 1];
    }

    /** sys_unlink in the directory its parent lookup found; the test for nlink < 1 never succeeds. */
    method Unlink(d: nat, name: string) returns (ok: bool, ghost k: nat)
      requires Inv(F()) && d < |inodes| && inodes[d].kind == Dir
      modifies this`inodes
      ensures Inv(F()) && (ok <==> CodeAllows(old(F()), Links.Unlink(d, name)))
      ensures F() == if ok then Do(old(F()), Links.Unlink(d, name)) else old(F())
      ensures name == "." || name == ".." || NoEntryFor(old(inodes), d, name) ==> !ok
      ensures forall j: nat, x: nat :: EntryFor(old(inodes), d, name, j, x) && x < |old(inodes)| && name != "." && name != ".." ==>
                (ok <==> old(inodes)[x].kind != Dir || OnlyDots(old(inodes)[x].entries))
      ensures ok ==> exists x: nat :: EntryFor(old(inodes), d, name, k, x) && TakenFrom(old(inodes), inodes, d, k, x)
    {
      hide Counts, Tree, Find, TakenFrom;
      k := 0;
      InodeAt(F(), d);
      if name == "." || name == ".." {
        return false, 0;
      }
      var e := Dirlookup(d, name);
      if e == |inodes[d].entries| {
        return false, 0;
      }
      var i := inodes[d].entries[e].inum;
      OneEntry(F(), d, name, e, i);
      if inodes[i].kind == Dir {
        var empty := Isdirempty(i);
        if !empty {
          return false, 0;
        }
      }
      UnlinkKeeps(F(), d, name);
      FoundNames(F(), d, name, e, i);
      TakenShape(F(), d, e, i);
      assert inodes[i].nlink >= 1;
      k := e;
      inodes := inodes[d := inodes[d].(entries := inodes[d].entries[e := Dirent(0, "")])];
      if inodes[i].kind == Dir {
        inodes := inodes[d := inodes[d].(nlink := inodes[d].nlink - 1)];
      }
      inodes := inodes[i := inodes[i].(nlink := inodes[i].nlink - 1)];
      assert EntryFor(old(inodes), d, name, k, i) && TakenFrom(old(inodes), inodes, d, k, i);
      return true, k;
    }

    /** iput: with its last reference goes an inode that has no links; any other stays. */
    method Iput(i: nat, refs: nat) returns (freed: bool)
      requires Inv(F()) && i < |inodes| && inodes[i].kind != Free
      modifies this`inodes
      ensures Inv(F()) && (freed <==> old(inodes)[i].nlink == 0 && refs == 1)
      ensures inodes == if freed then old(inodes)[i := Inode(Free, 0, [])] else old(inodes)
    {
      hide Counts, Tree, Find;
      freed := inodes[i].nlink == 0 && refs == 1;
      if freed {
        PendingBound(F(), i);
        StepKeeps(F(), Release(i));
        inodes := inodes[i := Inode(Free, 0, [])];
      }
    }

    /** A file that create has made is what create finds from then on, and no directory or device can take its name. */
    method CreateThenOpen(d: nat, name: string, kind: Kind) returns (i: nat, j: nat)
      requires Inv(F()) && Linked(F(), d) && NoEntryFor(inodes, d, name) && kind != Free
      modifies this`inodes
      ensures i != |inodes| ==> j == if kind == File then i else 0
      ensures i != |inodes| ==> exists k :: MadeIn(old(inodes), inodes, d, name, File, i, k)
    {
      hide Counts, Tree, Find;
      ghost var k, k2;
      i, k := Create(d, name, File);
      if i == |inodes| {
        j := 0;
        return;
      }
      assert EntryFor(inodes, d, name, k, i);
      j, k2 := Create(d, name, kind);
    }
  }
}
