/** The link-count law over whole runs, and the exact condition under which create and link keep it. */
module LinkRuns {
  import opened Links
  import opened LinkSteps

  /** A file system that holds nothing but its root directory. */
  ghost predicate Formatted(fs: Fs) {
    && |fs.inodes| == |fs.pending| && ROOTINO < |fs.inodes|
    && fs.inodes[ROOTINO] == Inode(Dir, 1, [Dirent(ROOTINO, "."), Dirent(ROOTINO, "..")])
    && (forall i :: 0 <= i < |fs.inodes| && i != ROOTINO ==> fs.inodes[i] == Inode(Free, 0, []))
    && (forall i :: 0 <= i < |fs.inodes| ==> fs.pending[i] == 0)
  }

  lemma FormattedInv(fs: Fs)
    requires Formatted(fs)
    ensures Inv(fs)
  {
    assert forall d, k, i :: Names(fs, d, k, i) <==> d == ROOTINO && k == 1 && i == ROOTINO;
    forall i | 0 < i < |fs.inodes|
      ensures fs.inodes[i].nlink == |Refs(fs, i)| + fs.pending[i]
    {
      if i == ROOTINO {
        assert Refs(fs, i) == {(ROOTINO, 1)};
      } else {
        assert Refs(fs, i) == {};
      }
    }
  }

  ghost predicate Run(fss: seq<Fs>, acts: seq<Action>) {
    && |fss| == |acts| + 1
    && Formatted(fss[0])
    && forall k :: 0 <= k < |acts| ==> Enabled(fss[k], acts[k]) && fss[k + 1] == Do(fss[k], acts[k])
  }

  lemma {:induction false} RunInv(fss: seq<Fs>, acts: seq<Action>, k: nat)
    requires Run(fss, acts) && k < |fss|
    ensures Inv(fss[k])
  {
    if k == 0 {
      FormattedInv(fss[0]);
    } else {
      RunInv(fss, acts, k - 1);
      StepKeeps(fss[k - 1], acts[k - 1]);
    }
  }

  /**
   In every state of every run whose parents are still linked: the count of an inode is the number of entries
   that name it from linked directories, not counting ".", plus the calls of sys_link under way; a free inode is
   named by nothing; and no directory holds a name twice.
   */
  lemma LinkCounts(fss: seq<Fs>, acts: seq<Action>, k: nat, i: nat)
    requires Run(fss, acts) && k < |fss| && 0 < i < |fss[k].inodes|
    ensures |fss[k].pending| == |fss[k].inodes| && fss[k].inodes[i].nlink == |Refs(fss[k], i)| + fss[k].pending[i]
    ensures fss[k].inodes[i].kind == Free ==> Refs(fss[k], i) == {}
    ensures fss[k].inodes[i].kind == Dir ==> NamesDiffer(fss[k].inodes[i].entries)
  {
    RunInv(fss, acts, k);
    InodeAt(fss[k], i);
  }

  /** sys_unlink never meets an inode without links, and a directory it removes has no link left. */
  lemma UnlinkSound(fs: Fs, d: nat, name: string)
    requires CodeAllows(fs, Unlink(d, name)) && Inv(fs)
    ensures var i := fs.inodes[d].entries[Find(fs.inodes[d].entries, name)].inum;
            fs.inodes[i].nlink >= 1 && |Do(fs, Unlink(d, name)).inodes| == |fs.inodes|
    ensures var i := fs.inodes[d].entries[Find(fs.inodes[d].entries, name)].inum;
            fs.inodes[i].kind == Dir ==> Do(fs, Unlink(d, name)).inodes[i].nlink == 0
  {
    hide Counts, Tree, Find;
    var k := Find(fs.inodes[d].entries, name);
    var i := fs.inodes[d].entries[k].inum;
    FoundNames(fs, d, name, k, i);
    UnlinkAt(fs, d, name, k, i);
  }

  // ---------------------------------------------------------------- parents that are gone

  /** The code asks only for a directory; in one that is no longer linked, create always spoils the counts. */
  lemma CreateExactly(fs: Fs, d: nat, name: string, kind: Kind, i: nat)
    requires Inv(fs) && CodeAllows(fs, Create(d, name, kind, i))
    ensures Counts(Do(fs, Create(d, name, kind, i))) <==> Linked(fs, d)
  {
    if Linked(fs, d) {
      CreateCounts(fs, d, name, kind, i);
    } else {
      CreateSpoils(fs, d, name, kind, i);
    }
  }

  lemma CreateSpoils(fs: Fs, d: nat, name: string, kind: Kind, i: nat)
    requires Inv(fs) && CodeAllows(fs, Create(d, name, kind, i)) && !Linked(fs, d)
    ensures !Counts(Created(fs, d, name, kind, i))
  {
    hide Tree, Find;
    InodeAt(fs, d);
    InodeAt(fs, i);
    var g := Created(fs, d, name, kind, i);
    if kind != Dir {
      ZeroUnnamed(fs, i);
      forall d', k
        ensures !Names(g, d', k, i)
      {
        assert !Names(fs, d', k, i);
      }
      assert Refs(g, i) == {};
    } else {
      SpoilsParent(fs, d, name, i);
    }
  }

  /** mkdir links the removed directory again, and its ".." counts again for a directory that was not told. */
  lemma SpoilsParent(fs: Fs, d: nat, name: string, i: nat)
    requires Inv(fs) && CodeAllows(fs, Create(d, name, Dir, i)) && !Linked(fs, d)
    ensures !Counts(Created(fs, d, name, Dir, i))
  {
    hide Tree, Find;
    InodeAt(fs, d);
    InodeAt(fs, i);
    SlotPastDots(fs, d);
    var g, slot, p := Created(fs, d, name, Dir, i), Slot(fs.inodes[d].entries), fs.inodes[d].entries[1].inum;
    assert Names(g, d, 1, p);
    if p == i {
      assert Names(g, d, slot, i);
      TwoIn(Refs(g, i), (d, 1), (d, slot));
    } else if p == d {
      assert Names(g, i, 1, d);
      TwoIn(Refs(g, d), (d, 1), (i, 1));
    } else {
      assert forall d', k :: (d', k) != (d, 1) ==> (Names(g, d', k, p) <==> Names(fs, d', k, p));
      RefsPlus(fs, g, p, d, 1);
    }
  }

  /** The same for the last step of sys_link. */
  lemma LinkExactly(fs: Fs, i: nat, d: nat, name: string)
    requires Inv(fs) && CodeAllows(fs, LinkEnd(i, d, name))
    ensures Counts(Do(fs, LinkEnd(i, d, name))) <==> Linked(fs, d)
  {
    if Linked(fs, d) {
      LinkEndCounts(fs, i, d, name);
    } else {
      LinkEndAt(fs, i, d, name);
      var g := Do(fs, LinkEnd(i, d, name));
      assert forall d', k :: Names(g, d', k, i) <==> Names(fs, d', k, i);
      RefsSame(fs, g, i);
    }
  }

  // ---------------------------------------------------------------- runs that show it

  function DirInode(i: nat, nlink: int, rest: seq<Dirent>): Inode {
    Inode(Dir, nlink, [Dirent(i, "."), Dirent(ROOTINO, "..")] + rest)
  }

  /** Four inodes: none, the root, and two more; `links` calls of sys_link are under way for the last. */
  function FourInodes(root: Inode, two: Inode, three: Inode, links: nat): Fs {
    Fs([Inode(Free, 0, []), root, two, three], [0, 0, 0, links])
  }

  lemma FindAfterDots(i: nat, e: seq<Dirent>, name: string)
    requires i != 0 && name != "." && name != ".." && |e| <= 2
    ensures var d := DirInode(i, 1, e).entries;
            && (e == [] ==> Find(d, name) == 2 && Slot(d) == 2)
            && (|e| >= 1 && e[0].inum != 0 ==> Find(d, name) == if e[0].name == name then 2 else Find(d, name, 3))
            && (|e| == 1 && e[0].inum != 0 ==> Slot(d) == 3 && (e[0].name != name ==> Find(d, name) == 3))
            && (|e| == 2 && e[0].inum != 0 && e[1].inum != 0 && e[0].name != name && e[1].name == name ==> Find(d, name) == 3)
  {
    var d := DirInode(i, 1, e).entries;
    assert Find(d, name) == Find(d, name, 1) == Find(d, name, 2);
    assert Slot(d) == Slot(d, 1) == Slot(d, 2);
  }

  /** mkdir of "d" behind at most one other entry of the root. */
  lemma Made(e: seq<Dirent>, three: Inode, links: nat)
    requires |e| <= 1 && (e != [] ==> e[0].inum == 3 && e[0].name == "f")
    ensures var s := FourInodes(DirInode(1, 1, e), Inode(Free, 0, []), three, links);
            && Enabled(s, Create(ROOTINO, "d", Dir, 2))
            && Do(s, Create(ROOTINO, "d", Dir, 2)) == FourInodes(DirInode(1, 2, e + [Dirent(2, "d")]), DirInode(2, 1, []), three, links)
  {
    hide Find, Slot;
    FindAfterDots(1, e, "d");
    var s := FourInodes(DirInode(1, 1, e), Inode(Free, 0, []), three, links);
    assert Inserted(DirInode(1, 1, e).entries, Dirent(2, "d")) == DirInode(1, 2, e + [Dirent(2, "d")]).entries;
    assert NewInode(1, Dir, 2) == DirInode(2, 1, []);
    assert Do(s, Create(ROOTINO, "d", Dir, 2)).inodes == FourInodes(DirInode(1, 2, e + [Dirent(2, "d")]), DirInode(2, 1, []), three, links).inodes;
  }

  /** rmdir of "d" behind at most one other entry of the root. */
  lemma Removed(e: seq<Dirent>, three: Inode, links: nat)
    requires |e| <= 1 && (e != [] ==> e[0].inum == 3 && e[0].name == "f")
    ensures var s := FourInodes(DirInode(1, 2, e + [Dirent(2, "d")]), DirInode(2, 1, []), three, links);
            && Enabled(s, Unlink(ROOTINO, "d"))
            && Do(s, Unlink(ROOTINO, "d")) == FourInodes(DirInode(1, 1, e + [Dirent(0, "")]), DirInode(2, 0, []), three, links)
  {
    hide Find, Slot;
    FindAfterDots(1, e + [Dirent(2, "d")], "d");
    var s := FourInodes(DirInode(1, 2, e + [Dirent(2, "d")]), DirInode(2, 1, []), three, links);
    assert DirInode(1, 2, e + [Dirent(2, "d")]).entries[2 + |e| := Dirent(0, "")] == DirInode(1, 1, e + [Dirent(0, "")]).entries;
    assert Do(s, Unlink(ROOTINO, "d")).inodes == FourInodes(DirInode(1, 1, e + [Dirent(0, "")]), DirInode(2, 0, []), three, links).inodes;
  }

  /** Directory 2 has been made and removed again but not yet released: the code still creates files in it. */
  lemma RemovedParent() returns (fss: seq<Fs>, acts: seq<Action>)
    ensures Run(fss, acts) && |acts| == 2 && |fss[2].inodes| == 4
    ensures fss[2].inodes[2] == DirInode(2, 0, [])
    ensures CodeAllows(fss[2], Create(2, "f", File, 3)) && !Counts(Do(fss[2], Create(2, "f", File, 3)))
  {
    hide Counts, Tree, Refs, Names, Do, Find;
    var none := Inode(Free, 0, []);
    Made([], none, 0);
    Removed([], none, 0);
    var g := FourInodes(DirInode(1, 1, [] + [Dirent(0, "")]), DirInode(2, 0, []), none, 0);
    fss := [FourInodes(DirInode(1, 1, []), none, none, 0), FourInodes(DirInode(1, 2, [] + [Dirent(2, "d")]), DirInode(2, 1, []), none, 0), g];
    acts := [Create(ROOTINO, "d", Dir, 2), Unlink(ROOTINO, "d")];
    RunInv(fss, acts, 2);
    FindAfterDots(2, [], "f");
    CreateExactly(g, 2, "f", File, 3);
  }

  lemma FileThenLink() returns (f: Fs, g: Fs)
    ensures var none := Inode(Free, 0, []);
            var s := FourInodes(DirInode(1, 1, []), none, none, 0);
            && Enabled(s, Create(ROOTINO, "f", File, 3)) && f == Do(s, Create(ROOTINO, "f", File, 3))
            && Enabled(f, LinkBegin(3)) && g == Do(f, LinkBegin(3))
            && g == FourInodes(DirInode(1, 1, [Dirent(3, "f")]), none, Inode(File, 2, []), 1)
  {
    FindAfterDots(1, [], "f");
    var none := Inode(Free, 0, []);
    var s := FourInodes(DirInode(1, 1, []), none, none, 0);
    f := FourInodes(DirInode(1, 1, [Dirent(3, "f")]), none, Inode(File, 1, []), 0);
    g := FourInodes(DirInode(1, 1, [Dirent(3, "f")]), none, Inode(File, 2, []), 1);
    assert Inserted(DirInode(1, 1, []).entries, Dirent(3, "f")) == DirInode(1, 1, [Dirent(3, "f")]).entries;
    assert Do(s, Create(ROOTINO, "f", File, 3)).inodes == f.inodes;
    assert Do(f, LinkBegin(3)) == g;
  }

  /** The same removed directory with a call of sys_link under way, which goes on to make its entry there. */
  lemma RemovedLinkParent() returns (fss: seq<Fs>, acts: seq<Action>)
    ensures Run(fss, acts) && |acts| == 4 && |fss[4].inodes| == 4
    ensures fss[4].inodes[2] == DirInode(2, 0, [])
    ensures CodeAllows(fss[4], LinkEnd(3, 2, "g")) && !Counts(Do(fss[4], LinkEnd(3, 2, "g")))
  {
    hide Counts, Tree, Refs, Names, Do, Find;
    var f1, f2 := FileThenLink();
    var e, file := [Dirent(3, "f")], Inode(File, 2, []);
    Made(e, file, 1);
    Removed(e, file, 1);
    var f3 := FourInodes(DirInode(1, 2, e + [Dirent(2, "d")]), DirInode(2, 1, []), file, 1);
    var f4 := FourInodes(DirInode(1, 1, e + [Dirent(0, "")]), DirInode(2, 0, []), file, 1);
    fss := [FourInodes(DirInode(1, 1, []), Inode(Free, 0, []), Inode(Free, 0, []), 0), f1, f2, f3, f4];
    acts := [Create(ROOTINO, "f", File, 3), LinkBegin(3), Create(ROOTINO, "d", Dir, 2), Unlink(ROOTINO, "d")];
    RunInv(fss, acts, 4);
    FindAfterDots(2, [], "g");
    LinkExactly(f4, 3, 2, "g");
  }
}
