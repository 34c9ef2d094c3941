/** Every step keeps the link-count law and the shape of the tree. */
module LinkSteps {
  import opened Links

  // ---------------------------------------------------------------- create

  lemma SlotPastDots(fs: Fs, d: nat)
    requires 0 < d < |fs.inodes| && Dots(fs, d)
    ensures Slot(fs.inodes[d].entries) >= 2
  {
  }

  /** The inodes after create. */
  lemma CreateAt(fs: Fs, d: nat, name: string, kind: Kind, i: nat)
    requires Inv(fs) && Enabled(fs, Create(d, name, kind, i))
    ensures var g, slot := Created(fs, d, name, kind, i), Slot(fs.inodes[d].entries);
            && |g.inodes| == |fs.inodes| && g.pending == fs.pending && d != i && d != 0 && slot >= 2
            && g.inodes[i] == NewInode(d, kind, i)
            && g.inodes[d] == Inode(Dir, fs.inodes[d].nlink + (if kind == Dir then 1 else 0), Inserted(fs.inodes[d].entries, Dirent(i, name)))
            && forall j :: 0 <= j < |g.inodes| && j != i && j != d ==> g.inodes[j] == fs.inodes[j]
  {
    hide Counts, Tree, Inserted;
    InodeAt(fs, d);
    SlotPastDots(fs, d);
  }

  lemma CreateNames(fs: Fs, d: nat, name: string, kind: Kind, i: nat, d': int, k: int, j: int)
    requires Inv(fs) && Enabled(fs, Create(d, name, kind, i))
    ensures var g, slot := Created(fs, d, name, kind, i), Slot(fs.inodes[d].entries);
            Names(g, d', k, j) <==>
            Names(fs, d', k, j) || (d' == d && k == slot && j == i) || (kind == Dir && d' == i && k == 1 && j == d)
  {
    hide Created, Counts, Tree;
    InodeAt(fs, d);
    InodeAt(fs, i);
    CreateAt(fs, d, name, kind, i);
  }

  lemma SlotUnnamed(fs: Fs, d: nat, i: int)
    requires d < |fs.inodes|
    ensures !Names(fs, d, Slot(fs.inodes[d].entries), i)
  {
  }

  lemma CreateCounts(fs: Fs, d: nat, name: string, kind: Kind, i: nat)
    requires Inv(fs) && Enabled(fs, Create(d, name, kind, i))
    ensures Counts(Created(fs, d, name, kind, i))
  {
    hide Tree, Slot, Created, Refs, Names;
    var g, slot := Created(fs, d, name, kind, i), Slot(fs.inodes[d].entries);
    CreateAt(fs, d, name, kind, i);
    forall d', k, j
      ensures Names(g, d', k, j) <==>
              Names(fs, d', k, j) || (d' == d && k == slot && j == i) || (kind == Dir && d' == i && k == 1 && j == d)
    {
      CreateNames(fs, d, name, kind, i, d', k, j);
    }
    InodeAt(fs, d);
    InodeAt(fs, i);
    ZeroUnnamed(fs, i);
    SlotUnnamed(fs, d, i);
    NoDirectory(fs, i, 1, d);
    forall j | 0 < j < |fs.inodes|
      ensures g.inodes[j].nlink == |Refs(g, j)| + g.pending[j]
    {
      if j == i {
        RefsPlus(fs, g, i, d, slot);
      } else if kind == Dir && j == d {
        RefsPlus(fs, g, d, i, 1);
      } else {
        RefsSame(fs, g, j);
      }
    }
  }

  lemma NoDirectory(fs: Fs, d: int, k: int, i: int)
    requires !Linked(fs, d)
    ensures !Names(fs, d, k, i)
  {
  }

  lemma CreateInodes(fs: Fs, d: nat, name: string, kind: Kind, i: nat, j: int)
    requires Inv(fs) && Enabled(fs, Create(d, name, kind, i)) && 0 <= j < |fs.inodes|
    ensures |Created(fs, d, name, kind, i).inodes| == |fs.inodes| == |Created(fs, d, name, kind, i).pending|
    ensures InodeOk(Created(fs, d, name, kind, i), j)
  {
    hide Created, Counts, Tree;
    CreateAt(fs, d, name, kind, i);
    InodeAt(fs, j);
    InodeAt(fs, i);
  }

  lemma CreateEntries(fs: Fs, d: nat, name: string, kind: Kind, i: nat, d': int, k: int)
    requires Inv(fs) && Enabled(fs, Create(d, name, kind, i))
    requires var g := Created(fs, d, name, kind, i); 0 <= d' < |g.inodes| && 2 <= k < |g.inodes[d'].entries|
    ensures EntryOk(Created(fs, d, name, kind, i), d', k)
  {
    hide Created, Counts;
    CreateAt(fs, d, name, kind, i);
    assert InodeOk(fs, i);
    ZeroUnnamed(fs, i);
    if d' != i && k < |fs.inodes[d'].entries| {
      assert EntryOk(fs, d', k);
    }
  }

  lemma CreateHomes(fs: Fs, d: nat, name: string, kind: Kind, i: nat, c: int)
    requires Inv(fs) && Enabled(fs, Create(d, name, kind, i))
    requires 0 <= c < |fs.inodes| && Linked(Created(fs, d, name, kind, i), c)
    ensures |Created(fs, d, name, kind, i).inodes| == |fs.inodes|
    ensures HomeOk(Created(fs, d, name, kind, i), c)
  {
    hide Created, Counts, Tree;
    CreateAt(fs, d, name, kind, i);
    var g, slot := Created(fs, d, name, kind, i), Slot(fs.inodes[d].entries);
    InodeAt(fs, i);
    if c == i {
      assert g.inodes[d].entries[slot].inum == i;
    } else {
      HomeAt(fs, c);
      var p := fs.inodes[c].entries[1].inum;
      if c != ROOTINO {
        var k :| 2 <= k < |fs.inodes[p].entries| && fs.inodes[p].entries[k].inum == c;
        assert g.inodes[p].entries[k].inum == c;
      }
    }
  }

  lemma CreateTree(fs: Fs, d: nat, name: string, kind: Kind, i: nat)
    requires Inv(fs) && Enabled(fs, Create(d, name, kind, i))
    ensures Tree(Created(fs, d, name, kind, i))
  {
    hide Created, Counts, InodeOk, EntryOk, HomeOk;
    var g := Created(fs, d, name, kind, i);
    CreateAt(fs, d, name, kind, i);
    forall j | 0 <= j < |fs.inodes| ensures InodeOk(g, j) {
      CreateInodes(fs, d, name, kind, i, j);
    }
    forall d', k | 0 <= d' < |g.inodes| && 2 <= k < |g.inodes[d'].entries| ensures EntryOk(g, d', k) {
      CreateEntries(fs, d, name, kind, i, d', k);
    }
    forall c | 0 <= c < |g.inodes| && Linked(g, c) ensures HomeOk(g, c) {
      CreateHomes(fs, d, name, kind, i, c);
    }
  }

  // ---------------------------------------------------------------- unlink

  /** What sys_unlink has found when it starts to write: entry k of d names i. */
  ghost predicate Found(fs: Fs, d: nat, name: string, k: nat, i: nat) {
    && d < |fs.inodes| && k < |fs.inodes[d].entries| && i < |fs.inodes|
    && k == Find(fs.inodes[d].entries, name) && i == fs.inodes[d].entries[k].inum
    && Inv(fs) && CodeAllows(fs, Unlink(d, name))
  }

  lemma FoundNames(fs: Fs, d: nat, name: string, k: nat, i: nat)
    requires Found(fs, d, name, k, i)
    ensures k >= 2 && 0 < i < |fs.inodes| && Names(fs, d, k, i) && fs.inodes[i].nlink > 0 && EntryOk(fs, d, k)
    ensures d != i
    ensures fs.inodes[i].kind == Dir ==> fs.inodes[i].nlink == 1 && fs.inodes[i].entries[1].inum == d && |fs.inodes[i].entries| >= 2
  {
    hide Counts, Tree, Find;
    InodeAt(fs, d);
    FoundPast(fs, d, name, k, i);
    EntryAt(fs, d, k);
    NamedPositive(fs, d, k, i);
    if fs.inodes[i].kind == Dir {
      OneRef(fs, d, k, i);
    }
  }

  lemma FoundPast(fs: Fs, d: nat, name: string, k: nat, i: nat)
    requires Found(fs, d, name, k, i) && InodeOk(fs, d)
    ensures k >= 2 && 0 < i < |fs.inodes| && Names(fs, d, k, i)
  {
    hide Counts, Tree;
  }

  lemma TwoIn<T>(s: set<T>, a: T, b: T)
    requires a in s && b in s && a != b
    ensures |s| >= 2
  {
    assert b in s - {a} && |s| == |s - {a}| + 1;
    assert s - {a} != {};
  }

  /** The parent of a directory is also named from above, so it stays linked. */
  lemma ParentTwo(fs: Fs, d: nat, name: string, k: nat, i: nat)
    requires Found(fs, d, name, k, i) && fs.inodes[i].kind == Dir
    ensures fs.inodes[d].nlink >= 2
  {
    hide Tree, Find, CodeAllows;
    FoundNames(fs, d, name, k, i);
    InodeAt(fs, i);
    InodeAt(fs, d);
    HomeAt(fs, d);
    assert Names(fs, i, 1, d);
    var p := fs.inodes[d].entries[1].inum;
    var kp := 1;
    if d != ROOTINO {
      kp :| 2 <= kp < |fs.inodes[p].entries| && fs.inodes[p].entries[kp].inum == d;
      InodeAt(fs, p);
    }
    assert Names(fs, p, kp, d);
    TwoIn(Refs(fs, d), (i, 1), (p, kp));
  }

  lemma UnlinkAt(fs: Fs, d: nat, name: string, k: nat, i: nat)
    requires Found(fs, d, name, k, i)
    ensures k < |fs.inodes[d].entries| && d != i && i < |fs.inodes|
    ensures var g := Unlinked(fs, d, k);
            && |g.inodes| == |fs.inodes| && g.pending == fs.pending
            && g.inodes[i] == fs.inodes[i].(nlink := fs.inodes[i].nlink - 1)
            && g.inodes[d] == Inode(Dir, fs.inodes[d].nlink - (if fs.inodes[i].kind == Dir then 1 else 0), fs.inodes[d].entries[k := Dirent(0, "")])
            && (forall j :: 0 <= j < |g.inodes| && j != i && j != d ==> g.inodes[j] == fs.inodes[j])
            && Linked(g, d) && (fs.inodes[i].kind == Dir ==> !Linked(g, i))
  {
    hide Counts, Tree, Find;
    FoundNames(fs, d, name, k, i);
    if fs.inodes[i].kind == Dir {
      ParentTwo(fs, d, name, k, i);
    }
  }

  lemma UnlinkNames(fs: Fs, d: nat, name: string, k: nat, i: nat, d': int, k': int, j: int)
    requires Found(fs, d, name, k, i)
    ensures k < |fs.inodes[d].entries| && i < |fs.inodes|
    ensures Names(Unlinked(fs, d, k), d', k', j) <==>
            Names(fs, d', k', j) && !(d' == d && k' == k) && !(fs.inodes[i].kind == Dir && d' == i)
  {
    hide Counts, Tree, Find, Unlinked;
    UnlinkAt(fs, d, name, k, i);
    FoundNames(fs, d, name, k, i);
  }

  /** All that a removed directory's entries name from outside is its parent, by "..". */
  lemma EmptyNames(fs: Fs, d: nat, name: string, k: nat, i: nat, k': int, j: int)
    requires Found(fs, d, name, k, i) && fs.inodes[i].kind == Dir
    ensures Names(fs, i, k', j) <==> k' == 1 && j == d
  {
    hide Counts, Tree, Find;
    FoundNames(fs, d, name, k, i);
    InodeAt(fs, i);
    InodeAt(fs, d);
  }

  lemma NamesOne(fs: Fs, d: int, k: int, i: int, j: int)
    requires Names(fs, d, k, i)
    ensures Names(fs, d, k, j) <==> j == i
  {
  }

  lemma UnlinkCountAt(fs: Fs, d: nat, name: string, k: nat, i: nat, j: int)
    requires Found(fs, d, name, k, i) && 0 < j < |fs.inodes|
    ensures k < |fs.inodes[d].entries| && i < |fs.inodes|
    ensures var g := Unlinked(fs, d, k);
            |g.inodes| == |fs.inodes| == |g.pending| && g.inodes[j].nlink == |Refs(g, j)| + g.pending[j]
  {
    hide Tree, Find, Unlinked, EntryOk, CodeAllows, Names, Refs;
    UnlinkAt(fs, d, name, k, i);
    FoundNames(fs, d, name, k, i);
    var g := Unlinked(fs, d, k);
    forall d', k'
      ensures Names(g, d', k', j) <==>
              Names(fs, d', k', j) && !(d' == d && k' == k) && !(fs.inodes[i].kind == Dir && d' == i)
    {
      UnlinkNames(fs, d, name, k, i, d', k', j);
    }
    forall k' | fs.inodes[i].kind == Dir
      ensures Names(fs, i, k', j) <==> k' == 1 && j == d
    {
      EmptyNames(fs, d, name, k, i, k', j);
    }
    NamesOne(fs, d, k, i, j);
    if j == i {
      RefsPlus(g, fs, i, d, k);
    } else if fs.inodes[i].kind == Dir && j == d {
      RefsPlus(g, fs, d, i, 1);
    } else {
      RefsSame(fs, g, j);
    }
  }

  lemma UnlinkInodes(fs: Fs, d: nat, name: string, k: nat, i: nat, j: int)
    requires Found(fs, d, name, k, i) && 0 <= j < |fs.inodes|
    ensures k < |fs.inodes[d].entries| && i < |fs.inodes|
    ensures |Unlinked(fs, d, k).inodes| == |fs.inodes| == |Unlinked(fs, d, k).pending| && InodeOk(Unlinked(fs, d, k), j)
  {
    hide Counts, Tree, Find, Unlinked;
    UnlinkAt(fs, d, name, k, i);
    FoundNames(fs, d, name, k, i);
    InodeAt(fs, j);
    InodeAt(fs, i);
  }

  lemma UnlinkEntries(fs: Fs, d: nat, name: string, k: nat, i: nat, d': int, k': int)
    requires Found(fs, d, name, k, i) && 0 <= d' < |fs.inodes| && 2 <= k' < |fs.inodes[d'].entries|
    ensures k < |fs.inodes[d].entries| && i < |fs.inodes|
    ensures var g := Unlinked(fs, d, k);
            |g.inodes| == |fs.inodes| && |g.inodes[d'].entries| == |fs.inodes[d'].entries| && EntryOk(g, d', k')
  {
    hide Counts, Tree, Find, Unlinked;
    UnlinkAt(fs, d, name, k, i);
    FoundNames(fs, d, name, k, i);
    EntryAt(fs, d', k');
  }

  lemma UnlinkHomes(fs: Fs, d: nat, name: string, k: nat, i: nat, c: int)
    requires Found(fs, d, name, k, i) && 0 <= c < |fs.inodes|
    ensures k < |fs.inodes[d].entries| && i < |fs.inodes|
    ensures var g := Unlinked(fs, d, k);
            |g.inodes| == |fs.inodes| && (Linked(g, c) ==> HomeOk(g, c))
  {
    hide Counts, Tree, Find, Unlinked;
    UnlinkAt(fs, d, name, k, i);
    FoundNames(fs, d, name, k, i);
    var g := Unlinked(fs, d, k);
    if Linked(g, c) {
      HomeAt(fs, c);
      var p := fs.inodes[c].entries[1].inum;
      if c != ROOTINO {
        var kp :| 2 <= kp < |fs.inodes[p].entries| && fs.inodes[p].entries[kp].inum == c;
        InodeAt(fs, c);
        assert g.inodes[p].entries[kp].inum == c;
      }
    }
  }

  lemma UnlinkCounts(fs: Fs, d: nat, name: string, k: nat, i: nat)
    requires Found(fs, d, name, k, i)
    ensures Counts(Unlinked(fs, d, k))
  {
    hide Unlinked, Refs, Tree, Find, CodeAllows;
    var g := Unlinked(fs, d, k);
    UnlinkAt(fs, d, name, k, i);
    forall j | 0 < j < |g.inodes| ensures g.inodes[j].nlink == |Refs(g, j)| + g.pending[j] {
      UnlinkCountAt(fs, d, name, k, i, j);
    }
  }

  lemma UnlinkTree(fs: Fs, d: nat, name: string, k: nat, i: nat)
    requires Found(fs, d, name, k, i)
    ensures Tree(Unlinked(fs, d, k))
  {
    hide Unlinked, Counts, InodeOk, EntryOk, HomeOk, Find, CodeAllows;
    var g := Unlinked(fs, d, k);
    UnlinkAt(fs, d, name, k, i);
    UnlinkRoot(fs, d, name, k, i);
    forall j | 0 <= j < |fs.inodes| ensures InodeOk(g, j) {
      UnlinkInodes(fs, d, name, k, i, j);
    }
    forall d', k' | 0 <= d' < |g.inodes| && 2 <= k' < |g.inodes[d'].entries| ensures EntryOk(g, d', k') {
      UnlinkEntries(fs, d, name, k, i, d', k');
    }
    forall c | 0 <= c < |g.inodes| && Linked(g, c) ensures HomeOk(g, c) {
      UnlinkHomes(fs, d, name, k, i, c);
    }
  }

  lemma UnlinkKeeps(fs: Fs, d: nat, name: string)
    requires Inv(fs) && CodeAllows(fs, Unlink(d, name))
    ensures Inv(Do(fs, Unlink(d, name)))
  {
    hide Unlinked, Counts, Tree, Find;
    var k := Find(fs.inodes[d].entries, name);
    UnlinkCounts(fs, d, name, k, fs.inodes[d].entries[k].inum);
    UnlinkTree(fs, d, name, k, fs.inodes[d].entries[k].inum);
  }

  lemma UnlinkRoot(fs: Fs, d: nat, name: string, k: nat, i: nat)
    requires Found(fs, d, name, k, i)
    ensures k < |fs.inodes[d].entries| && i < |fs.inodes|
    ensures Linked(Unlinked(fs, d, k), ROOTINO) && Unlinked(fs, d, k).inodes[0] == Inode(Free, 0, [])
  {
    hide Counts, Find, Unlinked;
    UnlinkAt(fs, d, name, k, i);
    FoundNames(fs, d, name, k, i);
  }

  // ---------------------------------------------------------------- link and release

  lemma LinkEndAt(fs: Fs, i: nat, d: nat, name: string)
    requires Inv(fs) && CodeAllows(fs, LinkEnd(i, d, name))
    ensures var g, slot := Do(fs, LinkEnd(i, d, name)), Slot(fs.inodes[d].entries);
            && |g.inodes| == |g.pending| == |fs.inodes| && d != i && d != 0 && i != 0 && slot >= 2
            && fs.inodes[i].kind != Dir && fs.inodes[i].kind != Free
            && g.pending == fs.pending[i := fs.pending[i] - 1]
            && g.inodes[d] == fs.inodes[d].(entries := Inserted(fs.inodes[d].entries, Dirent(i, name)))
            && forall j :: 0 <= j < |g.inodes| && j != d ==> g.inodes[j] == fs.inodes[j]
  {
    hide Counts, Inserted, Find;
    InodeAt(fs, d);
    InodeAt(fs, i);
    SlotPastDots(fs, d);
  }

  lemma LinkEndNames(fs: Fs, i: nat, d: nat, name: string, d': int, k: int, j: int)
    requires Inv(fs) && Enabled(fs, LinkEnd(i, d, name))
    ensures Names(Do(fs, LinkEnd(i, d, name)), d', k, j) <==>
            Names(fs, d', k, j) || (d' == d && k == Slot(fs.inodes[d].entries) && j == i)
  {
    hide Counts, Tree, Do;
    LinkEndAt(fs, i, d, name);
    InodeAt(fs, d);
  }

  lemma LinkEndCounts(fs: Fs, i: nat, d: nat, name: string)
    requires Inv(fs) && Enabled(fs, LinkEnd(i, d, name))
    ensures Counts(Do(fs, LinkEnd(i, d, name)))
  {
    hide Tree, Do, Slot, Refs, Names;
    var g, slot := Do(fs, LinkEnd(i, d, name)), Slot(fs.inodes[d].entries);
    LinkEndAt(fs, i, d, name);
    forall d', k, j
      ensures Names(g, d', k, j) <==> Names(fs, d', k, j) || (d' == d && k == slot && j == i)
    {
      LinkEndNames(fs, i, d, name, d', k, j);
    }
    SlotUnnamed(fs, d, i);
    forall j | 0 < j < |fs.inodes|
      ensures g.inodes[j].nlink == |Refs(g, j)| + g.pending[j]
    {
      if j == i {
        RefsPlus(fs, g, i, d, slot);
      } else {
        RefsSame(fs, g, j);
      }
    }
  }

  lemma LinkEndTree(fs: Fs, i: nat, d: nat, name: string)
    requires Inv(fs) && Enabled(fs, LinkEnd(i, d, name))
    ensures Tree(Do(fs, LinkEnd(i, d, name)))
  {
    hide Counts, Do, InodeOk, EntryOk, HomeOk;
    var g := Do(fs, LinkEnd(i, d, name));
    LinkEndAt(fs, i, d, name);
    forall j | 0 <= j < |fs.inodes| ensures InodeOk(g, j) {
      LinkEndInodes(fs, i, d, name, j);
    }
    forall d', k | 0 <= d' < |g.inodes| && 2 <= k < |g.inodes[d'].entries| ensures EntryOk(g, d', k) {
      LinkEndEntries(fs, i, d, name, d', k);
    }
    forall c | 0 <= c < |g.inodes| && Linked(g, c) ensures HomeOk(g, c) {
      LinkEndHomes(fs, i, d, name, c);
    }
  }

  lemma LinkEndInodes(fs: Fs, i: nat, d: nat, name: string, j: int)
    requires Inv(fs) && Enabled(fs, LinkEnd(i, d, name)) && 0 <= j < |fs.inodes|
    ensures var g := Do(fs, LinkEnd(i, d, name));
            |g.inodes| == |g.pending| == |fs.inodes| && InodeOk(g, j)
  {
    hide Counts, Tree, Do;
    LinkEndAt(fs, i, d, name);
    InodeAt(fs, j);
  }

  lemma LinkEndEntries(fs: Fs, i: nat, d: nat, name: string, d': int, k: int)
    requires Inv(fs) && Enabled(fs, LinkEnd(i, d, name))
    requires var g := Do(fs, LinkEnd(i, d, name)); 0 <= d' < |g.inodes| && 2 <= k < |g.inodes[d'].entries|
    ensures EntryOk(Do(fs, LinkEnd(i, d, name)), d', k)
  {
    hide Counts, Tree, Do;
    LinkEndAt(fs, i, d, name);
    if k < |fs.inodes[d'].entries| {
      EntryAt(fs, d', k);
    }
  }

  lemma LinkEndHomes(fs: Fs, i: nat, d: nat, name: string, c: int)
    requires Inv(fs) && Enabled(fs, LinkEnd(i, d, name)) && 0 <= c < |fs.inodes|
    ensures var g := Do(fs, LinkEnd(i, d, name));
            |g.inodes| == |fs.inodes| && (Linked(g, c) ==> HomeOk(g, c))
  {
    hide Counts, Tree, Do;
    LinkEndAt(fs, i, d, name);
    var g := Do(fs, LinkEnd(i, d, name));
    if Linked(g, c) {
      HomeAt(fs, c);
      InodeAt(fs, c);
      var p := fs.inodes[c].entries[1].inum;
      if c != ROOTINO {
        var kp :| 2 <= kp < |fs.inodes[p].entries| && fs.inodes[p].entries[kp].inum == c;
        assert g.inodes[p].entries[kp].inum == c;
      }
    }
  }

  /** Raising or lowering a pending link moves the count and the pending links together. */
  lemma PendingKeeps(fs: Fs, a: Action)
    requires Inv(fs) && CodeAllows(fs, a) && (a.LinkBegin? || a.LinkFail?)
    ensures Inv(Do(fs, a))
  {
    InodeAt(fs, a.i);
    var g := Do(fs, a);
    assert forall d :: Linked(g, d) <==> Linked(fs, d);
    assert forall d, k, j :: Names(g, d, k, j) <==> Names(fs, d, k, j);
    forall j | 0 < j < |fs.inodes|
      ensures g.inodes[j].nlink == |Refs(g, j)| + g.pending[j]
    {
      RefsSame(fs, g, j);
    }
    PendingTree(fs, a);
  }

  lemma PendingBound(fs: Fs, i: nat)
    requires Inv(fs) && i < |fs.inodes|
    ensures |fs.pending| == |fs.inodes| && fs.inodes[i].nlink >= fs.pending[i]
  {
    assert |Refs(fs, i)| >= 0;
  }

  lemma PendingInodes(fs: Fs, a: Action, j: int)
    requires Inv(fs) && CodeAllows(fs, a) && (a.LinkBegin? || a.LinkFail?) && 0 <= j < |fs.inodes|
    ensures InodeOk(Do(fs, a), j)
  {
    hide Counts, Tree, Find;
    PendingBound(fs, a.i);
    InodeAt(fs, a.i);
    InodeAt(fs, j);
  }

  lemma PendingTree(fs: Fs, a: Action)
    requires Inv(fs) && CodeAllows(fs, a) && (a.LinkBegin? || a.LinkFail?)
    ensures Tree(Do(fs, a))
  {
    hide Counts, Tree, Find;
    var g := Do(fs, a);
    InodeAt(fs, a.i);
    assert forall d :: 0 <= d < |g.inodes| ==> g.inodes[d].entries == fs.inodes[d].entries && g.inodes[d].kind == fs.inodes[d].kind;
    forall j | 0 <= j < |g.inodes| ensures InodeOk(g, j) {
      PendingInodes(fs, a, j);
    }
    SameShape(fs, g);
  }

  /** Where kinds, entries and linked directories stay, so does the tree. */
  lemma SameShape(fs: Fs, g: Fs)
    requires Tree(fs) && |g.inodes| == |g.pending| == |fs.inodes| && g.inodes[0] == fs.inodes[0] && g.pending[0] == 0
    requires forall d :: 0 <= d < |g.inodes| ==> g.inodes[d].entries == fs.inodes[d].entries && g.inodes[d].kind == fs.inodes[d].kind
    requires forall d :: 0 <= d < |g.inodes| ==> (Linked(g, d) <==> Linked(fs, d))
    requires forall j :: 0 <= j < |g.inodes| ==> InodeOk(g, j)
    ensures Tree(g)
  {
    forall d, k | 0 <= d < |g.inodes| && 2 <= k < |g.inodes[d].entries| ensures EntryOk(g, d, k) {
      assert EntryOk(fs, d, k);
    }
    forall c | 0 <= c < |g.inodes| && Linked(g, c) ensures HomeOk(g, c) {
      assert HomeOk(fs, c);
    }
  }

  lemma ReleaseKeeps(fs: Fs, i: nat)
    requires Inv(fs) && CodeAllows(fs, Release(i))
    ensures Inv(Do(fs, Release(i)))
  {
    InodeAt(fs, i);
    var g := Do(fs, Release(i));
    assert forall d :: Linked(g, d) <==> Linked(fs, d);
    assert forall d, k, j :: Names(g, d, k, j) <==> Names(fs, d, k, j);
    forall j | 0 < j < |fs.inodes|
      ensures g.inodes[j].nlink == |Refs(g, j)| + g.pending[j]
    {
      RefsSame(fs, g, j);
    }
    ReleaseTree(fs, i);
  }

  lemma ReleaseTree(fs: Fs, i: nat)
    requires Inv(fs) && CodeAllows(fs, Release(i))
    ensures Tree(Do(fs, Release(i)))
  {
    var g := Do(fs, Release(i));
    InodeAt(fs, i);
    forall j | 0 <= j < |g.inodes| ensures InodeOk(g, j) {
      assert InodeOk(fs, j);
    }
    forall d, k | 0 <= d < |g.inodes| && 2 <= k < |g.inodes[d].entries| ensures EntryOk(g, d, k) {
      assert EntryOk(fs, d, k);
    }
    forall c | 0 <= c < |g.inodes| && Linked(g, c) ensures HomeOk(g, c) {
      assert HomeOk(fs, c);
    }
  }

  lemma StepKeeps(fs: Fs, a: Action)
    requires Inv(fs) && Enabled(fs, a)
    ensures Inv(Do(fs, a))
  {
    hide Counts, Tree, Created, Unlinked, Find;
    match a
    case Create(d, name, kind, i) =>
      CreateCounts(fs, d, name, kind, i);
      CreateTree(fs, d, name, kind, i);
    case LinkBegin(i) => PendingKeeps(fs, a);
    case LinkEnd(i, d, name) =>
      LinkEndCounts(fs, i, d, name);
      LinkEndTree(fs, i, d, name);
    case LinkFail(i) => PendingKeeps(fs, a);
    case Unlink(d, name) => UnlinkKeeps(fs, d, name);
    case Release(i) => ReleaseKeeps(fs, i);
  }
}
