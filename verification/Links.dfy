/**
 Directory entries and link counts: create, mkdir, link, unlink and the release of unlinked inodes, over the
 whole directory tree. A name is the part of a 14-byte name field that namecmp looks at (see DirName).
 */
module Links {

  datatype Kind = Free | Dir | File | Dev

  datatype Dirent = Dirent(inum: nat, name: string)

  datatype Inode = Inode(kind: Kind, nlink: int, entries: seq<Dirent>)

  /** pending[i]: calls of sys_link that have raised i's count and have not yet made or given up their entry. */
  datatype Fs = Fs(inodes: seq<Inode>, pending: seq<nat>)

  const ROOTINO := 1

  /** The first live entry with this name, or the number of entries. */
  function Find(entries: seq<Dirent>, name: string, from: nat := 0): (k: nat)
    requires from <= |entries|
    ensures from <= k <= |entries|
    ensures k < |entries| ==> entries[k].inum != 0 && entries[k].name == name
    ensures forall j :: from <= j < k ==> entries[j].inum == 0 || entries[j].name != name
    decreases |entries| - from
  {
    if from == |entries| || (entries[from].inum != 0 && entries[from].name == name) then from
    else Find(entries, name, from + 1)
  }

  /** The first unused entry, or the number of entries. */
  function Slot(entries: seq<Dirent>, from: nat := 0): (k: nat)
    requires from <= |entries|
    ensures from <= k <= |entries|
    ensures k < |entries| ==> entries[k].inum == 0
    ensures forall j :: from <= j < k ==> entries[j].inum != 0
    decreases |entries| - from
  {
    if from == |entries| || entries[from].inum == 0 then from else Slot(entries, from + 1)
  }

  /** What dirlink makes of a directory. */
  function Inserted(entries: seq<Dirent>, e: Dirent): (r: seq<Dirent>)
    ensures |r| >= |entries| && Slot(entries) < |r| && r[Slot(entries)] == e
    ensures forall k :: 0 <= k < |r| && k != Slot(entries) ==> k < |entries| && r[k] == entries[k]
  {
    if Slot(entries) == |entries| then entries + [e] else entries[Slot(entries) := e]
  }

  /** isdirempty looks beyond the first two entries. */
  predicate Empty(entries: seq<Dirent>) {
    forall k :: 2 <= k < |entries| ==> entries[k].inum == 0
  }

  predicate Linked(fs: Fs, d: int) {
    0 <= d < |fs.inodes| && fs.inodes[d].kind == Dir && fs.inodes[d].nlink > 0
  }

  /** Entry k of linked directory d names i, and is not its ".". */
  predicate Names(fs: Fs, d: int, k: int, i: int) {
    && Linked(fs, d)
    && 0 <= k < |fs.inodes[d].entries|
    && fs.inodes[d].entries[k].inum == i != 0
    && fs.inodes[d].entries[k].name != "."
  }

  /** All the entries that name inode i. */
  ghost function Refs(fs: Fs, i: int): set<(int, int)> {
    set d, k | 0 <= d < |fs.inodes| && 0 <= k < |fs.inodes[d].entries| && Names(fs, d, k, i) :: (d, k)
  }

  /** The link-count law. */
  ghost predicate Counts(fs: Fs) {
    && |fs.pending| == |fs.inodes|
    && forall i {:trigger Refs(fs, i)} :: 0 < i < |fs.inodes| ==> fs.inodes[i].nlink == |Refs(fs, i)| + fs.pending[i]
  }

  /** "." and ".." come first. */
  predicate Dots(fs: Fs, d: int)
    requires 0 <= d < |fs.inodes|
  {
    var e := fs.inodes[d].entries;
    && |e| >= 2 && e[0] == Dirent(d, ".") && e[1].name == ".." && 0 < e[1].inum < |fs.inodes|
  }

  ghost predicate NamesDiffer(entries: seq<Dirent>) {
    forall j, k :: 0 <= j < k < |entries| && entries[j].inum != 0 && entries[k].inum != 0 ==> entries[j].name != entries[k].name
  }

  /** Each inode by itself. */
  ghost predicate InodeOk(fs: Fs, i: int)
    requires 0 <= i < |fs.inodes| == |fs.pending|
  {
    var n := fs.inodes[i];
    && n.nlink >= 0
    && (n.kind == Free ==> n.nlink == 0 && fs.pending[i] == 0)
    && (n.kind != Dir ==> n.entries == [])
    && (n.kind == Dir ==> fs.pending[i] == 0 && Dots(fs, i) && NamesDiffer(n.entries) && (n.nlink == 0 ==> Empty(n.entries)))
    && (forall k :: 0 <= k < |n.entries| ==> n.entries[k].inum < |fs.inodes|)
  }

  /** A directory's entry for another directory and that one's ".." answer each other. */
  ghost predicate EntryOk(fs: Fs, d: int, k: int)
    requires 0 <= d < |fs.inodes| && 2 <= k < |fs.inodes[d].entries|
  {
    var i := fs.inodes[d].entries[k].inum;
    && 0 <= i < |fs.inodes|
    && (i != 0 && fs.inodes[i].kind == Dir ==>
          && i != ROOTINO
          && |fs.inodes[i].entries| >= 2 && fs.inodes[i].entries[1].inum == d
          && forall j :: 2 <= j < |fs.inodes[d].entries| && fs.inodes[d].entries[j].inum == i ==> j == k)
  }

  /** A linked directory other than the root has its entry in the directory its ".." names. */
  ghost predicate HomeOk(fs: Fs, c: int)
    requires 0 <= c < |fs.inodes|
  {
    && Dots(fs, c)
    && var p := fs.inodes[c].entries[1].inum;
       if c == ROOTINO then p == ROOTINO
       else Linked(fs, p) && exists k :: 2 <= k < |fs.inodes[p].entries| && fs.inodes[p].entries[k].inum == c
  }

  ghost predicate Tree(fs: Fs) {
    && |fs.inodes| == |fs.pending| && ROOTINO < |fs.inodes| && Linked(fs, ROOTINO)
    && fs.inodes[0] == Inode(Free, 0, []) && fs.pending[0] == 0
    && (forall i {:trigger InodeOk(fs, i)} :: 0 <= i < |fs.inodes| ==> InodeOk(fs, i))
    && (forall d, k {:trigger EntryOk(fs, d, k)} :: 0 <= d < |fs.inodes| && 2 <= k < |fs.inodes[d].entries| ==> EntryOk(fs, d, k))
    && (forall c {:trigger HomeOk(fs, c)} :: 0 <= c < |fs.inodes| && Linked(fs, c) ==> HomeOk(fs, c))
  }

  ghost predicate Inv(fs: Fs) {
    Counts(fs) && Tree(fs)
  }

  // ---------------------------------------------------------------- steps

  datatype Action =
    | Create(d: nat, name: string, kind: Kind, i: nat)
    | LinkBegin(i: nat)
    | LinkEnd(i: nat, d: nat, name: string)
    | LinkFail(i: nat)
    | Unlink(d: nat, name: string)
    | Release(i: nat)

  predicate Absent(fs: Fs, d: nat, name: string) {
    d < |fs.inodes| && fs.inodes[d].kind == Dir && Find(fs.inodes[d].entries, name) == |fs.inodes[d].entries|
  }

  /** What the code asks before it acts. That the parent is still linked is asked by Enabled, not by the code. */
  predicate CodeAllows(fs: Fs, a: Action) {
    && |fs.inodes| == |fs.pending|
    && match a
       case Create(d, name, kind, i) => Absent(fs, d, name) && 0 < i < |fs.inodes| && fs.inodes[i].kind == Free && kind != Free
       case LinkBegin(i) => i < |fs.inodes| && fs.inodes[i].kind != Dir && fs.inodes[i].kind != Free
       case LinkEnd(i, d, name) => i < |fs.inodes| && fs.pending[i] > 0 && Absent(fs, d, name)
       case LinkFail(i) => i < |fs.inodes| && fs.pending[i] > 0
       case Unlink(d, name) =>
         && d < |fs.inodes| && fs.inodes[d].kind == Dir && name != "." && name != ".."
         && var k := Find(fs.inodes[d].entries, name);
            k < |fs.inodes[d].entries|
            && var i := fs.inodes[d].entries[k].inum;
               i < |fs.inodes| && (fs.inodes[i].kind == Dir ==> Empty(fs.inodes[i].entries))
       case Release(i) => i < |fs.inodes| && fs.inodes[i].kind != Free && fs.inodes[i].nlink == 0 && fs.pending[i] == 0
  }

  predicate Enabled(fs: Fs, a: Action) {
    && CodeAllows(fs, a)
    && (a.Create? || a.LinkEnd? ==> Linked(fs, a.d))
  }

  function WithNode(fs: Fs, i: nat, n: Inode): Fs
    requires i < |fs.inodes|
  {
    fs.(inodes := fs.inodes[i := n])
  }

  function WithLink(fs: Fs, i: nat, delta: int): Fs
    requires i < |fs.inodes|
  {
    WithNode(fs, i, fs.inodes[i].(nlink := fs.inodes[i].nlink + delta))
  }

  function WithEntries(fs: Fs, d: nat, entries: seq<Dirent>): Fs
    requires d < |fs.inodes|
  {
    WithNode(fs, d, fs.inodes[d].(entries := entries))
  }

  function NewInode(d: nat, kind: Kind, i: nat): Inode {
    Inode(kind, 1, if kind == Dir then [Dirent(i, "."), Dirent(d, "..")] else [])
  }

  /** create, past the lookup that found nothing. */
  function Created(fs: Fs, d: nat, name: string, kind: Kind, i: nat): Fs
    requires d < |fs.inodes| && i < |fs.inodes|
  {
    var f := WithNode(fs, i, NewInode(d, kind, i));
    var g := if kind == Dir then WithLink(f, d, 1) else f;
    WithEntries(g, d, Inserted(g.inodes[d].entries, Dirent(i, name)))
  }

  /** sys_unlink, past its checks: entry k of d goes. */
  function Unlinked(fs: Fs, d: nat, k: nat): Fs
    requires d < |fs.inodes| && k < |fs.inodes[d].entries| && fs.inodes[d].entries[k].inum < |fs.inodes|
  {
    var i := fs.inodes[d].entries[k].inum;
    var f := WithEntries(fs, d, fs.inodes[d].entries[k := Dirent(0, "")]);
    var g := if fs.inodes[i].kind == Dir then WithLink(f, d, -1) else f;
    WithLink(g, i, -1)
  }

  function Do(fs: Fs, a: Action): Fs
    requires CodeAllows(fs, a)
  {
    match a
    case Create(d, name, kind, i) => Created(fs, d, name, kind, i)
    case LinkBegin(i) => WithLink(fs, i, 1).(pending := fs.pending[i := fs.pending[i] + 1])
    case LinkEnd(i, d, name) =>
      WithEntries(fs, d, Inserted(fs.inodes[d].entries, Dirent(i, name))).(pending := fs.pending[i := fs.pending[i] - 1])
    case LinkFail(i) => WithLink(fs, i, -1).(pending := fs.pending[i := fs.pending[i] - 1])
    case Unlink(d, name) => Unlinked(fs, d, Find(fs.inodes[d].entries, name))
    case Release(i) => WithNode(fs, i, Inode(Free, 0, []))
  }

  // ---------------------------------------------------------------- reading the tree at one place

  lemma InodeAt(fs: Fs, i: int)
    requires Tree(fs) && 0 <= i < |fs.inodes|
    ensures |fs.pending| == |fs.inodes| && InodeOk(fs, i) && !Linked(fs, 0) && Linked(fs, ROOTINO) && fs.inodes[0] == Inode(Free, 0, []) && fs.pending[0] == 0
  {
  }

  lemma HomeAt(fs: Fs, c: int)
    requires Tree(fs) && 0 <= c < |fs.inodes| && Linked(fs, c)
    ensures HomeOk(fs, c)
  {
  }

  lemma EntryAt(fs: Fs, d: int, k: int)
    requires Tree(fs) && 0 <= d < |fs.inodes| && 2 <= k < |fs.inodes[d].entries|
    ensures EntryOk(fs, d, k)
  {
  }

  // ---------------------------------------------------------------- counting

  lemma RefsSame(f: Fs, g: Fs, i: int)
    requires forall d, k :: Names(g, d, k, i) <==> Names(f, d, k, i)
    ensures Refs(g, i) == Refs(f, i)
  {
  }

  lemma RefsPlus(f: Fs, g: Fs, i: int, d: int, k: int)
    requires Names(g, d, k, i) && !Names(f, d, k, i)
    requires forall d', k' :: (d', k') != (d, k) ==> (Names(g, d', k', i) <==> Names(f, d', k', i))
    ensures Refs(g, i) == Refs(f, i) + {(d, k)} && |Refs(g, i)| == |Refs(f, i)| + 1
  {
    assert (d, k) !in Refs(f, i);
  }

  /** A live entry keeps its inode's count positive. */
  lemma NamedPositive(fs: Fs, d: int, k: int, i: int)
    requires Counts(fs) && Names(fs, d, k, i) && 0 < i < |fs.inodes|
    ensures fs.inodes[i].nlink > 0
  {
    assert (d, k) in Refs(fs, i);
  }

  /** Nothing names an inode whose count is zero. */
  lemma ZeroUnnamed(fs: Fs, i: int)
    requires Inv(fs) && 0 < i < |fs.inodes| && fs.inodes[i].nlink == 0
    ensures forall d, k :: !Names(fs, d, k, i)
    ensures forall d, k :: 0 <= d < |fs.inodes| && 2 <= k < |fs.inodes[d].entries| ==> fs.inodes[d].entries[k].inum != i
  {
    forall d, k | Names(fs, d, k, i)
      ensures false
    {
      NamedPositive(fs, d, k, i);
    }
    forall d, k | 0 <= d < |fs.inodes| && 2 <= k < |fs.inodes[d].entries|
      ensures fs.inodes[d].entries[k].inum != i
    {
      InodeAt(fs, d);
      assert !Names(fs, d, k, i);
    }
  }

  lemma OnlyEntry(fs: Fs, d: nat, k: nat, i: nat, d': int, k': int)
    requires Inv(fs) && Names(fs, d, k, i) && k >= 2 && i < |fs.inodes|
    requires fs.inodes[i].kind == Dir && Empty(fs.inodes[i].entries) && Names(fs, d', k', i)
    ensures d' == d && k' == k
  {
    hide Tree, Counts;
    EntryAt(fs, d, k);
    InodeAt(fs, d');
    HomeAt(fs, d');
    if k' >= 2 {
      EntryAt(fs, d', k');
    }
  }

  /** An empty directory is named by its entry and by nothing else. */
  lemma OneRef(fs: Fs, d: nat, k: nat, i: nat)
    requires Inv(fs) && Names(fs, d, k, i) && k >= 2 && i < |fs.inodes|
    requires fs.inodes[i].kind == Dir && Empty(fs.inodes[i].entries)
    ensures Refs(fs, i) == {(d, k)} && fs.inodes[i].nlink == 1 && d != i
  {
    hide Tree;
    InodeAt(fs, i);
    forall d', k' | Names(fs, d', k', i)
      ensures d' == d && k' == k
    {
      OnlyEntry(fs, d, k, i, d', k');
    }
    assert (d, k) in Refs(fs, i);
  }
}
