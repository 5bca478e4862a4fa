/** The paths the workload of vsfs.py knows, over a consistent image, and the operations on both. */
module VsfsNames {
  import opened Vsfs

  const MAX_ENTRIES: nat := 32

  /** A path is the list of its components; the root's is empty. */
  type Path = seq<string>

  /** The image with the workload's lists of files and directories and its map from paths to inodes. */
  datatype World = World(image: Image, files: set<Path>, dirs: set<Path>, inum: map<Path, nat>)

  function Parent(p: Path): Path
    requires p != []
  {
    p[..|p| - 1]
  }

  function Last(p: Path): string
    requires p != []
  {
    p[|p| - 1]
  }

  predicate HasName(entries: Entries, name: string) { exists k :: 0 <= k < |entries| && entries[k].0 == name }

  predicate Has(entries: Entries, name: string,
      i: nat) { exists k :: 0 <= k < |entries| && entries[k] == (name, i as int) }

  predicate UniqueNames(entries: Entries) { forall j, k :: 0 <= j < k < |entries| ==> entries[j].0 != entries[k].0 }

  /** Path `d` is a directory, with a block. */
  predicate IsDirPath(w: World, d: Path) {
    && d in w.inum && w.inum[d] < |w.image.inodes| && w.image.inodes[w.inum[d]].ftype.Dir?
    && 0 <= w.image.inodes[w.inum[d]].addr < |w.image.data|
  }

  function BlockOf(w: World, d: Path): nat
    requires IsDirPath(w, d)
  {
    w.image.inodes[w.inum[d]].addr
  }

  function EntriesOf(w: World, d: Path): Entries
    requires IsDirPath(w, d)
  {
    w.image.data[BlockOf(w, d)].entries
  }

  ghost predicate DirsOk(w: World) {
    && [] in w.dirs
    && (forall d :: d in w.dirs ==> IsDirPath(w, d) && UniqueNames(EntriesOf(w, d)) && |EntriesOf(w, d)| <= MAX_ENTRIES)
    && (forall d, e :: d in w.dirs && e in w.dirs && w.inum[d] == w.inum[e] ==> d == e)
  }

  ghost predicate FileOk(w: World,
      f: Path) { f in w.inum && w.inum[f] < |w.image.inodes| && w.image.inodes[w.inum[f]].ftype.File? }

  /** The path is listed in its parent's directory, under its own inode. */
  ghost predicate ListedOk(w: World, p: Path) {
    p != [] && p in w.inum && Parent(p) in w.dirs && IsDirPath(w, Parent(p))
      && Has(EntriesOf(w, Parent(p)), Last(p), w.inum[p])
  }

  ghost predicate PathsOk(w: World) {
    && DirsOk(w)
    && (forall f :: f in w.files ==> FileOk(w, f))
    && (forall p :: p in w.files || (p in w.dirs && p != []) ==> ListedOk(w, p))
  }

  ghost predicate Good(w: World) { Consistent(w.image) && PathsOk(w) }

  // ---------- what the directory entries need ----------

  lemma DirPathLive(w: World, d: Path)
    requires Good(w) && d in w.dirs
    ensures IsDirPath(w, d) && Live(w.image, w.inum[d]) && DirBlock(w.image, BlockOf(w, d))
  {
    assert AddrOk(w.image, w.inum[d]);
  }

  /** Two directories have different blocks. */
  lemma OwnBlocks(w: World, d: Path, e: Path)
    requires Good(w) && d in w.dirs && e in w.dirs && IsDirPath(w, d) && IsDirPath(w, e)
    requires BlockOf(w, d) == BlockOf(w, e)
    ensures d == e
  {
    assert Owns(w.image, w.inum[d], BlockOf(w, d)) && Owns(w.image, w.inum[e], BlockOf(w, d));
  }

  /** Inodes in use keep type and block. */
  ghost predicate Kept(s: Image, t: Image, i: int) {
    && 0 <= i < |s.inodes| && |t.inodes| == |s.inodes| && |t.data| == |s.data|
    && t.inodes[i].ftype == s.inodes[i].ftype && t.inodes[i].addr == s.inodes[i].addr
  }

  ghost predicate AllKept(s: Image, t: Image) {
    && Sized(s) && |s.ibits| == |s.inodes|
    && (forall i :: 0 <= i < |s.inodes| && s.ibits[i] ==> Kept(s, t, i))
  }

  lemma UniqueAdd(entries: Entries, name: string, i: nat)
    requires UniqueNames(entries) && !HasName(entries, name)
    ensures UniqueNames(entries + [(name, i)]) && Has(entries + [(name, i)], name, i)
    ensures forall n, j: nat :: Has(entries, n, j) ==> Has(entries + [(name, i)], n, j)
  {
    var e' := entries + [(name, i)];
    assert e'[|entries|] == (name, i as int);
    forall n, j: nat | Has(entries, n, j) ensures Has(e', n, j) {
      var k :| 0 <= k < |entries| && entries[k] == (n, j as int);
      assert e'[k] == (n, j as int);
    }
  }

  lemma UniqueRemove(entries: Entries, k: nat)
    requires UniqueNames(entries) && k < |entries|
    ensures UniqueNames(Without(entries, k))
    ensures forall n, j: nat :: Has(entries, n, j) && n != entries[k].0 ==> Has(Without(entries, k), n, j)
  {
    var e' := Without(entries, k);
    forall n, j: nat | Has(entries, n, j) && n != entries[k].0 ensures Has(e', n, j) {
      var m :| 0 <= m < |entries| && entries[m] == (n, j as int);
      assert e'[if m < k then m else m - 1] == (n, j as int);
    }
  }

  // ---------- a new path ----------

  function Added(w: World, t: Image, p: Path, i: nat, isDir: bool): World {
    World(t, if isDir then w.files else w.files + {p}, if isDir then w.dirs + {p} else w.dirs, w.inum[p := i])
  }

  /** A path not listed by its parent is not in use. */
  lemma NewPath(w: World, parent: Path, name: string)
    requires Good(w) && parent in w.dirs && IsDirPath(w, parent) && !HasName(EntriesOf(w, parent), name)
    ensures parent + [name] !in w.files && parent + [name] !in w.dirs
  {
    var p := parent + [name];
    assert Parent(p) == parent && Last(p) == name;
    if p in w.files || p in w.dirs { ListedName(w, p); }
  }

  lemma ListedName(w: World, p: Path)
    requires ListedOk(w, p)
    ensures HasName(EntriesOf(w, Parent(p)), Last(p))
  {
    var k :| 0 <= k < |EntriesOf(w, Parent(p))| && EntriesOf(w, Parent(p))[k] == (Last(p), w.inum[p] as int);
  }

  /** The image after an entry for a new path was added to its parent's block. */
  ghost predicate Grown(w: World, t: Image, parent: Path, name: string, i: nat)
    requires IsDirPath(w, parent)
  {
    && AllKept(w.image, t) && Consistent(t) && |t.data| == |w.image.data|
    && (forall d :: d in w.dirs && IsDirPath(w, d) ==>
          t.data[BlockOf(w, d)].entries == EntriesOf(w, d) + if d == parent then [(name, i as int)] else [])
  }

  lemma AddedKeepsDir(w: World, t: Image, parent: Path, name: string, i: nat, isDir: bool, d: Path)
    requires Good(w) && parent in w.dirs && IsDirPath(w, parent) && !HasName(EntriesOf(w, parent), name) && d in w.dirs
    requires |EntriesOf(w, parent)| < MAX_ENTRIES && Grown(w, t, parent, name, i)
    ensures var w' := Added(w, t, parent + [name], i, isDir);
      && IsDirPath(w', d) && w'.inum[d] == w.inum[d]
        && UniqueNames(EntriesOf(w', d)) && |EntriesOf(w', d)| <= MAX_ENTRIES
      && (forall n, j: nat :: Has(EntriesOf(w, d), n, j) ==> Has(EntriesOf(w', d), n, j))
      && (d == parent ==> Has(EntriesOf(w', d), name, i))
  {
    NewPath(w, parent, name);
    DirPathLive(w, d);
    UniqueAdd(EntriesOf(w, parent), name, i);
    assert EntriesOf(w, d) + [] == EntriesOf(w, d);
  }

  lemma AddedDirs(w: World, t: Image, parent: Path, name: string, i: nat, isDir: bool)
    requires Good(w) && parent in w.dirs && IsDirPath(w, parent) && !HasName(EntriesOf(w, parent), name)
    requires |EntriesOf(w, parent)| < MAX_ENTRIES && Grown(w, t, parent, name, i) && i < |t.inodes|
    requires if isDir then !Live(w.image, i) && NewDirBlock(t, i) else t.inodes[i].ftype.File?
    ensures DirsOk(Added(w, t, parent + [name], i, isDir))
  {
    hide Consistent, HasName, Has, UniqueNames, AllKept, Grown, ListedOk, FileOk;
    var p, w' := parent + [name], Added(w, t, parent + [name], i, isDir);
    NewPath(w, parent, name);
    forall d | d in w.dirs
      ensures IsDirPath(w', d) && w'.inum[d] == w.inum[d] && UniqueNames(EntriesOf(w', d))
      ensures |EntriesOf(w', d)| <= MAX_ENTRIES
      ensures IsDirPath(w, d) && Live(w.image, w.inum[d])
    {
      AddedKeepsDir(w, t, parent, name, i, isDir, d);
      DirPathLive(w, d);
    }
  }

  lemma AddedListed(w: World, t: Image, parent: Path, name: string, i: nat, isDir: bool, q: Path)
    requires Good(w) && parent in w.dirs && IsDirPath(w, parent) && !HasName(EntriesOf(w, parent), name)
    requires |EntriesOf(w, parent)| < MAX_ENTRIES && Grown(w, t, parent, name, i) && i < |t.inodes|
    requires if isDir then !Live(w.image, i) && NewDirBlock(t, i) else t.inodes[i].ftype.File?
    requires var w' := Added(w, t, parent + [name], i, isDir); q in w'.files || (q in w'.dirs && q != [])
    ensures ListedOk(Added(w, t, parent + [name], i, isDir), q)
  {
    hide Consistent, HasName, Has, UniqueNames, AllKept, Grown, DirsOk, FileOk;
    var p := parent + [name];
    assert Parent(p) == parent && Last(p) == name;
    if q == p {
      AddedKeepsDir(w, t, parent, name, i, isDir, parent);
    } else {
      assert ListedOk(w, q);
      AddedKeepsDir(w, t, parent, name, i, isDir, Parent(q));
    }
  }

  /** Adding a path keeps all paths right; for a new directory, its inode and block are new. */
  lemma AddedGood(w: World, t: Image, parent: Path, name: string, i: nat, isDir: bool)
    requires Good(w) && parent in w.dirs && IsDirPath(w, parent) && !HasName(EntriesOf(w, parent), name)
    requires |EntriesOf(w, parent)| < MAX_ENTRIES && Grown(w, t, parent, name, i) && i < |t.inodes|
    requires if isDir then !Live(w.image, i) && NewDirBlock(t, i) else t.inodes[i].ftype.File?
    ensures Good(Added(w, t, parent + [name], i, isDir))
  {
    hide Consistent, HasName, Has, UniqueNames, AllKept, DirsOk, ListedOk, IsDirPath, Live, NewDirBlock;
    var p, w' := parent + [name], Added(w, t, parent + [name], i, isDir);
    NewPath(w, parent, name);
    AddedDirs(w, t, parent, name, i, isDir);
    forall f | f in w'.files ensures FileOk(w', f) {
      if f != p { FileKept(w, t, f); }
    }
    forall q | q in w'.files || (q in w'.dirs && q != []) ensures ListedOk(w', q) {
      AddedListed(w, t, parent, name, i, isDir, q);
    }
  }

  /** The directory just made: its own block holds "." and "..". */
  ghost predicate NewDirBlock(t: Image, i: nat) {
    && i < |t.inodes| && t.inodes[i].ftype.Dir? && 0 <= t.inodes[i].addr < |t.data|
    && UniqueNames(t.data[t.inodes[i].addr].entries) && |t.data[t.inodes[i].addr].entries| <= MAX_ENTRIES
  }

  lemma FileKept(w: World, t: Image, f: Path)
    requires Good(w) && AllKept(w.image, t) && f in w.files
    ensures f in w.inum && w.inum[f] < |t.inodes| && t.inodes[w.inum[f]].ftype.File?
  {
    assert FileOk(w, f);
    assert Live(w.image, w.inum[f]);
    assert Kept(w.image, t, w.inum[f]);
  }

  // ---------- a path removed ----------

  /** First entry of that name, as delDirEntry searches it. */
  function FirstNamed(entries: Entries, name: string): (k: nat)
    requires HasName(entries, name)
    ensures k < |entries| && entries[k].0 == name && forall j :: 0 <= j < k ==> entries[j].0 != name
  {
    if entries[0].0 == name then 0
    else
      assert HasName(entries[1..], name) by {
        var k :| 0 <= k < |entries| && entries[k].0 == name;
        assert entries[1..][k - 1].0 == name;
      }
      1 + FirstNamed(entries[1..], name)
  }

  /** The image after unlinking: with the last reference the file's block and inode go too. */
  function Deleted(s: Image, b: nat, k: nat, i: nat): Image
    requires Sized(s) && b < |s.data| && k < |s.data[b].entries| && i < |s.inodes| && s.inodes[i].addr < |s.data|
  {
    if s.inodes[i].refCnt == 1 then WithEntries(Released(s, i), b, Without(s.data[b].entries, k))
      else Unlinked(s, b, k, i)
  }

  lemma StaleCount(t: Image, i: nat, r: int)
    requires Consistent(t) && i < |t.inodes| && !t.ibits[i]
    ensures Consistent(WithInode(t, i, t.inodes[i].(refCnt := r)))
  {
    var u := WithInode(t, i, t.inodes[i].(refCnt := r));
    SameOwners(t, u);
    forall b: nat | b < |u.data| ensures EntriesLive(u, b) { assert EntriesLive(t, b); }
  }

  lemma DeletedConsistent(s: Image, b: nat, k: nat, i: nat)
    requires Consistent(s) && DirBlock(s, b) && k < |s.data[b].entries| && s.data[b].entries[k].1 == i
    requires i < |s.inodes| && s.inodes[i].ftype.File?
    ensures Sized(s) && s.inodes[i].addr < |s.data| && Live(s, i) && Consistent(Deleted(s, b, k, i))
  {
    assert EntriesLive(s, b) && AddrOk(s, i);
    UnlinkedConsistent(s, b, k, i);
    if s.inodes[i].refCnt == 1 {
      var u := Unlinked(s, b, k, i);
      assert u.inodes[i].refCnt == Refs(u.data, i);
      ReleasedConsistent(u, i);
      StaleCount(Released(u, i), i, 1);
      assert Deleted(s, b, k, i) == WithInode(Released(u, i), i, Released(u, i).inodes[i].(refCnt := 1));
    }
  }

  function Removed(w: World, f: Path): World
    requires f != [] && IsDirPath(w, Parent(f)) && HasName(EntriesOf(w, Parent(f)), Last(f)) && f in w.inum
    requires Sized(w.image) && w.inum[f] < |w.image.inodes| && w.image.inodes[w.inum[f]].addr < |w.image.data|
  {
    var b := BlockOf(w, Parent(f));
    World(Deleted(w.image, b, FirstNamed(w.image.data[b].entries, Last(f)), w.inum[f]), w.files - {f}, w.dirs, w.inum)
  }

  /** Everything deleteFile relies on: the parent's directory has one entry of the name, and it is the file's. */
  lemma Removable(w: World, f: Path)
    requires Good(w) && f in w.files
    ensures f != [] && f in w.inum && Parent(f) in w.dirs && IsDirPath(w, Parent(f))
    ensures HasName(EntriesOf(w, Parent(f)), Last(f))
    ensures var k := FirstNamed(EntriesOf(w, Parent(f)), Last(f));
      EntriesOf(w, Parent(f))[k] == (Last(f), w.inum[f] as int)
    ensures FileOk(w, f) && Live(w.image, w.inum[f]) && Sized(w.image)
    ensures w.image.inodes[w.inum[f]].addr < |w.image.data|
    ensures DirBlock(w.image, BlockOf(w, Parent(f))) && w.image.inodes[w.inum[f]].addr != BlockOf(w, Parent(f))
  {
    assert ListedOk(w, f) && FileOk(w, f) && AddrOk(w.image, w.inum[f]);
    DirPathLive(w, Parent(f));
    var entries := EntriesOf(w, Parent(f));
    var k :| 0 <= k < |entries| && entries[k] == (Last(f), w.inum[f] as int);
    assert HasName(entries, Last(f));
    assert k == FirstNamed(entries, Last(f));
  }

  lemma RemovedDir(w: World, f: Path, d: Path)
    requires Good(w) && f in w.files && d in w.dirs
    requires f != [] && IsDirPath(w, Parent(f)) && HasName(EntriesOf(w, Parent(f)), Last(f)) && f in w.inum
    requires Sized(w.image) && w.inum[f] < |w.image.inodes| && w.image.inodes[w.inum[f]].addr < |w.image.data|
    ensures var w' := Removed(w, f);
      && IsDirPath(w', d) && UniqueNames(EntriesOf(w', d)) && |EntriesOf(w', d)| <= MAX_ENTRIES
      && (forall n, j: nat :: Has(EntriesOf(w, d), n, j) && (d != Parent(f) || n != Last(f)) ==>
        Has(EntriesOf(w', d), n, j))
  {
    hide Consistent, HasName, Has, UniqueNames, Deleted;
    Removable(w, f);
    DirPathLive(w, d);
    DirPathLive(w, Parent(f));
    var b, i, k := BlockOf(w, Parent(f)), w.inum[f], FirstNamed(EntriesOf(w, Parent(f)), Last(f));
    UniqueRemove(EntriesOf(w, Parent(f)), k);
    if d != Parent(f) && BlockOf(w, d) == b { OwnBlocks(w, d, Parent(f)); }
    DeletedKeeps(w.image, b, k, i, w.inum[d], BlockOf(w, d));
  }

  /** Deleting a file leaves directories and their blocks alone, but for the entry. */
  lemma DeletedKeeps(s: Image, b: nat, k: nat, i: nat, j: nat, c: nat)
    requires Consistent(s) && DirBlock(s, b) && DirBlock(s, c) && k < |s.data[b].entries|
    requires i < |s.inodes| && s.inodes[i].ftype.File? && s.inodes[i].addr < |s.data| && j < |s.inodes|
    requires s.inodes[j].ftype.Dir?
    ensures Sized(s)
    ensures var t := Deleted(s, b, k, i);
      && |t.data| == |s.data| && |t.inodes| == |s.inodes|
      && t.inodes[j].ftype == s.inodes[j].ftype && t.inodes[j].addr == s.inodes[j].addr
      && t.data[c].entries == if c == b then Without(s.data[b].entries, k) else s.data[c].entries
  {
    hide RefsOk;
    assert AddrOk(s, i);
  }

  lemma SamePath(p: Path, f: Path)
    requires p != [] && f != [] && Parent(p) == Parent(f) && Last(p) == Last(f)
    ensures p == f
  {
    assert p == Parent(p) + [Last(p)] && f == Parent(f) + [Last(f)];
  }

  lemma RemovedGood(w: World, f: Path)
    requires Good(w) && f in w.files
    ensures f != [] && f in w.inum && IsDirPath(w, Parent(f)) && HasName(EntriesOf(w, Parent(f)), Last(f))
    ensures Sized(w.image) && w.inum[f] < |w.image.inodes| && w.image.inodes[w.inum[f]].addr < |w.image.data|
    ensures Good(Removed(w, f))
  {
    hide Consistent, HasName, Has, UniqueNames, Deleted, DirsOk, ListedOk, FileOk, IsDirPath;
    Removable(w, f);
    var w', b := Removed(w, f), BlockOf(w, Parent(f));
    DeletedConsistent(w.image, b, FirstNamed(EntriesOf(w, Parent(f)), Last(f)), w.inum[f]);
    RemovedDirs(w, f);
    forall p | p in w'.files || (p in w'.dirs && p != []) ensures ListedOk(w', p) {
      if p == f { FileNotDir(w, f); }
      RemovedListed(w, f, p);
    }
    forall g | g in w'.files ensures FileOk(w', g) { RemovedFile(w, f, g); }
  }

  lemma FileNotDir(w: World, f: Path)
    requires Good(w) && f in w.files
    ensures f !in w.dirs
  {
    assert FileOk(w, f);
  }

  lemma RemovedDirs(w: World, f: Path)
    requires Good(w) && f in w.files
    requires f != [] && f in w.inum && IsDirPath(w, Parent(f)) && HasName(EntriesOf(w, Parent(f)), Last(f))
    requires Sized(w.image) && w.inum[f] < |w.image.inodes| && w.image.inodes[w.inum[f]].addr < |w.image.data|
    ensures DirsOk(Removed(w, f))
  {
    hide Consistent, HasName, Has, UniqueNames, Deleted, ListedOk, FileOk;
    var w' := Removed(w, f);
    forall d | d in w.dirs
      ensures IsDirPath(w', d) && UniqueNames(EntriesOf(w', d)) && |EntriesOf(w', d)| <= MAX_ENTRIES
    {
      RemovedDir(w, f, d);
    }
  }

  lemma RemovedListed(w: World, f: Path, p: Path)
    requires Good(w) && f in w.files && p != f && (p in w.files || (p in w.dirs && p != []))
    requires f != [] && f in w.inum && IsDirPath(w, Parent(f)) && HasName(EntriesOf(w, Parent(f)), Last(f))
    requires Sized(w.image) && w.inum[f] < |w.image.inodes| && w.image.inodes[w.inum[f]].addr < |w.image.data|
    ensures ListedOk(Removed(w, f), p)
  {
    hide Consistent, HasName, Has, UniqueNames, Deleted, DirsOk, FileOk;
    assert ListedOk(w, p);
    if Parent(p) == Parent(f) && Last(p) == Last(f) { SamePath(p, f); }
    RemovedDir(w, f, Parent(p));
  }

  lemma RemovedFile(w: World, f: Path, g: Path)
    requires Good(w) && f in w.files && g in w.files && g != f
    requires f != [] && f in w.inum && IsDirPath(w, Parent(f)) && HasName(EntriesOf(w, Parent(f)), Last(f))
    requires Sized(w.image) && w.inum[f] < |w.image.inodes| && w.image.inodes[w.inum[f]].addr < |w.image.data|
    requires Consistent(Removed(w, f).image)
    ensures FileOk(Removed(w, f), g)
  {
    hide HasName, Has, UniqueNames, DirsOk, Consistent, WithEntries;
    assert FileOk(w, g);
    RemovedListed(w, f, g);
    DirPathLiveIn(Removed(w, f), Parent(g));
    NamedLive(Removed(w, f), g);
    RemovedType(w, f, w.inum[g]);
  }

  lemma RemovedType(w: World, f: Path, i: nat)
    requires f != [] && f in w.inum && IsDirPath(w, Parent(f)) && HasName(EntriesOf(w, Parent(f)), Last(f))
    requires Sized(w.image) && w.inum[f] < |w.image.inodes| && w.image.inodes[w.inum[f]].addr < |w.image.data|
    requires i < |w.image.inodes|
    ensures |Removed(w, f).image.inodes| == |w.image.inodes|
    ensures Removed(w, f).image.inodes[i].ftype == w.image.inodes[i].ftype || Removed(w, f).image.inodes[i].ftype.Free?
  {
  }

  lemma DirPathLiveIn(w: World, d: Path)
    requires Consistent(w.image) && IsDirPath(w, d)
    ensures DirBlock(w.image, BlockOf(w, d))
  {
    assert AddrOk(w.image, w.inum[d]);
  }

  /** A listed path's inode is in use. */
  lemma NamedLive(w: World, p: Path)
    requires Consistent(w.image) && ListedOk(w, p) && DirBlock(w.image, BlockOf(w, Parent(p)))
    ensures Live(w.image, w.inum[p]) && w.inum[p] < |w.image.inodes| && !w.image.inodes[w.inum[p]].ftype.Free?
  {
    assert EntriesLive(w.image, BlockOf(w, Parent(p)));
    var k :| 0 <= k < |EntriesOf(w, Parent(p))| && EntriesOf(w, Parent(p))[k] == (Last(p), w.inum[p] as int);
  }
}
