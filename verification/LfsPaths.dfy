/** Paths of file-lfs/lfs.py: which directory a path leads to, and where every path leads after an operation. */
module LfsPaths {
  import opened LfsDisk
  import opened LfsNames
  import opened LfsOps

  datatype Walk = NotFound | Broken | At(inum: int, name: string, parent: nat, dir: Inode)

  /** __walk_path from directory `parent`: Broken where an inode is missing or not a directory. */
  function WalkFrom(s: State, parent: nat, names: seq<string>): (w: Walk)
    requires Shaped(s) && parent < INODES && names != []
    ensures w.At? ==> Legal(s, w.parent, w.dir) && w.parent < INODES && -1 <= w.inum < INODES
    ensures w.At? ==> IsDir(s.disk, w.dir) && w.inum == Number(s.disk, w.dir, w.name) && w.name == names[|names| - 1]
    decreases |names|
  {
    match MemInode(s.disk, s.inodeMap, parent)
    case None => Broken
    case Some(dir) =>
      if !dir.kind.Dir? then Broken
      else
        IsDirOf(s, parent, dir);
        NumberInRange(s.disk, dir, names[0]);
        var n := Number(s.disk, dir, names[0]);
        if |names| == 1 then At(n, names[0], parent, dir)
        else if n == -1 then NotFound
        else WalkFrom(s, n, names[1..])
  }

  /** A path split at its slashes. */
  function WalkPath(s: State, path: seq<string>): (w: Walk)
    requires Shaped(s) && path != []
    ensures w.At? ==> Legal(s, w.parent, w.dir) && w.parent < INODES && -1 <= w.inum < INODES
    ensures w.At? ==> IsDir(s.disk, w.dir) && w.inum == Number(s.disk, w.dir, w.name) && w.name == path[|path| - 1]
  {
    if path[0] != "" then NotFound
    else if |path| == 1 then WalkFrom(s, 0, path)
    else WalkFrom(s, 0, path[1..])
  }

  lemma NumberInRange(disk: Disk, dir: Inode, name: string)
    requires DiskOk(disk) && IsDir(disk, dir)
    ensures -1 <= Number(disk, dir, name) < INODES
  {
    var (k, i) := FindSlot(disk, dir, name, 0);
    if k != -1 {
      assert PointsAtDir(disk, dir.pointers[k]);
      assert BlockOk(disk, disk[dir.pointers[k]]);
    }
  }

  // ---------- the directories on the way ----------

  ghost predicate IsDirectory(s: State, d: nat) {
    d < |s.inodeMap| && MemInode(s.disk, s.inodeMap, d).Some? && MemInode(s.disk, s.inodeMap, d).value.kind.Dir?
      && IsDir(s.disk, MemInode(s.disk, s.inodeMap, d).value)
  }

  /** Directory `d` has the number `n` for the name, -1 if it has none. */
  ghost predicate LeadsTo(s: State, d: nat, name: string, n: int) {
    IsDirectory(s, d) && Number(s.disk, MemInode(s.disk, s.inodeMap, d).value, name) == n
  }

  /** Entering the first `k` names, each in the directory the one before it leads to, goes through the numbers `c`. */
  ghost predicate Chain(s: State, from: nat, names: seq<string>, k: nat, c: seq<nat>) {
    && |c| == k + 1 && k <= |names| && c[0] == from
    && forall i :: 0 <= i < k ==> LeadsTo(s, c[i], names[i], c[i + 1])
  }

  ghost predicate Reaches(s: State, from: nat, names: seq<string>, k: nat, p: nat) {
    exists c :: Chain(s, from, names, k, c) && c[k] == p
  }

  lemma DirectoryIs(s: State, d: nat)
    requires Shaped(s) && d < INODES
    ensures IsDirectory(s, d) <==>
      MemInode(s.disk, s.inodeMap, d).Some? && MemInode(s.disk, s.inodeMap, d).value.kind.Dir?
  {
    hide DiskOk, InodeOk;
    if MemInode(s.disk, s.inodeMap, d).Some? {
      var dir := MemInode(s.disk, s.inodeMap, d).value;
      if dir.kind.Dir? { IsDirOf(s, d, dir); }
    }
  }

  lemma ReachesSelf(s: State, from: nat, names: seq<string>)
    ensures forall p: nat :: Reaches(s, from, names, 0, p) <==> p == from
  {
    assert Chain(s, from, names, 0, [from]);
  }

  /** The first step of a chain, and the rest. */
  lemma ReachesStep(s: State, from: nat, names: seq<string>, k: nat, n: nat, p: nat)
    requires k < |names| && LeadsTo(s, from, names[0], n)
    ensures Reaches(s, from, names, k + 1, p) <==> Reaches(s, n, names[1..], k, p)
  {
    hide LeadsTo;
    if Reaches(s, from, names, k + 1, p) {
      var c :| Chain(s, from, names, k + 1, c) && c[k + 1] == p;
      assert LeadsTo(s, c[0], names[0], c[1]);
      SameLead(s, from, names[0], n, c[1]);
      forall i | 0 <= i < k ensures LeadsTo(s, c[1..][i], names[1..][i], c[1..][i + 1]) {
        assert LeadsTo(s, c[i + 1], names[i + 1], c[i + 2]);
      }
      assert Chain(s, n, names[1..], k, c[1..]);
    }
    if Reaches(s, n, names[1..], k, p) {
      var c :| Chain(s, n, names[1..], k, c) && c[k] == p;
      var b := [from] + c;
      forall i | 0 <= i < k + 1 ensures LeadsTo(s, b[i], names[i], b[i + 1]) {
        if i > 0 { assert LeadsTo(s, c[i - 1], names[1..][i - 1], c[i]); }
      }
      assert Chain(s, from, names, k + 1, b);
    }
  }

  lemma SameLead(s: State, d: nat, name: string, n: int, m: int)
    requires LeadsTo(s, d, name, n) && LeadsTo(s, d, name, m)
    ensures n == m
  {
  }

  lemma NoStep(s: State, from: nat, names: seq<string>, k: nat)
    requires 0 < k <= |names| && (!IsDirectory(s, from) || LeadsTo(s, from, names[0], -1))
    ensures forall p: nat :: !Reaches(s, from, names, k, p)
  {
    if p: nat :| Reaches(s, from, names, k, p) {
      var c :| Chain(s, from, names, k, c) && c[k] == p;
      assert LeadsTo(s, c[0], names[0], c[1]);
    }
  }

  /** Where the walk ends: in the directory reached by all names but the last; nowhere when one of these has no number
      in the directory it is looked up in; and in an exception when a number on the way is not that of a directory. */
  lemma {:induction false} WalkFromEnds(s: State, from: nat, names: seq<string>)
    requires Shaped(s) && from < INODES && names != []
    ensures var w := WalkFrom(s, from, names);
      && (w.At? ==> Reaches(s, from, names, |names| - 1, w.parent) && IsDirectory(s, w.parent))
      && (forall p: nat :: IsDirectory(s, p) && Reaches(s, from, names, |names| - 1, p) ==> w.At? && w.parent == p)
      && (w.NotFound? <==> Lost(s, from, names))
      && (w.Broken? <==> Stuck(s, from, names))
    decreases |names|
  {
    hide Shaped, Reaches, LeadsTo, IsDir, MemInode, Number;
    DirectoryIs(s, from);
    if |names| == 1 {
      ReachesSelf(s, from, names);
      NoneLost(s, from, names);
      StuckHere(s, from, names);
    } else if !IsDirectory(s, from) {
      NoStep(s, from, names, |names| - 1);
      NoneLost(s, from, names);
      StuckHere(s, from, names);
    } else {
      LeadsSomewhere(s, from, names[0]);
      var n := Number(s.disk, MemInode(s.disk, s.inodeMap, from).value, names[0]);
      if n == -1 {
        NoStep(s, from, names, |names| - 1);
        LostHere(s, from, names);
        StuckHere(s, from, names);
      } else {
        WalkFromEnds(s, n, names[1..]);
        var k := |names| - 2;
        forall p: nat ensures Reaches(s, from, names, k + 1, p) <==> Reaches(s, n, names[1..], k, p) {
          ReachesStep(s, from, names, k, n, p);
        }
        LostLater(s, from, names, n);
        StuckLater(s, from, names, n);
      }
    }
  }

  lemma LeadsSomewhere(s: State, d: nat, name: string)
    requires Shaped(s) && d < INODES && IsDirectory(s, d)
    ensures var n := Number(s.disk, MemInode(s.disk, s.inodeMap, d).value, name);
      LeadsTo(s, d, name, n) && -1 <= n < INODES
  {
    NumberInRange(s.disk, MemInode(s.disk, s.inodeMap, d).value, name);
  }

  /** Some name but the last has no number in the directory it is looked up in. */
  ghost predicate Lost(s: State, from: nat, names: seq<string>) {
    exists k: nat, p: nat :: k + 1 < |names| && Reaches(s, from, names, k, p) && LeadsTo(s, p, names[k], -1)
  }

  /** Some number on the way is not that of a directory. */
  ghost predicate Stuck(s: State, from: nat, names: seq<string>) {
    exists k: nat, p: nat :: k < |names| && Reaches(s, from, names, k, p) && !IsDirectory(s, p)
  }

  lemma NoneLost(s: State, from: nat, names: seq<string>)
    requires |names| == 1 || (|names| > 1 && !IsDirectory(s, from))
    ensures !Lost(s, from, names)
  {
    hide Reaches;
    if Lost(s, from, names) {
      var k: nat, p: nat :| k + 1 < |names| && Reaches(s, from, names, k, p) && LeadsTo(s, p, names[k], -1);
      if k == 0 { ReachesSelf(s, from, names); } else { NoStep(s, from, names, k); }
      assert false;
    }
  }

  lemma LostHere(s: State, from: nat, names: seq<string>)
    requires |names| > 1 && LeadsTo(s, from, names[0], -1)
    ensures Lost(s, from, names)
  {
    hide Reaches, LeadsTo;
    ReachesSelf(s, from, names);
  }

  /** A walk that cannot take a step is stuck exactly if it does not start in a directory. */
  lemma StuckHere(s: State, from: nat, names: seq<string>)
    requires names != [] && (|names| == 1 || !IsDirectory(s, from) || LeadsTo(s, from, names[0], -1))
    ensures Stuck(s, from, names) <==> !IsDirectory(s, from)
  {
    hide Reaches, LeadsTo;
    ReachesSelf(s, from, names);
    assert Reaches(s, from, names, 0, from);
    if Stuck(s, from, names) {
      var k: nat, p: nat :| k < |names| && Reaches(s, from, names, k, p) && !IsDirectory(s, p);
      if k == 0 { ReachesSelf(s, from, names); } else { NoStep(s, from, names, k); }
    }
  }

  lemma LostLater(s: State, from: nat, names: seq<string>, n: nat)
    requires |names| > 1 && LeadsTo(s, from, names[0], n)
    ensures Lost(s, from, names) <==> Lost(s, n, names[1..])
  {
    hide Reaches, LeadsTo;
    if Lost(s, from, names) {
      var k: nat, p: nat :| k + 1 < |names| && Reaches(s, from, names, k, p) && LeadsTo(s, p, names[k], -1);
      if k == 0 {
        ReachesSelf(s, from, names);
        SameLead(s, from, names[0], n, -1);
      } else {
        ReachesStep(s, from, names, k - 1, n, p);
        assert names[1..][k - 1] == names[k];
      }
    }
    if Lost(s, n, names[1..]) {
      var k: nat, p: nat :| k + 1 < |names[1..]| && Reaches(s, n, names[1..], k, p) && LeadsTo(s, p, names[1..][k], -1);
      ReachesStep(s, from, names, k, n, p);
      assert names[1..][k] == names[k + 1];
    }
  }

  lemma StuckLater(s: State, from: nat, names: seq<string>, n: nat)
    requires |names| > 1 && LeadsTo(s, from, names[0], n)
    ensures Stuck(s, from, names) <==> Stuck(s, n, names[1..])
  {
    hide Reaches;
    if Stuck(s, from, names) {
      var k: nat, p: nat :| k < |names| && Reaches(s, from, names, k, p) && !IsDirectory(s, p);
      if k == 0 { ReachesSelf(s, from, names); } else { ReachesStep(s, from, names, k - 1, n, p); }
    }
    if Stuck(s, n, names[1..]) {
      var k: nat, p: nat :| k < |names[1..]| && Reaches(s, n, names[1..], k, p) && !IsDirectory(s, p);
      ReachesStep(s, from, names, k, n, p);
    }
  }

  /** The names of a path: all but the empty one before its first slash, unless there is no other. */
  function Components(path: seq<string>): seq<string>
    requires path != []
  {
    if |path| == 1 then path else path[1..]
  }

  /** A path leads from the root, directory by directory: to the number its last name has in directory `p` exactly if
      the names before it lead to `p` by a chain that starts with number 0. */
  lemma WalkIsChain(s: State, path: seq<string>, p: nat, n: int)
    requires Shaped(s) && path != []
    ensures var w, names := WalkPath(s, path), Components(path);
      && |names| >= 1
      && (w.At? && w.parent == p && w.inum == n <==>
            path[0] == "" && Reaches(s, 0, names, |names| - 1, p) && LeadsTo(s, p, path[|path| - 1], n))
      && (w.NotFound? <==> path[0] != "" || Lost(s, 0, names))
      && (w.Broken? <==> path[0] == "" && Stuck(s, 0, names))
  {
    hide Shaped, Reaches, Lost, Stuck, LeadsTo, IsDirectory, WalkFrom, Legal, IsDir;
    WalkFromEnds(s, 0, Components(path));
    var w := WalkPath(s, path);
    if w.At? { LastName(s, w.parent, w.dir, w.name, n); }
    if LeadsTo(s, p, path[|path| - 1], n) { Somewhere(s, p, path[|path| - 1], n); }
  }

  lemma LastName(s: State, p: nat, dir: Inode, name: string, n: int)
    requires Legal(s, p, dir) && IsDir(s.disk, dir)
    ensures LeadsTo(s, p, name, n) <==> Number(s.disk, dir, name) == n
  {
    hide Number, InodeOk, DiskOk;
  }

  lemma Somewhere(s: State, d: nat, name: string, n: int)
    requires LeadsTo(s, d, name, n)
    ensures IsDirectory(s, d)
  {
  }

  // ---------- every path after an operation ----------

  /** No component is the name of a free slot. */
  predicate NoDashes(names: seq<string>) { forall i :: 0 <= i < |names| ==> names[i] != "-" }

  /** Directories stay directories, and every name leads where it did, except perhaps `name` in directory `p`, which
      did not lead to a directory. */
  ghost predicate SameNames(s: State, t: State, p: nat, name: string) {
    && (forall d: nat :: IsDirectory(s, d) ==> IsDirectory(t, d))
    && (forall d: nat, m: string, n: int :: LeadsTo(s, d, m, n) && m != "-" ==>
          LeadsTo(t, d, m, n) || (d == p && m == name && (n < 0 || !IsDirectory(s, n))))
  }

  lemma {:induction false} WalkFromKept(s: State, t: State, p: nat, name: string, from: nat, names: seq<string>)
    requires Shaped(s) && Shaped(t) && from < INODES && names != [] && NoDashes(names) && SameNames(s, t, p, name)
    requires WalkFrom(s, from, names).At?
    ensures var w, v := WalkFrom(s, from, names), WalkFrom(t, from, names);
      v.At? && v.parent == w.parent && ((w.parent == p && w.name == name) || v.inum == w.inum)
    decreases |names|
  {
    hide Shaped, LeadsTo, IsDir, MemInode, Number;
    DirectoryIs(s, from);
    DirectoryIs(t, from);
    LeadsSomewhere(s, from, names[0]);
    LeadsSomewhere(t, from, names[0]);
    var n := Number(s.disk, MemInode(s.disk, s.inodeMap, from).value, names[0]);
    var m := Number(t.disk, MemInode(t.disk, t.inodeMap, from).value, names[0]);
    if LeadsTo(t, from, names[0], n) { SameLead(t, from, names[0], n, m); }
    if |names| > 1 {
      OnlyFromDirectories(s, n, names[1..]);
      WalkFromKept(s, t, p, name, n, names[1..]);
    }
  }

  lemma OnlyFromDirectories(s: State, n: nat, names: seq<string>)
    requires Shaped(s) && n < INODES && names != [] && WalkFrom(s, n, names).At?
    ensures IsDirectory(s, n)
  {
    hide Shaped, IsDir, Number;
    DirectoryIs(s, n);
  }

  /** Every path that led to a place still leads there, and still to the same number unless the place is that of `name`
      in directory `p`. */
  ghost predicate PathsKept(s: State, t: State, p: nat, name: string) {
    Shaped(s) && Shaped(t) && forall path :: path != [] && NoDashes(path) && WalkPath(s, path).At? ==>
      var w, v := WalkPath(s, path), WalkPath(t, path);
      v.At? && v.parent == w.parent && ((w.parent == p && w.name == name) || v.inum == w.inum)
  }

  lemma SameNamesKeepPaths(s: State, t: State, p: nat, name: string)
    requires Shaped(s) && Shaped(t) && SameNames(s, t, p, name)
    ensures PathsKept(s, t, p, name)
  {
    hide Shaped, SameNames, WalkFrom;
    forall path | path != [] && NoDashes(path) && WalkPath(s, path).At?
      ensures var w, v := WalkPath(s, path), WalkPath(t, path);
        v.At? && v.parent == w.parent && ((w.parent == p && w.name == name) || v.inum == w.inum)
    {
      WalkFromKept(s, t, p, name, 0, if |path| == 1 then path else path[1..]);
    }
  }

  /** A directory none of whose blocks changed. */
  lemma {:induction false} SameFind(disk: Disk, disk': Disk, dir: Inode, name: string, from: nat)
    requires IsDir(disk, dir) && IsDir(disk', dir) && from <= dir.size
    requires forall k: nat :: k < dir.size ==> EntriesAt(disk', dir, k) == EntriesAt(disk, dir, k)
    ensures FindSlot(disk', dir, name, from) == FindSlot(disk, dir, name, from)
    decreases dir.size - from
  {
    hide InodeOk, FindName;
    if from < dir.size { SameFind(disk, disk', dir, name, from + 1); }
  }

  /** The log up to some point, except perhaps its checkpoint. */
  ghost predicate Extends(disk: Disk, disk': Disk) {
    |disk| <= |disk'| && forall a :: 0 < a < |disk| ==> disk'[a] == disk[a]
  }

  lemma DirectoryKept(s: State, t: State, d: nat)
    requires Shaped(s) && Shaped(t) && Extends(s.disk, t.disk) && d < INODES && t.inodeMap[d] == s.inodeMap[d]
    requires IsDirectory(s, d)
    ensures IsDirectory(t, d) && forall m, n :: LeadsTo(s, d, m, n) ==> LeadsTo(t, d, m, n)
  {
    hide BlockOk, Number;
    var dir := MemInode(s.disk, s.inodeMap, d).value;
    assert s.inodeMap[d] != 0 && MemInode(t.disk, t.inodeMap, d) == Some(dir);
    DirectoryIs(t, d);
    forall k: nat | k < dir.size ensures EntriesAt(t.disk, dir, k) == EntriesAt(s.disk, dir, k) {
      assert PointsAtDir(s.disk, dir.pointers[k]);
    }
    forall m, n | LeadsTo(s, d, m, n) ensures LeadsTo(t, d, m, n) {
      SameFind(s.disk, t.disk, dir, m, 0);
      SameNumber(s.disk, dir, t.disk, dir, m);
    }
  }

  /** An operation that rewrote directory `p` and inode `n`, which is not a directory. */
  lemma OthersSameNames(s: State, t: State, p: nat, name: string, n: nat)
    requires Shaped(s) && Shaped(t) && Extends(s.disk, t.disk) && !IsDirectory(s, n)
    requires forall d: nat :: d < INODES && d != p && d != n ==> t.inodeMap[d] == s.inodeMap[d]
    requires IsDirectory(s, p) ==> IsDirectory(t, p)
    requires forall m, i :: LeadsTo(s, p, m, i) && m != "-" ==>
      LeadsTo(t, p, m, i) || (m == name && (i < 0 || !IsDirectory(s, i)))
    ensures SameNames(s, t, p, name)
  {
    hide Shaped, LeadsTo, IsDirectory;
    ShapedSizes(s);
    forall d: nat | IsDirectory(s, d) ensures IsDirectory(t, d) {
      DirectoryNumber(s, d);
      if d != p { DirectoryKept(s, t, d); }
    }
    forall d: nat, m: string, i: int | LeadsTo(s, d, m, i) && m != "-"
      ensures LeadsTo(t, d, m, i) || (d == p && m == name && (i < 0 || !IsDirectory(s, i)))
    {
      Somewhere(s, d, m, i);
      DirectoryNumber(s, d);
      if d != p { DirectoryKept(s, t, d); }
    }
  }

  lemma DirectoryNumber(s: State, d: nat)
    requires |s.inodeMap| == INODES && IsDirectory(s, d)
    ensures d < INODES
  {
  }

  lemma PrefixExtends(disk: Disk, disk': Disk)
    requires disk <= disk'
    ensures Extends(disk, disk')
  {
  }

  /** After a create the new name leads to the new inode, "." in a new directory to itself and ".." to its parent, and
      all other names lead where they led. */
  lemma CreateSameNames(s: State, p: nat, dir: Inode, name: string, n: nat, isFile: bool)
    requires Legal(s, p, dir) && IsDir(s.disk, dir) && AddEntry(s.disk, dir, name, n).Some? && n < INODES
    requires AllTidy(s) && Number(s.disk, dir, name) == -1 && !IsDirectory(s, n)
    ensures var t := CreateState(s, p, dir, name, n, isFile); Shaped(t) && SameNames(s, t, p, name)
    ensures name != "-" ==> LeadsTo(CreateState(s, p, dir, name, n, isFile), p, name, n)
    ensures !isFile ==>
      var t := CreateState(s, p, dir, name, n, isFile); LeadsTo(t, n, ".", n) && LeadsTo(t, n, "..", p)
  {
    hide Shaped, AddEntry, CreateState, FindSlot, InodeOk, Number, AllTidy, NewNode, LeadsTo, SameNames, Rewritten;
    LegalIsDirectory(s, p, dir);
    var t := CreateState(s, p, dir, name, n, isFile);
    CreateShaped(s, p, dir, name, n, isFile);
    PrefixExtends(s.disk, t.disk);
    CreateFacts(s, p, dir, name, n, isFile);
    var dir' := MemInode(t.disk, t.inodeMap, p).value;
    forall m | m != "-" ensures IsDirectory(t, p) && LeadsTo(t, p, m, if m == name then n else Number(s.disk, dir, m)) {
      CreateNames(s, p, dir, name, n, isFile, m);
      LegalIsDirectory(t, p, dir');
      LastName(t, p, dir', m, if m == name then n else Number(s.disk, dir, m));
    }
    forall m, i | LeadsTo(s, p, m, i) && m != "-" ensures LeadsTo(t, p, m, i) || (m == name && i < 0) {
      LastName(s, p, dir, m, i);
    }
    assert "."[0] != '-';
    assert LeadsTo(t, p, ".", if "." == name then n else Number(s.disk, dir, "."));
    OthersSameNames(s, t, p, name, n);
    if !isFile { DotNames(t, n, |s.disk| + 1, p); }
  }

  lemma LegalIsDirectory(s: State, p: nat, dir: Inode)
    requires Legal(s, p, dir)
    ensures IsDirectory(s, p) && IsDir(s.disk, dir) && p < INODES
  {
    hide DiskOk, InodeOk;
    ShapedSizes(s);
    IsDirOf(s, p, dir);
  }

  lemma DotNames(t: State, n: nat, a: nat, p: nat)
    requires Shaped(t) && n < INODES && MemInode(t.disk, t.inodeMap, n) == Some(NewNode(false, a))
    requires a < |t.disk| && t.disk[a] == DirBlock(NewDirEntries(p, n))
    ensures LeadsTo(t, n, ".", n) && LeadsTo(t, n, "..", p)
  {
    hide DiskOk, BlockOk;
    var dir := NewNode(false, a);
    assert Legal(t, n, dir);
    LegalIsDirectory(t, n, dir);
    var e := NewDirEntries(p, n);
    assert EntriesAt(t.disk, dir, 0) == e && |"."| != |".."|;
    assert FindNameFrom(e, ".", 0) == 0;
    assert FindNameFrom(e, "..", 1) == 1 && FindNameFrom(e, "..", 0) == 1;
    assert FindSlot(t.disk, dir, ".", 0) == (0, 0) && FindSlot(t.disk, dir, "..", 0) == (0, 1);
  }

  /** After a link the new name leads to the file linked. */
  lemma LinkSameNames(s: State, p: nat, dir: Inode, name: string, n: nat, src: Inode)
    requires Legal(s, p, dir) && IsDir(s.disk, dir) && AddEntry(s.disk, dir, name, n).Some? && n < INODES
    requires MemInode(s.disk, s.inodeMap, n) == Some(src) && src.kind.Reg?
    requires AllTidy(s) && Number(s.disk, dir, name) == -1
    ensures var t := LinkState(s, p, dir, name, n, src); Shaped(t) && SameNames(s, t, p, name)
    ensures name != "-" ==> LeadsTo(LinkState(s, p, dir, name, n, src), p, name, n)
  {
    hide Shaped, AddEntry, LinkState, FindSlot, InodeOk, Number, AllTidy, LeadsTo, SameNames, Rewritten;
    LegalIsDirectory(s, p, dir);
    var t := LinkState(s, p, dir, name, n, src);
    LinkShapedOnly(s, p, dir, name, n, src);
    PrefixExtends(s.disk, t.disk);
    LinkFacts(s, p, dir, name, n, src);
    var dir' := MemInode(t.disk, t.inodeMap, p).value;
    forall m | m != "-" ensures IsDirectory(t, p) && LeadsTo(t, p, m, if m == name then n else Number(s.disk, dir, m)) {
      LinkNames(s, p, dir, name, n, src, m);
      LegalIsDirectory(t, p, dir');
      LastName(t, p, dir', m, if m == name then n else Number(s.disk, dir, m));
    }
    forall m, i | LeadsTo(s, p, m, i) && m != "-" ensures LeadsTo(t, p, m, i) || (m == name && i < 0) {
      LastName(s, p, dir, m, i);
    }
    assert "."[0] != '-';
    assert LeadsTo(t, p, ".", if "." == name then n else Number(s.disk, dir, "."));
    OthersSameNames(s, t, p, name, n);
  }

  /** After a delete the name leads nowhere. */
  lemma DeleteSameNames(s: State, p: nat, dir: Inode, name: string, n: nat, file: Inode)
    requires Legal(s, p, dir) && IsDir(s.disk, dir) && FindSlot(s.disk, dir, name, 0).0 != -1 && n < INODES
    requires MemInode(s.disk, s.inodeMap, n) == Some(file) && file.kind.Reg? && AllTidy(s)
    requires Number(s.disk, dir, name) == n
    ensures var t := DeleteState(s, p, dir, name, n, file); Shaped(t) && SameNames(s, t, p, name)
    ensures name != "-" ==> LeadsTo(DeleteState(s, p, dir, name, n, file), p, name, -1)
  {
    hide Shaped, DeleteState, FindSlot, InodeOk, Number, AllTidy, LeadsTo, SameNames, Rewritten;
    LegalIsDirectory(s, p, dir);
    ShapedSizes(s);
    FileTidy(s, n, file);
    var t := DeleteState(s, p, dir, name, n, file);
    DeleteShaped(s, p, dir, name, n, file);
    PrefixExtends(s.disk, t.disk);
    DeleteFacts(s, p, dir, name, n, file);
    var dir' := MemInode(t.disk, t.inodeMap, p).value;
    forall m | m != "-"
      ensures IsDirectory(t, p) && LeadsTo(t, p, m, if m == name then -1 else Number(s.disk, dir, m))
    {
      DeleteNames(s, p, dir, name, n, file, m);
      LegalIsDirectory(t, p, dir');
      LastName(t, p, dir', m, if m == name then -1 else Number(s.disk, dir, m));
    }
    forall m, i | LeadsTo(s, p, m, i) && m != "-" ensures LeadsTo(t, p, m, i) || (m == name && i == n) {
      LastName(s, p, dir, m, i);
    }
    assert "."[0] != '-';
    assert LeadsTo(t, p, ".", if "." == name then -1 else Number(s.disk, dir, "."));
    OthersSameNames(s, t, p, name, n);
  }

  /** A write changes no name. */
  lemma WriteSameNames(s: State, n: nat, file: Inode, offset: nat, contents: seq<string>)
    requires Shaped(s) && n < INODES && MemInode(s.disk, s.inodeMap, n) == Some(file) && file.kind.Reg? && offset < PTRS
    requires |s.inodeMap| == INODES && |s.cr| == CHUNKS && |file.pointers| == PTRS
    ensures var t := WriteState(s, n, file, offset, contents); Shaped(t) && SameNames(s, t, INODES, "")
  {
    hide Shaped, LeadsTo, SameNames, Written;
    var t := WriteState(s, n, file, offset, contents);
    WriteShaped(s, n, file, offset, contents);
    PrefixExtends(s.disk, t.disk);
    NowhereBeyond(s);
    OthersSameNames(s, t, INODES, "", n);
  }

  lemma NowhereBeyond(s: State)
    requires |s.inodeMap| == INODES
    ensures !IsDirectory(s, INODES) && forall m, i :: !LeadsTo(s, INODES, m, i)
  {
  }

  /** Writing the checkpoint changes no name. */
  lemma SyncSameNames(s: State)
    requires Shaped(s)
    ensures |s.disk| > 0 && Shaped(Sync(s)) && SameNames(s, Sync(s), INODES, "")
    ensures forall d: nat, m, i :: LeadsTo(s, d, m, i) ==> LeadsTo(Sync(s), d, m, i)
  {
    hide DiskOk, LeadsTo, SameNames, IsDirectory;
    SyncOk(s.disk, s.cr);
    SyncParts(s);
    NowhereBeyond(s);
    OthersSameNames(s, Sync(s), INODES, "", INODES);
    forall d: nat, m, i | LeadsTo(s, d, m, i) ensures LeadsTo(Sync(s), d, m, i) {
      Somewhere(s, d, m, i);
      DirectoryNumber(s, d);
      DirectoryKept(s, Sync(s), d);
    }
  }

  lemma SameNamesTrans(s: State, t: State, u: State, p: nat, name: string)
    requires SameNames(s, t, p, name)
    requires forall d: nat, m, i :: LeadsTo(t, d, m, i) ==> LeadsTo(u, d, m, i)
    requires forall d: nat :: IsDirectory(t, d) ==> IsDirectory(u, d)
    ensures SameNames(s, u, p, name)
  {
    hide LeadsTo, IsDirectory;
  }

  /** The path, which led to a place in directory `p`, leads there now, and to number `n`. */
  ghost predicate LeadsThere(t: State, path: seq<string>, p: nat, n: int) {
    Shaped(t) && path != [] && WalkPath(t, path).At? && WalkPath(t, path).parent == p && WalkPath(t, path).inum == n
  }

  lemma PathNow(s: State, t: State, path: seq<string>, n: int)
    requires Shaped(s) && path != [] && NoDashes(path) && WalkPath(s, path).At?
    requires PathsKept(s, t, WalkPath(s, path).parent, WalkPath(s, path).name)
    requires LeadsTo(t, WalkPath(s, path).parent, WalkPath(s, path).name, n)
    ensures LeadsThere(t, path, WalkPath(s, path).parent, n)
  {
    hide Shaped, LeadsTo, WalkFrom;
    var v := WalkPath(t, path);
    LastName(t, v.parent, v.dir, v.name, n);
  }

  // ---------- where a new entry goes ----------

  ghost predicate FreeSlot(disk: Disk, dir: Inode, k: nat, i: nat)
    requires IsDir(disk, dir)
  {
    k < dir.size && i < PTRS && Slot(disk, dir, k, i).0 == "-"
  }

  lemma {:induction false} FirstFree(disk: Disk, dir: Inode, from: nat, k: nat, i: nat)
    requires IsDir(disk, dir) && from <= k && FreeSlot(disk, dir, k, i)
    ensures var (j, l) := FindSlot(disk, dir, "-", from);
      j != -1 && (j < k || (j == k && l <= i)) && FreeSlot(disk, dir, j, l)
    decreases k - from
  {
    hide InodeOk, FindName;
    EntriesLength(disk, dir, from);
    var entries := EntriesAt(disk, dir, from);
    if from == k {
      assert Slot(disk, dir, k, i) == entries[i];
      FirstInBlock(entries, 0, i);
    } else if FindName(entries, "-") == -1 {
      FirstFree(disk, dir, from + 1, k, i);
    }
  }

  lemma {:induction false} FirstInBlock(entries: Entries, from: nat, i: nat)
    requires from <= i < |entries| && entries[i].0 == "-"
    ensures 0 <= FindNameFrom(entries, "-", from) <= i && FindName(entries, "-") == FindNameFrom(entries, "-", 0)
    decreases i - from
  {
    if from < i { FirstInBlock(entries, from + 1, i); }
  }

  /** A new entry goes to the first free slot of the directory. Only if it has none, the directory grows by a block,
      whose first slot it takes; and it is refused only if it has none and no pointer is left. */
  lemma EntryPlace(disk: Disk, dir: Inode, name: string, n: int)
    requires IsDir(disk, dir)
    ensures AddEntry(disk, dir, name, n).None? <==>
      dir.size == PTRS && forall k: nat, i: nat :: !FreeSlot(disk, dir, k, i)
    ensures AddEntry(disk, dir, name, n).Some? ==>
      var (k, size, entries) := AddEntry(disk, dir, name, n).value;
      if exists j: nat, l: nat :: FreeSlot(disk, dir, j, l) then
        && size == dir.size && k < size
        && exists i: nat :: FreeSlot(disk, dir, k, i) && |EntriesAt(disk, dir, k)| == PTRS
             && entries == EntriesAt(disk, dir, k)[i := (name, n)]
             && forall j: nat, l: nat :: FreeSlot(disk, dir, j, l) ==> k < j || (k == j && i <= l)
      else
        && k == dir.size && size == dir.size + 1 && |entries| == PTRS && entries[0] == (name, n)
        && forall i :: 0 < i < PTRS ==> entries[i] == ("-", -1)
  {
    hide InodeOk;
    var (k, i) := FindSlot(disk, dir, "-", 0);
    if k != -1 {
      EntriesLength(disk, dir, k);
      assert FreeSlot(disk, dir, k, i);
    }
    forall j: nat, l: nat | FreeSlot(disk, dir, j, l) ensures k != -1 && (k < j || (k == j && i <= l)) {
      FirstFree(disk, dir, 0, j, l);
    }
  }
}
