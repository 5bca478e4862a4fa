/** class fs of file-implementation/vsfs.py (and file-journaling/fsck.py, which allocates at random), and the
    corruptions fsck.py asks a reader to find. */
module VsfsFs {
  import opened Vsfs
  import opened VsfsNames

  /** Only directory blocks hold entries. */
  ghost predicate Blank(s: Image) {
    forall b :: 0 <= b < |s.data| && !s.data[b].ftype.Dir? ==> s.data[b].entries == []
  }

  ghost predicate Sound(w: World) { Good(w) && Blank(w.image) }

  // ---------- the corruptions ----------

  /** The kinds of corrupt(), with the random choices each one makes. */
  datatype Corruption =
    | DataBit(b: nat)
    | InodeBit(i: nat)
    | RefCount(i: nat, up: bool)
    | Orphan(i: nat, ftype: FType)
    | DeadBlock(i: nat, b: nat)
    | SwitchType(i: nat)
    | BadEntry(i: nat, k: nat, inum: int)
    | Rename(i: nat, k: nat, name: string)

  predicate InUse(s: Image, i: nat) { i < |s.inodes| && !s.inodes[i].ftype.Free? }

  predicate HasEntry(s: Image, i: nat, k: nat) {
    i < |s.inodes| && s.inodes[i].ftype.Dir? && 0 <= s.inodes[i].addr < |s.data|
      && k < |s.data[s.inodes[i].addr].entries|
  }

  /** What the choices may be: the search for a free inode yields -1 when there is none. */
  predicate Applies(s: Image, c: Corruption) {
    match c
    case DataBit(b) => b < |s.dbits|
    case InodeBit(i) => i < |s.ibits|
    case RefCount(i, _) => InUse(s, i)
    case Orphan(i, t) => i < |s.inodes| && s.inodes[i].ftype.Free? && !t.Free?
    case DeadBlock(i, b) => InUse(s, i) && b < |s.data| && s.data[b].ftype.Free?
    case SwitchType(i) => InUse(s, i)
    case BadEntry(i, k, n) => HasEntry(s, i, k) && (n == -1 || (0 <= n < |s.ibits| && !s.ibits[n]))
    case Rename(i, k, _) => HasEntry(s, i, k)
  }

  function SetEntry(s: Image, i: nat, k: nat, e: (string, int)): Image
    requires HasEntry(s, i, k)
  {
    WithEntries(s, s.inodes[i].addr, s.data[s.inodes[i].addr].entries[k := e])
  }

  function Corrupted(s: Image, c: Corruption): Image
    requires Applies(s, c)
  {
    match c
    case DataBit(b) => s.(dbits := s.dbits[b := !s.dbits[b]])
    case InodeBit(i) => s.(ibits := s.ibits[i := !s.ibits[i]])
    case RefCount(i, up) => WithInode(s, i,
      s.inodes[i].(refCnt := if up then s.inodes[i].refCnt + 1 else s.inodes[i].refCnt - 1))
    case Orphan(i, t) => WithInode(s, i, Inode(t, -1, 1))
    case DeadBlock(i, b) => WithInode(s, i, s.inodes[i].(addr := b))
    case SwitchType(i) => WithInode(s, i, s.inodes[i].(ftype := if s.inodes[i].ftype.File? then Dir else File))
    case BadEntry(i, k, n) => SetEntry(s, i, k, (s.data[s.inodes[i].addr].entries[k].0, n))
    case Rename(i, k, name) => SetEntry(s, i, k, (name, s.data[s.inodes[i].addr].entries[k].1))
  }

  /** Consistency notices every corruption but a changed name. */
  lemma CorruptionShows(s: Image, c: Corruption)
    requires Consistent(s) && Applies(s, c)
    ensures Consistent(Corrupted(s, c)) <==> c.Rename?
  {
    hide Refs, Naming;
    var t := Corrupted(s, c);
    match c {
      case DataBit(b) => assert t.dbits[b] != s.dbits[b] && t.data[b] == s.data[b];
      case InodeBit(i) => assert t.ibits[i] != s.ibits[i] && t.inodes[i] == s.inodes[i];
      case RefCount(i, up) => assert s.ibits[i] && t.data == s.data;
      case Orphan(i, ftype) => assert !t.ibits[i] && t.inodes[i].ftype == ftype;
      case DeadBlock(i, b) => assert !AddrOk(t, i);
      case SwitchType(i) => assert AddrOk(s, i) && !AddrOk(t, i);
      case BadEntry(i, k, n) => BadEntryShows(s, i, k, n);
      case Rename(i, k, name) => RenameHides(s, i, k, name);
    }
  }

  /** A changed count is one off, in the direction chosen, and so is that of an orphan, which nothing names. */
  lemma CountsOffByOne(s: Image, c: Corruption)
    requires Consistent(s) && Applies(s, c) && (c.RefCount? || c.Orphan?)
    ensures var t := Corrupted(s, c);
      && Refs(t.data, c.i) == Refs(s.data, c.i)
      && t.inodes[c.i].refCnt == Refs(t.data, c.i) + if c.RefCount? && !c.up then -1 else 1
  {
    hide Refs;
    if c.Orphan? { FreeUnnamed(s, c.i); }
  }

  /** The corruption that takes it back. */
  function Repair(s: Image, c: Corruption): Corruption
    requires Applies(s, c)
  {
    match c
    case RefCount(i, up) => RefCount(i, !up)
    case Rename(i, k, _) => Rename(i, k, s.data[s.inodes[i].addr].entries[k].0)
    case _ => c
  }

  /** Bits, counts, types and names are the way they were after it: nothing else was changed. */
  lemma RepairRestores(s: Image, c: Corruption)
    requires Applies(s, c) && (c.DataBit? || c.InodeBit? || c.RefCount? || c.SwitchType? || c.Rename?)
    ensures Applies(Corrupted(s, c), Repair(s, c))
    ensures Corrupted(Corrupted(s, c), Repair(s, c)) == s
  {
    var t := Corrupted(s, c);
    var u := Corrupted(t, Repair(s, c));
    if c.Rename? {
      var b := s.inodes[c.i].addr;
      assert u.data[b].entries == s.data[b].entries;
      assert u.data == s.data;
    } else {
      assert u.inodes == s.inodes && u.dbits == s.dbits && u.ibits == s.ibits;
    }
  }

  lemma BadEntryShows(s: Image, i: nat, k: nat, n: int)
    requires Consistent(s) && HasEntry(s, i, k) && (n == -1 || (0 <= n < |s.ibits| && !s.ibits[n]))
    ensures !RefsOk(SetEntry(s, i, k, (s.data[s.inodes[i].addr].entries[k].0, n)))
  {
    assert AddrOk(s, i);
    var b := s.inodes[i].addr;
    var t := SetEntry(s, i, k, (s.data[b].entries[k].0, n));
    assert t.data[b].entries[k].1 == n && !Live(t, n);
    assert !EntriesLive(t, b);
  }

  lemma {:induction false} NamingRename(entries: Entries, k: nat, name: string, i: int)
    requires k < |entries|
    ensures Naming(entries[k := (name, entries[k].1)], i) == Naming(entries, i)
  {
    var n, e' := |entries| - 1, entries[k := (name, entries[k].1)];
    if k < n {
      NamingRename(entries[..n], k, name, i);
      assert e'[..n] == entries[..n][k := (name, entries[k].1)];
    } else {
      assert e'[..n] == entries[..n];
    }
  }

  lemma RenameHides(s: Image, i: nat, k: nat, name: string)
    requires Consistent(s) && HasEntry(s, i, k)
    ensures Consistent(SetEntry(s, i, k, (name, s.data[s.inodes[i].addr].entries[k].1)))
  {
    var b := s.inodes[i].addr;
    var t := SetEntry(s, i, k, (name, s.data[b].entries[k].1));
    SameOwners(s, t);
    forall j: nat | j < |t.inodes| && t.ibits[j] ensures t.inodes[j].refCnt == Refs(t.data, j) {
      NamingRename(s.data[b].entries, k, name, j);
      RefsSet(s.data, b, t.data[b], j);
    }
    forall c: nat | c < |t.data| ensures EntriesLive(t, c) { assert EntriesLive(s, c); }
  }

  // ---------- how the operations end ----------

  /** createFile and createLink first need room and a name that is not taken. */
  predicate Enterable(w: World, parent: Path, name: string)
    requires IsDirPath(w, parent)
  {
    |EntriesOf(w, parent)| < MAX_ENTRIES && !HasName(EntriesOf(w, parent), name)
  }

  predicate SomeFree(bits: seq<bool>) { exists i :: 0 <= i < |bits| && !bits[i] }

  predicate Creatable(w: World, parent: Path, name: string, isDir: bool)
    requires IsDirPath(w, parent)
  {
    Enterable(w, parent, name) && SomeFree(w.image.ibits) && (isDir ==> SomeFree(w.image.dbits))
  }

  function CreatedImage(w: World, parent: Path, name: string, isDir: bool, i: nat, d: nat): Image
    requires IsDirPath(w, parent) && Sized(w.image) && i < |w.image.inodes|
      && (isDir ==> d < |w.image.data| && i != w.inum[parent])
  {
    var b := BlockOf(w, parent);
    WithEntries(if isDir then NewDir(w.image, i, d, w.inum[parent])
      else NewFile(w.image, i), b, EntriesOf(w, parent) + [(name, i)])
  }

  ghost predicate CreatedWith(w: World, t: World, parent: Path, name: string, isDir: bool, i: nat, d: nat) {
    && IsDirPath(w, parent) && Sized(w.image) && i < |w.image.inodes| && !w.image.ibits[i]
    && (isDir ==> d < |w.image.data| && !w.image.dbits[d] && i != w.inum[parent])
    && t == Added(w, CreatedImage(w, parent, name, isDir, i, d), parent + [name], i, isDir)
  }

  lemma CreateSound(w: World, parent: Path, name: string, isDir: bool, i: nat, d: nat)
    requires Sound(w) && parent in w.dirs && IsDirPath(w, parent) && Enterable(w, parent, name)
    requires i < |w.image.inodes| && !w.image.ibits[i] && (isDir ==> d < |w.image.data| && !w.image.dbits[d])
    ensures Sized(w.image) && (isDir ==> i != w.inum[parent])
    ensures Sound(Added(w, CreatedImage(w, parent, name, isDir, i, d), parent + [name], i, isDir))
  {
    hide PathsOk, BlocksOk, RefsOk, HasName;
    DirPathLive(w, parent);
    var b, t := BlockOf(w, parent), CreatedImage(w, parent, name, isDir, i, d);
    if isDir {
      NewDirConsistent(w.image, i, d, w.inum[parent], b, name);
      assert t.data[d].entries == [(".", i as int), ("..", w.inum[parent] as int)];
    } else {
      NewFileConsistent(w.image, i, b, name);
    }
    forall e | e in w.dirs && IsDirPath(w, e)
      ensures t.data[BlockOf(w, e)].entries == EntriesOf(w, e) + if e == parent then [(name, i as int)] else []
    {
      DirPathLive(w, e);
      if e != parent && BlockOf(w, e) == b { OwnBlocks(w, e, parent); }
      assert EntriesOf(w, e) + [] == EntriesOf(w, e);
    }
    AddedGood(w, t, parent, name, i, isDir);
  }

  lemma LinkSound(w: World, target: Path, name: string, parent: Path)
    requires Sound(w) && target in w.files && parent in w.dirs && IsDirPath(w, parent) && Enterable(w, parent, name)
    ensures target in w.inum && w.inum[target] < |w.image.inodes|
    ensures Sound(Added(w, Linked(w.image, BlockOf(w, parent), name, w.inum[target]), parent +
      [name], w.inum[target], false))
  {
    hide PathsOk, BlocksOk, RefsOk, HasName;
    Removable(w, target);
    DirPathLive(w, parent);
    var i, b := w.inum[target], BlockOf(w, parent);
    LinkedConsistent(w.image, b, name, i);
    var t := Linked(w.image, b, name, i);
    forall e | e in w.dirs && IsDirPath(w, e)
      ensures t.data[BlockOf(w, e)].entries == EntriesOf(w, e) + if e == parent then [(name, i as int)] else []
    {
      if e != parent && BlockOf(w, e) == b { OwnBlocks(w, e, parent); }
      assert EntriesOf(w, e) + [] == EntriesOf(w, e);
    }
    AddedGood(w, t, parent, name, i, false);
  }

  lemma RemoveSound(w: World, f: Path)
    requires Sound(w) && f in w.files
    ensures f != [] && f in w.inum && IsDirPath(w, Parent(f)) && HasName(EntriesOf(w, Parent(f)), Last(f))
    ensures Sized(w.image) && w.inum[f] < |w.image.inodes| && w.image.inodes[w.inum[f]].addr < |w.image.data|
    ensures Sound(Removed(w, f))
  {
    hide PathsOk, BlocksOk, RefsOk, HasName, Good;
    RemovedGood(w, f);
    Removable(w, f);
    BlankDeleted(w.image, BlockOf(w, Parent(f)), FirstNamed(EntriesOf(w, Parent(f)), Last(f)), w.inum[f]);
  }

  lemma BlankDeleted(s: Image, b: nat, k: nat, i: nat)
    requires Blank(s) && Sized(s) && DirBlock(s, b) && k < |s.data[b].entries| && i < |s.inodes|
    requires s.inodes[i].addr < |s.data| && s.inodes[i].addr != b
    ensures Blank(Deleted(s, b, k, i))
  {
  }

  lemma WriteSound(w: World, f: Path, b: nat, contents: string)
    requires Sound(w) && f in w.files && f in w.inum && w.inum[f] < |w.image.inodes|
    requires w.image.inodes[w.inum[f]].addr == -1
    requires b < |w.image.data| && !w.image.dbits[b]
    ensures Sized(w.image) && Sound(w.(image := Written(w.image, w.inum[f], b, contents)))
  {
    hide BlocksOk, RefsOk, HasName, PathsOk, Written;
    Removable(w, f);
    var i := w.inum[f];
    WrittenConsistent(w.image, i, b, contents);
    WrittenEntries(w.image, i, b, contents);
    SamePaths(w, Written(w.image, i, b, contents));
  }

  lemma WrittenEntries(s: Image, i: nat, b: nat, contents: string)
    requires BitsOk(s) && Blank(s) && i < |s.inodes| && s.inodes[i].ftype.File? && b < |s.data| && !s.dbits[b]
    ensures SameTree(s, Written(s, i, b, contents)) && Blank(Written(s, i, b, contents))
  {
  }

  /** Types of inodes, addresses of directories and entries of directory blocks are the same. */
  ghost predicate SameTree(s: Image, t: Image) {
    && |t.inodes| == |s.inodes| && |t.data| == |s.data|
    && (forall i :: 0 <= i < |s.inodes| ==> t.inodes[i].ftype == s.inodes[i].ftype)
    && (forall i :: 0 <= i < |s.inodes| && s.inodes[i].ftype.Dir? ==> t.inodes[i].addr == s.inodes[i].addr)
    && (forall b :: 0 <= b < |s.data| ==> t.data[b].entries == s.data[b].entries)
  }

  lemma SamePaths(w: World, t: Image)
    requires PathsOk(w) && SameTree(w.image, t)
    ensures PathsOk(w.(image := t))
  {
    hide Has, UniqueNames, HasName;
    var w' := w.(image := t);
    forall d | d in w.dirs ensures IsDirPath(w', d) && EntriesOf(w', d) == EntriesOf(w, d) { assert IsDirPath(w, d); }
    forall g | g in w.files ensures FileOk(w', g) { assert FileOk(w, g); }
    forall p | p in w.files || (p in w.dirs && p != []) ensures ListedOk(w', p) { assert ListedOk(w, p); }
  }

  // ---------- the code ----------

  class FileSystem {
    var ibitmap: seq<bool>
    var inodes: seq<Inode>
    var dbitmap: seq<bool>
    var data: seq<Block>
    var files: set<Path>
    var dirs: set<Path>
    var nameToInum: map<Path, nat>

    function Now(): World
      reads this
    {
      World(Image(ibitmap, inodes, dbitmap, data), files, dirs, nameToInum)
    }

    ghost predicate Valid()
      reads this
    {
      Sound(Now())
    }

    constructor (numInodes: nat, numData: nat)
      requires numInodes >= 1 && numData >= 1
      ensures Valid() && files == {} && dirs == {[]} && |inodes| == numInodes && |data| == numData
      ensures nameToInum == map[[] := 0] && inodes[0] == Inode(Dir, 0, 2)
      ensures data[0] == Block(Dir, [(".", 0), ("..", 0)], "")
    {
      var free := Inode(Free, -1, 1);
      ibitmap := seq(numInodes, _ => false)[0 := true];
      inodes := seq(numInodes, _ => free)[0 := Inode(Dir, 0, 2)];
      dbitmap := seq(numData, _ => false)[0 := true];
      data := seq(numData, _ => Block(Free, [], ""))[0 := Block(Dir, [(".", 0), ("..", 0)], "")];
      files, dirs, nameToInum := {}, {[]}, map[[] := 0];
      new;
      RootSound(Now());
    }

    /** bitmap.alloc: any free number, -1 when there is none. */
    method InodeAlloc() returns (num: int)
      modifies this`ibitmap
      ensures num == -1 <==> !SomeFree(old(ibitmap))
      ensures num == -1 ==> ibitmap == old(ibitmap)
      ensures num != -1 ==> 0 <= num < |old(ibitmap)| && !old(ibitmap)[num] && ibitmap == old(ibitmap)[num := true]
    {
      num := Search(ibitmap);
      if num != -1 { ibitmap := ibitmap[num := true]; }
    }

    method DataAlloc() returns (num: int)
      modifies this`dbitmap
      ensures num == -1 <==> !SomeFree(old(dbitmap))
      ensures num == -1 ==> dbitmap == old(dbitmap)
      ensures num != -1 ==> 0 <= num < |old(dbitmap)| && !old(dbitmap)[num] && dbitmap == old(dbitmap)[num := true]
    {
      num := Search(dbitmap);
      if num != -1 { dbitmap := dbitmap[num := true]; }
    }

    /** Free bits may be taken in order or at random. */
    static method Search(bits: seq<bool>) returns (num: int)
      ensures num == -1 <==> !SomeFree(bits)
      ensures num != -1 ==> 0 <= num < |bits| && !bits[num]
    {
      for i := 0 to |bits|
        invariant forall j :: 0 <= j < i ==> bits[j]
      {
        if !bits[i] {
          num :| 0 <= num < |bits| && !bits[num];
          return;
        }
      }
      num := -1;
    }

    method AddDirEntry(b: nat, name: string, inum: int)
      requires b < |data| && data[b].ftype.Dir? && |data[b].entries| < MAX_ENTRIES
      modifies this`data
      ensures data == old(data)[b := old(data)[b].(entries := old(data)[b].entries + [(name, inum)])]
    {
      data := data[b := data[b].(entries := data[b].entries + [(name, inum)])];
      assert |data[b].entries| <= MAX_ENTRIES;
    }

    method NameExists(b: nat, name: string) returns (r: bool)
      requires b < |data|
      ensures r == HasName(data[b].entries, name)
    {
      for k := 0 to |data[b].entries|
        invariant forall j :: 0 <= j < k ==> data[b].entries[j].0 != name
      {
        if data[b].entries[k].0 == name { return true; }
      }
      return false;
    }

    /** doCreate with its createFile: -1, and nothing changed, exactly when there is no room, the name is taken, or
        an inode or block is lacking; otherwise one new file or directory, and everything still consistent. */
    method DoCreate(parent: Path, newfile: string, isDir: bool) returns (rc: int)
      requires Valid() && parent in dirs
      modifies this
      ensures Valid() && IsDirPath(old(Now()), parent)
        && rc == (if Creatable(old(Now()), parent, newfile, isDir) then 0 else -1)
      ensures rc == -1 ==> Now() == old(Now())
      ensures rc == 0 ==> exists i: nat, d: nat :: CreatedWith(old(Now()), Now(), parent, newfile, isDir, i, d)
    {
      hide Consistent, PathsOk, HasName, SomeFree;
      ghost var w := Now();
      DirPathLive(w, parent);
      SizedWorld(w);
      var pblock := inodes[nameToInum[parent]].addr;
      if MAX_ENTRIES - |data[pblock].entries| <= 0 { return -1; }
      var taken := NameExists(pblock, newfile);
      if taken { return -1; }
      var inum := InodeAlloc();
      if inum == -1 { return -1; }
      var fblock := -1;
      if isDir {
        fblock := DataAlloc();
        if fblock == -1 {
          ibitmap := ibitmap[inum := false];
          assert ibitmap == w.image.ibits;
          assert Now() == w;
          return -1;
        }
      }
      CreateSound(w, parent, newfile, isDir, inum, if isDir then fblock else 0);
      InstallNew(w, parent, newfile, isDir, inum, fblock);
      files := if isDir then files else files + {parent + [newfile]};
      dirs := if isDir then dirs + {parent + [newfile]} else dirs;
      nameToInum := nameToInum[parent + [newfile] := inum];
      assert CreatedWith(w, Now(), parent, newfile, isDir, inum, if isDir then fblock else 0);
      rc := 0;
    }

    /** The part of createFile after the allocations. */
    method InstallNew(ghost w: World, parent: Path, newfile: string, isDir: bool, inum: nat, fblock: int)
      requires w == Now().(image := Now().image.(ibits := w.image.ibits, dbits := w.image.dbits)) && Sound(w)
      requires parent in dirs && IsDirPath(w, parent) && Enterable(w, parent, newfile)
      requires inum < |w.image.ibits| && !w.image.ibits[inum]
      requires ibitmap == w.image.ibits[inum := true] && Sized(w.image)
      requires if isDir
        then 0 <= fblock < |w.image.dbits| && !w.image.dbits[fblock] && dbitmap == w.image.dbits[fblock := true]
               else fblock == -1 && dbitmap == w.image.dbits
      modifies this`inodes, this`data
      ensures isDir ==> inum != w.inum[parent]
      ensures Now() == w.(image := CreatedImage(w, parent, newfile, isDir, inum, if isDir then fblock else 0))
    {
      hide Consistent, PathsOk, HasName;
      DirPathLive(w, parent);
      var parentInum := nameToInum[parent];
      var pblock := inodes[parentInum].addr;
      if isDir {
        FreeIsBlank(w.image, fblock);
        assert data[fblock].ftype.Free?;
        data := data[fblock := data[fblock].(ftype := Dir)];
        AddDirEntry(fblock, ".", inum);
        AddDirEntry(fblock, "..", parentInum);
        assert data[fblock].entries == [(".", inum as int), ("..", parentInum as int)];
        inodes := inodes[inum := Inode(Dir, fblock, 2)];
        inodes := inodes[parentInum := inodes[parentInum].(refCnt := inodes[parentInum].refCnt + 1)];
      } else {
        inodes := inodes[inum := Inode(File, -1, 1)];
      }
      AddDirEntry(pblock, newfile, inum);
    }

    /** doLink with its createLink. */
    method DoLink(target: Path, newfile: string, parent: Path) returns (rc: int)
      requires Valid() && target in files && parent in dirs
      modifies this
      ensures Valid() && IsDirPath(old(Now()), parent)
        && rc == (if Enterable(old(Now()), parent, newfile) then 0 else -1)
      ensures rc == -1 ==> Now() == old(Now())
      ensures rc == 0 ==> target in old(nameToInum) && old(nameToInum)[target] < |old(inodes)|
      ensures rc == 0 ==> var w, i := old(Now()), old(nameToInum)[target];
        Now() == Added(w, Linked(w.image, BlockOf(w, parent), newfile, i), parent + [newfile], i, false)
    {
      hide Consistent, PathsOk, HasName;
      ghost var w := Now();
      DirPathLive(w, parent);
      Removable(w, target);
      var pblock := inodes[nameToInum[parent]].addr;
      if MAX_ENTRIES - |data[pblock].entries| <= 0 { return -1; }
      var taken := NameExists(pblock, newfile);
      if taken { return -1; }
      LinkSound(w, target, newfile, parent);
      var tinum := nameToInum[target];
      inodes := inodes[tinum := inodes[tinum].(refCnt := inodes[tinum].refCnt + 1)];
      AddDirEntry(pblock, newfile, tinum);
      files := files + {parent + [newfile]};
      nameToInum := nameToInum[parent + [newfile] := tinum];
      rc := 0;
    }

    /** deleteFile: the entry goes, and with the last reference the file's block and inode. Its assertions hold. */
    method DeleteFile(tfile: Path)
      requires Valid() && tfile in files
      modifies this
      ensures Valid() && tfile != [] && tfile in old(nameToInum) && IsDirPath(old(Now()), Parent(tfile))
      ensures HasName(EntriesOf(old(Now()), Parent(tfile)), Last(tfile)) && Sized(old(Now()).image)
      ensures old(nameToInum)[tfile] < |old(inodes)| && old(inodes)[old(nameToInum)[tfile]].addr < |old(data)|
      ensures Now() == Removed(old(Now()), tfile)
    {
      hide Consistent, PathsOk, HasName, FirstNamed;
      ghost var w := Now();
      Removable(w, tfile);
      RemoveSound(w, tfile);
      DeleteAsserts(w, tfile);
      var inum := nameToInum[tfile];
      var dblock := inodes[inum].addr;
      var pblock := inodes[nameToInum[Parent(tfile)]].addr;
      if inodes[inum].refCnt == 1 {
        if dblock != -1 {
          assert dbitmap[dblock] && !data[dblock].ftype.Free?;
          dbitmap := dbitmap[dblock := false];
          data := data[dblock := FreeBlock(data[dblock])];
        }
        assert ibitmap[inum];
        ibitmap := ibitmap[inum := false];
        inodes := inodes[inum := inodes[inum].(ftype := Free, addr := -1)];
      } else {
        inodes := inodes[inum := inodes[inum].(refCnt := inodes[inum].refCnt - 1)];
      }
      assert data[pblock].entries == EntriesOf(w, Parent(tfile));
      var k := FirstNamed(data[pblock].entries, Last(tfile));
      data := data[pblock := data[pblock].(entries := Without(data[pblock].entries, k))];
      files := files - {tfile};
    }

    /** doAppend with its writeFile: a file holds at most one block. */
    method WriteFile(tfile: Path, contents: string) returns (rc: int)
      requires Valid() && tfile in files
      modifies this
      ensures Valid() && tfile in old(nameToInum) && old(nameToInum)[tfile] < |old(inodes)|
      ensures rc == if old(inodes)[old(nameToInum)[tfile]].addr == -1 && SomeFree(old(dbitmap)) then 0 else -1
      ensures rc == -1 ==> Now() == old(Now())
      ensures rc == 0 ==> exists b: nat :: WrittenWith(old(Now()), Now(), old(nameToInum)[tfile], b, contents)
    {
      hide Consistent, PathsOk, SomeFree;
      ghost var w := Now();
      Removable(w, tfile);
      SizedWorld(w);
      var inum := nameToInum[tfile];
      if inodes[inum].addr != -1 { return -1; }
      var fblock := DataAlloc();
      if fblock == -1 { return -1; }
      WriteSound(w, tfile, fblock, contents);
      FreeIsBlank(w.image, fblock);
      assert data[fblock].ftype.Free?;
      data := data[fblock := data[fblock].(ftype := File)];
      data := data[fblock := data[fblock].(contents := contents)];
      inodes := inodes[inum := inodes[inum].(addr := fblock)];
      assert WrittenWith(w, Now(), inum, fblock, contents);
      rc := 0;
    }
  }

  /** The file got a block that was free, with the contents. */
  ghost predicate WrittenWith(w: World, t: World, i: nat, b: nat, contents: string) {
    && Sized(w.image) && i < |w.image.inodes| && b < |w.image.data| && !w.image.dbits[b]
    && t == w.(image := Written(w.image, i, b, contents))
  }

  lemma SizedWorld(w: World)
    requires Good(w)
    ensures Sized(w.image)
  {
  }

  lemma FreeIsBlank(s: Image, b: nat)
    requires Consistent(s) && Blank(s) && b < |s.dbits| && !s.dbits[b]
    ensures b < |s.data| && s.data[b].ftype.Free? && s.data[b].entries == []
  {
  }

  /** The assertions on the way of a delete. */
  lemma DeleteAsserts(w: World, f: Path)
    requires Good(w) && f in w.files
    ensures f in w.inum && w.inum[f] < |w.image.inodes| && Sized(w.image) && w.image.ibits[w.inum[f]]
    ensures var a := w.image.inodes[w.inum[f]].addr;
      a >= -1 && (a != -1 ==> a < |w.image.data| && w.image.dbits[a] && !w.image.data[a].ftype.Free?)
  {
    Removable(w, f);
    assert AddrOk(w.image, w.inum[f]);
  }

  lemma RootSound(w: World)
    requires Sized(w.image) && |w.image.inodes| >= 1 && |w.image.data| >= 1 && w.files == {} && w.dirs == {[]}
    requires w.inum == map[[] := 0]
    requires w.image.ibits[0] && w.image.dbits[0] && w.image.inodes[0] == Inode(Dir, 0, 2)
    requires w.image.data[0] == Block(Dir, [(".", 0), ("..", 0)], "")
    requires forall i :: 1 <= i < |w.image.inodes| ==> !w.image.ibits[i] && w.image.inodes[i] == Inode(Free, -1, 1)
    requires forall b :: 1 <= b < |w.image.data| ==> !w.image.dbits[b] && w.image.data[b] == Block(Free, [], "")
    ensures Sound(w)
  {
    var s := w.image;
    assert Owns(s, 0, 0);
    OwnEntries(0, 0, 0);
    RefsOfFirst(s.data, 0);
    assert UniqueNames(EntriesOf(w, []));
  }

  lemma {:induction false} RefsOfFirst(data: seq<Block>, i: int)
    requires |data| >= 1 && forall b :: 1 <= b < |data| ==> !data[b].ftype.Dir?
    ensures Refs(data, i) == InBlock(data[0], i)
  {
    if |data| > 1 { RefsOfFirst(data[..|data| - 1], i); } else { assert data[..0] == []; }
  }
}
