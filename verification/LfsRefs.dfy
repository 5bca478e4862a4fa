/** Reference counts in file-lfs/lfs.py: as many directory entries name a file as its inode says, as long as no entry of
    a file named "-" is taken for a free slot. */
module LfsRefs {
  import opened LfsDisk
  import opened LfsNames
  import opened LfsOps

  /** Entry `l` of block `j` of directory number `d`. */
  ghost function SlotAt(s: State, d: nat, j: nat, l: nat): Option<(string, int)> {
    if d >= |s.inodeMap| || MemInode(s.disk, s.inodeMap, d).None? then None
    else
      var dir := MemInode(s.disk, s.inodeMap, d).value;
      if dir.kind.Dir? && IsDir(s.disk, dir) && j < dir.size && l < PTRS then Some(Slot(s.disk, dir, j, l)) else None
  }

  ghost predicate NamesAt(s: State, d: nat, j: nat, l: nat, m: int) {
    SlotAt(s, d, j, l).Some? && SlotAt(s, d, j, l).value.1 == m
  }

  /** Everywhere inode number `m` is entered, in all directories. */
  ghost function Namers(s: State, m: int): set<(nat, nat, nat)> {
    set d: nat, j: nat, l: nat | d < INODES && j < PTRS && l < PTRS && NamesAt(s, d, j, l, m) :: (d, j, l)
  }

  ghost predicate CountRight(s: State, m: nat)
    requires m < |s.inodeMap|
  {
    match MemInode(s.disk, s.inodeMap, m)
    case None => Namers(s, m) == {}
    case Some(i) => i.kind.Reg? ==> |Namers(s, m)| == i.refs
  }

  ghost predicate IsFile(s: State, m: nat)
    requires m < |s.inodeMap|
  {
    MemInode(s.disk, s.inodeMap, m).Some? && MemInode(s.disk, s.inodeMap, m).value.kind.Reg?
  }

  /** Every file has as many references as entries, and no entry names a free inode. */
  ghost predicate Conserved(s: State) {
    forall m: nat :: m < |s.inodeMap| ==> CountRight(s, m)
  }

  /** The directory has a file where the next entry would go: its name is "-", the mark of a free slot. */
  ghost predicate DashFile(s: State, dir: Inode)
    requires IsDir(s.disk, dir)
  {
    var m := Number(s.disk, dir, "-");
    0 <= m < |s.inodeMap| && IsFile(s, m)
  }

  // ---------- one slot changed ----------

  lemma SlotStays(s: State, t: State, d: nat, j: nat, l: nat)
    requires Shaped(s) && Shaped(t) && s.disk <= t.disk && d < INODES && t.inodeMap[d] == s.inodeMap[d]
    ensures SlotAt(t, d, j, l) == SlotAt(s, d, j, l)
  {
    hide DiskOk, InodeOk;
    assert MemInode(t.disk, t.inodeMap, d) == MemInode(s.disk, s.inodeMap, d);
    if MemInode(s.disk, s.inodeMap, d).Some? {
      var dir := MemInode(s.disk, s.inodeMap, d).value;
      if dir.kind.Dir? {
        IsDirOf(s, d, dir);
        IsDirOf(t, d, dir);
        if j < dir.size { BlockStays(s.disk, t.disk, dir, j); }
      }
    }
  }

  lemma BlockStays(disk: Disk, disk': Disk, dir: Inode, j: nat)
    requires IsDir(disk, dir) && IsDir(disk', dir) && disk <= disk' && j < dir.size
    ensures EntriesAt(disk', dir, j) == EntriesAt(disk, dir, j)
  {
    assert PointsAtDir(disk, dir.pointers[j]);
  }

  /** Between two states directory `p` has a new entry `e` in slot (k, i), and otherwise only inode `n` has changed. */
  ghost predicate SlotSet(s: State, t: State, p: nat, n: nat, k: nat, i: nat, e: (string, int)) {
    && Shaped(s) && Shaped(t) && s.disk <= t.disk && p < INODES && n < INODES && n != p && k < PTRS && i < PTRS
    && (forall d: nat :: d < INODES && d != p && d != n ==> t.inodeMap[d] == s.inodeMap[d])
    && MemInode(s.disk, s.inodeMap, p).Some? && MemInode(t.disk, t.inodeMap, p).Some?
    && var dir, dir' := MemInode(s.disk, s.inodeMap, p).value, MemInode(t.disk, t.inodeMap, p).value;
    dir.kind.Dir? && dir'.kind.Dir? && OneSlot(s.disk, dir, t.disk, dir', k, i, e)
  }

  lemma NamesAfter(s: State, t: State, p: nat, n: nat, k: nat, i: nat, e: (string, int), m: nat, d: nat, j: nat, l: nat)
    requires SlotSet(s, t, p, n, k, i, e) && d < INODES && j < PTRS && l < PTRS
    requires d == n ==> !NamesAt(s, n, j, l, m) && !NamesAt(t, n, j, l, m)
    ensures NamesAt(t, d, j, l, m) <==> if d == p && j == k && l == i then e.1 == m else NamesAt(s, d, j, l, m)
  {
    hide DiskOk, InodeOk;
    if d == p {
      var dir' := MemInode(t.disk, t.inodeMap, p).value;
      if j < dir'.size { assert SlotAt(t, p, j, l) == Some(Slot(t.disk, dir', j, l)); }
    } else if d != n {
      SlotStays(s, t, d, j, l);
    }
  }

  /** The entries naming `m` afterwards, for a number that the changed inode does not enter. */
  lemma NamersAfter(s: State, t: State, p: nat, n: nat, k: nat, i: nat, e: (string, int), m: nat)
    requires SlotSet(s, t, p, n, k, i, e)
    requires forall j: nat, l: nat :: !NamesAt(s, n, j, l, m) && !NamesAt(t, n, j, l, m)
    ensures Namers(t, m) == Namers(s, m) - {(p, k, i)} + (if e.1 == m then {(p, k, i)} else {})
    ensures (p, k, i) in Namers(s, m) <==> NamesAt(s, p, k, i, m)
  {
    hide NamesAt, SlotSet;
    SlotSetBounds(s, t, p, n, k, i, e);
    forall d: nat, j: nat, l: nat | d < INODES && j < PTRS && l < PTRS
      ensures NamesAt(t, d, j, l, m) <==> if d == p && j == k && l == i then e.1 == m else NamesAt(s, d, j, l, m)
    {
      NamesAfter(s, t, p, n, k, i, e, m, d, j, l);
    }
  }

  lemma SlotSetBounds(s: State, t: State, p: nat, n: nat, k: nat, i: nat, e: (string, int))
    requires SlotSet(s, t, p, n, k, i, e)
    ensures p < INODES && n < INODES && k < PTRS && i < PTRS && |s.inodeMap| == |t.inodeMap| == INODES
    ensures MemInode(s.disk, s.inodeMap, p).Some? && MemInode(s.disk, s.inodeMap, p).value.kind.Dir?
    ensures MemInode(t.disk, t.inodeMap, p).Some? && MemInode(t.disk, t.inodeMap, p).value.kind.Dir?
    ensures forall d: nat :: d < INODES && d != p && d != n ==>
      MemInode(t.disk, t.inodeMap, d) == MemInode(s.disk, s.inodeMap, d)
  {
  }

  lemma OnlyDirsName(s: State, n: nat, m: int)
    requires n >= |s.inodeMap| || MemInode(s.disk, s.inodeMap, n).None?
      || MemInode(s.disk, s.inodeMap, n).value.kind.Reg?
    ensures forall j: nat, l: nat :: !NamesAt(s, n, j, l, m)
  {
  }

  lemma CardinalityStep(a: set<(nat, nat, nat)>, x: (nat, nat, nat))
    ensures |a - {x}| == |a| - if x in a then 1 else 0
    ensures |a + {x}| == |a| + if x in a then 0 else 1
  {
    if x in a { assert a + {x} == a; } else { assert a - {x} == a; }
  }

  // ---------- each operation ----------

  /** A number that is neither the directory's nor the changed inode's nor entered now: its count is off afterwards
      exactly if it is a file's and the slot taken was one of its entries. */
  lemma OtherCount(s: State, t: State, p: nat, n: nat, k: nat, i: nat, e: (string, int), m: nat)
    requires SlotSet(s, t, p, n, k, i, e) && |s.inodeMap| == |t.inodeMap| == INODES
    requires m < INODES && m != p && m != n && e.1 != m && CountRight(s, m)
    requires forall j: nat, l: nat :: !NamesAt(s, n, j, l, m) && !NamesAt(t, n, j, l, m)
    ensures CountRight(t, m) <==> !(NamesAt(s, p, k, i, m) && IsFile(s, m))
  {
    hide NamesAt, SlotSet, Namers;
    SlotSetBounds(s, t, p, n, k, i, e);
    NamersAfter(s, t, p, n, k, i, e, m);
    CardinalityStep(Namers(s, m), (p, k, i));
    assert Namers(s, m) - {(p, k, i)} + {} == Namers(s, m) - {(p, k, i)};
    if !NamesAt(s, p, k, i, m) { assert Namers(s, m) - {(p, k, i)} == Namers(s, m); }
  }

  lemma AddedSet(s: State, t: State, p: nat, n: nat, dir: Inode,
      dir': Inode, name: string, e: nat) returns (k: nat, i: nat)
    requires Legal(s, p, dir) && Shaped(t) && s.disk <= t.disk && n < INODES && n != p && IsDir(s.disk, dir)
    requires MemInode(t.disk, t.inodeMap, p) == Some(dir') && AddEntry(s.disk, dir, name, e).Some?
    requires var (k, size, entries) := AddEntry(s.disk, dir, name, e).value;
      Rewritten(s.disk, dir, t.disk, dir', k, entries)
    requires forall d: nat :: d < INODES && d != p && d != n ==> t.inodeMap[d] == s.inodeMap[d]
    ensures SlotSet(s, t, p, n, k, i, (name, e))
    ensures forall m: nat :: NamesAt(s, p, k, i, m) <==> Number(s.disk, dir, "-") == m
  {
    hide DiskOk, Number, AddEntry, FindSlot;
    k, i := AddedSlot(s.disk, dir, t.disk, dir', name, e);
    DirSize(t.disk, dir');
  }

  lemma DirSize(disk: Disk, dir: Inode)
    requires IsDir(disk, dir)
    ensures dir.kind.Dir? && dir.size <= PTRS
  {
  }

  /** A new directory's entries are its own and its parent's. */
  lemma NewDirNames(t: State, n: nat, a: nat, p: nat, m: nat)
    requires n < |t.inodeMap| && MemInode(t.disk, t.inodeMap, n) == Some(NewNode(false, a))
    requires a < |t.disk| && t.disk[a] == DirBlock(NewDirEntries(p, n)) && m != n && m != p
    ensures forall j: nat, l: nat :: !NamesAt(t, n, j, l, m)
    ensures forall j: nat, l: nat :: SlotAt(t, n, j, l).Some? && SlotAt(t, n, j, l).value.0 == "-" ==>
      SlotAt(t, n, j, l).value.1 == -1
  {
    hide InodeOk;
    var dir := NewNode(false, a);
    assert "."[0] != "-"[0] && |".."| != |"-"|;
    forall j: nat, l: nat | SlotAt(t, n, j, l).Some? ensures SlotAt(t, n, j, l).value == NewDirEntries(p, n)[l] {
      assert j == 0 && EntriesAt(t.disk, dir, 0) == NewDirEntries(p, n);
    }
  }

  /** A create keeps all counts right unless its entry replaces that of a file named "-"; then it does not. */
  lemma CreateRefs(s: State, p: nat, dir: Inode, name: string, n: nat, isFile: bool)
    requires Legal(s, p, dir) && IsDir(s.disk, dir) && AddEntry(s.disk, dir, name, n).Some? && n < INODES && n != p
    requires |s.inodeMap| == INODES && s.inodeMap[n] == -1 && Conserved(s)
    ensures Conserved(CreateState(s, p, dir, name, n, isFile)) <==> !DashFile(s, dir)
  {
    hide DiskOk, AddEntry, CreateState, InodeOk, FindSlot, Number, Namers, NamesAt, SlotSet, Rewritten;
    var t := CreateState(s, p, dir, name, n, isFile);
    CreateShaped(s, p, dir, name, n, isFile);
    CreateFacts(s, p, dir, name, n, isFile);
    var dir' := MemInode(t.disk, t.inodeMap, p).value;
    var k, i := AddedSet(s, t, p, n, dir, dir', name, n);
    SlotSetBounds(s, t, p, n, k, i, (name, n));
    forall m: nat | m < INODES
      ensures CountRight(t, m) <==> !(DashFile(s, dir) && Number(s.disk, dir, "-") == m)
    {
      assert CountRight(s, m);
      OnlyDirsName(s, n, m);
      if isFile { OnlyDirsName(t, n, m); }
      if m == n {
        if isFile {
          NamersAfter(s, t, p, n, k, i, (name, n), m);
          assert Namers(t, m) == {(p, k, i)};
        }
      } else if m != p {
        if !isFile { NewDirNames(t, n, |s.disk| + 1, p, m); }
        OtherCount(s, t, p, n, k, i, (name, n), m);
      }
    }
    OneWrong(s, t, dir);
  }

  lemma OneWrong(s: State, t: State, dir: Inode)
    requires IsDir(s.disk, dir) && |s.inodeMap| == |t.inodeMap| == INODES
    requires forall m: nat :: m < INODES ==>
      (CountRight(t, m) <==> !(DashFile(s, dir) && Number(s.disk, dir, "-") == m))
    ensures Conserved(t) <==> !DashFile(s, dir)
  {
    hide CountRight, Number, IsDir;
    if DashFile(s, dir) {
      var m: nat := Number(s.disk, dir, "-");
      assert !CountRight(t, m);
    }
  }

  /** So does a link. */
  lemma LinkRefs(s: State, p: nat, dir: Inode, name: string, n: nat, src: Inode)
    requires Legal(s, p, dir) && IsDir(s.disk, dir) && AddEntry(s.disk, dir, name, n).Some? && n < INODES
    requires MemInode(s.disk, s.inodeMap, n) == Some(src) && src.kind.Reg? && Conserved(s)
    ensures Conserved(LinkState(s, p, dir, name, n, src)) <==> !DashFile(s, dir)
  {
    hide DiskOk, AddEntry, LinkState, InodeOk, FindSlot, Number, Namers, NamesAt, SlotSet, Rewritten;
    var t := LinkState(s, p, dir, name, n, src);
    LinkShapedOnly(s, p, dir, name, n, src);
    LinkFacts(s, p, dir, name, n, src);
    var k, i := AddedSet(s, t, p, n, dir, MemInode(t.disk, t.inodeMap, p).value, name, n);
    SlotSetBounds(s, t, p, n, k, i, (name, n));
    forall m: nat | m < INODES
      ensures CountRight(t, m) <==> !(DashFile(s, dir) && Number(s.disk, dir, "-") == m)
    {
      assert CountRight(s, m);
      OnlyDirsName(s, n, m);
      OnlyDirsName(t, n, m);
      if m == n {
        NamersAfter(s, t, p, n, k, i, (name, n), m);
        CardinalityStep(Namers(s, m), (p, k, i));
        assert Namers(t, m) == Namers(s, m) + {(p, k, i)};
      } else if m != p {
        OtherCount(s, t, p, n, k, i, (name, n), m);
      }
    }
    OneWrong(s, t, dir);
  }

  /** A delete keeps them right: the file has one entry and one reference less, or neither. */
  lemma DeleteRefs(s: State, p: nat, dir: Inode, name: string, n: nat, file: Inode)
    requires Legal(s, p, dir) && IsDir(s.disk, dir) && FindSlot(s.disk, dir, name, 0).0 != -1 && n < INODES
    requires Number(s.disk, dir, name) == n && MemInode(s.disk, s.inodeMap, n) == Some(file) && file.kind.Reg?
    requires AllTidy(s) && Conserved(s)
    ensures Conserved(DeleteState(s, p, dir, name, n, file))
  {
    hide DiskOk, DeleteState, InodeOk, FindSlot, Namers, SlotSet, Tidy, AllTidy, Rewritten;
    var t := DeleteState(s, p, dir, name, n, file);
    DeleteShaped(s, p, dir, name, n, file);
    FileTidy(s, n, file);
    DeleteFacts(s, p, dir, name, n, file);
    var (k, i) := FindSlot(s.disk, dir, name, 0);
    var dir' := MemInode(t.disk, t.inodeMap, p).value;
    FreedSet(s, t, p, n, dir, dir', k, i);
    SlotSetBounds(s, t, p, n, k, i, ("-", -1));
    forall m: nat | m < INODES ensures CountRight(t, m) {
      assert CountRight(s, m);
      OnlyDirsName(s, n, m);
      OnlyDirsName(t, n, m);
      assert NamesAt(s, p, k, i, m) <==> m == n;
      if m == n {
        NamersAfter(s, t, p, n, k, i, ("-", -1), m);
        CardinalityStep(Namers(s, m), (p, k, i));
        assert Namers(t, m) == Namers(s, m) - {(p, k, i)};
      } else if m != p {
        OtherCount(s, t, p, n, k, i, ("-", -1), m);
      }
    }
  }

  lemma FreedSet(s: State, t: State, p: nat, n: nat, dir: Inode, dir': Inode, k: nat, i: nat)
    requires Legal(s, p, dir) && Shaped(t) && s.disk <= t.disk && n < INODES && n != p && IsDir(s.disk, dir)
    requires MemInode(t.disk, t.inodeMap, p) == Some(dir') && k < dir.size && i < PTRS
    requires |EntriesAt(s.disk, dir, k)| == PTRS
      && Rewritten(s.disk, dir, t.disk, dir', k, EntriesAt(s.disk, dir, k)[i := ("-", -1)])
    requires forall d: nat :: d < INODES && d != p && d != n ==> t.inodeMap[d] == s.inodeMap[d]
    ensures SlotSet(s, t, p, n, k, i, ("-", -1))
    ensures forall m: nat :: NamesAt(s, p, k, i, m) <==> EntriesAt(s.disk, dir, k)[i].1 == m
  {
    hide DiskOk;
    RewrittenSlot(s.disk, dir, t.disk, dir', k, i, ("-", -1), EntriesAt(s.disk, dir, k)[i := ("-", -1)]);
    DirSize(s.disk, dir);
  }

  // ---------- without files named "-" ----------

  ghost predicate NoDash(s: State) {
    forall d: nat, j: nat, l: nat :: SlotAt(s, d, j, l).Some? && SlotAt(s, d, j, l).value.0 == "-" ==>
      SlotAt(s, d, j, l).value.1 == -1
  }

  /** Counts right, and nothing named "-". */
  ghost predicate Counted(s: State) { |s.inodeMap| == INODES && Conserved(s) && NoDash(s) }

  lemma NoDashFile(s: State, p: nat, dir: Inode)
    requires NoDash(s) && Legal(s, p, dir) && IsDir(s.disk, dir)
    ensures !DashFile(s, dir)
  {
    hide DiskOk, InodeOk, FindSlot;
    var (k, i) := FindSlot(s.disk, dir, "-", 0);
    if k != -1 {
      DirSize(s.disk, dir);
      EntriesLength(s.disk, dir, k);
      assert SlotAt(s, p, k, i) == Some(EntriesAt(s.disk, dir, k)[i]);
    }
  }

  lemma NoDashAfter(s: State, t: State, p: nat, n: nat, k: nat, i: nat, e: (string, int))
    requires SlotSet(s, t, p, n, k, i, e) && NoDash(s) && (e.0 == "-" ==> e.1 == -1)
    requires forall j: nat, l: nat :: SlotAt(t, n, j, l).Some? && SlotAt(t, n, j, l).value.0 == "-" ==>
      SlotAt(t, n, j, l).value.1 == -1
    ensures NoDash(t)
  {
    hide DiskOk, InodeOk;
    forall d: nat, j: nat, l: nat | SlotAt(t, d, j, l).Some? && SlotAt(t, d, j, l).value.0 == "-"
      ensures SlotAt(t, d, j, l).value.1 == -1
    {
      if d == p {
        var dir' := MemInode(t.disk, t.inodeMap, p).value;
        assert SlotAt(t, p, j, l) == Some(Slot(t.disk, dir', j, l));
        var dir := MemInode(s.disk, s.inodeMap, p).value;
        if j < dir.size { assert SlotAt(s, p, j, l) == Some(Slot(s.disk, dir, j, l)); }
      } else if d != n {
        SlotStays(s, t, d, j, l);
      }
    }
  }

  lemma CreateCounted(s: State, p: nat, dir: Inode, name: string, n: nat, isFile: bool)
    requires Legal(s, p, dir) && IsDir(s.disk, dir) && AddEntry(s.disk, dir, name, n).Some? && n < INODES && n != p
    requires Counted(s) && s.inodeMap[n] == -1 && name != "-"
    ensures Counted(CreateState(s, p, dir, name, n, isFile))
  {
    hide DiskOk, AddEntry, CreateState, InodeOk, FindSlot, Number, Namers, NamesAt, SlotSet, SlotAt, Rewritten,
      Conserved, DashFile;
    var t := CreateState(s, p, dir, name, n, isFile);
    NoDashFile(s, p, dir);
    CreateRefs(s, p, dir, name, n, isFile);
    CreateShaped(s, p, dir, name, n, isFile);
    CreateFacts(s, p, dir, name, n, isFile);
    var k, i := AddedSet(s, t, p, n, dir, MemInode(t.disk, t.inodeMap, p).value, name, n);
    if isFile { NoSlots(t, n); } else { NewDirNames(t, n, |s.disk| + 1, p, n + p + 1); }
    NoDashAfter(s, t, p, n, k, i, (name, n));
  }

  lemma NoSlots(t: State, n: nat)
    requires n >= |t.inodeMap| || MemInode(t.disk, t.inodeMap, n).None?
      || MemInode(t.disk, t.inodeMap, n).value.kind.Reg?
    ensures forall j: nat, l: nat :: SlotAt(t, n, j, l).None?
  {
  }

  lemma LinkCounted(s: State, p: nat, dir: Inode, name: string, n: nat, src: Inode)
    requires Legal(s, p, dir) && IsDir(s.disk, dir) && AddEntry(s.disk, dir, name, n).Some? && n < INODES
    requires MemInode(s.disk, s.inodeMap, n) == Some(src) && src.kind.Reg? && Counted(s) && name != "-"
    ensures Counted(LinkState(s, p, dir, name, n, src))
  {
    hide DiskOk, AddEntry, LinkState, InodeOk, FindSlot, Number, Namers, NamesAt, SlotSet, SlotAt, Rewritten, Conserved,
      DashFile;
    var t := LinkState(s, p, dir, name, n, src);
    NoDashFile(s, p, dir);
    LinkRefs(s, p, dir, name, n, src);
    LinkShapedOnly(s, p, dir, name, n, src);
    LinkFacts(s, p, dir, name, n, src);
    var k, i := AddedSet(s, t, p, n, dir, MemInode(t.disk, t.inodeMap, p).value, name, n);
    NoSlots(t, n);
    NoDashAfter(s, t, p, n, k, i, (name, n));
  }

  lemma DeleteCounted(s: State, p: nat, dir: Inode, name: string, n: nat, file: Inode)
    requires Legal(s, p, dir) && IsDir(s.disk, dir) && FindSlot(s.disk, dir, name, 0).0 != -1 && n < INODES
    requires Number(s.disk, dir, name) == n && MemInode(s.disk, s.inodeMap, n) == Some(file) && file.kind.Reg?
    requires AllTidy(s) && Counted(s)
    ensures Counted(DeleteState(s, p, dir, name, n, file))
  {
    hide DiskOk, DeleteState, InodeOk, FindSlot, Namers, SlotSet, SlotAt, NamesAt, Tidy, AllTidy, Rewritten, Conserved;
    var t := DeleteState(s, p, dir, name, n, file);
    DeleteRefs(s, p, dir, name, n, file);
    DeleteShaped(s, p, dir, name, n, file);
    FileTidy(s, n, file);
    DeleteFacts(s, p, dir, name, n, file);
    var (k, i) := FindSlot(s.disk, dir, name, 0);
    FreedSet(s, t, p, n, dir, MemInode(t.disk, t.inodeMap, p).value, k, i);
    NoSlots(t, n);
    NoDashAfter(s, t, p, n, k, i, ("-", -1));
  }

  /** The same entries, and the same kinds and counts of inodes. */
  lemma SameCounts(s: State, t: State)
    requires |s.inodeMap| == |t.inodeMap| && forall d: nat, j: nat, l: nat :: SlotAt(t, d, j, l) == SlotAt(s, d, j, l)
    requires forall m: nat :: m < |s.inodeMap| ==>
      var a, b := MemInode(s.disk, s.inodeMap, m), MemInode(t.disk, t.inodeMap, m);
      a.Some? == b.Some? && (a.Some? ==> a.value.kind == b.value.kind && a.value.refs == b.value.refs)
    ensures (Conserved(s) ==> Conserved(t)) && (NoDash(s) ==> NoDash(t))
  {
    hide SlotAt, MemInode;
    forall m: nat | m < |s.inodeMap| ensures CountRight(s, m) ==> CountRight(t, m) {
      assert Namers(t, m) == Namers(s, m);
    }
  }

  /** A write leaves entries and counts alone. */
  lemma WriteRefs(s: State, n: nat, file: Inode, offset: nat, contents: seq<string>)
    requires Shaped(s) && n < INODES && MemInode(s.disk, s.inodeMap, n) == Some(file) && file.kind.Reg? && offset < PTRS
    requires |s.inodeMap| == INODES && |s.cr| == CHUNKS && |file.pointers| == PTRS
    ensures Conserved(s) ==> Conserved(WriteState(s, n, file, offset, contents))
    ensures Counted(s) ==> Counted(WriteState(s, n, file, offset, contents))
  {
    hide DiskOk, InodeOk, SlotAt, Conserved, NoDash;
    var t, w := WriteState(s, n, file, offset, contents), Fits(offset, contents);
    WriteShaped(s, n, file, offset, contents);
    assert t.inodeMap[n] == |s.disk| + w && t.disk[|s.disk| + w] == Node(Written(file, offset, w, |s.disk|));
    NoSlots(s, n);
    NoSlots(t, n);
    forall d: nat, j: nat, l: nat ensures SlotAt(t, d, j, l) == SlotAt(s, d, j, l) {
      if d >= INODES {
        NoSlots(s, d);
        NoSlots(t, d);
      } else if d != n {
        SlotStays(s, t, d, j, l);
      }
    }
    SameCounts(s, t);
  }

  lemma SyncRefs(s: State)
    requires Shaped(s) && AllTidy(s)
    ensures |s.disk| > 0 && (Conserved(s) ==> Conserved(Sync(s))) && (Counted(s) ==> Counted(Sync(s)))
  {
    hide DiskOk, InodeOk, Tidy, Conserved, NoDash;
    SyncParts(s);
    var t := Sync(s);
    assert forall m: nat :: m < INODES ==> MemInode(t.disk, t.inodeMap, m) == MemInode(s.disk, s.inodeMap, m);
    forall d: nat, j: nat, l: nat ensures SlotAt(t, d, j, l) == SlotAt(s, d, j, l) {
      if d < INODES && MemInode(s.disk, s.inodeMap, d).Some? && MemInode(s.disk, s.inodeMap, d).value.kind.Dir? {
        var dir := MemInode(s.disk, s.inodeMap, d).value;
        assert NodeTidy(s.disk, dir);
        NodeTidyUnderSync(s.disk, t.disk, dir);
        if j < dir.size { BlockUnderSync(s.disk, t.disk, dir, j); }
      }
    }
    SameCounts(s, t);
  }

  lemma BlockUnderSync(disk: Disk, disk': Disk, dir: Inode, j: nat)
    requires IsDir(disk, dir) && IsDir(disk', dir) && j < dir.size
    requires |disk| == |disk'| > 0 && disk[0].Checkpoint? && (forall a :: 0 < a < |disk| ==> disk'[a] == disk[a])
    ensures EntriesAt(disk', dir, j) == EntriesAt(disk, dir, j)
  {
    assert PointsAtDir(disk, dir.pointers[j]);
  }
}
