/** Names in the directories of file-lfs/lfs.py: where each operation makes them lead, and that no directory lists a
    name twice. */
module LfsNames {
  import opened LfsDisk
  import opened LfsOps

  // ---------- names after a new entry ----------

  /** Block `k` of the directory, perhaps a new last one, now holds `entries`; the others are as before. */
  ghost predicate Rewritten(disk: Disk, dir: Inode, disk': Disk, dir': Inode, k: nat, entries: Entries) {
    && IsDir(disk, dir) && IsDir(disk', dir') && |entries| == PTRS
    && k < dir'.size && (dir'.size == dir.size || (dir'.size == dir.size + 1 && k == dir.size))
    && (forall j: nat :: j < dir'.size ==>
      EntriesAt(disk', dir', j) == if j == k then entries else EntriesAt(disk, dir, j))
  }

  lemma {:induction false} FindOther(entries: Entries, i: nat, e: (string, int), m: string, from: nat)
    requires i < |entries| && from <= |entries| && m != e.0 && m != entries[i].0
    ensures FindNameFrom(entries[i := e], m, from) == FindNameFrom(entries, m, from)
    decreases |entries| - from
  {
    if from < |entries| { FindOther(entries, i, e, m, from + 1); }
  }

  lemma {:induction false} FindNew(entries: Entries, i: nat, n: int, name: string, from: nat)
    requires i < |entries| && from <= i && FindNameFrom(entries, name, from) == -1
    ensures FindNameFrom(entries[i := (name, n)], name, from) == i
    decreases |entries| - from
  {
    if from < i { FindNew(entries, i, n, name, from + 1); }
  }

  lemma {:induction false} FindAbsent(entries: Entries, m: string, from: nat)
    requires from <= |entries| && forall j :: 0 <= j < |entries| ==> entries[j].0 != m
    ensures FindNameFrom(entries, m, from) == -1
    decreases |entries| - from
  {
    if from < |entries| { FindAbsent(entries, m, from + 1); }
  }

  /** The block written has the new name where the first free slot was, and every other name as before. */
  lemma EntriesAfter(disk: Disk, dir: Inode, name: string, n: int, m: string)
    requires IsDir(disk, dir) && AddEntry(disk, dir, name, n).Some? && m != "-"
    requires m == name ==> FindSlot(disk, dir, name, 0).0 == -1
    ensures var (k, size, entries) := AddEntry(disk, dir, name, n).value;
      if m == name then FindName(entries, m) != -1 && entries[FindName(entries, m)].1 == n
      else if k < dir.size then FindName(entries, m) == FindName(EntriesAt(disk, dir, k), m)
        && (FindName(entries, m) != -1 ==>
          entries[FindName(entries, m)] == EntriesAt(disk, dir, k)[FindName(entries, m)])
      else FindName(entries, m) == -1
  {
    hide InodeOk;
    var (k, i) := FindSlot(disk, dir, "-", 0);
    if k != -1 {
      var old_ := EntriesAt(disk, dir, k);
      EntriesLength(disk, dir, k);
      if m == name {
        NotInBlock(disk, dir, name, 0, k);
        FindNew(old_, i, n, name, 0);
      } else {
        FindOther(old_, i, (name, n), m, 0);
      }
    } else {
      var fresh_ := Empty();
      FindAbsent(fresh_, m, 0);
      if m == name { FindNew(fresh_, 0, n, name, 0); } else { FindOther(fresh_, 0, (name, n), m, 0); }
    }
  }

  lemma {:induction false} NotInBlock(disk: Disk, dir: Inode, name: string, from: nat, k: nat)
    requires IsDir(disk, dir) && from <= k < dir.size && FindSlot(disk, dir, name, from).0 == -1
    ensures FindName(EntriesAt(disk, dir, k), name) == -1
    decreases dir.size - from
  {
    hide InodeOk, FindName;
    if from < k { NotInBlock(disk, dir, name, from + 1, k); }
  }

  /** Looking up a name in the rewritten directory, from block `from` on. */
  lemma {:induction false} LookupAfter(disk: Disk, dir: Inode, disk': Disk, dir': Inode, name: string, n: int,
      m: string, from: nat)
    requires IsDir(disk, dir) && AddEntry(disk, dir, name, n).Some? && m != "-"
    requires m == name ==> FindSlot(disk, dir, name, 0).0 == -1
    requires var (k, size, entries) := AddEntry(disk, dir, name, n).value;
      Rewritten(disk, dir, disk', dir', k, entries) && from <= dir'.size && (m == name ==> from <= k)
    ensures var (j, i) := FindSlot(disk', dir', m, from);
      if m == name then j != -1 && EntriesAt(disk', dir', j)[i].1 == n
      else if from > dir.size then j == -1
      else
        (j, i) == FindSlot(disk, dir, m, from)
        && (j != -1 ==> EntriesAt(disk', dir', j)[i] == EntriesAt(disk, dir, j)[i])
    decreases dir'.size - from
  {
    hide InodeOk, FindName, AddEntry;
    var (k, size, entries) := AddEntry(disk, dir, name, n).value;
    if from < dir'.size {
      EntriesAfter(disk, dir, name, n, m);
      if m == name && from == k {
      } else {
        if from < dir.size && m == name { NotInBlock(disk, dir, name, 0, from); }
        LookupAfter(disk, dir, disk', dir', name, n, m, from + 1);
      }
    }
  }

  /** What a create leaves at the directory's number and at the new one. */
  lemma CreateFacts(s: State, p: nat, dir: Inode, name: string, n: nat, isFile: bool)
    requires Legal(s, p, dir) && IsDir(s.disk, dir) && AddEntry(s.disk, dir, name, n).Some? && n < INODES && n != p
    ensures |s.inodeMap| == INODES && |dir.pointers| == PTRS && AddEntry(s.disk, dir, name, n).value.0 < PTRS
    ensures var t, (k, size, entries) := CreateState(s, p, dir, name, n, isFile), AddEntry(s.disk, dir, name, n).value;
      var dir' := SetBlock(dir, k, |s.disk|, size).(refs := if isFile then dir.refs else dir.refs + 1);
      && s.disk <= t.disk && |t.inodeMap| == INODES && MemInode(t.disk, t.inodeMap, p) == Some(dir')
        && Rewritten(s.disk, dir, t.disk, dir', k, entries)
      && (forall i: nat :: i < INODES && i != p && i != n ==> t.inodeMap[i] == s.inodeMap[i])
      && |s.disk| + 1 < |t.disk|
        && MemInode(t.disk, t.inodeMap, n) == Some(NewNode(isFile, |s.disk| + if isFile then 0 else 1))
      && (!isFile ==> t.disk[|s.disk| + 1] == DirBlock(NewDirEntries(p, n)))
  {
    hide Shaped, AddEntry, Relog, DiskOk, InodeOk, FindSlot, NewNode;
    ShapedSizes(s);
    ShapedDisk(s);
    AddEntryOk(s.disk, dir, name, n);
    var t := CreateState(s, p, dir, name, n, isFile);
    var (k, size, entries) := AddEntry(s.disk, dir, name, n).value;
    var refs := if isFile then dir.refs else dir.refs + 1;
    var dir' := SetBlock(dir, k, |s.disk|, size).(refs := refs);
    var own := if isFile then [] else [DirBlock(NewDirEntries(p, n))];
    var d := s.disk + [DirBlock(entries)] + own;
    var u := State(d + [Node(dir')] + [Node(NewNode(isFile, |d| - 1))], s.inodeMap[p := |d|][n := |d| + 1], s.cr);
    assert t == Relog(u, [p, n], []);
    CreateShaped(s, p, dir, name, n, isFile);
    RelogGrows(u, [p, n], []);
    assert u.disk[|d|] == Node(dir') && u.disk[|d| + 1] == Node(NewNode(isFile, |d| - 1))
      && u.disk[|s.disk|] == DirBlock(entries);
    assert t.disk[|d|] == Node(dir') && t.disk[|d| + 1] == Node(NewNode(isFile, |d| - 1))
      && t.disk[|s.disk|] == DirBlock(entries);
    if !isFile { assert u.disk[|s.disk| + 1] == own[0]; }
    SetBlockOk(s.disk, dir, k, size, entries, refs);
    InodeStays(s.disk + [DirBlock(entries)], t.disk, dir');
    RewrittenBy(s.disk, dir, t.disk, k, size, entries, refs);
  }

  /** Relogging appends imap chunks and leaves the inode map alone. */
  lemma {:induction false} RelogGrows(s: State, inums: seq<nat>, done: seq<nat>)
    requires |s.inodeMap| == INODES && |s.cr| == CHUNKS && (forall k :: 0 <= k < |inums| ==> inums[k] < INODES)
    ensures s.disk <= Relog(s, inums, done).disk && Relog(s, inums, done).inodeMap == s.inodeMap
    decreases |inums|
  {
    if inums != [] {
      var c, rest := Chunk(inums[0]), inums[1..];
      if c in done { RelogGrows(s, rest, done); } else { RelogGrows(LogChunk(s, c), rest, done + [c]); }
    }
  }

  lemma RewrittenBy(disk: Disk, dir: Inode, disk': Disk, k: nat, size: nat, entries: Entries, refs: int)
    requires IsDir(disk, dir) && k < size <= PTRS
      && (size == dir.size || (size == dir.size + 1 && k == dir.size)) && |entries| == PTRS
    requires |dir.pointers| == PTRS && disk + [DirBlock(entries)] <= disk'
    requires IsDir(disk', SetBlock(dir, k, |disk|, size).(refs := refs))
    ensures Rewritten(disk, dir, disk', SetBlock(dir, k, |disk|, size).(refs := refs), k, entries)
  {
    var dir' := SetBlock(dir, k, |disk|, size).(refs := refs);
    assert disk'[|disk|] == DirBlock(entries);
    forall j: nat | j < size ensures EntriesAt(disk', dir', j) == if j == k then entries else EntriesAt(disk, dir, j) {
      if j != k { assert PointsAtDir(disk, dir.pointers[j]); }
    }
  }

  /** What a link leaves at the directory's number and at the file's. */
  lemma LinkFacts(s: State, p: nat, dir: Inode, name: string, n: nat, src: Inode)
    requires Legal(s, p, dir) && IsDir(s.disk, dir) && AddEntry(s.disk, dir, name, n).Some? && n < INODES && n != p
    ensures |s.inodeMap| == INODES && |dir.pointers| == PTRS && AddEntry(s.disk, dir, name, n).value.0 < PTRS
    ensures var t, (k, size, entries) := LinkState(s, p, dir, name, n, src), AddEntry(s.disk, dir, name, n).value;
      var dir' := SetBlock(dir, k, |s.disk|, size);
      && s.disk <= t.disk && |t.inodeMap| == INODES && MemInode(t.disk, t.inodeMap, p) == Some(dir')
        && Rewritten(s.disk, dir, t.disk, dir', k, entries)
      && (forall i: nat :: i < INODES && i != p && i != n ==> t.inodeMap[i] == s.inodeMap[i])
      && MemInode(t.disk, t.inodeMap, n) == Some(src.(refs := src.refs + 1))
  {
    hide Shaped, AddEntry, Relog, DiskOk, InodeOk, FindSlot;
    ShapedSizes(s);
    ShapedDisk(s);
    AddEntryOk(s.disk, dir, name, n);
    var t := LinkState(s, p, dir, name, n, src);
    var (k, size, entries) := AddEntry(s.disk, dir, name, n).value;
    var dir' := SetBlock(dir, k, |s.disk|, size);
    assert dir' == dir'.(refs := dir.refs);
    var d := s.disk + [DirBlock(entries)];
    var u := State(d + [Node(dir')] + [Node(src.(refs := src.refs + 1))], s.inodeMap[p := |d|][n := |d| + 1], s.cr);
    assert t == Relog(u, [p], []);
    RelogGrows(u, [p], []);
    assert u.disk[|s.disk|] == DirBlock(entries) && u.disk[|s.disk| + 1] == Node(dir');
    assert u.disk[|s.disk| + 2] == Node(src.(refs := src.refs + 1));
    SetBlockOk(s.disk, dir, k, size, entries, dir.refs);
    InodeStays(d, t.disk, dir');
    RewrittenBy(s.disk, dir, t.disk, k, size, entries, dir.refs);
  }

  // ---------- names after a delete ----------

  lemma FindAfterFree(entries: Entries, i: nat, m: string)
    requires i < |entries| && m != "-" && m != entries[i].0
    ensures FindName(entries[i := ("-", -1)], m) == FindName(entries, m)
  {
    FindOther(entries, i, ("-", -1), m, 0);
  }

  /** Every other name is found as before. */
  lemma {:induction false} LookupOthers(disk: Disk, dir: Inode, disk': Disk, dir': Inode, name: string,
      m: string, from: nat)
    requires IsDir(disk, dir) && FindSlot(disk, dir, name, 0).0 != -1 && m != "-" && m != name
    requires var (k, i) := FindSlot(disk, dir, name, 0);
      |EntriesAt(disk, dir, k)| == PTRS && dir'.size == dir.size && from <= dir.size
      && Rewritten(disk, dir, disk', dir', k, EntriesAt(disk, dir, k)[i := ("-", -1)])
    ensures var (j, l) := FindSlot(disk, dir, m, from);
      FindSlot(disk', dir', m, from) == (j, l)
        && (j != -1 ==> EntriesAt(disk', dir', j)[l] == EntriesAt(disk, dir, j)[l])
    decreases dir.size - from
  {
    hide InodeOk, FindName;
    var (k, i) := FindSlot(disk, dir, name, 0);
    if from < dir.size {
      LookupOthers(disk, dir, disk', dir', name, m, from + 1);
      if from == k { FindAfterFree(EntriesAt(disk, dir, k), i, m); }
    }
  }

  lemma {:induction false} NowhereFound(disk: Disk, dir: Inode, name: string, from: nat)
    requires IsDir(disk, dir) && from <= dir.size
    requires forall j: nat, l: nat :: j < dir.size && l < PTRS ==> Slot(disk, dir, j, l).0 != name
    ensures FindSlot(disk, dir, name, from) == (-1, -1)
    decreases dir.size - from
  {
    hide InodeOk;
    if from < dir.size {
      EntriesLength(disk, dir, from);
      forall l: nat | l < PTRS
        ensures EntriesAt(disk, dir, from)[l].0 != name { assert Slot(disk, dir, from, l).0 != name; }
      FindAbsent(EntriesAt(disk, dir, from), name, 0);
      NowhereFound(disk, dir, name, from + 1);
    }
  }

  /** What a delete leaves at the directory's number and at the file's. */
  lemma DeleteFacts(s: State, p: nat, dir: Inode, name: string, n: nat, file: Inode)
    requires Legal(s, p, dir) && IsDir(s.disk, dir) && FindSlot(s.disk, dir, name, 0).0 != -1 && n < INODES && n != p
    requires MemInode(s.disk, s.inodeMap, n) == Some(file) && file.refs >= 1
    ensures |s.inodeMap| == INODES && |dir.pointers| == PTRS
    ensures var t, (k, i) := DeleteState(s, p, dir, name, n, file), FindSlot(s.disk, dir, name, 0);
      var dir' := SetBlock(dir, k, |s.disk|, dir.size);
      && s.disk <= t.disk && |t.inodeMap| == INODES
        && MemInode(t.disk, t.inodeMap, p) == Some(dir') && |EntriesAt(s.disk, dir, k)| == PTRS
      && Rewritten(s.disk, dir, t.disk, dir', k, EntriesAt(s.disk, dir, k)[i := ("-", -1)])
      && (forall i: nat :: i < INODES && i != p && i != n ==> t.inodeMap[i] == s.inodeMap[i])
      && MemInode(t.disk, t.inodeMap, n) == if file.refs == 1 then None else Some(file.(refs := file.refs - 1))
  {
    hide Shaped, Relog, DiskOk, InodeOk, FindSlot;
    ShapedSizes(s);
    ShapedDisk(s);
    PointersOf(s.disk, dir);
    var t := DeleteState(s, p, dir, name, n, file);
    var (k, i) := FindSlot(s.disk, dir, name, 0);
    EntriesLength(s.disk, dir, k);
    var entries := EntriesAt(s.disk, dir, k)[i := ("-", -1)];
    var dir' := SetBlock(dir, k, |s.disk|, dir.size);
    assert dir' == dir'.(refs := dir.refs);
    var d := s.disk + [DirBlock(entries)] + [Node(dir')];
    var map1 := (if file.refs == 1 then s.inodeMap[n := -1] else s.inodeMap)[p := |d| - 1];
    var u := if file.refs > 1 then State(d + [Node(file.(refs := file.refs - 1))], map1[n := |d|], s.cr)
      else State(d, map1, s.cr);
    assert t == Relog(u, [n, p], []);
    RelogGrows(u, [n, p], []);
    assert u.disk[|s.disk|] == DirBlock(entries) && u.disk[|s.disk| + 1] == Node(dir');
    SetBlockOk(s.disk, dir, k, dir.size, entries, dir.refs);
    InodeStays(s.disk + [DirBlock(entries)], t.disk, dir');
    RewrittenBy(s.disk, dir, t.disk, k, dir.size, entries, dir.refs);
  }

  // ---------- no name twice ----------

  /** Entry `l` of block `j`. */
  function Slot(disk: Disk, dir: Inode, j: nat, l: nat): (string, int)
    requires IsDir(disk, dir) && j < dir.size && l < PTRS
  {
    EntriesLength(disk, dir, j);
    EntriesAt(disk, dir, j)[l]
  }

  /** Every entry in use has a number, and no two have the same name. */
  ghost predicate Tidy(disk: Disk, dir: Inode)
    requires IsDir(disk, dir)
  {
    && (forall j: nat, l: nat :: j < dir.size && l < PTRS && Slot(disk, dir, j, l).0 != "-" ==>
      Slot(disk, dir, j, l).1 >= 0)
    && (forall j: nat, l: nat, k: nat, i: nat ::
          j < dir.size && l < PTRS && k < dir.size && i < PTRS
            && Slot(disk, dir, j, l).0 == Slot(disk, dir, k, i).0 != "-"
          ==> j == k && l == i)
  }

  ghost predicate NodeTidy(disk: Disk, i: Inode) {
    if i.kind.Dir? then IsDir(disk, i) && Tidy(disk, i) else i.refs >= 1
  }

  /** Every directory in use is tidy, and every file in use has a reference. */
  ghost predicate AllTidy(s: State) {
    forall n: nat :: n < |s.inodeMap| && MemInode(s.disk, s.inodeMap, n).Some? ==>
      NodeTidy(s.disk, MemInode(s.disk, s.inodeMap, n).value)
  }

  /** Slot `i` of block `k`, perhaps a new last block, now holds `e`; the others are as before. */
  ghost predicate OneSlot(disk: Disk, dir: Inode, disk': Disk, dir': Inode, k: nat, i: nat, e: (string, int)) {
    && IsDir(disk, dir) && IsDir(disk', dir') && dir.size <= dir'.size && k < dir'.size && i < PTRS
    && (forall j: nat, l: nat :: j < dir'.size && l < PTRS ==>
          Slot(disk', dir', j, l) == if j == k && l == i then e
            else if j < dir.size then Slot(disk, dir, j, l) else ("-", -1))
  }

  lemma RewrittenSlot(disk: Disk, dir: Inode, disk': Disk,
      dir': Inode, k: nat, i: nat, e: (string, int), entries: Entries)
    requires Rewritten(disk, dir, disk', dir', k, entries) && i < PTRS
    requires k < dir.size ==> |EntriesAt(disk, dir, k)| == PTRS && entries == EntriesAt(disk, dir, k)[i := e]
    requires k >= dir.size ==> entries == Empty()[i := e]
    ensures OneSlot(disk, dir, disk', dir', k, i, e)
  {
    hide InodeOk;
  }

  /** A slot that is freed, or given to a name not listed before. */
  lemma OneSlotTidy(disk: Disk, dir: Inode, disk': Disk, dir': Inode, k: nat, i: nat, e: (string, int))
    requires OneSlot(disk, dir, disk', dir', k, i, e) && Tidy(disk, dir)
    requires e.0 != "-" ==> e.1 >= 0 && forall j: nat, l: nat :: j < dir.size && l < PTRS ==>
      Slot(disk, dir, j, l).0 != e.0
    ensures Tidy(disk', dir')
  {
    hide InodeOk;
  }

  lemma {:induction false} NoneFrom(entries: Entries, m: string, from: nat, j: nat)
    requires from <= j < |entries| && FindNameFrom(entries, m, from) == -1
    ensures entries[j].0 != m
    decreases j - from
  {
    if from < j { NoneFrom(entries, m, from + 1, j); }
  }

  lemma NotListed(disk: Disk, dir: Inode, name: string)
    requires IsDir(disk, dir) && FindSlot(disk, dir, name, 0).0 == -1
    ensures forall j: nat, l: nat :: j < dir.size && l < PTRS ==> Slot(disk, dir, j, l).0 != name
  {
    hide InodeOk, FindSlot;
    forall j: nat, l: nat | j < dir.size && l < PTRS ensures Slot(disk, dir, j, l).0 != name {
      EntriesLength(disk, dir, j);
      NotInBlock(disk, dir, name, 0, j);
      NoneFrom(EntriesAt(disk, dir, j), name, 0, l);
    }
  }

  lemma Numbered(disk: Disk, dir: Inode, name: string)
    requires IsDir(disk, dir) && Tidy(disk, dir) && FindSlot(disk, dir, name, 0).0 != -1 && name != "-"
    ensures Number(disk, dir, name) >= 0
  {
    hide InodeOk, FindSlot;
    var (k, i) := FindSlot(disk, dir, name, 0);
    assert Slot(disk, dir, k, i).0 == name;
  }

  /** In a tidy directory a name without a number is not listed. */
  lemma NoNumber(disk: Disk, dir: Inode, name: string)
    requires IsDir(disk, dir) && Tidy(disk, dir) && Number(disk, dir, name) == -1 && name != "-"
    ensures FindSlot(disk, dir, name, 0).0 == -1
  {
    hide InodeOk, FindSlot, Number;
    if FindSlot(disk, dir, name, 0).0 != -1 { Numbered(disk, dir, name); }
  }

  /** The slot an entry is added in, and what was there: what the name "-" leads to. */
  lemma AddedSlot(disk: Disk, dir: Inode, disk': Disk, dir': Inode, name: string, n: nat) returns (k: nat, i: nat)
    requires IsDir(disk, dir) && AddEntry(disk, dir, name, n).Some?
    requires var (k, size, entries) := AddEntry(disk, dir, name, n).value; Rewritten(disk, dir, disk', dir', k, entries)
    ensures OneSlot(disk, dir, disk', dir', k, i, (name, n))
    ensures Number(disk, dir, "-") == if k < dir.size then Slot(disk, dir, k, i).1 else -1
  {
    hide InodeOk, FindSlot;
    var (block, size, entries) := AddEntry(disk, dir, name, n).value;
    var (j, l) := FindSlot(disk, dir, "-", 0);
    k, i := block, if j != -1 then l else 0;
    if j != -1 { EntriesLength(disk, dir, j); }
    RewrittenSlot(disk, dir, disk', dir', k, i, (name, n), entries);
  }

  /** A directory with a new entry for a name that had no number. */
  lemma AddedTidy(disk: Disk, dir: Inode, disk': Disk, dir': Inode, name: string, n: nat)
    requires IsDir(disk, dir) && AddEntry(disk, dir, name, n).Some? && Tidy(disk, dir) && Number(disk, dir, name) == -1
    requires var (k, size, entries) := AddEntry(disk, dir, name, n).value; Rewritten(disk, dir, disk', dir', k, entries)
    ensures Tidy(disk', dir')
  {
    hide InodeOk, FindSlot, Tidy, Number;
    var k, i := AddedSlot(disk, dir, disk', dir', name, n);
    if name != "-" {
      NoNumber(disk, dir, name);
      NotListed(disk, dir, name);
    }
    OneSlotTidy(disk, dir, disk', dir', k, i, (name, n));
  }

  lemma NodeTidyStays(disk: Disk, disk': Disk, i: Inode)
    requires NodeTidy(disk, i) && disk <= disk'
    ensures NodeTidy(disk', i)
  {
    if i.kind.Dir? {
      InodeStays(disk, disk', i);
      forall j: nat, l: nat | j < i.size && l < PTRS ensures Slot(disk', i, j, l) == Slot(disk, i, j, l) {
        assert PointsAtDir(disk, i.pointers[j]);
      }
    }
  }

  /** All other numbers lead where they did, to directories that are as they were. */
  lemma OthersTidy(s: State, t: State, p: nat, n: nat)
    requires AllTidy(s) && s.disk <= t.disk && |s.inodeMap| == |t.inodeMap| == INODES && p < INODES && n < INODES
    requires Shaped(s)
    requires forall i: nat :: i < INODES && i != p && i != n ==> t.inodeMap[i] == s.inodeMap[i]
    requires MemInode(t.disk, t.inodeMap, p).Some? ==> NodeTidy(t.disk, MemInode(t.disk, t.inodeMap, p).value)
    requires MemInode(t.disk, t.inodeMap, n).Some? ==> NodeTidy(t.disk, MemInode(t.disk, t.inodeMap, n).value)
    ensures AllTidy(t)
  {
    hide NodeTidy, DiskOk;
    forall i: nat | i < INODES && MemInode(t.disk, t.inodeMap, i).Some?
      ensures NodeTidy(t.disk, MemInode(t.disk, t.inodeMap, i).value)
    {
      if i != p && i != n {
        assert MemInode(s.disk, s.inodeMap, i) == MemInode(t.disk, t.inodeMap, i);
        NodeTidyStays(s.disk, t.disk, MemInode(s.disk, s.inodeMap, i).value);
      }
    }
  }

  lemma TidyOf(s: State, p: nat, dir: Inode)
    requires AllTidy(s) && Legal(s, p, dir)
    ensures IsDir(s.disk, dir) && Tidy(s.disk, dir)
  {
    hide DiskOk, Tidy, IsDir;
  }

  lemma CreateTidy(s: State, p: nat, dir: Inode, name: string, n: nat, isFile: bool)
    requires Legal(s, p, dir) && IsDir(s.disk, dir) && AddEntry(s.disk, dir, name, n).Some? && n < INODES && n != p
    requires AllTidy(s) && Number(s.disk, dir, name) == -1
    ensures AllTidy(CreateState(s, p, dir, name, n, isFile))
  {
    hide Shaped, AddEntry, CreateState, Relog, DiskOk, InodeOk, FindSlot, NewNode, Tidy, AllTidy, Number, Rewritten;
    var t := CreateState(s, p, dir, name, n, isFile);
    CreateShaped(s, p, dir, name, n, isFile);
    ShapedSizes(t);
    CreateFacts(s, p, dir, name, n, isFile);
    TidyOf(s, p, dir);
    AddedTidy(s.disk, dir, t.disk, MemInode(t.disk, t.inodeMap, p).value, name, n);
    RewrittenIsDir(s.disk, dir, t.disk, MemInode(t.disk, t.inodeMap, p).value,
      AddEntry(s.disk, dir, name, n).value.0, AddEntry(s.disk, dir, name, n).value.2);
    NewNodeTidy(t.disk, isFile, |s.disk| + if isFile then 0 else 1, p, n);
    OthersTidy(s, t, p, n);
  }

  lemma RewrittenIsDir(disk: Disk, dir: Inode, disk': Disk, dir': Inode, k: nat, entries: Entries)
    requires Rewritten(disk, dir, disk', dir', k, entries)
    ensures IsDir(disk', dir')
  {
  }

  lemma NewNodeTidy(disk: Disk, isFile: bool, a: nat, p: nat, n: nat)
    requires !isFile ==> a < |disk| && disk[a] == DirBlock(NewDirEntries(p, n))
    ensures NodeTidy(disk, NewNode(isFile, a))
  {
    if !isFile {
      NewNodeOk(disk, isFile, a);
      var dir, e := NewNode(isFile, a), NewDirEntries(p, n);
      assert "."[0] == '.' && |"."| == 1 && |".."| == 2 && "-"[0] == '-' && "."[0] == ".."[0];
      forall j: nat, l: nat | j < dir.size && l < PTRS ensures j == 0 && Slot(disk, dir, j, l) == e[l] {
      }
    }
  }

  lemma LinkTidy(s: State, p: nat, dir: Inode, name: string, n: nat, src: Inode)
    requires Legal(s, p, dir) && IsDir(s.disk, dir) && AddEntry(s.disk, dir, name, n).Some? && n < INODES
    requires MemInode(s.disk, s.inodeMap, n) == Some(src) && src.kind.Reg?
    requires AllTidy(s) && Number(s.disk, dir, name) == -1
    ensures AllTidy(LinkState(s, p, dir, name, n, src))
  {
    hide Shaped, AddEntry, LinkState, Relog, DiskOk, InodeOk, FindSlot, Tidy, AllTidy, Number, Rewritten;
    var t := LinkState(s, p, dir, name, n, src);
    LinkShapedOnly(s, p, dir, name, n, src);
    ShapedSizes(t);
    LinkFacts(s, p, dir, name, n, src);
    TidyOf(s, p, dir);
    AddedTidy(s.disk, dir, t.disk, MemInode(t.disk, t.inodeMap, p).value, name, n);
    RewrittenIsDir(s.disk, dir, t.disk, MemInode(t.disk, t.inodeMap, p).value,
      AddEntry(s.disk, dir, name, n).value.0, AddEntry(s.disk, dir, name, n).value.2);
    FileTidy(s, n, src);
    OthersTidy(s, t, p, n);
  }

  lemma FileTidy(s: State, n: nat, file: Inode)
    requires AllTidy(s) && n < |s.inodeMap| && MemInode(s.disk, s.inodeMap, n) == Some(file) && file.kind.Reg?
    ensures file.refs >= 1
  {
  }

  lemma DeleteTidy(s: State, p: nat, dir: Inode, name: string, n: nat, file: Inode)
    requires Legal(s, p, dir) && IsDir(s.disk, dir) && FindSlot(s.disk, dir, name, 0).0 != -1 && n < INODES
    requires MemInode(s.disk, s.inodeMap, n) == Some(file) && file.kind.Reg? && AllTidy(s)
    ensures AllTidy(DeleteState(s, p, dir, name, n, file))
  {
    hide Shaped, DeleteState, Relog, DiskOk, InodeOk, FindSlot, Tidy, AllTidy, Number, Rewritten;
    var t := DeleteState(s, p, dir, name, n, file);
    DeleteShaped(s, p, dir, name, n, file);
    ShapedSizes(t);
    ShapedSizes(s);
    FileTidy(s, n, file);
    DeleteFacts(s, p, dir, name, n, file);
    TidyOf(s, p, dir);
    var (k, i) := FindSlot(s.disk, dir, name, 0);
    var dir' := MemInode(t.disk, t.inodeMap, p).value;
    RewrittenIsDir(s.disk, dir, t.disk, dir', k, EntriesAt(s.disk, dir, k)[i := ("-", -1)]);
    RewrittenSlot(s.disk, dir, t.disk, dir', k, i, ("-", -1), EntriesAt(s.disk, dir, k)[i := ("-", -1)]);
    OneSlotTidy(s.disk, dir, t.disk, dir', k, i, ("-", -1));
    OthersTidy(s, t, p, n);
  }

  lemma WriteTidy(s: State, n: nat, file: Inode, offset: nat, contents: seq<string>)
    requires Shaped(s) && n < INODES && MemInode(s.disk, s.inodeMap, n) == Some(file) && file.kind.Reg? && offset < PTRS
    requires |s.inodeMap| == INODES && |s.cr| == CHUNKS && |file.pointers| == PTRS && AllTidy(s)
    ensures AllTidy(WriteState(s, n, file, offset, contents))
  {
    hide Shaped, Tidy, AllTidy, DiskOk, InodeOk;
    FileTidy(s, n, file);
    var t, w := WriteState(s, n, file, offset, contents), Fits(offset, contents);
    WriteShaped(s, n, file, offset, contents);
    assert t.inodeMap[n] == |s.disk| + w && t.disk[|s.disk| + w] == Node(Written(file, offset, w, |s.disk|));
    OthersTidy(s, t, n, n);
  }

  /** The checkpoint block is in no directory. */
  lemma SyncTidy(s: State)
    requires Shaped(s) && AllTidy(s)
    ensures |s.disk| > 0 && AllTidy(Sync(s))
  {
    hide DiskOk, NodeTidy;
    SyncParts(s);
    var t := Sync(s);
    forall n: nat | n < INODES && MemInode(t.disk, t.inodeMap, n).Some?
      ensures NodeTidy(t.disk, MemInode(t.disk, t.inodeMap, n).value)
    {
      assert MemInode(s.disk, s.inodeMap, n) == MemInode(t.disk, t.inodeMap, n);
      NodeTidyUnderSync(s.disk, t.disk, MemInode(s.disk, s.inodeMap, n).value);
    }
  }

  lemma SyncParts(s: State)
    requires Shaped(s)
    ensures |s.disk| > 0 && s.disk[0].Checkpoint? && |s.inodeMap| == INODES
  {
  }

  lemma NodeTidyUnderSync(disk: Disk, disk': Disk, i: Inode)
    requires NodeTidy(disk, i) && |disk| == |disk'| > 0 && disk[0].Checkpoint?
      && (forall a :: 0 < a < |disk| ==> disk'[a] == disk[a])
    ensures NodeTidy(disk', i)
  {
    if i.kind.Dir? {
      forall j: nat | j < i.size
        ensures disk'[i.pointers[j]] == disk[i.pointers[j]] && PointsAtDir(disk', i.pointers[j])
      {
        assert PointsAtDir(disk, i.pointers[j]);
      }
      forall j: nat, l: nat | j < i.size && l < PTRS ensures Slot(disk', i, j, l) == Slot(disk, i, j, l) {
      }
    }
  }

  /** With no name twice, freeing a name's slot makes the name unknown. */
  lemma SlotFreed(disk: Disk, dir: Inode, disk': Disk, dir': Inode, name: string)
    requires IsDir(disk, dir) && Tidy(disk, dir)
      && FindSlot(disk, dir, name, 0).0 != -1 && name != "-" && dir'.size == dir.size
    requires var (k, i) := FindSlot(disk, dir, name, 0); OneSlot(disk, dir, disk', dir', k, i, ("-", -1))
    ensures Number(disk', dir', name) == -1
  {
    hide InodeOk, FindSlot;
    var (k, i) := FindSlot(disk, dir, name, 0);
    assert Slot(disk, dir, k, i).0 == name;
    NowhereFound(disk', dir', name, 0);
  }

  // ---------- a name after a create or a link ----------

  lemma {:induction false} FindSame(entries: Entries, i: nat, e: (string, int), from: nat)
    requires i < |entries| && from <= i && FindNameFrom(entries, e.0, from) == i
    ensures FindNameFrom(entries[i := e], e.0, from) == i
    decreases |entries| - from
  {
    if from < i { FindSame(entries, i, e, from + 1); }
  }

  /** The name "-" is that of free slots: a new entry of that name is the first of them. */
  lemma {:induction false} DashAfter(disk: Disk, dir: Inode, disk': Disk, dir': Inode, n: int, from: nat)
    requires IsDir(disk, dir) && AddEntry(disk, dir, "-", n).Some?
    requires var (k, size, entries) := AddEntry(disk, dir, "-", n).value;
      Rewritten(disk, dir, disk', dir', k, entries) && from <= k && from <= dir.size
    requires FindSlot(disk, dir, "-", from) == FindSlot(disk, dir, "-", 0)
    ensures var (j, i) := FindSlot(disk', dir', "-", from); j != -1 && EntriesAt(disk', dir', j)[i].1 == n
    decreases dir'.size - from
  {
    hide InodeOk, FindName;
    var (k, size, entries) := AddEntry(disk, dir, "-", n).value;
    var (j, i) := FindSlot(disk, dir, "-", 0);
    if from < k {
      DashAfter(disk, dir, disk', dir', n, from + 1);
    } else if j != -1 {
      EntriesLength(disk, dir, k);
      DashInBlock(EntriesAt(disk, dir, k), i, n);
    } else {
      DashInEmpty();
      DashInBlock(Empty(), 0, n);
    }
  }

  lemma DashInEmpty()
    ensures FindName(Empty(), "-") == 0
  {
  }

  lemma DashInBlock(entries: Entries, i: nat, n: int)
    requires i < |entries| && FindName(entries, "-") == i
    ensures FindName(entries[i := ("-", n)], "-") == i
  {
    FindSame(entries, i, ("-", n), 0);
  }

  /** Where a name leads after an entry has been added: for every name but "-", and for "-" if that was added. */
  lemma NumberAfter(disk: Disk, dir: Inode, disk': Disk, dir': Inode, name: string, n: nat, m: string)
    requires IsDir(disk, dir) && AddEntry(disk, dir, name, n).Some? && Tidy(disk, dir) && Number(disk, dir, name) == -1
    requires var (k, size, entries) := AddEntry(disk, dir, name, n).value; Rewritten(disk, dir, disk', dir', k, entries)
    requires m == "-" ==> name == "-"
    ensures IsDir(disk', dir') && Number(disk', dir', m) == if m == name then n as int else Number(disk, dir, m)
  {
    hide InodeOk, FindSlot, FindName, Tidy;
    if m == "-" {
      DashAfter(disk, dir, disk', dir', n, 0);
    } else {
      if m == name { NoNumber(disk, dir, name); }
      LookupAfter(disk, dir, disk', dir', name, n, m, 0);
    }
  }

  /** After a create the directory leads from the new name to the new inode, and from every other name to where
      it led before. */
  lemma CreateNames(s: State, p: nat, dir: Inode, name: string, n: nat, isFile: bool, m: string)
    requires Legal(s, p, dir) && IsDir(s.disk, dir) && AddEntry(s.disk, dir, name, n).Some? && n < INODES && n != p
    requires AllTidy(s) && Number(s.disk, dir, name) == -1 && (m == "-" ==> name == "-")
    ensures var t := CreateState(s, p, dir, name, n, isFile);
      && MemInode(t.disk, t.inodeMap, p).Some?
      && var dir' := MemInode(t.disk, t.inodeMap, p).value;
      IsDir(t.disk, dir') && Number(t.disk, dir', m) == (if m == name then n as int else Number(s.disk, dir, m))
    ensures var t := CreateState(s, p, dir, name, n, isFile);
      && (forall i: nat :: i < INODES && i != p && i != n ==> t.inodeMap[i] == s.inodeMap[i])
      && (exists a :: MemInode(t.disk, t.inodeMap, n) == Some(NewNode(isFile, a)))
  {
    hide Shaped, AddEntry, CreateState, Relog, DiskOk, InodeOk, FindSlot, NewNode, Tidy, AllTidy, Number, Rewritten;
    TidyOf(s, p, dir);
    CreateFacts(s, p, dir, name, n, isFile);
    var t := CreateState(s, p, dir, name, n, isFile);
    NumberAfter(s.disk, dir, t.disk, MemInode(t.disk, t.inodeMap, p).value, name, n, m);
  }

  /** After a link the new name leads to the linked file, and every other name where it led before. */
  lemma LinkNames(s: State, p: nat, dir: Inode, name: string, n: nat, src: Inode, m: string)
    requires Legal(s, p, dir) && IsDir(s.disk, dir) && AddEntry(s.disk, dir, name, n).Some? && n < INODES && n != p
    requires AllTidy(s) && Number(s.disk, dir, name) == -1 && (m == "-" ==> name == "-")
    ensures var t := LinkState(s, p, dir, name, n, src);
      && MemInode(t.disk, t.inodeMap, p).Some?
      && var dir' := MemInode(t.disk, t.inodeMap, p).value;
      IsDir(t.disk, dir') && Number(t.disk, dir', m) == (if m == name then n as int else Number(s.disk, dir, m))
  {
    hide Shaped, AddEntry, LinkState, Relog, DiskOk, InodeOk, FindSlot, Tidy, AllTidy, Number, Rewritten;
    TidyOf(s, p, dir);
    LinkFacts(s, p, dir, name, n, src);
    var t := LinkState(s, p, dir, name, n, src);
    NumberAfter(s.disk, dir, t.disk, MemInode(t.disk, t.inodeMap, p).value, name, n, m);
  }

  /** After a delete the directory leads from the name deleted nowhere, and from every other name to where it led
      before; the file has one reference less, or is gone with the last. */
  lemma DeleteNames(s: State, p: nat, dir: Inode, name: string, n: nat, file: Inode, m: string)
    requires Legal(s, p, dir) && IsDir(s.disk, dir) && FindSlot(s.disk, dir, name, 0).0 != -1 && n < INODES && n != p
    requires MemInode(s.disk, s.inodeMap, n) == Some(file) && file.kind.Reg? && AllTidy(s) && m != "-"
    ensures var t := DeleteState(s, p, dir, name, n, file);
      && MemInode(t.disk, t.inodeMap, p).Some?
      && var dir' := MemInode(t.disk, t.inodeMap, p).value;
      IsDir(t.disk, dir') && Number(t.disk, dir', m) == (if m == name then -1 else Number(s.disk, dir, m))
    ensures var t := DeleteState(s, p, dir, name, n, file);
      MemInode(t.disk, t.inodeMap, n) == if file.refs == 1 then None else Some(file.(refs := file.refs - 1))
  {
    hide Shaped, DeleteState, Relog, DiskOk, InodeOk, FindSlot, Tidy, AllTidy, Number, Rewritten;
    ShapedSizes(s);
    FileTidy(s, n, file);
    DeleteFacts(s, p, dir, name, n, file);
    TidyOf(s, p, dir);
    var t := DeleteState(s, p, dir, name, n, file);
    var (k, i) := FindSlot(s.disk, dir, name, 0);
    var dir' := MemInode(t.disk, t.inodeMap, p).value;
    RewrittenIsDir(s.disk, dir, t.disk, dir', k, EntriesAt(s.disk, dir, k)[i := ("-", -1)]);
    if m == name {
      RewrittenSlot(s.disk, dir, t.disk, dir', k, i, ("-", -1), EntriesAt(s.disk, dir, k)[i := ("-", -1)]);
      SlotFreed(s.disk, dir, t.disk, dir', name);
    } else {
      LookupOthers(s.disk, dir, t.disk, dir', name, m, 0);
      SameNumber(s.disk, dir, t.disk, dir', m);
    }
  }

  lemma SameNumber(disk: Disk, dir: Inode, disk': Disk, dir': Inode, m: string)
    requires IsDir(disk, dir) && IsDir(disk', dir')
    requires var (j, l) := FindSlot(disk, dir, m, 0);
      FindSlot(disk', dir', m, 0) == (j, l) && (j != -1 ==> EntriesAt(disk', dir', j)[l] == EntriesAt(disk, dir, j)[l])
    ensures Number(disk', dir', m) == Number(disk, dir, m)
  {
    hide InodeOk, FindSlot;
  }
}
